/** Which cells and rows the hash can tell apart, said of the cells' own contents: `repr` texts of
    floats, bytes of byte strings, `str` texts of everything else. */
module CellLooks {
  import opened Text
  import opened Utf8
  import opened ResultHash

  /** The value of a lower-case hex digit, and -1 of any other character. */
  function DigitValue(c: char): int {
    var n := c as int;
    if 48 <= n <= 57 then n - 48 else if 97 <= n <= 102 then n - 87 else -1
  }

  /** Two lower-case hex digits for each byte, the higher four bits first. */
  predicate SpellsBytes(text: string, bs: seq<byte>) {
    && |text| == 2 * |bs|
    && forall k | 0 <= k < |bs| ::
         var high, low := DigitValue(text[2 * k]), DigitValue(text[2 * k + 1]);
         high >= 0 && low >= 0 && 16 * high + low == bs[k]
  }

  /** The two cells print alike. */
  predicate Alike(c: Cell, d: Cell) {
    match c
    case Null => d.Null? || (d.Float? && d.repr == "NULL") || (d.Other? && d.str == "NULL")
    case Float(text) => ShowsText(d, text)
    case Other(text) => ShowsText(d, text)
    case Bytes(bs) =>
      match d {
        case Null => false
        case Float(text) => SpellsBytes(text, bs)
        case Other(text) => SpellsBytes(text, bs)
        case Bytes(bs') => bs == bs'
      }
  }

  predicate ShowsText(c: Cell, text: string) {
    match c
    case Null => text == "NULL"
    case Float(repr) => text == repr
    case Other(str) => text == str
    case Bytes(bs) => SpellsBytes(text, bs)
  }

  // ----- what a cell shows ------------------------------------------------------------------

  lemma HexDigitIs(n: int)
    requires 0 <= n < 16
    ensures DigitValue(HexDigit(n)) == n
  {
  }

  lemma DigitsDiffer(c: char, d: char)
    requires DigitValue(c) == DigitValue(d) >= 0
    ensures c == d
  {
  }

  lemma {:induction false} HexSpells(bs: seq<byte>)
    ensures SpellsBytes(Hex(bs), bs)
  {
    hide DigitValue, HexDigit;
    if bs != [] {
      HexSpells(bs[1..]);
      HexDigitIs(bs[0] / 16);
      HexDigitIs(bs[0] % 16);
      SpellsMore(HexDigit(bs[0] / 16), HexDigit(bs[0] % 16), bs[0], Hex(bs[1..]), bs[1..]);
      assert bs == [bs[0]] + bs[1..];
    }
  }

  lemma SpellsMore(high: char, low: char, b: byte, text: string, bs: seq<byte>)
    requires DigitValue(high) >= 0 && DigitValue(low) >= 0 && 16 * DigitValue(high) + DigitValue(low) == b
    requires SpellsBytes(text, bs)
    ensures SpellsBytes([high, low] + text, [b] + bs)
  {
    hide DigitValue;
    var text', bs' := [high, low] + text, [b] + bs;
    assert |text'| == 2 * |bs'|;
    forall k | 0 <= k < |bs'|
      ensures DigitValue(text'[2 * k]) >= 0 && DigitValue(text'[2 * k + 1]) >= 0
      ensures 16 * DigitValue(text'[2 * k]) + DigitValue(text'[2 * k + 1]) == bs'[k]
    {
      if k > 0 {
        assert text'[2 * k] == text[2 * (k - 1)] && text'[2 * k + 1] == text[2 * (k - 1) + 1];
        assert bs'[k] == bs[k - 1];
      }
    }
  }

  lemma SpellingIsUnique(a: string, b: string, bs: seq<byte>)
    requires SpellsBytes(a, bs) && SpellsBytes(b, bs)
    ensures a == b
  {
    forall i | 0 <= i < |a|
      ensures a[i] == b[i]
    {
      var k := i / 2;
      SameByte(DigitValue(a[2 * k]), DigitValue(a[2 * k + 1]), DigitValue(b[2 * k]), DigitValue(b[2 * k + 1]));
      DigitsDiffer(a[2 * k], b[2 * k]);
      DigitsDiffer(a[2 * k + 1], b[2 * k + 1]);
      assert i == 2 * k || i == 2 * k + 1;
    }
  }

  lemma SameByte(a: int, b: int, c: int, d: int)
    requires 16 * a + b == 16 * c + d && 0 <= b < 16 && 0 <= d < 16
    ensures a == c && b == d
  {
  }

  lemma BytesAreUnique(text: string, a: seq<byte>, b: seq<byte>)
    requires SpellsBytes(text, a) && SpellsBytes(text, b)
    ensures a == b
  {
    forall k | 0 <= k < |a|
      ensures a[k] == b[k]
    {
      assert a[k] == 16 * DigitValue(text[2 * k]) + DigitValue(text[2 * k + 1]);
    }
  }

  lemma NullSpellsNothing(bs: seq<byte>)
    ensures !SpellsBytes("NULL", bs)
  {
    if SpellsBytes("NULL", bs) {
      FirstIsDigit("NULL", bs);
    }
  }

  lemma FirstIsDigit(text: string, bs: seq<byte>)
    requires SpellsBytes(text, bs) && text != ""
    ensures DigitValue(text[0]) >= 0
  {
    assert text[0] == text[2 * 0];
  }

  lemma RenderedIs(c: Cell, text: string)
    ensures RenderCell(c) == text <==> ShowsText(c, text)
  {
    hide SpellsBytes;
    if c.Bytes? {
      HexSpells(c.bs);
      if SpellsBytes(text, c.bs) {
        SpellingIsUnique(text, Hex(c.bs), c.bs);
      }
    }
  }

  lemma AlikeIs(c: Cell, d: Cell)
    ensures RenderCell(c) == RenderCell(d) <==> Alike(c, d)
  {
    hide SpellsBytes, Hex;
    RenderedIs(d, RenderCell(c));
    RenderedIs(c, RenderCell(d));
    if c.Bytes? {
      HexSpells(c.bs);
      NullSpellsNothing(c.bs);
      if d.Bytes? && SpellsBytes(Hex(c.bs), d.bs) {
        BytesAreUnique(Hex(c.bs), c.bs, d.bs);
      }
    }
    if d.Bytes? {
      NullSpellsNothing(d.bs);
    }
  }

  lemma LineText(line: string)
    ensures LinesText([line]) == line + "\n"
  {
    assert [line][1..] == [] && line + "\n" + "" == line + "\n";
  }

  /** The stream of one cell: its text and a line feed. */
  lemma OneCellStream(c: Cell, text: string)
    requires ShowsText(c, text)
    ensures Stream([[c]]) == Encode(text + "\n")
  {
    hide RenderRow, ShowsText;
    RenderedIs(c, text);
    OneCell(c);
    OneLine([c], text);
    LineText(text);
  }

  lemma StreamOfCell(c: Cell)
    ensures Stream([[c]]) == Encode(RenderCell(c) + "\n")
  {
    hide *;
    RenderedIs(c, RenderCell(c));
    OneCellStream(c, RenderCell(c));
  }

  /** Two cells have one stream exactly when they print alike, over all cells: floats with the same
      `repr`, equal bytes, equal texts, and across kinds the text "NULL" and the hex digits. */
  lemma SameStreamIffAlike(c: Cell, d: Cell)
    ensures Stream([[c]]) == Stream([[d]]) <==> Alike(c, d)
  {
    hide *;
    StreamOfCell(c);
    StreamOfCell(d);
    AlikeIs(c, d);
    var a, b := RenderCell(c) + "\n", RenderCell(d) + "\n";
    if Stream([[c]]) == Stream([[d]]) {
      EncodeInjective(a, b);
      assert a[..|a| - 1] == RenderCell(c) && b[..|b| - 1] == RenderCell(d);
    }
  }

  /** The cells of a row are set apart by tabs, and the row ends in a line feed. */
  lemma RowOfTwo(x: string, y: string)
    ensures Stream([[Float(x), Other(y)]]) == Encode(x + "\t" + y + "\n")
  {
    hide Encode;
    var row := [Float(x), Other(y)];
    assert RenderCells(row) == [x, y] && [x, y][1..] == [y];
    assert Join([y], "\t") == y;
    OneLine(row, x + "\t" + y);
    LineText(x + "\t" + y);
  }

  // ----- the contract -----------------------------------------------------------------------

  /** A text without tab and line feed. */
  predicate PlainText(text: string) {
    forall k | 0 <= k < |text| :: text[k] as int != 9 && text[k] as int != 10
  }

  predicate PlainCell(c: Cell) {
    (c.Float? ==> PlainText(c.repr)) && (c.Other? ==> PlainText(c.str))
  }

  predicate EmptyCell(c: Cell) {
    c == Float("") || c == Other("") || c == Bytes([])
  }

  lemma PlainShows(c: Cell)
    requires PlainCell(c)
    ensures '\t' !in RenderCell(c) && '\n' !in RenderCell(c)
    ensures RenderCell(c) == "" <==> EmptyCell(c)
  {
    if c.Bytes? {
      HexSpells(c.bs);
      forall i | 0 <= i < |Hex(c.bs)|
        ensures Hex(c.bs)[i] != '\t' && Hex(c.bs)[i] != '\n'
      {
        assert DigitValue(Hex(c.bs)[2 * (i / 2)]) >= 0 && DigitValue(Hex(c.bs)[2 * (i / 2) + 1]) >= 0;
        assert i == 2 * (i / 2) || i == 2 * (i / 2) + 1;
      }
    }
  }

  /** When equal streams mean equal multisets of rows, over any domain of cells whose texts hold no
      separator: exactly when no two different cells of it print alike and, if rows without cells
      occur, it has no empty cell. */
  lemma ContractIffAlike(dom: Cell -> bool, emptyRows: bool)
    requires forall c | dom(c) :: PlainCell(c)
    ensures ContractOn(dom, emptyRows) <==>
            (forall c, d | dom(c) && dom(d) :: Alike(c, d) ==> c == d)
            && (emptyRows ==> forall c | dom(c) :: !EmptyCell(c))
  {
    hide RenderCell, Alike, PlainCell, ContractOn;
    forall c | dom(c)
      ensures '\t' !in RenderCell(c) && '\n' !in RenderCell(c) && (RenderCell(c) == "" <==> EmptyCell(c))
    {
      PlainShows(c);
    }
    forall c, d
      ensures RenderCell(c) == RenderCell(d) <==> Alike(c, d)
    {
      AlikeIs(c, d);
    }
    ContractIff(dom, emptyRows);
  }

  /** Over floats alone the contract holds as soon as no `repr` holds a tab or a line feed. */
  lemma FloatContract(dom: Cell -> bool)
    requires forall c | dom(c) :: c.Float? && PlainText(c.repr)
    ensures ContractOn(dom, false)
  {
    hide ContractOn;
    ContractIffAlike(dom, false);
  }

  /** Over byte strings alone it always holds. */
  lemma BytesContract(dom: Cell -> bool)
    requires forall c | dom(c) :: c.Bytes?
    ensures ContractOn(dom, false)
  {
    hide ContractOn;
    ContractIffAlike(dom, false);
  }

  // ----- the order of the lines -------------------------------------------------------------

  /** `a` comes before `b` at their first difference, at place `k`. */
  predicate LessAt(a: string, b: string, k: nat) {
    k < |a| && k < |b| && a[..k] == b[..k] && a[k] < b[k]
  }

  /** Lines are ordered by code point at their first difference, and a prefix comes first. */
  lemma {:induction false} LineOrderIs(a: string, b: string)
    ensures LexLe(a, b) <==> a <= b || exists k: nat :: LessAt(a, b, k)
  {
    if a != "" && b != "" && a[0] == b[0] {
      LineOrderIs(a[1..], b[1..]);
      assert a <= b <==> a[1..] <= b[1..];
      if k: nat :| LessAt(a[1..], b[1..], k) {
        assert a[..k + 1] == [a[0]] + a[1..][..k] && b[..k + 1] == [b[0]] + b[1..][..k];
        assert LessAt(a, b, k + 1);
      }
      if k: nat :| LessAt(a, b, k) {
        assert k > 0;
        assert a[1..][..k - 1] == a[..k][1..] && b[1..][..k - 1] == b[..k][1..];
        assert LessAt(a[1..], b[1..], k - 1);
      }
    } else if a != "" && b != "" && a[0] < b[0] {
      assert LessAt(a, b, 0);
    } else if a != "" && b != "" {
      forall k: nat
        ensures !LessAt(a, b, k)
      {
        if k > 0 && k < |a| && k < |b| {
          assert a[..k][0] == a[0] && b[..k][0] == b[0];
        }
      }
    }
  }
}
