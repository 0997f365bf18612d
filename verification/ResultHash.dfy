/** `hash_result_rows`: the byte stream that is fed to SHA-256 as a canonical form of a multiset of
    rows. The digest itself is taken as injective on the streams that occur. */
module ResultHash {
  import opened Text
  import opened Bags
  import opened Sorting
  import opened Utf8

  /** A result cell: floats come with their `repr`, other values with their `str`. */
  datatype Cell = Null | Float(repr: string) | Bytes(bs: seq<byte>) | Other(str: string)

  function HexDigit(n: int): char
    requires 0 <= n < 16
  {
    "0123456789abcdef"[n]
  }

  function Hex(bs: seq<byte>): string {
    if bs == [] then "" else [HexDigit(bs[0] / 16), HexDigit(bs[0] % 16)] + Hex(bs[1..])
  }

  /** `_render_cell` */
  function RenderCell(c: Cell): string {
    match c
    case Null => "NULL"
    case Float(repr) => repr
    case Bytes(bs) => Hex(bs)
    case Other(str) => str
  }

  function RenderCells(row: seq<Cell>): seq<string> {
    seq(|row|, k requires 0 <= k < |row| => RenderCell(row[k]))
  }

  function TabJoin(cells: seq<string>): string {
    Join(cells, "\t")
  }

  /** `_render_row` */
  function RenderRow(row: seq<Cell>): string {
    TabJoin(RenderCells(row))
  }

  /** Python's order on strings: by code point, a prefix first. */
  predicate LexLe(a: string, b: string) {
    a == "" || (b != "" && (a[0] < b[0] || (a[0] == b[0] && LexLe(a[1..], b[1..]))))
  }

  function Lines(rows: seq<seq<Cell>>): seq<string> {
    seq(|rows|, k requires 0 <= k < |rows| => RenderRow(rows[k]))
  }

  /** Every line followed by its line feed. */
  function LinesText(lines: seq<string>): string {
    if lines == [] then "" else lines[0] + "\n" + LinesText(lines[1..])
  }

  /** The bytes that the hash is computed of. */
  function Stream(rows: seq<seq<Cell>>): seq<byte> {
    Encode(LinesText(Sort(LexLe, Lines(rows))))
  }

  /** `hash_result_rows`, with the hash state as the bytes fed to it so far. */
  method HashResultRows(rows: seq<seq<Cell>>) returns (fed: seq<byte>, count: nat)
    ensures fed == Stream(rows)
    ensures count == |rows|
  {
    hide LexLe, Sort, RenderRow;
    var rendered := Sort(LexLe, Lines(rows));
    SortMultiset(LexLe, Lines(rows));
    fed := [];
    assert rendered[0..] == rendered;
    for k := 0 to |rendered|
      invariant Stream(rows) == fed + Encode(LinesText(rendered[k..]))
    {
      var line := rendered[k];
      assert rendered[k..][0] == line && rendered[k..][1..] == rendered[k + 1..];
      ghost var rest := LinesText(rendered[k + 1..]);
      EncodeLine(line, rest);
      FedSoFar(fed, Encode(line), [10], Encode(rest));
      fed := fed + Encode(line);
      fed := fed + [10];
    }
    assert rendered[|rendered|..] == [];
    count := |rendered|;
  }

  lemma FedSoFar(a: seq<byte>, b: seq<byte>, c: seq<byte>, d: seq<byte>)
    ensures a + (b + c + d) == a + b + c + d
  {
  }

  lemma EncodeLine(line: string, rest: string)
    ensures Encode(line + "\n" + rest) == Encode(line) + [10] + Encode(rest)
  {
    EncodeAppend(line + "\n", rest);
    EncodeAppend(line, "\n");
    assert "\n"[1..] == "" && Encode("") == [];
  }

  // ----- the order ------------------------------------------------------------------------

  lemma {:induction false} LexTotal(a: string, b: string)
    ensures LexLe(a, a)
    ensures LexLe(a, b) || LexLe(b, a)
    ensures LexLe(a, b) && LexLe(b, a) ==> a == b
  {
    if a == "" {
    } else {
      LexTotal(a[1..], if b == "" then "" else b[1..]);
    }
  }

  lemma {:induction false} LexTransitive(a: string, b: string, c: string)
    requires LexLe(a, b) && LexLe(b, c)
    ensures LexLe(a, c)
  {
    if a != "" && a[0] == b[0] == c[0] {
      LexTransitive(a[1..], b[1..], c[1..]);
    }
  }

  lemma LexIsTotalOrder()
    ensures TotalOrder(LexLe)
  {
    forall a, b ensures LexLe(a, a) && (LexLe(a, b) || LexLe(b, a)) && (LexLe(a, b) && LexLe(b, a) ==> a == b) {
      LexTotal(a, b);
    }
    forall a, b, c | LexLe(a, b) && LexLe(b, c) ensures LexLe(a, c) {
      LexTransitive(a, b, c);
    }
  }

  // ----- decoding the stream ----------------------------------------------------------------

  /** The text up to the first `sep`. */
  function Until(s: string, sep: char, i: nat): nat
    requires i <= |s|
    decreases |s| - i
  {
    if i == |s| || s[i] == sep then i else Until(s, sep, i + 1)
  }

  lemma {:induction false} UntilIs(a: string, sep: char, rest: string, i: nat)
    requires i <= |a| && sep !in a && (rest == "" || rest[0] == sep)
    ensures Until(a + rest, sep, i) == |a|
    decreases |a| - i
  {
    if i == |a| {
    } else {
      assert (a + rest)[i] == a[i];
      UntilIs(a, sep, rest, i + 1);
    }
  }

  lemma SamePart(a: string, b: string, sep: char, x: string, y: string)
    requires sep !in a && sep !in b && a + x == b + y
    requires (x == "" || x[0] == sep) && (y == "" || y[0] == sep)
    ensures a == b && x == y
  {
    UntilIs(a, sep, x, 0);
    UntilIs(b, sep, y, 0);
    assert (a + x)[..|a|] == a && (b + y)[..|b|] == b;
    assert (a + x)[|a|..] == x && (b + y)[|b|..] == y;
  }

  predicate NoneHolds(parts: seq<string>, c: char) {
    forall k | 0 <= k < |parts| :: c !in parts[k]
  }

  lemma {:induction false} LinesTextInjective(a: seq<string>, b: seq<string>)
    requires NoneHolds(a, '\n') && NoneHolds(b, '\n')
    requires LinesText(a) == LinesText(b)
    ensures a == b
  {
    if a != [] && b != [] {
      var x, y := LinesText(a[1..]), LinesText(b[1..]);
      assert a[0] + "\n" + x == a[0] + ("\n" + x) && b[0] + "\n" + y == b[0] + ("\n" + y);
      SamePart(a[0], b[0], '\n', "\n" + x, "\n" + y);
      assert ("\n" + x)[1..] == x && ("\n" + y)[1..] == y;
      LinesTextInjective(a[1..], b[1..]);
      assert a == [a[0]] + a[1..] && b == [b[0]] + b[1..];
    }
  }

  lemma {:induction false} TabsInjective(a: seq<string>, b: seq<string>)
    requires a != [] && b != [] && NoneHolds(a, '\t') && NoneHolds(b, '\t')
    requires Join(a, "\t") == Join(b, "\t")
    ensures a == b
  {
    var x := if |a| == 1 then "" else "\t" + Join(a[1..], "\t");
    var y := if |b| == 1 then "" else "\t" + Join(b[1..], "\t");
    assert Join(a, "\t") == a[0] + x && Join(b, "\t") == b[0] + y;
    SamePart(a[0], b[0], '\t', x, y);
    if |a| > 1 {
      assert x[1..] == Join(a[1..], "\t") && y[1..] == Join(b[1..], "\t");
      TabsInjective(a[1..], b[1..]);
    }
    assert a == [a[0]] + a[1..] && b == [b[0]] + b[1..];
  }

  // ----- the contract -----------------------------------------------------------------------

  /** The order of the rows never matters. */
  lemma OrderDoesNotMatter(a: seq<seq<Cell>>, b: seq<seq<Cell>>)
    requires multiset(a) == multiset(b)
    ensures Stream(a) == Stream(b)
  {
    hide RenderRow;
    LexIsTotalOrder();
    MapMultiset(RenderRow, a, b);
    assert Lines(a) == Map(RenderRow, a) && Lines(b) == Map(RenderRow, b);
    SortIsCanonical(LexLe, Lines(a), Lines(b));
  }

  /** A row that can be read back from its line: it has cells, and none shows a tab or a line feed. */
  predicate Readable(row: seq<Cell>) {
    row != [] && Clean(row)
  }

  /** No cell of the row shows a tab or a line feed. */
  predicate Clean(row: seq<Cell>) {
    NoneHolds(RenderCells(row), '\t') && NoneHolds(RenderCells(row), '\n')
  }

  lemma {:induction false} JoinHolds(parts: seq<string>, c: char)
    requires NoneHolds(parts, c) && c != '\t'
    ensures c !in Join(parts, "\t")
  {
    if |parts| > 1 {
      JoinHolds(parts[1..], c);
    }
  }

  lemma SortedLinesHold(rows: seq<seq<Cell>>)
    requires forall r | r in rows :: Clean(r)
    ensures NoneHolds(Sort(LexLe, Lines(rows)), '\n')
  {
    var sorted := Sort(LexLe, Lines(rows));
    SortMultiset(LexLe, Lines(rows));
    forall k | 0 <= k < |sorted|
      ensures '\n' !in sorted[k]
    {
      assert sorted[k] in multiset(Lines(rows));
      var j :| 0 <= j < |rows| && Lines(rows)[j] == sorted[k];
      assert rows[j] in rows;
      JoinHolds(RenderCells(rows[j]), '\n');
    }
  }

  /** Equal streams are equal multisets of lines. */
  lemma StreamIsLines(a: seq<seq<Cell>>, b: seq<seq<Cell>>)
    requires forall r | r in a || r in b :: Clean(r)
    ensures Stream(a) == Stream(b) <==> multiset(Lines(a)) == multiset(Lines(b))
  {
    hide Clean, RenderRow;
    LexIsTotalOrder();
    SortIsCanonical(LexLe, Lines(a), Lines(b));
    if Stream(a) == Stream(b) {
      SortedLinesHold(a);
      SortedLinesHold(b);
      EncodeInjective(LinesText(Sort(LexLe, Lines(a))), LinesText(Sort(LexLe, Lines(b))));
      LinesTextInjective(Sort(LexLe, Lines(a)), Sort(LexLe, Lines(b)));
    }
  }

  lemma TabJoinTellsApart(a: seq<seq<Cell>>, b: seq<seq<Cell>>)
    requires forall r | r in a || r in b :: Readable(r)
    ensures forall p, q | p in Map(RenderCells, a) && q in Map(RenderCells, b) :: TabJoin(p) == TabJoin(q) ==> p == q
  {
    forall p, q | p in Map(RenderCells, a) && q in Map(RenderCells, b) && TabJoin(p) == TabJoin(q)
      ensures p == q
    {
      var i :| 0 <= i < |a| && p == RenderCells(a[i]);
      var j :| 0 <= j < |b| && q == RenderCells(b[j]);
      assert Readable(a[i]) && Readable(b[j]);
      TabsInjective(p, q);
    }
  }

  /** The contract on rendered rows: for rows that can be read back, the streams are equal exactly
      when the rendered rows are the same as multisets. */
  lemma StreamIsCanonical(a: seq<seq<Cell>>, b: seq<seq<Cell>>)
    requires forall r | r in a || r in b :: Readable(r)
    ensures Stream(a) == Stream(b) <==> multiset(Map(RenderCells, a)) == multiset(Map(RenderCells, b))
  {
    hide *;
    ReadableIsClean(a, b);
    StreamIsLines(a, b);
    TabJoinTellsApart(a, b);
    LinesAreJoined(a);
    LinesAreJoined(b);
    MapMultisetIff(TabJoin, Map(RenderCells, a), Map(RenderCells, b));
  }

  lemma ReadableIsClean(a: seq<seq<Cell>>, b: seq<seq<Cell>>)
    requires forall r | r in a || r in b :: Readable(r)
    ensures forall r | r in a || r in b :: Clean(r)
  {
    hide Clean;
  }

  lemma LinesAreJoined(rows: seq<seq<Cell>>)
    ensures Lines(rows) == Map(TabJoin, Map(RenderCells, rows))
  {
    hide TabJoin, RenderCells;
    var cells := Map(RenderCells, rows);
    assert forall k | 0 <= k < |rows| :: cells[k] == RenderCells(rows[k]);
    assert forall k | 0 <= k < |rows| :: Lines(rows)[k] == TabJoin(cells[k]);
  }

  /** No two different cells of the results look alike. */
  predicate Faithful(a: seq<seq<Cell>>, b: seq<seq<Cell>>) {
    forall r, s, c, d | r in a && s in b && c in r && d in s :: RenderCell(c) == RenderCell(d) ==> c == d
  }

  /** The contract on the rows themselves needs one more condition, that no two different cells
      look alike. */
  lemma StreamIsCanonicalOnRows(a: seq<seq<Cell>>, b: seq<seq<Cell>>)
    requires forall r | r in a || r in b :: Readable(r)
    requires Faithful(a, b)
    ensures Stream(a) == Stream(b) <==> multiset(a) == multiset(b)
  {
    hide Stream, Readable, RenderCell;
    StreamIsCanonical(a, b);
    forall r, s | r in a && s in b && RenderCells(r) == RenderCells(s)
      ensures r == s
    {
      assert |r| == |RenderCells(r)| && |s| == |RenderCells(s)|;
      forall k | 0 <= k < |r|
        ensures r[k] == s[k]
      {
        assert RenderCells(r)[k] == RenderCell(r[k]) && RenderCells(s)[k] == RenderCell(s[k]);
      }
    }
    MapMultisetIff(RenderCells, a, b);
  }

  // ----- when the contract holds ------------------------------------------------------------

  /** A result whose cells are of the domain; rows without cells only if they are admitted. */
  ghost predicate Over(dom: Cell -> bool, emptyRows: bool, rows: seq<seq<Cell>>) {
    forall r | r in rows :: (r == [] ==> emptyRows) && forall c | c in r :: dom(c)
  }

  /** The documented contract, on all results over a domain of cells: the streams are equal if and
      only if the results are equal as multisets of rows. */
  ghost predicate ContractOn(dom: Cell -> bool, emptyRows: bool) {
    forall a, b | Over(dom, emptyRows, a) && Over(dom, emptyRows, b) ::
      Stream(a) == Stream(b) <==> multiset(a) == multiset(b)
  }

  /** No two different cells of the domain look alike. */
  ghost predicate TellsApart(dom: Cell -> bool) {
    forall c, d | dom(c) && dom(d) :: RenderCell(c) == RenderCell(d) ==> c == d
  }

  ghost predicate ShowsNoSeparator(dom: Cell -> bool) {
    forall c | dom(c) :: '\t' !in RenderCell(c) && '\n' !in RenderCell(c)
  }

  ghost predicate AlwaysShows(dom: Cell -> bool) {
    forall c | dom(c) :: RenderCell(c) != ""
  }

  lemma OverIsClean(dom: Cell -> bool, row: seq<Cell>)
    requires ShowsNoSeparator(dom) && forall c | c in row :: dom(c)
    ensures Clean(row)
  {
    hide RenderCell;
    forall k | 0 <= k < |row|
      ensures '\t' !in RenderCells(row)[k] && '\n' !in RenderCells(row)[k]
    {
      assert row[k] in row;
    }
  }

  /** A row with cells has a line with text if its cells have. */
  lemma LineShows(dom: Cell -> bool, row: seq<Cell>)
    requires AlwaysShows(dom) && row != [] && forall c | c in row :: dom(c)
    ensures RenderRow(row) != ""
  {
    hide RenderCell;
    var cells := RenderCells(row);
    assert row[0] in row;
    assert cells[0] == RenderCell(row[0]) != "";
    assert |Join(cells, "\t")| >= |cells[0]|;
  }

  /** A line tells its row. */
  lemma LineTellsRow(dom: Cell -> bool, emptyRows: bool, r: seq<Cell>, s: seq<Cell>)
    requires ShowsNoSeparator(dom) && TellsApart(dom) && (emptyRows ==> AlwaysShows(dom))
    requires Over(dom, emptyRows, [r]) && Over(dom, emptyRows, [s]) && RenderRow(r) == RenderRow(s)
    ensures r == s
  {
    hide RenderCell;
    var p, q := RenderCells(r), RenderCells(s);
    assert r in [r] && s in [s];
    OverIsClean(dom, r);
    OverIsClean(dom, s);
    if r != [] && s != [] {
      TabsInjective(p, q);
    } else {
      NoCells();
      if r != [] {
        LineShows(dom, r);
      }
      if s != [] {
        LineShows(dom, s);
      }
    }
    forall k | 0 <= k < |r|
      ensures |p| == |q| == |r| == |s| && r[k] == s[k]
    {
      assert p[k] == RenderCell(r[k]) && q[k] == RenderCell(s[k]);
      assert r[k] in r && s[k] in s;
    }
    assert |p| == |r| && |q| == |s|;
  }

  lemma ContractHolds(dom: Cell -> bool, emptyRows: bool, a: seq<seq<Cell>>, b: seq<seq<Cell>>)
    requires ShowsNoSeparator(dom) && TellsApart(dom) && (emptyRows ==> AlwaysShows(dom))
    requires Over(dom, emptyRows, a) && Over(dom, emptyRows, b)
    ensures Stream(a) == Stream(b) <==> multiset(a) == multiset(b)
  {
    hide Stream, RenderRow, RenderCell, Clean;
    forall r | r in a || r in b ensures Clean(r) {
      OverIsClean(dom, r);
    }
    StreamIsLines(a, b);
    forall r, s | r in a && s in b && RenderRow(r) == RenderRow(s) ensures r == s {
      LineTellsRow(dom, emptyRows, r, s);
    }
    assert Lines(a) == Map(RenderRow, a) && Lines(b) == Map(RenderRow, b);
    MapMultisetIff(RenderRow, a, b);
  }

  /** Rows that look alike make equal streams. */
  lemma SameLook(r: seq<Cell>, s: seq<Cell>)
    requires RenderRow(r) == RenderRow(s)
    ensures Stream([r]) == Stream([s])
    ensures r != s ==> multiset([r]) != multiset([s])
  {
    hide RenderRow;
    OneLine(r, RenderRow(r));
    OneLine(s, RenderRow(s));
    assert r in multiset([r]);
  }

  lemma OneCell(c: Cell)
    ensures RenderRow([c]) == RenderCell(c)
  {
    assert RenderCells([c]) == [RenderCell(c)];
  }

  lemma NothingToSee(dom: Cell -> bool, c: Cell)
    requires dom(c) && RenderCell(c) == ""
    ensures !ContractOn(dom, true)
  {
    hide Stream, RenderRow;
    OneCell(c);
    NoCells();
    SameLook([c], []);
    assert [c][0] == c;
    assert Over(dom, true, [[c]]) && Over(dom, true, [[]]);
  }

  /** When the contract holds, for cells that show no tab or line feed: exactly when no two different
      cells look alike and, if rows without cells occur, no cell looks like nothing. */
  lemma ContractIff(dom: Cell -> bool, emptyRows: bool)
    requires ShowsNoSeparator(dom)
    ensures ContractOn(dom, emptyRows) <==> TellsApart(dom) && (emptyRows ==> AlwaysShows(dom))
  {
    hide Stream, RenderRow, RenderCell;
    if ContractOn(dom, emptyRows) {
      forall c, d | dom(c) && dom(d) && RenderCell(c) == RenderCell(d)
        ensures c == d
      {
        OneCell(c);
        OneCell(d);
        SameLook([c], [d]);
        assert Over(dom, emptyRows, [[c]]) && Over(dom, emptyRows, [[d]]);
        assert [c][0] == c && [d][0] == d;
      }
      forall c | emptyRows && dom(c)
        ensures RenderCell(c) != ""
      {
        if RenderCell(c) == "" {
          NothingToSee(dom, c);
        }
      }
    }
    if TellsApart(dom) && (emptyRows ==> AlwaysShows(dom)) {
      forall a, b | Over(dom, emptyRows, a) && Over(dom, emptyRows, b)
        ensures Stream(a) == Stream(b) <==> multiset(a) == multiset(b)
      {
        ContractHolds(dom, emptyRows, a, b);
      }
    }
  }

  lemma NoCells()
    ensures RenderRow([]) == ""
  {
  }

  /** Text cells over an alphabet. */
  ghost function TextCells(alphabet: set<char>): Cell -> bool {
    (c: Cell) => c.Other? && forall k | 0 <= k < |c.str| :: c.str[k] in alphabet
  }

  /** For text cells the contract holds exactly when neither a tab nor a line feed can occur. */
  lemma TextContractIff(alphabet: set<char>)
    ensures ContractOn(TextCells(alphabet), false) <==> '\t' !in alphabet && '\n' !in alphabet
  {
    hide Stream, RenderRow, ContractOn;
    var dom := TextCells(alphabet);
    if '\t' in alphabet {
      var one, two := [[Other("\t")]], [[Other(""), Other("")]];
      TabLooksLikeTwo();
      SameLook(one[0], two[0]);
      assert Over(dom, false, one) && Over(dom, false, two);
      ContractFails(dom, one, two);
    } else if '\n' in alphabet {
      var one, two := [[Other("\n")]], [[Other("")], [Other("")]];
      LineFeedLooksLikeTwo();
      assert Over(dom, false, one) && Over(dom, false, two);
      assert |multiset(one)| == 1 && |multiset(two)| == 2;
      ContractFails(dom, one, two);
    } else {
      assert ShowsNoSeparator(dom) && TellsApart(dom);
      ContractIff(dom, false);
    }
  }

  lemma ContractFails(dom: Cell -> bool, a: seq<seq<Cell>>, b: seq<seq<Cell>>)
    requires Over(dom, false, a) && Over(dom, false, b)
    requires Stream(a) == Stream(b) && multiset(a) != multiset(b)
    ensures !ContractOn(dom, false)
  {
    hide Stream;
  }

  lemma TabLooksLikeTwo()
    ensures RenderRow([Other("\t")]) == RenderRow([Other(""), Other("")])
  {
    assert RenderCells([Other("\t")]) == ["\t"];
    assert RenderCells([Other(""), Other("")]) == ["", ""] && ["", ""][1..] == [""];
  }

  lemma LineFeedLooksLikeTwo()
    ensures Stream([[Other("\n")]]) == Stream([[Other("")], [Other("")]])
  {
    hide Encode;
    var two := [[Other("")], [Other("")]];
    OneCell(Other("\n"));
    OneCell(Other(""));
    assert RenderRow(two[0]) == "" && RenderRow(two[1]) == "";
    OneLine([Other("\n")], "\n");
    assert Lines(two) == ["", ""];
    assert Sort(LexLe, ["", ""]) == ["", ""] by {
      assert ["", ""][1..] == [""] && [""][1..] == [];
      assert Sort(LexLe, [""]) == [""];
    }
    assert ["", ""][1..] == [""] && [""][1..] == [] && ["\n"][1..] == [];
    assert LinesText([""]) == "" + "\n" + "";
    assert LinesText(["", ""]) == "" + "\n" + LinesText([""]);
    assert LinesText(["", ""]) == "\n\n";
    assert LinesText(["\n"]) == "\n" + "\n" + "" == "\n\n";
    assert Sort(LexLe, Lines(two)) == ["", ""];
    assert Stream(two) == Encode("\n\n");
  }

  lemma TwoLines()
    ensures LinesText(Sort(LexLe, Lines([[Other("a")], [Other("b")]]))) == LinesText(["a\nb"])
  {
    var two := [[Other("a")], [Other("b")]];
    assert RenderRow([Other("a")]) == "a" && RenderRow([Other("b")]) == "b";
    assert Lines(two) == ["a", "b"];
    assert Sort(LexLe, ["a", "b"][1..]) == ["b"] by {
      assert ["a", "b"][1..] == ["b"] && Sort(LexLe, ["b"][1..]) == [];
    }
    assert Sort(LexLe, ["a", "b"]) == ["a", "b"];
    assert ["a", "b"][1..] == ["b"] && ["b"][1..] == [] && ["a\nb"][1..] == [];
    assert LinesText(["b"]) == "b" + "\n" + "";
    assert LinesText(["a\nb"]) == "a\nb" + "\n" + "";
  }

  /** Without the side conditions the contract fails: a tab moves between cells, a line feed makes
      one row look like two, a row without cells looks like a row of one empty cell, and the NULL
      value looks like the text. */
  lemma ContractNeedsItsConditions()
    ensures Stream([[Other("a\tb")]]) == Stream([[Other("a"), Other("b")]])
    ensures Stream([[Other("a\nb")]]) == Stream([[Other("a")], [Other("b")]])
    ensures Stream([[]]) == Stream([[Other("")]])
    ensures Stream([[Null]]) == Stream([[Other("NULL")]])
    ensures multiset([[Other("a\tb")]]) != multiset([[Other("a"), Other("b")]])
    ensures multiset([[Other("a\nb")]]) != multiset([[Other("a")], [Other("b")]])
    ensures multiset([[]]) != multiset([[Other("")]])
    ensures multiset([[Null]]) != multiset([[Other("NULL")]])
  {
    TheyDiffer();
    hide Encode, Sort;
    OneLine([Other("a\tb")], "a\tb");
    assert RenderCells([Other("a"), Other("b")])[1..] == ["b"];
    OneLine([Other("a"), Other("b")], "a\tb");
    OneLine([], "");
    OneLine([Other("")], "");
    OneLine([Null], "NULL");
    OneLine([Other("NULL")], "NULL");
    OneLine([Other("a\nb")], "a\nb");
    TwoLines();
  }

  lemma TheyDiffer()
    ensures multiset([[Other("a\tb")]]) != multiset([[Other("a"), Other("b")]])
    ensures multiset([[Other("a\nb")]]) != multiset([[Other("a")], [Other("b")]])
    ensures multiset([[]]) != multiset([[Other("")]])
    ensures multiset([[Null]]) != multiset([[Other("NULL")]])
  {
    OneIsNot([Other("a\tb")], [Other("a"), Other("b")]);
    assert |multiset([[Other("a\nb")]])| == 1 && |multiset([[Other("a")], [Other("b")]])| == 2;
    OneIsNot([], [Other("")]);
    OneIsNot([Null], [Other("NULL")]);
  }

  lemma OneIsNot<T>(x: T, y: T)
    requires x != y
    ensures multiset([x]) != multiset([y])
  {
    assert x in multiset([x]) && x !in multiset([y]);
  }

  lemma OneLine(row: seq<Cell>, line: string)
    requires RenderRow(row) == line
    ensures Stream([row]) == Encode(LinesText([line]))
  {
    assert Lines([row]) == [line];
    assert Sort(LexLe, [line]) == [line];
  }
}
