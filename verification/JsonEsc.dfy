/** The JSON strings that the driver bench prints, against a reader after section 7 of RFC 8259. */
module JsonEsc {
  import opened Text
  import opened Utf8

  const QUOTE: byte := 0x22
  const BACKSLASH: byte := 0x5C
  const SLASH: byte := 0x2F
  const TAB: byte := 0x09
  const NEWLINE: byte := 0x0A
  const RETURN: byte := 0x0D

  /** One hexadecimal digit, in lower case. */
  function HexDigit(d: int): byte
    requires 0 <= d < 0x10
  {
    if d < 10 then 0x30 + d else 0x61 + (d - 10)
  }

  /** `%04x` */
  function Hex4(n: int): seq<byte>
    requires 0 <= n < 0x1_0000
  {
    [HexDigit(n / 0x1000), HexDigit(n / 0x100 % 0x10), HexDigit(n / 0x10 % 0x10), HexDigit(n % 0x10)]
  }

  function EscByte(c: byte): (e: seq<byte>)
    ensures e != []
  {
    if c == QUOTE then [BACKSLASH, QUOTE]
    else if c == BACKSLASH then [BACKSLASH, BACKSLASH]
    else if c == NEWLINE then [BACKSLASH, 0x6E]
    else if c == RETURN then [BACKSLASH, 0x72]
    else if c == TAB then [BACKSLASH, 0x74]
    else if c < 0x20 then [BACKSLASH, 0x75] + Hex4(c)
    else [c]
  }

  /** What `esc` gives for a text. */
  function Escaped(s: seq<byte>): seq<byte> {
    Collect(EscByte, s)
  }

  /** `esc`, which appends byte by byte. */
  method Esc(s: seq<byte>) returns (o: seq<byte>)
    ensures o == Escaped(s)
  {
    o := [];
    for i := 0 to |s|
      invariant o == Escaped(s[..i])
    {
      var c := s[i];
      ghost var before := o;
      if c == QUOTE {
        o := o + [BACKSLASH, QUOTE];
      } else if c == BACKSLASH {
        o := o + [BACKSLASH, BACKSLASH];
      } else if c == NEWLINE {
        o := o + [BACKSLASH, 0x6E];
      } else if c == RETURN {
        o := o + [BACKSLASH, 0x72];
      } else if c == TAB {
        o := o + [BACKSLASH, 0x74];
      } else if c < 0x20 {
        o := o + ([BACKSLASH, 0x75] + Hex4(c));
      } else {
        o := o + [c];
      }
      assert o == before + EscByte(c);
      EscapedSnoc(s, i);
    }
    assert s[..|s|] == s;
  }

  lemma EscapedSnoc(s: seq<byte>, i: nat)
    requires i < |s|
    ensures Escaped(s[..i + 1]) == Escaped(s[..i]) + EscByte(s[i])
  {
    assert s[..i + 1] == s[..i] + [s[i]];
    CollectAppend(EscByte, s[..i], [s[i]]);
    CollectCons(EscByte, s[i], []);
  }

  // ----- the reader -------------------------------------------------------------------------

  /** The value of a hexadecimal digit, in either case. */
  function DigitValue(b: byte): (r: Option<int>)
    ensures r.Some? ==> 0 <= r.value < 0x10
  {
    if 0x30 <= b <= 0x39 then Some(b as int - 0x30)
    else if 0x41 <= b <= 0x46 then Some(b as int - 0x41 + 10)
    else if 0x61 <= b <= 0x66 then Some(b as int - 0x61 + 10)
    else None
  }

  /** Four hexadecimal digits at `i`. */
  function Quad(bs: seq<byte>, i: nat): (r: Option<int>)
    ensures r.Some? ==> i + 4 <= |bs| && 0 <= r.value < 0x1_0000
  {
    if i + 4 > |bs| then None
    else
      var a, b, c, d := DigitValue(bs[i]), DigitValue(bs[i + 1]), DigitValue(bs[i + 2]), DigitValue(bs[i + 3]);
      if a.Some? && b.Some? && c.Some? && d.Some?
      then Some(a.value * 0x1000 + b.value * 0x100 + c.value * 0x10 + d.value)
      else None
  }

  /** What an escape stands for, and where it ends. */
  datatype Piece = Piece(bytes: seq<byte>, end: nat)

  /** The escape whose `\u` is at `i`: a code point, or a surrogate pair. */
  function ReadUnicode(bs: seq<byte>, i: nat): (r: Option<Piece>)
    ensures r.Some? ==> i < r.value.end <= |bs|
  {
    var high := Quad(bs, i + 2);
    if high.None? then None
    else if !(0xD800 <= high.value < 0xE000) then Some(Piece(EncodeChar(high.value as char), i + 6))
    else if high.value >= 0xDC00 || i + 8 > |bs| || bs[i + 6] != BACKSLASH || bs[i + 7] != 0x75 then None
    else
      var low := Quad(bs, i + 8);
      if low.None? || !(0xDC00 <= low.value < 0xE000) then None
      else
        var n := 0x1_0000 + (high.value - 0xD800) * 0x400 + (low.value - 0xDC00);
        Some(Piece(EncodeChar(n as char), i + 12))
  }

  /** The escape whose backslash is at `i`. */
  function ReadEscape(bs: seq<byte>, i: nat): (r: Option<Piece>)
    ensures r.Some? ==> i < r.value.end <= |bs|
  {
    if i + 2 > |bs| then None
    else
      var c := bs[i + 1];
      if c == QUOTE || c == BACKSLASH || c == SLASH then Some(Piece([c], i + 2))
      else if c == 0x62 then Some(Piece([0x08], i + 2))
      else if c == 0x66 then Some(Piece([0x0C], i + 2))
      else if c == 0x6E then Some(Piece([NEWLINE], i + 2))
      else if c == 0x72 then Some(Piece([RETURN], i + 2))
      else if c == 0x74 then Some(Piece([TAB], i + 2))
      else if c == 0x75 then ReadUnicode(bs, i)
      else None
  }

  /** The character or escape at `i`; a quote or a control byte is neither. */
  function FirstPiece(bs: seq<byte>, i: nat): (r: Option<Piece>)
    requires i < |bs|
    ensures r.Some? ==> i < r.value.end <= |bs|
  {
    if bs[i] == BACKSLASH then ReadEscape(bs, i)
    else if bs[i] == QUOTE || bs[i] < 0x20 then None
    else Some(Piece([bs[i]], i + 1))
  }

  /** The rest of a string literal from `i` on: its value, and the place after its closing quote. */
  function ReadString(bs: seq<byte>, i: nat): Option<Piece>
    decreases |bs| - i
  {
    if i >= |bs| then None
    else if bs[i] == QUOTE then Some(Piece([], i + 1))
    else
      var first := FirstPiece(bs, i);
      if first.None? then None
      else
        var more := ReadString(bs, first.value.end);
        if more.None? then None else Some(Piece(first.value.bytes + more.value.bytes, more.value.end))
  }

  // ----- the round trip ---------------------------------------------------------------------

  lemma ReadsByte(c: byte, bs: seq<byte>, i: nat)
    requires i + |EscByte(c)| <= |bs| && bs[i..i + |EscByte(c)|] == EscByte(c)
    ensures FirstPiece(bs, i) == Some(Piece([c], i + |EscByte(c)|))
  {
    var e := EscByte(c);
    assert forall k | 0 <= k < |e| :: bs[i..i + |e|][k] == e[k];
    if |e| == 6 {
      ReadsControl(c, bs, i);
    } else {
      assert bs[i] == e[0] && (|e| == 2 ==> bs[i + 1] == e[1]);
    }
  }

  lemma DigitReads(d: int)
    requires 0 <= d < 0x10
    ensures DigitValue(HexDigit(d)) == Some(d)
  {
  }

  lemma ReadsControl(c: byte, bs: seq<byte>, i: nat)
    requires c < 0x20 && i + 6 <= |bs|
    requires bs[i] == BACKSLASH && bs[i + 1] == 0x75
    requires forall k | 0 <= k < 4 :: bs[i + 2 + k] == Hex4(c)[k]
    ensures FirstPiece(bs, i) == Some(Piece([c], i + 6))
  {
    DigitReads(0);
    DigitReads(c / 0x10);
    DigitReads(c % 0x10);
    hide HexDigit, DigitValue;
    assert Quad(bs, i + 2) == Some(c as int) by {
      assert bs[i + 2] == Hex4(c)[0] == HexDigit(0);
      assert bs[i + 2 + 1] == Hex4(c)[1] == HexDigit(0);
      assert bs[i + 2 + 2] == Hex4(c)[2] == HexDigit(c / 0x10);
      assert bs[i + 2 + 3] == Hex4(c)[3] == HexDigit(c % 0x10);
    }
  }

  /** Whatever was printed before and comes after, the reader finds the text back and stops right
      behind the closing quote. */
  lemma {:induction false} ReadUndoesEsc(s: seq<byte>, bs: seq<byte>, i: nat)
    requires i + |Escaped(s)| < |bs|
    requires bs[i..i + |Escaped(s)|] == Escaped(s) && bs[i + |Escaped(s)|] == QUOTE
    ensures ReadString(bs, i) == Some(Piece(s, i + |Escaped(s)| + 1))
  {
    hide EscByte, FirstPiece;
    if s == [] {
    } else {
      var e, rest := EscByte(s[0]), Escaped(s[1..]);
      var j := i + |e|;
      SliceSplits(bs, i, e, rest);
      ReadsByte(s[0], bs, i);
      ReadUndoesEsc(s[1..], bs, j);
      NotAQuote(s[0], bs, i);
      assert s == [s[0]] + s[1..];
    }
  }

  lemma SliceSplits(bs: seq<byte>, i: nat, a: seq<byte>, b: seq<byte>)
    requires i + |a| + |b| <= |bs| && bs[i..i + |a + b|] == a + b
    ensures bs[i..i + |a|] == a && bs[i + |a|..i + |a| + |b|] == b
  {
    var all := bs[i..i + |a + b|];
    assert bs[i..i + |a|] == all[..|a|];
    assert bs[i + |a|..i + |a| + |b|] == all[|a|..];
  }

  lemma NotAQuote(c: byte, bs: seq<byte>, i: nat)
    requires i + |EscByte(c)| <= |bs| && bs[i..i + |EscByte(c)|] == EscByte(c)
    ensures bs[i] != QUOTE
  {
    assert bs[i] == bs[i..i + |EscByte(c)|][0];
  }

  /** A printed string literal reads back as the text, for every byte string and in every document. */
  lemma LiteralRoundTrip(before: seq<byte>, s: seq<byte>, after: seq<byte>)
    ensures ReadString(before + [QUOTE] + Escaped(s) + [QUOTE] + after, |before| + 1)
         == Some(Piece(s, |before| + |Escaped(s)| + 2))
  {
    hide Escaped;
    var bs := before + [QUOTE] + Escaped(s) + [QUOTE] + after;
    assert bs[|before| + 1..|before| + 1 + |Escaped(s)|] == Escaped(s);
    ReadUndoesEsc(s, bs, |before| + 1);
  }

  /** No two texts are printed alike. */
  lemma EscInjective(s: seq<byte>, t: seq<byte>)
    requires Escaped(s) == Escaped(t)
    ensures s == t
  {
    hide Escaped, ReadString;
    var bs := [] + [QUOTE] + Escaped(s) + [QUOTE] + [];
    assert bs == [] + [QUOTE] + Escaped(t) + [QUOTE] + [];
    LiteralRoundTrip([], s, []);
    LiteralRoundTrip([], t, []);
  }

  /** From `i` on there is no control byte, and no quote but those that a backslash escapes. */
  predicate NothingBare(e: seq<byte>, i: nat)
    decreases |e| - i
  {
    i >= |e| || (e[i] >= 0x20 && e[i] != QUOTE
                 && (if e[i] != BACKSLASH then NothingBare(e, i + 1)
                     else i + 1 < |e| && e[i + 1] >= 0x20 && NothingBare(e, i + 2)))
  }

  lemma {:induction false} PlainBytes(e: seq<byte>, i: nat, j: nat)
    requires i <= j <= |e| && NothingBare(e, j)
    requires forall k | i <= k < j :: e[k] >= 0x20 && e[k] != QUOTE && e[k] != BACKSLASH
    ensures NothingBare(e, i)
    decreases j - i
  {
    if i == j {
    } else {
      PlainBytes(e, i + 1, j);
    }
  }

  /** The output of `esc` holds no bare quote and no control byte. */
  lemma {:induction false} OutputIsPlain(s: seq<byte>, e: seq<byte>, i: nat)
    requires i <= |e| && e[i..] == Escaped(s)
    ensures NothingBare(e, i)
  {
    if s == [] {
    } else {
      var first := EscByte(s[0]);
      assert e[i..] == first + Escaped(s[1..]);
      assert e[i + |first|..] == Escaped(s[1..]);
      OutputIsPlain(s[1..], e, i + |first|);
      assert forall k | 0 <= k < |first| :: e[i + k] == e[i..][k] == first[k];
      if |first| == 6 {
        PlainBytes(e, i + 2, i + 6);
      }
    }
  }
}
