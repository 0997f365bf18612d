/** The UTF-8 encoding of RFC 3629, section 3, which `str.encode("utf-8")` produces. */
module Utf8 {

  type byte = x: int | 0 <= x < 0x100

  /** The bytes of one code point. */
  function EncodeChar(c: char): (bs: seq<byte>)
    ensures bs != []
  {
    var n := c as int;
    if n < 0x80 then [n]
    else if n < 0x800 then [0xC0 + n / 0x40, 0x80 + n % 0x40]
    else if n < 0x1_0000 then [0xE0 + n / 0x1000, 0x80 + n / 0x40 % 0x40, 0x80 + n % 0x40]
    else [0xF0 + n / 0x4_0000, 0x80 + n / 0x1000 % 0x40, 0x80 + n / 0x40 % 0x40, 0x80 + n % 0x40]
  }

  function Encode(s: string): seq<byte> {
    if s == "" then [] else EncodeChar(s[0]) + Encode(s[1..])
  }

  /** How many bytes the code point takes that starts with this byte. */
  function CharLen(lead: byte): nat {
    if lead < 0x80 then 1 else if lead < 0xE0 then 2 else if lead < 0xF0 then 3 else 4
  }

  /** The code point at the front of some bytes. */
  function FirstCode(bs: seq<byte>): int
    requires bs != [] && |bs| >= CharLen(bs[0])
  {
    var lead: int := bs[0];
    match CharLen(bs[0])
    case 1 => lead
    case 2 => (lead - 0xC0) * 0x40 + Tail(bs[1])
    case 3 => (lead - 0xE0) * 0x1000 + Tail(bs[1]) * 0x40 + Tail(bs[2])
    case _ => (lead - 0xF0) * 0x4_0000 + Tail(bs[1]) * 0x1000 + Tail(bs[2]) * 0x40 + Tail(bs[3])
  }

  /** The six bits that a continuation byte carries. */
  function Tail(b: byte): int {
    b as int - 0x80
  }

  /** Decoding undoes encoding, whatever follows. */
  lemma DecodesFirst(c: char, rest: seq<byte>)
    ensures CharLen((EncodeChar(c) + rest)[0]) == |EncodeChar(c)|
    ensures FirstCode(EncodeChar(c) + rest) == c as int
  {
    var n := c as int;
    assert n / 0x40 / 0x40 == n / 0x1000;
    assert n / 0x1000 / 0x40 == n / 0x4_0000;
  }

  lemma EncodeCharInjective(c: char, d: char, x: seq<byte>, y: seq<byte>)
    requires EncodeChar(c) + x == EncodeChar(d) + y
    ensures c == d && x == y
  {
    DecodesFirst(c, x);
    DecodesFirst(d, y);
    assert (EncodeChar(c) + x)[|EncodeChar(c)|..] == x;
    assert (EncodeChar(d) + y)[|EncodeChar(d)|..] == y;
  }

  /** Different texts have different bytes. */
  lemma {:induction false} EncodeInjective(s: string, t: string)
    requires Encode(s) == Encode(t)
    ensures s == t
  {
    if s != "" && t != "" {
      EncodeCharInjective(s[0], t[0], Encode(s[1..]), Encode(t[1..]));
      EncodeInjective(s[1..], t[1..]);
    }
  }

  lemma {:induction false} EncodeAppend(s: string, t: string)
    ensures Encode(s + t) == Encode(s) + Encode(t)
  {
    if s == "" {
      assert s + t == t;
    } else {
      EncodeAppend(s[1..], t);
      assert (s + t)[1..] == s[1..] + t && (s + t)[0] == s[0];
    }
  }

  /** A continuation byte, by its value. */
  predicate Continues(b: byte) {
    128 <= b < 192
  }

  /** The number of bytes and their values for each range of code points: always the shortest form. */
  lemma CodePointBytes(c: char)
    ensures var n, bs := c as int, EncodeChar(c);
            && (n <= 127 ==> bs == [n])
            && (128 <= n <= 2047 ==>
                 |bs| == 2 && 194 <= bs[0] < 224 && Continues(bs[1])
                 && n == (bs[0] as int - 192) * 64 + (bs[1] as int - 128))
            && (2048 <= n <= 65535 ==>
                 |bs| == 3 && 224 <= bs[0] < 240 && Continues(bs[1]) && Continues(bs[2])
                 && n == (bs[0] as int - 224) * 4096 + (bs[1] as int - 128) * 64 + (bs[2] as int - 128))
            && (65536 <= n ==>
                 |bs| == 4 && 240 <= bs[0] < 245 && Continues(bs[1]) && Continues(bs[2]) && Continues(bs[3])
                 && n == (bs[0] as int - 240) * 262144 + (bs[1] as int - 128) * 4096
                      + (bs[2] as int - 128) * 64 + (bs[3] as int - 128))
  {
    var n := c as int;
    assert n / 0x40 / 0x40 == n / 0x1000;
    assert n / 0x1000 / 0x40 == n / 0x4_0000;
  }
}
