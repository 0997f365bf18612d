/** Letters, white space and line ends by their code points, independently of how `Text` and
    `SqlTokens` decide them. */
module Letters {
  import opened Text
  import opened SqlTokens
  import opened Splitters

  /** `t` is the lower-case word `w`, each letter in either case. */
  predicate Spells(t: string, w: string) {
    && |t| == |w|
    && forall k | 0 <= k < |t| :: t[k] == w[k] || (97 <= w[k] as int <= 122 && t[k] as int == w[k] as int - 32)
  }

  /** The word has no capital among the ASCII letters. */
  predicate IsSmall(w: string) {
    forall k | 0 <= k < |w| :: !(65 <= w[k] as int <= 90)
  }

  /** The code points of white space. */
  predicate White(n: int) {
    || 0x9 <= n <= 0xd || 0x1c <= n <= 0x20 || n == 0x85 || n == 0xa0 || n == 0x1680
    || 0x2000 <= n <= 0x200a || n == 0x2028 || n == 0x2029 || n == 0x202f || n == 0x205f || n == 0x3000
  }

  predicate OnlyWhite(t: string) {
    forall k | 0 <= k < |t| :: White(t[k] as int)
  }

  /** Lower-casing maps the 26 ASCII capitals 32 places up and keeps every other character. */
  lemma LowerCharIs(c: char)
    ensures LowerChar(c) as int == if 65 <= c as int <= 90 then c as int + 32 else c as int
  {
  }

  lemma SameChar(a: char, b: char)
    requires a as int == b as int
    ensures a == b
  {
  }

  /** A text lower-cases to a word exactly when it spells that word in some letter case. */
  lemma LowerIs(t: string, w: string)
    requires IsSmall(w)
    ensures Lower(t) == w <==> Spells(t, w)
  {
    if Spells(t, w) {
      forall k | 0 <= k < |t|
        ensures Lower(t)[k] == w[k]
      {
        LowerCharIs(t[k]);
        SameChar(LowerChar(t[k]), w[k]);
      }
    }
    if Lower(t) == w {
      forall k | 0 <= k < |t|
        ensures t[k] == w[k] || (97 <= w[k] as int <= 122 && t[k] as int == w[k] as int - 32)
      {
        assert w[k] == Lower(t)[k];
        LowerCharIs(t[k]);
        if !(65 <= t[k] as int <= 90) {
          SameChar(t[k], w[k]);
        }
      }
    }
  }

  /** White space is decided by these code points. */
  lemma SpaceIs(c: char)
    ensures IsSpace(c) <==> White(c as int)
  {
  }

  lemma BlankIs(t: string)
    ensures Blank(t) <==> OnlyWhite(t)
  {
    hide White;
    forall k | 0 <= k < |t|
      ensures IsSpace(t[k]) <==> White(t[k] as int)
    {
      SpaceIs(t[k]);
    }
  }

  /** Lines end at these code points. */
  lemma LineBreakIs(c: char)
    ensures IsLineBreak(c) <==>
            var n := c as int; 0xa <= n <= 0xd || 0x1c <= n <= 0x1e || n == 0x85 || n == 0x2028 || n == 0x2029
  {
  }

  /** The characters of identifiers, the quote and the semicolon. */
  lemma IdentCharIs(c: char)
    ensures IsIdentStart(c) <==>
            var n := c as int; 65 <= n <= 90 || 97 <= n <= 122 || n == 95
    ensures IsIdentChar(c) <==>
            var n := c as int; 48 <= n <= 57 || 65 <= n <= 90 || 97 <= n <= 122 || n == 95
    ensures c == QUOTE <==> c as int == 39
    ensures c == SEMI <==> c as int == 59
  {
  }
}
