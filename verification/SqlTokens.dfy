/** The tokenizer of `df_qualify`: quoted string, identifier word, or any one character. */
module SqlTokens {
  import opened Text

  const QUOTE: char := '\''

  predicate IsIdentStart(c: char) {
    'A' <= c <= 'Z' || 'a' <= c <= 'z' || c == '_'
  }

  predicate IsIdentChar(c: char) {
    IsIdentStart(c) || '0' <= c <= '9'
  }

  predicate IsIdent(w: string) {
    w != "" && IsIdentStart(w[0]) && forall k | 0 <= k < |w| :: IsIdentChar(w[k])
  }

  predicate QuoteFree(s: string) {
    forall k | 0 <= k < |s| :: s[k] != QUOTE
  }

  /** The backtracking matcher for `(?:[^']|'')*'` at position `i` of `s`: each branch is tried in
      the pattern's order, and `None` makes the caller fall back to its next branch. The result is
      the position after the closing quote. */
  function QuoteEnd(s: string, i: nat): (r: Option<nat>)
    requires i <= |s|
    ensures r.None? <==> QuoteFree(s[i..])
    ensures r.Some? ==> i < r.value <= |s| && s[r.value - 1] == QUOTE
    decreases |s| - i
  {
    if i == |s| then
      None
    else if s[i] != QUOTE then
      assert s[i..] == [s[i]] + s[i + 1..];
      QuoteEnd(s, i + 1)
    else
      assert s[i..][0] == QUOTE;
      if i + 1 < |s| && s[i + 1] == QUOTE then
        var longer := QuoteEnd(s, i + 2);
        if longer.Some? then longer else Some(i + 1)
      else
        Some(i + 1)
  }

  /** End of the run of identifier characters that starts at `i`. */
  function IdentEnd(s: string, i: nat): (r: nat)
    requires i <= |s|
    ensures i <= r <= |s|
    ensures forall k | i <= k < r :: IsIdentChar(s[k])
    ensures r < |s| ==> !IsIdentChar(s[r])
    decreases |s| - i
  {
    if i < |s| && IsIdentChar(s[i]) then IdentEnd(s, i + 1) else i
  }

  /** Length of the token at the front of `s`. */
  function TokenLen(s: string): (n: nat)
    requires s != ""
    ensures 1 <= n <= |s|
  {
    if s[0] == QUOTE then
      var end := QuoteEnd(s, 1);
      if end.Some? then end.value else 1
    else if IsIdentStart(s[0]) then
      IdentEnd(s, 1)
    else
      1
  }

  /** The texts of the matches of the token pattern, from left to right. */
  function Tokenize(s: string): seq<string>
    decreases |s|
  {
    if s == "" then [] else [s[..TokenLen(s)]] + Tokenize(s[TokenLen(s)..])
  }

  /** The shape of one token. */
  predicate IsToken(t: string) {
    t != "" && (t[0] == QUOTE || IsIdent(t) || (|t| == 1 && !IsIdentStart(t[0])))
  }

  /** The tokenizer covers every character, so joining the tokens gives the text back. */
  lemma {:induction false} TokenizeLossless(s: string)
    ensures Concat(Tokenize(s)) == s
    ensures forall k | 0 <= k < |Tokenize(s)| :: IsToken(Tokenize(s)[k])
    decreases |s|
  {
    if s == "" {
    } else {
      var n := TokenLen(s);
      TokenizeLossless(s[n..]);
      assert s == s[..n] + s[n..];
    }
  }

  /** Words are matched as far as they go, so two words are never neighbours. */
  lemma {:induction false} WordsAreApart(s: string, k: nat)
    requires k + 1 < |Tokenize(s)|
    ensures !(IsIdent(Tokenize(s)[k]) && IsIdent(Tokenize(s)[k + 1]))
    decreases |s|
  {
    var n := TokenLen(s);
    if k == 0 {
      var rest := s[n..];
      assert Tokenize(s)[1] == rest[..TokenLen(rest)];
      assert Tokenize(s)[1][0] == s[n];
    } else {
      WordsAreApart(s[n..], k - 1);
    }
  }

  // ----- what the quoted-string alternative means ------------------------------------------

  /** Inside of a quoted string: quotes come in pairs. */
  predicate PairedQuotes(b: string) {
    || b == ""
    || (b[0] != QUOTE && PairedQuotes(b[1..]))
    || (|b| >= 2 && b[0] == QUOTE && b[1] == QUOTE && PairedQuotes(b[2..]))
  }

  predicate IsQuoted(w: string) {
    |w| >= 2 && w[0] == QUOTE && w[|w| - 1] == QUOTE && PairedQuotes(w[1..|w| - 1])
  }

  lemma PairedOne(b: string)
    requires b != "" && b[0] != QUOTE && PairedQuotes(b[1..])
    ensures PairedQuotes(b)
  {
  }

  lemma PairedTwo(b: string)
    requires |b| >= 2 && b[0] == QUOTE && b[1] == QUOTE && PairedQuotes(b[2..])
    ensures PairedQuotes(b)
  {
  }

  lemma {:induction false} QuoteEndIsPaired(s: string, i: nat)
    requires i <= |s| && QuoteEnd(s, i).Some?
    ensures PairedQuotes(s[i..QuoteEnd(s, i).value - 1])
    decreases |s| - i
  {
    hide QuoteFree, PairedQuotes;
    var e := QuoteEnd(s, i).value;
    var b := s[i..e - 1];
    if i == e - 1 {
      NothingIsPaired();
    } else if s[i] != QUOTE {
      QuoteEndIsPaired(s, i + 1);
      assert b[1..] == s[i + 1..e - 1];
      PairedOne(b);
    } else if i + 1 < |s| && s[i + 1] == QUOTE && QuoteEnd(s, i + 2).Some? {
      QuoteEndIsPaired(s, i + 2);
      assert b[2..] == s[i + 2..e - 1];
      PairedTwo(b);
    }
  }

  lemma NothingIsPaired()
    ensures PairedQuotes("")
  {
  }

  lemma {:induction false} QuoteEndIsLast(s: string, i: nat, e: nat)
    requires i < e <= |s| && s[e - 1] == QUOTE && PairedQuotes(s[i..e - 1])
    ensures QuoteEnd(s, i).Some? && QuoteEnd(s, i).value >= e
    decreases |s| - i
  {
    var b := s[i..e - 1];
    if i == e - 1 {
    } else if s[i] != QUOTE {
      assert b[1..] == s[i + 1..e - 1];
      QuoteEndIsLast(s, i + 1, e);
    } else {
      assert b[2..] == s[i + 2..e - 1];
      QuoteEndIsLast(s, i + 2, e);
    }
  }

  /** A token that starts with a quote is the longest quoted string at that point, with a doubled
      quote read as part of the string; only when there is none is it the quote alone. */
  lemma QuotedTokenIsLongest(s: string)
    requires s != "" && s[0] == QUOTE
    ensures IsQuoted(s[..TokenLen(s)]) || (TokenLen(s) == 1 && forall m | 0 <= m <= |s| :: !IsQuoted(s[..m]))
    ensures forall m | TokenLen(s) < m <= |s| :: !IsQuoted(s[..m])
  {
    var end := QuoteEnd(s, 1);
    if end.Some? {
      QuoteEndIsPaired(s, 1);
      assert s[..end.value][1..end.value - 1] == s[1..end.value - 1];
    }
    forall m | 0 <= m <= |s| && IsQuoted(s[..m])
      ensures end.Some? && m <= end.value
    {
      assert s[..m][1..m - 1] == s[1..m - 1];
      QuoteEndIsLast(s, 1, m);
    }
  }
}
