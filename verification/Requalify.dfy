/** What a second `df_qualify` sees: the tokens of the output, and what it does to them. */
module Requalify {
  import opened Text
  import opened SqlTokens
  import opened Qualifier

  /** The output as a list of tokens: a rewritten token becomes five. */
  function Expansion(c: Target, st: Scan, toks: seq<string>): seq<string>
    decreases |toks|
  {
    if toks == [] then []
    else
      (if Hit(c, st, toks[0], toks[1..]) then [c.zone, ".", c.schema, ".", toks[0]] else [toks[0]])
      + Expansion(c, Step(c, st, toks[0]), toks[1..])
  }

  /** No rewritten token directly follows an identifier word. */
  predicate Apart(c: Target, st: Scan, toks: seq<string>)
    decreases |toks|
  {
    toks == [] ||
    var st' := Step(c, st, toks[0]);
    && (|toks| >= 2 && IsIdent(toks[0]) ==> !Hit(c, st', toks[1], toks[2..]))
    && Apart(c, st', toks[1..])
  }

  /** The word at the front is directly followed by a rewritten token, and the zone's name will run
      into it. */
  predicate RunsIn(c: Target, st: Scan, toks: seq<string>) {
    |toks| >= 2 && IsIdent(toks[0]) && Hit(c, Step(c, st, toks[0]), toks[1], toks[2..])
  }

  /** The output's tokens, whatever the table names are. */
  function Glued(c: Target, st: Scan, toks: seq<string>): seq<string>
    decreases |toks|
  {
    if toks == [] then []
    else if RunsIn(c, st, toks) then
      [toks[0] + c.zone, ".", c.schema, ".", toks[1]] + Glued(c, Step(c, Step(c, st, toks[0]), toks[1]), toks[2..])
    else
      (if Hit(c, st, toks[0], toks[1..]) then [c.zone, ".", c.schema, ".", toks[0]] else [toks[0]])
      + Glued(c, Step(c, st, toks[0]), toks[1..])
  }

  /** Such a word is FROM or JOIN, and is not itself rewritten. */
  lemma RunsIntoKeyword(c: Target, st: Scan, toks: seq<string>)
    requires RunsIn(c, st, toks)
    ensures Lower(toks[0]) in FROM_ON && !Hit(c, st, toks[0], toks[1..])
    ensures toks[1] != "" && toks[1][0] != QUOTE
  {
    assert Lower(toks[0])[0] == LowerChar(toks[0][0]);
  }

  lemma {:induction false} ApartIsNotGlued(c: Target, st: Scan, toks: seq<string>)
    requires Apart(c, st, toks)
    ensures Glued(c, st, toks) == Expansion(c, st, toks)
    decreases |toks|
  {
    hide Hit, Step;
    if toks == [] {
    } else {
      ApartIsNotGlued(c, Step(c, st, toks[0]), toks[1..]);
    }
  }

  lemma {:induction false} GluedText(c: Target, st: Scan, toks: seq<string>)
    ensures Concat(Glued(c, st, toks)) == Concat(Pieces(c, st, toks))
    decreases |toks|
  {
    hide Hit, Step;
    if toks == [] {
    } else {
      var t, st' := toks[0], Step(c, st, toks[0]);
      if RunsIn(c, st, toks) {
        var u, rest := toks[1], Glued(c, Step(c, st', toks[1]), toks[2..]);
        GluedText(c, Step(c, st', u), toks[2..]);
        RunsIntoKeyword(c, st, toks);
        assert toks[1..][0] == u && toks[1..][1..] == toks[2..];
        var later := Pieces(c, Step(c, st', u), toks[2..]);
        assert Pieces(c, st', toks[1..]) == [c.Prefix() + u] + later;
        assert Pieces(c, st, toks) == [t] + ([c.Prefix() + u] + later);
        OneText(t, [c.Prefix() + u] + later);
        OneText(c.Prefix() + u, later);
        ConcatAppend([t + c.zone, ".", c.schema, ".", u], rest);
        FiveParts(t + c.zone, ".", c.schema, ".", u);
        GluedWord(t, c.zone, c.schema, u, Concat(rest));
      } else {
        var rest := Glued(c, st', toks[1..]);
        GluedText(c, st', toks[1..]);
        OneText(Piece(c, st, t, toks[1..]), Pieces(c, st', toks[1..]));
        if Hit(c, st, t, toks[1..]) {
          RewrittenText(c, t, rest);
          WithPrefix(c.Prefix(), t, Concat(rest));
        } else {
          OneText(t, rest);
        }
      }
    }
  }

  lemma WithPrefix(a: string, b: string, c: string)
    ensures a + (b + c) == (a + b) + c
  {
  }

  lemma GluedWord(w: string, zone: string, schema: string, u: string, after: string)
    ensures (w + zone) + "." + schema + "." + u + after == w + ((zone + "." + schema + "." + u) + after)
  {
  }

  lemma {:induction false} ExpansionText(c: Target, st: Scan, toks: seq<string>)
    ensures Concat(Expansion(c, st, toks)) == Concat(Pieces(c, st, toks))
    decreases |toks|
  {
    if toks == [] {
    } else {
      var t := toks[0];
      var rest := Expansion(c, Step(c, st, t), toks[1..]);
      ExpansionText(c, Step(c, st, t), toks[1..]);
      if Hit(c, st, t, toks[1..]) {
        ConcatAppend([c.zone, ".", c.schema, ".", t], rest);
        FiveParts(c.zone, ".", c.schema, ".", t);
      } else {
        ConcatAppend([t], rest);
      }
    }
  }

  lemma FiveParts(a: string, b: string, c: string, d: string, e: string)
    ensures Concat([a, b, c, d, e]) == a + b + c + d + e
  {
    assert Concat([e]) == e;
    assert Concat([d, e]) == d + e;
    assert Concat([c, d, e]) == c + (d + e);
    assert Concat([b, c, d, e]) == b + (c + (d + e));
  }

  // ----- a token stays a token ----------------------------------------------------------------

  lemma WordToken(w: string, rest: string)
    requires IsIdent(w) && (rest == "" || !IsIdentChar(rest[0]))
    ensures TokenLen(w + rest) == |w|
  {
    var s := w + rest;
    assert forall k | 0 <= k < |w| :: s[k] == w[k];
    assert rest != "" ==> s[|w|] == rest[0];
    assert !(s[0] == QUOTE);
  }

  lemma TokenFirst(t: string, rest: string)
    requires t != "" && TokenLen(t + rest) == |t|
    ensures Tokenize(t + rest) == [t] + Tokenize(rest)
  {
    assert (t + rest)[..|t|] == t && (t + rest)[|t|..] == rest;
  }

  /** A string literal that ends at a quote no other quote follows ends there whatever follows,
      as long as it is not a quote. */
  lemma {:induction false} LoneQuote(t: string, rest: string, other: string, i: nat)
    requires i < |t| && QuoteEnd(t + rest, i) == Some(|t|)
    requires (rest == "" || rest[0] != QUOTE) && (other == "" || other[0] != QUOTE)
    ensures QuoteEnd(t + other, i) == Some(|t|)
    decreases |t| - i
  {
    var s, s' := t + rest, t + other;
    if s[i] != QUOTE {
      if i + 1 < |t| {
        LoneQuote(t, rest, other, i + 1);
      }
    } else if i + 1 < |t| && s[i + 1] == QUOTE {
      if i + 2 < |t| {
        LoneQuote(t, rest, other, i + 2);
      }
    }
  }

  /** A string literal that a further quote follows was closed by backtracking: no quote follows
      that one, and it is closed again wherever that is so. */
  lemma {:induction false} Backtracked(t: string, rest: string, other: string, i: nat)
    requires i < |t| && QuoteEnd(t + rest, i) == Some(|t|)
    requires rest != "" && rest[0] == QUOTE
    ensures QuoteFree(rest[1..])
    ensures other != "" && other[0] == QUOTE && QuoteFree(other[1..]) ==> QuoteEnd(t + other, i) == Some(|t|)
    decreases |t| - i
  {
    var s, s' := t + rest, t + other;
    if s[i] != QUOTE {
      Backtracked(t, rest, other, i + 1);
    } else if i + 1 < |t| {
      Backtracked(t, rest, other, i + 2);
    } else {
      assert s[i + 2..] == rest[1..];
      if other != "" {
        assert s'[i + 2..] == other[1..];
      }
    }
  }

  /** Same quotes: the two texts look the same to the quoted-string alternative. */
  predicate SameQuotes(s: string, u: string) {
    && (s == "" <==> u == "")
    && (QuoteFree(s) <==> QuoteFree(u))
    && (s != "" ==> (s[0] == QUOTE <==> u[0] == QUOTE))
    && (s != "" && s[0] == QUOTE ==> (QuoteFree(s[1..]) <==> QuoteFree(u[1..])))
  }

  lemma LiteralToken(t: string, rest: string, other: string)
    requires t != "" && t[0] == QUOTE && TokenLen(t + rest) == |t| && SameQuotes(rest, other)
    ensures TokenLen(t + other) == |t|
  {
    var s, s' := t + rest, t + other;
    var end := QuoteEnd(s, 1);
    if end.None? {
      assert s[1..] == rest && s'[1..] == other;
    } else if rest == "" || rest[0] != QUOTE {
      LoneQuote(t, rest, other, 1);
    } else {
      Backtracked(t, rest, other, 1);
    }
  }

  lemma QuoteFreeAppend(a: string, b: string)
    ensures QuoteFree(a + b) <==> QuoteFree(a) && QuoteFree(b)
  {
    assert forall k | 0 <= k < |a| :: (a + b)[k] == a[k];
    assert forall k | 0 <= k < |b| :: (a + b)[|a| + k] == b[k];
  }

  lemma SameQuotesAppend(t: string, rest: string, other: string)
    requires t != "" && SameQuotes(rest, other)
    ensures SameQuotes(t + rest, t + other)
  {
    QuoteFreeAppend(t, rest);
    QuoteFreeAppend(t, other);
    QuoteFreeAppend(t[1..], rest);
    QuoteFreeAppend(t[1..], other);
    assert (t + rest)[1..] == t[1..] + rest && (t + other)[1..] == t[1..] + other;
  }

  lemma PrefixIsQuoteFree(p: string, t: string, rest: string)
    requires p != "" && QuoteFree(p) && t != "" && t[0] != QUOTE
    ensures SameQuotes(t + rest, p + (t + rest))
  {
    QuoteFreeAppend(p, t + rest);
    assert t + rest != "" && (t + rest)[0] == t[0];
    assert (p + (t + rest))[0] == p[0];
  }

  // ----- the output's tokens ------------------------------------------------------------------

  lemma WordDot(w: string, rest: string)
    requires IsIdent(w)
    ensures Tokenize(w + ("." + rest)) == [w, "."] + Tokenize(rest)
  {
    WordToken(w, "." + rest);
    TokenFirst(w, "." + rest);
    TokenFirst(".", rest);
  }

  lemma RewrittenToken(c: Target, t: string, rest: string)
    requires IsIdent(c.zone) && IsIdent(c.schema)
    requires Tokenize(t + rest) == [t] + Tokenize(rest)
    ensures Tokenize(c.Prefix() + (t + rest)) == [c.zone, ".", c.schema, ".", t] + Tokenize(rest)
  {
    var named := c.schema + ("." + (t + rest));
    WordDot(c.schema, t + rest);
    WordDot(c.zone, named);
    PrefixAssoc(c.zone, c.schema, t + rest);
  }

  lemma PrefixAssoc(zone: string, schema: string, s: string)
    ensures zone + "." + schema + "." + s == zone + ("." + (schema + ("." + s)))
  {
  }

  lemma RewrittenText(c: Target, t: string, e: seq<string>)
    ensures Concat([c.zone, ".", c.schema, ".", t] + e) == c.Prefix() + (t + Concat(e))
  {
    ConcatAppend([c.zone, ".", c.schema, ".", t], e);
    FiveParts(c.zone, ".", c.schema, ".", t);
  }

  /** A token stays one when what follows keeps its quotes and does not continue a word. */
  lemma TokenStays(t: string, rest: string, other: string)
    requires t != "" && TokenLen(t + rest) == |t| && SameQuotes(rest, other)
    requires IsIdent(t) && other != "" ==> !IsIdentChar(other[0])
    ensures Tokenize(t + other) == [t] + Tokenize(other)
  {
    if t[0] == QUOTE {
      LiteralToken(t, rest, other);
    } else if IsIdentStart(t[0]) {
      assert forall k | 0 <= k < |t| :: IsIdentChar((t + rest)[k]);
      assert forall k | 0 <= k < |t| :: t[k] == (t + rest)[k];
      WordToken(t, other);
    }
    TokenFirst(t, other);
  }

  ghost predicate OutputOk(s: string, e: seq<string>) {
    Tokenize(Concat(e)) == e && SameQuotes(s, Concat(e))
  }

  /** Unless a rewritten token comes first, the output starts as the text does. */
  lemma FirstChar(c: Target, st: Scan, s: string)
    requires s != "" && !Hit(c, st, Tokenize(s)[0], Tokenize(s)[1..])
    ensures Concat(Glued(c, st, Tokenize(s))) != ""
    ensures Concat(Glued(c, st, Tokenize(s)))[0] == s[0]
  {
    hide Hit, Step;
    var toks := Tokenize(s);
    var g := Glued(c, st, toks);
    assert g[0] == toks[0] || g[0] == toks[0] + c.zone;
    assert toks[0][0] == s[0];
    OneText(g[0], g[1..]);
    assert g == [g[0]] + g[1..];
  }

  /** The first token is the front of the text, and the others are those of the rest. */
  lemma FirstToken(s: string)
    requires s != ""
    ensures var t, rest := s[..TokenLen(s)], s[TokenLen(s)..];
            t != "" && s == t + rest && Tokenize(s) == [t] + Tokenize(rest)
  {
  }

  lemma FirstTokens(s: string)
    requires |Tokenize(s)| >= 2
    ensures var t, rest := s[..TokenLen(s)], s[TokenLen(s)..];
            && rest != "" && Tokenize(s)[0] == t && s == t + rest
            && Tokenize(s)[1] == rest[..TokenLen(rest)] && Tokenize(s)[2..] == Tokenize(rest[TokenLen(rest)..])
            && Tokenize(s)[1..] == Tokenize(rest) && |rest| < |s|
  {
    FirstToken(s);
    var rest := s[TokenLen(s)..];
    assert Tokenize(s)[1..] == Tokenize(rest);
    FirstToken(rest);
    assert Tokenize(s)[2..] == Tokenize(rest)[1..];
    hide TokenLen;
  }

  /** Re-tokenizing the output yields the glued token list. */
  lemma {:induction false} OutputTokens(c: Target, st: Scan, s: string)
    requires IsIdent(c.zone) && IsIdent(c.schema)
    ensures OutputOk(s, Glued(c, st, Tokenize(s)))
    decreases |s|
  {
    hide Hit, Step, OutputOk, RunsIn, IsIdent, Glued, Tokenize;
    if s == "" {
      NothingIsOk(c, st);
    } else {
      var toks := Tokenize(s);
      var rest := s[TokenLen(s)..];
      FirstToken(s);
      var st' := Step(c, st, toks[0]);
      if RunsIn(c, st, toks) {
        RunsIsTwo(c, st, toks);
        FirstTokens(s);
        var after := rest[TokenLen(rest)..];
        OutputTokens(c, Step(c, st', toks[1]), after);
        OutputOfRun(c, st, s);
      } else {
        assert toks[1..] == Tokenize(rest);
        OutputTokens(c, st', rest);
        OutputOfStep(c, st, s, Glued(c, st', toks[1..]));
      }
    }
  }

  lemma RunsIsTwo(c: Target, st: Scan, toks: seq<string>)
    requires RunsIn(c, st, toks)
    ensures |toks| >= 2 && IsIdent(toks[0])
    ensures Glued(c, st, toks) ==
            [toks[0] + c.zone, ".", c.schema, ".", toks[1]] + Glued(c, Step(c, Step(c, st, toks[0]), toks[1]), toks[2..])
  {
    hide Hit, Step, IsIdent;
  }

  /** A word and the reference that runs into it, in front of an output that is tokenized already. */
  lemma OutputOfRun(c: Target, st: Scan, s: string)
    requires IsIdent(c.zone) && IsIdent(c.schema) && s != "" && RunsIn(c, st, Tokenize(s))
    requires |Tokenize(s)| >= 2 && |Tokenize(s)[0]| + |Tokenize(s)[1]| <= |s|
    requires OutputOk(s[|Tokenize(s)[0]| + |Tokenize(s)[1]|..],
                      Glued(c, Step(c, Step(c, st, Tokenize(s)[0]), Tokenize(s)[1]), Tokenize(s)[2..]))
    ensures OutputOk(s, Glued(c, st, Tokenize(s)))
  {
    hide Hit, Step, OutputOk, Glued, RunsIn, IsIdent, Tokenize;
    var toks := Tokenize(s);
    var t, u := toks[0], toks[1];
    FirstTokens(s);
    var rest := s[|t|..];
    var after := rest[|u|..];
    assert s[|t| + |u|..] == after && rest == u + after;
    WordsAreApart(s, 0);
    RunsIntoKeyword(c, st, toks);
    RunsIsTwo(c, st, toks);
    OutputOfGlued(c, t, u, after, Glued(c, Step(c, Step(c, st, t), u), toks[2..]));
  }

  lemma NothingIsOk(c: Target, st: Scan)
    ensures OutputOk("", Glued(c, st, Tokenize("")))
  {
  }

  /** One token, or one reference, in front of an output that is tokenized already. */
  lemma OutputOfStep(c: Target, st: Scan, s: string, e: seq<string>)
    requires IsIdent(c.zone) && IsIdent(c.schema) && s != "" && !RunsIn(c, st, Tokenize(s))
    requires e == Glued(c, Step(c, st, Tokenize(s)[0]), Tokenize(s)[1..]) && OutputOk(s[TokenLen(s)..], e)
    ensures OutputOk(s, Glued(c, st, Tokenize(s)))
  {
    hide Hit, Step, OutputOk;
    var toks := Tokenize(s);
    var t := toks[0];
    var rest := s[|t|..];
    assert s == t + rest && toks[1..] == Tokenize(rest);
    if IsIdent(t) && rest != "" {
      FirstChar(c, Step(c, st, t), rest);
      assert rest[0] == s[|t|];
    }
    OutputOkIs(rest, e);
    TokenStays(t, rest, Concat(e));
    hide Glued, SameQuotes;
    if Hit(c, st, t, toks[1..]) {
      HitIsWord(c, st, t, toks[1..]);
      OutputOfReference(c, t, rest, e);
    } else {
      OutputOfToken(t, rest, e);
    }
    GluedStep(c, st, toks);
  }

  lemma GluedStep(c: Target, st: Scan, toks: seq<string>)
    requires toks != [] && !RunsIn(c, st, toks)
    ensures Glued(c, st, toks) ==
            (if Hit(c, st, toks[0], toks[1..]) then [c.zone, ".", c.schema, ".", toks[0]] else [toks[0]])
            + Glued(c, Step(c, st, toks[0]), toks[1..])
  {
  }

  lemma OutputOkIs(s: string, e: seq<string>)
    requires OutputOk(s, e)
    ensures SameQuotes(s, Concat(e)) && Tokenize(Concat(e)) == e
  {
  }

  lemma HitIsWord(c: Target, st: Scan, t: string, rest: seq<string>)
    requires Hit(c, st, t, rest)
    ensures t != "" && t[0] != QUOTE
  {
  }

  lemma OutputOfGlued(c: Target, t: string, u: string, rest: string, e: seq<string>)
    requires IsIdent(c.zone) && IsIdent(c.schema) && IsIdent(t) && !IsIdent(u)
    requires u != "" && u[0] != QUOTE && TokenLen(u + rest) == |u| && OutputOk(rest, e)
    ensures OutputOk(t + (u + rest), [t + c.zone, ".", c.schema, ".", u] + e)
  {
    OutputOkIs(rest, e);
    TokenStays(u, rest, Concat(e));
    OutputOfReference(c, u, rest, e);
    OutputOkIs(u + rest, [c.zone, ".", c.schema, ".", u] + e);
    GluedTokens(c, t, u, e);
    GluedIsText(c, t, u, e);
    SameQuotesAppend(t, u + rest, Concat([c.zone, ".", c.schema, ".", u] + e));
    hide OutputOk, SameQuotes, Concat, Tokenize;
    OutputOkFrom(t + (u + rest), [t + c.zone, ".", c.schema, ".", u] + e);
  }

  lemma GluedTokens(c: Target, t: string, u: string, e: seq<string>)
    requires IsIdent(c.zone) && IsIdent(c.schema) && IsIdent(t)
    requires Tokenize(u + Concat(e)) == [u] + e
    ensures Tokenize(Concat([t + c.zone, ".", c.schema, ".", u] + e)) == [t + c.zone, ".", c.schema, ".", u] + e
  {
    var text := u + Concat(e);
    GluedIsText(c, t, u, e);
    GluedIsIdent(t, c.zone);
    WordDot(c.schema, text);
    WordDot(t + c.zone, c.schema + ("." + text));
    hide Concat, Tokenize, IsIdent;
    FiveTokens(t + c.zone, c.schema, u, e);
  }

  lemma FiveTokens(w: string, schema: string, u: string, e: seq<string>)
    ensures [w, "."] + ([schema, "."] + ([u] + e)) == [w, ".", schema, ".", u] + e
  {
  }

  lemma OutputOkFrom(s: string, e: seq<string>)
    requires SameQuotes(s, Concat(e)) && Tokenize(Concat(e)) == e
    ensures OutputOk(s, e)
  {
  }

  lemma GluedIsIdent(w: string, zone: string)
    requires IsIdent(w) && IsIdent(zone)
    ensures IsIdent(w + zone)
  {
  }

  lemma GluedIsText(c: Target, t: string, u: string, e: seq<string>)
    ensures Concat([t + c.zone, ".", c.schema, ".", u] + e) == t + Concat([c.zone, ".", c.schema, ".", u] + e)
    ensures Concat([t + c.zone, ".", c.schema, ".", u] + e) == (t + c.zone) + ("." + (c.schema + ("." + (u + Concat(e)))))
  {
    ConcatAppend([t + c.zone, ".", c.schema, ".", u], e);
    FiveParts(t + c.zone, ".", c.schema, ".", u);
    RewrittenText(c, u, e);
    var x := Concat(e);
    assert (t + c.zone) + "." + c.schema + "." + u + x == t + (c.zone + "." + c.schema + "." + (u + x));
  }

  lemma OneText(t: string, e: seq<string>)
    ensures Concat([t] + e) == t + Concat(e)
  {
    assert ([t] + e)[1..] == e;
  }

  lemma OutputOfToken(t: string, rest: string, e: seq<string>)
    requires t != "" && OutputOk(rest, e)
    requires Tokenize(t + Concat(e)) == [t] + Tokenize(Concat(e))
    ensures OutputOk(t + rest, [t] + e)
  {
    OneText(t, e);
    SameQuotesAppend(t, rest, Concat(e));
  }

  lemma OutputOfReference(c: Target, t: string, rest: string, e: seq<string>)
    requires IsIdent(c.zone) && IsIdent(c.schema) && t != "" && t[0] != QUOTE && OutputOk(rest, e)
    requires Tokenize(t + Concat(e)) == [t] + Tokenize(Concat(e))
    ensures OutputOk(t + rest, [c.zone, ".", c.schema, ".", t] + e)
  {
    RewrittenToken(c, t, Concat(e));
    RewrittenText(c, t, e);
    SameQuotesAppend(t, rest, Concat(e));
    PrefixQuoteFree(c);
    PrefixIsQuoteFree(c.Prefix(), t, Concat(e));
    SameQuotesTransitive(t + rest, t + Concat(e), c.Prefix() + (t + Concat(e)));
  }

  lemma PrefixQuoteFree(c: Target)
    requires IsIdent(c.zone) && IsIdent(c.schema)
    ensures QuoteFree(c.Prefix())
  {
    QuoteFreeAppend(c.zone, ".");
    QuoteFreeAppend(c.zone + ".", c.schema);
    QuoteFreeAppend(c.zone + "." + c.schema, ".");
  }

  lemma SameQuotesTransitive(a: string, b: string, c: string)
    requires SameQuotes(a, b) && SameQuotes(b, c)
    ensures SameQuotes(a, c)
  {
  }

  lemma {:induction false} NeighbourWords(c: Target, st: Scan, toks: seq<string>) returns (k: nat)
    requires IsIdent(c.zone) && !Apart(c, st, toks)
    ensures k + 1 < |Expansion(c, st, toks)|
    ensures IsIdent(Expansion(c, st, toks)[k]) && IsIdent(Expansion(c, st, toks)[k + 1])
    decreases |toks|
  {
    hide Hit, Step, IsIdent;
    var st' := Step(c, st, toks[0]);
    var e := Expansion(c, st', toks[1..]);
    var len := if Hit(c, st, toks[0], toks[1..]) then 5 else 1;
    assert Expansion(c, st, toks)[len..] == e;
    if |toks| >= 2 && IsIdent(toks[0]) && Hit(c, st', toks[1], toks[2..]) {
      assert toks[1..][0] == toks[1] && toks[1..][1..] == toks[2..];
      assert e[0] == c.zone;
      k := len - 1;
    } else {
      k := NeighbourWords(c, st', toks[1..]);
      k := k + len;
      assert Expansion(c, st, toks)[k] == e[k - len] && Expansion(c, st, toks)[k + 1] == e[k + 1 - len];
    }
  }

  /** For every table set, re-tokenizing the output yields the expanded token list, up to the words
      that the zone's name ran into. */
  lemma RetokenizedIs(c: Target, sql: string)
    requires IsIdent(c.zone) && IsIdent(c.schema)
    ensures Tokenize(Qualified(c, sql)) == Glued(c, START, Tokenize(sql))
  {
    OutputTokens(c, START, sql);
    GluedText(c, START, Tokenize(sql));
  }

  /** With identifiers for zone and schema, the output's tokens are the expanded token list, with
      no word merged and no literal changed, exactly when no rewritten token directly follows an
      identifier word. */
  lemma RetokenizeIff(c: Target, sql: string)
    requires IsIdent(c.zone) && IsIdent(c.schema)
    ensures Tokenize(Qualified(c, sql)) == Expansion(c, START, Tokenize(sql)) <==> Apart(c, START, Tokenize(sql))
  {
    var toks := Tokenize(sql);
    var e := Expansion(c, START, toks);
    ExpansionText(c, START, toks);
    if Apart(c, START, toks) {
      RetokenizedIs(c, sql);
      ApartIsNotGlued(c, START, toks);
    } else {
      var k := NeighbourWords(c, START, toks);
      if Tokenize(Qualified(c, sql)) == e {
        WordsAreApart(Qualified(c, sql), k);
      }
    }
  }

  /** A table named by a single letter that is none of ASCII's, so that it is a token but no word. */
  predicate LoneLetter(c: Target, t: string) {
    |t| == 1 && c.IsAlpha(t[0]) && !IsIdentStart(t[0])
  }

  /** A rewritten token that is no identifier is a lone letter. */
  lemma RewrittenIsLoneLetter(c: Target, st: Scan, t: string, rest: seq<string>)
    requires IsToken(t) && !IsIdent(t) && Hit(c, st, t, rest)
    ensures t in c.tables && LoneLetter(c, t)
  {
    assert !c.IsAlpha(QUOTE) && QUOTE != '_';
  }

  lemma {:induction false} NoLoneLetterApart(c: Target, st: Scan, s: string)
    requires forall t | t in c.tables :: !LoneLetter(c, t)
    ensures Apart(c, st, Tokenize(s))
    decreases |s|
  {
    hide Hit, Step, LoneLetter;
    if s == "" {
    } else {
      var toks := Tokenize(s);
      var st' := Step(c, st, toks[0]);
      NoLoneLetterApart(c, st', s[TokenLen(s)..]);
      if |toks| >= 2 && IsIdent(toks[0]) && Hit(c, st', toks[1], toks[2..]) {
        WordsAreApart(s, 0);
        TokenizeLossless(s);
        RewrittenIsLoneLetter(c, st', toks[1], toks[2..]);
      }
    }
  }

  /** The text `from` and the letter: the letter is rewritten, right behind a word. */
  lemma LetterBehindFrom(c: Target, t: string)
    requires t in c.tables && LoneLetter(c, t)
    ensures Tokenize("from" + t) == ["from", t]
    ensures !Hit(c, START, "from", [t]) && Hit(c, Step(c, START, "from"), t, [])
    ensures Pieces(c, START, ["from", t]) == ["from", c.Prefix() + t]
  {
    LetterIsToken(c, t);
    LetterIsNoKeyword(c, t);
    WordToken("from", t);
    TokenFirst("from", t);
    assert Lower("from") == "from";
    var toks := ["from", t];
    assert toks[1..] == [t] && [t][1..] == [];
    var st := Step(c, START, "from");
    assert Hit(c, st, t, []);
    assert Pieces(c, st, [t]) == [c.Prefix() + t];
    assert Pieces(c, START, toks) == ["from"] + [c.Prefix() + t];
  }

  lemma LetterIsToken(c: Target, t: string)
    requires LoneLetter(c, t)
    ensures !IsIdentChar(t[0]) && t[0] != QUOTE && !IsIdent(t) && t != "." && Tokenize(t) == [t]
  {
    TokenFirst(t, "");
    assert t + "" == t;
  }

  lemma LetterIsNoKeyword(c: Target, t: string)
    requires LoneLetter(c, t)
    ensures Lower(t) !in FROM_ON && Lower(t) !in CLAUSE_OFF
  {
    assert |Lower(t)| == 1;
    assert forall k | k in FROM_ON || k in CLAUSE_OFF :: |k| > 1;
  }

  lemma LoneLetterNotApart(c: Target, t: string)
    requires t in c.tables && LoneLetter(c, t)
    ensures !Apart(c, START, Tokenize("from" + t))
  {
    LetterBehindFrom(c, t);
    assert ["from", t][1..] == [t] && ["from", t][2..] == [];
    hide Hit, Step;
  }

  /** No text's output has a word run into exactly when no table is named by a lone letter. */
  lemma AlwaysApartIff(c: Target)
    ensures (forall sql :: Apart(c, START, Tokenize(sql))) <==> forall t | t in c.tables :: !LoneLetter(c, t)
  {
    hide Apart, LoneLetter, Tokenize;
    if forall t | t in c.tables :: !LoneLetter(c, t) {
      forall sql ensures Apart(c, START, Tokenize(sql)) {
        NoLoneLetterApart(c, START, sql);
      }
    } else {
      var t :| t in c.tables && LoneLetter(c, t);
      LoneLetterNotApart(c, t);
    }
  }

  // ----- a second call changes nothing --------------------------------------------------------

  /** `low` rewrites no more than `st` does. */
  predicate Below(low: Scan, st: Scan) {
    && (low.inFrom ==> st.inFrom)
    && |low.stack| == |st.stack|
    && (forall m | 0 <= m < |st.stack| :: low.stack[m] ==> st.stack[m])
    && low.prevSig == st.prevSig
  }

  lemma StepBelow(c: Target, low: Scan, st: Scan, t: string)
    requires Below(low, st)
    ensures Below(Step(c, low, t), Step(c, st, t))
  {
  }

  /** A token behind a dot is never rewritten, nor is one in front of a dot, nor a dot. */
  lemma DotsProtect(c: Target, st: Scan, t: string, rest: seq<string>)
    ensures Hit(c, st, t, rest) ==> t != "." && st.prevSig != "." && (rest == [] || rest[0] != ".")
    ensures Step(c, st, ".") == st.(prevSig := ".")
  {
    assert Lower(".") == ".";
  }

  lemma KeptInFront(c: Target, st: Scan, t: string, e: seq<string>)
    requires !Hit(c, st, t, e) && Pieces(c, Step(c, st, t), e) == e
    ensures Pieces(c, st, [t] + e) == [t] + e
  {
    hide Hit, Step;
    assert ([t] + e)[1..] == e;
  }

  lemma DotInFront(c: Target, st: Scan, t: string, e: seq<string>)
    requires Pieces(c, Step(c, Step(c, st, "."), t), e) == e
    ensures Pieces(c, st, ["."] + ([t] + e)) == ["."] + ([t] + e)
  {
    hide Hit, Step, Pieces;
    DotsProtect(c, Step(c, st, "."), t, e);
    DotsProtect(c, st, ".", [t] + e);
    DotIsLast(c, st);
    KeptInFront(c, Step(c, st, "."), t, e);
    KeptInFront(c, st, ".", [t] + e);
  }

  lemma DotIsLast(c: Target, st: Scan)
    ensures Step(c, st, ".").prevSig == "."
  {
  }

  /** A reference `w . schema . t` with any word `w` in front is left alone. */
  lemma ExpandedReference(c: Target, low: Scan, w: string, t: string, e: seq<string>)
    requires IsIdent(w) && IsIdent(c.schema)
    requires Pieces(c, Step(c, LastState(c, low, w), t), e) == e
    ensures Pieces(c, low, [w, ".", c.schema, ".", t] + e) == [w, ".", c.schema, ".", t] + e
  {
    hide Hit, Step, Pieces;
    var s1 := Step(c, low, w);
    var s3 := Step(c, Step(c, s1, "."), c.schema);
    var last := ["."] + ([t] + e);
    var rest := ["."] + ([c.schema] + last);
    DotInFront(c, s3, t, e);
    DotInFront(c, s1, c.schema, last);
    DotsProtect(c, low, w, rest);
    KeptInFront(c, low, w, rest);
    FiveInFront(w, c.schema, t, e);
  }

  lemma FiveInFront(w: string, schema: string, t: string, e: seq<string>)
    ensures [w] + (["."] + ([schema] + (["."] + ([t] + e)))) == [w, ".", schema, ".", t] + e
  {
  }

  /** The state after `w . schema .` */
  function LastState(c: Target, st: Scan, w: string): Scan {
    Step(c, Step(c, Step(c, Step(c, st, w), "."), c.schema), ".")
  }

  lemma AfterReference(c: Target, low: Scan, st: Scan, w: string, t: string, rest: seq<string>)
    requires IsIdent(w) && IsIdent(c.schema)
    requires Below(low, st.(prevSig := low.prevSig)) && Hit(c, st, t, rest)
    ensures Below(Step(c, LastState(c, low, w), t), Step(c, st, t))
  {
  }

  /** A second pass leaves the output's tokens alone, though zone and schema may be keywords that turn
      its flag off, and even where the zone's name ran into a keyword: that word is then none, but the
      first pass's flag is on there all the same. */
  lemma {:induction false} GluedSecondPass(c: Target, low: Scan, st: Scan, toks: seq<string>)
    requires IsIdent(c.zone) && IsIdent(c.schema) && Below(low, st)
    ensures Pieces(c, low, Glued(c, st, toks)) == Glued(c, st, toks)
    decreases |toks|
  {
    hide Hit, Step, LastState;
    if toks == [] {
    } else {
      var t, rest := toks[0], toks[1..];
      var st' := Step(c, st, t);
      if RunsIn(c, st, toks) {
        var u := toks[1];
        var low' := Step(c, LastState(c, low, t + c.zone), u);
        GluedIsIdent(t, c.zone);
        FlagIsOn(c, low, st, toks);
        AfterReference(c, low, st', t + c.zone, u, toks[2..]);
        GluedSecondPass(c, low', Step(c, st', u), toks[2..]);
        ExpandedReference(c, low, t + c.zone, u, Glued(c, Step(c, st', u), toks[2..]));
      } else if Hit(c, st, t, rest) {
        AfterReference(c, low, st, c.zone, t, rest);
        GluedSecondPass(c, Step(c, LastState(c, low, c.zone), t), st', rest);
        ExpandedReference(c, low, c.zone, t, Glued(c, st', rest));
      } else {
        StepBelow(c, low, st, t);
        GluedSecondPass(c, Step(c, low, t), st', rest);
        if rest != [] && rest[0] == "." {
          DotStays(c, st', rest);
        }
        TokenIsKept(c, low, st, t, rest, Glued(c, st', rest));
      }
    }
  }

  /** In front of a rewritten token the first pass's flag is on. */
  lemma FlagIsOn(c: Target, low: Scan, st: Scan, toks: seq<string>)
    requires RunsIn(c, st, toks) && Below(low, st)
    ensures Below(low, Step(c, st, toks[0]).(prevSig := low.prevSig))
  {
    assert toks[0][0] != QUOTE && toks[0] != "(" && toks[0] != ")";
  }

  lemma DotStays(c: Target, st: Scan, toks: seq<string>)
    requires toks != [] && toks[0] == "."
    ensures Glued(c, st, toks) != [] && Glued(c, st, toks)[0] == "."
  {
    assert !IsIdent(".") && !c.IsWord(".");
  }

  /** What the first pass does not rewrite, the second does not either. */
  lemma TokenIsKept(c: Target, low: Scan, st: Scan, t: string, rest: seq<string>, e: seq<string>)
    requires Below(low, st) && !Hit(c, st, t, rest)
    requires rest != [] && rest[0] == "." ==> e != [] && e[0] == "."
    requires Pieces(c, Step(c, low, t), e) == e
    ensures Pieces(c, low, [t] + e) == [t] + e
  {
    assert ([t] + e)[1..] == e;
  }

  /** Qualifying twice is qualifying once, for any identifiers as zone and schema (keywords and
      table names among them) and any tables. */
  lemma QualifyIdempotent(c: Target, sql: string)
    requires IsIdent(c.zone) && IsIdent(c.schema)
    ensures Qualified(c, Qualified(c, sql)) == Qualified(c, sql)
  {
    RetokenizedIs(c, sql);
    GluedText(c, START, Tokenize(sql));
    GluedSecondPass(c, START, START, Tokenize(sql));
  }

  /** A table named by one letter beyond ASCII can be rewritten right behind a keyword, and then
      the zone's name runs into the keyword. */
  lemma MergedWordExample(c: Target)
    requires c == Target({"\U{e9}"}, "z", "s", {'\U{e9}'})
    ensures Qualified(c, "from\U{e9}") == "fromz.s.\U{e9}"
    ensures !Apart(c, START, Tokenize("from\U{e9}"))
  {
    var letter: string := "\U{e9}";
    LetterBehindFrom(c, letter);
    LoneLetterNotApart(c, letter);
    hide Apart, Pieces, Tokenize;
    assert c.Prefix() == "z.s.";
    TwoParts("from", "z.s." + letter);
    assert "from" + letter == "from\U{e9}" && "from" + ("z.s." + letter) == "fromz.s.\U{e9}";
  }

  lemma TwoParts(a: string, b: string)
    ensures Concat([a, b]) == a + b
  {
    assert Concat([b]) == b;
  }
}
