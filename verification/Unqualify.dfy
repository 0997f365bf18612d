/** Taking the qualification back: the tables' prefixes are found in the text itself and dropped. */
module Unqualify {
  import opened Text
  import opened SqlTokens
  import opened Qualifier
  import opened Requalify

  /** The tokens start with `zone . schema . table`. */
  predicate IsRun(c: Target, toks: seq<string>) {
    && |toks| >= 5
    && toks[0] == c.zone && toks[1] == "." && toks[2] == c.schema && toks[3] == "." && toks[4] in c.tables
  }

  predicate HasRun(c: Target, toks: seq<string>) {
    exists k | 0 <= k < |toks| :: IsRun(c, toks[k..])
  }

  /** From left to right, every such run loses its prefix. */
  function Dropped(c: Target, toks: seq<string>): seq<string>
    decreases |toks|
  {
    if toks == [] then []
    else if IsRun(c, toks) then [toks[4]] + Dropped(c, toks[5..])
    else [toks[0]] + Dropped(c, toks[1..])
  }

  function Unqualified(c: Target, sql: string): string {
    Concat(Dropped(c, Tokenize(sql)))
  }

  // ----- what is dropped --------------------------------------------------------------------

  lemma {:induction false} NothingDropped(c: Target, toks: seq<string>)
    requires !HasRun(c, toks)
    ensures Dropped(c, toks) == toks
    decreases |toks|
  {
    if toks == [] {
    } else {
      assert toks[0..] == toks;
      forall k | 0 <= k < |toks| - 1 ensures !IsRun(c, toks[1..][k..]) {
        assert toks[1..][k..] == toks[k + 1..];
      }
      NothingDropped(c, toks[1..]);
    }
  }

  lemma RunText(c: Target, toks: seq<string>)
    requires IsRun(c, toks)
    ensures Concat(toks) == c.Prefix() + (toks[4] + Concat(toks[5..]))
  {
    assert toks == [c.zone, ".", c.schema, ".", toks[4]] + toks[5..];
    RewrittenText(c, toks[4], toks[5..]);
  }

  lemma {:induction false} DroppedIsShorter(c: Target, toks: seq<string>)
    ensures |Concat(Dropped(c, toks))| <= |Concat(toks)|
    ensures HasRun(c, toks) ==> |Concat(Dropped(c, toks))| < |Concat(toks)|
    decreases |toks|
  {
    if toks == [] {
    } else {
      if IsRun(c, toks) {
        DroppedIsShorter(c, toks[5..]);
        RunText(c, toks);
        OneText(toks[4], Dropped(c, toks[5..]));
      } else {
        DroppedIsShorter(c, toks[1..]);
        OneText(toks[0], Dropped(c, toks[1..]));
        if HasRun(c, toks) {
          var k :| 0 <= k < |toks| && IsRun(c, toks[k..]);
          assert toks[0..] == toks;
          assert toks[1..][k - 1..] == toks[k..];
        }
      }
    }
  }

  /** A text is left alone exactly when no qualified name of a table occurs in it. */
  lemma UnqualifiedIsSameIff(c: Target, sql: string)
    ensures Unqualified(c, sql) == sql <==> !HasRun(c, Tokenize(sql))
  {
    TokenizeLossless(sql);
    if HasRun(c, Tokenize(sql)) {
      DroppedIsShorter(c, Tokenize(sql));
    } else {
      NothingDropped(c, Tokenize(sql));
    }
  }

  // ----- references and runs ----------------------------------------------------------------

  lemma ExpansionStep(c: Target, st: Scan, toks: seq<string>)
    requires toks != [] && !Hit(c, st, toks[0], toks[1..])
    ensures Expansion(c, st, toks) == [toks[0]] + Expansion(c, Step(c, st, toks[0]), toks[1..])
  {
  }

  lemma ExpansionStarts(c: Target, st: Scan, toks: seq<string>)
    ensures toks == [] <==> Expansion(c, st, toks) == []
    ensures toks != [] ==>
              Expansion(c, st, toks)[0] == if Hit(c, st, toks[0], toks[1..]) then c.zone else toks[0]
  {
  }

  /** Two tokens behind a word that a dot follows: the dot, and what follows it, are not rewritten. */
  lemma DottedStays(c: Target, st: Scan, toks: seq<string>)
    requires |toks| >= 1 && toks[0] == "."
    ensures !Hit(c, st, toks[0], toks[1..])
    ensures |toks| >= 2 ==> !Hit(c, Step(c, st, "."), toks[1], toks[2..])
    ensures Expansion(c, st, toks) ==
            if |toks| == 1 then toks
            else toks[..2] + Expansion(c, Step(c, Step(c, st, "."), toks[1]), toks[2..])
  {
    hide Hit, Step, Expansion;
    var st1 := Step(c, st, ".");
    DotsProtect(c, st, ".", toks[1..]);
    ExpansionStep(c, st, toks);
    if |toks| >= 2 {
      assert toks[1..][0] == toks[1] && toks[1..][1..] == toks[2..];
      DotsProtect(c, st1, toks[1], toks[2..]);
      ExpansionStep(c, st1, toks[1..]);
      TwoAndMore(toks, Expansion(c, Step(c, st1, toks[1]), toks[2..]));
    } else {
      ExpansionStarts(c, st1, toks[1..]);
      assert toks[1..] == [] && toks == ["."] + [];
    }
  }

  lemma TwoAndMore(toks: seq<string>, e: seq<string>)
    requires |toks| >= 2
    ensures [toks[0]] + ([toks[1]] + e) == toks[..2] + e
  {
  }

  /** What stands in front of a dot, and is not rewritten, starts a run of the output exactly when it
      starts one of the input. */
  lemma SameRuns(c: Target, st: Scan, toks: seq<string>)
    requires IsIdent(c.zone) && toks != [] && !Hit(c, st, toks[0], toks[1..])
    ensures IsRun(c, Expansion(c, st, toks)) <==> IsRun(c, toks)
  {
    hide Hit, Step, Expansion;
    var e := Expansion(c, st, toks);
    var st1 := Step(c, st, toks[0]);
    var rest := toks[1..];
    ExpansionStep(c, st, toks);
    ExpansionStarts(c, st1, rest);
    if rest != [] && rest[0] == "." {
      DottedStays(c, st1, rest);
      if |rest| >= 2 {
        var st3 := Step(c, Step(c, st1, "."), rest[1]);
        var later := rest[2..];
        ExpansionStarts(c, st3, later);
        assert e == toks[..3] + Expansion(c, st3, later);
        if later != [] && later[0] == "." {
          DottedStays(c, st3, later);
        } else {
          assert later != [] ==> e[3] == Expansion(c, st3, later)[0];
        }
      }
    } else {
      assert rest != [] ==> e[1] == Expansion(c, st1, rest)[0];
    }
  }

  lemma FiveAndMore(toks: seq<string>, e: seq<string>)
    requires |toks| >= 5
    ensures [toks[0]] + (toks[1..][..2] + (toks[3..][..2] + e)) == toks[..5] + e
    ensures toks[1..][1] == toks[2] && toks[1..][2..] == toks[3..]
    ensures toks[3..][1] == toks[4] && toks[3..][2..] == toks[5..]
  {
  }

  /** A run of the input is kept as it is. */
  lemma RunIsKept(c: Target, st: Scan, toks: seq<string>) returns (after: Scan)
    requires IsRun(c, toks) && !Hit(c, st, toks[0], toks[1..])
    ensures Expansion(c, st, toks) == toks[..5] + Expansion(c, after, toks[5..])
  {
    hide Hit, Step, Expansion;
    var st1 := Step(c, st, toks[0]);
    var st3 := Step(c, Step(c, st1, "."), toks[2]);
    after := Step(c, Step(c, st3, "."), toks[4]);
    ExpansionStep(c, st, toks);
    DottedStays(c, st1, toks[1..]);
    DottedStays(c, st3, toks[3..]);
    FiveAndMore(toks, Expansion(c, after, toks[5..]));
  }

  lemma DroppedRun(c: Target, run: seq<string>, later: seq<string>)
    requires |run| == 5 && IsRun(c, run)
    ensures Dropped(c, run + later) == [run[4]] + Dropped(c, later)
  {
    assert (run + later)[5..] == later;
  }

  lemma DroppedOne(c: Target, t: string, later: seq<string>)
    requires !IsRun(c, [t] + later)
    ensures Dropped(c, [t] + later) == [t] + Dropped(c, later)
  {
    assert ([t] + later)[1..] == later;
  }

  lemma {:induction false} DroppedExpansion(c: Target, st: Scan, toks: seq<string>)
    requires IsIdent(c.zone)
    ensures Dropped(c, Expansion(c, st, toks)) == Dropped(c, toks)
    decreases |toks|
  {
    hide Hit, Step, IsRun, Expansion;
    if toks == [] {
      ExpansionStarts(c, st, toks);
    } else {
      var st' := Step(c, st, toks[0]);
      var e := Expansion(c, st', toks[1..]);
      if Hit(c, st, toks[0], toks[1..]) {
        ReferenceIsRun(c, st, toks);
        DroppedRun(c, [c.zone, ".", c.schema, ".", toks[0]], e);
        DroppedExpansion(c, st', toks[1..]);
      } else {
        SameRuns(c, st, toks);
        if IsRun(c, toks) {
          RunIsLong(c, toks);
          var after := RunIsKept(c, st, toks);
          DroppedRun(c, toks[..5], Expansion(c, after, toks[5..]));
          DroppedExpansion(c, after, toks[5..]);
        } else {
          ExpansionStep(c, st, toks);
          DroppedOne(c, toks[0], e);
          DroppedExpansion(c, st', toks[1..]);
        }
      }
    }
  }

  lemma RunIsLong(c: Target, toks: seq<string>)
    requires IsRun(c, toks)
    ensures |toks| >= 5 && IsRun(c, toks[..5])
  {
  }

  /** A rewritten token is a run in the output and none in the input. */
  lemma ReferenceIsRun(c: Target, st: Scan, toks: seq<string>)
    requires toks != [] && Hit(c, st, toks[0], toks[1..])
    ensures IsRun(c, [c.zone, ".", c.schema, ".", toks[0]]) && !IsRun(c, toks)
    ensures Expansion(c, st, toks) ==
            [c.zone, ".", c.schema, ".", toks[0]] + Expansion(c, Step(c, st, toks[0]), toks[1..])
  {
  }

  // ----- erasure ----------------------------------------------------------------------------

  /** Qualifying adds nothing but prefixes that can be found in the output and taken out again: the
      output without its prefixes is the input without its own, when no rewritten token directly
      follows a word. */
  lemma UnqualifyUndoes(c: Target, sql: string)
    requires IsIdent(c.zone) && IsIdent(c.schema)
    requires Apart(c, START, Tokenize(sql))
    ensures Unqualified(c, Qualified(c, sql)) == Unqualified(c, sql)
  {
    RetokenizeIff(c, sql);
    DroppedExpansion(c, START, Tokenize(sql));
  }

  /** Behind a word the prefix is not found again. */
  lemma PrefixIsLost(c: Target, t: string)
    requires IsIdent(c.zone) && IsIdent(c.schema) && t in c.tables && LoneLetter(c, t)
    ensures Unqualified(c, Qualified(c, "from" + t)) != Unqualified(c, "from" + t)
  {
    LetterBehindFrom(c, t);
    var word: string := "from" + c.zone;
    var out := [word, ".", c.schema, ".", t];
    RetokenizedIs(c, "from" + t);
    GluedExample(c, t);
    FiveNotRun(c, word, t);
    TwoNotRun(c, t);
    FiveParts(word, ".", c.schema, ".", t);
    TwoParts("from", t);
    hide Tokenize, Glued;
    assert |word + "." + c.schema + "." + t| > |"from" + t|;
  }

  lemma GluedExample(c: Target, t: string)
    requires Hit(c, Step(c, START, "from"), t, [])
    ensures Glued(c, START, ["from", t]) == ["from" + c.zone, ".", c.schema, ".", t]
  {
    var toks := ["from", t];
    assert toks[1..] == [t] && toks[2..] == [];
    assert RunsIn(c, START, toks);
    hide Hit, Step;
  }

  lemma FiveNotRun(c: Target, word: string, t: string)
    requires word != c.zone && IsIdent(c.schema)
    ensures Dropped(c, [word, ".", c.schema, ".", t]) == [word, ".", c.schema, ".", t]
  {
    NothingDropped(c, [word, ".", c.schema, ".", t]);
  }

  lemma TwoNotRun(c: Target, t: string)
    ensures Dropped(c, ["from", t]) == ["from", t]
  {
    NothingDropped(c, ["from", t]);
  }

  /** The prefixes are found again in every text's output exactly when no table is named by a lone
      letter beyond ASCII. */
  lemma AlwaysUndoesIff(c: Target)
    requires IsIdent(c.zone) && IsIdent(c.schema)
    ensures (forall sql :: Unqualified(c, Qualified(c, sql)) == Unqualified(c, sql)) <==>
            forall t | t in c.tables :: !LoneLetter(c, t)
  {
    hide Unqualified, Qualified, LoneLetter, Apart, Tokenize;
    if forall t | t in c.tables :: !LoneLetter(c, t) {
      forall sql ensures Unqualified(c, Qualified(c, sql)) == Unqualified(c, sql) {
        NoLoneLetterApart(c, START, sql);
        UnqualifyUndoes(c, sql);
      }
    } else {
      var t :| t in c.tables && LoneLetter(c, t);
      PrefixIsLost(c, t);
    }
  }

  /** With such tables the input comes back whole exactly when it names no table in full already. */
  lemma UnqualifyRestoresIff(c: Target, sql: string)
    requires IsIdent(c.zone) && IsIdent(c.schema)
    requires forall t | t in c.tables :: !LoneLetter(c, t)
    ensures Unqualified(c, Qualified(c, sql)) == Unqualified(c, sql)
    ensures Unqualified(c, Qualified(c, sql)) == sql <==> !HasRun(c, Tokenize(sql))
  {
    hide Unqualified, Qualified, LoneLetter, Apart, HasRun;
    NoLoneLetterApart(c, START, sql);
    UnqualifyUndoes(c, sql);
    UnqualifiedIsSameIff(c, sql);
  }
}
