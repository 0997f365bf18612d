/** `df_qualify` in the words of SQL: which keywords start and end a FROM clause, what stands in
    front of a table reference, and what becomes of it. Nothing here looks at the keyword sets of
    the machine. */
module References {
  import opened Text
  import opened SqlTokens
  import opened Clauses
  import opened Letters
  import opened Qualifier

  /** FROM or JOIN, in any letter case. */
  predicate StartsTables(t: string) {
    Spells(t, "from") || Spells(t, "join")
  }

  /** One of the twelve keywords that end a FROM clause. */
  predicate EndsTables(t: string) {
    || Spells(t, "where") || Spells(t, "group") || Spells(t, "order") || Spells(t, "having")
    || Spells(t, "limit") || Spells(t, "union") || Spells(t, "select") || Spells(t, "intersect")
    || Spells(t, "except") || Spells(t, "using") || Spells(t, "qualify") || Spells(t, "window")
  }

  lemma StartsIs(t: string)
    ensures Lower(t) in FROM_ON <==> StartsTables(t)
  {
    hide Lower, Spells;
    LowerIs(t, "from");
    LowerIs(t, "join");
  }

  lemma EndsIs(t: string)
    ensures Lower(t) in CLAUSE_OFF <==> EndsTables(t)
  {
    hide Lower, Spells;
    LowerIs(t, "where");
    LowerIs(t, "group");
    LowerIs(t, "order");
    LowerIs(t, "having");
    LowerIs(t, "limit");
    LowerIs(t, "union");
    LowerIs(t, "select");
    LowerIs(t, "intersect");
    LowerIs(t, "except");
    LowerIs(t, "using");
    LowerIs(t, "qualify");
    LowerIs(t, "window");
  }

  lemma AnchorIs(t: string)
    ensures IsAnchor(t) <==> StartsTables(t) || t == ","
  {
    hide Lower, Spells;
    LowerIs(t, "from");
    LowerIs(t, "join");
    LowerIs(t, ",");
    CommaIs(t);
  }

  lemma CommaIs(t: string)
    ensures Spells(t, ",") <==> t == ","
  {
  }

  /** The first character of a word: an ASCII letter, an underscore or a letter beyond ASCII. */
  predicate WordStart(c: Target, ch: char) {
    var n := ch as int;
    65 <= n <= 90 || 97 <= n <= 122 || n == 95 || (n > 127 && ch in c.letters && !White(n))
  }

  lemma WordIs(c: Target, t: string)
    ensures c.IsWord(t) <==> t != "" && WordStart(c, t[0])
  {
    hide White;
    if t != "" {
      SpaceIs(t[0]);
    }
  }

  lemma BracketsAreNoWords(t: string)
    requires t == "(" || t == ")"
    ensures !StartsTables(t) && !EndsTables(t)
  {
    assert "("[0] == '(' && ")"[0] == ')';
  }

  /** No keyword does both. */
  lemma StartsOrEnds(t: string)
    ensures !(StartsTables(t) && EndsTables(t))
  {
    hide Lower, StartsTables, EndsTables;
    StartsIs(t);
    EndsIs(t);
  }

  lemma KindIs(t: string)
    ensures KindOf(t) == Opens <==> t == "("
    ensures KindOf(t) == Closes <==> t == ")"
    ensures KindOf(t) == TurnsOn <==> StartsTables(t)
    ensures KindOf(t) == TurnsOff <==> EndsTables(t)
  {
    hide Lower, StartsTables, EndsTables;
    StartsIs(t);
    EndsIs(t);
    StartsOrEnds(t);
    if t == "(" || t == ")" {
      BracketsAreNoWords(t);
    }
  }

  // ----- one token at a time ----------------------------------------------------------------

  /** FROM and JOIN turn the context on, each of the twelve keywords turns it off, and a bracket
      saves or gives back the context, in whatever state they are read. */
  lemma KeywordSteps(c: Target, st: Scan, t: string)
    ensures StartsTables(t) ==> Step(c, st, t) == Scan(true, st.stack, t)
    ensures EndsTables(t) ==> Step(c, st, t) == Scan(false, st.stack, t)
    ensures t == "(" ==> Step(c, st, t) == Scan(st.inFrom, st.stack + [st.inFrom], t)
    ensures t == ")" && st.stack != [] ==>
              Step(c, st, t) == Scan(st.stack[|st.stack| - 1], st.stack[..|st.stack| - 1], t)
  {
    hide Lower, StartsTables, EndsTables, Blank, Target.IsWord;
    StartsIs(t);
    EndsIs(t);
    StartsOrEnds(t);
    assert "("[0] == '(' && ")"[0] == ')';
    if StartsTables(t) || EndsTables(t) {
      KeywordIsWord(c, t);
    }
  }

  /** White space leaves the state as it is; any other token goes into the register. */
  lemma WhiteSteps(c: Target, st: Scan, t: string)
    ensures OnlyWhite(t) ==> Step(c, st, t) == st
    ensures !OnlyWhite(t) ==> Step(c, st, t).prevSig == t
  {
    hide OnlyWhite, Blank, Step;
    BlankIs(t);
    RegisterStep(c, st, t);
  }

  /** Any other token leaves flag and stack alone. */
  lemma OtherSteps(c: Target, st: Scan, t: string)
    requires !StartsTables(t) && !EndsTables(t) && t != "(" && t != ")"
    ensures Step(c, st, t).inFrom == st.inFrom && Step(c, st, t).stack == st.stack
  {
    hide StartsTables, EndsTables, Step;
    KindIs(t);
    StepByKind(c, st, t);
  }

  // ----- whole texts ------------------------------------------------------------------------

  /** The last of FROM, JOIN and the ending keywords that is visible from `i` is FROM or JOIN. */
  predicate InTables(toks: seq<string>, ks: seq<Kind>, i: nat)
    requires i <= |toks| == |ks|
  {
    exists j | 0 <= j < i ::
      && StartsTables(toks[j]) && Visible(ks, j, i)
      && forall k | j < k < i :: EndsTables(toks[k]) ==> !Visible(ks, k, i)
  }

  lemma KindAt(toks: seq<string>, ks: seq<Kind>, j: nat)
    requires ks == Kinds(toks) && j < |toks|
    ensures |ks| == |toks|
    ensures ks[j] == Opens <==> toks[j] == "("
    ensures ks[j] == Closes <==> toks[j] == ")"
    ensures ks[j] == TurnsOn <==> StartsTables(toks[j])
    ensures ks[j] == TurnsOff <==> EndsTables(toks[j])
  {
    hide StartsTables, EndsTables, KindOf;
    KindIs(toks[j]);
  }

  lemma ContextIs(toks: seq<string>, ks: seq<Kind>, i: nat)
    requires ks == Kinds(toks) && i <= |toks| == |ks|
    ensures InFromClause(ks, i) <==> InTables(toks, ks, i)
  {
    hide StartsTables, EndsTables, Visible, Kinds;
    forall j | 0 <= j < |toks|
      ensures ks[j] == TurnsOn <==> StartsTables(toks[j])
      ensures ks[j] == TurnsOff <==> EndsTables(toks[j])
    {
      KindAt(toks, ks, j);
    }
    if InFromClause(ks, i) {
      var j :| 0 <= j < i && ks[j] == TurnsOn && Visible(ks, j, i) &&
        forall k | j < k < i :: ks[k] == TurnsOff ==> !Visible(ks, k, i);
      assert StartsTables(toks[j]);
    }
  }

  /** Between `j` and `i` there is only white space. */
  predicate OnlyWhiteBetween(toks: seq<string>, j: int, i: nat)
    requires -1 <= j < i <= |toks|
  {
    forall k | j < k < i :: OnlyWhite(toks[k])
  }

  /** A bare table name: a word in the table set that is no keyword and has no dot behind it. */
  predicate BareName(c: Target, toks: seq<string>, i: nat)
    requires i < |toks|
  {
    && toks[i] in c.tables && toks[i] != "" && WordStart(c, toks[i][0])
    && !StartsTables(toks[i]) && !EndsTables(toks[i])
    && (i + 1 < |toks| ==> toks[i + 1] != ".")
  }

  lemma AnchorBefore(toks: seq<string>, j: nat, i: nat)
    requires j < i <= |toks| && !OnlyWhite(toks[j]) && OnlyWhiteBetween(toks, j, i)
    ensures AfterAnchor(toks, i) <==> StartsTables(toks[j]) || toks[j] == ","
  {
    hide StartsTables, OnlyWhite, Blank, Lower;
    forall k | 0 <= k < i
      ensures OnlyWhite(toks[k]) <==> Blank(toks[k])
      ensures Lower(toks[k]) in ANCHORS <==> StartsTables(toks[k]) || toks[k] == ","
      ensures Blank(toks[k]) ==> Lower(toks[k]) !in ANCHORS
    {
      BlankIs(toks[k]);
      AnchorIs(toks[k]);
      if Blank(toks[k]) {
        BlankIsNoAnchor(toks[k]);
      }
    }
    if StartsTables(toks[j]) || toks[j] == "," {
      assert Lower(toks[j]) in ANCHORS;
    }
  }

  lemma NothingBefore(toks: seq<string>, i: nat)
    requires i <= |toks| && OnlyWhiteBetween(toks, -1, i)
    ensures !AfterAnchor(toks, i)
  {
    hide OnlyWhite, Blank, Lower;
    forall k | 0 <= k < i
      ensures Lower(toks[k]) !in ANCHORS
    {
      BlankIs(toks[k]);
      BlankIsNoAnchor(toks[k]);
    }
  }

  lemma BareIs(c: Target, toks: seq<string>, ks: seq<Kind>, i: nat)
    requires i < |toks| == |ks| && ks == Kinds(toks)
    ensures IsTableRef(c, toks, i) <==> BareName(c, toks, i) && AfterAnchor(toks, i) && InTables(toks, ks, i)
  {
    hide StartsTables, EndsTables, WordStart, Target.IsWord, KindOf, AfterAnchor, InTables, InFromClause, Kinds;
    WordIs(c, toks[i]);
    ContextIs(toks, ks, i);
    if c.IsWord(toks[i]) && IsTableRef(c, toks, i) {
      KindIs(toks[i]);
    }
    if BareName(c, toks, i) {
      WordKind(c, toks[i]);
    }
  }

  lemma WordKind(c: Target, t: string)
    requires t != "" && WordStart(c, t[0]) && !StartsTables(t) && !EndsTables(t)
    ensures KindOf(t) == Plain
  {
    hide StartsTables, EndsTables;
    assert "("[0] == '(' && ")"[0] == ')';
    KindIs(t);
  }

  /** Where the last significant token is FROM, JOIN or a comma and the context is a FROM clause,
      a bare table name gets zone and schema in front; behind any other token, or outside of a
      FROM clause, every token is kept. */
  lemma QualifiedBehind(c: Target, toks: seq<string>, ks: seq<Kind>, j: nat, i: nat)
    requires j < i < |toks| == |ks| && ks == Kinds(toks)
    requires !OnlyWhite(toks[j]) && OnlyWhiteBetween(toks, j, i)
    ensures RuleOutput(c, toks)[i] ==
            if (StartsTables(toks[j]) || toks[j] == ",") && InTables(toks, ks, i) && BareName(c, toks, i)
            then c.zone + "." + c.schema + "." + toks[i]
            else toks[i]
  {
    hide StartsTables, OnlyWhite, OnlyWhiteBetween, AfterAnchor, InTables, BareName, IsTableRef, Kinds;
    AnchorBefore(toks, j, i);
    BareIs(c, toks, ks, i);
  }

  /** The first significant token of a text is kept. */
  lemma FirstIsKept(c: Target, toks: seq<string>, i: nat)
    requires i < |toks| && OnlyWhiteBetween(toks, -1, i)
    ensures RuleOutput(c, toks)[i] == toks[i]
  {
    hide OnlyWhiteBetween, AfterAnchor;
    NothingBefore(toks, i);
  }
}
