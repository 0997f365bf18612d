/** `df_qualify`: put `zone.schema.` in front of a benchmark table's name where, and only where, it
    is a table reference of a FROM or JOIN clause. */
module Qualifier {
  import opened Text
  import opened SqlTokens
  import opened Clauses

  const FROM_ON: set<string> := {"from", "join"}
  const CLAUSE_OFF: set<string> := {
    "where", "group", "order", "having", "limit", "union", "select",
    "intersect", "except", "using", "qualify", "window"
  }
  const ANCHORS: set<string> := {"from", "join", ","}

  /** The arguments of a call, with the letters beyond ASCII as one more argument: `isalpha`
      knows them from the Unicode tables. */
  datatype Target = Target(tables: set<string>, zone: string, schema: string, letters: set<char>) {
    function Prefix(): string { zone + "." + schema + "." }

    predicate IsAlpha(c: char) {
      'A' <= c <= 'Z' || 'a' <= c <= 'z' || (c > '\U{7f}' && c in letters && !IsSpace(c))
    }

    predicate IsWord(t: string) {
      t != "" && (IsAlpha(t[0]) || t[0] == '_')
    }
  }

  // ----- the one-pass machine ---------------------------------------------------------------

  /** What the loop carries from token to token. */
  datatype Scan = Scan(inFrom: bool, stack: seq<bool>, prevSig: string)

  const START := Scan(false, [], "")

  /** The state after token `t`. */
  function Step(c: Target, st: Scan, t: string): Scan {
    if t != "" && t[0] == QUOTE then
      st.(prevSig := t)
    else if t == "(" then
      Scan(st.inFrom, st.stack + [st.inFrom], t)
    else if t == ")" then
      if st.stack != [] then
        Scan(st.stack[|st.stack| - 1], st.stack[..|st.stack| - 1], t)
      else
        st.(prevSig := t)
    else if c.IsWord(t) then
      Scan(if Lower(t) in FROM_ON then true else if Lower(t) in CLAUSE_OFF then false else st.inFrom, st.stack, t)
    else if Blank(t) then
      st
    else
      st.(prevSig := t)
  }

  /** Does the machine rewrite token `t`, read in state `st` and followed by `rest`? */
  predicate Hit(c: Target, st: Scan, t: string, rest: seq<string>) {
    && c.IsWord(t)
    && Lower(t) !in FROM_ON && Lower(t) !in CLAUSE_OFF
    && st.inFrom && t in c.tables && Lower(st.prevSig) in ANCHORS
    && (rest == [] || rest[0] != ".")
  }

  function Piece(c: Target, st: Scan, t: string, rest: seq<string>): string {
    if Hit(c, st, t, rest) then c.Prefix() + t else t
  }

  /** The `out` list that the machine builds from state `st` on. */
  function Pieces(c: Target, st: Scan, toks: seq<string>): (out: seq<string>)
    ensures |out| == |toks|
    decreases |toks|
  {
    if toks == [] then
      []
    else
      [Piece(c, st, toks[0], toks[1..])] + Pieces(c, Step(c, st, toks[0]), toks[1..])
  }

  /** The whole call as a function of its text. */
  function Qualified(c: Target, sql: string): string {
    Concat(Pieces(c, START, Tokenize(sql)))
  }

  /** State of the machine after the first `k` tokens, from state `st` on. */
  function StateAt(c: Target, st: Scan, toks: seq<string>, k: nat): Scan
    requires k <= |toks|
  {
    if k == 0 then st else Step(c, StateAt(c, st, toks, k - 1), toks[k - 1])
  }

  // ----- the declarative rule ---------------------------------------------------------------

  function KindOf(t: string): Kind {
    if t == "(" then Opens
    else if t == ")" then Closes
    else if Lower(t) in FROM_ON then TurnsOn
    else if Lower(t) in CLAUSE_OFF then TurnsOff
    else Plain
  }

  function Kinds(toks: seq<string>): (ks: seq<Kind>) {
    seq(|toks|, i requires 0 <= i < |toks| => KindOf(toks[i]))
  }

  /** The last token before `i` that is not white space is FROM, JOIN or a comma. */
  predicate AfterAnchor(toks: seq<string>, i: nat)
    requires i <= |toks|
  {
    exists j | 0 <= j < i :: Lower(toks[j]) in ANCHORS && forall k | j < k < i :: Blank(toks[k])
  }

  /** Token `i` is a table reference. */
  predicate IsTableRef(c: Target, toks: seq<string>, i: nat)
    requires i < |toks|
  {
    && c.IsWord(toks[i]) && KindOf(toks[i]) == Plain
    && toks[i] in c.tables
    && (i + 1 == |toks| || toks[i + 1] != ".")
    && AfterAnchor(toks, i)
    && InFromClause(Kinds(toks), i)
  }

  /** The output the rule asks for. */
  function RuleOutput(c: Target, toks: seq<string>): seq<string> {
    seq(|toks|, i requires 0 <= i < |toks| => if IsTableRef(c, toks, i) then c.Prefix() + toks[i] else toks[i])
  }

  // ----- the machine computes the rule ------------------------------------------------------

  /** A clause keyword is an ASCII word, so the machine sees it in its word branch. */
  lemma KeywordIsWord(c: Target, t: string)
    requires Lower(t) in FROM_ON || Lower(t) in CLAUSE_OFF
    ensures c.IsWord(t) && t[0] != QUOTE && t != "(" && t != ")" && !Blank(t)
  {
    assert t != "";
    assert Lower(t)[0] == LowerChar(t[0]);
  }

  /** What a step does to flag and stack, by the kind of its token. */
  lemma StepByKind(c: Target, st: Scan, t: string)
    ensures KindOf(t) == Opens ==> Step(c, st, t).stack == st.stack + [st.inFrom]
    ensures KindOf(t) == Closes && st.stack != [] ==>
              Step(c, st, t).inFrom == st.stack[|st.stack| - 1] && Step(c, st, t).stack == st.stack[..|st.stack| - 1]
    ensures KindOf(t) != Closes || st.stack == [] ==>
              Step(c, st, t).inFrom == (KindOf(t) == TurnsOn || (KindOf(t) != TurnsOff && st.inFrom))
    ensures KindOf(t) != Opens && (KindOf(t) != Closes || st.stack == []) ==> Step(c, st, t).stack == st.stack
  {
    if KindOf(t) == TurnsOn || KindOf(t) == TurnsOff {
      KeywordIsWord(c, t);
    }
  }

  /** The machine's flag is the declarative context, and its stack holds the contexts in which the
      brackets still open were opened. */
  lemma {:induction false} FlagIsContext(c: Target, toks: seq<string>, ks: seq<Kind>, context: seq<bool>, i: nat)
    requires i <= |toks| && ks == Kinds(toks) && |context| == |toks| + 1 && !context[0]
    requires forall k | 0 <= k < |ks| :: Follows(ks, context, k)
    ensures StateAt(c, START, toks, i).inFrom == context[i]
    ensures StateAt(c, START, toks, i).stack == OpenContexts(ks, context, i)
  {
    if i == 0 {
    } else {
      FlagIsContext(c, toks, ks, context, i - 1);
      assert Follows(ks, context, i - 1);
      StepByKind(c, StateAt(c, START, toks, i - 1), toks[i - 1]);
      assert ks[i - 1] == KindOf(toks[i - 1]);
    }
  }

  predicate IsAnchor(t: string) {
    Lower(t) in ANCHORS
  }

  /** White space moves the place, a significant token decides it. */
  lemma AfterAnchorStep(toks: seq<string>, i: nat)
    requires i < |toks|
    ensures AfterAnchor(toks, i + 1) <==> if Blank(toks[i]) then AfterAnchor(toks, i) else IsAnchor(toks[i])
  {
    hide Blank, Lower;
    var t := toks[i];
    if AfterAnchor(toks, i + 1) {
      var j :| 0 <= j < i + 1 && Lower(toks[j]) in ANCHORS && forall k | j < k < i + 1 :: Blank(toks[k]);
      if Blank(t) {
        BlankIsNoAnchor(t);
      }
    }
    if Blank(t) && AfterAnchor(toks, i) {
      var j :| 0 <= j < i && Lower(toks[j]) in ANCHORS && forall k | j < k < i :: Blank(toks[k]);
      assert Lower(toks[j]) in ANCHORS;
    }
    if !Blank(t) && IsAnchor(t) {
      assert Lower(toks[i]) in ANCHORS;
    }
  }

  /** A significant token goes into the register, white space does not. */
  lemma RegisterStep(c: Target, st: Scan, t: string)
    ensures Blank(t) ==> Step(c, st, t) == st
    ensures !Blank(t) ==> Step(c, st, t).prevSig == t
  {
  }

  /** The machine's register is FROM, JOIN or a comma exactly after such a token. */
  lemma {:induction false} RegisterIsAnchor(c: Target, toks: seq<string>, i: nat)
    requires i <= |toks|
    ensures Lower(StateAt(c, START, toks, i).prevSig) in ANCHORS <==> AfterAnchor(toks, i)
  {
    if i == 0 {
      assert Lower("") == "";
    } else {
      RegisterIsAnchor(c, toks, i - 1);
      hide Step, Blank, Lower, AfterAnchor;
      AfterAnchorStep(toks, i - 1);
      RegisterStep(c, StateAt(c, START, toks, i - 1), toks[i - 1]);
    }
  }

  lemma BlankIsNoAnchor(t: string)
    requires Blank(t)
    ensures Lower(t) !in ANCHORS
  {
    if t != "" {
      assert Lower(t)[0] == LowerChar(t[0]);
    }
  }

  lemma {:induction false} PieceAt(c: Target, toks: seq<string>, k: nat, i: nat)
    requires k <= i < |toks|
    ensures Pieces(c, StateAt(c, START, toks, k), toks[k..])[i - k] ==
            Piece(c, StateAt(c, START, toks, i), toks[i], toks[i + 1..])
    decreases i - k
  {
    assert toks[k..][0] == toks[k] && toks[k..][1..] == toks[k + 1..];
    if k == i {
    } else {
      PieceAt(c, toks, k + 1, i);
    }
  }

  /** The machine rewrites token `i` exactly when the rule picks it. */
  lemma HitIsTableRef(c: Target, toks: seq<string>, i: nat, st: Scan)
    requires i < |toks| && st == StateAt(c, START, toks, i)
    requires st.inFrom == InFromClause(Kinds(toks), i)
    requires Lower(st.prevSig) in ANCHORS <==> AfterAnchor(toks, i)
    ensures Hit(c, st, toks[i], toks[i + 1..]) <==> IsTableRef(c, toks, i)
  {
    hide StateAt, InFromClause, Kinds, AfterAnchor, Target.IsWord;
    if c.IsWord(toks[i]) {
      KindIsPlain(c, toks[i]);
    }
    assert i + 1 < |toks| ==> toks[i + 1..][0] == toks[i + 1];
  }

  lemma KindIsPlain(c: Target, t: string)
    requires c.IsWord(t)
    ensures KindOf(t) == Plain <==> Lower(t) !in FROM_ON && Lower(t) !in CLAUSE_OFF
  {
  }

  /** The one-pass machine rewrites exactly the tokens the declarative rule picks. */
  lemma MachineIsRule(c: Target, toks: seq<string>)
    ensures Pieces(c, START, toks) == RuleOutput(c, toks)
  {
    hide Hit, IsTableRef, Kinds, InFromClause, AfterAnchor, Lower, Step, Follows;
    var ks := Kinds(toks);
    KindsLength(toks);
    var context := seq(|toks| + 1, i requires 0 <= i <= |toks| => InFromClause(ks, i));
    ContextFollows(ks, context);
    forall i | 0 <= i < |toks|
      ensures Pieces(c, START, toks)[i] == RuleOutput(c, toks)[i]
    {
      assert toks[0..] == toks;
      PieceAt(c, toks, 0, i);
      FlagIsContext(c, toks, ks, context, i);
      RegisterIsAnchor(c, toks, i);
      HitIsTableRef(c, toks, i, StateAt(c, START, toks, i));
    }
  }

  lemma KindsLength(toks: seq<string>)
    ensures |Kinds(toks)| == |toks|
  {
  }

  lemma TokensNonEmpty(sql: string)
    ensures "" !in Tokenize(sql)
  {
    TokenizeLossless(sql);
  }

  lemma QualifiedIsRule(c: Target, sql: string)
    ensures Qualified(c, sql) == Concat(RuleOutput(c, Tokenize(sql)))
  {
    MachineIsRule(c, Tokenize(sql));
  }

  /** The call itself. */
  method DfQualify(c: Target, sql: string) returns (r: string)
    ensures r == Concat(RuleOutput(c, Tokenize(sql)))
  {
    var prefix := c.Prefix();
    var toks := Tokenize(sql);
    var n := |toks|;
    var out: seq<string> := [];
    var inFrom := false;
    var stack: seq<bool> := [];
    var prevSig := "";
    TokensNonEmpty(sql);
    hide Tokenize, Pieces, RuleOutput;
    ghost var all := Pieces(c, START, toks);
    assert toks[0..] == toks;
    for i := 0 to n
      invariant Scan(inFrom, stack, prevSig) == StateAt(c, START, toks, i)
      invariant |out| == i && forall k | 0 <= k < i :: out[k] == all[k]
    {
      var t := toks[i];
      ghost var st := Scan(inFrom, stack, prevSig);
      ghost var next := Step(c, st, t);
      PieceAt(c, toks, 0, i);
      assert all[i] == Piece(c, st, t, toks[i + 1..]);
      assert toks[i + 1..] == [] <==> i + 1 == n;
      if t[0] == QUOTE {
        out := out + [t];
        prevSig := t;
        assert next == Scan(inFrom, stack, prevSig);
      } else if t == "(" {
        stack := stack + [inFrom];
        out := out + [t];
        prevSig := t;
        assert next == Scan(inFrom, stack, prevSig);
      } else if t == ")" {
        if stack != [] {
          inFrom, stack := stack[|stack| - 1], stack[..|stack| - 1];
        }
        out := out + [t];
        prevSig := t;
        assert next == Scan(inFrom, stack, prevSig);
      } else if c.IsAlpha(t[0]) || t[0] == '_' {
        var low := Lower(t);
        if low in FROM_ON {
          inFrom := true;
          out := out + [t];
        } else if low in CLAUSE_OFF {
          inFrom := false;
          out := out + [t];
        } else if inFrom && t in c.tables && Lower(prevSig) in ANCHORS && (i + 1 >= n || toks[i + 1] != ".") {
          out := out + [prefix + t];
        } else {
          out := out + [t];
        }
        prevSig := t;
        assert next == Scan(inFrom, stack, prevSig);
      } else {
        out := out + [t];
        if !Blank(t) {
          prevSig := t;
        }
        assert next == Scan(inFrom, stack, prevSig);
      }
    }
    assert out == all;
    QualifiedIsRule(c, sql);
    r := Concat(out);
  }

  /** ON is no clause keyword: it leaves the context as it is. */
  lemma OnKeepsContext(c: Target, st: Scan, t: string)
    requires Lower(t) == "on"
    ensures KindOf(t) == Plain && Step(c, st, t).inFrom == st.inFrom && Step(c, st, t).stack == st.stack
  {
    assert |t| == 2 && Lower(t)[0] == LowerChar(t[0]);
    assert "("[0] == '(' && ")"[0] == ')';
    StepByKind(c, st, t);
  }

  // ----- a bracket group leaves the context alone -------------------------------------------

  lemma {:induction false} InsideGroup(c: Target, st: Scan, g: seq<string>, ks: seq<Kind>, k: nat)
    requires 1 <= k < |g| && ks == Kinds(g) && ks[0] == Opens
    requires Balanced(ks, 1, |g| - 1)
    ensures |StateAt(c, st, g, k).stack| == |st.stack| + 1 + Depth(ks, 1, k)
    ensures StateAt(c, st, g, k).stack[..|st.stack| + 1] == st.stack + [st.inFrom]
  {
    StepByKind(c, StateAt(c, st, g, k - 1), g[k - 1]);
    if k > 1 {
      InsideGroup(c, st, g, ks, k - 1);
      assert Depth(ks, 1, k) >= 0 && Depth(ks, 1, k - 1) >= 0;
    } else {
      assert StateAt(c, st, g, 0) == st;
    }
  }

  /** Whatever a balanced group `( ... )` holds, and in whatever state it is read, it leaves the
      context and the stack as they were. */
  lemma GroupRestores(c: Target, st: Scan, g: seq<string>)
    requires |g| >= 2 && g[0] == "(" && g[|g| - 1] == ")" && Balanced(Kinds(g), 1, |g| - 1)
    ensures StateAt(c, st, g, |g|).inFrom == st.inFrom
    ensures StateAt(c, st, g, |g|).stack == st.stack
  {
    InsideGroup(c, st, g, Kinds(g), |g| - 1);
    StepByKind(c, StateAt(c, st, g, |g| - 1), g[|g| - 1]);
    assert StateAt(c, st, g, |g| - 1).stack == st.stack + [st.inFrom];
  }
}
