/** Printing and splitting scripts: what a splitter's output looks like, when it undoes a join, and
    when the two splitters agree. */
module SplitLaws {
  import opened Text
  import opened Splitters

  // ----- where the pattern matches ----------------------------------------------------------

  /** A `;` at `p` and a line feed at `q` with only white space between. */
  predicate Ends(s: string, p: nat, q: nat)
    requires p < q < |s|
  {
    s[p] == SEMI && s[q] == '\n' && forall k | p < k < q :: IsSpace(s[k])
  }

  /** A terminator at `p`: a `;` whose white space reaches a line feed or the end of the text. */
  predicate Terminates(s: string, p: nat)
    requires p < |s|
  {
    s[p] == SEMI && ((forall k | p < k < |s| :: IsSpace(s[k])) || exists q | p < q < |s| :: Ends(s, p, q))
  }

  lemma {:induction false} GiveBackIs(s: string, lo: nat, k: nat)
    requires lo <= k < |s|
    ensures GiveBack(s, lo, k).Some? <==> exists q | lo <= q <= k :: s[q] == '\n'
  {
    if s[k] != '\n' && k > lo {
      GiveBackIs(s, lo, k - 1);
    }
  }

  /** Backtracking finds a match exactly at the terminators. */
  lemma MatchIffTerminates(s: string, p: nat)
    requires p < |s|
    ensures SemiEnd(s, p).Some? <==> Terminates(s, p)
  {
    if s[p] == SEMI {
      var e := SpaceEnd(s, p + 1);
      SpaceEndIs(s, p + 1);
      if e < |s| {
        GiveBackIs(s, p + 1, e);
        if SemiEnd(s, p).Some? {
          var q :| p + 1 <= q <= e && s[q] == '\n';
          assert Ends(s, p, q);
        }
      }
    }
  }

  // ----- statements -------------------------------------------------------------------------

  predicate Trimmed(s: string) {
    s != "" && !IsSpace(s[0]) && !IsSpace(s[|s| - 1])
  }

  /** No `;` of the text is followed, over white space, by a line feed. */
  predicate Unbroken(s: string) {
    forall p, q | 0 <= p < q < |s| :: !Ends(s, p, q)
  }

  /** What the DeltaForge splitter takes for one statement. */
  predicate IsStatement(s: string) {
    Trimmed(s) && HasCode(s) && Unbroken(s)
  }

  lemma EndsPart(s: string, lo: nat, hi: nat, p: nat, q: nat)
    requires lo <= hi <= |s| && p < q < hi - lo
    ensures Ends(s[lo..hi], p, q) <==> Ends(s, lo + p, lo + q)
  {
    var x := s[lo..hi];
    assert forall k | 0 <= k < |x| :: x[k] == s[lo + k];
    assert forall k | lo <= k < hi :: s[k] == x[k - lo];
  }

  lemma UnbrokenPart(s: string, lo: nat, hi: nat)
    requires lo <= hi <= |s|
    requires forall p, q | lo <= p < q < hi :: !Ends(s, p, q)
    ensures Unbroken(s[lo..hi])
  {
    forall p, q | 0 <= p < q < |s[lo..hi]|
      ensures !Ends(s[lo..hi], p, q)
    {
      EndsPart(s, lo, hi, p, q);
    }
  }

  lemma StripIs(s: string) returns (lo: nat, hi: nat)
    ensures lo <= hi <= |s| && Strip(s) == s[lo..hi]
    ensures Strip(s) == "" || Trimmed(Strip(s))
    ensures forall k | 0 <= k < lo || hi <= k < |s| :: IsSpace(s[k])
  {
    lo := SpaceEnd(s, 0);
    hi := SpaceStart(s, lo, |s|);
    SpaceEndIs(s, 0);
    SpaceStartIs(s, lo, |s|);
  }

  lemma KeptIsStatement(chunk: string)
    requires Unbroken(chunk)
    ensures forall x | x in Keep(chunk) :: IsStatement(x)
  {
    hide HasCode;
    var lo, hi := StripIs(chunk);
    UnbrokenPart(chunk, lo, hi);
    NoCodeInNothing();
  }

  lemma NoCodeInNothing()
    ensures !HasCode("")
  {
    assert SplitLines("", 0) == [] && CodeLines([]) == [];
  }

  lemma ChunkUnbroken(s: string, i: nat, j: nat)
    requires i <= j <= |s|
    requires forall q | i <= q < j :: SemiEnd(s, q).None?
    ensures Unbroken(s[i..j])
  {
    forall p, q | i <= p < q < j
      ensures !Ends(s, p, q)
    {
      MatchIffTerminates(s, p);
    }
    UnbrokenPart(s, i, j);
  }

  lemma {:induction false} SplitGivesStatements(s: string, i: nat)
    requires i <= |s|
    ensures forall x | x in KeepAll(DfChunks(s, i)) :: IsStatement(x)
    decreases |s| - i
  {
    hide Keep, KeepAll, IsStatement, SemiEnd;
    var p := FirstSemi(s, i);
    if p.None? {
      ChunkUnbroken(s, i, |s|);
      assert s[i..] == s[i..|s|];
      KeptIsStatement(s[i..]);
      KeepOne(s[i..]);
    } else {
      SemiEndRange(s, p.value);
      var next := SemiEnd(s, p.value).value;
      ChunkUnbroken(s, i, p.value);
      KeptIsStatement(s[i..p.value]);
      SplitGivesStatements(s, next);
      KeepCons(s[i..p.value], DfChunks(s, next));
    }
  }

  // ----- a text behind another one ----------------------------------------------------------

  lemma {:induction false} SpaceEndShift(a: string, b: string, i: nat)
    requires i <= |b|
    ensures SpaceEnd(a + b, |a| + i) == |a| + SpaceEnd(b, i)
    decreases |b| - i
  {
    if i < |b| && IsSpace(b[i]) {
      SpaceEndShift(a, b, i + 1);
    }
  }

  lemma {:induction false} GiveBackShift(a: string, b: string, lo: nat, k: nat)
    requires lo <= k <= |b|
    ensures GiveBack(a + b, |a| + lo, |a| + k) ==
            if GiveBack(b, lo, k).Some? then Some(|a| + GiveBack(b, lo, k).value) else None
  {
    if !(k < |b| && b[k] == '\n') && k != |b| && k != lo {
      GiveBackShift(a, b, lo, k - 1);
    }
  }

  lemma SemiEndShift(a: string, b: string, p: nat)
    requires p < |b|
    ensures SemiEnd(a + b, |a| + p) == if SemiEnd(b, p).Some? then Some(|a| + SemiEnd(b, p).value) else None
  {
    SpaceEndShift(a, b, p + 1);
    GiveBackShift(a, b, p + 1, SpaceEnd(b, p + 1));
    assert (a + b)[|a| + p] == b[p];
  }

  lemma {:induction false} FirstSemiShift(a: string, b: string, i: nat)
    requires i <= |b|
    ensures FirstSemi(a + b, |a| + i) == if FirstSemi(b, i).Some? then Some(|a| + FirstSemi(b, i).value) else None
    decreases |b| - i
  {
    hide SemiEnd;
    if i == |b| {
    } else {
      SemiEndShift(a, b, i);
      if SemiEnd(b, i).None? {
        FirstSemiShift(a, b, i + 1);
      }
    }
  }

  lemma {:induction false} DfChunksShift(a: string, b: string, i: nat)
    requires i <= |b|
    ensures DfChunks(a + b, |a| + i) == DfChunks(b, i)
    decreases |b| - i
  {
    hide SemiEnd, FirstSemi;
    FirstSemiShift(a, b, i);
    var p := FirstSemi(b, i);
    assert (a + b)[|a| + i..] == b[i..];
    if p.Some? {
      SemiEndShift(a, b, p.value);
      SemiEndRange(b, p.value);
      assert (a + b)[|a| + i..|a| + p.value] == b[i..p.value];
      DfChunksShift(a, b, SemiEnd(b, p.value).value);
    }
  }

  // ----- printing and splitting -------------------------------------------------------------

  /** Every statement followed by its terminator. */
  function Terminated(stmts: seq<string>): string {
    if stmts == [] then "" else stmts[0] + ";\n" + Terminated(stmts[1..])
  }

  predicate AllStatements(stmts: seq<string>) {
    forall x | x in stmts :: IsStatement(x)
  }

  lemma StatementIsKept(x: string)
    requires IsStatement(x)
    ensures Keep(x) == [x]
  {
    hide HasCode;
    var lo, hi := StripIs(x);
    assert lo == 0;
    assert hi == |x|;
    assert x[lo..hi] == x;
  }

  /** Inside a statement that a `;` follows nothing terminates. */
  lemma NoEndInside(x: string, s: string, q: nat)
    requires Trimmed(x) && Unbroken(x) && x < s && s[|x|] == SEMI && q < |x|
    ensures !Terminates(s, q)
  {
    assert forall k | 0 <= k < |x| :: s[k] == x[k];
    forall r | q < r < |s|
      ensures !Ends(s, q, r)
    {
      if r < |x| && Ends(s, q, r) {
        assert Ends(x, q, r);
      }
    }
    assert !IsSpace(s[|x| - 1]) && !IsSpace(s[|x|]);
  }

  lemma NoEndBefore(x: string, q: nat)
    requires Trimmed(x) && Unbroken(x) && q < |x| - 1
    ensures !Terminates(x, q)
  {
  }

  lemma {:induction false} FirstSemiIs(s: string, i: nat, p: nat)
    requires i <= p < |s| && SemiEnd(s, p).Some?
    requires forall q | i <= q < p :: SemiEnd(s, q).None?
    ensures FirstSemi(s, i) == Some(p)
  {
  }

  /** The splitter takes a terminated statement off the front of a script. */
  lemma SplitFront(x: string, rest: string)
    requires IsStatement(x) && (rest == "" || !IsSpace(rest[0]))
    ensures DfStatements(x + ";\n" + rest) == [x] + DfStatements(rest)
  {
    hide Keep, KeepAll, HasCode;
    var front := x + ";\n";
    var s := front + rest;
    var n := |x|;
    assert s[n] == SEMI && s[n + 1] == '\n' && (rest != "" ==> s[n + 2] == rest[0]);
    assert SpaceEnd(s, n + 2) == n + 2;
    assert SpaceEnd(s, n + 1) == n + 2;
    assert GiveBack(s, n + 1, n + 2) == Some(n + 2) by {
      if rest != "" {
        assert GiveBack(s, n + 1, n + 1) == Some(n + 2);
      }
    }
    forall q | 0 <= q < n ensures SemiEnd(s, q).None? {
      NoEndInside(x, s, q);
      MatchIffTerminates(s, q);
    }
    FirstSemiIs(s, 0, n);
    assert s[0..n] == x;
    DfChunksShift(front, rest, 0);
    assert DfChunks(s, 0) == [x] + DfChunks(rest, 0);
    KeepCons(x, DfChunks(rest, 0));
    StatementIsKept(x);
  }

  /** A single statement is split off whole unless it ends in `;`. */
  lemma SplitLast(x: string)
    requires IsStatement(x)
    ensures x[|x| - 1] != SEMI ==> DfStatements(x) == [x]
    ensures x[|x| - 1] == SEMI ==> DfStatements(x) == Keep(x[..|x| - 1])
  {
    hide Keep, KeepAll, HasCode;
    var n := |x| - 1;
    forall q | 0 <= q < n ensures SemiEnd(x, q).None? {
      NoEndBefore(x, q);
      MatchIffTerminates(x, q);
    }
    if x[n] == SEMI {
      FirstSemiIs(x, 0, n);
      assert SemiEnd(x, n) == Some(n + 1);
      assert FirstSemi(x, n + 1) == None;
      assert x[0..n] == x[..n] && x[n + 1..] == "";
      assert DfChunks(x, 0) == [x[..n]] + [""];
      KeepCons(x[..n], [""]);
      KeepOne("");
    } else {
      MatchIffTerminates(x, n);
      assert FirstSemi(x, 0) == None;
      assert x[0..] == x;
      KeepOne(x);
      StatementIsKept(x);
    }
  }

  lemma SplitNothing()
    ensures DfStatements("") == []
  {
    KeepOne("");
  }

  lemma {:induction false} PrintStarts(stmts: seq<string>)
    requires AllStatements(stmts)
    ensures Terminated(stmts) == "" || !IsSpace(Terminated(stmts)[0])
    ensures Join(stmts, ";\n") == "" || !IsSpace(Join(stmts, ";\n")[0])
  {
    hide HasCode;
    if stmts == [] {
    } else {
      assert IsStatement(stmts[0]);
    }
  }

  /** Splitting undoes printing every statement with its terminator. */
  lemma {:induction false} SplitUndoesTerminated(stmts: seq<string>)
    requires AllStatements(stmts)
    ensures DfStatements(Terminated(stmts)) == stmts
  {
    hide IsStatement, DfStatements;
    if stmts == [] {
      SplitNothing();
    } else {
      assert IsStatement(stmts[0]);
      PrintStarts(stmts[1..]);
      SplitUndoesTerminated(stmts[1..]);
      SplitFront(stmts[0], Terminated(stmts[1..]));
    }
  }

  /** Splitting is a normal form: printing the statements of any script, each with its terminator,
      and splitting again gives the same statements. */
  lemma SplitIsNormalForm(script: string)
    ensures AllStatements(DfStatements(script))
    ensures DfStatements(Terminated(DfStatements(script))) == DfStatements(script)
  {
    SplitGivesStatements(script, 0);
    SplitUndoesTerminated(DfStatements(script));
  }

  /** What splitting gives back after a join. */
  lemma {:induction false} SplitOfJoin(stmts: seq<string>)
    requires AllStatements(stmts) && stmts != []
    ensures DfStatements(Join(stmts, ";\n")) == stmts[..|stmts| - 1] + DfStatements(stmts[|stmts| - 1])
  {
    hide IsStatement, DfStatements;
    assert IsStatement(stmts[0]);
    if |stmts| > 1 {
      var rest := stmts[1..];
      PrintStarts(rest);
      SplitOfJoin(rest);
      SplitFront(stmts[0], Join(rest, ";\n"));
      assert rest[|rest| - 1] == stmts[|stmts| - 1];
      assert [stmts[0]] + rest[..|rest| - 1] == stmts[..|stmts| - 1];
    }
  }

  predicate EndsInSemi(x: string) {
    x != "" && x[|x| - 1] == SEMI
  }

  lemma ShorterIsKept(x: string)
    requires x != ""
    ensures Keep(x[..|x| - 1]) != [x]
  {
    hide HasCode;
    var lo, hi := StripIs(x[..|x| - 1]);
  }

  lemma JoinOfStatements(stmts: seq<string>)
    requires AllStatements(stmts)
    ensures DfStatements(Join(stmts, ";\n")) == stmts <==>
            stmts == [] || !EndsInSemi(stmts[|stmts| - 1])
  {
    hide DfStatements, HasCode, Join, Keep;
    if stmts == [] {
      SplitNothing();
      assert Join([], ";\n") == "" by {
        JoinNothing(";\n");
      }
    } else {
      var init, last := stmts[..|stmts| - 1], stmts[|stmts| - 1];
      assert IsStatement(last);
      SplitOfJoin(stmts);
      SplitLast(last);
      assert stmts == init + [last];
      if EndsInSemi(last) {
        ShorterIsKept(last);
        SamePrefix(init, DfStatements(last), [last]);
      }
    }
  }

  /** Splitting undoes a join without a final terminator exactly when all of the list are statements
      and the last does not itself end in a semicolon. */
  lemma SplitUndoesJoin(stmts: seq<string>)
    ensures DfStatements(Join(stmts, ";\n")) == stmts <==>
            AllStatements(stmts) && (stmts == [] || !EndsInSemi(stmts[|stmts| - 1]))
  {
    hide IsStatement, DfStatements, EndsInSemi;
    if DfStatements(Join(stmts, ";\n")) == stmts {
      SplitIsNormalForm(Join(stmts, ";\n"));
    }
    if AllStatements(stmts) {
      JoinOfStatements(stmts);
    }
  }

  /** And it undoes printing with terminators exactly when all of the list are statements. */
  lemma SplitUndoesTerminatedIff(stmts: seq<string>)
    ensures DfStatements(Terminated(stmts)) == stmts <==> AllStatements(stmts)
  {
    hide IsStatement, DfStatements;
    if DfStatements(Terminated(stmts)) == stmts {
      SplitIsNormalForm(Terminated(stmts));
    }
    if AllStatements(stmts) {
      SplitUndoesTerminated(stmts);
    }
  }

  lemma JoinNothing(sep: string)
    ensures Join([], sep) == ""
  {
  }

  lemma SamePrefix(a: seq<string>, b: seq<string>, c: seq<string>)
    requires b != c
    ensures a + b != a + c
  {
    assert (a + b)[|a|..] == b && (a + c)[|a|..] == c;
  }

  // ----- the scripts the harness prints -----------------------------------------------------

  lemma {:induction false} LineEndIs(s: string, i: nat)
    requires i <= |s|
    ensures LineEnd(s, i) == i <==> i == |s| || IsLineBreak(s[i])
    ensures i < |s| && LineEnd(s, i) > i ==> s[i..LineEnd(s, i)] != "" && s[i..LineEnd(s, i)][0] == s[i]
  {
  }

  lemma StripKeepsFirst(s: string)
    requires s != "" && !IsSpace(s[0])
    ensures Strip(s) != "" && Strip(s)[0] == s[0]
  {
    var lo, hi := StripIs(s);
    assert lo == 0;
    assert hi > 0;
  }

  /** A text that starts with a visible character other than a dash starts with a line of code. */
  lemma StartsWithCode(s: string)
    requires s != "" && !IsSpace(s[0]) && s[0] != '-'
    ensures HasCode(s)
  {
    var line := s[0..LineEnd(s, 0)];
    LineEndIs(s, 0);
    StripKeepsFirst(line);
    var lines := SplitLines(s, 0);
    assert lines[0] == line;
    var code := CodeLines(lines);
    assert code[0] == line;
    var text := Join(code, "\n");
    assert text[0] == line[0];
    StripKeepsFirst(text);
  }

  const STATS: string := "SHOW STATS ACTUAL "

  /** The text a measured query is sent as: all statements but the last are preamble, and the last
      is wrapped. No statement at all is an error. */
  function StatsSql(stmts: seq<string>): Option<string> {
    if stmts == [] then
      None
    else
      var preamble, select := stmts[..|stmts| - 1], stmts[|stmts| - 1];
      if preamble != [] then
        Some(Join(preamble, ";\n") + ";\n" + (STATS + select))
      else
        Some(STATS + select)
  }

  lemma EndsBehind(a: string, b: string, p: nat, q: nat)
    requires p < q < |b|
    ensures Ends(a + b, |a| + p, |a| + q) <==> Ends(b, p, q)
  {
    EndsPart(a + b, |a|, |a + b|, p, q);
    assert (a + b)[|a|..|a + b|] == b;
  }

  lemma UnbrokenPrefix(a: string, b: string)
    requires SEMI !in a && Unbroken(b)
    ensures Unbroken(a + b)
  {
    var s := a + b;
    assert forall p | 0 <= p < |a| :: s[p] == a[p] != SEMI;
    forall p, q | 0 <= p < q < |s|
      ensures !Ends(s, p, q)
    {
      if p >= |a| {
        EndsBehind(a, b, p - |a|, q - |a|);
      }
    }
  }

  lemma WrappedIsStatement(select: string)
    requires IsStatement(select)
    ensures IsStatement(STATS + select)
    ensures EndsInSemi(STATS + select) <==> EndsInSemi(select)
  {
    hide HasCode;
    UnbrokenPrefix(STATS, select);
    StartsWithCode(STATS + select);
  }

  lemma {:induction false} JoinSnoc(stmts: seq<string>, x: string, sep: string)
    requires stmts != []
    ensures Join(stmts + [x], sep) == Join(stmts, sep) + sep + x
  {
    if |stmts| == 1 {
      assert (stmts + [x])[1..] == [x];
      assert Join([x], sep) == x;
    } else {
      JoinSnoc(stmts[1..], x, sep);
      assert (stmts + [x])[1..] == stmts[1..] + [x];
      JoinAssoc(stmts[0] + sep, Join(stmts[1..], sep), sep, x);
    }
  }

  lemma JoinAssoc(a: string, b: string, c: string, d: string)
    ensures a + (b + c + d) == a + b + c + d
  {
  }

  /** The measured text splits back into the preamble and the wrapped query, whatever the step's
      script was, unless the script's last statement ends in a semicolon. */
  lemma StatsSqlSplits(script: string)
    ensures StatsSql(DfStatements(script)).None? <==> DfStatements(script) == []
    ensures DfStatements(script) != [] ==>
              var stmts := DfStatements(script);
              var last := stmts[|stmts| - 1];
              DfStatements(StatsSql(stmts).value) == stmts[..|stmts| - 1] + [STATS + last] <==> !EndsInSemi(last)
  {
    hide HasCode, Keep, DfStatements;
    var stmts := DfStatements(script);
    SplitIsNormalForm(script);
    if stmts != [] {
      var preamble, select := stmts[..|stmts| - 1], stmts[|stmts| - 1];
      WrappedIsStatement(select);
      var all := preamble + [STATS + select];
      if preamble == [] {
        assert Join(all, ";\n") == STATS + select;
      } else {
        JoinSnoc(preamble, STATS + select, ";\n");
      }
      SplitUndoesJoin(all);
    }
  }

  lemma PlainIsStatement(x: string)
    requires Trimmed(x) && x[0] != '-' && SEMI !in x
    ensures IsStatement(x) && !EndsInSemi(x)
  {
    hide HasCode;
    StartsWithCode(x);
  }

  // ----- the two splitters ------------------------------------------------------------------

  /** The Spark splitter's view of one DeltaForge fragment is the fragment itself unless there is a
      semicolon in it. Such a fragment is harmless when neither it nor its parts hold a statement. */
  predicate Harmless(chunk: string) {
    SEMI in chunk ==> Keep(chunk) == [] && SparkStatements(chunk) == []
  }

  lemma {:induction false} SemiAtShift(a: string, b: string, i: nat)
    requires i <= |b|
    ensures SemiAt(a + b, |a| + i) == |a| + SemiAt(b, i)
    decreases |b| - i
  {
    if i < |b| && b[i] != SEMI {
      SemiAtShift(a, b, i + 1);
    }
  }

  lemma SparkStep(s: string, i: nat)
    requires i <= |s| && SemiAt(s, i) < |s|
    ensures SparkChunks(s, i) == [s[i..SemiAt(s, i)]] + SparkChunks(s, SemiAt(s, i) + 1)
  {
  }

  lemma SparkEnd(s: string, i: nat)
    requires i <= |s| && SemiAt(s, i) == |s|
    ensures SparkChunks(s, i) == [s[i..]]
  {
  }

  lemma SlicesBehind(a: string, b: string, i: nat, p: nat)
    requires i <= p <= |b|
    ensures (a + b)[|a| + i..] == b[i..] && (a + b)[|a| + i..|a| + p] == b[i..p]
  {
  }

  lemma {:induction false} SparkChunksShift(a: string, b: string, i: nat)
    requires i <= |b|
    ensures SparkChunks(a + b, |a| + i) == SparkChunks(b, i)
    decreases |b| - i
  {
    hide SemiAt, SparkChunks;
    SemiAtShift(a, b, i);
    var p := SemiAt(b, i);
    SlicesBehind(a, b, i, p);
    if p < |b| {
      SparkStep(a + b, |a| + i);
      SparkStep(b, i);
      SparkChunksShift(a, b, p + 1);
    } else {
      SparkEnd(a + b, |a| + i);
      SparkEnd(b, i);
    }
  }

  lemma SemiAtInPart(s: string, i: nat, q: nat, p: nat)
    requires i <= q < p <= |s| && q == SemiAt(s, i)
    ensures SemiAt(s[i..p], 0) == q - i
  {
    var x := s[i..p];
    forall k | 0 <= k < q - i ensures x[k] != SEMI {
      if s[i + k] == SEMI {
        SemiAtIsFirst(s, i, i + k);
      }
    }
    SemiAtIs(x, 0, q - i);
  }

  lemma CutAt(s: string, i: nat, q: nat, p: nat)
    requires i <= q < p <= |s|
    ensures s[i..p] == s[i..q + 1] + s[q + 1..p] && s[i..p][0..q - i] == s[i..q]
  {
  }

  lemma SparkFirst(s: string, i: nat, q: nat, p: nat)
    requires i <= q < p <= |s| && q == SemiAt(s, i)
    ensures SparkChunks(s[i..p], 0) == [s[i..q]] + SparkChunks(s[q + 1..p], 0)
  {
    hide SemiAt, SparkChunks;
    SemiAtInPart(s, i, q, p);
    SparkStep(s[i..p], 0);
    SparkChunksShift(s[i..q + 1], s[q + 1..p], 0);
    CutAt(s, i, q, p);
  }

  /** A text up to a semicolon and the text behind it are split separately. */
  lemma {:induction false} SparkCut(s: string, i: nat, p: nat)
    requires i <= p < |s| && s[p] == SEMI
    ensures SparkChunks(s, i) == SparkChunks(s[i..p], 0) + SparkChunks(s, p + 1)
    decreases p - i
  {
    hide SemiAt, SparkChunks;
    var q := SemiAt(s, i);
    SemiAtIsFirst(s, i, p);
    SparkStep(s, i);
    if q < p {
      SparkCut(s, q + 1, p);
      SparkFirst(s, i, q, p);
      FirstAndRest(s[i..q], SparkChunks(s[q + 1..p], 0), SparkChunks(s, p + 1));
    } else {
      NoSemiBefore(s, i, p);
      SparkWhole(s[i..p]);
    }
  }

  lemma FirstAndRest(first: string, a: seq<string>, b: seq<string>)
    ensures [first] + (a + b) == ([first] + a) + b
  {
  }

  lemma NoSemiBefore(s: string, i: nat, p: nat)
    requires i <= p <= |s| && p == SemiAt(s, i)
    ensures SEMI !in s[i..p]
  {
    forall k | i <= k < p ensures s[k] != SEMI {
      if s[k] == SEMI {
        SemiAtIsFirst(s, i, k);
      }
    }
  }

  lemma SparkWhole(x: string)
    requires SEMI !in x
    ensures SparkChunks(x, 0) == [x]
  {
    SemiAtIs(x, 0, |x|);
    assert x[0..] == x;
  }

  lemma {:induction false} SemiAtIsFirst(s: string, i: nat, k: nat)
    requires i <= k < |s| && s[k] == SEMI
    ensures SemiAt(s, i) <= k
    decreases k - i
  {
    if s[i] != SEMI {
      SemiAtIsFirst(s, i + 1, k);
    }
  }

  lemma {:induction false} SemiAtIs(s: string, i: nat, p: nat)
    requires i <= p <= |s| && (p < |s| ==> s[p] == SEMI)
    requires forall k | i <= k < p :: s[k] != SEMI
    ensures SemiAt(s, i) == p
    decreases p - i
  {
    if i == p {
    } else {
      SemiAtIs(s, i + 1, p);
    }
  }

  lemma {:induction false} SpaceStartShift(a: string, b: string, lo: nat, hi: nat)
    requires lo <= hi <= |b|
    ensures SpaceStart(a + b, |a| + lo, |a| + hi) == |a| + SpaceStart(b, lo, hi)
  {
    if lo < hi && IsSpace(b[hi - 1]) {
      SpaceStartShift(a, b, lo, hi - 1);
    }
  }

  lemma StripSkips(x: string)
    requires x != "" && IsSpace(x[0])
    ensures Strip(x) == Strip(x[1..])
  {
    var a, b := x[..1], x[1..];
    assert x == a + b;
    SpaceEndShift(a, b, 0);
    SpaceStartShift(a, b, SpaceEnd(b, 0), |b|);
    assert SpaceEnd(x, 0) == SpaceEnd(x, 1);
  }

  lemma {:induction false} SparkSkipsSpace(s: string, i: nat, j: nat)
    requires i <= j <= |s| && forall k | i <= k < j :: IsSpace(s[k])
    ensures KeepAll(SparkChunks(s, i)) == KeepAll(SparkChunks(s, j))
    decreases j - i
  {
    hide KeepAll, Strip, HasCode;
    if i == j {
    } else {
      SparkSkipsSpace(s, i + 1, j);
      assert s[i] != SEMI;
      var p := SemiAt(s, i);
      StripSkips(s[i..p]);
      assert s[i..p][1..] == s[i + 1..p];
      assert s[i..][..p - i] == s[i..p];
      if p == |s| {
        assert s[i..] == s[i..p] && s[i + 1..] == s[i + 1..p];
        KeepOne(s[i..]);
        KeepOne(s[i + 1..]);
      } else {
        KeepCons(s[i..p], SparkChunks(s, p + 1));
        KeepCons(s[i + 1..p], SparkChunks(s, p + 1));
      }
    }
  }

  lemma SemiEndIsSpace(s: string, p: nat)
    requires p < |s| && SemiEnd(s, p).Some?
    ensures p < SemiEnd(s, p).value <= |s| && s[p] == SEMI
    ensures forall k | p < k < SemiEnd(s, p).value :: IsSpace(s[k])
  {
    SemiEndRange(s, p);
    SpaceEndIs(s, p + 1);
    GiveBackBound(s, p + 1, SpaceEnd(s, p + 1));
  }

  lemma {:induction false} GiveBackBound(s: string, lo: nat, k: nat)
    requires lo <= k <= |s| && GiveBack(s, lo, k).Some?
    requires k < |s| ==> !IsSpace(s[k])
    ensures GiveBack(s, lo, k).value <= k
  {
    if k == |s| {
    } else {
      assert s[k] != '\n';
      if k > lo {
        GiveBackRange(s, lo, k - 1);
      }
    }
  }

  /** The Spark splitter works through a script DeltaForge fragment by fragment. */
  lemma {:induction false} SparkByFragment(s: string, i: nat)
    requires i <= |s|
    ensures KeepAll(SparkChunks(s, i)) == Collect(SparkStatements, DfChunks(s, i))
    decreases |s| - i
  {
    hide Keep, KeepAll, SemiEnd, FirstSemi, SparkChunks, Collect;
    var p := FirstSemi(s, i);
    if p.None? {
      SparkChunksShift(s[..i], s[i..], 0);
      assert s[..i] + s[i..] == s;
      OneFragment(s[i..]);
    } else {
      SemiEndIsSpace(s, p.value);
      var next := SemiEnd(s, p.value).value;
      var before, after := SparkChunks(s[i..p.value], 0), SparkChunks(s, p.value + 1);
      SparkCut(s, i, p.value);
      KeepAllAppend(before, after);
      SparkSkipsSpace(s, p.value + 1, next);
      SparkByFragment(s, next);
      CollectCons(SparkStatements, s[i..p.value], DfChunks(s, next));
    }
  }

  lemma KeepAllAppend(a: seq<string>, b: seq<string>)
    ensures KeepAll(a + b) == KeepAll(a) + KeepAll(b)
  {
    CollectAppend(Keep, a, b);
  }

  lemma OneFragment(chunk: string)
    ensures Collect(SparkStatements, [chunk]) == SparkStatements(chunk)
  {
    hide SparkStatements;
    CollectCons(SparkStatements, chunk, []);
    assert [chunk] + [] == [chunk];
  }

  lemma SparkOfPlain(chunk: string)
    requires SEMI !in chunk
    ensures SparkStatements(chunk) == Keep(chunk)
  {
    SparkWhole(chunk);
    KeepOne(chunk);
  }

  lemma KeptKeepsSemi(chunk: string)
    requires SEMI in chunk && Keep(chunk) != []
    ensures SEMI in Keep(chunk)[0]
  {
    hide HasCode;
    var lo, hi := StripIs(chunk);
    var k :| 0 <= k < |chunk| && chunk[k] == SEMI;
    assert lo <= k < hi;
    assert chunk[lo..hi][k - lo] == SEMI;
  }

  /** The Spark splitter's statements hold no semicolon. */
  lemma {:induction false} SparkHasNoSemi(s: string, i: nat)
    requires i <= |s|
    ensures forall x | x in KeepAll(SparkChunks(s, i)) :: SEMI !in x
    decreases |s| - i
  {
    hide HasCode, Strip;
    var p := SemiAt(s, i);
    forall k | i <= k < p ensures s[k] != SEMI {
      if s[k] == SEMI {
        SemiAtIsFirst(s, i, k);
      }
    }
    var lo, hi := StripIs(s[i..p]);
    assert SEMI !in s[i..p] && SEMI !in Strip(s[i..p]);
    if p == |s| {
      assert s[i..] == s[i..p];
      KeepOne(s[i..]);
    } else {
      SparkHasNoSemi(s, p + 1);
      KeepCons(s[i..p], SparkChunks(s, p + 1));
    }
  }

  lemma {:induction false} HarmlessAgree(chunks: seq<string>)
    requires forall c | c in chunks :: Harmless(c)
    ensures Collect(Keep, chunks) == Collect(SparkStatements, chunks)
  {
    hide Keep, SparkStatements;
    if chunks == [] {
    } else {
      assert Harmless(chunks[0]);
      HarmlessAgree(chunks[1..]);
      if SEMI !in chunks[0] {
        SparkOfPlain(chunks[0]);
      }
    }
  }

  lemma {:induction false} KeptIsCollected(chunks: seq<string>, c: string)
    requires c in chunks
    ensures Keep(c) != [] ==> Keep(c)[0] in Collect(Keep, chunks)
  {
    hide Keep;
    if c != chunks[0] {
      KeptIsCollected(chunks[1..], c);
    }
  }

  /** When no fragment with a semicolon is kept, the Spark splitter finds at least as many
      statements, and only as many when all such fragments are harmless. */
  lemma {:induction false} SparkFindsMore(chunks: seq<string>)
    requires forall c | c in chunks && SEMI in c :: Keep(c) == []
    ensures |Collect(SparkStatements, chunks)| >= |Collect(Keep, chunks)|
    ensures |Collect(SparkStatements, chunks)| == |Collect(Keep, chunks)| ==> forall c | c in chunks :: Harmless(c)
  {
    hide Keep, SparkStatements;
    if chunks == [] {
    } else {
      SparkFindsMore(chunks[1..]);
      if SEMI !in chunks[0] {
        SparkOfPlain(chunks[0]);
      }
    }
  }

  /** The two splitters return the same list exactly when every DeltaForge fragment is harmless. */
  lemma SplittersAgreeIff(s: string)
    ensures DfStatements(s) == SparkStatements(s) <==> forall c | c in DfChunks(s, 0) :: Harmless(c)
  {
    hide Keep;
    var chunks := DfChunks(s, 0);
    SparkByFragment(s, 0);
    if DfStatements(s) == SparkStatements(s) {
      SparkHasNoSemi(s, 0);
      forall c | c in chunks && SEMI in c
        ensures Keep(c) == []
      {
        KeptIsCollected(chunks, c);
        if Keep(c) != [] {
          KeptKeepsSemi(c);
        }
      }
      SparkFindsMore(chunks);
    }
    if forall c | c in chunks :: Harmless(c) {
      HarmlessAgree(chunks);
    }
  }

  lemma {:induction false} NoSemiInFragments(s: string, i: nat)
    requires i <= |s|
    requires forall p | 0 <= p < |s| && s[p] == SEMI :: Terminates(s, p)
    ensures forall c | c in DfChunks(s, i) :: SEMI !in c
    decreases |s| - i
  {
    hide SemiEnd;
    var p := FirstSemi(s, i);
    forall q | i <= q < (if p.Some? then p.value else |s|)
      ensures s[q] != SEMI
    {
      MatchIffTerminates(s, q);
    }
    if p.Some? {
      SemiEndRange(s, p.value);
      NoSemiInFragments(s, SemiEnd(s, p.value).value);
    }
  }

  /** In particular they agree on every script whose semicolons are all terminators. */
  lemma SplittersAgree(s: string)
    requires forall p | 0 <= p < |s| && s[p] == SEMI :: Terminates(s, p)
    ensures DfStatements(s) == SparkStatements(s)
  {
    NoSemiInFragments(s, 0);
    SplittersAgreeIff(s);
  }
}
