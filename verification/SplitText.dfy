/** What the splitters do, said of the text: when a fragment holds no statement, when the two agree, and
    when a string literal is cut. */
module SplitText {
  import opened Text
  import opened Splitters
  import opened SplitLaws

  // ----- where code starts ------------------------------------------------------------------

  /** Only white space stands between the start of its line and `k`. */
  predicate LeadsLine(s: string, k: nat)
    requires k <= |s|
  {
    k == 0 || IsLineBreak(s[k - 1]) || (IsSpace(s[k - 1]) && LeadsLine(s, k - 1))
  }

  /** Only white space stands between `k` and the last `;`, or the start of its line. */
  predicate LeadsPart(s: string, k: nat)
    requires k <= |s|
  {
    k == 0 || IsLineBreak(s[k - 1]) || s[k - 1] == SEMI || (IsSpace(s[k - 1]) && LeadsPart(s, k - 1))
  }

  /** A comment starts at `k`. */
  predicate Dashes(s: string, k: nat)
    requires k < |s|
  {
    s[k] == '-' && k + 1 < |s| && s[k + 1] == '-'
  }

  /** A line's first visible character, which starts no comment. */
  predicate CodeAt(s: string, k: nat)
    requires k < |s|
  {
    !IsSpace(s[k]) && LeadsLine(s, k) && !Dashes(s, k)
  }

  /** The same for the parts of lines between semicolons. */
  predicate PartAt(s: string, k: nat)
    requires k < |s|
  {
    !IsSpace(s[k]) && s[k] != SEMI && LeadsPart(s, k) && !Dashes(s, k)
  }

  lemma BreakIsSpace(c: char)
    requires IsLineBreak(c)
    ensures IsSpace(c)
  {
  }

  lemma {:induction false} LeadsOverSpace(s: string, i: nat, k: nat)
    requires i <= k <= |s| && LeadsLine(s, i) && forall j | i <= j < k :: IsSpace(s[j])
    ensures LeadsLine(s, k)
    decreases k - i
  {
    if i == k {
    } else {
      LeadsOverSpace(s, i, k - 1);
    }
  }

  lemma {:induction false} LeadsFromStart(s: string, i: nat, k: nat)
    requires i <= k <= |s| && LeadsLine(s, k) && forall j | i <= j < k :: !IsLineBreak(s[j])
    ensures forall j | i <= j < k :: IsSpace(s[j])
    decreases k - i
  {
    if i == k {
    } else {
      LeadsFromStart(s, i, k - 1);
    }
  }

  lemma {:induction false} NoBreakBefore(s: string, i: nat)
    requires i <= |s|
    ensures forall j | i <= j < LineEnd(s, i) :: !IsLineBreak(s[j])
    ensures LineEnd(s, i) < |s| ==> IsLineBreak(s[LineEnd(s, i)])
    decreases |s| - i
  {
    if i < |s| && !IsLineBreak(s[i]) {
      NoBreakBefore(s, i + 1);
    }
  }

  lemma StripIsEmptyIff(s: string)
    ensures Strip(s) == "" <==> Blank(s)
  {
    var lo, hi := StripIs(s);
    if lo < hi {
      assert s[lo] == s[lo..hi][0];
    }
  }

  /** Code starts between the two places. */
  predicate CodeIn(s: string, lo: nat, hi: nat)
    requires lo <= hi <= |s|
  {
    exists k | lo <= k < hi :: CodeAt(s, k)
  }

  /** A line is code by its first visible character. */
  lemma CodeLineIs(line: string, k: nat)
    requires k < |line| && !IsSpace(line[k]) && forall j | 0 <= j < k :: IsSpace(line[j])
    ensures IsCodeLine(line) <==> !Dashes(line, k)
  {
    var lo, hi := StripIs(line);
    assert lo == k;
    assert hi > k;
    assert Dashes(line, k) ==> hi > k + 1;
  }

  lemma FirstVisible(s: string, i: nat, n: nat) returns (k: nat)
    requires i <= n <= |s| && exists j :: i <= j < n && !IsSpace(s[j])
    ensures i <= k < n && !IsSpace(s[k]) && forall j | i <= j < k :: IsSpace(s[j])
  {
    k := SpaceEnd(s, i);
    SpaceEndIs(s, i);
  }

  /** A line is code exactly when code starts in it. */
  lemma LineHasCode(s: string, i: nat)
    requires i <= |s| && LeadsLine(s, i)
    ensures IsCodeLine(s[i..LineEnd(s, i)]) <==> CodeIn(s, i, LineEnd(s, i))
  {
    hide IsCodeLine, IsSpace;
    var n := LineEnd(s, i);
    var line := s[i..n];
    NoBreakBefore(s, i);
    assert forall j | 0 <= j < |line| :: line[j] == s[i + j];
    assert forall j | i <= j < n :: s[j] == line[j - i];
    if exists j :: i <= j < n && !IsSpace(s[j]) {
      var k := FirstVisible(s, i, n);
      LeadsOverSpace(s, i, k);
      CodeLineIs(line, k - i);
      if n < |s| {
        BreakIsSpace(s[n]);
      }
      DashesInLine(s, i, n, k);
      assert IsCodeLine(line) <==> CodeAt(s, k);
      forall j | i <= j < n && CodeAt(s, j) ensures j == k {
        LeadsFromStart(s, i, j);
      }
    } else {
      BlankLine(line);
    }
  }

  lemma DashesInLine(s: string, i: nat, n: nat, k: nat)
    requires i <= k < n <= |s| && (n < |s| ==> IsSpace(s[n]) || s[n] == SEMI)
    ensures Dashes(s[i..n], k - i) <==> Dashes(s, k)
  {
    assert k + 1 < n ==> s[i..n][k - i + 1] == s[k + 1];
  }

  lemma BlankLine(line: string)
    requires Blank(line)
    ensures !IsCodeLine(line)
  {
    StripIsEmptyIff(line);
  }

  lemma NoCodeInSpace(s: string, lo: nat, mid: nat, hi: nat)
    requires lo <= mid <= hi <= |s| && forall j | mid <= j < hi :: IsSpace(s[j])
    ensures CodeIn(s, lo, hi) <==> CodeIn(s, lo, mid)
  {
  }

  lemma CodeInEither(s: string, lo: nat, mid: nat, hi: nat)
    requires lo <= mid <= hi <= |s|
    ensures CodeIn(s, lo, hi) <==> CodeIn(s, lo, mid) || CodeIn(s, mid, hi)
  {
    hide CodeAt;
  }

  predicate AnyCode(lines: seq<string>) {
    exists line | line in lines :: IsCodeLine(line)
  }

  lemma AnyCodeCons(line: string, lines: seq<string>)
    ensures AnyCode([line] + lines) <==> IsCodeLine(line) || AnyCode(lines)
  {
    hide IsCodeLine;
    assert line in [line] + lines;
  }

  lemma {:induction false} LinesHaveCode(s: string, i: nat)
    requires i <= |s| && (i == 0 || IsLineBreak(s[i - 1]))
    ensures AnyCode(SplitLines(s, i)) <==> CodeIn(s, i, |s|)
    decreases |s| - i
  {
    hide IsCodeLine, IsSpace, IsLineBreak, CodeIn, AnyCode;
    if i == |s| {
      NoCodeAtEnd(s);
    } else {
      var n := LineEnd(s, i);
      var next := if n == |s| then n else if s[n] == '\r' && n + 1 < |s| && s[n + 1] == '\n' then n + 2 else n + 1;
      NoBreakBefore(s, i);
      BreaksAreSpace(s, n, next);
      LineHasCode(s, i);
      NoCodeInSpace(s, i, n, next);
      CodeInEither(s, i, next, |s|);
      AnyCodeCons(s[i..n], SplitLines(s, next));
      if n < |s| {
        LinesHaveCode(s, next);
      } else {
        NoCodeAtEnd(s);
      }
    }
  }

  lemma NoCodeAtEnd(s: string)
    ensures !CodeIn(s, |s|, |s|) && !AnyCode(SplitLines(s, |s|))
  {
  }

  lemma BreaksAreSpace(s: string, n: nat, next: nat)
    requires n <= next <= |s| && (n < |s| ==> IsLineBreak(s[n]) && n < next)
    requires next == n + 2 ==> s[n + 1] == '\n'
    requires next <= n + 2
    ensures forall j | n <= j < next :: IsSpace(s[j])
    ensures next > n ==> IsLineBreak(s[next - 1])
  {
  }

  lemma {:induction false} CodeLinesAre(lines: seq<string>)
    ensures CodeLines(lines) != [] <==> AnyCode(lines)
    ensures forall line | line in CodeLines(lines) :: IsCodeLine(line)
  {
    hide IsCodeLine;
    if lines == [] {
    } else {
      CodeLinesAre(lines[1..]);
      assert lines == [lines[0]] + lines[1..];
    }
  }

  lemma CodeLineShows(line: string)
    requires IsCodeLine(line)
    ensures !Blank(line)
  {
    StripIsEmptyIff(line);
  }

  /** A text holds code exactly when code starts somewhere in it. */
  lemma HasCodeIff(s: string)
    ensures HasCode(s) <==> exists k :: 0 <= k < |s| && CodeAt(s, k)
  {
    hide Strip, CodeAt;
    var code := CodeLines(SplitLines(s, 0));
    var text := Join(code, "\n");
    CodeLinesAre(SplitLines(s, 0));
    LinesHaveCode(s, 0);
    StripIsEmptyIff(text);
    if code != [] {
      assert IsCodeLine(code[0]);
      CodeLineShows(code[0]);
      assert code[0] <= text;
    }
  }

  // ----- when a fragment holds no statement -------------------------------------------------

  lemma {:induction false} LeadsAllSpace(s: string, k: nat)
    requires k <= |s| && forall j | 0 <= j < k :: IsSpace(s[j])
    ensures LeadsLine(s, k)
  {
    if k == 0 {
    } else {
      LeadsAllSpace(s, k - 1);
    }
  }

  lemma {:induction false} LeadsInPart(s: string, lo: nat, hi: nat, k: nat)
    requires lo <= hi <= |s| && k <= hi - lo && forall j | 0 <= j < lo :: IsSpace(s[j])
    ensures LeadsLine(s[lo..hi], k) <==> LeadsLine(s, lo + k)
  {
    if k == 0 {
      LeadsAllSpace(s, lo);
    } else {
      LeadsInPart(s, lo, hi, k - 1);
      assert s[lo..hi][k - 1] == s[lo + k - 1];
    }
  }

  /** Trimming takes no code away. */
  lemma TrimKeepsCode(s: string)
    ensures HasCode(Strip(s)) <==> HasCode(s)
  {
    hide HasCode, IsSpace, Strip;
    var lo, hi := StripIs(s);
    var x := s[lo..hi];
    HasCodeIff(s);
    HasCodeIff(x);
    forall k | lo <= k < hi
      ensures CodeAt(x, k - lo) <==> CodeAt(s, k)
    {
      LeadsInPart(s, lo, hi, k - lo);
      DashesInTrim(s, lo, hi, k);
    }
    if j :| 0 <= j < |x| && CodeAt(x, j) {
      assert CodeAt(s, lo + j);
    }
  }

  lemma DashesInTrim(s: string, lo: nat, hi: nat, k: nat)
    requires lo <= k < hi <= |s| && forall j | hi <= j < |s| :: IsSpace(s[j])
    ensures Dashes(s[lo..hi], k - lo) <==> Dashes(s, k)
  {
    DashesInLine(s, lo, hi, k);
  }

  /** The DeltaForge splitter drops a fragment exactly when its lines are blank or comments. */
  lemma DroppedIff(chunk: string)
    ensures Keep(chunk) == [] <==> forall k | 0 <= k < |chunk| :: !CodeAt(chunk, k)
  {
    hide HasCode, CodeAt, Strip;
    TrimKeepsCode(chunk);
    HasCodeIff(chunk);
  }

  lemma {:induction false} LeadsInPiece(s: string, i: nat, p: nat, k: nat)
    requires i <= p <= |s| && k <= p - i && (i == 0 || s[i - 1] == SEMI)
    requires forall j | i <= j < p :: s[j] != SEMI
    ensures LeadsLine(s[i..p], k) <==> LeadsPart(s, i + k)
  {
    if k == 0 {
    } else {
      LeadsInPiece(s, i, p, k - 1);
      assert s[i..p][k - 1] == s[i + k - 1];
    }
  }

  lemma PieceHasCode(s: string, i: nat, p: nat, k: nat)
    requires i <= k < p <= |s| && (i == 0 || s[i - 1] == SEMI) && (p < |s| ==> s[p] == SEMI)
    requires forall j | i <= j < p :: s[j] != SEMI
    ensures CodeAt(s[i..p], k - i) <==> PartAt(s, k)
  {
    LeadsInPiece(s, i, p, k - i);
    DashesInLine(s, i, p, k);
  }

  /** The Spark splitter drops a text exactly when each line's parts between semicolons are blank or
      start like comments. */
  lemma {:induction false} SparkDropsIff(s: string, i: nat)
    requires i <= |s| && (i == 0 || s[i - 1] == SEMI)
    ensures KeepAll(SparkChunks(s, i)) == [] <==> forall k | i <= k < |s| :: !PartAt(s, k)
    decreases |s| - i
  {
    hide Keep, KeepAll, CodeAt, PartAt;
    var p := SemiAt(s, i);
    forall k | i <= k < p ensures s[k] != SEMI {
      if s[k] == SEMI {
        SemiAtIsFirst(s, i, k);
      }
    }
    var piece := s[i..p];
    DroppedIff(piece);
    forall k | i <= k < p
      ensures CodeAt(piece, k - i) <==> PartAt(s, k)
    {
      PieceHasCode(s, i, p, k);
    }
    assert (forall k | 0 <= k < |piece| :: !CodeAt(piece, k)) <==> forall k | i <= k < p :: !PartAt(s, k) by {
      if forall k | i <= k < p :: !PartAt(s, k) {
        forall k | 0 <= k < |piece| ensures !CodeAt(piece, k) {
          assert !PartAt(s, i + k);
        }
      }
    }
    if p == |s| {
      assert s[i..] == piece;
      KeepOne(piece);
    } else {
      SparkDropsIff(s, p + 1);
      KeepCons(piece, SparkChunks(s, p + 1));
      SemiIsNoPart(s, p);
    }
  }

  lemma SemiIsNoPart(s: string, p: nat)
    requires p < |s| && s[p] == SEMI
    ensures !PartAt(s, p)
  {
  }

  /** Every line of the fragment is blank or a comment, and so is what follows a semicolon in it up to
      the next semicolon or the end of the line. */
  predicate Quiet(s: string) {
    && (forall k | 0 <= k < |s| :: !CodeAt(s, k))
    && (forall k | 0 <= k < |s| :: !PartAt(s, k))
  }

  lemma HarmlessIff(chunk: string)
    ensures Harmless(chunk) <==> (SEMI in chunk ==> Quiet(chunk))
  {
    hide Keep, CodeAt, PartAt;
    DroppedIff(chunk);
    SparkDropsIff(chunk, 0);
  }

  lemma {:induction false} PartLeadsInPart(s: string, lo: nat, k: nat)
    requires lo <= |s| && k <= |s| - lo && forall j | 0 <= j < lo :: IsSpace(s[j])
    ensures LeadsPart(s[lo..], k) <==> LeadsPart(s, lo + k)
  {
    if k == 0 {
      LeadsPartAllSpace(s, lo);
    } else {
      PartLeadsInPart(s, lo, k - 1);
      assert s[lo..][k - 1] == s[lo + k - 1];
    }
  }

  lemma {:induction false} LeadsPartAllSpace(s: string, k: nat)
    requires k <= |s| && forall j | 0 <= j < k :: IsSpace(s[j])
    ensures LeadsPart(s, k)
  {
    if k == 0 {
    } else {
      LeadsPartAllSpace(s, k - 1);
    }
  }

  /** What the splitters agree on: a text without semicolons, or one that is quiet. */
  predicate Fits(x: string) {
    SEMI in x ==> Quiet(x)
  }

  lemma CodeBehindSpace(x: string, lo: nat, k: nat)
    requires lo <= k < |x| && forall j | 0 <= j < lo :: IsSpace(x[j])
    ensures CodeAt(x[lo..], k - lo) <==> CodeAt(x, k)
    ensures PartAt(x[lo..], k - lo) <==> PartAt(x, k)
  {
    assert x[lo..] == x[lo..|x|];
    LeadsInPart(x, lo, |x|, k - lo);
    PartLeadsInPart(x, lo, k - lo);
    DashesInLine(x, lo, |x|, k);
  }

  lemma SpaceIsNoCode(x: string, k: nat)
    requires k < |x| && IsSpace(x[k])
    ensures !CodeAt(x, k) && !PartAt(x, k) && x[k] != SEMI
  {
  }

  /** White space in front does not matter. */
  lemma FitsBehindSpace(x: string, lo: nat)
    requires lo <= |x| && forall j | 0 <= j < lo :: IsSpace(x[j])
    ensures Fits(x[lo..]) <==> Fits(x)
  {
    hide CodeAt, PartAt, IsSpace;
    var r := x[lo..];
    forall k | 0 <= k < lo ensures !CodeAt(x, k) && !PartAt(x, k) && x[k] != SEMI {
      SpaceIsNoCode(x, k);
    }
    forall k | lo <= k < |x|
      ensures (CodeAt(r, k - lo) <==> CodeAt(x, k)) && (PartAt(r, k - lo) <==> PartAt(x, k))
    {
      CodeBehindSpace(x, lo, k);
    }
    forall k | 0 <= k < |r|
      ensures (CodeAt(r, k) <==> CodeAt(x, lo + k)) && (PartAt(r, k) <==> PartAt(x, lo + k)) && r[k] == x[lo + k]
    {
      assert k == (lo + k) - lo;
    }
    assert forall k | lo <= k < |x| :: x[k] == r[k - lo];
  }

  /** The text between one terminator and the next, or an end of the text. */
  ghost predicate IsStretch(s: string, lo: nat, hi: nat)
    requires lo <= hi <= |s|
  {
    && (lo == 0 || Terminates(s, lo - 1))
    && (hi == |s| || Terminates(s, hi))
    && forall p | lo <= p < hi :: !Terminates(s, p)
  }

  ghost predicate StretchesFit(s: string, from: nat) {
    forall a, b | from <= a <= b <= |s| && IsStretch(s, a, b) :: Fits(s[a..b])
  }

  ghost predicate ChunksFit(chunks: seq<string>) {
    forall c | c in chunks :: Fits(c)
  }

  lemma ChunksFitCons(chunk: string, chunks: seq<string>)
    ensures ChunksFit([chunk] + chunks) <==> Fits(chunk) && ChunksFit(chunks)
  {
    hide Fits;
    assert chunk in [chunk] + chunks;
  }

  lemma StretchEnds(s: string, a: nat, b: nat)
    requires a <= b <= |s| && IsStretch(s, a, b)
    ensures a > 0 ==> Terminates(s, a - 1)
    ensures b < |s| ==> Terminates(s, b)
  {
  }

  /** The stretches from `lo` on are the one up to the first terminator, and those behind it. */
  lemma FirstStretch(s: string, lo: nat, p: nat)
    requires lo <= p < |s| && (lo == 0 || Terminates(s, lo - 1)) && Terminates(s, p)
    requires forall q | lo <= q < p :: !Terminates(s, q)
    ensures StretchesFit(s, lo) <==> Fits(s[lo..p]) && StretchesFit(s, p + 1)
  {
    hide Terminates, Fits;
    assert IsStretch(s, lo, p);
    forall a, b | lo <= a <= b <= |s| && IsStretch(s, a, b)
      ensures (a == lo && b == p) || a >= p + 1
    {
      StretchEnds(s, a, b);
    }
  }

  lemma LastStretch(s: string, lo: nat)
    requires lo <= |s| && (lo == 0 || Terminates(s, lo - 1))
    requires forall q | lo <= q < |s| :: !Terminates(s, q)
    ensures StretchesFit(s, lo) <==> Fits(s[lo..])
  {
    hide Terminates, Fits;
    assert IsStretch(s, lo, |s|);
    assert s[lo..|s|] == s[lo..];
    forall a, b | lo <= a <= b <= |s| && IsStretch(s, a, b)
      ensures a == lo && b == |s|
    {
      StretchEnds(s, a, b);
    }
  }

  lemma SpaceIsNoEnd(s: string, k: nat)
    requires k < |s| && IsSpace(s[k])
    ensures !Terminates(s, k)
  {
  }

  lemma FirstIsFirst(s: string, i: nat, q: nat)
    requires i <= q < |s| && (FirstSemi(s, i).Some? ==> q < FirstSemi(s, i).value)
    ensures SemiEnd(s, q).None?
  {
  }

  lemma FirstIsMatch(s: string, i: nat)
    requires i <= |s| && FirstSemi(s, i).Some?
    ensures i <= FirstSemi(s, i).value < |s| && SemiEnd(s, FirstSemi(s, i).value).Some?
  {
  }

  /** Before the next match nothing terminates. */
  lemma NoEndUpTo(s: string, lo: nat, i: nat)
    requires lo <= i <= |s| && forall k | lo <= k < i :: IsSpace(s[k])
    ensures var m := FirstSemi(s, i);
            && (m.Some? ==> i <= m.value < |s| && SemiEnd(s, m.value).Some? && Terminates(s, m.value))
            && forall q | lo <= q < (if m.Some? then m.value else |s|) :: !Terminates(s, q)
  {
    hide Terminates, SemiEnd, IsSpace;
    var m := FirstSemi(s, i);
    if m.Some? {
      FirstIsMatch(s, i);
      MatchIffTerminates(s, m.value);
    }
    forall q | lo <= q < (if m.Some? then m.value else |s|)
      ensures !Terminates(s, q)
    {
      if q < i {
        SpaceIsNoEnd(s, q);
      } else {
        FirstIsFirst(s, i, q);
        MatchIffTerminates(s, q);
      }
    }
  }

  /** The splitter's fragments are the stretches, up to white space in front. */
  lemma {:induction false} FragmentsAreStretches(s: string, lo: nat, i: nat)
    requires lo <= i <= |s| && (lo == 0 || Terminates(s, lo - 1)) && forall k | lo <= k < i :: IsSpace(s[k])
    ensures ChunksFit(DfChunks(s, i)) <==> StretchesFit(s, lo)
    decreases |s| - i
  {
    hide SemiEnd, FirstSemi, Terminates, ChunksFit, StretchesFit, Fits, IsSpace;
    NoEndUpTo(s, lo, i);
    var m := FirstSemi(s, i);
    if m.None? {
      FitsFrom(s, lo, i, |s|);
      LastStretch(s, lo);
      ChunksFitCons(s[i..], []);
      NoChunkFits();
      assert s[i..] == s[i..|s|] && s[lo..] == s[lo..|s|] && [s[i..]] + [] == [s[i..]];
    } else {
      var p := m.value;
      SemiEndIsSpace(s, p);
      var next := SemiEnd(s, p).value;
      FragmentsAreStretches(s, p + 1, next);
      FirstStretch(s, lo, p);
      FitsFrom(s, lo, i, p);
      ChunksFitCons(s[i..p], DfChunks(s, next));
    }
  }

  lemma NoChunkFits()
    ensures ChunksFit([])
  {
  }

  lemma FitsFrom(s: string, lo: nat, i: nat, hi: nat)
    requires lo <= i <= hi <= |s| && forall k | lo <= k < i :: IsSpace(s[k])
    ensures Fits(s[i..hi]) <==> Fits(s[lo..hi])
  {
    hide Fits, IsSpace;
    var x := s[lo..hi];
    assert forall k | 0 <= k < i - lo :: x[k] == s[lo + k];
    assert x[i - lo..] == s[i..hi];
    FitsBehindSpace(x, i - lo);
  }

  /** The two splitters return the same list exactly when every stretch of text between terminators
      that has a semicolon inside is made of blanks and comments, with nothing else behind the
      semicolons either. */
  lemma SplittersAgreeOnText(s: string)
    ensures DfStatements(s) == SparkStatements(s) <==>
            forall a, b | 0 <= a <= b <= |s| && IsStretch(s, a, b) :: Fits(s[a..b])
  {
    hide Harmless, Quiet, DfStatements, SparkStatements, DfChunks, IsStretch;
    SplittersAgreeIff(s);
    forall c
      ensures Harmless(c) <==> Fits(c)
    {
      HarmlessIff(c);
    }
    FragmentsAreStretches(s, 0, 0);
    hide Fits;
  }

  // ----- string literals --------------------------------------------------------------------

  /** Single quotes among the first `n` characters. */
  function Quotes(s: string, n: nat): nat
    requires n <= |s|
  {
    if n == 0 then 0 else Quotes(s, n - 1) + (if s[n - 1] == '\'' then 1 else 0)
  }

  /** Behind an odd number of quotes: inside a string literal. */
  predicate InLiteral(s: string, p: nat)
    requires p <= |s|
  {
    Quotes(s, p) % 2 == 1
  }

  /** The text ends inside a literal that began in it, or began inside one. */
  predicate IsCut(fragment: string) {
    InLiteral(fragment, |fragment|)
  }

  lemma {:induction false} QuotesInPart(s: string, lo: nat, hi: nat, k: nat)
    requires lo <= hi <= |s| && k <= hi - lo
    ensures Quotes(s, lo + k) == Quotes(s, lo) + Quotes(s[lo..hi], k)
  {
    if k == 0 {
    } else {
      QuotesInPart(s, lo, hi, k - 1);
      assert s[lo..hi][k - 1] == s[lo + k - 1];
    }
  }

  lemma {:induction false} QuotesOverSpace(s: string, lo: nat, hi: nat)
    requires lo <= hi <= |s| && forall k | lo <= k < hi :: s[k] != '\''
    ensures Quotes(s, hi) == Quotes(s, lo)
    decreases hi - lo
  {
    if lo == hi {
    } else {
      QuotesOverSpace(s, lo, hi - 1);
    }
  }

  lemma ChunksNotEmpty(s: string, i: nat)
    requires i <= |s|
    ensures DfChunks(s, i) != []
  {
  }

  ghost predicate WholeBut(chunks: seq<string>) {
    forall k | 0 <= k < |chunks| - 1 :: !IsCut(chunks[k])
  }

  lemma WholeCons(chunk: string, chunks: seq<string>)
    requires chunks != []
    ensures WholeBut([chunk] + chunks) <==> !IsCut(chunk) && WholeBut(chunks)
  {
    var all := [chunk] + chunks;
    hide IsCut;
    if WholeBut(all) {
      assert !IsCut(all[0]);
      forall k | 0 <= k < |chunks| - 1 ensures !IsCut(chunks[k]) {
        assert !IsCut(all[k + 1]);
      }
    }
  }

  lemma MatchHoldsNoQuote(s: string, p: nat)
    requires p < |s| && SemiEnd(s, p).Some?
    ensures p < SemiEnd(s, p).value <= |s|
    ensures forall k | p <= k < SemiEnd(s, p).value :: s[k] != '\''
    ensures forall k | p < k < SemiEnd(s, p).value :: !Terminates(s, k)
  {
    SemiEndIsSpace(s, p);
  }

  lemma {:induction false} LiteralsFrom(s: string, i: nat)
    requires i <= |s| && !InLiteral(s, i)
    ensures WholeBut(DfChunks(s, i)) <==> forall p | i <= p < |s| && Terminates(s, p) :: !InLiteral(s, p)
    decreases |s| - i
  {
    hide SemiEnd, FirstSemi, Terminates, WholeBut, InLiteral, IsCut;
    NoEndUpTo(s, i, i);
    var m := FirstSemi(s, i);
    if m.None? {
      OneChunk(s[i..]);
    } else {
      var p := m.value;
      MatchHoldsNoQuote(s, p);
      var next := SemiEnd(s, p).value;
      CutAtEnd(s, i, p, next);
      ChunksNotEmpty(s, next);
      WholeCons(s[i..p], DfChunks(s, next));
      if !InLiteral(s, p) {
        LiteralsFrom(s, next);
      }
    }
  }

  lemma CutAtEnd(s: string, i: nat, p: nat, next: nat)
    requires i <= p <= next <= |s| && !InLiteral(s, i) && forall k | p <= k < next :: s[k] != '\''
    ensures IsCut(s[i..p]) <==> InLiteral(s, p)
    ensures InLiteral(s, next) <==> InLiteral(s, p)
  {
    QuotesInPart(s, i, p, p - i);
    QuotesOverSpace(s, p, next);
  }

  lemma OneChunk(chunk: string)
    ensures WholeBut([chunk])
  {
  }

  /** No fragment is cut out of a string literal exactly when no semicolon inside a literal terminates. */
  lemma LiteralsAreWholeIff(s: string)
    ensures WholeBut(DfChunks(s, 0)) <==> forall p | 0 <= p < |s| && Terminates(s, p) :: !InLiteral(s, p)
  {
    LiteralsFrom(s, 0);
  }

  // ----- examples ---------------------------------------------------------------------------

  /** A literal that holds a terminator is cut in two. */
  lemma CutLiteralExample()
    ensures DfStatements("SELECT 'a;\nb'") == ["SELECT 'a", "b'"]
  {
    hide DfStatements, HasCode;
    var a: string, b: string := "SELECT 'a", "b'";
    PlainIsStatement(a);
    PlainIsStatement(b);
    SplitFront(a, b);
    SplitLast(b);
    assert a + ";\n" + b == "SELECT 'a;\nb'";
  }

  lemma NoLineFeedUnbroken(x: string)
    requires '\n' !in x
    ensures Unbroken(x)
  {
  }

  lemma SparkPieces(a: string, b: string)
    requires SEMI !in a && SEMI !in b && IsStatement(a) && IsStatement(b)
    ensures SparkStatements(a + ";" + b) == [a, b]
  {
    hide HasCode, Keep, KeepAll;
    var x, n := a + ";" + b, |a|;
    assert x[0..n] == a && x[n + 1..] == b && x[n] == SEMI;
    SparkCut(x, 0, n);
    SparkWhole(a);
    SparkChunksShift(a + ";", b, 0);
    SparkWhole(b);
    hide SparkChunks;
    StatementIsKept(a);
    StatementIsKept(b);
    KeepCons(a, [b]);
    KeepOne(b);
  }

  /** A literal with a semicolon is one statement for one splitter and two for the other. */
  lemma SplittersDifferExample()
    ensures DfStatements("SELECT ';'") == ["SELECT ';'"]
    ensures SparkStatements("SELECT ';'") == ["SELECT '", "'"]
  {
    hide DfStatements, SparkStatements, HasCode, Keep;
    var x: string := "SELECT ';'";
    NoLineFeedUnbroken(x);
    StartsWithCode(x);
    SplitLast(x);
    PlainIsStatement("SELECT '");
    PlainIsStatement("'");
    SparkPieces("SELECT '", "'");
    assert "SELECT '" + ";" + "'" == x;
  }

  /** A semicolon at the end of a one-line text is taken off. */
  lemma SemiIsTaken(x: string)
    requires Trimmed(x) && x[0] != '-' && '\n' !in x
    ensures DfStatements(x + ";") == [x]
  {
    hide DfStatements, HasCode, Keep;
    var s := x + ";";
    NoLineFeedUnbroken(s);
    StartsWithCode(s);
    SplitLast(s);
    assert s[..|s| - 1] == x;
    NoLineFeedUnbroken(x);
    StartsWithCode(x);
    StatementIsKept(x);
  }

  /** A script whose last statement ends in a semicolon: the text sent for it keeps the semicolon, so
      that splitting that text once more does not give the statement back. */
  lemma LostSemicolonExample()
    ensures DfStatements("SELECT 1;;") == ["SELECT 1;"]
    ensures StatsSql(["SELECT 1;"]) == Some("SHOW STATS ACTUAL SELECT 1;")
    ensures DfStatements("SHOW STATS ACTUAL SELECT 1;") == ["SHOW STATS ACTUAL SELECT 1"]
  {
    hide DfStatements;
    SemiIsTaken("SELECT 1;");
    assert "SELECT 1;" + ";" == "SELECT 1;;";
    SemiIsTaken("SHOW STATS ACTUAL SELECT 1");
    assert "SHOW STATS ACTUAL SELECT 1" + ";" == "SHOW STATS ACTUAL SELECT 1;";
    assert STATS + "SELECT 1;" == "SHOW STATS ACTUAL SELECT 1;";
  }
}
