/** The two statement splitters and the code that prints scripts for them. */
module Splitters {
  import opened Text

  const SEMI: char := ';'

  // ----- which fragments are statements -----------------------------------------------------

  /** The first line break at or after `i`, or the length of the text. */
  function LineEnd(s: string, i: nat): (n: nat)
    requires i <= |s|
    ensures i <= n <= |s|
    decreases |s| - i
  {
    if i == |s| || IsLineBreak(s[i]) then i else LineEnd(s, i + 1)
  }

  /** `s.splitlines()` from `i` on; a carriage return and its line feed are one line break. */
  function SplitLines(s: string, i: nat): seq<string>
    requires i <= |s|
    decreases |s| - i
  {
    if i == |s| then []
    else
      var n := LineEnd(s, i);
      var next := if n == |s| then n else if s[n] == '\r' && n + 1 < |s| && s[n + 1] == '\n' then n + 2 else n + 1;
      [s[i..n]] + SplitLines(s, next)
  }

  predicate IsCodeLine(line: string) {
    Strip(line) != "" && !("--" <= Strip(line))
  }

  function CodeLines(lines: seq<string>): seq<string> {
    if lines == [] then []
    else (if IsCodeLine(lines[0]) then [lines[0]] else []) + CodeLines(lines[1..])
  }

  /** Some line of the fragment is neither blank nor a `--` comment. */
  predicate HasCode(s: string) {
    Strip(Join(CodeLines(SplitLines(s, 0)), "\n")) != ""
  }

  /** A fragment as a list: the statement it holds, if any. */
  function Keep(chunk: string): seq<string> {
    if HasCode(Strip(chunk)) then [Strip(chunk)] else []
  }

  function KeepAll(chunks: seq<string>): seq<string> {
    Collect(Keep, chunks)
  }

  // ----- the DeltaForge splitter ------------------------------------------------------------

  /** `(?:\n|$)` tried at `k`, then, as `\s*` gives characters back, at each place down to `lo`. */
  function GiveBack(s: string, lo: nat, k: nat): Option<nat>
    requires lo <= k <= |s|
  {
    if k < |s| && s[k] == '\n' then Some(k + 1)
    else if k == |s| then Some(k)
    else if k == lo then None
    else GiveBack(s, lo, k - 1)
  }

  /** The end of a match of `;\s*(?:\n|$)` at `p`, if there is one. */
  function SemiEnd(s: string, p: nat): (e: Option<nat>)
    requires p < |s|
  {
    if s[p] == SEMI then GiveBack(s, p + 1, SpaceEnd(s, p + 1)) else None
  }

  /** The first place at or after `i` where the pattern matches. */
  function FirstSemi(s: string, i: nat): (p: Option<nat>)
    requires i <= |s|
    ensures p.Some? ==> i <= p.value < |s| && SemiEnd(s, p.value).Some?
    ensures forall q | i <= q < (if p.Some? then p.value else |s|) :: SemiEnd(s, q).None?
    decreases |s| - i
  {
    if i == |s| then None
    else if SemiEnd(s, i).Some? then Some(i)
    else FirstSemi(s, i + 1)
  }

  lemma {:induction false} GiveBackRange(s: string, lo: nat, k: nat)
    requires lo <= k <= |s| && GiveBack(s, lo, k).Some?
    ensures lo <= GiveBack(s, lo, k).value <= |s|
    ensures GiveBack(s, lo, k).value <= k + 1
  {
    if !(k < |s| && s[k] == '\n') && k != |s| {
      GiveBackRange(s, lo, k - 1);
    }
  }

  lemma SemiEndRange(s: string, p: nat)
    requires p < |s| && SemiEnd(s, p).Some?
    ensures p < SemiEnd(s, p).value <= |s|
  {
    GiveBackRange(s, p + 1, SpaceEnd(s, p + 1));
  }

  /** The fragments between the terminators, from `i` on. */
  function DfChunks(s: string, i: nat): (chunks: seq<string>)
    requires i <= |s|
    decreases |s| - i
  {
    var p := FirstSemi(s, i);
    if p.None? then [s[i..]]
    else
      SemiEndRange(s, p.value);
      [s[i..p.value]] + DfChunks(s, SemiEnd(s, p.value).value)
  }

  function DfStatements(s: string): seq<string> {
    KeepAll(DfChunks(s, 0))
  }

  lemma KeepCons(chunk: string, chunks: seq<string>)
    ensures KeepAll([chunk] + chunks) == Keep(chunk) + KeepAll(chunks)
  {
    CollectCons(Keep, chunk, chunks);
  }

  lemma KeepOne(chunk: string)
    ensures KeepAll([chunk]) == Keep(chunk)
    ensures Keep(chunk) == if Strip(chunk) != "" && HasCode(Strip(chunk)) then [Strip(chunk)] else []
  {
    KeepCons(chunk, []);
    assert [chunk] + [] == [chunk];
    assert SplitLines("", 0) == [] && CodeLines([]) == [];
  }

  /** `_split_sql_statements` of the DeltaForge adapter. */
  method SplitDf(text: string) returns (out: seq<string>)
    ensures out == DfStatements(text)
  {
    hide Strip, HasCode, SemiEnd, KeepAll;
    out := [];
    var last := 0;
    var m := FirstSemi(text, 0);
    while m.Some?
      invariant 0 <= last <= |text|
      invariant m == FirstSemi(text, last)
      invariant DfStatements(text) == out + KeepAll(DfChunks(text, last))
      decreases |text| - last
    {
      SemiEndRange(text, m.value);
      var piece := text[last..m.value];
      last := SemiEnd(text, m.value).value;
      KeepCons(piece, DfChunks(text, last));
      KeepOne(piece);
      m := FirstSemi(text, last);
      var chunk := Strip(piece);
      if chunk != "" && HasCode(chunk) {
        out := out + [chunk];
      }
    }
    KeepOne(text[last..]);
    var tail := Strip(text[last..]);
    if tail != "" && HasCode(tail) {
      out := out + [tail];
    }
  }

  // ----- the Spark splitter -----------------------------------------------------------------

  /** The first `;` at or after `i`, or the length of the text. */
  function SemiAt(s: string, i: nat): (p: nat)
    requires i <= |s|
    ensures i <= p <= |s|
    ensures p < |s| ==> s[p] == SEMI
    decreases |s| - i
  {
    if i == |s| || s[i] == SEMI then i else SemiAt(s, i + 1)
  }

  function SparkChunks(s: string, i: nat): seq<string>
    requires i <= |s|
    decreases |s| - i
  {
    var p := SemiAt(s, i);
    if p == |s| then [s[i..]] else [s[i..p]] + SparkChunks(s, p + 1)
  }

  function SparkStatements(s: string): seq<string> {
    KeepAll(SparkChunks(s, 0))
  }

  /** `_split_sql_statements` of the Spark adapter. */
  method SplitSpark(text: string) returns (out: seq<string>)
    ensures out == SparkStatements(text)
  {
    hide Strip, HasCode, KeepAll;
    out := [];
    var last := 0;
    var p := SemiAt(text, 0);
    while p < |text|
      invariant 0 <= last <= |text|
      invariant p == SemiAt(text, last)
      invariant SparkStatements(text) == out + KeepAll(SparkChunks(text, last))
      decreases |text| - last
    {
      var piece := text[last..p];
      last := p + 1;
      KeepCons(piece, SparkChunks(text, last));
      KeepOne(piece);
      p := SemiAt(text, last);
      var chunk := Strip(piece);
      if chunk != "" && HasCode(chunk) {
        out := out + [chunk];
      }
    }
    KeepOne(text[last..]);
    var tail := Strip(text[last..]);
    if tail != "" && HasCode(tail) {
      out := out + [tail];
    }
  }
}
