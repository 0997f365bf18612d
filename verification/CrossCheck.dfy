/** The cross-engine check of the report: which steps are at issue, and what their messages say. */
module CrossCheck {
  import opened Text
  import opened Sorting
  import opened RunLoop
  import opened Cells
  import opened ResultHash

  /** Two engines returned different hashes for a step. */
  predicate Disagree(cells: map<Key, CellStats>, workload: string, step: string) {
    exists a, b | a in cells && b in cells ::
      && a.workload == workload && a.step == step && b.workload == workload && b.step == step
      && HasSha(cells[a].sha) && HasSha(cells[b].sha) && cells[a].sha != cells[b].sha
  }

  /** The hashes collected for each (workload, step), by engine. */
  type ByStep = map<(string, string), map<string, string>>

  function HashFor(byStep: ByStep, key: Key): Option<string> {
    var ws := (key.workload, key.step);
    if ws in byStep && key.engine in byStep[ws] then Some(byStep[ws][key.engine]) else None
  }

  ghost predicate Collected(cells: map<Key, CellStats>, done: set<Key>, byStep: ByStep)
    requires done <= cells.Keys
  {
    && (forall ws | ws in byStep :: byStep[ws] != map[])
    && (forall key :: HashFor(byStep, key) == if key in done && HasSha(cells[key].sha) then cells[key].sha else None)
  }

  function WithHash(byStep: ByStep, key: Key, sha: string): ByStep {
    var ws := (key.workload, key.step);
    byStep[ws := (if ws in byStep then byStep[ws] else map[])[key.engine := sha]]
  }

  lemma CollectStep(cells: map<Key, CellStats>, done: set<Key>, byStep: ByStep, key: Key)
    requires done <= cells.Keys && key in cells && key !in done && Collected(cells, done, byStep)
    ensures Collected(cells, done + {key},
                      if HasSha(cells[key].sha) then WithHash(byStep, key, cells[key].sha.value) else byStep)
  {
    if HasSha(cells[key].sha) {
      var after := WithHash(byStep, key, cells[key].sha.value);
      forall k
        ensures HashFor(after, k) == if k == key then cells[key].sha else HashFor(byStep, k)
      {
      }
    }
  }

  lemma CollectedIs(cells: map<Key, CellStats>, byStep: ByStep, key: Key)
    requires Collected(cells, cells.Keys, byStep)
    ensures HashFor(byStep, key) == if key in cells && HasSha(cells[key].sha) then cells[key].sha else None
  {
  }

  lemma NothingCollected(cells: map<Key, CellStats>)
    ensures Collected(cells, {}, map[])
  {
  }

  lemma TwoValues<T>(values: set<T>, x: T, y: T)
    requires x in values && y in values && x != y
    ensures |values| > 1
  {
    assert {x, y} <= values;
    assert |values| == |values - {x, y}| + |{x, y}|;
  }

  lemma OneValue<T>(values: set<T>, x: T)
    requires x in values && forall y | y in values :: y == x
    ensures |values| == 1
  {
    assert values == {x};
  }

  lemma IssueIffDisagree(cells: map<Key, CellStats>, byStep: ByStep, w: string, s: string)
    requires Collected(cells, cells.Keys, byStep)
    ensures (w, s) in byStep && |byStep[(w, s)].Values| > 1 <==> Disagree(cells, w, s)
  {
    if Disagree(cells, w, s) {
      var a, b :| a in cells && b in cells && a.workload == w && a.step == s && b.workload == w && b.step == s
        && HasSha(cells[a].sha) && HasSha(cells[b].sha) && cells[a].sha != cells[b].sha;
      assert HashFor(byStep, a) == cells[a].sha && HashFor(byStep, b) == cells[b].sha;
      var hashes := byStep[(w, s)];
      assert hashes[a.engine] in hashes.Values && hashes[b.engine] in hashes.Values;
      TwoValues(hashes.Values, hashes[a.engine], hashes[b.engine]);
    } else if (w, s) in byStep {
      var hashes := byStep[(w, s)];
      var e :| e in hashes;
      var a := Key(w, e, s);
      assert HashFor(byStep, a) == Some(hashes[e]);
      assert hashes[e] in hashes.Values;
      forall h | h in hashes.Values
        ensures h == hashes[e]
      {
        var f :| f in hashes && hashes[f] == h;
        var b := Key(w, f, s);
        assert HashFor(byStep, b) == Some(h);
        assert cells[a].sha == Some(hashes[e]) && cells[b].sha == Some(h);
      }
      OneValue(hashes.Values, hashes[e]);
    }
  }

  lemma ShaIsThere(sha: Option<string>)
    requires HasSha(sha)
    ensures sha.Some?
  {
  }

  // ----- the order of the messages ----------------------------------------------------------

  type StepId = (string, string)

  /** The steps with a hash, each where its first one comes in the order of the cells. */
  function StepOrder(order: seq<Key>, cells: map<Key, CellStats>): seq<StepId>
    requires forall key | key in order :: key in cells
  {
    if order == [] then []
    else
      var init, key := StepOrder(order[..|order| - 1], cells), order[|order| - 1];
      var ws := (key.workload, key.step);
      if HasSha(cells[key].sha) && ws !in init then init + [ws] else init
  }

  lemma {:induction false} StepOrderHas(order: seq<Key>, cells: map<Key, CellStats>, key: Key)
    requires (forall k | k in order :: k in cells) && key in order && HasSha(cells[key].sha)
    ensures (key.workload, key.step) in StepOrder(order, cells)
  {
    hide HasSha;
    var last := |order| - 1;
    assert order == order[..last] + [order[last]];
    if key == order[last] {
    } else {
      StepOrderHas(order[..last], cells, key);
    }
  }

  /** Those at which engines disagree, in the same order. */
  function Disagreeing(cells: map<Key, CellStats>, steps: seq<StepId>): seq<StepId> {
    if steps == [] then []
    else
      var ws := steps[|steps| - 1];
      Disagreeing(cells, steps[..|steps| - 1]) + (if Disagree(cells, ws.0, ws.1) then [ws] else [])
  }

  lemma {:induction false} DisagreeingAre(cells: map<Key, CellStats>, steps: seq<StepId>)
    ensures forall ws :: ws in Disagreeing(cells, steps) <==> ws in steps && Disagree(cells, ws.0, ws.1)
  {
    hide Disagree;
    if steps == [] {
    } else {
      var k := |steps| - 1;
      DisagreeingAre(cells, steps[..k]);
      assert steps == steps[..k] + [steps[k]];
    }
  }

  // ----- the messages -----------------------------------------------------------------------

  /** A message: its step, and the engines with the starts of their hashes. */
  datatype Issue = Issue(step: StepId, hashes: seq<(string, string)>)

  /** The first twelve characters. */
  function Short(sha: string): string {
    if |sha| > 12 then sha[..12] else sha
  }

  /** The engines are in ascending order. */
  ghost predicate Ascending(items: seq<(string, string)>) {
    forall i, j | 0 <= i < j < |items| :: LexLe(items[i].0, items[j].0) && items[i].0 != items[j].0
  }

  /** The message lists every engine that returned a hash for the step, and no other. */
  ghost predicate ListsHashes(cells: map<Key, CellStats>, issue: Issue) {
    && Ascending(issue.hashes)
    && forall e, h :: (e, h) in issue.hashes <==> Returned(cells, Key(issue.step.0, e, issue.step.1), h)
  }

  /** The cell has a hash that starts like this. */
  predicate Returned(cells: map<Key, CellStats>, key: Key, h: string) {
    key in cells && HasSha(cells[key].sha) && h == Short(cells[key].sha.value)
  }

  /** The engines of a dictionary, each once. */
  method EnginesOf(hashes: map<string, string>) returns (engines: seq<string>)
    ensures Distinct(engines) && forall e :: e in engines <==> e in hashes
  {
    engines := [];
    var todo := hashes.Keys;
    while todo != {}
      invariant todo <= hashes.Keys && (forall e :: e in engines <==> e in hashes && e !in todo)
      invariant Distinct(engines)
      decreases |todo|
    {
      var e :| e in todo;
      engines := engines + [e];
      todo := todo - {e};
    }
  }

  /** The items of a dictionary in ascending order of the engines, with the hashes shortened. */
  method SortedHashes(hashes: map<string, string>) returns (items: seq<(string, string)>)
    ensures Ascending(items)
    ensures forall e, h :: (e, h) in items <==> e in hashes && h == Short(hashes[e])
  {
    hide Sort, LexLe, Short;
    var engines := EnginesOf(hashes);
    LexIsTotalOrder();
    SortSorted(LexLe, engines);
    SortDistinct(LexLe, engines);
    var sorted := Sort(LexLe, engines);
    items := Shortened(hashes, sorted);
    ItemsAre(hashes, sorted, items);
  }

  method Shortened(hashes: map<string, string>, engines: seq<string>) returns (items: seq<(string, string)>)
    requires forall e | e in engines :: e in hashes
    ensures |items| == |engines|
    ensures forall i | 0 <= i < |engines| :: engines[i] in hashes && items[i] == (engines[i], Short(hashes[engines[i]]))
  {
    items := [];
    for k := 0 to |engines|
      invariant |items| == k
      invariant forall i | 0 <= i < k :: engines[i] in hashes && items[i] == (engines[i], Short(hashes[engines[i]]))
    {
      items := items + [(engines[k], Short(hashes[engines[k]]))];
    }
  }

  lemma ItemsAre(hashes: map<string, string>, engines: seq<string>, items: seq<(string, string)>)
    requires (forall e :: e in engines <==> e in hashes) && |items| == |engines|
    requires forall i | 0 <= i < |engines| :: engines[i] in hashes && items[i] == (engines[i], Short(hashes[engines[i]]))
    ensures forall e, h :: (e, h) in items <==> e in hashes && h == Short(hashes[e])
  {
    hide Short;
    forall e | e in hashes
      ensures (e, Short(hashes[e])) in items
    {
      var i :| 0 <= i < |engines| && engines[i] == e;
      assert items[i] == (e, Short(hashes[e]));
    }
  }

  function StepsOf(issues: seq<Issue>): seq<StepId> {
    seq(|issues|, k requires 0 <= k < |issues| => issues[k].step)
  }

  function Done(order: seq<Key>): set<Key> {
    set key | key in order
  }

  /** The messages about the steps at which more than one hash was collected. */
  method Messages(cells: map<Key, CellStats>, byStep: ByStep, steps: seq<StepId>) returns (issues: seq<Issue>)
    requires Collected(cells, cells.Keys, byStep) && forall ws | ws in steps :: ws in byStep
    ensures StepsOf(issues) == Disagreeing(cells, steps)
    ensures forall issue | issue in issues :: ListsHashes(cells, issue)
  {
    hide HasSha, Disagree, Collected, ListsHashes;
    issues := [];
    for k := 0 to |steps|
      invariant StepsOf(issues) == Disagreeing(cells, steps[..k])
      invariant forall issue | issue in issues :: ListsHashes(cells, issue)
    {
      var ws := steps[k];
      assert steps[..k + 1][..k] == steps[..k];
      IssueIffDisagree(cells, byStep, ws.0, ws.1);
      if |byStep[ws].Values| > 1 {
        var hashes := SortedHashes(byStep[ws]);
        HashesAreListed(cells, byStep, Issue(ws, hashes));
        StepsSnoc(issues, Issue(ws, hashes));
        issues := issues + [Issue(ws, hashes)];
      }
    }
    assert steps[..|steps|] == steps;
  }

  /** `correctness_check`: a message for each step at which engines disagree, in the order of the cells,
      that lists the engines' hashes. */
  method CorrectnessCheck(order: seq<Key>, cells: map<Key, CellStats>) returns (issues: seq<Issue>)
    requires Distinct(order) && forall key :: key in order <==> key in cells
    ensures StepsOf(issues) == Disagreeing(cells, StepOrder(order, cells))
    ensures forall w, s :: (w, s) in StepsOf(issues) <==> Disagree(cells, w, s)
    ensures forall issue | issue in issues :: ListsHashes(cells, issue)
  {
    hide HasSha, Disagree, Collected, ListsHashes;
    var byStep: ByStep := map[];
    var steps: seq<StepId> := [];
    NothingCollected(cells);
    assert Done(order[..0]) == {};
    for k := 0 to |order|
      invariant Done(order[..k]) <= cells.Keys && Collected(cells, Done(order[..k]), byStep)
      invariant steps == StepOrder(order[..k], cells) && forall ws :: ws in steps <==> ws in byStep
    {
      var key := order[k];
      var c := cells[key];
      var ws := (key.workload, key.step);
      assert order[..k + 1] == order[..k] + [key] && order[..k + 1][..k] == order[..k];
      assert Done(order[..k + 1]) == Done(order[..k]) + {key};
      CollectStep(cells, Done(order[..k]), byStep, key);
      if HasSha(c.sha) {
        ShaIsThere(c.sha);
        if ws !in byStep {
          steps := steps + [ws];
        }
        byStep := WithHash(byStep, key, c.sha.value);
      }
    }
    assert order[..|order|] == order;
    assert Done(order) == cells.Keys;
    issues := Messages(cells, byStep, steps);
    DisagreeingAre(cells, steps);
    forall w, s | Disagree(cells, w, s)
      ensures (w, s) in steps
    {
      DisagreeingHasStep(order, cells, w, s);
    }
  }

  lemma StepsSnoc(issues: seq<Issue>, issue: Issue)
    ensures StepsOf(issues + [issue]) == StepsOf(issues) + [issue.step]
  {
  }

  lemma HashesAreListed(cells: map<Key, CellStats>, byStep: ByStep, issue: Issue)
    requires Collected(cells, cells.Keys, byStep) && issue.step in byStep && Ascending(issue.hashes)
    requires forall e, h :: (e, h) in issue.hashes <==> e in byStep[issue.step] && h == Short(byStep[issue.step][e])
    ensures ListsHashes(cells, issue)
  {
    hide Ascending, Short, Collected, Returned;
    forall e, h
      ensures (e, h) in issue.hashes <==> Returned(cells, Key(issue.step.0, e, issue.step.1), h)
    {
      ReturnedIs(cells, byStep, Key(issue.step.0, e, issue.step.1), h);
    }
  }

  lemma ReturnedIs(cells: map<Key, CellStats>, byStep: ByStep, key: Key, h: string)
    requires Collected(cells, cells.Keys, byStep) && (key.workload, key.step) in byStep
    ensures var hashes := byStep[(key.workload, key.step)];
            Returned(cells, key, h) <==> key.engine in hashes && h == Short(hashes[key.engine])
  {
    hide Short, Collected;
    CollectedIs(cells, byStep, key);
  }

  lemma DisagreeingHasStep(order: seq<Key>, cells: map<Key, CellStats>, w: string, s: string)
    requires (forall key :: key in order <==> key in cells) && Disagree(cells, w, s)
    ensures (w, s) in StepOrder(order, cells)
  {
    hide HasSha;
    var a, b :| a in cells && b in cells && a.workload == w && a.step == s && b.workload == w && b.step == s
      && HasSha(cells[a].sha) && HasSha(cells[b].sha) && cells[a].sha != cells[b].sha;
    StepOrderHas(order, cells, a);
  }
}
