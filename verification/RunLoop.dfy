/** The run loop: one child process per engine appends its records to the engine's log as it goes,
    and may die at any call it makes; the parent goes on and merges what the children left. */
module RunLoop {
  import opened Text

  // ----- what is to be run ------------------------------------------------------------------

  /** A step, with the engines it does not apply to. */
  datatype StepDef = StepDef(id: string, skippedFor: set<string>)

  datatype Workload = Workload(
    name: string, catalog: seq<StepDef>, setup: seq<StepDef>, measured: seq<string>, cleanup: seq<StepDef>,
    coldRuns: nat, warmRuns: nat, engines: Option<set<string>>)

  predicate AppliesTo(wl: Workload, engine: string) {
    wl.engines.None? || engine in wl.engines.value
  }

  /** The place of one measured run in a workload's schedule. */
  datatype Slot = Slot(step: string, run: nat, cold: bool)

  function StepSlots(step: string, coldRuns: nat, warmRuns: nat): seq<Slot> {
    seq(coldRuns + warmRuns, r requires 0 <= r < coldRuns + warmRuns => Slot(step, r, r < coldRuns))
  }

  function Slots(steps: seq<string>, coldRuns: nat, warmRuns: nat): seq<Slot> {
    if steps == [] then [] else StepSlots(steps[0], coldRuns, warmRuns) + Slots(steps[1..], coldRuns, warmRuns)
  }

  function Schedule(wl: Workload): seq<Slot> {
    Slots(wl.measured, wl.coldRuns, wl.warmRuns)
  }

  // ----- what happens -----------------------------------------------------------------------

  /** What a call into the engine adapter comes back with. */
  datatype Answer = Result(exitCode: int, wall: real, rows: Option<int>, sha: Option<string>) | Raises

  datatype Record = Record(
    workload: string, engine: string, step: string, run: nat, cold: bool,
    exitCode: int, wall: real, rows: Option<int>, sha: Option<string>)

  function RecordOf(engine: string, workload: string, slot: Slot, a: Answer): Record
    requires a.Result?
  {
    Record(workload, engine, slot.step, slot.run, slot.cold, a.exitCode, a.wall, a.rows, a.sha)
  }

  datatype End = Finished | Failed | Raised | Died

  /** A stretch of a child's life: the records it appended, the calls made so far, and its end. */
  datatype Stretch = Stretch(recs: seq<Record>, pos: nat, end: End)

  /** The calls of a list of steps, stopping at an exception, at death (no more answers), and, for
      setup steps, at the first failure. */
  function StepsRun(engine: string, steps: seq<StepDef>, stopOnFailure: bool, answers: seq<Answer>, pos: nat): Stretch {
    if steps == [] then Stretch([], pos, Finished)
    else if engine in steps[0].skippedFor then StepsRun(engine, steps[1..], stopOnFailure, answers, pos)
    else if pos >= |answers| then Stretch([], pos, Died)
    else if answers[pos].Raises? then Stretch([], pos + 1, Raised)
    else if stopOnFailure && answers[pos].exitCode != 0 then Stretch([], pos + 1, Failed)
    else StepsRun(engine, steps[1..], stopOnFailure, answers, pos + 1)
  }

  /** The measured runs of the remaining slots. */
  function MeasuredRun(engine: string, workload: string, slots: seq<Slot>, answers: seq<Answer>, pos: nat): Stretch {
    if slots == [] then Stretch([], pos, Finished)
    else if pos >= |answers| then Stretch([], pos, Died)
    else if answers[pos].Raises? then Stretch([], pos + 1, Raised)
    else
      var rest := MeasuredRun(engine, workload, slots[1..], answers, pos + 1);
      rest.(recs := [RecordOf(engine, workload, slots[0], answers[pos])] + rest.recs)
  }

  /** `run_workload` */
  function WorkloadRun(engine: string, wl: Workload, answers: seq<Answer>, pos: nat): Stretch {
    var setup := StepsRun(engine, wl.setup, true, answers, pos);
    if setup.end != Finished then setup
    else
      var measured := MeasuredRun(engine, wl.name, Schedule(wl), answers, setup.pos);
      if measured.end != Finished then measured
      else
        var cleanup := StepsRun(engine, wl.cleanup, false, answers, measured.pos);
        cleanup.(recs := measured.recs)
  }

  /** The workloads in order: one that ends in an exception or a failed setup does not stop the
      next, only death does. */
  function WorkloadsRun(engine: string, wls: seq<Workload>, answers: seq<Answer>, pos: nat): Stretch {
    if wls == [] then Stretch([], pos, Finished)
    else if !AppliesTo(wls[0], engine) then WorkloadsRun(engine, wls[1..], answers, pos)
    else
      var first := WorkloadRun(engine, wls[0], answers, pos);
      if first.end == Died then first
      else
        var rest := WorkloadsRun(engine, wls[1..], answers, first.pos);
        rest.(recs := first.recs + rest.recs)
  }

  /** The one-time catalog steps; nothing catches an exception here. */
  function CatalogRun(engine: string, wls: seq<Workload>, answers: seq<Answer>, pos: nat): Stretch {
    if wls == [] then Stretch([], pos, Finished)
    else if !AppliesTo(wls[0], engine) then CatalogRun(engine, wls[1..], answers, pos)
    else
      var first := StepsRun(engine, wls[0].catalog, false, answers, pos);
      if first.end != Finished then first.(end := Died) else CatalogRun(engine, wls[1..], answers, first.pos)
  }

  /** The manifest entries of an engine, in its own fragment file. */
  datatype Fragment = Fragment(version: Answer, coldStart: Answer)

  /** What a child leaves: its log file, if it came to create it, and its fragment file, if it came
      to write it. */
  datatype Remains = Remains(log: Option<seq<Record>>, fragment: Option<Fragment>)

  const NOTHING := Remains(None, None)

  /** A child process: import, start, version, then the log is created, then the catalog steps, the
      workloads, the engine's stop, and last the fragment. */
  function ChildRun(engine: string, wls: seq<Workload>, answers: seq<Answer>): Remains {
    if |answers| < 3 || answers[0].Raises? || answers[1].Raises? || answers[2].Raises? then
      NOTHING
    else
      var catalog := CatalogRun(engine, wls, answers, 3);
      if catalog.end != Finished then Remains(Some([]), None)
      else
        var run := WorkloadsRun(engine, wls, answers, catalog.pos);
        Remains(Some(run.recs),
                if run.end == Died || run.pos >= |answers| then None else Some(Fragment(answers[2], answers[1])))
  }

  /** Slots one after the other. */
  lemma {:induction false} MeasuredOfBoth(
    engine: string, workload: string, a: seq<Slot>, b: seq<Slot>, answers: seq<Answer>, pos: nat)
    ensures var first := MeasuredRun(engine, workload, a, answers, pos);
            var rest := MeasuredRun(engine, workload, b, answers, first.pos);
            MeasuredRun(engine, workload, a + b, answers, pos) ==
            if first.end != Finished then first else rest.(recs := first.recs + rest.recs)
    decreases |a|
  {
    hide RecordOf;
    if a == [] {
      assert a + b == b;
    } else {
      MeasuredOfBoth(engine, workload, a[1..], b, answers, pos + 1);
      assert (a + b)[1..] == a[1..] + b && (a + b)[0] == a[0];
    }
  }

  lemma NothingMeasured(engine: string, workload: string, answers: seq<Answer>, pos: nat)
    ensures MeasuredRun(engine, workload, [], answers, pos) == Stretch([], pos, Finished)
  {
  }

  // ----- the child process ------------------------------------------------------------------

  /** The child's side of the results directory, and how far it has come. */
  class Child {
    const engine: string
    const answers: seq<Answer>
    var pos: nat
    var log: seq<Record>

    constructor (engine: string, answers: seq<Answer>)
      ensures this.engine == engine && this.answers == answers && pos == 0 && log == []
    {
      this.engine, this.answers := engine, answers;
      pos, log := 0, [];
    }

    /** Any call into the adapter; none when the process dies in it. */
    method Call() returns (a: Option<Answer>)
      modifies this`pos
      ensures old(pos) < |answers| ==> a == Some(answers[old(pos)]) && pos == old(pos) + 1
      ensures old(pos) >= |answers| ==> a == None && pos == old(pos)
    {
      if pos < |answers| {
        a := Some(answers[pos]);
        pos := pos + 1;
      } else {
        a := None;
      }
    }

    method RunSteps(steps: seq<StepDef>, stopOnFailure: bool) returns (end: End)
      modifies this`pos
      ensures Stretch([], pos, end) == StepsRun(engine, steps, stopOnFailure, answers, old(pos))
    {
      assert steps[0..] == steps;
      for k := 0 to |steps|
        invariant StepsRun(engine, steps, stopOnFailure, answers, old(pos)) ==
                  StepsRun(engine, steps[k..], stopOnFailure, answers, pos)
      {
        assert steps[k..][1..] == steps[k + 1..];
        if engine !in steps[k].skippedFor {
          var a := Call();
          if a.None? {
            return Died;
          } else if a.value.Raises? {
            return Raised;
          } else if stopOnFailure && a.value.exitCode != 0 {
            return Failed;
          }
        }
      }
      end := Finished;
    }

    /** The cold and warm runs of one measured step. */
    method RunMeasured(wl: Workload, step: string) returns (end: End)
      modifies this
      ensures var r := MeasuredRun(engine, wl.name, StepSlots(step, wl.coldRuns, wl.warmRuns), answers, old(pos));
              log == old(log) + r.recs && pos == r.pos && end == r.end
    {
      ghost var slots := StepSlots(step, wl.coldRuns, wl.warmRuns);
      ghost var full := MeasuredRun(engine, wl.name, slots, answers, pos);
      assert slots[0..] == slots;
      for run := 0 to wl.coldRuns + wl.warmRuns
        invariant Upto(full, old(log), MeasuredRun(engine, wl.name, slots[run..], answers, pos), log)
      {
        var cold := run < wl.coldRuns;
        assert slots[run..][0] == Slot(step, run, cold) && slots[run..][1..] == slots[run + 1..];
        var a := Call();
        if a.None? {
          return Died;
        } else if a.value.Raises? {
          return Raised;
        }
        log := log + [RecordOf(engine, wl.name, Slot(step, run, cold), a.value)];
      }
      end := Finished;
    }

    /** `run_workload`: every record is in the log before the next call is made. */
    method RunWorkload(wl: Workload) returns (end: End)
      modifies this
      ensures Stretch(log, pos, end) ==
              WorkloadRun(engine, wl, answers, old(pos)).(recs := old(log) + WorkloadRun(engine, wl, answers, old(pos)).recs)
    {
      hide StepsRun, MeasuredRun, StepSlots;
      end := RunSteps(wl.setup, true);
      if end != Finished {
        return;
      }
      ghost var full := MeasuredRun(engine, wl.name, Schedule(wl), answers, pos);
      assert wl.measured[0..] == wl.measured;
      for i := 0 to |wl.measured|
        invariant Upto(full, old(log),
                       MeasuredRun(engine, wl.name, Slots(wl.measured[i..], wl.coldRuns, wl.warmRuns), answers, pos), log)
      {
        assert wl.measured[i..][0] == wl.measured[i] && wl.measured[i..][1..] == wl.measured[i + 1..];
        MeasuredOfBoth(engine, wl.name, StepSlots(wl.measured[i], wl.coldRuns, wl.warmRuns),
                       Slots(wl.measured[i + 1..], wl.coldRuns, wl.warmRuns), answers, pos);
        end := RunMeasured(wl, wl.measured[i]);
        if end != Finished {
          return;
        }
      }
      NothingMeasured(engine, wl.name, answers, pos);
      end := RunSteps(wl.cleanup, false);
    }

    /** The child's main loop over the workloads. */
    method RunWorkloads(wls: seq<Workload>) returns (died: bool)
      modifies this
      ensures var r := WorkloadsRun(engine, wls, answers, old(pos));
              log == old(log) + r.recs && pos == r.pos && died == (r.end == Died)
    {
      ghost var full := WorkloadsRun(engine, wls, answers, pos);
      assert wls[0..] == wls;
      for k := 0 to |wls|
        invariant Upto(full, old(log), WorkloadsRun(engine, wls[k..], answers, pos), log)
      {
        assert wls[k..][1..] == wls[k + 1..];
        if AppliesTo(wls[k], engine) {
          var end := RunWorkload(wls[k]);
          if end == Died {
            return true;
          }
        }
      }
      died := false;
    }
  }

  /** The whole stretch is what the log holds so far plus the rest of the stretch. */
  ghost predicate Upto(full: Stretch, before: seq<Record>, rest: Stretch, log: seq<Record>) {
    before + full.recs == log + rest.recs && full.pos == rest.pos && full.end == rest.end
  }

  // ----- the parent -------------------------------------------------------------------------

  /** A file under the results directory. */
  datatype File = LogFile(recs: seq<Record>) | FragmentFile(fragment: Fragment)

  /** The files, by their paths. */
  type Files = map<string, File>

  const LOG_SUFFIX: string := ".jsonl"
  const FRAGMENT_SUFFIX: string := ".manifest.json"

  function LogPath(engine: string): string {
    engine + LOG_SUFFIX
  }

  function FragmentPath(engine: string): string {
    engine + FRAGMENT_SUFFIX
  }

  lemma SameSuffix(a: string, b: string, suffix: string)
    ensures a + suffix == b + suffix <==> a == b
  {
    if a + suffix == b + suffix {
      assert (a + suffix)[..|a|] == a && (b + suffix)[..|b|] == b;
    }
  }

  /** Different engines have different files, and a log is never a fragment. */
  lemma PathsDiffer(d: string, e: string)
    ensures LogPath(d) == LogPath(e) <==> d == e
    ensures FragmentPath(d) == FragmentPath(e) <==> d == e
    ensures LogPath(d) != FragmentPath(e)
  {
    SameSuffix(d, e, LOG_SUFFIX);
    SameSuffix(d, e, FRAGMENT_SUFFIX);
    var l, f := LogPath(d), FragmentPath(e);
    assert l[|l| - 1] == 'l' && f[|f| - 1] == 'n';
  }

  /** The manifest that the parent merges. */
  datatype Manifest = Manifest(versions: map<string, Answer>, coldStarts: map<string, Answer>)

  const NO_FILES: Files := map[]
  const NO_ENTRIES := Manifest(map[], map[])

  function WithLog(files: Files, engine: string, log: Option<seq<Record>>): Files {
    if log.Some? then files[LogPath(engine) := LogFile(log.value)] else files
  }

  function WithFragment(files: Files, engine: string, fragment: Option<Fragment>): Files {
    if fragment.Some? then files[FragmentPath(engine) := FragmentFile(fragment.value)] else files
  }

  /** A child writes to the two paths made of its own engine's name. */
  function AfterChild(files: Files, engine: string, r: Remains): Files {
    WithFragment(WithLog(files, engine, r.log), engine, r.fragment)
  }

  /** The files after the children have run one after the other, each with its own fate. */
  function AfterChildren(engines: seq<string>, wls: seq<Workload>, fates: seq<seq<Answer>>): Files
    requires |engines| == |fates|
  {
    if engines == [] then NO_FILES
    else
      var k := |engines| - 1;
      AfterChild(AfterChildren(engines[..k], wls, fates[..k]), engines[k], ChildRun(engines[k], wls, fates[k]))
  }

  /** The fragment at an engine's path, if there is one. */
  function FragmentOf(files: Files, engine: string): Option<Fragment> {
    var path := FragmentPath(engine);
    if path in files && files[path].FragmentFile? then Some(files[path].fragment) else None
  }

  function WithEntries(m: Manifest, engine: string, f: Option<Fragment>): Manifest {
    if f.None? then m
    else Manifest(m.versions[engine := f.value.version], m.coldStarts[engine := f.value.coldStart])
  }

  /** Merging the fragments in the order given. */
  function Merged(engines: seq<string>, files: Files): Manifest {
    if engines == [] then NO_ENTRIES
    else
      var k := |engines| - 1;
      WithEntries(Merged(engines[..k], files), engines[k], FragmentOf(files, engines[k]))
  }

  /** The results directory while the parent runs. */
  class Results {
    var files: Files
    var manifest: Manifest

    constructor ()
      ensures files == NO_FILES && manifest == NO_ENTRIES
    {
      files, manifest := NO_FILES, NO_ENTRIES;
    }

    /** One isolated child. */
    method RunChild(engine: string, wls: seq<Workload>, answers: seq<Answer>)
      modifies this`files
      ensures files == AfterChild(old(files), engine, ChildRun(engine, wls, answers))
    {
      hide LogPath, FragmentPath;
      var log, fragment := LogPath(engine), FragmentPath(engine);
      var child := new Child(engine, answers);
      var imported := child.Call();
      if imported.None? || imported.value.Raises? {
        return;
      }
      var started := child.Call();
      if started.None? || started.value.Raises? {
        return;
      }
      var version := child.Call();
      if version.None? || version.value.Raises? {
        return;
      }
      files := files[log := LogFile([])];
      ghost var full := CatalogRun(engine, wls, answers, 3);
      assert wls[0..] == wls;
      for k := 0 to |wls|
        invariant child.log == [] && child.engine == engine && child.answers == answers
        invariant full == CatalogRun(engine, wls[k..], answers, child.pos)
        invariant files == old(files)[log := LogFile([])]
      {
        assert wls[k..][1..] == wls[k + 1..];
        if AppliesTo(wls[k], engine) {
          var end := child.RunSteps(wls[k].catalog, false);
          if end != Finished {
            return;
          }
        }
      }
      assert full == Stretch([], child.pos, Finished);
      ghost var run := WorkloadsRun(engine, wls, answers, child.pos);
      var died := child.RunWorkloads(wls);
      files := files[log := LogFile(child.log)];
      assert child.log == run.recs && child.pos == run.pos && died == (run.end == Died);
      assert version.value == answers[2] && started.value == answers[1] && !imported.value.Raises?;
      ghost var r := ChildRun(engine, wls, answers);
      assert r.log == Some(child.log);
      assert r.fragment == if died || child.pos >= |answers| then None else Some(Fragment(version.value, started.value));
      assert files == WithLog(old(files), engine, r.log);
      if died {
        return;
      }
      var stopped := child.Call();
      if stopped.None? {
        return;
      }
      files := files[fragment := FragmentFile(Fragment(version.value, started.value))];
    }

    /** The parent: a child for each engine, whatever became of the one before, then the merge. */
    method RunAll(engines: seq<string>, wls: seq<Workload>, fates: seq<seq<Answer>>)
      requires |engines| == |fates|
      requires files == NO_FILES
      modifies this
      ensures files == AfterChildren(engines, wls, fates)
      ensures manifest == Merged(engines, files)
    {
      hide ChildRun, LogPath, FragmentPath, AfterChild;
      for k := 0 to |engines|
        invariant files == AfterChildren(engines[..k], wls, fates[..k])
      {
        RunChild(engines[k], wls, fates[k]);
        assert engines[..k + 1][..k] == engines[..k] && fates[..k + 1][..k] == fates[..k];
      }
      assert engines[..|engines|] == engines && fates[..|fates|] == fates;
      manifest := NO_ENTRIES;
      for k := 0 to |engines|
        invariant files == AfterChildren(engines, wls, fates)
        invariant manifest == Merged(engines[..k], files)
      {
        var path := FragmentPath(engines[k]);
        assert engines[..k + 1][..k] == engines[..k];
        if path in files && files[path].FragmentFile? {
          var f := files[path].fragment;
          manifest := Manifest(manifest.versions[engines[k] := f.version],
                               manifest.coldStarts[engines[k] := f.coldStart]);
        }
      }
    }
  }

  // ----- isolation --------------------------------------------------------------------------

  predicate Distinct<T(==)>(xs: seq<T>) {
    forall i, j | 0 <= i < j < |xs| :: xs[i] != xs[j]
  }

  function LogOf(files: Files, engine: string): Option<seq<Record>> {
    var path := LogPath(engine);
    if path in files && files[path].LogFile? then Some(files[path].recs) else None
  }

  /** What the files say of one engine. */
  function Of(files: Files, engine: string): Remains {
    Remains(LogOf(files, engine), FragmentOf(files, engine))
  }

  /** A child leaves other engines' files alone. */
  lemma ChildKeepsOthers(files: Files, engine: string, r: Remains, e: string)
    ensures e != engine ==> Of(AfterChild(files, engine, r), e) == Of(files, e)
    ensures e == engine && Of(files, e) == NOTHING ==> Of(AfterChild(files, engine, r), e) == r
  {
    PathsDiffer(engine, e);
    PathsDiffer(e, engine);
    hide LogPath, FragmentPath;
  }

  lemma {:induction false} FilesAreOwn(engines: seq<string>, wls: seq<Workload>, fates: seq<seq<Answer>>, e: string)
    requires |engines| == |fates| && Distinct(engines)
    ensures e !in engines ==> Of(AfterChildren(engines, wls, fates), e) == NOTHING
    ensures forall k | 0 <= k < |engines| && engines[k] == e ::
              Of(AfterChildren(engines, wls, fates), e) == ChildRun(e, wls, fates[k])
  {
    hide ChildRun, AfterChild, Of;
    if engines == [] {
      NothingThere(e);
    } else {
      var last := |engines| - 1;
      FilesAreOwn(engines[..last], wls, fates[..last], e);
      ChildKeepsOthers(AfterChildren(engines[..last], wls, fates[..last]), engines[last],
                       ChildRun(engines[last], wls, fates[last]), e);
    }
  }

  lemma NothingThere(e: string)
    ensures Of(NO_FILES, e) == NOTHING
  {
  }

  /** Engine isolation: with distinct engine names, and for every fate of every child, the files of
      an engine are those of a run where it is the only engine. */
  lemma EnginesAreIsolated(engines: seq<string>, wls: seq<Workload>, fates: seq<seq<Answer>>, k: nat)
    requires |engines| == |fates| && Distinct(engines) && k < |engines|
    ensures Of(AfterChildren(engines, wls, fates), engines[k]) ==
            Of(AfterChildren([engines[k]], wls, [fates[k]]), engines[k])
  {
    hide ChildRun;
    FilesAreOwn(engines, wls, fates, engines[k]);
    FilesAreOwn([engines[k]], wls, [fates[k]], engines[k]);
    assert [engines[k]][0] == engines[k];
  }

  /** The merge takes the fragment at each engine's path, under the engine's name, and nothing else. */
  lemma {:induction false} MergedIs(engines: seq<string>, files: Files)
    ensures Merged(engines, files).versions ==
            map e | e in engines && FragmentOf(files, e).Some? :: FragmentOf(files, e).value.version
    ensures Merged(engines, files).coldStarts ==
            map e | e in engines && FragmentOf(files, e).Some? :: FragmentOf(files, e).value.coldStart
  {
    hide FragmentOf;
    if engines == [] {
    } else {
      var k := |engines| - 1;
      MergedIs(engines[..k], files);
      assert engines == engines[..k] + [engines[k]];
    }
  }

  /** So the merge does not depend on the order of the engines, and an engine's manifest entries are
      those of a run where it is the only engine. */
  lemma MergeIgnoresOrder(engines: seq<string>, others: seq<string>, files: Files)
    requires forall e :: e in engines <==> e in others
    ensures Merged(engines, files) == Merged(others, files)
  {
    hide FragmentOf;
    MergedIs(engines, files);
    MergedIs(others, files);
  }

  function EntriesOf(m: Manifest, engine: string): (Option<Answer>, Option<Answer>) {
    (if engine in m.versions then Some(m.versions[engine]) else None,
     if engine in m.coldStarts then Some(m.coldStarts[engine]) else None)
  }

  lemma ManifestEntriesAreIsolated(engines: seq<string>, wls: seq<Workload>, fates: seq<seq<Answer>>, k: nat)
    requires |engines| == |fates| && Distinct(engines) && k < |engines|
    ensures EntriesOf(Merged(engines, AfterChildren(engines, wls, fates)), engines[k]) ==
            EntriesOf(Merged([engines[k]], AfterChildren([engines[k]], wls, [fates[k]])), engines[k])
  {
    hide AfterChildren, FragmentOf, LogOf, Merged;
    EnginesAreIsolated(engines, wls, fates, k);
    MergedIs(engines, AfterChildren(engines, wls, fates));
    MergedIs([engines[k]], AfterChildren([engines[k]], wls, [fates[k]]));
    assert engines[k] in [engines[k]];
  }

  // ----- durability -------------------------------------------------------------------------

  function SlotOf(r: Record): Slot {
    Slot(r.step, r.run, r.cold)
  }

  function SlotsOf(recs: seq<Record>): seq<Slot> {
    seq(|recs|, k requires 0 <= k < |recs| => SlotOf(recs[k]))
  }

  lemma SlotsOfCons(r: Record, recs: seq<Record>)
    ensures SlotsOf([r] + recs) == [SlotOf(r)] + SlotsOf(recs)
  {
  }

  lemma {:induction false} MeasuredIsPrefix(
    engine: string, workload: string, slots: seq<Slot>, answers: seq<Answer>, pos: nat)
    ensures var r := MeasuredRun(engine, workload, slots, answers, pos);
            SlotsOf(r.recs) <= slots && (r.end == Finished ==> SlotsOf(r.recs) == slots)
    ensures forall x | x in MeasuredRun(engine, workload, slots, answers, pos).recs ::
              x.workload == workload && x.engine == engine
    decreases |slots|
  {
    if slots == [] || pos >= |answers| || answers[pos].Raises? {
    } else {
      var rest := MeasuredRun(engine, workload, slots[1..], answers, pos + 1);
      var first := RecordOf(engine, workload, slots[0], answers[pos]);
      MeasuredIsPrefix(engine, workload, slots[1..], answers, pos + 1);
      assert MeasuredRun(engine, workload, slots, answers, pos).recs == [first] + rest.recs;
      SlotsOfCons(first, rest.recs);
      assert SlotOf(first) == slots[0];
      hide SlotsOf;
      assert slots == [slots[0]] + slots[1..];
    }
  }

  /** Crash durability of one workload: what it leaves in the log is a prefix of its schedule, all of
      it when the workload ends normally. */
  lemma WorkloadIsPrefix(engine: string, wl: Workload, answers: seq<Answer>, pos: nat)
    ensures SlotsOf(WorkloadRun(engine, wl, answers, pos).recs) <= Schedule(wl)
    ensures WorkloadRun(engine, wl, answers, pos).end == Finished ==>
              SlotsOf(WorkloadRun(engine, wl, answers, pos).recs) == Schedule(wl)
    ensures forall x | x in WorkloadRun(engine, wl, answers, pos).recs :: x.workload == wl.name && x.engine == engine
  {
    hide Slots, MeasuredRun;
    var setup := StepsRun(engine, wl.setup, true, answers, pos);
    StepsRunIsQuiet(engine, wl.setup, true, answers, pos);
    if setup.end == Finished {
      MeasuredIsPrefix(engine, wl.name, Schedule(wl), answers, setup.pos);
    }
  }

  lemma {:induction false} StepsRunIsQuiet(engine: string, steps: seq<StepDef>, stop: bool, answers: seq<Answer>, pos: nat)
    ensures StepsRun(engine, steps, stop, answers, pos).recs == []
    decreases |steps|
  {
    if steps == [] {
    } else {
      StepsRunIsQuiet(engine, steps[1..], stop, answers, pos);
      StepsRunIsQuiet(engine, steps[1..], stop, answers, pos + 1);
    }
  }
}
