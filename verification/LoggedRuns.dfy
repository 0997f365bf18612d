/** What a child's log says of what the engine answered: which call each record reports, field by
    field, and which answers make up a cell of the report. */
module LoggedRuns {
  import opened Text
  import opened Numbers
  import opened RunLoop
  import opened Cells

  // ----- the schedule by places -------------------------------------------------------------

  /** The place `k` of a schedule: the step, the number of the run, and whether it is a cold one. */
  lemma {:induction false} SlotsAt(steps: seq<string>, coldRuns: nat, warmRuns: nat, k: nat)
    requires k < |Slots(steps, coldRuns, warmRuns)|
    ensures var n := coldRuns + warmRuns;
            && n > 0 && k / n < |steps|
            && Slots(steps, coldRuns, warmRuns)[k] == Slot(steps[k / n], k % n, k % n < coldRuns)
  {
    hide StepSlots;
    var n := coldRuns + warmRuns;
    assert |StepSlots(steps[0], coldRuns, warmRuns)| == n by {
      StepSlotsAre(steps[0], coldRuns, warmRuns);
    }
    if k < n {
      FirstRound(n, k);
      StepSlotsAre(steps[0], coldRuns, warmRuns);
    } else {
      SlotsAt(steps[1..], coldRuns, warmRuns, k - n);
      LaterRound(n, k);
      assert steps[1..][(k - n) / n] == steps[k / n];
    }
  }

  lemma StepSlotsAre(step: string, coldRuns: nat, warmRuns: nat)
    ensures var slots := StepSlots(step, coldRuns, warmRuns);
            && |slots| == coldRuns + warmRuns
            && forall r | 0 <= r < |slots| :: slots[r] == Slot(step, r, r < coldRuns)
  {
  }

  lemma FirstRound(n: nat, k: nat)
    requires k < n
    ensures k / n == 0 && k % n == k
  {
  }

  lemma LaterRound(n: nat, k: nat)
    requires 0 < n <= k
    ensures k / n == (k - n) / n + 1 && k % n == (k - n) % n
  {
    ModUnique(k, n, (k - n) / n + 1, (k - n) % n);
  }

  /** The schedule has so many runs of each measured step. */
  lemma {:induction false} SlotsLength(steps: seq<string>, coldRuns: nat, warmRuns: nat)
    ensures |Slots(steps, coldRuns, warmRuns)| == |steps| * (coldRuns + warmRuns)
  {
    if steps != [] {
      SlotsLength(steps[1..], coldRuns, warmRuns);
      assert |steps| * (coldRuns + warmRuns) == (|steps| - 1) * (coldRuns + warmRuns) + (coldRuns + warmRuns);
    }
  }

  // ----- setup, catalog and cleanup steps ---------------------------------------------------

  /** How many of the steps apply to the engine, each of them one call. */
  function CallsFor(engine: string, steps: seq<StepDef>): nat {
    if steps == [] then 0
    else (if engine in steps[0].skippedFor then 0 else 1) + CallsFor(engine, steps[1..])
  }

  /** The calls `pos..k` came back, and for setup steps with exit code 0. */
  predicate AllWentWell(answers: seq<Answer>, stopOnFailure: bool, pos: nat, k: nat) {
    k <= |answers| &&
    forall i | pos <= i < k :: answers[i].Result? && (stopOnFailure ==> answers[i].exitCode == 0)
  }

  /** Where a list of steps ends: behind its last call, or at the first call that raises, kills the
      child or, among setup steps, comes back with a failure. */
  lemma {:induction false} StepsEnd(
    engine: string, steps: seq<StepDef>, stopOnFailure: bool, answers: seq<Answer>, pos: nat, k: nat)
    requires pos <= k <= pos + CallsFor(engine, steps) && AllWentWell(answers, stopOnFailure, pos, k)
    ensures var r := StepsRun(engine, steps, stopOnFailure, answers, pos);
            && (k == pos + CallsFor(engine, steps) ==> r == Stretch([], k, Finished))
            && (k < pos + CallsFor(engine, steps) && k == |answers| ==> r == Stretch([], k, Died))
            && (k < pos + CallsFor(engine, steps) && k < |answers| && answers[k].Raises? ==>
                 r == Stretch([], k + 1, Raised))
            && (k < pos + CallsFor(engine, steps) && k < |answers| && answers[k].Result?
                && stopOnFailure && answers[k].exitCode != 0 ==>
                 r == Stretch([], k + 1, Failed))
    decreases |steps|
  {
    if steps == [] {
    } else if engine in steps[0].skippedFor {
      StepsEnd(engine, steps[1..], stopOnFailure, answers, pos, k);
    } else if k > pos {
      StepsEnd(engine, steps[1..], stopOnFailure, answers, pos + 1, k);
    }
  }

  /** Only a child that dies, an exception or a failed setup step ends a list of steps early. */
  lemma {:induction false} StepsFinish(
    engine: string, steps: seq<StepDef>, stopOnFailure: bool, answers: seq<Answer>, pos: nat)
    requires pos <= |answers|
    ensures StepsRun(engine, steps, stopOnFailure, answers, pos).end == Finished <==>
            AllWentWell(answers, stopOnFailure, pos, pos + CallsFor(engine, steps))
    decreases |steps|
  {
    if steps == [] {
    } else if engine in steps[0].skippedFor {
      StepsFinish(engine, steps[1..], stopOnFailure, answers, pos);
    } else if pos < |answers| {
      StepsFinish(engine, steps[1..], stopOnFailure, answers, pos + 1);
    }
  }

  // ----- measured steps ---------------------------------------------------------------------

  /** The record reports this slot and this answer, field by field. */
  predicate Reports(r: Record, engine: string, workload: string, slot: Slot, a: Answer) {
    && r.workload == workload && r.engine == engine
    && r.step == slot.step && r.run == slot.run && r.cold == slot.cold
    && a.Result?
    && r.exitCode == a.exitCode && r.wall == a.wall && r.rows == a.rows && r.sha == a.sha
  }

  lemma RecordReports(engine: string, workload: string, slot: Slot, a: Answer)
    requires a.Result?
    ensures Reports(RecordOf(engine, workload, slot, a), engine, workload, slot, a)
  {
  }

  lemma {:induction false} MeasuredReports(
    engine: string, workload: string, slots: seq<Slot>, answers: seq<Answer>, pos: nat)
    ensures var r := MeasuredRun(engine, workload, slots, answers, pos);
            && |r.recs| <= |slots| && (r.recs != [] ==> pos + |r.recs| <= |answers|)
            && (forall k | 0 <= k < |r.recs| :: Reports(r.recs[k], engine, workload, slots[k], answers[pos + k]))
            && (r.end == Finished <==> |r.recs| == |slots|)
            && (r.end == Died <==> |r.recs| < |slots| && pos + |r.recs| >= |answers|)
            && (r.end == Raised <==>
                 |r.recs| < |slots| && pos + |r.recs| < |answers| && answers[pos + |r.recs|].Raises?)
            && r.end != Failed && r.pos == pos + |r.recs| + if r.end == Raised then 1 else 0
    decreases |slots|
  {
    hide RecordOf, Reports;
    if slots != [] && pos < |answers| && answers[pos].Result? {
      RecordReports(engine, workload, slots[0], answers[pos]);
      var rest := MeasuredRun(engine, workload, slots[1..], answers, pos + 1);
      var r := MeasuredRun(engine, workload, slots, answers, pos);
      MeasuredReports(engine, workload, slots[1..], answers, pos + 1);
      assert r.recs[1..] == rest.recs && |r.recs| == 1 + |rest.recs|;
      forall k | 1 <= k < |r.recs|
        ensures Reports(r.recs[k], engine, workload, slots[k], answers[pos + k])
      {
        assert r.recs[k] == rest.recs[k - 1] && slots[k] == slots[1..][k - 1];
        assert pos + k == pos + 1 + (k - 1);
      }
    }
  }

  /** Where the measured answers of a workload begin that starts at `pos`. */
  function FirstMeasured(engine: string, wl: Workload, pos: nat): nat {
    pos + CallsFor(engine, wl.setup)
  }

  /** The setup of the workload came through. */
  predicate IsSetUp(engine: string, wl: Workload, answers: seq<Answer>, pos: nat) {
    AllWentWell(answers, true, pos, FirstMeasured(engine, wl, pos))
  }

  /** The record of the run at place `k` of the schedule, with everything its answer says. */
  predicate CarriesAnswer(r: Record, engine: string, wl: Workload, a: Answer, k: nat) {
    var n := wl.coldRuns + wl.warmRuns;
    && n > 0 && k / n < |wl.measured| && a.Result?
    && r == Record(wl.name, engine, wl.measured[k / n], k % n, k % n < wl.coldRuns,
                   a.exitCode, a.wall, a.rows, a.sha)
  }

  lemma ReportCarries(r: Record, engine: string, wl: Workload, a: Answer, k: nat)
    requires k < |Schedule(wl)| && Reports(r, engine, wl.name, Schedule(wl)[k], a)
    ensures CarriesAnswer(r, engine, wl, a, k)
  {
    hide Slots;
    SlotsAt(wl.measured, wl.coldRuns, wl.warmRuns, k);
  }

  lemma MeasuredPart(engine: string, wl: Workload, answers: seq<Answer>, pos: nat)
    requires pos <= |answers| && IsSetUp(engine, wl, answers, pos)
    ensures WorkloadRun(engine, wl, answers, pos).recs ==
            MeasuredRun(engine, wl.name, Schedule(wl), answers, FirstMeasured(engine, wl, pos)).recs
  {
    hide StepsRun, MeasuredRun, Schedule;
    StepsEnd(engine, wl.setup, true, answers, pos, FirstMeasured(engine, wl, pos));
  }

  /** The log of one workload, record by record: the record at place `k` carries exit code, timing,
      row count and hash of the `k`-th measured answer, under the step, run and temperature of that
      place; and records stop only at the end of the schedule, at an exception or at death. */
  lemma RecordsReportAnswers(engine: string, wl: Workload, answers: seq<Answer>, pos: nat)
    requires pos <= |answers| && IsSetUp(engine, wl, answers, pos)
    ensures var recs, p := WorkloadRun(engine, wl, answers, pos).recs, FirstMeasured(engine, wl, pos);
            var all := |wl.measured| * (wl.coldRuns + wl.warmRuns);
            && |recs| <= all && p + |recs| <= |answers|
            && (forall k | 0 <= k < |recs| :: CarriesAnswer(recs[k], engine, wl, answers[p + k], k))
            && (|recs| < all && p + |recs| < |answers| ==> answers[p + |recs|].Raises?)
  {
    hide MeasuredRun, Slots, Reports, CarriesAnswer, WorkloadRun;
    var p := FirstMeasured(engine, wl, pos);
    var recs := WorkloadRun(engine, wl, answers, pos).recs;
    MeasuredPart(engine, wl, answers, pos);
    MeasuredReports(engine, wl.name, Schedule(wl), answers, p);
    SlotsLength(wl.measured, wl.coldRuns, wl.warmRuns);
    forall k | 0 <= k < |recs|
      ensures CarriesAnswer(recs[k], engine, wl, answers[p + k], k)
    {
      ReportCarries(recs[k], engine, wl, answers[p + k], k);
    }
  }

  /** A workload whose setup fails, raises or kills the child logs nothing. */
  lemma NothingWithoutSetup(engine: string, wl: Workload, answers: seq<Answer>, pos: nat)
    requires pos <= |answers| && !IsSetUp(engine, wl, answers, pos)
    ensures WorkloadRun(engine, wl, answers, pos).recs == []
  {
    StepsFinish(engine, wl.setup, true, answers, pos);
    StepsRunIsQuiet(engine, wl.setup, true, answers, pos);
  }

  /** Where the next workload begins when all calls come back and the setup comes through: behind
      setup, measured runs and cleanup, whatever the exit codes of runs and cleanup steps. */
  lemma WorkloadEnds(engine: string, wl: Workload, answers: seq<Answer>, pos: nat)
    requires pos <= |answers| && IsSetUp(engine, wl, answers, pos)
    requires var c := FirstMeasured(engine, wl, pos) + |wl.measured| * (wl.coldRuns + wl.warmRuns);
             AllWentWell(answers, false, FirstMeasured(engine, wl, pos), c + CallsFor(engine, wl.cleanup))
    ensures var r := WorkloadRun(engine, wl, answers, pos);
            && r.end == Finished && |r.recs| == |wl.measured| * (wl.coldRuns + wl.warmRuns)
            && r.pos == FirstMeasured(engine, wl, pos) + |r.recs| + CallsFor(engine, wl.cleanup)
  {
    hide StepsRun, MeasuredRun, Slots;
    var p := FirstMeasured(engine, wl, pos);
    var c := p + |wl.measured| * (wl.coldRuns + wl.warmRuns);
    StepsEnd(engine, wl.setup, true, answers, pos, p);
    MeasuredReports(engine, wl.name, Schedule(wl), answers, p);
    SlotsLength(wl.measured, wl.coldRuns, wl.warmRuns);
    StepsEnd(engine, wl.cleanup, false, answers, c, c + CallsFor(engine, wl.cleanup));
  }

  // ----- from answers to cells --------------------------------------------------------------

  /** The numbers below `n` with the property, in ascending order. */
  function Places(n: nat, p: nat -> bool): seq<nat> {
    if n == 0 then [] else Places(n - 1, p) + if p(n - 1) then [n - 1] else []
  }

  lemma {:induction false} PlacesAre(n: nat, p: nat -> bool)
    ensures forall k: nat :: k in Places(n, p) <==> k < n && p(k)
    ensures forall i, j | 0 <= i < j < |Places(n, p)| :: Places(n, p)[i] < Places(n, p)[j]
  {
    if n > 0 {
      PlacesAre(n - 1, p);
      var init := Places(n - 1, p);
      forall i | 0 <= i < |init|
        ensures init[i] < n - 1
      {
        assert init[i] in init;
      }
    }
  }

  lemma {:induction false} SamePlaces(n: nat, p: nat -> bool, q: nat -> bool)
    requires forall k: nat | k < n :: p(k) == q(k)
    ensures Places(n, p) == Places(n, q)
  {
    if n > 0 {
      SamePlaces(n - 1, p, q);
    }
  }

  lemma {:induction false} FailuresAppend(a: seq<Record>, b: seq<Record>)
    ensures Failures(a + b) == Failures(a) + Failures(b)
  {
    if a == [] {
      assert a + b == b;
    } else {
      FailuresAppend(a[1..], b);
      assert (a + b)[1..] == a[1..] + b && (a + b)[0] == a[0];
    }
  }

  /** The record at place `k` is one of the cell, cold or warm as asked for, and went well. */
  predicate TimedAt(recs: seq<Record>, key: Key, cold: bool, k: nat) {
    && k < |recs|
    && recs[k].workload == key.workload && recs[k].engine == key.engine && recs[k].step == key.step
    && recs[k].cold == cold && recs[k].exitCode == 0
  }

  predicate FailedAt(recs: seq<Record>, key: Key, k: nat) {
    && k < |recs|
    && recs[k].workload == key.workload && recs[k].engine == key.engine && recs[k].step == key.step
    && recs[k].exitCode != 0
  }

  lemma OneMoreTiming(r: Record, key: Key, cold: bool)
    ensures Walls(if KeyOf(r) == key then [r] else [], cold) ==
            if r.workload == key.workload && r.engine == key.engine && r.step == key.step
               && r.cold == cold && r.exitCode == 0 then [r.wall] else []
    ensures Failures(if KeyOf(r) == key then [r] else []) ==
            if r.workload == key.workload && r.engine == key.engine && r.step == key.step && r.exitCode != 0
            then 1 else 0
  {
    assert [r][1..] == [];
  }

  /** A cell's timings of one temperature are the walls at these places of the log, in order. */
  lemma {:induction false} CellTimings(recs: seq<Record>, key: Key, cold: bool, n: nat)
    requires n <= |recs|
    ensures var ks := Places(n, (k: nat) => TimedAt(recs, key, cold, k));
            var walls := Walls(OfCell(recs[..n], key), cold);
            |walls| == |ks| && forall i | 0 <= i < |ks| :: ks[i] < n && walls[i] == recs[ks[i]].wall
  {
    hide Walls, OfCell;
    if n == 0 {
      NoWalls(key, cold);
    } else {
      var r := recs[n - 1];
      var here := if KeyOf(r) == key then [r] else [];
      CellTimings(recs, key, cold, n - 1);
      assert recs[..n] == recs[..n - 1] + [r];
      OfCellSnoc(recs[..n - 1], r, key);
      WallsAppend(OfCell(recs[..n - 1], key), here, cold);
      OneMoreTiming(r, key, cold);
    }
  }

  lemma {:induction false} CellFailures(recs: seq<Record>, key: Key, n: nat)
    requires n <= |recs|
    ensures Failures(OfCell(recs[..n], key)) == |Places(n, (k: nat) => FailedAt(recs, key, k))|
  {
    hide Walls, OfCell, Failures;
    if n == 0 {
      NoFailures(key);
    } else {
      var r := recs[n - 1];
      CellFailures(recs, key, n - 1);
      assert recs[..n] == recs[..n - 1] + [r];
      OfCellSnoc(recs[..n - 1], r, key);
      FailuresAppend(OfCell(recs[..n - 1], key), if KeyOf(r) == key then [r] else []);
      OneMoreTiming(r, key, true);
    }
  }

  lemma NoFailures(key: Key)
    ensures Failures(OfCell([], key)) == 0
  {
  }

  /** The run at place `k` of the schedule is one of the step and came back with this exit code. */
  predicate AnsweredAt(wl: Workload, answers: seq<Answer>, p: nat, step: string, k: nat) {
    var n := wl.coldRuns + wl.warmRuns;
    && n > 0 && k / n < |wl.measured| && wl.measured[k / n] == step
    && p + k < |answers| && answers[p + k].Result?
  }

  predicate WentWellAt(wl: Workload, answers: seq<Answer>, p: nat, step: string, cold: bool, k: nat) {
    && AnsweredAt(wl, answers, p, step, k)
    && cold == (k % (wl.coldRuns + wl.warmRuns) < wl.coldRuns)
    && answers[p + k].exitCode == 0
  }

  predicate FailsAt(wl: Workload, answers: seq<Answer>, p: nat, step: string, k: nat) {
    AnsweredAt(wl, answers, p, step, k) && answers[p + k].exitCode != 0
  }

  lemma PlacesOfAnswers(engine: string, wl: Workload, answers: seq<Answer>, pos: nat, step: string, cold: bool)
    requires pos <= |answers| && IsSetUp(engine, wl, answers, pos)
    ensures var recs, p := WorkloadRun(engine, wl, answers, pos).recs, FirstMeasured(engine, wl, pos);
            var key := Key(wl.name, engine, step);
            && Places(|recs|, (k: nat) => TimedAt(recs, key, cold, k)) ==
               Places(|recs|, (k: nat) => WentWellAt(wl, answers, p, step, cold, k))
            && Places(|recs|, (k: nat) => FailedAt(recs, key, k)) ==
               Places(|recs|, (k: nat) => FailsAt(wl, answers, p, step, k))
  {
    hide WorkloadRun, IsSetUp, FirstMeasured, Places;
    var recs, p := WorkloadRun(engine, wl, answers, pos).recs, FirstMeasured(engine, wl, pos);
    var key := Key(wl.name, engine, step);
    RecordsReportAnswers(engine, wl, answers, pos);
    SamePlaces(|recs|, (k: nat) => TimedAt(recs, key, cold, k), (k: nat) => WentWellAt(wl, answers, p, step, cold, k));
    SamePlaces(|recs|, (k: nat) => FailedAt(recs, key, k), (k: nat) => FailsAt(wl, answers, p, step, k));
  }

  /** The walls of these answers, counted from `p`. */
  predicate WallsOf(walls: seq<real>, answers: seq<Answer>, p: nat, ks: seq<nat>) {
    && |walls| == |ks|
    && forall i | 0 <= i < |ks| ::
         p + ks[i] < |answers| && answers[p + ks[i]].Result? && walls[i] == answers[p + ks[i]].wall
  }

  /** The report's cell of a step, from one workload's log: its failures are the step's measured
      answers with an exit code other than 0, and its cold and warm timings are the walls of the
      others, in the order of the runs. */
  lemma CellReportsAnswers(engine: string, wl: Workload, answers: seq<Answer>, pos: nat, step: string)
    requires pos <= |answers| && IsSetUp(engine, wl, answers, pos)
    ensures var recs, p := WorkloadRun(engine, wl, answers, pos).recs, FirstMeasured(engine, wl, pos);
            var s := StatsOf(OfCell(recs, Key(wl.name, engine, step)));
            && s.failures == |Places(|recs|, (k: nat) => FailsAt(wl, answers, p, step, k))|
            && WallsOf(s.cold, answers, p, Places(|recs|, (k: nat) => WentWellAt(wl, answers, p, step, true, k)))
            && WallsOf(s.warm, answers, p, Places(|recs|, (k: nat) => WentWellAt(wl, answers, p, step, false, k)))
  {
    hide Walls, Failures, RowCounts, FirstSha, OfCell, TimedAt, FailedAt, FailsAt, WentWellAt;
    var recs, p := WorkloadRun(engine, wl, answers, pos).recs, FirstMeasured(engine, wl, pos);
    var key := Key(wl.name, engine, step);
    assert recs[..|recs|] == recs;
    CellFailures(recs, key, |recs|);
    CellTimings(recs, key, true, |recs|);
    CellTimings(recs, key, false, |recs|);
    PlacesOfAnswers(engine, wl, answers, pos, step, true);
    PlacesOfAnswers(engine, wl, answers, pos, step, false);
    RecordsReportAnswers(engine, wl, answers, pos);
  }

  // ----- the whole child --------------------------------------------------------------------

  /** The workload is not restricted to other engines. */
  predicate IsFor(wl: Workload, engine: string) {
    match wl.engines
    case None => true
    case Some(only) => engine in only
  }

  /** A workload that is not for the engine is passed over. */
  lemma {:induction false} PassedOver(engine: string, wls: seq<Workload>, answers: seq<Answer>, pos: nat)
    requires wls != [] && !IsFor(wls[0], engine)
    ensures WorkloadsRun(engine, wls, answers, pos) == WorkloadsRun(engine, wls[1..], answers, pos)
    ensures CatalogRun(engine, wls, answers, pos) == CatalogRun(engine, wls[1..], answers, pos)
  {
  }

  /** The catalog calls of a child, over all its workloads. */
  function CatalogCalls(engine: string, wls: seq<Workload>): nat {
    if wls == [] then 0
    else (if IsFor(wls[0], engine) then CallsFor(engine, wls[0].catalog) else 0) + CatalogCalls(engine, wls[1..])
  }

  /** A catalog step that comes back with a failure does not stop the child. */
  lemma {:induction false} CatalogEnd(engine: string, wls: seq<Workload>, answers: seq<Answer>, pos: nat)
    requires AllWentWell(answers, false, pos, pos + CatalogCalls(engine, wls))
    ensures CatalogRun(engine, wls, answers, pos) == Stretch([], pos + CatalogCalls(engine, wls), Finished)
    decreases |wls|
  {
    hide StepsRun, CallsFor;
    if wls == [] {
    } else if !IsFor(wls[0], engine) {
      PassedOver(engine, wls, answers, pos);
      CatalogEnd(engine, wls[1..], answers, pos);
    } else {
      var k := pos + CallsFor(engine, wls[0].catalog);
      StepsEnd(engine, wls[0].catalog, false, answers, pos, k);
      CatalogEnd(engine, wls[1..], answers, k);
    }
  }

  /** What a child leaves: a log as soon as import, start and version came back; and in the fragment
      the version is the third answer and the cold start the second. */
  lemma ChildLeaves(engine: string, wls: seq<Workload>, answers: seq<Answer>)
    ensures var r := ChildRun(engine, wls, answers);
            && (r.log.Some? <==> |answers| >= 3 && forall i | 0 <= i < 3 :: answers[i].Result?)
            && (r.fragment.Some? ==>
                 |answers| > 3 && r.log.Some?
                 && r.fragment.value.coldStart == answers[1] && r.fragment.value.version == answers[2])
  {
    hide CatalogRun, WorkloadsRun;
    if |answers| == 3 {
      CatalogForward(engine, wls, answers, 3);
      var pos := CatalogRun(engine, wls, answers, 3).pos;
      WorkloadsForward(engine, wls, answers, pos);
    }
  }

  lemma {:induction false} StepsForward(
    engine: string, steps: seq<StepDef>, stopOnFailure: bool, answers: seq<Answer>, pos: nat)
    requires pos <= |answers|
    ensures pos <= StepsRun(engine, steps, stopOnFailure, answers, pos).pos <= |answers|
    decreases |steps|
  {
    if steps != [] {
      StepsForward(engine, steps[1..], stopOnFailure, answers, pos);
      if pos < |answers| {
        StepsForward(engine, steps[1..], stopOnFailure, answers, pos + 1);
      }
    }
  }

  lemma WorkloadForward(engine: string, wl: Workload, answers: seq<Answer>, pos: nat)
    requires pos <= |answers|
    ensures pos <= WorkloadRun(engine, wl, answers, pos).pos <= |answers|
  {
    hide StepsRun, MeasuredRun, Schedule;
    StepsForward(engine, wl.setup, true, answers, pos);
    var p := StepsRun(engine, wl.setup, true, answers, pos).pos;
    MeasuredReports(engine, wl.name, Schedule(wl), answers, p);
    StepsForward(engine, wl.cleanup, false, answers, MeasuredRun(engine, wl.name, Schedule(wl), answers, p).pos);
  }

  lemma {:induction false} WorkloadsForward(engine: string, wls: seq<Workload>, answers: seq<Answer>, pos: nat)
    requires pos <= |answers|
    ensures pos <= WorkloadsRun(engine, wls, answers, pos).pos <= |answers|
    decreases |wls|
  {
    hide WorkloadRun;
    if wls != [] {
      WorkloadForward(engine, wls[0], answers, pos);
      WorkloadsForward(engine, wls[1..], answers, pos);
      WorkloadsForward(engine, wls[1..], answers, WorkloadRun(engine, wls[0], answers, pos).pos);
    }
  }

  lemma {:induction false} CatalogForward(engine: string, wls: seq<Workload>, answers: seq<Answer>, pos: nat)
    requires pos <= |answers|
    ensures pos <= CatalogRun(engine, wls, answers, pos).pos <= |answers|
    decreases |wls|
  {
    hide StepsRun;
    if wls != [] {
      StepsForward(engine, wls[0].catalog, false, answers, pos);
      CatalogForward(engine, wls[1..], answers, pos);
      CatalogForward(engine, wls[1..], answers, StepsRun(engine, wls[0].catalog, false, answers, pos).pos);
    }
  }

  /** The part of a workload in the child's log: that of one run of it, begun at `start`; `None` when
      the child did not come to it, because it is for other engines or because the child died. */
  lemma {:induction false} WorkloadPart(engine: string, wls: seq<Workload>, answers: seq<Answer>, pos: nat, i: nat)
    returns (start: Option<nat>)
    requires DistinctNames(wls) && i < |wls| && pos <= |answers|
    ensures var r := WorkloadsRun(engine, wls, answers, pos);
            var part := OfWorkload(r.recs, wls[i].name);
            match start {
              case Some(at) =>
                pos <= at <= |answers| && IsFor(wls[i], engine) && part == WorkloadRun(engine, wls[i], answers, at).recs
              case None => part == [] && (!IsFor(wls[i], engine) || r.end == Died)
            }
    decreases |wls|
  {
    hide WorkloadRun, OfWorkload;
    var rest := wls[1..];
    assert forall k | 0 <= k < |rest| :: rest[k] == wls[k + 1];
    if !IsFor(wls[0], engine) {
      PassedOver(engine, wls, answers, pos);
      if i == 0 {
        UnknownWorkload(engine, rest, answers, pos, wls[0].name);
        start := None;
      } else {
        start := WorkloadPart(engine, rest, answers, pos, i - 1);
      }
    } else {
      var first := WorkloadRun(engine, wls[0], answers, pos);
      WorkloadIsPrefix(engine, wls[0], answers, pos);
      WorkloadForward(engine, wls[0], answers, pos);
      UniformWorkload(first.recs, wls[0].name, wls[i].name);
      OfWorkloadAppend(first.recs, WorkloadsRun(engine, rest, answers, first.pos).recs, wls[i].name);
      if i == 0 {
        UnknownWorkload(engine, rest, answers, first.pos, wls[0].name);
        start := Some(pos);
      } else if first.end == Died {
        start := None;
      } else {
        start := WorkloadPart(engine, rest, answers, first.pos, i - 1);
      }
    }
  }

  /** The report's cell of a step, from the log of a whole child with whatever fate: either the child
      did not come to that workload or its setup did not come through, and the cell is empty; or from
      some answer on, failures and timings of the cell are those of the step's measured answers. */
  lemma ChildCellReportsAnswers(engine: string, wls: seq<Workload>, answers: seq<Answer>, i: nat, step: string)
    returns (start: Option<nat>)
    requires DistinctNames(wls) && i < |wls| && ChildRun(engine, wls, answers).log.Some?
    ensures var cell := OfCell(ChildRun(engine, wls, answers).log.value, Key(wls[i].name, engine, step));
            match start {
              case None => cell == []
              case Some(at) =>
                && 3 <= at <= |answers| && IsFor(wls[i], engine) && IsSetUp(engine, wls[i], answers, at)
                && var p := FirstMeasured(engine, wls[i], at);
                && var n := |WorkloadRun(engine, wls[i], answers, at).recs|;
                && cell == OfCell(WorkloadRun(engine, wls[i], answers, at).recs, Key(wls[i].name, engine, step))
                && StatsOf(cell).failures == |Places(n, (k: nat) => FailsAt(wls[i], answers, p, step, k))|
                && WallsOf(StatsOf(cell).cold, answers, p,
                           Places(n, (k: nat) => WentWellAt(wls[i], answers, p, step, true, k)))
                && WallsOf(StatsOf(cell).warm, answers, p,
                           Places(n, (k: nat) => WentWellAt(wls[i], answers, p, step, false, k)))
            }
  {
    hide WorkloadRun, WorkloadsRun, CatalogRun, OfCell, OfWorkload, StatsOf, IsSetUp, FirstMeasured, Places,
      WallsOf, FailsAt, WentWellAt;
    var log, key := ChildRun(engine, wls, answers).log.value, Key(wls[i].name, engine, step);
    start := None;
    NothingInCell(key);
    if log != [] {
      var pos := CatalogRun(engine, wls, answers, 3).pos;
      CatalogForward(engine, wls, answers, 3);
      start := WorkloadPart(engine, wls, answers, pos, i);
      CellInWorkload(log, key);
      if start.Some? {
        if IsSetUp(engine, wls[i], answers, start.value) {
          CellReportsAnswers(engine, wls[i], answers, start.value, step);
        } else {
          NothingWithoutSetup(engine, wls[i], answers, start.value);
          start := None;
        }
      }
    }
  }

  lemma NothingInCell(key: Key)
    ensures OfCell([], key) == []
  {
  }

  /** The names of an engine's files. */
  lemma FilesAreNamed(engine: string)
    ensures LogPath(engine) == engine + ".jsonl" && FragmentPath(engine) == engine + ".manifest.json"
  {
  }

  /** A hash counts when there is one and it is not the empty text. */
  lemma ShaCounts(sha: Option<string>)
    ensures HasSha(sha) <==> sha != None && sha != Some("")
  {
  }
}
