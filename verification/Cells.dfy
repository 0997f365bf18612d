/** The run report: records grouped into (workload, engine, step) cells, and the cross-engine check. */
module Cells {
  import opened Text
  import opened RunLoop

  datatype Key = Key(workload: string, engine: string, step: string)

  function KeyOf(r: Record): Key {
    Key(r.workload, r.engine, r.step)
  }

  /** The records of a cell, in log order. */
  function OfCell(recs: seq<Record>, key: Key): seq<Record> {
    if recs == [] then []
    else (if KeyOf(recs[0]) == key then [recs[0]] else []) + OfCell(recs[1..], key)
  }

  datatype CellStats = CellStats(
    cold: seq<real>, warm: seq<real>, failures: nat, rows: seq<int>, sha: Option<string>)

  /** The timings of the successful records of one temperature, in order. */
  function Walls(recs: seq<Record>, cold: bool): seq<real> {
    if recs == [] then []
    else (if recs[0].cold == cold && recs[0].exitCode == 0 then [recs[0].wall] else []) + Walls(recs[1..], cold)
  }

  function Failures(recs: seq<Record>): nat {
    if recs == [] then 0 else (if recs[0].exitCode != 0 then 1 else 0) + Failures(recs[1..])
  }

  /** The row counts that records have, in order; failed records may have one, too. */
  function RowCounts(recs: seq<Record>): seq<int> {
    if recs == [] then []
    else (if recs[0].rows.Some? then [recs[0].rows.value] else []) + RowCounts(recs[1..])
  }

  /** A hash that counts: present and not empty. */
  predicate HasSha(sha: Option<string>) {
    sha.Some? && sha.value != ""
  }

  function FirstSha(recs: seq<Record>): Option<string> {
    if recs == [] then None
    else if HasSha(recs[0].sha) && recs[0].exitCode == 0 then recs[0].sha
    else FirstSha(recs[1..])
  }

  function StatsOf(recs: seq<Record>): CellStats {
    CellStats(Walls(recs, true), Walls(recs, false), Failures(recs), RowCounts(recs), FirstSha(recs))
  }

  lemma {:induction false} OfCellSnoc(recs: seq<Record>, r: Record, key: Key)
    ensures OfCell(recs + [r], key) == OfCell(recs, key) + (if KeyOf(r) == key then [r] else [])
  {
    if recs == [] {
      assert ([r])[1..] == [];
      assert recs + [r] == [r];
    } else {
      OfCellSnoc(recs[1..], r, key);
      assert (recs + [r])[1..] == recs[1..] + [r] && (recs + [r])[0] == recs[0];
    }
  }

  predicate Occurs(records: seq<Record>, key: Key) {
    exists r | r in records :: KeyOf(r) == key
  }

  /** The groups of the records so far. */
  ghost predicate Grouped(records: seq<Record>, groups: map<Key, seq<Record>>) {
    && (forall key :: key in groups <==> Occurs(records, key))
    && (forall key :: OfCell(records, key) == if key in groups then groups[key] else [])
  }

  lemma GroupStep(records: seq<Record>, r: Record, groups: map<Key, seq<Record>>)
    requires Grouped(records, groups)
    ensures Grouped(records + [r], groups[KeyOf(r) := (if KeyOf(r) in groups then groups[KeyOf(r)] else []) + [r]])
  {
    hide OfCell;
    var after := groups[KeyOf(r) := (if KeyOf(r) in groups then groups[KeyOf(r)] else []) + [r]];
    forall key
      ensures key in after <==> Occurs(records + [r], key)
      ensures OfCell(records + [r], key) == if key in after then after[key] else []
    {
      OfCellSnoc(records, r, key);
      assert Occurs(records + [r], key) <==> Occurs(records, key) || key == KeyOf(r) by {
        assert r in records + [r];
      }
    }
  }

  /** The keys of the records, each where it occurs first. */
  function KeyOrder(records: seq<Record>): seq<Key> {
    if records == [] then []
    else
      var init, key := KeyOrder(records[..|records| - 1]), KeyOf(records[|records| - 1]);
      if key in init then init else init + [key]
  }

  lemma {:induction false} KeyOrderIs(records: seq<Record>)
    ensures Distinct(KeyOrder(records))
    ensures forall key :: key in KeyOrder(records) <==> Occurs(records, key)
  {
    if records == [] {
    } else {
      var k := |records| - 1;
      KeyOrderIs(records[..k]);
      assert records == records[..k] + [records[k]];
      forall key
        ensures Occurs(records, key) <==> Occurs(records[..k], key) || key == KeyOf(records[k])
      {
        assert records[k] in records;
      }
    }
  }

  /** The cell of each group, in order. */
  method CellsOf(order: seq<Key>, groups: map<Key, seq<Record>>) returns (cells: map<Key, CellStats>)
    requires forall key :: key in order <==> key in groups
    ensures cells.Keys == groups.Keys
    ensures forall key | key in cells :: cells[key] == StatsOf(groups[key])
  {
    hide Walls, Failures, RowCounts, FirstSha;
    cells := map[];
    for k := 0 to |order|
      invariant forall key :: key in cells <==> key in order[..k]
      invariant forall key | key in cells :: key in groups && cells[key] == StatsOf(groups[key])
    {
      var recs := groups[order[k]];
      cells := cells[order[k] := CellStats(Walls(recs, true), Walls(recs, false), Failures(recs),
                                           RowCounts(recs), FirstSha(recs))];
    }
    assert order[..|order|] == order;
  }

  /** `cellize`, with the order in which the cells are made. */
  method Cellize(records: seq<Record>) returns (order: seq<Key>, cells: map<Key, CellStats>)
    ensures order == KeyOrder(records) && forall key :: key in order <==> key in cells
    ensures forall key :: key in cells <==> Occurs(records, key)
    ensures forall key | key in cells :: cells[key] == StatsOf(OfCell(records, key))
  {
    hide Occurs, OfCell, StatsOf;
    var groups: map<Key, seq<Record>> := map[];
    assert Grouped([], map[]) by {
      NothingGrouped();
    }
    assert records[..0] == [];
    order := [];
    for k := 0 to |records|
      invariant Grouped(records[..k], groups)
      invariant order == KeyOrder(records[..k]) && forall key :: key in order <==> key in groups
    {
      var key := KeyOf(records[k]);
      assert records[..k + 1] == records[..k] + [records[k]] && records[..k + 1][..k] == records[..k];
      GroupStep(records[..k], records[k], groups);
      if key !in groups {
        order := order + [key];
      }
      groups := groups[key := (if key in groups then groups[key] else []) + [records[k]]];
    }
    assert records[..|records|] == records;
    cells := CellsOf(order, groups);
  }

  lemma NothingGrouped()
    ensures Grouped([], map[])
  {
  }

  // ----- conservation -----------------------------------------------------------------------

  lemma {:induction false} StatsConserve(recs: seq<Record>)
    ensures |Walls(recs, true)| + |Walls(recs, false)| + Failures(recs) == |recs|
  {
    if recs == [] {
    } else {
      StatsConserve(recs[1..]);
    }
  }

  lemma {:induction false} CellHolds(recs: seq<Record>, key: Key)
    ensures forall r :: multiset(OfCell(recs, key))[r] == if KeyOf(r) == key then multiset(recs)[r] else 0
  {
    if recs == [] {
    } else {
      CellHolds(recs[1..], key);
      assert recs == [recs[0]] + recs[1..];
    }
  }

  /** Every record is in its own cell, as often as it is in the log, and in no other; and the cold
      and warm timings and the failures of a cell are all its records. */
  lemma CellsPartition(records: seq<Record>, key: Key)
    ensures forall r :: multiset(OfCell(records, key))[r] == if KeyOf(r) == key then multiset(records)[r] else 0
    ensures var s := StatsOf(OfCell(records, key));
            |s.cold| + |s.warm| + s.failures == |OfCell(records, key)|
  {
    CellHolds(records, key);
    StatsConserve(OfCell(records, key));
  }

  /** A cell's hash is that of its first successful record with one. */
  lemma {:induction false} FirstShaIs(recs: seq<Record>, i: nat)
    requires i < |recs| && HasSha(recs[i].sha) && recs[i].exitCode == 0
    requires forall k | 0 <= k < i :: !HasSha(recs[k].sha) || recs[k].exitCode != 0
    ensures FirstSha(recs) == recs[i].sha
  {
    if i == 0 {
    } else {
      FirstShaIs(recs[1..], i - 1);
    }
  }

  lemma {:induction false} NoFirstSha(recs: seq<Record>)
    ensures FirstSha(recs).None? <==> forall r | r in recs :: !HasSha(r.sha) || r.exitCode != 0
  {
    if recs == [] {
    } else {
      NoFirstSha(recs[1..]);
      assert recs == [recs[0]] + recs[1..];
    }
  }

  /** A cell's row counts are those of its records that have one. */
  lemma {:induction false} RowCountsAre(recs: seq<Record>)
    ensures forall n :: n in RowCounts(recs) <==> exists r | r in recs :: r.rows == Some(n)
    ensures |RowCounts(recs)| == |recs| <==> forall r | r in recs :: r.rows.Some?
    ensures |RowCounts(recs)| <= |recs|
  {
    if recs == [] {
    } else {
      RowCountsAre(recs[1..]);
      assert recs == [recs[0]] + recs[1..];
    }
  }

  // ----- a crashed child's cells ------------------------------------------------------------

  lemma {:induction false} OfCellAppend(a: seq<Record>, b: seq<Record>, key: Key)
    ensures OfCell(a + b, key) == OfCell(a, key) + OfCell(b, key)
  {
    if a == [] {
      assert a + b == b;
    } else {
      OfCellAppend(a[1..], b, key);
      assert (a + b)[1..] == a[1..] + b && (a + b)[0] == a[0];
    }
  }

  lemma {:induction false} ForeignCell(recs: seq<Record>, key: Key)
    requires forall r | r in recs :: KeyOf(r) != key
    ensures OfCell(recs, key) == []
  {
    if recs == [] {
    } else {
      ForeignCell(recs[1..], key);
    }
  }

  /** The slots of one step. */
  function OfStep(slots: seq<Slot>, step: string): seq<Slot> {
    if slots == [] then []
    else (if slots[0].step == step then [slots[0]] else []) + OfStep(slots[1..], step)
  }

  lemma {:induction false} OfStepAppend(a: seq<Slot>, b: seq<Slot>, step: string)
    ensures OfStep(a + b, step) == OfStep(a, step) + OfStep(b, step)
  {
    if a == [] {
      assert a + b == b;
    } else {
      OfStepAppend(a[1..], b, step);
      assert (a + b)[1..] == a[1..] + b && (a + b)[0] == a[0];
      var first := if a[0].step == step then [a[0]] else [];
      assert first + (OfStep(a[1..], step) + OfStep(b, step)) == first + OfStep(a[1..], step) + OfStep(b, step);
    }
  }

  /** Of slots of one step, all or none belong to a step. */
  lemma {:induction false} UniformSteps(slots: seq<Slot>, own: string, step: string)
    requires forall s | s in slots :: s.step == own
    ensures OfStep(slots, step) == if own == step then slots else []
  {
    if slots == [] {
    } else {
      UniformSteps(slots[1..], own, step);
      assert slots == [slots[0]] + slots[1..];
    }
  }

  /** With distinct step ids, a step's slots in the schedule are its cold runs, then its warm ones. */
  lemma {:induction false} ScheduleOfStep(steps: seq<string>, cold: nat, warm: nat, step: string)
    requires Distinct(steps)
    ensures OfStep(Slots(steps, cold, warm), step) == if step in steps then StepSlots(step, cold, warm) else []
  {
    if steps == [] {
    } else {
      var first := StepSlots(steps[0], cold, warm);
      var rest := Slots(steps[1..], cold, warm);
      ScheduleOfStep(steps[1..], cold, warm, step);
      OfStepAppend(first, rest, step);
      UniformSteps(first, steps[0], step);
      assert steps == [steps[0]] + steps[1..];
    }
  }

  /** In records of one workload and engine, a cell's slots are the step's slots among theirs. */
  lemma {:induction false} CellSlots(recs: seq<Record>, key: Key)
    requires forall r | r in recs :: r.workload == key.workload && r.engine == key.engine
    ensures SlotsOf(OfCell(recs, key)) == OfStep(SlotsOf(recs), key.step)
  {
    if recs == [] {
    } else {
      CellSlots(recs[1..], key);
      assert SlotsOf(recs)[1..] == SlotsOf(recs[1..]);
      assert recs[0] in recs;
      var rest := OfCell(recs[1..], key);
      if KeyOf(recs[0]) == key {
        assert OfCell(recs, key) == [recs[0]] + rest;
        assert SlotsOf([recs[0]] + rest) == [SlotOf(recs[0])] + SlotsOf(rest);
      } else {
        assert OfCell(recs, key) == rest;
      }
    }
  }

  lemma PrefixOfStep(a: seq<Slot>, b: seq<Slot>, step: string)
    requires a <= b
    ensures OfStep(a, step) <= OfStep(b, step)
  {
    assert b == a + b[|a|..];
    OfStepAppend(a, b[|a|..], step);
  }

  predicate DistinctNames(wls: seq<Workload>) {
    forall i, j | 0 <= i < j < |wls| :: wls[i].name != wls[j].name
  }

  /** A workload's part of a log. */
  function OfWorkload(recs: seq<Record>, name: string): seq<Record> {
    if recs == [] then []
    else (if recs[0].workload == name then [recs[0]] else []) + OfWorkload(recs[1..], name)
  }

  lemma {:induction false} OfWorkloadAppend(a: seq<Record>, b: seq<Record>, name: string)
    ensures OfWorkload(a + b, name) == OfWorkload(a, name) + OfWorkload(b, name)
  {
    if a == [] {
      assert a + b == b;
    } else {
      OfWorkloadAppend(a[1..], b, name);
      assert (a + b)[1..] == a[1..] + b && (a + b)[0] == a[0];
      var first := if a[0].workload == name then [a[0]] else [];
      var x, y := OfWorkload(a[1..], name), OfWorkload(b, name);
      assert first + (x + y) == first + x + y;
    }
  }

  lemma {:induction false} UniformWorkload(recs: seq<Record>, own: string, name: string)
    requires forall r | r in recs :: r.workload == own
    ensures OfWorkload(recs, name) == if own == name then recs else []
  {
    if recs == [] {
    } else {
      UniformWorkload(recs[1..], own, name);
      assert recs == [recs[0]] + recs[1..];
    }
  }

  lemma {:induction false} UnknownWorkload(engine: string, wls: seq<Workload>, answers: seq<Answer>, pos: nat, name: string)
    requires forall wl | wl in wls :: wl.name != name
    ensures OfWorkload(WorkloadsRun(engine, wls, answers, pos).recs, name) == []
    decreases |wls|
  {
    hide WorkloadRun;
    if wls == [] {
    } else {
      if !AppliesTo(wls[0], engine) {
        UnknownWorkload(engine, wls[1..], answers, pos, name);
      } else {
        var first := WorkloadRun(engine, wls[0], answers, pos);
        WorkloadIsPrefix(engine, wls[0], answers, pos);
        UniformWorkload(first.recs, wls[0].name, name);
        UnknownWorkload(engine, wls[1..], answers, first.pos, name);
        OfWorkloadAppend(first.recs, WorkloadsRun(engine, wls[1..], answers, first.pos).recs, name);
      }
    }
  }

  /** Crash durability: whatever the child's fate, each workload's part of its log is a prefix of
      that workload's schedule. */
  lemma {:induction false} WorkloadPartIsPrefix(
    engine: string, wls: seq<Workload>, answers: seq<Answer>, pos: nat, wl: Workload)
    requires DistinctNames(wls) && wl in wls
    ensures SlotsOf(OfWorkload(WorkloadsRun(engine, wls, answers, pos).recs, wl.name)) <= Schedule(wl)
    ensures !AppliesTo(wl, engine) ==> OfWorkload(WorkloadsRun(engine, wls, answers, pos).recs, wl.name) == []
    decreases |wls|
  {
    hide WorkloadRun, Schedule;
    var rest := wls[1..];
    assert DistinctNames(rest);
    assert wls[0].name == wl.name <==> wls[0] == wl by {
      var i :| 0 <= i < |wls| && wls[i] == wl;
    }
    if wls[0] == wl {
      assert forall x | x in rest :: x.name != wl.name;
    }
    if !AppliesTo(wls[0], engine) {
      if wls[0] == wl {
        UnknownWorkload(engine, rest, answers, pos, wl.name);
      } else {
        WorkloadPartIsPrefix(engine, rest, answers, pos, wl);
      }
    } else {
      var first := WorkloadRun(engine, wls[0], answers, pos);
      var later := WorkloadsRun(engine, rest, answers, first.pos);
      WorkloadIsPrefix(engine, wls[0], answers, pos);
      UniformWorkload(first.recs, wls[0].name, wl.name);
      OfWorkloadAppend(first.recs, later.recs, wl.name);
      if wls[0] == wl {
        UnknownWorkload(engine, rest, answers, first.pos, wl.name);
        assert first.recs + [] == first.recs;
      } else {
        WorkloadPartIsPrefix(engine, rest, answers, first.pos, wl);
        assert [] + OfWorkload(later.recs, wl.name) == OfWorkload(later.recs, wl.name);
      }
    }
  }

  lemma {:induction false} AllOfEngine(engine: string, wls: seq<Workload>, answers: seq<Answer>, pos: nat)
    ensures forall r | r in WorkloadsRun(engine, wls, answers, pos).recs :: r.engine == engine
    decreases |wls|
  {
    hide WorkloadRun;
    if wls == [] {
    } else {
      if !AppliesTo(wls[0], engine) {
        AllOfEngine(engine, wls[1..], answers, pos);
      } else {
        WorkloadIsPrefix(engine, wls[0], answers, pos);
        AllOfEngine(engine, wls[1..], answers, WorkloadRun(engine, wls[0], answers, pos).pos);
      }
    }
  }

  lemma {:induction false} CellInWorkload(recs: seq<Record>, key: Key)
    ensures OfCell(recs, key) == OfCell(OfWorkload(recs, key.workload), key)
    ensures forall r | r in OfWorkload(recs, key.workload) :: r.workload == key.workload && r in recs
  {
    if recs == [] {
    } else {
      CellInWorkload(recs[1..], key);
      var part := OfWorkload(recs[1..], key.workload);
      if recs[0].workload == key.workload {
        assert ([recs[0]] + part)[1..] == part;
      } else {
        assert [] + part == part;
      }
    }
  }

  /** Whatever the child's fate, each cell of its log is a prefix of that step's runs, cold ones
      before warm ones. */
  lemma CellIsPrefix(engine: string, wls: seq<Workload>, answers: seq<Answer>, pos: nat, wl: Workload, key: Key)
    requires DistinctNames(wls) && wl in wls && wl.name == key.workload && Distinct(wl.measured)
    ensures SlotsOf(OfCell(WorkloadsRun(engine, wls, answers, pos).recs, key)) <=
            StepSlots(key.step, wl.coldRuns, wl.warmRuns)
  {
    hide WorkloadsRun, StepSlots, OfStep, OfCell;
    var recs := WorkloadsRun(engine, wls, answers, pos).recs;
    AllOfEngine(engine, wls, answers, pos);
    if key.engine == engine {
      var part := OfWorkload(recs, key.workload);
      WorkloadPartIsPrefix(engine, wls, answers, pos, wl);
      CellInWorkload(recs, key);
      CellSlots(part, key);
      PrefixOfStep(SlotsOf(part), Schedule(wl), key.step);
      ScheduleOfStep(wl.measured, wl.coldRuns, wl.warmRuns, key.step);
    } else {
      ForeignCell(recs, key);
    }
  }

  lemma {:induction false} WallsAppend(a: seq<Record>, b: seq<Record>, cold: bool)
    ensures Walls(a + b, cold) == Walls(a, cold) + Walls(b, cold)
  {
    if a == [] {
      assert a + b == b;
    } else {
      WallsAppend(a[1..], b, cold);
      assert (a + b)[1..] == a[1..] + b && (a + b)[0] == a[0];
      var first := if a[0].cold == cold && a[0].exitCode == 0 then [a[0].wall] else [];
      var x, y := Walls(a[1..], cold), Walls(b, cold);
      assert first + (x + y) == first + x + y;
    }
  }

  lemma {:induction false} WallsBound(recs: seq<Record>, cold: bool)
    ensures |Walls(recs, cold)| <= |recs|
    ensures (forall r | r in recs :: r.cold != cold) ==> Walls(recs, cold) == []
  {
    if recs == [] {
    } else {
      WallsBound(recs[1..], cold);
    }
  }

  lemma PrefixCounts(recs: seq<Record>, step: string, coldRuns: nat, warmRuns: nat)
    requires SlotsOf(recs) <= StepSlots(step, coldRuns, warmRuns)
    ensures |Walls(recs, true)| <= coldRuns && |Walls(recs, false)| <= warmRuns
  {
    var slots := StepSlots(step, coldRuns, warmRuns);
    var n := if |recs| < coldRuns then |recs| else coldRuns;
    var a, b := recs[..n], recs[n..];
    assert recs == a + b;
    assert |SlotsOf(recs)| == |recs| <= |slots|;
    forall k | 0 <= k < |recs| ensures recs[k].cold == (k < coldRuns) {
      assert SlotOf(recs[k]) == SlotsOf(recs)[k] == slots[k];
    }
    WallsAppend(a, b, true);
    WallsAppend(a, b, false);
    WallsBound(a, true);
    WallsBound(a, false);
    WallsBound(b, true);
    WallsBound(b, false);
  }

  /** Crash durability and conservation for the report: whenever a child dies, each cell of what it
      left in its log is a prefix of that step's schedule; so it has no more cold timings than cold
      runs and no more warm ones than warm runs, and with the failures they are all its records. */
  lemma CrashedCells(engine: string, wls: seq<Workload>, answers: seq<Answer>, wl: Workload, key: Key)
    requires DistinctNames(wls) && wl in wls && wl.name == key.workload && Distinct(wl.measured)
    requires ChildRun(engine, wls, answers).log.Some?
    ensures var cell := OfCell(ChildRun(engine, wls, answers).log.value, key);
            var s := StatsOf(cell);
            && SlotsOf(cell) <= StepSlots(key.step, wl.coldRuns, wl.warmRuns)
            && |s.cold| <= wl.coldRuns && |s.warm| <= wl.warmRuns
            && |s.cold| + |s.warm| + s.failures == |cell|
  {
    hide WorkloadsRun, CatalogRun, StepSlots, Walls, Failures, RowCounts, FirstSha;
    var log := ChildRun(engine, wls, answers).log.value;
    if log != [] {
      CellIsPrefix(engine, wls, answers, CatalogRun(engine, wls, answers, 3).pos, wl, key);
    }
    PrefixCounts(OfCell(log, key), key.step, wl.coldRuns, wl.warmRuns);
    StatsConserve(OfCell(log, key));
  }

  // ----- workloads and steps that are named more than once ----------------------------------

  function Times(wls: seq<Workload>, name: string): nat {
    if wls == [] then 0 else (if wls[0].name == name then 1 else 0) + Times(wls[1..], name)
  }

  function Occurrences(steps: seq<string>, step: string): nat {
    if steps == [] then 0 else (if steps[0] == step then 1 else 0) + Occurrences(steps[1..], step)
  }

  /** The cold, or warm, slots of a step. */
  function CountSlots(slots: seq<Slot>, step: string, cold: bool): nat {
    if slots == [] then 0
    else (if slots[0].step == step && slots[0].cold == cold then 1 else 0) + CountSlots(slots[1..], step, cold)
  }

  lemma {:induction false} CountSlotsAppend(a: seq<Slot>, b: seq<Slot>, step: string, cold: bool)
    ensures CountSlots(a + b, step, cold) == CountSlots(a, step, cold) + CountSlots(b, step, cold)
  {
    if a == [] {
      assert a + b == b;
    } else {
      CountSlotsAppend(a[1..], b, step, cold);
      assert (a + b)[1..] == a[1..] + b && (a + b)[0] == a[0];
    }
  }

  lemma CountSlotsPrefix(a: seq<Slot>, b: seq<Slot>, step: string, cold: bool)
    requires a <= b
    ensures CountSlots(a, step, cold) <= CountSlots(b, step, cold)
  {
    assert b == a + b[|a|..];
    CountSlotsAppend(a, b[|a|..], step, cold);
  }

  /** Slots that are all alike in step and temperature. */
  lemma {:induction false} CountAlike(slots: seq<Slot>, own: string, temperature: bool, step: string, cold: bool)
    requires forall s | s in slots :: s.step == own && s.cold == temperature
    ensures CountSlots(slots, step, cold) == if own == step && temperature == cold then |slots| else 0
  {
    if slots == [] {
    } else {
      assert slots[0] in slots;
      CountAlike(slots[1..], own, temperature, step, cold);
    }
  }

  function Runs(cold: bool, coldRuns: nat, warmRuns: nat): nat {
    if cold then coldRuns else warmRuns
  }

  lemma CountStepSlots(own: string, coldRuns: nat, warmRuns: nat, step: string, cold: bool)
    ensures CountSlots(StepSlots(own, coldRuns, warmRuns), step, cold) ==
            if own == step then Runs(cold, coldRuns, warmRuns) else 0
  {
    var slots := StepSlots(own, coldRuns, warmRuns);
    var a, b := slots[..coldRuns], slots[coldRuns..];
    assert slots == a + b;
    CountSlotsAppend(a, b, step, cold);
    CountAlike(a, own, true, step, cold);
    CountAlike(b, own, false, step, cold);
  }

  lemma {:induction false} CountSchedule(steps: seq<string>, coldRuns: nat, warmRuns: nat, step: string, cold: bool)
    ensures CountSlots(Slots(steps, coldRuns, warmRuns), step, cold) ==
            Occurrences(steps, step) * Runs(cold, coldRuns, warmRuns)
  {
    hide StepSlots, Runs;
    if steps == [] {
    } else {
      var first := StepSlots(steps[0], coldRuns, warmRuns);
      CountSchedule(steps[1..], coldRuns, warmRuns, step, cold);
      CountSlotsAppend(first, Slots(steps[1..], coldRuns, warmRuns), step, cold);
      CountStepSlots(steps[0], coldRuns, warmRuns, step, cold);
      OneMore(if steps[0] == step then 1 else 0, Occurrences(steps[1..], step), Runs(cold, coldRuns, warmRuns));
    }
  }

  lemma OneMore(one: nat, n: nat, m: nat)
    requires one <= 1
    ensures (one + n) * m == (if one == 1 then m else 0) + n * m
  {
  }

  /** A cell has no more timings than slots. */
  lemma {:induction false} WallsWithinSlots(recs: seq<Record>, key: Key, cold: bool)
    ensures |Walls(OfCell(recs, key), cold)| <= CountSlots(SlotsOf(recs), key.step, cold)
  {
    if recs == [] {
    } else {
      var rest := recs[1..];
      WallsWithinSlots(rest, key, cold);
      assert SlotsOf(recs)[1..] == SlotsOf(rest) && SlotsOf(recs)[0] == SlotOf(recs[0]);
      var here := if KeyOf(recs[0]) == key then [recs[0]] else [];
      assert OfCell(recs, key) == here + OfCell(rest, key);
      WallsAppend(here, OfCell(rest, key), cold);
      assert |Walls(here, cold)| <= if key.step == recs[0].step && recs[0].cold == cold then 1 else 0 by {
        OneWall(recs[0], key, cold);
      }
    }
  }

  lemma OneWall(r: Record, key: Key, cold: bool)
    ensures |Walls(if KeyOf(r) == key then [r] else [], cold)| <= if key.step == r.step && r.cold == cold then 1 else 0
  {
    assert [r][1..] == [];
  }

  /** Workloads of one name are the same workload. */
  predicate NamesOneWorkload(wls: seq<Workload>, wl: Workload) {
    forall w | w in wls :: w.name == wl.name ==> w == wl
  }

  /** The timings one run of the workload can add to a cell. */
  function Share(wl: Workload, step: string, cold: bool): nat {
    Occurrences(wl.measured, step) * Runs(cold, wl.coldRuns, wl.warmRuns)
  }

  lemma WorkloadAddsShare(engine: string, wl: Workload, answers: seq<Answer>, pos: nat, key: Key, cold: bool)
    requires wl.name == key.workload
    ensures |Walls(OfCell(WorkloadRun(engine, wl, answers, pos).recs, key), cold)| <= Share(wl, key.step, cold)
  {
    hide WorkloadRun, Walls, OfCell, Slots, Runs;
    var recs := WorkloadRun(engine, wl, answers, pos).recs;
    WorkloadIsPrefix(engine, wl, answers, pos);
    WallsWithinSlots(recs, key, cold);
    CountSlotsPrefix(SlotsOf(recs), Schedule(wl), key.step, cold);
    CountSchedule(wl.measured, wl.coldRuns, wl.warmRuns, key.step, cold);
  }

  lemma OtherWorkloadAddsNothing(engine: string, wl: Workload, answers: seq<Answer>, pos: nat, key: Key, cold: bool)
    requires wl.name != key.workload
    ensures Walls(OfCell(WorkloadRun(engine, wl, answers, pos).recs, key), cold) == []
  {
    hide WorkloadRun;
    WorkloadIsPrefix(engine, wl, answers, pos);
    ForeignCell(WorkloadRun(engine, wl, answers, pos).recs, key);
  }

  /** However often a workload is named and a step occurs in it, and whatever the child's fate: a cell
      has at most as many cold timings as cold runs were asked for in all, and so for the warm ones. */
  lemma {:induction false} WallsAreBounded(
    engine: string, wls: seq<Workload>, answers: seq<Answer>, pos: nat, wl: Workload, key: Key, cold: bool)
    requires NamesOneWorkload(wls, wl) && wl.name == key.workload
    ensures |Walls(OfCell(WorkloadsRun(engine, wls, answers, pos).recs, key), cold)| <=
            Times(wls, key.workload) * Share(wl, key.step, cold)
    decreases |wls|
  {
    hide WorkloadRun, Walls, OfCell, Share;
    if wls == [] {
      NoWalls(key, cold);
    } else {
      var rest := wls[1..];
      var share := Share(wl, key.step, cold);
      assert NamesOneWorkload(rest, wl) && (wls[0].name == wl.name ==> wls[0] == wl);
      OneMore(if wls[0].name == key.workload then 1 else 0, Times(rest, key.workload), share);
      if !AppliesTo(wls[0], engine) {
        WallsAreBounded(engine, rest, answers, pos, wl, key, cold);
      } else {
        var first := WorkloadRun(engine, wls[0], answers, pos);
        var later := WorkloadsRun(engine, rest, answers, first.pos);
        WallsAreBounded(engine, rest, answers, first.pos, wl, key, cold);
        OfCellAppend(first.recs, later.recs, key);
        WallsAppend(OfCell(first.recs, key), OfCell(later.recs, key), cold);
        if wls[0] == wl {
          WorkloadAddsShare(engine, wl, answers, pos, key, cold);
        } else {
          OtherWorkloadAddsNothing(engine, wls[0], answers, pos, key, cold);
        }
      }
    }
  }

  lemma NoWalls(key: Key, cold: bool)
    ensures Walls(OfCell([], key), cold) == []
  {
  }

  /** Crash durability and conservation for every list of workloads. */
  lemma CrashedCellsBounded(engine: string, wls: seq<Workload>, answers: seq<Answer>, wl: Workload, key: Key)
    requires NamesOneWorkload(wls, wl) && wl.name == key.workload
    requires ChildRun(engine, wls, answers).log.Some?
    ensures var cell := OfCell(ChildRun(engine, wls, answers).log.value, key);
            var s := StatsOf(cell);
            && |s.cold| <= Times(wls, key.workload) * Share(wl, key.step, true)
            && |s.warm| <= Times(wls, key.workload) * Share(wl, key.step, false)
            && |s.cold| + |s.warm| + s.failures == |cell|
  {
    hide WorkloadsRun, CatalogRun, Walls, OfCell, Share, Failures, RowCounts, FirstSha;
    var log := ChildRun(engine, wls, answers).log.value;
    NoWalls(key, true);
    NoWalls(key, false);
    if log != [] {
      var pos := CatalogRun(engine, wls, answers, 3).pos;
      WallsAreBounded(engine, wls, answers, pos, wl, key, true);
      WallsAreBounded(engine, wls, answers, pos, wl, key, false);
    }
    StatsConserve(OfCell(log, key));
  }

  /** A workload named twice runs twice into one log: its cell has two cold timings for one cold run. */
  lemma TwiceNamedExample(wl: Workload, answer: Answer)
    requires wl == Workload("w", [], [], ["s"], [], 1, 0, None) && answer == Result(0, 5.0, None, None)
    ensures var recs := WorkloadsRun("e", [wl, wl], [answer, answer], 0).recs;
            && Walls(OfCell(recs, Key("w", "e", "s")), true) == [5.0, 5.0]
            && !(SlotsOf(OfCell(recs, Key("w", "e", "s"))) <= StepSlots("s", 1, 0))
  {
    var answers, key := [answer, answer], Key("w", "e", "s");
    var r := Record("w", "e", "s", 0, true, 0, 5.0, None, None);
    OneRun(wl, answer, 0);
    OneRun(wl, answer, 1);
    assert [wl, wl][1..] == [wl] && [wl][1..] == [];
    assert WorkloadsRun("e", [wl], answers, 1).recs == [r];
    var recs := WorkloadsRun("e", [wl, wl], answers, 0).recs;
    assert recs == [r, r];
    assert [r, r][1..] == [r] && [r][1..] == [];
    assert OfCell([r], key) == [r];
    assert OfCell(recs, key) == [r, r];
    assert Walls([r], true) == [5.0];
    assert |SlotsOf([r, r])| == 2 && |StepSlots("s", 1, 0)| == 1;
  }

  lemma OneRun(wl: Workload, answer: Answer, pos: nat)
    requires wl == Workload("w", [], [], ["s"], [], 1, 0, None) && answer == Result(0, 5.0, None, None) && pos < 2
    ensures WorkloadRun("e", wl, [answer, answer], pos) ==
            Stretch([Record("w", "e", "s", 0, true, 0, 5.0, None, None)], pos + 1, Finished)
  {
    var slots := Schedule(wl);
    assert ["s"][1..] == [];
    assert slots == [Slot("s", 0, true)];
    assert slots[1..] == [];
    assert MeasuredRun("e", "w", [], [answer, answer], pos + 1) == Stretch([], pos + 1, Finished);
  }
}
