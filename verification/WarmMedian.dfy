/** The summary of a driver's iterations: warm-up and failed iterations are set aside, and of the
    rest each phase reports its median. */
module WarmMedian {
  import opened Text
  import opened Bags
  import opened Sorting
  import opened Percentiles
  import opened CallLog
  import opened DriverPaths

  /** The iterations after the first `warmup` that did not fail; `from` is the place of the first. */
  function Measured(iters: seq<Timings>, warmup: int): seq<Timings> {
    if iters == [] then []
    else
      var n := |iters| - 1;
      Measured(iters[..n], warmup)
      + (if n < warmup || iters[n].error != Nothing then [] else [iters[n]])
  }

  function Failures(iters: seq<Timings>, warmup: int): nat {
    if iters == [] then 0
    else
      var n := |iters| - 1;
      Failures(iters[..n], warmup) + (if n < warmup || iters[n].error == Nothing then 0 else 1)
  }

  datatype Phase = OfConnect | OfPrepare | OfExecute | OfBind | OfDrain | OfRelease | OfTotal

  function Time(p: Phase, t: Timings): real {
    match p
    case OfConnect => t.connect
    case OfPrepare => t.prepare
    case OfExecute => t.execute
    case OfBind => t.bind
    case OfDrain => t.drain
    case OfRelease => t.release
    case OfTotal => t.total
  }

  function TimeOf(p: Phase): Timings -> real {
    t => Time(p, t)
  }

  function Column(p: Phase, ts: seq<Timings>): seq<real> {
    Map(TimeOf(p), ts)
  }

  /** The medians of the measured iterations; rows and columns are those of the first. */
  function Summary(ts: seq<Timings>): Timings {
    Timings(
      Nothing,
      if ts == [] then 0 else ts[0].columns,
      if ts == [] then 0 else ts[0].rows,
      Median(Column(OfConnect, ts)), Median(Column(OfPrepare, ts)), Median(Column(OfExecute, ts)),
      Median(Column(OfBind, ts)), Median(Column(OfDrain, ts)), Median(Column(OfRelease, ts)),
      Median(Column(OfTotal, ts)))
  }

  function RowsOf(t: Timings): int { t.rows }

  function ColumnsOf(t: Timings): int { t.columns }

  lemma ColumnSnoc(p: Phase, ts: seq<Timings>, t: Timings)
    ensures Column(p, ts + [t]) == Column(p, ts) + [Time(p, t)]
  {
    MapSnoc(TimeOf(p), ts, t);
  }

  lemma FirstOf(ts: seq<Timings>)
    ensures |Map(RowsOf, ts)| == |Map(ColumnsOf, ts)| == |ts|
    ensures ts != [] ==> Map(RowsOf, ts)[0] == ts[0].rows && Map(ColumnsOf, ts)[0] == ts[0].columns
  {
    if ts != [] {
      MapAt(RowsOf, ts, 0);
      MapAt(ColumnsOf, ts, 0);
    }
  }

  lemma MeasuredSnoc(iters: seq<Timings>, i: nat, warmup: int)
    requires i < |iters|
    ensures Measured(iters[..i + 1], warmup)
         == if i < warmup || iters[i].error != Nothing then Measured(iters[..i], warmup)
            else Measured(iters[..i], warmup) + [iters[i]]
    ensures Failures(iters[..i + 1], warmup)
         == Failures(iters[..i], warmup) + (if i < warmup || iters[i].error == Nothing then 0 else 1)
  {
    assert iters[..i + 1][..i] == iters[..i];
  }

  lemma NoColumns(iters: seq<Timings>, warmup: int)
    ensures Measured(iters[..0], warmup) == [] && Failures(iters[..0], warmup) == 0
    ensures forall p :: Column(p, []) == []
    ensures Map(RowsOf, []) == Map(ColumnsOf, []) == []
  {
  }

  lemma Columns(ts: seq<Timings>, t: Timings)
    ensures Column(OfConnect, ts + [t]) == Column(OfConnect, ts) + [t.connect]
    ensures Column(OfPrepare, ts + [t]) == Column(OfPrepare, ts) + [t.prepare]
    ensures Column(OfExecute, ts + [t]) == Column(OfExecute, ts) + [t.execute]
    ensures Column(OfBind, ts + [t]) == Column(OfBind, ts) + [t.bind]
    ensures Column(OfDrain, ts + [t]) == Column(OfDrain, ts) + [t.drain]
    ensures Column(OfRelease, ts + [t]) == Column(OfRelease, ts) + [t.release]
    ensures Column(OfTotal, ts + [t]) == Column(OfTotal, ts) + [t.total]
    ensures Map(RowsOf, ts + [t]) == Map(RowsOf, ts) + [t.rows]
    ensures Map(ColumnsOf, ts + [t]) == Map(ColumnsOf, ts) + [t.columns]
  {
    hide Column, Map;
    ColumnSnoc(OfConnect, ts, t);
    ColumnSnoc(OfPrepare, ts, t);
    ColumnSnoc(OfExecute, ts, t);
    ColumnSnoc(OfBind, ts, t);
    ColumnSnoc(OfDrain, ts, t);
    ColumnSnoc(OfRelease, ts, t);
    ColumnSnoc(OfTotal, ts, t);
    MapSnoc(RowsOf, ts, t);
    MapSnoc(ColumnsOf, ts, t);
  }

  class DriverResult {
    const iters: seq<Timings>
    var warmupCount: int
    var measuredCount: nat
    var errorCount: nat
    var warmMedian: Timings

    constructor (iters: seq<Timings>)
      ensures this.iters == iters
    {
      this.iters := iters;
      warmupCount, measuredCount, errorCount := 0, 0, 0;
      warmMedian := NO_TIMINGS;
    }

    /** `compute_warm_median` */
    method ComputeWarmMedian(warmup: int)
      modifies this
      ensures warmupCount == warmup
      ensures measuredCount == |Measured(iters, warmup)| && errorCount == Failures(iters, warmup)
      ensures warmMedian == Summary(Measured(iters, warmup))
    {
      hide Time, Median, Column, Map, Measured, Failures;
      var connects, prepares, executes, binds := [], [], [], [];
      var drains, releases, totals := [], [], [];
      var rows, cols := [], [];
      warmupCount, measuredCount, errorCount := warmup, 0, 0;
      NoColumns(iters, warmup);
      for i := 0 to |iters|
        invariant warmupCount == warmup
        invariant measuredCount == |Measured(iters[..i], warmup)| && errorCount == Failures(iters[..i], warmup)
        invariant connects == Column(OfConnect, Measured(iters[..i], warmup))
        invariant prepares == Column(OfPrepare, Measured(iters[..i], warmup))
        invariant executes == Column(OfExecute, Measured(iters[..i], warmup))
        invariant binds == Column(OfBind, Measured(iters[..i], warmup))
        invariant drains == Column(OfDrain, Measured(iters[..i], warmup))
        invariant releases == Column(OfRelease, Measured(iters[..i], warmup))
        invariant totals == Column(OfTotal, Measured(iters[..i], warmup))
        invariant rows == Map(RowsOf, Measured(iters[..i], warmup))
        invariant cols == Map(ColumnsOf, Measured(iters[..i], warmup))
      {
        var it := iters[i];
        MeasuredSnoc(iters, i, warmup);
        if i < warmup { continue; }
        if it.error != Nothing {
          errorCount := errorCount + 1;
          continue;
        }
        Columns(Measured(iters[..i], warmup), it);
        measuredCount := measuredCount + 1;
        connects := connects + [it.connect];
        prepares := prepares + [it.prepare];
        executes := executes + [it.execute];
        binds := binds + [it.bind];
        drains := drains + [it.drain];
        releases := releases + [it.release];
        totals := totals + [it.total];
        rows := rows + [it.rows];
        cols := cols + [it.columns];
      }
      assert iters[..|iters|] == iters;
      FirstOf(Measured(iters, warmup));
      warmMedian := Timings(
        Nothing,
        if cols == [] then 0 else cols[0],
        if rows == [] then 0 else rows[0],
        Median(connects), Median(prepares), Median(executes),
        Median(binds), Median(drains), Median(releases), Median(totals));
    }
  }

  /** No iteration is lost: each is a warm-up, a measurement or a failure. */
  lemma {:induction false} IterationsAddUp(iters: seq<Timings>, warmup: int)
    ensures (if warmup < 0 then 0 else if warmup > |iters| then |iters| else warmup)
            + |Measured(iters, warmup)| + Failures(iters, warmup) == |iters|
  {
    if iters == [] {
    } else {
      IterationsAddUp(iters[..|iters| - 1], warmup);
    }
  }

  /** The medians do not depend on the order of the measured iterations. */
  lemma OrderDoesNotMatter(ts: seq<Timings>, us: seq<Timings>, p: Phase)
    requires multiset(ts) == multiset(us)
    ensures Median(Column(p, ts)) == Median(Column(p, us))
  {
    MapMultiset(TimeOf(p), ts, us);
    SortIsCanonical(RealLe, Column(p, ts), Column(p, us));
  }

  /** If every measured iteration gets slower in a phase, the median of the phase does not drop. */
  lemma SlowerIterationsSlowerMedian(ts: seq<Timings>, us: seq<Timings>, p: Phase)
    requires |ts| == |us| && forall i | 0 <= i < |ts| :: Time(p, ts[i]) <= Time(p, us[i])
    ensures Median(Column(p, ts)) <= Median(Column(p, us))
  {
    hide Median;
    if ts == [] {
      assert Column(p, ts) == Column(p, us);
    } else {
      SlowerSamplesSlowerPercentile(Column(p, ts), Column(p, us), 50.0);
      MedianIsFiftieth(Column(p, ts));
      MedianIsFiftieth(Column(p, us));
    }
  }
}
