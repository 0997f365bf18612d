/** The scale-out aggregator: which timings are kept, how they are counted, and the verdict. */
module ScaleOut {
  import opened Text
  import opened Percentiles

  // ----- one stream's log -------------------------------------------------------------------

  /** A line of a stream's log; absent `exit_code` and `cold` read as 0 and false. */
  datatype Record = Record(kind: Option<string>, query: string, exitCode: int, wall: real, cold: bool)

  /** A successful record of a measured query. */
  predicate Usable(r: Record, q: string) {
    (r.kind == None || r.kind == Some("sql_query")) && r.exitCode == 0 && r.query == q
  }

  /** Record `i` is the one whose timing is kept for `q`: the last successful warm one, or, when no
      warm one succeeded, the first successful cold one. */
  predicate IsKept(rs: seq<Record>, q: string, i: nat)
    requires i < |rs|
  {
    && Usable(rs[i], q)
    && (!rs[i].cold ==> forall k | i < k < |rs| :: Usable(rs[k], q) ==> rs[k].cold)
    && (rs[i].cold ==> forall k | 0 <= k < |rs| :: Usable(rs[k], q) ==> rs[k].cold && i <= k)
  }

  predicate AnyUsable(rs: seq<Record>, q: string) {
    exists i | 0 <= i < |rs| :: Usable(rs[i], q)
  }

  /** `load_query_timings` */
  method LoadQueryTimings(rs: seq<Record>) returns (timings: map<string, real>)
    ensures forall q :: q in timings <==> AnyUsable(rs, q)
    ensures forall q, i | 0 <= i < |rs| && IsKept(rs, q, i) :: q in timings && timings[q] == rs[i].wall
    ensures forall q | q in timings :: exists i | 0 <= i < |rs| :: IsKept(rs, q, i) && timings[q] == rs[i].wall
  {
    timings := map[];
    for n := 0 to |rs|
      invariant forall q :: q in timings <==> AnyUsable(rs[..n], q)
      invariant forall q | q in timings :: exists i | 0 <= i < n :: IsKept(rs[..n], q, i) && timings[q] == rs[i].wall
    {
      var rec := rs[n];
      ghost var before := timings;
      var q := rec.query;
      if (rec.kind == None || rec.kind == Some("sql_query")) && rec.exitCode == 0 {
        if q in timings {
          if !rec.cold {
            timings := timings[q := rec.wall];
          }
        } else {
          timings := timings[q := rec.wall];
        }
      }
      forall p | p in timings
        ensures exists i | 0 <= i < n + 1 :: IsKept(rs[..n + 1], p, i) && timings[p] == rs[i].wall
      {
        KeptStep(rs, n, p, before, timings);
      }
      forall p
        ensures p in timings <==> AnyUsable(rs[..n + 1], p)
      {
        SeenStep(rs, n, p, before, timings);
      }
    }
    assert rs[..|rs|] == rs;
    forall q, i | 0 <= i < |rs| && IsKept(rs, q, i)
      ensures q in timings && timings[q] == rs[i].wall
    {
      KeptIsUnique(rs, q, timings);
    }
  }

  /** What one record does to the timings. */
  predicate Loaded(rec: Record, before: map<string, real>, after: map<string, real>) {
    after == if Usable(rec, rec.query) && (rec.query !in before || !rec.cold) then before[rec.query := rec.wall] else before
  }

  lemma SeenStep(rs: seq<Record>, n: nat, p: string, before: map<string, real>, after: map<string, real>)
    requires n < |rs| && Loaded(rs[n], before, after)
    requires p in before <==> AnyUsable(rs[..n], p)
    ensures p in after <==> AnyUsable(rs[..n + 1], p)
  {
    var xs, ys := rs[..n], rs[..n + 1];
    assert ys[n] == rs[n];
    if p in before {
      var i :| 0 <= i < n && Usable(xs[i], p);
      assert Usable(ys[i], p);
    }
    if i :| 0 <= i < n + 1 && Usable(ys[i], p) {
      assert i < n ==> Usable(xs[i], p);
    }
  }

  lemma KeptStep(rs: seq<Record>, n: nat, p: string, before: map<string, real>, after: map<string, real>)
    requires n < |rs| && Loaded(rs[n], before, after) && p in after
    requires p in before <==> AnyUsable(rs[..n], p)
    requires p in before ==> exists i | 0 <= i < n :: IsKept(rs[..n], p, i) && before[p] == rs[i].wall
    ensures exists i | 0 <= i < n + 1 :: IsKept(rs[..n + 1], p, i) && after[p] == rs[i].wall
  {
    var xs, ys := rs[..n], rs[..n + 1];
    assert ys[n] == rs[n];
    assert forall k | 0 <= k < n :: ys[k] == xs[k];
    if Usable(rs[n], p) && (p !in before || !rs[n].cold) {
      assert IsKept(ys, p, n);
    } else {
      var i :| 0 <= i < n && IsKept(xs, p, i) && before[p] == rs[i].wall;
      assert IsKept(ys, p, i);
    }
  }

  lemma KeptIsUnique(rs: seq<Record>, q: string, timings: map<string, real>)
    requires q in timings <==> AnyUsable(rs, q)
    requires q in timings ==> exists i | 0 <= i < |rs| :: IsKept(rs, q, i) && timings[q] == rs[i].wall
    ensures forall i | 0 <= i < |rs| && IsKept(rs, q, i) :: q in timings && timings[q] == rs[i].wall
  {
    forall i | 0 <= i < |rs| && IsKept(rs, q, i)
      ensures q in timings && timings[q] == rs[i].wall
    {
      assert Usable(rs[i], q);
      var j :| 0 <= j < |rs| && IsKept(rs, q, j) && timings[q] == rs[j].wall;
      assert Usable(rs[j], q);
    }
  }

  // ----- collecting the streams -------------------------------------------------------------

  /** A stream directory: its concurrency level and, unless its log is missing, its timings. */
  datatype Stream = Stream(n: nat, timings: Option<map<string, real>>)

  /** Is the stream counted? */
  predicate Counts(levels: set<nat>, s: Stream) {
    s.n in levels && s.timings.Some? && s.timings.value != map[]
  }

  /** The samples of a query at a level, in the order of the stream directories. */
  function SamplesOf(levels: set<nat>, streams: seq<Stream>, q: string, n: nat): seq<real> {
    if streams == [] then []
    else
      var s := streams[|streams| - 1];
      SamplesOf(levels, streams[..|streams| - 1], q, n)
      + (if Counts(levels, s) && s.n == n && q in s.timings.value then [s.timings.value[q]] else [])
  }

  /** The streams counted at a level. */
  function SeenOf(levels: set<nat>, streams: seq<Stream>, n: nat): nat {
    if streams == [] then 0
    else
      var s := streams[|streams| - 1];
      SeenOf(levels, streams[..|streams| - 1], n) + (if Counts(levels, s) && s.n == n then 1 else 0)
  }

  function Get<K, V>(m: map<K, V>, k: K, default: V): V {
    if k in m then m[k] else default
  }

  type Samples = map<(string, nat), seq<real>>

  /** One stream's timings, each added to the samples of its query. */
  method AddSamples(samples: Samples, level: nat, timings: map<string, real>) returns (after: Samples)
    requires forall key | key in samples :: samples[key] != []
    ensures forall q, n :: Get(after, (q, n), []) ==
                           Get(samples, (q, n), []) + (if n == level && q in timings then [timings[q]] else [])
    ensures forall key | key in after :: after[key] != []
  {
    after := samples;
    var todo := timings.Keys;
    while todo != {}
      invariant todo <= timings.Keys
      invariant forall q, n ::
        (Get(after, (q, n), []) ==
         Get(samples, (q, n), []) + (if n == level && q in timings && q !in todo then [timings[q]] else []))
      invariant forall key | key in after :: after[key] != []
      decreases |todo|
    {
      var q :| q in todo;
      after := after[(q, level) := Get(after, (q, level), []) + [timings[q]]];
      todo := todo - {q};
    }
  }

  /** The loop of `main` over the stream directories. */
  method CollectStreams(levels: set<nat>, streams: seq<Stream>) returns (samples: Samples, seen: map<nat, nat>)
    ensures forall q, n :: Get(samples, (q, n), []) == SamplesOf(levels, streams, q, n)
    ensures forall n :: Get(seen, n, 0) == SeenOf(levels, streams, n)
    ensures forall key | key in samples :: samples[key] != []
  {
    samples, seen := map[], map[];
    for k := 0 to |streams|
      invariant forall q, n :: Get(samples, (q, n), []) == SamplesOf(levels, streams[..k], q, n)
      invariant forall n :: Get(seen, n, 0) == SeenOf(levels, streams[..k], n)
      invariant forall key | key in samples :: samples[key] != []
    {
      var s := streams[k];
      assert streams[..k + 1][..k] == streams[..k];
      if s.n in levels && s.timings.Some? && s.timings.value != map[] {
        seen := seen[s.n := Get(seen, s.n, 0) + 1];
        samples := AddSamples(samples, s.n, s.timings.value);
      }
    }
    assert streams[..|streams|] == streams;
  }

  /** The samples of a query never exceed the streams counted, and these never exceed the
      directories of the level. */
  lemma {:induction false} SamplesWithinStreams(levels: set<nat>, streams: seq<Stream>, q: string, n: nat)
    ensures |SamplesOf(levels, streams, q, n)| <= SeenOf(levels, streams, n) <= |DirectoriesOf(streams, n)|
  {
    if streams == [] {
    } else {
      SamplesWithinStreams(levels, streams[..|streams| - 1], q, n);
    }
  }

  function DirectoriesOf(streams: seq<Stream>, n: nat): seq<Stream> {
    if streams == [] then []
    else
      var s := streams[|streams| - 1];
      DirectoriesOf(streams[..|streams| - 1], n) + (if s.n == n then [s] else [])
  }

  // ----- the rows ---------------------------------------------------------------------------

  const FLATNESS_THRESHOLD: real := 1.10

  /** `round(x, d)` for `scale` = 10^d: the nearest multiple, and the even one of two. */
  function Round(x: real, scale: nat): real
    requires scale > 0
  {
    Nearest(x * scale as real) as real / scale as real
  }

  function Nearest(y: real): int {
    var f := y.Floor;
    var d := y - f as real;
    if d < 0.5 || (d == 0.5 && f % 2 == 0) then f else f + 1
  }

  datatype Row = Row(
    query: string, n: nat, samples: nat, attempted: nat, completion: real,
    p50: Option<real>, p95: Option<real>, base: Option<real>, ratio: Option<real>, flat: Option<bool>)

  function Rounded(x: Option<real>, scale: nat): Option<real>
    requires scale > 0
  {
    if x.Some? then Some(Round(x.value, scale)) else None
  }

  /** The ratio of the medians before rounding; NaN when there is no usable baseline. */
  function TrueRatio(samples: Samples, q: string, n: nat): Option<real> {
    var p50 := ScaleOutPercentile(Get(samples, (q, n), []), 50.0);
    var base := ScaleOutPercentile(Get(samples, (q, 1), []), 50.0);
    if p50.Some? && base.Some? && base.value > 0.0 then Some(p50.value / base.value) else None
  }

  function RowFor(samples: Samples, expected: map<nat, nat>, q: string, n: nat): Row
    requires n in expected
  {
    var vals := Get(samples, (q, n), []);
    var attempted := expected[n];
    var ratio := TrueRatio(samples, q, n);
    Row(q, n, |vals|, attempted,
        Round(if attempted > 0 then |vals| as real / attempted as real else 0.0, 1000),
        Rounded(ScaleOutPercentile(vals, 50.0), 100),
        Rounded(ScaleOutPercentile(vals, 95.0), 100),
        Rounded(ScaleOutPercentile(Get(samples, (q, 1), []), 50.0), 100),
        Rounded(ratio, 1000),
        if ratio.Some? then Some(ratio.value <= FLATNESS_THRESHOLD) else None)
  }

  function RowsFor(samples: Samples, expected: map<nat, nat>, q: string, ns: seq<nat>): seq<Row>
    requires forall n | n in ns :: n in expected
  {
    seq(|ns|, j requires 0 <= j < |ns| => RowFor(samples, expected, q, ns[j]))
  }

  function AllRows(samples: Samples, expected: map<nat, nat>, qs: seq<string>, ns: seq<nat>): seq<Row>
    requires forall n | n in ns :: n in expected
  {
    if qs == [] then []
    else AllRows(samples, expected, qs[..|qs| - 1], ns) + RowsFor(samples, expected, qs[|qs| - 1], ns)
  }

  /** The place of the row for the `i`th query and the `j`th level. */
  function Place(i: nat, j: nat, levels: nat): nat {
    i * levels + j
  }

  lemma PlaceBound(i: nat, j: nat, k: nat, levels: nat)
    requires i < k && j < levels
    ensures Place(i, j, levels) < k * levels
  {
    assert (i + 1) * levels <= k * levels;
  }

  lemma {:induction false} AllRowsLength(samples: Samples, expected: map<nat, nat>, qs: seq<string>, ns: seq<nat>)
    requires forall n | n in ns :: n in expected
    ensures |AllRows(samples, expected, qs, ns)| == |qs| * |ns|
  {
    hide RowFor;
    if qs == [] {
    } else {
      AllRowsLength(samples, expected, qs[..|qs| - 1], ns);
      assert |qs| * |ns| == (|qs| - 1) * |ns| + |ns|;
    }
  }

  lemma {:induction false} RowAt(
    samples: Samples, expected: map<nat, nat>, qs: seq<string>, ns: seq<nat>, i: nat, j: nat)
    requires (forall n | n in ns :: n in expected) && i < |qs| && j < |ns|
    ensures Place(i, j, |ns|) < |AllRows(samples, expected, qs, ns)|
    ensures AllRows(samples, expected, qs, ns)[Place(i, j, |ns|)] == RowFor(samples, expected, qs[i], ns[j])
  {
    hide RowFor;
    var k := |qs| - 1;
    var init := AllRows(samples, expected, qs[..k], ns);
    AllRowsLength(samples, expected, qs[..k], ns);
    if i < k {
      PlaceBound(i, j, k, |ns|);
      RowAt(samples, expected, qs[..k], ns, i, j);
      assert qs[..k][i] == qs[i];
    } else {
      assert Place(i, j, |ns|) == |init| + j;
    }
  }

  /** There is one row for every query and level, query by query, and no other. */
  lemma AllRowsAre(samples: Samples, expected: map<nat, nat>, qs: seq<string>, ns: seq<nat>)
    requires forall n | n in ns :: n in expected
    ensures |AllRows(samples, expected, qs, ns)| == |qs| * |ns|
    ensures forall i, j | 0 <= i < |qs| && 0 <= j < |ns| ::
              Place(i, j, |ns|) < |qs| * |ns|
              && AllRows(samples, expected, qs, ns)[Place(i, j, |ns|)] == RowFor(samples, expected, qs[i], ns[j])
  {
    hide RowFor, AllRows, Place;
    AllRowsLength(samples, expected, qs, ns);
    forall i, j | 0 <= i < |qs| && 0 <= j < |ns|
      ensures Place(i, j, |ns|) < |qs| * |ns|
      ensures AllRows(samples, expected, qs, ns)[Place(i, j, |ns|)] == RowFor(samples, expected, qs[i], ns[j])
    {
      RowAt(samples, expected, qs, ns, i, j);
    }
  }

  lemma HasMedian(values: seq<real>)
    requires values != []
    ensures ScaleOutPercentile(values, 50.0).Some?
  {
    PercentilesAgree(values, 50.0);
    ReportIsAt(values, 50.0);
  }

  lemma NoMedian()
    ensures ScaleOutPercentile([], 50.0).None?
  {
  }

  /** `aggregate`, with the query ids and the levels in sorted order: a row for every combination. */
  method Aggregate(samples: Samples, expected: map<nat, nat>, qs: seq<string>, ns: seq<nat>) returns (rows: seq<Row>)
    requires forall n | n in ns :: n in expected
    ensures rows == AllRows(samples, expected, qs, ns)
    ensures |rows| == |qs| * |ns|
    ensures forall i, j | 0 <= i < |qs| && 0 <= j < |ns| ::
              Place(i, j, |ns|) < |rows| && rows[Place(i, j, |ns|)] == RowFor(samples, expected, qs[i], ns[j])
  {
    hide Round, Sorted, Place, ScaleOutPercentile;
    NoMedian();
    var baseline: map<string, real> := map[];
    for i := 0 to |qs|
      invariant forall q | q in baseline ::
        ScaleOutPercentile(Get(samples, (q, 1), []), 50.0) == Some(baseline[q])
      invariant forall k | 0 <= k < i :: qs[k] !in baseline ==> Get(samples, (qs[k], 1), []) == []
    {
      var vals := Get(samples, (qs[i], 1), []);
      if vals != [] {
        HasMedian(vals);
        baseline := baseline[qs[i] := ScaleOutPercentile(vals, 50.0).value];
      }
    }
    rows := [];
    for i := 0 to |qs|
      invariant rows == AllRows(samples, expected, qs[..i], ns)
    {
      var q := qs[i];
      ghost var before := rows;
      for j := 0 to |ns|
        invariant rows == before + RowsFor(samples, expected, q, ns)[..j]
      {
        var n := ns[j];
        var vals := Get(samples, (q, n), []);
        var attempted := expected[n];
        var completion := if attempted > 0 then |vals| as real / attempted as real else 0.0;
        var p50, p95 := ScaleOutPercentile(vals, 50.0), ScaleOutPercentile(vals, 95.0);
        var base := if q in baseline then Some(baseline[q]) else None;
        var ratio: Option<real> := None;
        if p50.Some? && base.Some? && base.value > 0.0 {
          ratio := Some(p50.value / base.value);
        }
        var row := Row(q, n, |vals|, attempted, Round(completion, 1000), Rounded(p50, 100), Rounded(p95, 100),
                       Rounded(base, 100), Rounded(ratio, 1000),
                       if ratio.Some? then Some(ratio.value <= FLATNESS_THRESHOLD) else None);
        assert row == RowFor(samples, expected, q, n);
        rows := rows + [row];
      }
      assert qs[..i + 1][..i] == qs[..i];
      assert RowsFor(samples, expected, q, ns)[..|ns|] == RowsFor(samples, expected, q, ns);
    }
    assert qs[..|qs|] == qs;
    AllRowsAre(samples, expected, qs, ns);
  }

  // ----- the counts -------------------------------------------------------------------------

  predicate IsFull(r: Row) { r.attempted > 0 && r.samples == r.attempted }

  predicate IsPartial(r: Row) { 0 < r.samples < r.attempted }

  predicate IsNone(r: Row) { r.samples == 0 }

  function Count(p: Row -> bool, rows: seq<Row>): nat {
    if rows == [] then 0 else (if p(rows[0]) then 1 else 0) + Count(p, rows[1..])
  }

  /** Full, partial and none never overlap, and they make up the total exactly when no row has more
      samples than streams attempted. */
  lemma {:induction false} CountsAddUpIff(rows: seq<Row>)
    ensures Count(IsFull, rows) + Count(IsPartial, rows) + Count(IsNone, rows) <= |rows|
    ensures Count(IsFull, rows) + Count(IsPartial, rows) + Count(IsNone, rows) == |rows| <==>
            forall r | r in rows :: r.samples <= r.attempted
  {
    if rows == [] {
    } else {
      CountsAddUpIff(rows[1..]);
      assert rows == [rows[0]] + rows[1..];
    }
  }

  /** A row of the aggregate of collected streams stays within its streams when there are no more
      directories for its level than the level says. */
  lemma RowWithinStreams(
    levels: set<nat>, streams: seq<Stream>, samples: Samples, expected: map<nat, nat>, q: string, n: nat)
    requires forall q, n :: Get(samples, (q, n), []) == SamplesOf(levels, streams, q, n)
    requires n in expected && expected[n] == n && |DirectoriesOf(streams, n)| <= n
    ensures RowFor(samples, expected, q, n).samples <= RowFor(samples, expected, q, n).attempted
  {
    SamplesWithinStreams(levels, streams, q, n);
  }

  /** The rows of one level, in order. */
  function RowsAt(rows: seq<Row>, n: nat): seq<Row> {
    if rows == [] then []
    else RowsAt(rows[..|rows| - 1], n) + (if rows[|rows| - 1].n == n then [rows[|rows| - 1]] else [])
  }

  lemma {:induction false} RowsAtAppend(a: seq<Row>, b: seq<Row>, n: nat)
    ensures RowsAt(a + b, n) == RowsAt(a, n) + RowsAt(b, n)
  {
    if b == [] {
      assert a + b == a;
    } else {
      var k := |b| - 1;
      RowsAtAppend(a, b[..k], n);
      assert (a + b)[..|a + b| - 1] == a + b[..k];
    }
  }

  predicate DistinctLevels(ns: seq<nat>) {
    forall i, j | 0 <= i < j < |ns| :: ns[i] != ns[j]
  }

  lemma RowIsOf(samples: Samples, expected: map<nat, nat>, q: string, n: nat)
    requires n in expected
    ensures RowFor(samples, expected, q, n).n == n && RowFor(samples, expected, q, n).attempted == expected[n]
    ensures RowFor(samples, expected, q, n).samples == |Get(samples, (q, n), [])|
  {
  }

  lemma RowsForSnoc(samples: Samples, expected: map<nat, nat>, q: string, ns: seq<nat>)
    requires (forall m | m in ns :: m in expected) && ns != []
    ensures RowsFor(samples, expected, q, ns) ==
            RowsFor(samples, expected, q, ns[..|ns| - 1]) + [RowFor(samples, expected, q, ns[|ns| - 1])]
  {
    hide RowFor;
  }

  lemma RowsAtSnoc(rows: seq<Row>, r: Row, n: nat)
    ensures RowsAt(rows + [r], n) == RowsAt(rows, n) + (if r.n == n then [r] else [])
  {
    assert (rows + [r])[..|rows|] == rows;
  }

  lemma {:induction false} RowsOfQueryAt(samples: Samples, expected: map<nat, nat>, q: string, ns: seq<nat>, n: nat)
    requires (forall m | m in ns :: m in expected) && DistinctLevels(ns) && n in expected
    ensures RowsAt(RowsFor(samples, expected, q, ns), n) ==
            if n in ns then [RowFor(samples, expected, q, n)] else []
  {
    hide RowFor, RowsAt;
    if ns == [] {
      assert RowsFor(samples, expected, q, ns) == [];
      NoRowsAt(n);
    } else {
      var k := |ns| - 1;
      var init := ns[..k];
      RowIsOf(samples, expected, q, ns[k]);
      RowsOfQueryAt(samples, expected, q, init, n);
      RowsForSnoc(samples, expected, q, ns);
      hide RowsFor;
      RowsAtSnoc(RowsFor(samples, expected, q, init), RowFor(samples, expected, q, ns[k]), n);
      assert ns == init + [ns[k]] && ns[k] !in init;
    }
  }

  /** One row for each query, in the queries' order. */
  function RowsOfLevel(samples: Samples, expected: map<nat, nat>, qs: seq<string>, n: nat): seq<Row>
    requires n in expected
  {
    if qs == [] then []
    else RowsOfLevel(samples, expected, qs[..|qs| - 1], n) + [RowFor(samples, expected, qs[|qs| - 1], n)]
  }

  lemma {:induction false} RowOfLevel(samples: Samples, expected: map<nat, nat>, qs: seq<string>, n: nat, i: nat)
    requires n in expected && i < |qs|
    ensures |RowsOfLevel(samples, expected, qs, n)| == |qs|
    ensures RowsOfLevel(samples, expected, qs, n)[i] == RowFor(samples, expected, qs[i], n)
  {
    hide RowFor;
    if |qs| == 1 {
    } else if i < |qs| - 1 {
      RowOfLevel(samples, expected, qs[..|qs| - 1], n, i);
    } else {
      RowOfLevel(samples, expected, qs[..|qs| - 1], n, 0);
    }
  }

  /** At each level there is exactly one row for each query. */
  lemma {:induction false} LevelRows(samples: Samples, expected: map<nat, nat>, qs: seq<string>, ns: seq<nat>, n: nat)
    requires (forall m | m in ns :: m in expected) && DistinctLevels(ns) && n in ns
    ensures RowsAt(AllRows(samples, expected, qs, ns), n) == RowsOfLevel(samples, expected, qs, n)
  {
    hide RowFor, RowsFor, RowsAt, DistinctLevels;
    if qs == [] {
      NoRowsAt(n);
    } else {
      var k := |qs| - 1;
      LevelRows(samples, expected, qs[..k], ns, n);
      RowsAtAppend(AllRows(samples, expected, qs[..k], ns), RowsFor(samples, expected, qs[k], ns), n);
      RowsOfQueryAt(samples, expected, qs[k], ns, n);
    }
  }

  lemma NoRowsAt(n: nat)
    ensures RowsAt([], n) == []
  {
  }

  function CountedRows(rows: seq<Row>): nat {
    Count(IsFull, rows) + Count(IsPartial, rows) + Count(IsNone, rows)
  }

  /** The accounting of one level: full, partial and none make up the query total exactly when no
      query has more samples there than streams were attempted. */
  lemma LevelAddsUpIff(samples: Samples, expected: map<nat, nat>, qs: seq<string>, ns: seq<nat>, n: nat)
    requires (forall m | m in ns :: m in expected) && DistinctLevels(ns) && n in ns
    ensures |RowsAt(AllRows(samples, expected, qs, ns), n)| == |qs|
    ensures CountedRows(RowsAt(AllRows(samples, expected, qs, ns), n)) == |qs| <==>
            forall q | q in qs :: |Get(samples, (q, n), [])| <= expected[n]
  {
    hide RowFor, AllRows, RowsOfLevel, RowsAt, Count, DistinctLevels, IsFull, IsPartial, IsNone;
    var rows := RowsOfLevel(samples, expected, qs, n);
    LevelRows(samples, expected, qs, ns, n);
    CountsAddUpIff(rows);
    LevelLength(samples, expected, qs, n);
    forall i | 0 <= i < |qs|
      ensures |rows| == |qs| && rows[i].samples == |Get(samples, (qs[i], n), [])| && rows[i].attempted == expected[n]
    {
      RowOfLevel(samples, expected, qs, n, i);
      RowIsOf(samples, expected, qs[i], n);
    }
    if forall r | r in rows :: r.samples <= r.attempted {
      forall q | q in qs ensures |Get(samples, (q, n), [])| <= expected[n] {
        var i :| 0 <= i < |qs| && qs[i] == q;
        assert rows[i] in rows;
      }
    }
  }

  lemma LevelLength(samples: Samples, expected: map<nat, nat>, qs: seq<string>, n: nat)
    requires n in expected
    ensures |RowsOfLevel(samples, expected, qs, n)| == |qs|
  {
    if qs == [] {
    } else {
      RowOfLevel(samples, expected, qs, n, 0);
    }
  }

  /** For collected streams: given at most `n` stream directories for a level of `n` streams, full,
      partial and none are the query total. */
  lemma CollectedLevelAddsUp(
    levels: set<nat>, streams: seq<Stream>, samples: Samples, expected: map<nat, nat>,
    qs: seq<string>, ns: seq<nat>, n: nat)
    requires forall q, m :: Get(samples, (q, m), []) == SamplesOf(levels, streams, q, m)
    requires (forall m | m in ns :: m in expected) && DistinctLevels(ns) && n in ns
    requires expected[n] == n && |DirectoriesOf(streams, n)| <= n
    ensures CountedRows(RowsAt(AllRows(samples, expected, qs, ns), n)) == |qs|
  {
    forall q | q in qs ensures |Get(samples, (q, n), [])| <= expected[n] {
      SamplesWithinStreams(levels, streams, q, n);
    }
    LevelAddsUpIff(samples, expected, qs, ns, n);
  }

  // ----- the verdict ------------------------------------------------------------------------

  lemma NearestIs(y: real, m: int)
    ensures Nearest(y) > m <==> y > m as real + 0.5 || (y == m as real + 0.5 && m % 2 == 1)
  {
  }

  /** Rounded to three places, a ratio exceeds 1.10 exactly when it exceeds 1.1005. */
  lemma RoundedAboveThreshold(x: real)
    ensures Round(x, 1000) > FLATNESS_THRESHOLD <==> x > 1.1005
  {
    NearestIs(x * 1000.0, 1100);
  }

  lemma RoundFixesOne()
    ensures Round(1.0, 1000) == 1.0
  {
  }

  /** Every ratable row at N = 1 has ratio 1 and is flat. */
  lemma BaselineIsFlat(samples: Samples, expected: map<nat, nat>, q: string)
    requires 1 in expected && TrueRatio(samples, q, 1).Some?
    ensures TrueRatio(samples, q, 1) == Some(1.0)
    ensures RowFor(samples, expected, q, 1).ratio == Some(1.0)
    ensures RowFor(samples, expected, q, 1).flat == Some(true)
  {
    RoundFixesOne();
    SelfRatio(ScaleOutPercentile(Get(samples, (q, 1), []), 50.0).value);
  }

  lemma SelfRatio(x: real)
    requires x > 0.0
    ensures x / x == 1.0
  {
  }

  /** The untruncated list of offenders. */
  predicate IsOffender(r: Row) {
    r.n > 1 && r.ratio.Some? && r.ratio.value > FLATNESS_THRESHOLD
  }

  /** Which rows are listed as offenders: at N > 1 those whose true ratio exceeds 1.1005. So every
      offender is truly not flat, and a row that is not flat is missing from the list exactly when
      its true ratio is at most 1.1005. */
  lemma OffendersAre(samples: Samples, expected: map<nat, nat>, q: string, n: nat)
    requires n in expected
    ensures var r := RowFor(samples, expected, q, n);
            IsOffender(r) <==> n > 1 && TrueRatio(samples, q, n).Some? && TrueRatio(samples, q, n).value > 1.1005
    ensures IsOffender(RowFor(samples, expected, q, n)) ==> RowFor(samples, expected, q, n).flat == Some(false)
    ensures n > 1 && RowFor(samples, expected, q, n).flat == Some(false) && !IsOffender(RowFor(samples, expected, q, n)) <==>
            n > 1 && TrueRatio(samples, q, n).Some? && 1.10 < TrueRatio(samples, q, n).value <= 1.1005
  {
    var ratio := TrueRatio(samples, q, n);
    if ratio.Some? {
      RoundedAboveThreshold(ratio.value);
    }
  }

  /** The offenders' section is empty exactly when every rated row at N > 1 is within 1.1005. */
  lemma {:induction false} NoOffendersIff(samples: Samples, expected: map<nat, nat>, qs: seq<string>, ns: seq<nat>)
    requires forall n | n in ns :: n in expected
    ensures (forall r | r in AllRows(samples, expected, qs, ns) :: !IsOffender(r)) <==>
            forall q, n | q in qs && n in ns && n > 1 && TrueRatio(samples, q, n).Some? ::
              TrueRatio(samples, q, n).value <= 1.1005
  {
    hide RowFor, IsOffender, TrueRatio;
    if qs == [] {
    } else {
      var init, q := qs[..|qs| - 1], qs[|qs| - 1];
      NoOffendersIff(samples, expected, init, ns);
      var rows := RowsFor(samples, expected, q, ns);
      forall j | 0 <= j < |ns|
        ensures IsOffender(rows[j]) <==>
                ns[j] > 1 && TrueRatio(samples, q, ns[j]).Some? && TrueRatio(samples, q, ns[j]).value > 1.1005
      {
        OffendersAre(samples, expected, q, ns[j]);
      }
      assert qs == init + [q];
      assert forall p | p in qs :: p in init || p == q;
      assert (forall r | r in rows :: !IsOffender(r)) <==> forall j | 0 <= j < |ns| :: !IsOffender(rows[j]);
    }
  }

  lemma OneSampleIs(x: real)
    ensures ScaleOutPercentile([x], 50.0) == Some(x)
  {
  }

  /** A query that is not flat, and that the report still does not list. */
  lemma NotFlatNotListed(samples: Samples, expected: map<nat, nat>)
    requires samples == map[("q", 1) := [10000.0], ("q", 2) := [11004.0]] && expected == map[1 := 1, 2 := 2]
    ensures TrueRatio(samples, "q", 2) == Some(1.1004)
    ensures RowFor(samples, expected, "q", 2).flat == Some(false)
    ensures !IsOffender(RowFor(samples, expected, "q", 2))
  {
    hide ScaleOutPercentile;
    OneSampleIs(10000.0);
    OneSampleIs(11004.0);
    assert Get(samples, ("q", 2), []) == [11004.0] && Get(samples, ("q", 1), []) == [10000.0];
    assert 11004.0 / 10000.0 == 1.1004;
    OffendersAre(samples, expected, "q", 2);
  }
}
