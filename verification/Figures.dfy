/** The figures of the reports and the generated texts, spelt out: percentiles and medians by the
    places of ascending samples, rounding by distance, rows, edges and escapes by their fields. */
module Figures {
  import opened Text
  import opened Sorting
  import opened Percentiles
  import Bags
  import ScaleOut
  import Graph
  import LoggedRuns
  import opened CallLog
  import opened DriverPaths
  import WarmMedian
  import CrossCheck
  import JsonEsc
  import SplitLaws
  import Utf8

  // ----- percentiles and medians ------------------------------------------------------------

  /** The samples in ascending order. */
  predicate Arranges(s: seq<real>, values: seq<real>) {
    multiset(s) == multiset(values) && forall i, j | 0 <= i < j < |s| :: s[i] <= s[j]
  }

  lemma {:induction false} SortKeeps(s: seq<real>)
    requires forall i, j | 0 <= i < j < |s| :: s[i] <= s[j]
    ensures Sort(RealLe, s) == s
  {
    if s != [] {
      SortKeeps(s[1..]);
      assert s == [s[0]] + s[1..];
    }
  }

  lemma ArrangedIsSorted(s: seq<real>, values: seq<real>)
    requires Arranges(s, values)
    ensures Sorted(values) == s && |s| == |values|
  {
    SortKeeps(s);
    SortIsCanonical(RealLe, s, values);
    SortedIs(values);
  }

  lemma PlaceIs(n: nat, p: real, j: nat, f: real)
    requires n > 0 && 0.0 <= f < 1.0 && p * (n - 1) as real == 100.0 * (j as real + f)
    ensures Rank(n, p) == j as real + f && Rank(n, p).Floor == j
  {
    var m := (n - 1) as real;
    assert m * (p / 100.0) == p * m / 100.0;
  }

  /** A percentile whose place among `n` ascending samples is `j` and a fraction `f` lies that
      fraction of the way from sample `j` to the next; both functions say so. */
  lemma PercentileIs(values: seq<real>, s: seq<real>, p: real, j: nat, f: real)
    requires Arranges(s, values) && 0.0 <= p <= 100.0 && 0.0 <= f < 1.0 && j < |s|
    requires p * (|s| - 1) as real == 100.0 * (j as real + f)
    ensures f > 0.0 ==> j + 1 < |s|
    ensures ReportPercentile(values, p) == Some(if f == 0.0 then s[j] else s[j] + (s[j + 1] - s[j]) * f)
    ensures ScaleOutPercentile(values, p) == ReportPercentile(values, p)
  {
    hide *;
    ArrangedIsSorted(s, values);
    PlaceIs(|s|, p, j, f);
    RankBounds(|s|, p);
    NotEmpty(values, s);
    ReportIsAt(values, p);
    PercentilesAgree(values, p);
    AtIs(s, Rank(|s|, p), j, f);
  }

  lemma AtIs(s: seq<real>, k: real, j: nat, f: real)
    requires 0.0 <= k <= (|s| - 1) as real && k == j as real + f && k.Floor == j && j < |s| && f >= 0.0
    requires k > k.Floor as real ==> j + 1 < |s|
    ensures f > 0.0 ==> j + 1 < |s|
    ensures At(s, k) == if f == 0.0 then s[j] else s[j] + (s[j + 1] - s[j]) * f
  {
  }

  lemma NotEmpty(values: seq<real>, s: seq<real>)
    requires |s| == |values| && s != []
    ensures values != []
  {
  }

  /** The ends: at 0 the least sample, at 100 the greatest; and no samples give no percentile. */
  lemma PercentileEnds(values: seq<real>, s: seq<real>)
    requires Arranges(s, values)
    ensures s == [] <==> values == []
    ensures s != [] ==> ReportPercentile(values, 0.0) == Some(s[0]) && ReportPercentile(values, 100.0) == Some(s[|s| - 1])
    ensures s == [] ==> ReportPercentile(values, 50.0) == None && ScaleOutPercentile(values, 50.0) == None
  {
    hide Arranges;
    ArrangedIsSorted(s, values);
    if s != [] {
      hide ReportPercentile, ScaleOutPercentile;
      PercentileIs(values, s, 0.0, 0, 0.0);
      PercentileIs(values, s, 100.0, |s| - 1, 0.0);
    }
  }

  /** The median is the middle sample, or the mean of the two in the middle. */
  lemma MedianIs(values: seq<real>, s: seq<real>, m: nat)
    requires Arranges(s, values)
    ensures s == [] ==> Median(values) == 0.0
    ensures |s| == 2 * m + 1 ==> Median(values) == s[m]
    ensures |s| == 2 * m && m > 0 ==> Median(values) == (s[m - 1] + s[m]) / 2.0
  {
    hide Arranges, Sorted;
    ArrangedIsSorted(s, values);
  }

  // ----- rounding ---------------------------------------------------------------------------

  /** Rounding gives the nearest whole number, and the even one of two. */
  lemma NearestIs(y: real)
    ensures var m := ScaleOut.Nearest(y);
            && m as real - 0.5 <= y <= m as real + 0.5
            && (y == m as real - 0.5 || y == m as real + 0.5 ==> m % 2 == 0)
  {
  }

  /** To two or three places: whole hundredths or thousandths. */
  lemma RoundIs(x: real)
    ensures ScaleOut.Round(x, 100) == ScaleOut.Nearest(100.0 * x) as real / 100.0
    ensures ScaleOut.Round(x, 1000) == ScaleOut.Nearest(1000.0 * x) as real / 1000.0
  {
    assert x * 100 as real == 100.0 * x && x * 1000 as real == 1000.0 * x;
  }

  // ----- the rows of the scale-out summary --------------------------------------------------

  /** The samples of a query at a level. */
  function SamplesAt(samples: ScaleOut.Samples, q: string, n: nat): seq<real> {
    if (q, n) in samples then samples[(q, n)] else []
  }

  function Hundredths(x: Option<real>): Option<real> {
    match x
    case None => None
    case Some(v) => Some(ScaleOut.Round(v, 100))
  }

  /** The columns of a row: counts, the completion rate, the 50th and the 95th percentile, the 50th
      of level 1, and how many times that the 50th of this level is. */
  lemma RowIs(samples: ScaleOut.Samples, expected: map<nat, nat>, q: string, n: nat)
    requires n in expected
    ensures var r, here := ScaleOut.RowFor(samples, expected, q, n), SamplesAt(samples, q, n);
            var p50, base := ScaleOutPercentile(here, 50.0), ScaleOutPercentile(SamplesAt(samples, q, 1), 50.0);
            && r.query == q && r.n == n && r.samples == |here| && r.attempted == expected[n]
            && r.completion == (if expected[n] == 0 then 0.0 else ScaleOut.Round(|here| as real / expected[n] as real, 1000))
            && r.p50 == Hundredths(p50) && r.p95 == Hundredths(ScaleOutPercentile(here, 95.0))
            && r.base == Hundredths(base)
            && (if p50.Some? && base.Some? && base.value > 0.0 then
                  && r.ratio == Some(ScaleOut.Round(p50.value / base.value, 1000))
                  && r.flat == Some(p50.value / base.value <= 1.1)
                else r.ratio == None && r.flat == None)
  {
    hide ScaleOutPercentile;
    assert ScaleOut.Round(0.0, 1000) == 0.0;
  }

  // ----- the summary of a driver ------------------------------------------------------------

  lemma SameColumn(p: WarmMedian.Phase, ts: seq<Timings>, f: Timings -> real)
    requires forall t :: WarmMedian.Time(p, t) == f(t)
    ensures WarmMedian.Column(p, ts) == Bags.Map(f, ts)
  {
  }

  /** Each phase of the summary is the median of that phase over the measured iterations, and rows
      and columns are those of the first. */
  lemma SummaryIs(ts: seq<Timings>)
    ensures var m := WarmMedian.Summary(ts);
            && m.error == Nothing
            && m.connect == Median(Bags.Map((t: Timings) => t.connect, ts))
            && m.prepare == Median(Bags.Map((t: Timings) => t.prepare, ts))
            && m.execute == Median(Bags.Map((t: Timings) => t.execute, ts))
            && m.bind == Median(Bags.Map((t: Timings) => t.bind, ts))
            && m.drain == Median(Bags.Map((t: Timings) => t.drain, ts))
            && m.release == Median(Bags.Map((t: Timings) => t.release, ts))
            && m.total == Median(Bags.Map((t: Timings) => t.total, ts))
            && (ts == [] ==> m.columns == m.rows == 0)
            && (ts != [] ==> m.columns == ts[0].columns && m.rows == ts[0].rows)
  {
    hide Median, Bags.Map, WarmMedian.Column;
    SameColumn(WarmMedian.OfConnect, ts, (t: Timings) => t.connect);
    SameColumn(WarmMedian.OfPrepare, ts, (t: Timings) => t.prepare);
    SameColumn(WarmMedian.OfExecute, ts, (t: Timings) => t.execute);
    SameColumn(WarmMedian.OfBind, ts, (t: Timings) => t.bind);
    SameColumn(WarmMedian.OfDrain, ts, (t: Timings) => t.drain);
    SameColumn(WarmMedian.OfRelease, ts, (t: Timings) => t.release);
    SameColumn(WarmMedian.OfTotal, ts, (t: Timings) => t.total);
  }

  /** An iteration behind the warm-up ones that did not fail. */
  predicate IsMeasured(iters: seq<Timings>, warmup: int, k: nat) {
    warmup <= k < |iters| && iters[k].error == Nothing
  }

  /** The measured iterations, by their places. */
  lemma {:induction false} MeasuredAre(iters: seq<Timings>, warmup: int, n: nat)
    requires n <= |iters|
    ensures var ks := LoggedRuns.Places(n, (k: nat) => IsMeasured(iters, warmup, k));
            var ts := WarmMedian.Measured(iters[..n], warmup);
            |ts| == |ks| && forall i | 0 <= i < |ks| :: ks[i] < n && ts[i] == iters[ks[i]]
  {
    if n > 0 {
      MeasuredAre(iters, warmup, n - 1);
      WarmMedian.MeasuredSnoc(iters, n - 1, warmup);
      hide WarmMedian.Measured;
    }
  }

  // ----- the generated edges ----------------------------------------------------------------

  /** The end of a step of `d` from node `u`, counted around `n` nodes. */
  function Around(n: nat, u: int, d: nat): int
    requires n > 0
  {
    (u - 1 + d) % n + 1
  }

  /** Ids, sources and targets of the six batches. */
  lemma EdgesAre(n: nat, k: nat, h: nat)
    requires n > 0
    ensures 1 <= k <= n ==>
              && Graph.MakeEdge(n, Graph.Stride(0, k)) == Graph.Edge(k, k, Around(n, k, 20))
              && Graph.MakeEdge(n, Graph.Stride(1, k)) == Graph.Edge(n + k, k, Around(n, k, 40))
              && Graph.MakeEdge(n, Graph.Stride(2, k)) == Graph.Edge(2 * n + k, k, Around(n, k, 200))
              && Graph.MakeEdge(n, Graph.Stride(3, k)) == Graph.Edge(3 * n + k, k, Around(n, k, 21))
    ensures 1 <= h <= n / 1000 && 1 <= k <= 50 ==>
              Graph.MakeEdge(n, Graph.Hub(h, k)) ==
              Graph.Edge(4 * n + 50 * (h - 1) + k, 1000 * h, Around(n, 1000 * h, 7 * k))
    ensures 1 <= k <= n / 2 ==>
              Graph.MakeEdge(n, Graph.Weak(k)) ==
              Graph.Edge(5 * n + k, (104729 * k + 56891) % n + 1, (224737 * k + 31547) % n + 1)
  {
    if 1 <= k <= n {
      SmallRest(k - 1, n);
    }
  }

  lemma SmallRest(a: nat, n: nat)
    requires a < n
    ensures a % n == a
  {
  }

  /** The rows that the batches are generated from, and those that are kept. */
  lemma RowsAre(n: nat, r: Graph.Row)
    ensures Graph.Generated(n, r) <==>
            (r.Stride? && r.batch in [0, 1, 2, 3] && 1 <= r.gs <= n)
            || (r.Hub? && 1 <= r.h && 1000 * r.h <= n && 1 <= r.k <= 50)
            || (r.Weak? && 1 <= r.i && 2 * r.i <= n)
  {
  }

  // ----- texts ------------------------------------------------------------------------------

  /** A hash is shown by its first twelve characters, a shorter one in full. */
  lemma ShortIs(sha: string)
    ensures |CrossCheck.Short(sha)| == (if |sha| < 12 then |sha| else 12) && CrossCheck.Short(sha) <= sha
  {
  }

  /** The escapes: quote, backslash, line feed, return and tab by a letter, other control bytes by
      four hexadecimal digits, and every other byte as it is. */
  lemma EscapesAre(c: Utf8.byte)
    ensures var e := JsonEsc.EscByte(c);
            match c {
              case 34 => e == [92, 34]
              case 92 => e == [92, 92]
              case 10 => e == [92, 110]
              case 13 => e == [92, 114]
              case 9 => e == [92, 116]
              case _ =>
                if c >= 32 then e == [c]
                else e == [92, 117, 48, 48, if c < 16 then 48 else 49, if c % 16 < 10 then 48 + c % 16 else 87 + c % 16]
            }
  {
    if c < 32 {
      assert c / 16 == if c < 16 then 0 else 1;
    }
  }

  /** The measured text: the preamble's statements, each with its semicolon and line end, and the
      last statement behind the words that ask for its statistics. */
  lemma StatsTextIs(preamble: seq<string>, query: string)
    ensures SplitLaws.StatsSql([query]) == Some("SHOW STATS ACTUAL " + query)
    ensures preamble != [] ==>
              SplitLaws.StatsSql(preamble + [query]) ==
              Some(Join(preamble, ";\n") + ";\n" + ("SHOW STATS ACTUAL " + query))
  {
    var stmts := preamble + [query];
    assert stmts[..|stmts| - 1] == preamble && stmts[|stmts| - 1] == query;
  }

  /** Joining two texts puts the separator between them. */
  lemma JoinIs(a: string, b: string, sep: string)
    ensures Join([], sep) == "" && Join([a], sep) == a && Join([a, b], sep) == a + sep + b
  {
    assert [a, b][1..] == [b];
  }
}
