/** The two percentile functions of the reports and the median of the driver bench, over reals. */
module Percentiles {
  import opened Text
  import opened Sorting

  predicate RealLe(x: real, y: real) { x <= y }

  function Sorted(values: seq<real>): (s: seq<real>) {
    Sort(RealLe, values)
  }

  lemma SortedIs(values: seq<real>)
    ensures |Sorted(values)| == |values| && multiset(Sorted(values)) == multiset(values)
    ensures forall i, j | 0 <= i <= j < |values| :: Sorted(values)[i] <= Sorted(values)[j]
  {
    SortMultiset(RealLe, values);
    SortSorted(RealLe, values);
    assert forall i, j | 0 <= i < j < |values| :: RealLe(Sorted(values)[i], Sorted(values)[j]);
  }

  /** The (fractional) place of the percentile among `n` sorted samples. */
  function Rank(n: nat, pct: real): real
    requires n > 0
  {
    (n - 1) as real * (pct / 100.0)
  }

  lemma RankBounds(n: nat, pct: real)
    requires n > 0 && 0.0 <= pct <= 100.0
    ensures 0.0 <= Rank(n, pct) <= (n - 1) as real
    ensures 0 <= Rank(n, pct).Floor < n
    ensures Rank(n, pct) > Rank(n, pct).Floor as real ==> Rank(n, pct).Floor + 1 < n
  {
    var x, f := (n - 1) as real, pct / 100.0;
    assert Rank(n, pct) == x * f;
    assert 0.0 <= x && 0.0 <= f <= 1.0;
    ProductBounds(x, f);
  }

  lemma ProductBounds(x: real, f: real)
    requires x >= 0.0 && 0.0 <= f <= 1.0
    ensures 0.0 <= x * f <= x
  {
    assert x * (1.0 - f) >= 0.0;
  }

  /** Linear interpolation, as the two functions write it. */
  function Blend(a: real, b: real, f: real): real {
    a * (1.0 - f) + b * f
  }

  function Lerp(a: real, b: real, f: real): real {
    a + (b - a) * f
  }

  /** `percentile` of the scale-out aggregator; NaN for no samples. */
  function ScaleOutPercentile(values: seq<real>, pct: real): Option<real>
    requires 0.0 <= pct <= 100.0
  {
    if values == [] then None
    else if |values| == 1 then Some(values[0])
    else
      SortedIs(values);
      var s := Sorted(values);
      var k := Rank(|s|, pct);
      RankBounds(|s|, pct);
      var lo := k.Floor;
      var hi := if lo + 1 <= |s| - 1 then lo + 1 else |s| - 1;
      Some(Blend(s[lo], s[hi], k - lo as real))
  }

  /** `percentile` of the run report; NaN for no samples. */
  function ReportPercentile(values: seq<real>, p: real): Option<real>
    requires 0.0 <= p <= 100.0
  {
    if values == [] then None
    else
      SortedIs(values);
      var s := Sorted(values);
      if |s| == 1 then Some(s[0])
      else
        var rank := Rank(|s|, p);
        RankBounds(|s|, p);
        var lo := rank.Floor;
        var hi := if rank == lo as real then lo else lo + 1;
        if lo == hi then Some(s[lo]) else Some(Lerp(s[lo], s[hi], rank - lo as real))
  }

  /** The value at a fractional place of a sequence: linear between neighbours. */
  function At(s: seq<real>, k: real): real
    requires 0.0 <= k <= (|s| - 1) as real
  {
    var lo := k.Floor;
    if k == lo as real then s[lo] else Lerp(s[lo], s[lo + 1], k - lo as real)
  }

  lemma BlendIsLerp(a: real, b: real, f: real)
    ensures Blend(a, b, f) == Lerp(a, b, f)
    ensures f == 0.0 ==> Blend(a, b, f) == a
  {
  }

  lemma LerpBetween(a: real, b: real, f: real)
    requires a <= b && 0.0 <= f <= 1.0
    ensures a <= Lerp(a, b, f) <= b
  {
    var d := b - a;
    ProductBounds(d, f);
    assert Lerp(a, b, f) == a + d * f;
  }

  lemma LerpMonotone(a: real, b: real, f: real, g: real)
    requires a <= b && f <= g
    ensures Lerp(a, b, f) <= Lerp(a, b, g)
  {
    SlopeMonotone(b - a, f, g);
  }

  lemma SlopeMonotone(d: real, f: real, g: real)
    requires d >= 0.0 && f <= g
    ensures d * f <= d * g
  {
    assert d * (g - f) >= 0.0;
  }

  lemma LerpDifference(a: real, b: real, c: real, d: real, f: real)
    ensures Lerp(c, d, f) - Lerp(a, b, f) == (c - a) - (c - a) * f + (d - b) * f
  {
  }

  lemma LerpDominates(a: real, b: real, c: real, d: real, f: real)
    requires a <= c && b <= d && 0.0 <= f <= 1.0
    ensures Lerp(a, b, f) <= Lerp(c, d, f)
  {
    hide Lerp;
    var u, v := c - a, d - b;
    ProductBounds(u, f);
    ProductBounds(v, f);
    LerpDifference(a, b, c, d, f);
  }

  lemma OneSample(values: seq<real>)
    requires |values| == 1
    ensures Sorted(values) == values
  {
    assert values == [values[0]];
    assert Sort(RealLe, values[1..]) == [];
  }

  /** The report's percentile is the value at the rank of the sorted samples. */
  lemma ReportIsAt(values: seq<real>, p: real)
    requires 0.0 <= p <= 100.0 && values != []
    ensures |Sorted(values)| == |values|
    ensures 0.0 <= Rank(|values|, p) <= (|values| - 1) as real
    ensures ReportPercentile(values, p) == Some(At(Sorted(values), Rank(|values|, p)))
  {
    hide Sorted, Lerp;
    SortedIs(values);
    RankBounds(|values|, p);
    if |values| == 1 {
      assert Rank(1, p) == 0.0;
    }
  }

  /** The two percentile functions agree. */
  lemma PercentilesAgree(values: seq<real>, p: real)
    requires 0.0 <= p <= 100.0
    ensures ScaleOutPercentile(values, p) == ReportPercentile(values, p)
  {
    hide Sorted, Lerp, Blend, Rank;
    if |values| == 1 {
      OneSample(values);
    } else if values != [] {
      SortedIs(values);
      RankBounds(|values|, p);
      var s, k := Sorted(values), Rank(|values|, p);
      var lo := k.Floor;
      var hi := if lo + 1 <= |s| - 1 then lo + 1 else |s| - 1;
      BlendIsLerp(s[lo], s[hi], k - lo as real);
    }
  }

  // ----- bounds and monotonicity in p -------------------------------------------------------

  predicate Ascending(s: seq<real>) {
    forall i, j | 0 <= i <= j < |s| :: s[i] <= s[j]
  }

  lemma AtBetween(s: seq<real>, k: real)
    requires 0.0 <= k <= (|s| - 1) as real && Ascending(s)
    ensures s[k.Floor] <= At(s, k)
    ensures k.Floor + 1 < |s| ==> At(s, k) <= s[k.Floor + 1]
    ensures s[0] <= At(s, k) <= s[|s| - 1]
  {
    hide Lerp;
    var lo := k.Floor;
    if k != lo as real {
      LerpBetween(s[lo], s[lo + 1], k - lo as real);
    }
  }

  lemma AtMonotone(s: seq<real>, k: real, m: real)
    requires 0.0 <= k <= m <= (|s| - 1) as real && Ascending(s)
    ensures At(s, k) <= At(s, m)
  {
    hide Lerp;
    AtBetween(s, k);
    AtBetween(s, m);
    var lo := k.Floor;
    if lo == m.Floor {
      if k != lo as real {
        LerpMonotone(s[lo], s[lo + 1], k - lo as real, m - lo as real);
      }
    } else {
      assert lo + 1 <= m.Floor;
    }
  }

  lemma RankMonotone(n: nat, p: real, q: real)
    requires n > 0 && p <= q
    ensures Rank(n, p) <= Rank(n, q)
  {
    SlopeMonotone((n - 1) as real, p / 100.0, q / 100.0);
  }

  /** A percentile never falls as p grows. */
  lemma PercentileMonotoneInP(values: seq<real>, p: real, q: real)
    requires values != [] && 0.0 <= p <= q <= 100.0
    ensures ReportPercentile(values, p).value <= ReportPercentile(values, q).value
  {
    hide Sorted, Rank, At, ReportPercentile;
    SortedIs(values);
    ReportIsAt(values, p);
    ReportIsAt(values, q);
    RankMonotone(|values|, p, q);
    AtMonotone(Sorted(values), Rank(|values|, p), Rank(|values|, q));
  }

  /** A percentile lies between the smallest and the largest sample. */
  lemma PercentileWithinSamples(values: seq<real>, p: real)
    requires values != [] && 0.0 <= p <= 100.0
    ensures exists i | 0 <= i < |values| :: values[i] <= ReportPercentile(values, p).value
    ensures exists i | 0 <= i < |values| :: ReportPercentile(values, p).value <= values[i]
  {
    hide Sorted, Rank, At, ReportPercentile;
    var s := Sorted(values);
    SortedIs(values);
    ReportIsAt(values, p);
    AtBetween(s, Rank(|values|, p));
    assert s[0] in multiset(values) && s[|s| - 1] in multiset(values);
  }

  // ----- slower samples ---------------------------------------------------------------------

  /** How many of the values are at most `v`. */
  function CountUpTo(s: seq<real>, v: real): nat {
    if s == [] then 0 else (if s[0] <= v then 1 else 0) + CountUpTo(s[1..], v)
  }

  lemma {:induction false} CountInsert(x: real, s: seq<real>, v: real)
    ensures CountUpTo(Insert(RealLe, x, s), v) == (if x <= v then 1 else 0) + CountUpTo(s, v)
  {
    if s == [] {
      assert [x][1..] == [];
    } else if RealLe(x, s[0]) {
      assert ([x] + s)[1..] == s;
    } else {
      CountInsert(x, s[1..], v);
      assert ([s[0]] + Insert(RealLe, x, s[1..]))[1..] == Insert(RealLe, x, s[1..]);
    }
  }

  lemma {:induction false} CountSorted(s: seq<real>, v: real)
    ensures CountUpTo(Sorted(s), v) == CountUpTo(s, v)
  {
    if s == [] {
    } else {
      CountSorted(s[1..], v);
      CountInsert(s[0], Sorted(s[1..]), v);
    }
  }

  lemma {:induction false} NoneUpTo(s: seq<real>, v: real)
    requires forall k | 0 <= k < |s| :: s[k] > v
    ensures CountUpTo(s, v) == 0
  {
    if s == [] {
    } else {
      NoneUpTo(s[1..], v);
    }
  }

  /** In an ascending sequence the k-th value is at most `v` exactly when more than k values are. */
  lemma {:induction false} CountAndPlace(s: seq<real>, k: nat, v: real)
    requires Ascending(s) && k < |s|
    ensures s[k] <= v <==> CountUpTo(s, v) > k
  {
    if s[0] > v {
      NoneUpTo(s, v);
    } else if k > 0 {
      CountAndPlace(s[1..], k - 1, v);
    }
  }

  lemma {:induction false} CountDominates(xs: seq<real>, ys: seq<real>, v: real)
    requires |xs| == |ys| && forall k | 0 <= k < |xs| :: xs[k] <= ys[k]
    ensures CountUpTo(xs, v) >= CountUpTo(ys, v)
  {
    if xs == [] {
    } else {
      CountDominates(xs[1..], ys[1..], v);
    }
  }

  /** Pointwise slower samples, in arrival order, are pointwise slower once sorted. */
  lemma SortedDominates(xs: seq<real>, ys: seq<real>, k: nat)
    requires |xs| == |ys| && k < |xs| && forall i | 0 <= i < |xs| :: xs[i] <= ys[i]
    ensures k < |Sorted(xs)| && k < |Sorted(ys)| && Sorted(xs)[k] <= Sorted(ys)[k]
  {
    SortedIs(xs);
    SortedIs(ys);
    var v := Sorted(ys)[k];
    CountAndPlace(Sorted(ys), k, v);
    CountSorted(ys, v);
    CountDominates(xs, ys, v);
    CountSorted(xs, v);
    CountAndPlace(Sorted(xs), k, v);
  }

  lemma AtDominates(s: seq<real>, t: seq<real>, k: real)
    requires |s| == |t| && 0.0 <= k <= (|s| - 1) as real
    requires forall i | 0 <= i < |s| :: s[i] <= t[i]
    ensures At(s, k) <= At(t, k)
  {
    hide Lerp;
    var lo := k.Floor;
    if k != lo as real {
      LerpDominates(s[lo], s[lo + 1], t[lo], t[lo + 1], k - lo as real);
    }
  }

  /** If every sample gets slower, in arrival order, no percentile drops. */
  lemma SlowerSamplesSlowerPercentile(xs: seq<real>, ys: seq<real>, p: real)
    requires xs != [] && |xs| == |ys| && forall i | 0 <= i < |xs| :: xs[i] <= ys[i]
    requires 0.0 <= p <= 100.0
    ensures ReportPercentile(xs, p).value <= ReportPercentile(ys, p).value
  {
    hide Sorted, At, Rank, ReportPercentile;
    SortedIs(xs);
    SortedIs(ys);
    forall k | 0 <= k < |xs| ensures Sorted(xs)[k] <= Sorted(ys)[k] {
      SortedDominates(xs, ys, k);
    }
    ReportIsAt(xs, p);
    ReportIsAt(ys, p);
    AtDominates(Sorted(xs), Sorted(ys), Rank(|xs|, p));
  }

  // ----- the median -------------------------------------------------------------------------

  /** `median` of the driver bench, zero for no samples; Python's `statistics.median` otherwise. */
  function Median(values: seq<real>): real {
    if values == [] then 0.0
    else
      SortedIs(values);
      var s := Sorted(values);
      var n := |s|;
      if n % 2 == 1 then s[n / 2] else 0.5 * (s[n / 2 - 1] + s[n / 2])
  }

  lemma Halfway(a: real, b: real)
    ensures Lerp(a, b, 0.5) == 0.5 * (a + b)
  {
  }

  /** The median is the fiftieth percentile. */
  lemma MedianIsFiftieth(values: seq<real>)
    requires values != []
    ensures ReportPercentile(values, 50.0) == Some(Median(values))
  {
    hide Sorted, ReportPercentile, Lerp;
    SortedIs(values);
    ReportIsAt(values, 50.0);
    var n := |values|;
    var k := Rank(n, 50.0);
    assert k == (n - 1) as real * 0.5;
    if n % 2 == 1 {
      assert n - 1 == 2 * (n / 2);
      assert k == (n / 2) as real;
    } else {
      assert n - 1 == 2 * (n / 2 - 1) + 1;
      assert k == (n / 2 - 1) as real + 0.5;
      assert k.Floor == n / 2 - 1;
      Halfway(Sorted(values)[n / 2 - 1], Sorted(values)[n / 2]);
    }
  }
}
