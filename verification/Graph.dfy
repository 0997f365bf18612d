/** The synthetic benchmark graph: edges generated by modular arithmetic for every node count. */
module Graph {
  import opened Numbers

  datatype Edge = Edge(id: int, src: int, dst: int)

  /** One generated row of one of the six batches, before the filter. */
  datatype Row = Stride(batch: nat, gs: nat) | Hub(h: nat, k: nat) | Weak(i: nat)

  const STRIDES: seq<nat> := [20, 40, 200, 21]

  /** The rows of the generating series, for `n` nodes. */
  predicate Generated(n: nat, r: Row) {
    match r
    case Stride(b, gs) => b < 4 && 1 <= gs <= n
    case Hub(h, k) => 1 <= h <= n / 1000 && 1 <= k <= 50
    case Weak(i) => 1 <= i <= n / 2
  }

  function MakeEdge(n: nat, r: Row): Edge
    requires Generated(n, r)
  {
    match r
    case Stride(b, gs) => Edge(b * n + gs, (gs - 1) % n + 1, (gs - 1 + STRIDES[b]) % n + 1)
    case Hub(h, k) => Edge(4 * n + ((h - 1) * 50 + k), h * 1000, (h * 1000 - 1 + k * 7) % n + 1)
    case Weak(i) => Edge(5 * n + i, (i * 104729 + 56891) % n + 1, (i * 224737 + 31547) % n + 1)
  }

  /** The WHERE clause of the batch. */
  predicate Kept(n: nat, r: Row)
    requires Generated(n, r)
  {
    var e := MakeEdge(n, r);
    e.src != e.dst && (r.Hub? ==> 1 <= e.src <= n && 1 <= e.dst <= n)
  }

  // ----- ids and endpoints ------------------------------------------------------------------

  /** Every generated edge runs between nodes of the graph, so the range test of the hub batch
      never drops an edge. */
  lemma EndpointsAreNodes(n: nat, r: Row)
    requires Generated(n, r)
    ensures 1 <= MakeEdge(n, r).src <= n && 1 <= MakeEdge(n, r).dst <= n
    ensures Kept(n, r) <==> MakeEdge(n, r).src != MakeEdge(n, r).dst
  {
  }

  /** Where the ids of each batch lie. */
  lemma IdRange(n: nat, r: Row)
    requires Generated(n, r)
    ensures r.Stride? ==> r.batch * n < MakeEdge(n, r).id <= (r.batch + 1) * n <= 4 * n
    ensures r.Hub? ==> 4 * n < MakeEdge(n, r).id <= 5 * n
    ensures r.Weak? ==> 5 * n < MakeEdge(n, r).id
  {
    match r
    case Stride(b, gs) => assert b == 0 || b == 1 || b == 2 || b == 3;
    case Hub(h, k) => assert (h - 1) * 50 + k <= (n / 1000) * 50;
    case Weak(i) =>
  }

  lemma StrideIds(n: nat, b: nat, gs: nat, c: nat, hs: nat)
    requires 1 <= gs <= n && 1 <= hs <= n
    ensures b * n + gs == c * n + hs <==> b == c && gs == hs
  {
    if b < c {
      assert (b + 1) * n <= c * n;
    } else if c < b {
      assert (c + 1) * n <= b * n;
    }
  }

  /** Within a batch, and among the strided batches, ids differ. */
  lemma IdsDifferWithin(n: nat, r: Row, s: Row)
    requires Generated(n, r) && Generated(n, s)
    requires (r.Stride? && s.Stride?) || (r.Hub? && s.Hub?) || (r.Weak? && s.Weak?)
    ensures MakeEdge(n, r).id == MakeEdge(n, s).id <==> r == s
  {
    if r.Stride? {
      StrideIds(n, r.batch, r.gs, s.batch, s.gs);
    }
  }

  /** Edge ids are unique across all six batches. */
  lemma IdsAreUnique(n: nat, r: Row, s: Row)
    requires Generated(n, r) && Generated(n, s)
    ensures MakeEdge(n, r).id == MakeEdge(n, s).id <==> r == s
  {
    hide MakeEdge, Generated;
    if (r.Stride? && s.Stride?) || (r.Hub? && s.Hub?) || (r.Weak? && s.Weak?) {
      IdsDifferWithin(n, r, s);
    } else {
      IdRange(n, r);
      IdRange(n, s);
    }
  }

  // ----- the strided batches are permutations -----------------------------------------------

  /** The row whose edge enters node `v`. */
  function EnteringRow(n: nat, b: nat, v: nat): int
    requires n > 0 && b < 4
  {
    (v - 1 - STRIDES[b]) % n + 1
  }

  /** In a strided batch every node has exactly one edge out and exactly one edge in; and either all
      edges are kept or, when the stride is a multiple of the node count, none is. */
  lemma StrideIsPermutation(n: nat, b: nat, v: nat, gs: nat)
    requires b < 4 && 1 <= v <= n && 1 <= gs <= n
    ensures MakeEdge(n, Stride(b, gs)).src == v <==> gs == v
    ensures MakeEdge(n, Stride(b, gs)).dst == v <==> gs == EnteringRow(n, b, v)
    ensures 1 <= EnteringRow(n, b, v) <= n
    ensures Kept(n, Stride(b, gs)) <==> STRIDES[b] % n != 0
  {
    var s := STRIDES[b];
    ModUnique(gs - 1, n, 0, gs - 1);
    ModUnique(v - 1, n, 0, v - 1);
    SameRemainder(gs - 1 + s, v - 1, n);
    SameRemainder(gs - 1, v - 1 - s, n);
    SameRemainder(gs - 1 + s, gs - 1, n);
  }

  // ----- connectivity -----------------------------------------------------------------------

  ghost predicate HasEdge(n: nat, u: int, v: int) {
    exists r :: Generated(n, r) && Kept(n, r) && MakeEdge(n, r).src == u && MakeEdge(n, r).dst == v
  }

  ghost predicate IsPath(n: nat, p: seq<int>) {
    p != [] && forall k | 0 <= k < |p| - 1 :: HasEdge(n, p[k], p[k + 1])
  }

  ghost predicate Reaches(n: nat, u: int, v: int) {
    exists p :: IsPath(n, p) && p[0] == u && p[|p| - 1] == v
  }

  lemma ReachesSelf(n: nat, u: int)
    ensures Reaches(n, u, u)
  {
    assert IsPath(n, [u]);
  }

  lemma ReachesByEdge(n: nat, u: int, v: int)
    requires HasEdge(n, u, v)
    ensures Reaches(n, u, v)
  {
    assert IsPath(n, [u, v]);
  }

  lemma ReachesTransitive(n: nat, u: int, v: int, w: int)
    requires Reaches(n, u, v) && Reaches(n, v, w)
    ensures Reaches(n, u, w)
  {
    var p :| IsPath(n, p) && p[0] == u && p[|p| - 1] == v;
    var q :| IsPath(n, q) && q[0] == v && q[|q| - 1] == w;
    var pq := p + q[1..];
    forall k | 0 <= k < |pq| - 1
      ensures HasEdge(n, pq[k], pq[k + 1])
    {
      if k < |p| - 1 {
        assert pq[k] == p[k] && pq[k + 1] == p[k + 1];
      } else {
        assert pq[k] == q[k - (|p| - 1)] && pq[k + 1] == q[k + 1 - (|p| - 1)];
      }
    }
    assert IsPath(n, pq);
  }

  /** The node that `x` steps from node 1 lead to. */
  function Node(n: nat, x: int): int
    requires n > 0
  {
    x % n + 1
  }

  lemma StrideStep(n: nat, b: nat, x: int)
    requires n > 0 && b < 4
    ensures Reaches(n, Node(n, x), Node(n, x + STRIDES[b]))
  {
    var r := Stride(b, x % n + 1);
    ModUnique(x % n, n, 0, x % n);
    ModAdd(x, STRIDES[b], n);
    var e := MakeEdge(n, r);
    assert e.src == Node(n, x) && e.dst == Node(n, x + STRIDES[b]);
    if e.src == e.dst {
      ReachesSelf(n, e.src);
    } else {
      assert Kept(n, r);
      ReachesByEdge(n, e.src, e.dst);
    }
  }

  lemma {:induction false} StrideSteps(n: nat, b: nat, x: int, m: nat)
    requires n > 0 && b < 4
    ensures Reaches(n, Node(n, x), Node(n, x + m * STRIDES[b]))
  {
    if m == 0 {
      ReachesSelf(n, Node(n, x));
    } else {
      StrideSteps(n, b, x, m - 1);
      StrideStep(n, b, x + (m - 1) * STRIDES[b]);
      assert x + (m - 1) * STRIDES[b] + STRIDES[b] == x + m * STRIDES[b];
      ReachesTransitive(n, Node(n, x), Node(n, x + (m - 1) * STRIDES[b]), Node(n, x + m * STRIDES[b]));
    }
  }

  /** One 21-step and n-1 20-steps lead to the next node. */
  lemma ReachesSuccessor(n: nat, x: int)
    requires n > 0
    ensures Reaches(n, Node(n, x), Node(n, x + 1))
  {
    StrideStep(n, 3, x);
    StrideSteps(n, 0, x + 21, n - 1);
    ReachesTransitive(n, Node(n, x), Node(n, x + 21), Node(n, x + 21 + (n - 1) * 20));
    assert x + 21 + (n - 1) * 20 == (x + 1) + 20 * n;
    ModShift(x + 1, n, 20);
  }

  lemma {:induction false} ReachesAhead(n: nat, x: int, m: nat)
    requires n > 0
    ensures Reaches(n, Node(n, x), Node(n, x + m))
  {
    if m == 0 {
      ReachesSelf(n, Node(n, x));
    } else {
      ReachesAhead(n, x, m - 1);
      ReachesSuccessor(n, x + m - 1);
      ReachesTransitive(n, Node(n, x), Node(n, x + m - 1), Node(n, x + m));
    }
  }

  /** The graph is strongly connected for every node count. */
  lemma StronglyConnected(n: nat, u: int, v: int)
    requires 1 <= u <= n && 1 <= v <= n
    ensures Reaches(n, u, v)
  {
    ModUnique(u - 1, n, 0, u - 1);
    ModUnique(v - 1, n, 0, v - 1);
    if u <= v {
      ReachesAhead(n, u - 1, v - u);
    } else {
      ReachesAhead(n, u - 1, v - u + n);
      ModShift(v - 1, n, 1);
    }
  }

  // ----- the pseudo-random batch ------------------------------------------------------------

  /** The kept weak ties start at different nodes. */
  ghost predicate SourcesDiffer(n: nat) {
    forall i, j | 1 <= i < j <= n / 2 && Kept(n, Weak(i)) && Kept(n, Weak(j)) ::
      MakeEdge(n, Weak(i)).src != MakeEdge(n, Weak(j)).src
  }

  /** The kept weak ties end at different nodes. */
  ghost predicate TargetsDiffer(n: nat) {
    forall i, j | 1 <= i < j <= n / 2 && Kept(n, Weak(i)) && Kept(n, Weak(j)) ::
      MakeEdge(n, Weak(i)).dst != MakeEdge(n, Weak(j)).dst
  }

  /** The multiplier of the distance from source to target. */
  const GAP := 224737 - 104729

  lemma LoopIs(n: nat, i: nat)
    requires 1 <= i <= n / 2
    ensures Kept(n, Weak(i)) <==> (i * GAP - 25344) % n != 0
  {
    SameRemainder(i * 224737 + 31547, i * 104729 + 56891, n);
    assert (i * 224737 + 31547) - (i * 104729 + 56891) == i * GAP - 25344;
  }

  lemma Cancel(m: nat, d: nat, x: int)
    requires m > 0 && d > 0 && (m * x) % (m * d) == 0
    ensures Divides(d, x)
  {
    var md, mx := m * d, m * x;
    var q := mx / md;
    assert mx == q * md;
    MulSwap(q, m, d);
    CancelFactor(m, x, q * d);
    ModUnique(x, d, q, 0);
  }

  lemma MulSwap(q: int, m: int, d: int)
    ensures q * (m * d) == m * (q * d)
  {
  }

  /** Two weak ties `m` or `2m` apart are not both dropped. */
  lemma NotBothLoops(n: nat, m: nat, d: nat, i: nat, t: nat)
    requires m > 0 && d > 0 && n == m * d && 1 <= i <= i + t * m <= n / 2 && !Divides(d, t * GAP)
    ensures Kept(n, Weak(i)) || Kept(n, Weak(i + t * m))
  {
    hide Kept, Divides;
    LoopIs(n, i);
    LoopIs(n, i + t * m);
    var x, y := (i + t * m) * GAP - 25344, i * GAP - 25344;
    SameRemainder(x, y, n);
    assert x - y == m * (t * GAP) by {
      assert (t * m) * GAP == m * (t * GAP);
      assert (i + t * m) * GAP == i * GAP + (t * m) * GAP;
    }
    if x % n == y % n {
      Cancel(m, d, t * GAP);
    }
  }

  /** Of three weak ties, `m` apart each, two are kept. */
  lemma TwoAreKept(n: nat, m: nat, d: nat) returns (i: nat, j: nat)
    requires m > 0 && d >= 7 && n == m * d && !Divides(d, 1 * GAP) && !Divides(d, 2 * GAP)
    ensures 1 <= i < j <= n / 2 && Kept(n, Weak(i)) && Kept(n, Weak(j)) && (j == i + m || j == i + 2 * m)
  {
    hide Kept, Divides;
    assert m * d >= 7 * m;
    assert 1 + 2 * m <= n / 2;
    NotBothLoops(n, m, d, 1, 1);
    NotBothLoops(n, m, d, 1 + m, 1);
    NotBothLoops(n, m, d, 1, 2);
    if !Kept(n, Weak(1)) {
      i, j := 1 + m, 1 + 2 * m;
    } else if !Kept(n, Weak(1 + m)) {
      i, j := 1, 1 + 2 * m;
    } else {
      i, j := 1, 1 + m;
    }
  }

  /** Multiples of a number that shares the divisor `d` with `n` repeat after `n / d` steps. */
  lemma Repeats(a: nat, c: nat, n: nat, m: nat, d: nat, i: nat, t: nat)
    requires m > 0 && d > 0 && n == m * d && Divides(d, a)
    ensures ((i + t * m) * a + c) % n == (i * a + c) % n
  {
    var e := a / d;
    assert a == e * d;
    assert (t * m) * a == (t * e) * n by {
      assert (t * m) * (e * d) == (t * e) * (m * d);
    }
    assert (i + t * m) * a + c == (i * a + c) + (t * e) * n by {
      assert (i + t * m) * a == i * a + (t * m) * a;
    }
    ModShift(i * a + c, n, t * e);
  }

  /** The multipliers share no divisor with the gap, nor with twice the gap. */
  lemma GapIsFree(d: nat)
    requires d >= 2 && (Divides(d, 104729) || Divides(d, 224737))
    ensures !Divides(d, 1 * GAP) && !Divides(d, 2 * GAP) && d >= 7
  {
    if Divides(d, 104729) {
      NextDivisors(104729, d);
      GapIsFreeOf(d, 104729, -9551, 8335, 110457, -48197);
    } else {
      NextDivisors(224737, d);
      GapIsFreeOf(d, 224737, -9551, 17886, -9551, 8943);
    }
  }

  lemma GapIsFreeOf(d: nat, a: nat, x: int, y: int, x2: int, y2: int)
    requires d >= 2 && Divides(d, a) && x * a + y * (1 * GAP) == 1 && x2 * a + y2 * (2 * GAP) == 1
    ensures !Divides(d, 1 * GAP) && !Divides(d, 2 * GAP)
  {
    hide Divides;
    if Divides(d, 1 * GAP) {
      DividesOne(d, a, 1 * GAP, x, y);
    }
    if Divides(d, 2 * GAP) {
      DividesOne(d, a, 2 * GAP, x2, y2);
    }
  }

  lemma SameEnds(n: nat, i: nat, j: nat)
    requires 1 <= i <= n / 2 && 1 <= j <= n / 2
    ensures MakeEdge(n, Weak(i)).src == MakeEdge(n, Weak(j)).src <==> (i * 104729 + 56891) % n == (j * 104729 + 56891) % n
    ensures MakeEdge(n, Weak(i)).dst == MakeEdge(n, Weak(j)).dst <==> (i * 224737 + 31547) % n == (j * 224737 + 31547) % n
  {
  }

  lemma SourcesCollide(n: nat, d: nat)
    requires n > 0 && d >= 2 && Divides(d, 104729) && Divides(d, n)
    ensures !SourcesDiffer(n)
  {
    var m := n / d;
    assert n == m * d;
    GapIsFree(d);
    hide Kept;
    var i, j := TwoAreKept(n, m, d);
    Repeats(104729, 56891, n, m, d, i, if j == i + m then 1 else 2);
    SameEnds(n, i, j);
    hide MakeEdge;
  }

  lemma TargetsCollide(n: nat, d: nat)
    requires n > 0 && d >= 2 && Divides(d, 224737) && Divides(d, n)
    ensures !TargetsDiffer(n)
  {
    var m := n / d;
    assert n == m * d;
    GapIsFree(d);
    hide Kept;
    var i, j := TwoAreKept(n, m, d);
    Repeats(224737, 31547, n, m, d, i, if j == i + m then 1 else 2);
    SameEnds(n, i, j);
    hide MakeEdge;
  }

  /** Different weak ties of the graph start at different nodes exactly when 104729 and n are coprime,
      and end at different nodes exactly when 224737 and n are. */
  lemma WeakTiesSpread(n: nat)
    requires n > 0
    ensures SourcesDiffer(n) <==> Coprime(104729, n)
    ensures TargetsDiffer(n) <==> Coprime(224737, n)
  {
    hide Kept, Divides;
    if Coprime(104729, n) {
      forall i, j | 1 <= i < j <= n / 2 ensures MakeEdge(n, Weak(i)).src != MakeEdge(n, Weak(j)).src {
        CoprimeMultiplesDiffer(104729, 56891, n, i, j);
      }
    } else {
      var d :| d >= 2 && Divides(d, 104729) && Divides(d, n);
      SourcesCollide(n, d);
    }
    if Coprime(224737, n) {
      forall i, j | 1 <= i < j <= n / 2 ensures MakeEdge(n, Weak(i)).dst != MakeEdge(n, Weak(j)).dst {
        CoprimeMultiplesDiffer(224737, 31547, n, i, j);
      }
    } else {
      var d :| d >= 2 && Divides(d, 224737) && Divides(d, n);
      TargetsCollide(n, d);
    }
  }

  /** On multiples of its multiplier the random batch does not spread. */
  lemma WeakTiesCollide(k: nat)
    requires k > 0
    ensures !SourcesDiffer(104729 * k) && !TargetsDiffer(224737 * k)
  {
    ModUnique(104729 * k, 104729, k, 0);
    ModUnique(224737 * k, 224737, k, 0);
    hide SourcesDiffer, TargetsDiffer;
    SourcesCollide(104729 * k, 104729);
    TargetsCollide(224737 * k, 224737);
  }
}
