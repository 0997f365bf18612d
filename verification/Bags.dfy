/** Sequences as bags: mapping over the elements and comparing as multisets. */
module Bags {

  function Map<A, B>(f: A -> B, xs: seq<A>): seq<B> {
    seq(|xs|, k requires 0 <= k < |xs| => f(xs[k]))
  }

  lemma MapAt<A, B>(f: A -> B, xs: seq<A>, k: nat)
    requires k < |xs|
    ensures Map(f, xs)[k] == f(xs[k])
  {
  }

  lemma MapSnoc<A, B>(f: A -> B, xs: seq<A>, x: A)
    ensures Map(f, xs + [x]) == Map(f, xs) + [f(x)]
  {
  }

  function Without<A>(xs: seq<A>, i: nat): seq<A>
    requires i < |xs|
  {
    xs[..i] + xs[i + 1..]
  }

  lemma WithoutMultiset<A>(xs: seq<A>, i: nat)
    requires i < |xs|
    ensures multiset(xs) == multiset{xs[i]} + multiset(Without(xs, i))
  {
    assert xs == xs[..i] + ([xs[i]] + xs[i + 1..]);
  }

  lemma SameRest<A>(xs: seq<A>, i: nat, ys: seq<A>, j: nat)
    requires i < |xs| && j < |ys| && xs[i] == ys[j]
    ensures multiset(xs) == multiset(ys) <==> multiset(Without(xs, i)) == multiset(Without(ys, j))
  {
    WithoutMultiset(xs, i);
    WithoutMultiset(ys, j);
    assert multiset(Without(xs, i)) == multiset(xs) - multiset{xs[i]};
    assert multiset(Without(ys, j)) == multiset(ys) - multiset{ys[j]};
  }

  lemma MapWithout<A, B>(f: A -> B, xs: seq<A>, i: nat)
    requires i < |xs|
    ensures Without(Map(f, xs), i) == Map(f, Without(xs, i))
  {
  }

  lemma Position<A>(xs: seq<A>, x: A) returns (i: nat)
    requires x in multiset(xs)
    ensures i < |xs| && xs[i] == x
  {
    i :| 0 <= i < |xs| && xs[i] == x;
  }

  lemma SameSize<A>(xs: seq<A>, ys: seq<A>)
    requires multiset(xs) == multiset(ys)
    ensures |xs| == |ys|
  {
    assert |multiset(xs)| == |xs| && |multiset(ys)| == |ys|;
  }

  /** Mapping keeps equal bags equal. */
  lemma {:induction false} MapMultiset<A, B>(f: A -> B, xs: seq<A>, ys: seq<A>)
    requires multiset(xs) == multiset(ys)
    ensures multiset(Map(f, xs)) == multiset(Map(f, ys))
    decreases |xs|
  {
    SameSize(xs, ys);
    if xs == [] {
    } else {
      assert xs[0] in multiset(xs);
      var i := Position(ys, xs[0]);
      SameRest(xs, 0, ys, i);
      MapMultiset(f, Without(xs, 0), Without(ys, i));
      MapWithout(f, xs, 0);
      MapWithout(f, ys, i);
      SameRest(Map(f, xs), 0, Map(f, ys), i);
    }
  }

  lemma WithoutSubset<A>(xs: seq<A>, i: nat)
    requires i < |xs|
    ensures forall x | x in Without(xs, i) :: x in xs
  {
  }

  /** Mapping by a function that tells the elements apart keeps different bags different. */
  lemma {:induction false} MapMultisetInjective<A, B>(f: A -> B, xs: seq<A>, ys: seq<A>)
    requires forall x, y | x in xs && y in ys :: f(x) == f(y) ==> x == y
    requires multiset(Map(f, xs)) == multiset(Map(f, ys))
    ensures multiset(xs) == multiset(ys)
    decreases |xs|
  {
    var fx, fy := Map(f, xs), Map(f, ys);
    SameSize(fx, fy);
    if xs == [] {
    } else {
      assert fx[0] in multiset(fx);
      var i := Position(fy, fx[0]);
      assert f(xs[0]) == f(ys[i]) && xs[0] in xs && ys[i] in ys;
      SameRest(fx, 0, fy, i);
      MapWithout(f, xs, 0);
      MapWithout(f, ys, i);
      WithoutSubset(xs, 0);
      WithoutSubset(ys, i);
      MapMultisetInjective(f, Without(xs, 0), Without(ys, i));
      SameRest(xs, 0, ys, i);
    }
  }

  lemma MapMultisetIff<A, B>(f: A -> B, xs: seq<A>, ys: seq<A>)
    requires forall x, y | x in xs && y in ys :: f(x) == f(y) ==> x == y
    ensures multiset(Map(f, xs)) == multiset(Map(f, ys)) <==> multiset(xs) == multiset(ys)
  {
    if multiset(xs) == multiset(ys) {
      MapMultiset(f, xs, ys);
    }
    if multiset(Map(f, xs)) == multiset(Map(f, ys)) {
      MapMultisetInjective(f, xs, ys);
    }
  }
}
