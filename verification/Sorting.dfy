/** Sorting by a total order, as far as the harness relies on `sorted` and `std::sort`: there is
    exactly one sorted arrangement of a multiset. */
module Sorting {
  import opened Bags

  ghost predicate TotalOrder<T(!new)>(le: (T, T) -> bool) {
    && (forall x :: le(x, x))
    && (forall x, y :: le(x, y) || le(y, x))
    && (forall x, y :: le(x, y) && le(y, x) ==> x == y)
    && (forall x, y, z :: le(x, y) && le(y, z) ==> le(x, z))
  }

  ghost predicate IsSorted<T>(le: (T, T) -> bool, s: seq<T>) {
    forall i, j | 0 <= i < j < |s| :: le(s[i], s[j])
  }

  function Insert<T>(le: (T, T) -> bool, x: T, s: seq<T>): seq<T> {
    if s == [] then [x]
    else if le(x, s[0]) then [x] + s
    else [s[0]] + Insert(le, x, s[1..])
  }

  function Sort<T>(le: (T, T) -> bool, s: seq<T>): seq<T> {
    if s == [] then [] else Insert(le, s[0], Sort(le, s[1..]))
  }

  lemma {:induction false} InsertMultiset<T>(le: (T, T) -> bool, x: T, s: seq<T>)
    ensures multiset(Insert(le, x, s)) == multiset{x} + multiset(s)
  {
    if s != [] && !le(x, s[0]) {
      InsertMultiset(le, x, s[1..]);
      assert s == [s[0]] + s[1..];
    }
  }

  lemma {:induction false} InsertSorted<T(!new)>(le: (T, T) -> bool, x: T, s: seq<T>)
    requires TotalOrder(le) && IsSorted(le, s)
    ensures IsSorted(le, Insert(le, x, s))
  {
    if s != [] && !le(x, s[0]) {
      var rest := Insert(le, x, s[1..]);
      InsertSorted(le, x, s[1..]);
      InsertMultiset(le, x, s[1..]);
      forall j | 0 <= j < |rest|
        ensures le(s[0], rest[j])
      {
        assert rest[j] in multiset(rest);
        assert rest[j] == x || rest[j] in s[1..];
      }
    }
  }

  lemma {:induction false} SortMultiset<T>(le: (T, T) -> bool, s: seq<T>)
    ensures multiset(Sort(le, s)) == multiset(s)
    ensures |Sort(le, s)| == |s|
  {
    if s != [] {
      SortMultiset(le, s[1..]);
      InsertMultiset(le, s[0], Sort(le, s[1..]));
      assert s == [s[0]] + s[1..];
    }
    assert |multiset(Sort(le, s))| == |multiset(s)|;
  }

  lemma {:induction false} SortSorted<T(!new)>(le: (T, T) -> bool, s: seq<T>)
    requires TotalOrder(le)
    ensures IsSorted(le, Sort(le, s))
  {
    if s == [] {
    } else {
      SortSorted(le, s[1..]);
      InsertSorted(le, s[0], Sort(le, s[1..]));
    }
  }

  lemma {:induction false} InsertDistinct<T>(le: (T, T) -> bool, x: T, s: seq<T>)
    requires x !in s && forall i, j | 0 <= i < j < |s| :: s[i] != s[j]
    ensures forall i, j | 0 <= i < j < |Insert(le, x, s)| :: Insert(le, x, s)[i] != Insert(le, x, s)[j]
  {
    if s == [] || le(x, s[0]) {
    } else {
      var rest := Insert(le, x, s[1..]);
      InsertDistinct(le, x, s[1..]);
      InsertMultiset(le, x, s[1..]);
      forall j | 0 <= j < |rest|
        ensures rest[j] != s[0]
      {
        assert rest[j] in multiset(rest);
        assert rest[j] == x || rest[j] in s[1..];
      }
    }
  }

  /** Sorting neither makes nor loses elements, and repeats none that were different. */
  lemma {:induction false} SortDistinct<T>(le: (T, T) -> bool, s: seq<T>)
    requires forall i, j | 0 <= i < j < |s| :: s[i] != s[j]
    ensures forall i, j | 0 <= i < j < |Sort(le, s)| :: Sort(le, s)[i] != Sort(le, s)[j]
    ensures forall x :: x in Sort(le, s) <==> x in s
  {
    SortMultiset(le, s);
    assert forall x :: x in Sort(le, s) <==> x in multiset(s);
    if s == [] {
    } else {
      SortDistinct(le, s[1..]);
      InsertDistinct(le, s[0], Sort(le, s[1..]));
    }
  }

  // ----- one arrangement --------------------------------------------------------------------

  /** It does not matter which of two elements is inserted first. */
  lemma {:induction false} InsertsCommute<T(!new)>(le: (T, T) -> bool, x: T, y: T, s: seq<T>)
    requires TotalOrder(le)
    ensures Insert(le, x, Insert(le, y, s)) == Insert(le, y, Insert(le, x, s))
  {
    if s != [] && !le(x, s[0]) && !le(y, s[0]) {
      InsertsCommute(le, x, y, s[1..]);
    }
  }

  /** Any element may be taken out first and inserted last. */
  lemma {:induction false} SortFromAnywhere<T(!new)>(le: (T, T) -> bool, s: seq<T>, i: nat)
    requires TotalOrder(le) && i < |s|
    ensures Sort(le, s) == Insert(le, s[i], Sort(le, s[..i] + s[i + 1..]))
  {
    if i == 0 {
      assert s[..0] + s[1..] == s[1..];
    } else {
      var rest := s[1..];
      SortFromAnywhere(le, rest, i - 1);
      assert (s[..i] + s[i + 1..])[1..] == rest[..i - 1] + rest[i..];
      InsertsCommute(le, s[0], s[i], Sort(le, rest[..i - 1] + rest[i..]));
    }
  }

  lemma {:induction false} PermutationsSortAlike<T(!new)>(le: (T, T) -> bool, s: seq<T>, t: seq<T>)
    requires TotalOrder(le) && multiset(s) == multiset(t)
    ensures Sort(le, s) == Sort(le, t)
    decreases |s|
  {
    SameSize(s, t);
    if s == [] {
    } else {
      assert s[0] in multiset(s);
      var i := Position(t, s[0]);
      SameRest(s, 0, t, i);
      assert Without(s, 0) == s[1..];
      PermutationsSortAlike(le, s[1..], Without(t, i));
      SortFromAnywhere(le, t, i);
    }
  }

  /** Sorting makes two sequences equal exactly when they are permutations of each other. */
  lemma SortIsCanonical<T(!new)>(le: (T, T) -> bool, s: seq<T>, t: seq<T>)
    requires TotalOrder(le)
    ensures Sort(le, s) == Sort(le, t) <==> multiset(s) == multiset(t)
  {
    SortMultiset(le, s);
    SortMultiset(le, t);
    if multiset(s) == multiset(t) {
      PermutationsSortAlike(le, s, t);
    }
  }
}
