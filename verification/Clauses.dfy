/** Brackets and clause keywords of a token list: which bracket closes which, what is visible from a
    place, and whether that place is in a FROM clause. */
module Clauses {

  /** What a token means to the FROM-clause context. */
  datatype Kind = Opens | Closes | TurnsOn | TurnsOff | Plain

  /** Opening minus closing brackets among the tokens `lo..hi`. */
  function Depth(ks: seq<Kind>, lo: nat, hi: nat): int
    requires lo <= hi <= |ks|
    decreases hi
  {
    if lo == hi then 0
    else Depth(ks, lo, hi - 1) + (match ks[hi - 1] case Opens => 1 case Closes => -1 case _ => 0)
  }

  /** The tokens `lo..hi` close every parenthesis they open and no other. */
  predicate Balanced(ks: seq<Kind>, lo: nat, hi: nat)
    requires lo <= hi <= |ks|
  {
    Depth(ks, lo, hi) == 0 && forall k | lo <= k <= hi :: Depth(ks, lo, k) >= 0
  }

  /** The parentheses at `a` and `b` belong together. */
  predicate Matched(ks: seq<Kind>, a: nat, b: nat)
    requires a < b < |ks|
  {
    ks[a] == Opens && ks[b] == Closes && Balanced(ks, a + 1, b)
  }

  /** Seen from `i`, token `j` is not inside a bracket group that is already closed. */
  predicate Visible(ks: seq<Kind>, j: nat, i: nat)
    requires j < i <= |ks|
  {
    forall a, b | 0 <= a < j < b < i :: !Matched(ks, a, b)
  }

  /** The last visible clause keyword before `i` is FROM or JOIN. */
  predicate InFromClause(ks: seq<Kind>, i: nat)
    requires i <= |ks|
  {
    exists j | 0 <= j < i ::
      ks[j] == TurnsOn && Visible(ks, j, i) &&
      forall k | j < k < i :: ks[k] == TurnsOff ==> !Visible(ks, k, i)
  }

  // ----- brackets ---------------------------------------------------------------------------

  lemma {:induction false} DepthSplit(ks: seq<Kind>, lo: nat, mid: nat, hi: nat)
    requires lo <= mid <= hi <= |ks|
    ensures Depth(ks, lo, hi) == Depth(ks, lo, mid) + Depth(ks, mid, hi)
    decreases hi
  {
    if mid == hi {
    } else {
      DepthSplit(ks, lo, mid, hi - 1);
    }
  }

  /** Position of the last bracket among the first `k` tokens that is still open, or -1. */
  function Top(ks: seq<Kind>, k: nat): (t: int)
    requires k <= |ks|
    ensures -1 <= t < k
    ensures t >= 0 ==> ks[t] == Opens
  {
    if k == 0 then -1
    else if ks[k - 1] == Opens then k - 1
    else
      var t := Top(ks, k - 1);
      if ks[k - 1] == Closes && t >= 0 then Top(ks, t) else t
  }

  lemma GroupIsBalanced(ks: seq<Kind>, lo: nat, p: nat, k: nat)
    requires lo <= p < k < |ks| && ks[p] == Opens && ks[k] == Closes
    requires Balanced(ks, lo, p) && Balanced(ks, p + 1, k)
    ensures Balanced(ks, lo, k + 1)
  {
    assert Depth(ks, lo, p + 1) == 1;
    forall x | p + 1 <= x <= k
      ensures Depth(ks, lo, x) == 1 + Depth(ks, p + 1, x)
    {
      DepthSplit(ks, lo, p + 1, x);
    }
  }

  lemma BalancedExtend(ks: seq<Kind>, lo: nat, k: nat)
    requires lo <= k < |ks| && Balanced(ks, lo, k) && ks[k] != Opens && ks[k] != Closes
    ensures Balanced(ks, lo, k + 1)
  {
    assert Depth(ks, lo, k + 1) == Depth(ks, lo, k);
  }

  /** Since the last bracket still open, the brackets are balanced. */
  lemma {:induction false} BalancedSinceTop(ks: seq<Kind>, k: nat)
    requires k <= |ks| && Top(ks, k) >= 0
    ensures Balanced(ks, Top(ks, k) + 1, k)
  {
    if ks[k - 1] == Opens {
      assert Depth(ks, k, k) == 0;
    } else if ks[k - 1] == Closes {
      var p := Top(ks, k - 1);
      BalancedSinceTop(ks, k - 1);
      BalancedSinceTop(ks, p);
      GroupIsBalanced(ks, Top(ks, k) + 1, p, k - 1);
    } else {
      BalancedSinceTop(ks, k - 1);
      BalancedExtend(ks, Top(ks, k) + 1, k - 1);
    }
  }

  /** From behind the last bracket still open, no more brackets open than close. */
  lemma {:induction false} NothingOpenSinceTop(ks: seq<Kind>, k: nat, lo: nat)
    requires lo <= k <= |ks| && Top(ks, k) < lo
    ensures Depth(ks, lo, k) <= 0
  {
    if lo == k {
    } else {
      var p := Top(ks, k - 1);
      if ks[k - 1] == Closes && 0 <= p && lo <= p {
        NothingOpenSinceTop(ks, p, lo);
        NothingOpenSinceTop(ks, k - 1, p + 1);
        DepthSplit(ks, lo, p + 1, k - 1);
        assert Depth(ks, lo, p + 1) == Depth(ks, lo, p) + 1;
      } else {
        NothingOpenSinceTop(ks, k - 1, lo);
      }
    }
  }

  /** A bracket at `a` is balanced up to `k` when it is the last one still open, and only then. */
  lemma BalancedIffTop(ks: seq<Kind>, k: nat, a: nat)
    requires a < k <= |ks| && ks[a] == Opens
    ensures Balanced(ks, a + 1, k) <==> a == Top(ks, k)
  {
    var p := Top(ks, k);
    if p == a {
      BalancedSinceTop(ks, k);
    } else if p < a {
      NothingOpenSinceTop(ks, k, a);
      DepthSplit(ks, a, a + 1, k);
      assert Depth(ks, a, a + 1) == Depth(ks, a, a) + 1;
    } else {
      BalancedSinceTop(ks, k);
      DepthSplit(ks, a + 1, p + 1, k);
      assert Depth(ks, a + 1, p + 1) == Depth(ks, a + 1, p) + 1;
    }
  }

  // ----- what is visible, one token at a time -----------------------------------------------

  /** A token other than a matched `)` hides nothing. */
  lemma VisibleStep(ks: seq<Kind>, j: nat, i: nat)
    requires j < i < |ks|
    requires ks[i] != Closes || Top(ks, i) < 0
    ensures Visible(ks, j, i + 1) <==> Visible(ks, j, i)
  {
    forall a | 0 <= a < j && ks[a] == Opens
      ensures !Matched(ks, a, i)
    {
      BalancedIffTop(ks, i, a);
    }
  }

  /** A group that closes behind an opening bracket `p` but starts before it must close it too. */
  lemma NoCrossing(ks: seq<Kind>, a: nat, p: nat, b: nat, i: nat)
    requires a < p < b < i <= |ks| && ks[p] == Opens && Balanced(ks, p + 1, i)
    ensures !Balanced(ks, a + 1, b)
  {
    DepthSplit(ks, a + 1, p + 1, b);
    assert Depth(ks, a + 1, p + 1) == Depth(ks, a + 1, p) + 1;
    assert Depth(ks, p + 1, b) >= 0;
  }

  /** From before a group that closes at `i`, the group hides nothing. */
  lemma VisibleBeforeGroup(ks: seq<Kind>, j: nat, p: nat, i: nat)
    requires j < p < i < |ks| && ks[i] == Closes && p == Top(ks, i)
    ensures Visible(ks, j, i + 1) <==> Visible(ks, j, p)
  {
    BalancedSinceTop(ks, i);
    forall a, b | 0 <= a < j && p <= b < i + 1 && ks[a] == Opens && ks[b] == Closes
      ensures !Matched(ks, a, b)
    {
      if b == i {
        BalancedIffTop(ks, i, a);
      } else {
        NoCrossing(ks, a, p, b, i);
      }
    }
  }

  /** What a group that closes at `i` holds is hidden. */
  lemma HiddenInGroup(ks: seq<Kind>, j: nat, p: nat, i: nat)
    requires p < j < i < |ks| && ks[i] == Closes && p == Top(ks, i) && p >= 0
    ensures !Visible(ks, j, i + 1)
  {
    BalancedSinceTop(ks, i);
    assert Matched(ks, p, i);
  }

  lemma SeenAfterGroup(ks: seq<Kind>, i: nat, p: nat)
    requires i < |ks| && ks[i] == Closes && p == Top(ks, i)
    ensures forall j | 0 <= j < p :: Visible(ks, j, i + 1) <==> Visible(ks, j, p)
    ensures forall j | p <= j < i + 1 :: ks[j] == TurnsOn || ks[j] == TurnsOff ==> !Visible(ks, j, i + 1)
  {
    forall j | 0 <= j < p ensures Visible(ks, j, i + 1) <==> Visible(ks, j, p) {
      VisibleBeforeGroup(ks, j, p, i);
    }
    forall j | p <= j < i + 1 && (ks[j] == TurnsOn || ks[j] == TurnsOff) ensures !Visible(ks, j, i + 1) {
      HiddenInGroup(ks, j, p, i);
    }
  }

  // ----- the context, one token at a time ---------------------------------------------------

  /** Two places that see the same clause keywords have the same context. */
  lemma ContextTransfer(ks: seq<Kind>, p: nat, i: nat)
    requires p <= i <= |ks|
    requires forall j | 0 <= j < p :: Visible(ks, j, i) <==> Visible(ks, j, p)
    requires forall j | p <= j < i :: ks[j] == TurnsOn || ks[j] == TurnsOff ==> !Visible(ks, j, i)
    ensures InFromClause(ks, i) <==> InFromClause(ks, p)
  {
    if InFromClause(ks, p) {
      var j :| 0 <= j < p && ks[j] == TurnsOn && Visible(ks, j, p) &&
        forall k | j < k < p :: ks[k] == TurnsOff ==> !Visible(ks, k, p);
      assert ks[j] == TurnsOn && Visible(ks, j, i);
    }
  }

  /** How the context changes with the token at `i`: after a closed group it is the one in which
      the group was opened. */
  ghost predicate Follows(ks: seq<Kind>, context: seq<bool>, i: nat)
    requires i < |ks| && |context| == |ks| + 1
  {
    context[i + 1] ==
      if ks[i] == Closes && Top(ks, i) >= 0 then context[Top(ks, i)]
      else ks[i] == TurnsOn || (ks[i] != TurnsOff && context[i])
  }

  lemma ContextStep(ks: seq<Kind>, i: nat)
    requires i < |ks|
    requires ks[i] != Closes || Top(ks, i) < 0
    ensures InFromClause(ks, i + 1) <==> (ks[i] == TurnsOn || (ks[i] != TurnsOff && InFromClause(ks, i)))
  {
    assert Visible(ks, i, i + 1);
    if ks[i] == TurnsOn {
      assert InFromClause(ks, i + 1);
    } else if ks[i] != TurnsOff {
      forall j | 0 <= j < i ensures Visible(ks, j, i + 1) <==> Visible(ks, j, i) {
        VisibleStep(ks, j, i);
      }
      ContextTransfer(ks, i, i + 1);
    }
  }

  lemma ContextFollows(ks: seq<Kind>, context: seq<bool>)
    requires |context| == |ks| + 1
    requires forall i | 0 <= i <= |ks| :: context[i] == InFromClause(ks, i)
    ensures !context[0]
    ensures forall i | 0 <= i < |ks| :: Follows(ks, context, i)
  {
    forall i | 0 <= i < |ks|
      ensures Follows(ks, context, i)
    {
      if ks[i] == Closes && Top(ks, i) >= 0 {
        SeenAfterGroup(ks, i, Top(ks, i));
        ContextTransfer(ks, Top(ks, i), i + 1);
      } else {
        ContextStep(ks, i);
      }
    }
  }

  /** The contexts in which the brackets still open after `k` tokens were opened. */
  ghost function OpenContexts(ks: seq<Kind>, context: seq<bool>, k: nat): seq<bool>
    requires k <= |ks| && |context| == |ks| + 1
  {
    var t := Top(ks, k);
    if t < 0 then [] else OpenContexts(ks, context, t) + [context[t]]
  }
}
