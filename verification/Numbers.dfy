/** Remainders and common divisors. */
module Numbers {

  /** A remainder is pinned down by any way of writing the number as a multiple plus a rest. */
  lemma ModUnique(x: int, n: nat, q: int, r: int)
    requires n > 0 && x == q * n + r && 0 <= r < n
    ensures x % n == r && x / n == q
  {
    var q', r' := x / n, x % n;
    assert x == q' * n + r';
    assert (q - q') * n == r' - r;
    MultipleBound(q - q', n);
  }

  lemma MultipleBound(k: int, n: int)
    requires n >= 0
    ensures k >= 1 ==> k * n >= n
    ensures k <= -1 ==> k * n <= -n
  {
    if k >= 1 {
      assert k * n == n + (k - 1) * n;
    } else if k <= -1 {
      assert k * n == -n + (k + 1) * n;
      assert (-(k + 1)) * n >= 0;
    }
  }

  lemma CancelFactor(m: nat, u: int, v: int)
    requires m > 0 && m * u == m * v
    ensures u == v
  {
    MultipleBound(u - v, m);
    assert (u - v) * m == m * u - m * v;
  }

  lemma ModShift(x: int, n: nat, k: int)
    requires n > 0
    ensures (x + k * n) % n == x % n
  {
    assert x + k * n == (x / n + k) * n + x % n;
    ModUnique(x + k * n, n, x / n + k, x % n);
  }

  lemma ModAdd(x: int, y: int, n: nat)
    requires n > 0
    ensures (x % n + y) % n == (x + y) % n
  {
    assert x + y == (x % n + y) + (x / n) * n;
    ModShift(x % n + y, n, x / n);
  }

  /** Two numbers with the same remainder differ by a multiple. */
  lemma SameRemainder(x: int, y: int, n: nat)
    requires n > 0
    ensures x % n == y % n <==> (x - y) % n == 0
  {
    if x % n == y % n {
      assert x - y == (x / n - y / n) * n + 0;
      ModUnique(x - y, n, x / n - y / n, 0);
    }
    if (x - y) % n == 0 {
      assert x == y + ((x - y) / n) * n;
      ModShift(y, n, (x - y) / n);
    }
  }

  predicate Divides(d: int, m: int)
    requires d > 0
  {
    m % d == 0
  }

  ghost predicate Coprime(a: nat, b: nat) {
    forall d | d >= 2 :: !(Divides(d, a) && Divides(d, b))
  }

  lemma DividesCombination(d: int, x: int, y: int, k: int)
    requires d > 0 && Divides(d, x) && Divides(d, y)
    ensures Divides(d, k * x + y)
  {
    assert x == (x / d) * d && y == (y / d) * d;
    assert k * x + y == (k * (x / d) + y / d) * d + 0 by {
      assert k * ((x / d) * d) == (k * (x / d)) * d;
    }
    ModUnique(k * x + y, d, k * (x / d) + y / d, 0);
  }

  /** Euclid's algorithm with Bezout's coefficients. */
  lemma {:induction false} Bezout(a: nat, b: nat) returns (g: nat, x: int, y: int)
    requires a > 0 || b > 0
    ensures g > 0 && a * x + b * y == g && Divides(g, a) && Divides(g, b)
    decreases b
  {
    if b == 0 {
      g, x, y := a, 1, 0;
      ModUnique(a, a, 1, 0);
    } else {
      var x', y';
      g, x', y' := Bezout(b, a % b);
      x, y := y', x' - (a / b) * y';
      assert a == (a / b) * b + a % b;
      BezoutStep(a, b, x', y');
      DividesCombination(g, b, a % b, a / b);
    }
  }

  lemma BezoutStep(a: nat, b: nat, x: int, y: int)
    requires b > 0
    ensures a * y + b * (x - (a / b) * y) == b * x + (a % b) * y
  {
    var q, r := a / b, a % b;
    assert a == q * b + r;
    assert (q * b + r) * y == q * b * y + r * y;
    assert b * (q * y) == q * b * y;
  }

  lemma OnlyOne(a: nat, b: nat, d: nat)
    requires Coprime(a, b) && d > 0 && Divides(d, a) && Divides(d, b)
    ensures d == 1
  {
  }

  /** A divisor of an odd number that three does not divide. */
  lemma SmallDivisors(a: nat, d: nat)
    requires a % 2 == 1 && a % 3 != 0 && d >= 2 && Divides(d, a)
    ensures d >= 5
  {
  }

  /** And neither does five. */
  lemma NextDivisors(a: nat, d: nat)
    requires a % 2 == 1 && a % 3 != 0 && a % 5 != 0 && d >= 2 && Divides(d, a)
    ensures d >= 7
  {
    SixIsEven(a);
    SmallDivisors(a, d);
  }

  lemma SixIsEven(a: nat)
    ensures a % 6 == 0 ==> a % 2 == 0
  {
    if a % 6 == 0 {
      ModUnique(a, 2, 3 * (a / 6), 0);
    }
  }

  /** A divisor of two numbers divides every combination of them; if one makes 1, it is 1. */
  lemma DividesOne(d: nat, a: int, b: int, x: int, y: int)
    requires d > 0 && Divides(d, a) && Divides(d, b) && x * a + y * b == 1
    ensures d == 1
  {
    assert Divides(d, 0);
    DividesCombination(d, b, 0, y);
    DividesCombination(d, a, y * b, x);
    DividesUnit(d);
  }

  lemma DividesUnit(d: nat)
    requires d > 0 && Divides(d, 1)
    ensures d == 1
  {
  }

  /** A number coprime to `a` that divides a multiple of `a` divides the cofactor. */
  lemma EuclidLemma(a: nat, n: nat, m: int)
    requires n > 0 && Coprime(a, n) && Divides(n, a * m)
    ensures Divides(n, m)
  {
    var g, x, y := Bezout(a, n);
    OnlyOne(a, n, g);
    assert m * (a * x + n * y) == m;
    assert m * (a * x + n * y) == x * (a * m) + (m * y) * n;
    assert Divides(n, (m * y) * n) by {
      ModUnique((m * y) * n, n, m * y, 0);
    }
    DividesCombination(n, a * m, (m * y) * n, x);
  }

  /** Multiples of `a` by `1..half` have pairwise different remainders. */
  predicate DistinctRemainders(a: nat, c: nat, n: nat)
    requires n > 0
  {
    forall i, j | 1 <= i < j <= n / 2 :: (i * a + c) % n != (j * a + c) % n
  }

  lemma CoprimeMultiplesDiffer(a: nat, c: nat, n: nat, i: nat, j: nat)
    requires n > 0 && Coprime(a, n) && 1 <= i < j <= n / 2
    ensures (i * a + c) % n != (j * a + c) % n
  {
    if (i * a + c) % n == (j * a + c) % n {
      SameRemainder(j * a + c, i * a + c, n);
      assert (j * a + c) - (i * a + c) == a * (j - i);
      EuclidLemma(a, n, j - i);
      ModUnique(j - i, n, 0, j - i);
    }
  }

  lemma CommonDivisorCollides(a: nat, c: nat, n: nat, d: nat)
    requires n > 0 && d >= 5 && Divides(d, a) && Divides(d, n)
    ensures !DistinctRemainders(a, c, n)
  {
    var m, e := n / d, a / d;
    assert n == m * d && a == e * d;
    assert m >= 1;
    assert m * d >= 5 * m;
    assert 1 + m <= n / 2;
    assert m * a == e * n by {
      assert m * (e * d) == e * (m * d);
    }
    assert (1 + m) * a + c == (1 * a + c) + e * n by {
      assert (1 + m) * a == a + m * a;
    }
    ModShift(1 * a + c, n, e);
    assert (1 * a + c) % n == ((1 + m) * a + c) % n;
  }

  /** For an odd multiplier that three does not divide: the remainders are distinct exactly when
      multiplier and modulus are coprime. */
  lemma DistinctIffCoprime(a: nat, c: nat, n: nat)
    requires n > 0 && a % 2 == 1 && a % 3 != 0
    ensures DistinctRemainders(a, c, n) <==> Coprime(a, n)
  {
    if Coprime(a, n) {
      forall i, j | 1 <= i < j <= n / 2 ensures (i * a + c) % n != (j * a + c) % n {
        CoprimeMultiplesDiffer(a, c, n, i, j);
      }
    } else {
      var d :| d >= 2 && Divides(d, a) && Divides(d, n);
      SmallDivisors(a, d);
      CommonDivisorCollides(a, c, n, d);
    }
  }
}
