/** Facts about division with remainder that the solver does not find by itself. */
module Arith {
  lemma ModShift(a: int, q: int, n: nat)
    requires n > 0
    ensures (a - n * q) % n == a % n
  {
    var d := a / n;
    assert a == n * d + a % n;
    assert a - n * q == n * (d - q) + a % n;
    DivModUnique(a - n * q, n, d - q, a % n);
  }

  lemma DivModUnique(x: int, n: nat, q: int, r: int)
    requires n > 0 && 0 <= r < n && x == n * q + r
    ensures x % n == r && x / n == q
  {
    var q', r' := x / n, x % n;
    assert n * (q' - q) == r - r';
    if q' > q {
      MulAtLeast(n, q' - q);
    } else if q' < q {
      MulAtLeast(n, q - q');
    }
  }

  lemma MulAtLeast(n: nat, k: nat)
    requires k >= 1
    ensures n * k >= n
  {
  }

  /** Two numbers agree modulo `n` exactly when `n` divides their difference. */
  lemma ModSame(a: nat, b: nat, n: nat)
    requires n > 0 && b <= a
    ensures a % n == b % n <==> (a - b) % n == 0
  {
    var qa, qb := a / n, b / n;
    assert a - b == n * (qa - qb) + (a % n - b % n);
    if a % n == b % n {
      DivModUnique(a - b, n, qa - qb, 0);
    } else if a % n > b % n {
      DivModUnique(a - b, n, qa - qb, a % n - b % n);
    } else {
      assert a - b == n * (qa - qb - 1) + (n + a % n - b % n);
      DivModUnique(a - b, n, qa - qb - 1, n + a % n - b % n);
    }
  }

  lemma ModStep(a: nat, n: nat)
    requires n > 0
    ensures (a % n + 1) % n == (a + 1) % n
  {
    assert a % n + 1 == a + 1 - n * (a / n);
    ModShift(a + 1, a / n, n);
  }

  lemma ModSum(a: nat, b: nat, n: nat)
    requires n > 0
    ensures (a % n + b) % n == (a + b) % n
  {
    assert a % n + b == a + b - n * (a / n);
    ModShift(a + b, a / n, n);
  }

  /** Quotient and remainder determine the number. */
  lemma SameQuotient(a: nat, b: nat, n: nat)
    requires n > 0 && a % n == b % n && a / n == b / n
    ensures a == b
  {
    assert a == n * (a / n) + a % n && b == n * (b / n) + b % n;
  }

  lemma {:induction false} MulMonotone(i: nat, j: nat, n: nat)
    requires i <= j
    ensures i * n <= j * n
  {
    if i < j {
      MulMonotone(i, j - 1, n);
      assert j * n == (j - 1) * n + n;
    }
  }
}
