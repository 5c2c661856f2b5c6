/** Facts about products, quotients and remainders of integers. */
module Arithmetic {

  lemma DivStep(a: nat, d: nat)
    requires a >= d > 0
    ensures a / d == (a - d) / d + 1 && a % d == (a - d) % d
  {
    var q, m := (a - d) / d, (a - d) % d;
    assert a - d == d * q + m;
    assert a == d * (q + 1) + m;
    DivUnique(a, d, q + 1, m);
  }

  lemma DivSmall(a: nat, d: nat)
    requires a < d
    ensures a / d == 0 && a % d == a
  {
  }

  /** Quotient and remainder are the only pair that recomposes a. */
  lemma DivUnique(a: int, d: int, q: int, m: int)
    requires 0 <= m < d && a == d * q + m
    ensures a / d == q && a % d == m
  {
    var dq := a / d - q;
    assert d * dq == m - a % d by {
      assert a == d * (a / d) + a % d;
      assert d * dq == d * (a / d) - d * q;
    }
    if dq >= 1 {
      MulAtLeast(d, dq);
    } else if dq <= -1 {
      MulAtLeast(d, -dq);
    }
  }

  lemma MulAtLeast(d: nat, k: nat)
    requires k >= 1
    ensures d * k >= d
  {
  }

  lemma MulStep(k: int, n: int)
    ensures (k + 1) * n == k * n + n
  {
  }

  lemma DivNonNegative(a: nat, d: nat)
    requires d > 0
    ensures a / d >= 0
  {
  }

  lemma DivMonotone(a: nat, b: nat, d: nat)
    requires a <= b && d > 0
    ensures a / d <= b / d
    ensures b <= a + d ==> b / d <= a / d + 1
  {
    var qa, qb := a / d, b / d;
    assert a == d * qa + a % d && b == d * qb + b % d;
    if qa > qb {
      assert d * (qa - qb) == d * qa - d * qb;
      MulAtLeast(d, qa - qb);
    } else if b <= a + d && qb > qa + 1 {
      assert d * (qb - qa - 1) == d * qb - d * qa - d;
      MulAtLeast(d, qb - qa - 1);
    }
  }

  lemma MulBelow(n: nat, a: nat, b: nat)
    requires n > 0 && a < b
    ensures 0 <= n * a < n * b
    ensures n * a == 0 <==> a == 0
  {
    assert n * b - n * a == n * (b - a);
    MulAtLeast(n, b - a);
    if a > 0 {
      MulAtLeast(n, a);
    }
  }

  lemma Rearrange(a: nat, b: nat, c: nat)
    ensures a * (b * c) == c * (a * b)
  {
  }

  lemma BelowProduct(w: nat, h: nat, y: nat)
    requires y >= h
    ensures w * y >= w * h
  {
    assert w * y == w * h + w * (y - h);
  }
}
