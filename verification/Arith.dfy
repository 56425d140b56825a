/** Nonlinear facts over plain integers, kept away from the data they serve. */
module Arith {
  lemma MulAtLeast(p: nat, x: nat)
    requires x >= 1
    ensures p * x >= p
  {
    assert p * x == p * (x - 1) + p;
  }

  lemma MulMonotone(p: nat, x: int, y: int)
    requires x <= y
    ensures p * x <= p * y
    ensures x * p <= y * p
  {
    assert p * y == p * x + p * (y - x);
  }

  lemma MulStrict(p: nat, x: int, y: int)
    requires p > 0 && x < y
    ensures p * x < p * y
    ensures p * x + p <= p * y
  {
    MulMonotone(p, x + 1, y);
    assert p * (x + 1) == p * x + p;
  }

  lemma MulCancelLess(p: nat, x: int, y: int)
    requires p * x < p * y
    ensures x < y
  {
    if y <= x {
      MulMonotone(p, y, x);
    }
  }

  lemma MulCancel(p: nat, x: int, y: int)
    requires p > 0 && p * x == p * y
    ensures x == y
  {
    if x < y {
      MulStrict(p, x, y);
    } else if y < x {
      MulStrict(p, y, x);
    }
  }

  lemma MulAdd(p: int, x: int, y: int)
    ensures p * (x + y) == p * x + p * y
    ensures p * (x - y) == p * x - p * y
    ensures (x + y) * p == x * p + y * p
    ensures (x - y) * p == x * p - y * p
  {
  }

  lemma MulEqual(p: int, x: int, y: int)
    requires x == y
    ensures p * x == p * y
  {
  }

  lemma MulAssoc(a: int, b: int, c: int)
    ensures a * (b * c) == (a * b) * c == b * (a * c) == (a * c) * b
  {
  }

  /** The high part decides between two numbers split at the same weight. */
  lemma HighDecides(p: nat, low: nat, x: int, low': nat, y: int)
    requires low < p && x < y
    ensures low + p * x < low' + p * y
  {
    MulStrict(p, x, y);
  }

  /** A total below its weight leaves nothing above it. */
  lemma NothingAbove(p: nat, low: nat, high: nat)
    requires low + p * high < p
    ensures high == 0 && p * high == 0
  {
    if high > 0 {
      MulAtLeast(p, high);
    }
  }

  lemma DivModParts(n: nat, d: nat)
    requires d > 0
    ensures n == d * (n / d) + n % d
    ensures 0 <= n / d && 0 <= n % d < d
  {
    if n / d < 0 {
      MulMonotone(d, n / d, -1);
    }
  }

  /** Quotient and remainder are unique. */
  lemma DivUnique(n: int, d: nat, q: int, r: int)
    requires 0 <= r < d
    requires n == d * q + r
    ensures n / d == q && n % d == r
  {
    var q', r' := n / d, n % d;
    assert n == d * q' + r';
    if q < q' {
      MulStrict(d, q, q');
    } else if q' < q {
      MulStrict(d, q', q);
    }
  }
}
