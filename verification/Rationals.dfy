/** Reduced fractions: greatest common divisors and comparison by cross product. */
module Rationals {
  import opened Words
  import opened Arith

  function Gcd(a: nat, b: nat): nat
    decreases b
  {
    if b == 0 then a else Gcd(b, a % b)
  }

  lemma {:induction false} GcdFactors(a: nat, b: nat) returns (x: nat, y: nat)
    ensures a == Gcd(a, b) * x && b == Gcd(a, b) * y
    decreases b
  {
    if b == 0 {
      x, y := 1, 0;
    } else {
      var x', y' := GcdFactors(b, a % b);
      DivModParts(a, b);
      MulMonotone(a / b, 0, x');
      x, y := x' * (a / b) + y', x';
      Recombine(Gcd(b, a % b), x', y', a / b);
      MulEqual(a / b, b, Gcd(b, a % b) * x');
    }
  }

  lemma Recombine(g: nat, x: nat, y: nat, q: nat)
    ensures g * (x * q + y) == (g * x) * q + g * y
  {
    MulAdd(g, x * q, y);
    MulAssoc(g, x, q);
  }

  lemma ScaledRemainder(k: nat, a: nat, b: nat)
    requires k > 0 && b > 0
    ensures k * b > 0 && (k * a) % (k * b) == k * (a % b)
  {
    DivModParts(a, b);
    MulStrict(k, 0, b);
    MulStrict(k, a % b, b);
    MulMonotone(k, 0, a % b);
    MulAdd(k, b * (a / b), a % b);
    MulAssoc(k, b, a / b);
    DivUnique(k * a, k * b, a / b, k * (a % b));
  }

  lemma {:induction false} GcdScale(k: nat, a: nat, b: nat)
    requires k > 0
    ensures 0 <= k * a && 0 <= k * b
    ensures Gcd(k * a, k * b) == k * Gcd(a, b)
    decreases b
  {
    MulMonotone(k, 0, a);
    MulMonotone(k, 0, b);
    if b > 0 {
      ScaledRemainder(k, a, b);
      GcdScale(k, b, a % b);
    }
  }

  lemma GcdPositive(a: nat, b: nat)
    requires b > 0
    ensures Gcd(a, b) > 0
  {
    var x, y := GcdFactors(a, b);
  }

  /** Dividing both sides by their greatest common divisor leaves coprime terms. */
  lemma Reduces(a: nat, b: nat)
    requires b > 0
    ensures var g := Gcd(a, b);
            && g > 0
            && a == g * (a / g) && b == g * (b / g)
            && a / g >= 0 && b / g > 0
            && Gcd(a / g, b / g) == 1
  {
    GcdPositive(a, b);
    var g := Gcd(a, b);
    var x, y := GcdFactors(a, b);
    DivUnique(a, g, x, 0);
    DivUnique(b, g, y, 0);
    GcdScale(g, x, y);
    MulCancel(g, Gcd(x, y), 1);
  }

  /** Two reduced fractions are equal numbers only if they are the same pair. */
  lemma ReducedUnique(n: nat, d: nat, n': nat, d': nat)
    requires d > 0 && d' > 0 && Gcd(n, d) == 1 && Gcd(n', d') == 1
    requires n * d' == n' * d
    ensures n == n' && d == d'
  {
    GcdScale(d', n, d);
    GcdScale(d, n', d');
    assert d' * n == d * n' && d' * d == d * d';
    MulCancel(d, n, n');
  }
}
