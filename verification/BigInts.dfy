/** Canonical signed integers under an explicit limb limit. */
module BigInts {
  import opened Words
  import opened Arith
  import opened Limbs
  import opened Magnitude
  import opened Multiplication
  import opened Quotients

  function Signed(negative: bool, magnitude: int): int {
    if negative then -magnitude else magnitude
  }

  datatype BigInt = BigInt(negative: bool, limbs: LimbVec) {
    /** Zero is never negative and the top limb is never zero. */
    predicate IsCanonical() {
      Canonical(limbs) && (limbs == [] ==> !negative)
    }

    ghost function ToInt(): int {
      Signed(negative, Value(limbs))
    }
  }

  const ZERO := BigInt(false, [])

  function Abs(x: int): nat {
    if x < 0 then -x else x
  }

  lemma {:induction false} NonzeroLimbs(s: seq<u64>)
    requires Canonical(s)
    ensures Value(s) == 0 <==> s == []
  {
    if s != [] {
      CanonicalFloor(s);
    }
  }

  /** Structural equality is numeric equality. */
  lemma {:induction false} EqualityIsNumeric(a: BigInt, b: BigInt)
    requires a.IsCanonical() && b.IsCanonical()
    ensures a == b <==> a.ToInt() == b.ToInt()
  {
    NonzeroLimbs(a.limbs);
    NonzeroLimbs(b.limbs);
    if a.ToInt() == b.ToInt() {
      CanonicalUnique(a.limbs, b.limbs);
    }
  }

  /** The library's order is the order of the integers. */
  method Cmp(a: BigInt, b: BigInt) returns (order: Ordering)
    requires a.IsCanonical() && b.IsCanonical()
    ensures order == Compare(a.ToInt(), b.ToInt())
    ensures order == Equal <==> a == b
  {
    NonzeroLimbs(a.limbs);
    NonzeroLimbs(b.limbs);
    EqualityIsNumeric(a, b);
    if a.negative && !b.negative {
      return Less;
    } else if !a.negative && b.negative {
      return Greater;
    } else if !a.negative {
      order := CmpMagnitude(a.limbs, b.limbs);
    } else {
      order := CmpMagnitude(b.limbs, a.limbs);
    }
  }

  method FromSignMagnitude(negative: bool, limbs: LimbVec) returns (r: BigInt)
    ensures r.IsCanonical()
    ensures r.ToInt() == Signed(negative, Value(limbs))
  {
    var out := limbs;
    while out != [] && out[|out| - 1] == 0
      invariant |out| <= |limbs| && out == limbs[..|out|]
      invariant forall i :: |out| <= i < |limbs| ==> limbs[i] == 0
    {
      out := out[..|out| - 1];
    }
    ValueTake(limbs, |out|);
    NonzeroLimbs(out);
    r := BigInt(negative && out != [], out);
  }

  /**
   What a bounded operation promises: refused exactly when the limbs of the true
   result do not fit, and otherwise the true result in canonical form.
   */
  ghost predicate Exact(r: Result<BigInt, ArithmeticError>, operation: ArithmeticOperation, truth: int, limit: usize) {
    match Admission(operation, LimbCount(Abs(truth)), limit)
    case Some(error) => r == Err(error)
    case None => r.Ok? && r.value.IsCanonical() && r.value.ToInt() == truth
  }

  method AddWithSign(negative: bool, a: LimbVec, b: LimbVec, operation: ArithmeticOperation, limit: usize)
    returns (r: Result<BigInt, ArithmeticError>)
    requires Canonical(a) && Canonical(b)
    ensures Exact(r, operation, Signed(negative, Value(a) + Value(b)), limit)
  {
    var sum := AddMagnitude(a, b, operation, limit);
    if sum.Err? {
      return Err(sum.error);
    }
    var value := FromSignMagnitude(negative, sum.value);
    return Ok(value);
  }

  method SubWithSign(negative: bool, a: LimbVec, b: LimbVec, operation: ArithmeticOperation, limit: usize)
    returns (r: Result<BigInt, ArithmeticError>)
    requires Canonical(a) && Canonical(b) && Value(b) < Value(a)
    ensures Exact(r, operation, Signed(negative, Value(a) - Value(b)), limit)
  {
    if |a| < |b| {
      ShorterIsSmaller(a, b);
      assert false;
    }
    var difference := SubMagnitude(a, b, operation, limit);
    if difference.Err? {
      return Err(difference.error);
    }
    var value := FromSignMagnitude(negative, difference.value);
    return Ok(value);
  }

  method CheckedAdd(a: BigInt, b: BigInt, limit: usize) returns (r: Result<BigInt, ArithmeticError>)
    requires a.IsCanonical() && b.IsCanonical()
    ensures Exact(r, Add, a.ToInt() + b.ToInt(), limit)
  {
    if a.negative == b.negative {
      r := AddWithSign(a.negative, a.limbs, b.limbs, Add, limit);
      return;
    }
    var order := CmpMagnitude(a.limbs, b.limbs);
    match order {
      case Equal => r := Ok(ZERO);
      case Greater => r := SubWithSign(a.negative, a.limbs, b.limbs, Add, limit);
      case Less => r := SubWithSign(b.negative, b.limbs, a.limbs, Add, limit);
    }
  }

  method CheckedSub(a: BigInt, b: BigInt, limit: usize) returns (r: Result<BigInt, ArithmeticError>)
    requires a.IsCanonical() && b.IsCanonical()
    ensures Exact(r, Subtract, a.ToInt() - b.ToInt(), limit)
  {
    if a.negative != b.negative {
      r := AddWithSign(a.negative, a.limbs, b.limbs, Subtract, limit);
      return;
    }
    var order := CmpMagnitude(a.limbs, b.limbs);
    match order {
      case Equal => r := Ok(ZERO);
      case Greater => r := SubWithSign(a.negative, a.limbs, b.limbs, Subtract, limit);
      case Less => r := SubWithSign(!a.negative, b.limbs, a.limbs, Subtract, limit);
    }
  }

  lemma SignedProduct(negX: bool, x: int, negY: bool, y: int)
    ensures Signed(negX, x) * Signed(negY, y) == Signed(negX != negY, x * y)
  {
  }

  method CheckedMul(a: BigInt, b: BigInt, limit: usize) returns (r: Result<BigInt, ArithmeticError>)
    requires a.IsCanonical() && b.IsCanonical()
    ensures Exact(r, Multiply, a.ToInt() * b.ToInt(), limit)
  {
    SignedProduct(a.negative, Value(a.limbs), b.negative, Value(b.limbs));
    MulMonotone(Value(a.limbs), 0, Value(b.limbs));
    var product := MulMagnitude(a.limbs, b.limbs, limit);
    if product.Err? {
      return Err(product.error);
    }
    var value := FromSignMagnitude(a.negative != b.negative, product.value);
    return Ok(value);
  }

  /** Truncating division: exact, the remainder smaller than the divisor and signed like the dividend. */
  ghost predicate Truncates(a: int, d: int, q: int, r: int) {
    && a == q * d + r
    && Abs(r) < Abs(d)
    && (r != 0 ==> (r < 0 <==> a < 0))
  }

  /** Truncating division has one answer. */
  lemma TruncatesOnce(a: int, d: int, q: int, r: int, q': int, r': int)
    requires Truncates(a, d, q, r) && Truncates(a, d, q', r')
    ensures q == q' && r == r'
  {
    MulAdd(d, q, q');
    if q != q' {
      AbsProduct(q - q', d);
    }
  }

  lemma AbsProduct(x: int, d: int)
    requires x != 0
    ensures Abs(x * d) >= Abs(d)
  {
    MulAtLeast(Abs(d), Abs(x));
    SignedProduct(x < 0, Abs(x), d < 0, Abs(d));
  }

  /** The first allocation of a division that the limit refuses, if any. */
  ghost function DivisionRefusal(a: BigInt, d: BigInt, limit: usize): Option<ArithmeticError>
    requires Value(d.limbs) > 0
  {
    var x, y := Value(a.limbs), Value(d.limbs);
    if x == 0 then None
    else if x < y then Admission(Divide, |a.limbs|, limit)
    else if x == y then Admission(Divide, 1, limit)
    else if |d.limbs| == 1 then Admission(Divide, LimbCount(x / y), limit)
    else FirstRefusal(LimbCount(x / y), |d.limbs|, |a.limbs|, limit)
  }

  lemma SignedDivision(negA: bool, x: nat, negD: bool, y: nat, q: nat, r: nat)
    requires x == y * q + r && r < y
    ensures Truncates(Signed(negA, x), Signed(negD, y), Signed(negA != negD, q), Signed(negA, r))
  {
    SignedProduct(negA != negD, q, negD, y);
    MulMonotone(y, 0, q);
  }

  method CheckedDivRem(a: BigInt, d: BigInt, limit: usize) returns (r: Result<(BigInt, BigInt), ArithmeticError>)
    requires a.IsCanonical() && d.IsCanonical()
    ensures d.ToInt() == 0 ==> r == Err(DivisionByZero)
    ensures d.ToInt() != 0 ==>
              match DivisionRefusal(a, d, limit)
              case Some(error) => r == Err(error)
              case None =>
                && r.Ok?
                && r.value.0.IsCanonical() && r.value.1.IsCanonical()
                && Truncates(a.ToInt(), d.ToInt(), r.value.0.ToInt(), r.value.1.ToInt())
  {
    NonzeroLimbs(a.limbs);
    NonzeroLimbs(d.limbs);
    if d.limbs == [] {
      return Err(DivisionByZero);
    }
    ghost var x, y := Value(a.limbs), Value(d.limbs);
    if a.limbs == [] {
      return Ok((ZERO, ZERO));
    }
    var order := CmpMagnitude(a.limbs, d.limbs);
    if order == Less {
      var refused := Admission(Divide, |a.limbs|, limit);
      if refused.Some? {
        return Err(refused.value);
      }
      var remainder := FromSignMagnitude(a.negative, a.limbs);
      SignedDivision(a.negative, x, d.negative, y, 0, x);
      return Ok((ZERO, remainder));
    }
    if order == Equal {
      var refused := Admission(Divide, 1, limit);
      if refused.Some? {
        return Err(refused.value);
      }
      assert Value([1]) == 1 + BASE * Part([1], 1, 0);
      var quotient := FromSignMagnitude(a.negative != d.negative, [1]);
      SignedDivision(a.negative, x, d.negative, y, 1, 0);
      return Ok((quotient, ZERO));
    }
    r := DivideLarger(a, d, limit);
  }

  method DivideLarger(a: BigInt, d: BigInt, limit: usize) returns (r: Result<(BigInt, BigInt), ArithmeticError>)
    requires a.IsCanonical() && d.IsCanonical() && 0 < Value(d.limbs) < Value(a.limbs)
    ensures match DivisionRefusal(a, d, limit)
            case Some(error) => r == Err(error)
            case None =>
              && r.Ok?
              && r.value.0.IsCanonical() && r.value.1.IsCanonical()
              && Truncates(a.ToInt(), d.ToInt(), r.value.0.ToInt(), r.value.1.ToInt())
  {
    ghost var x, y := Value(a.limbs), Value(d.limbs);
    if |a.limbs| < |d.limbs| {
      ShorterIsSmaller(a.limbs, d.limbs);
      assert false;
    }
    var quotientLimbs := QuotientLimbCount(a.limbs, d.limbs);
    var parts: Result<(LimbVec, LimbVec), ArithmeticError>;
    if |d.limbs| == 1 {
      assert Value(d.limbs) == d.limbs[0] + BASE * Part(d.limbs, 1, 0);
      parts := DivRemMagnitudeByLimb(a.limbs, d.limbs[0], quotientLimbs, limit);
    } else {
      parts := DivRemMagnitudeKnuth(a.limbs, d.limbs, quotientLimbs, limit);
    }
    if parts.Err? {
      return Err(parts.error);
    }
    var quotient := FromSignMagnitude(a.negative != d.negative, parts.value.0);
    var remainder := FromSignMagnitude(a.negative, parts.value.1);
    SignedDivision(a.negative, x, d.negative, y, Value(parts.value.0), Value(parts.value.1));
    return Ok((quotient, remainder));
  }

  /** The normalised dividend is what decides whether a long division fits. */
  lemma {:induction false} LongDivisionFits(a: BigInt, d: BigInt, limit: usize)
    requires a.IsCanonical() && d.IsCanonical()
    requires |d.limbs| >= 2 && 0 < Value(d.limbs) < Value(a.limbs)
    ensures DivisionRefusal(a, d, limit) == None <==> |a.limbs| + 1 <= limit && |a.limbs| + 1 <= MAX_LIMBS
  {
    if |a.limbs| < |d.limbs| {
      ShorterIsSmaller(a.limbs, d.limbs);
    }
    var offset := |a.limbs| - |d.limbs|;
    QuotientLength(a.limbs, d.limbs, offset, Part(a.limbs, offset, |d.limbs|));
  }
}
