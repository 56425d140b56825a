/** Unsigned magnitude arithmetic: an exact size pass, then the value pass. */
module Magnitude {
  import opened Words
  import opened Arith
  import opened Limbs

  datatype ArithmeticOperation = Clone | Negate | Add | Subtract | Multiply | Divide

  datatype ArithmeticError =
    | DivisionByZero
    | LimbLimitExceeded(operation: ArithmeticOperation, requiredLimbs: nat, limit: nat)
    | CapacityOverflow(operation: ArithmeticOperation)

  /** The check every limb allocation passes through. */
  function Admission(operation: ArithmeticOperation, required: nat, limit: usize): Option<ArithmeticError> {
    if required > limit then Some(LimbLimitExceeded(operation, required, limit))
    else if required > MAX_LIMBS then Some(CapacityOverflow(operation))
    else None
  }

  function OverflowingSub(x: u64, y: u64): (u64, bool) {
    if x >= y then (x - y, false) else (x - y + BASE, true)
  }

  function OverflowingAdd(x: u64, y: u64): (u64, bool) {
    if x + y < BASE then (x + y, false) else (x + y - BASE, true)
  }

  lemma LimbProduct(x: u64, y: u64)
    ensures 0 <= x * y <= (BASE - 1) * (BASE - 1)
  {
    MulMonotone(x, y, BASE - 1);
    MulMonotone(BASE - 1, x, BASE - 1);
  }

  lemma {:induction false} HighLimbsDecide(a: seq<u64>, b: seq<u64>, k: nat)
    requires |a| == |b| && k <= |a|
    requires Part(a, k, |a| - k) < Part(b, k, |b| - k)
    ensures Value(a) < Value(b)
  {
    PartSplit(a, 0, k, |a| - k);
    PartSplit(b, 0, k, |b| - k);
    PartBound(a, 0, k);
    HighDecides(Pow(k), Part(a, 0, k), Part(a, k, |a| - k), Part(b, 0, k), Part(b, k, |b| - k));
  }

  lemma {:induction false} ShorterIsSmaller(a: seq<u64>, b: seq<u64>)
    requires Canonical(b)
    requires |a| < |b|
    ensures Value(a) < Value(b)
  {
    CanonicalLength(a);
    CanonicalLength(b);
    PowMonotone(|a|, |b| - 1);
  }

  /** Compares numerically whenever the lengths agree or both sides are canonical. */
  method CmpMagnitude(a: seq<u64>, b: seq<u64>) returns (order: Ordering)
    ensures |a| == |b| || (Canonical(a) && Canonical(b)) ==> order == Compare(Value(a), Value(b))
    ensures |a| != |b| ==> order == Compare(|a|, |b|)
  {
    if |a| != |b| {
      if Canonical(a) && |b| < |a| {
        ShorterIsSmaller(b, a);
      }
      if Canonical(b) && |a| < |b| {
        ShorterIsSmaller(a, b);
      }
      return Compare(|a|, |b|);
    }
    var i := |a|;
    while i > 0
      invariant 0 <= i <= |a|
      invariant Part(a, i, |a| - i) == Part(b, i, |a| - i)
    {
      i := i - 1;
      if a[i] != b[i] {
        if a[i] < b[i] {
          HighLimbsDecide(a, b, i);
        } else {
          HighLimbsDecide(b, a, i);
        }
        return Compare(a[i], b[i]);
      }
    }
    return Equal;
  }

  // ----- addition

  /** `out` and the carry above it hold the sum of the limbs read so far. */
  ghost predicate Summed(a: seq<u64>, b: seq<u64>, out: seq<u64>, carry: nat) {
    Value(out) + Pow(|out|) * carry == Part(a, 0, |out|) + Part(b, 0, |out|)
  }

  lemma {:induction false} AddStep(a: seq<u64>, b: seq<u64>, out: seq<u64>, carry: nat)
    requires Summed(a, b, out, carry)
    ensures var sum := At(a, |out|) + At(b, |out|) + carry;
            Summed(a, b, out + [sum % BASE], sum / BASE)
  {
    var n := |out|;
    PartSnoc(a, 0, n);
    PartSnoc(b, 0, n);
    ValueSnoc(out, (At(a, n) + At(b, n) + carry) % BASE);
    AddSpread(Pow(n), At(a, n), At(b, n), carry);
  }

  /** Enough limbs for the sum leave no carry. */
  lemma {:induction false} AddDone(a: seq<u64>, b: seq<u64>, out: seq<u64>, carry: nat)
    requires |a| <= |out| && |b| <= |out|
    requires Summed(a, b, out, carry)
    ensures Value(a) + Value(b) < Pow(|out|) <==> carry == 0
    ensures carry == 0 ==> Value(out) == Value(a) + Value(b)
    ensures carry <= 1 ==> Value(a) + Value(b) < Pow(|out| + 1)
  {
    PartPadded(a, |out|);
    PartPadded(b, |out|);
    PartBound(out, 0, |out|);
    if carry > 0 {
      MulAtLeast(Pow(|out|), carry);
    }
  }

  lemma AddSpread(p: nat, x: nat, y: nat, carry: nat)
    ensures var sum := x + y + carry;
            p * (sum % BASE) + (BASE * p) * (sum / BASE) == p * x + p * y + p * carry
  {
    Distribute(p, x + y + carry);
    MulAdd(p, x + y, carry);
    MulAdd(p, x, y);
  }

  lemma {:induction false} Distribute(p: nat, sum: nat)
    ensures p * (sum % BASE) + (BASE * p) * (sum / BASE) == p * sum
  {
    var q, r := sum / BASE, sum % BASE;
    MulAdd(p, BASE * q, r);
    MulAssoc(p, BASE, q);
  }

  method AddMagnitudeRequired(a: LimbVec, b: LimbVec) returns (required: usize)
    ensures Max(|a|, |b|) <= required <= Max(|a|, |b|) + 1
    ensures Value(a) + Value(b) < Pow(required)
    ensures Canonical(a) && Canonical(b) ==> required == LimbCount(Value(a) + Value(b))
  {
    var length := Max(|a|, |b|);
    var carry: u128 := 0;
    ghost var out: seq<u64> := [];
    for index := 0 to length
      invariant |out| == index
      invariant carry < 2 * BASE
      invariant Summed(a, b, out, carry / BASE)
    {
      AddStep(a, b, out, carry / BASE);
      carry := At(a, index) + At(b, index) + carry / BASE;
      out := out + [carry % BASE];
    }
    AddDone(a, b, out, carry / BASE);
    if Canonical(a) && Canonical(b) {
      AddLength(a, b, length);
    }
    required := if carry / BASE == 0 then length else length + 1;
  }

  lemma {:induction false} AddLength(a: seq<u64>, b: seq<u64>, n: nat)
    requires Canonical(a) && Canonical(b)
    requires n == Max(|a|, |b|)
    ensures LimbCount(Value(a) + Value(b)) == if Value(a) + Value(b) < Pow(n) then n else n + 1
  {
    PartBound(a, 0, |a|);
    PartBound(b, 0, |b|);
    PowMonotone(|a|, n);
    PowMonotone(|b|, n);
    if n == 0 {
    } else if |a| == n {
      CanonicalFloor(a);
    } else {
      CanonicalFloor(b);
    }
    SumLength(Value(a), Value(b), n);
  }

  lemma {:induction false} SumLength(x: nat, y: nat, n: nat)
    requires x < Pow(n) && y < Pow(n)
    requires n > 0 ==> Pow(n - 1) <= x + y
    ensures LimbCount(x + y) == if x + y < Pow(n) then n else n + 1
  {
    if x + y < Pow(n) {
      LimbCountIs(x + y, n);
    } else {
      LimbCountIs(x + y, n + 1);
    }
  }

  method AddMagnitude(a: LimbVec, b: LimbVec, operation: ArithmeticOperation, limit: usize)
    returns (r: Result<LimbVec, ArithmeticError>)
    requires Canonical(a) && Canonical(b)
    ensures var sum := Value(a) + Value(b);
            match Admission(operation, LimbCount(sum), limit)
            case Some(error) => r == Err(error)
            case None => r.Ok? && Value(r.value) == sum && Canonical(r.value)
  {
    var required := AddMagnitudeRequired(a, b);
    var refused := Admission(operation, required, limit);
    if refused.Some? {
      return Err(refused.value);
    }
    var out, carry := AddLimbs(a, b, required);
    AddDone(a, b, out, carry);
    CanonicalLength(out);
    return Ok(out);
  }

  /** The first `count` limbs of the sum, and the carry out of them. */
  method AddLimbs(a: LimbVec, b: LimbVec, count: usize) returns (out: LimbVec, carry: u128)
    requires count <= MAX_LIMBS
    ensures |out| == count && carry <= 1 && Summed(a, b, out, carry)
  {
    out, carry := [], 0;
    for index := 0 to count
      invariant |out| == index && carry <= 1
      invariant Summed(a, b, out, carry)
    {
      AddStep(a, b, out, carry);
      var sum: u128 := At(a, index) + At(b, index) + carry;
      out := out + [sum % BASE];
      carry := sum / BASE;
    }
  }

  // ----- subtraction

  function SubLimb(x: u64, y: u64, borrow: u64): (r: (u64, u64))
    requires borrow <= 1
    ensures r.1 <= 1
    ensures r.0 - BASE * r.1 == x - y - borrow
  {
    var (first, firstBorrow) := OverflowingSub(x, y);
    var (second, secondBorrow) := OverflowingSub(first, borrow);
    (second, if firstBorrow || secondBorrow then 1 else 0)
  }

  lemma {:induction false} SubStep(a: seq<u64>, b: seq<u64>, out: seq<u64>, borrow: u64)
    requires borrow <= 1
    requires Value(out) + Part(b, 0, |out|) == Part(a, 0, |out|) + Pow(|out|) * borrow
    ensures var (limb, next) := SubLimb(At(a, |out|), At(b, |out|), borrow);
            Value(out + [limb]) + Part(b, 0, |out| + 1) == Part(a, 0, |out| + 1) + Pow(|out| + 1) * next
  {
    var n := |out|;
    var p, x, y := Pow(n), At(a, n), At(b, n);
    var (limb, next) := SubLimb(x, y, borrow);
    PartSnoc(a, 0, n);
    PartSnoc(b, 0, n);
    ValueSnoc(out, limb);
    SubSpread(p, x, y, borrow, limb, next);
  }

  lemma SubSpread(p: nat, x: int, y: int, borrow: int, limb: int, next: int)
    requires limb - BASE * next == x - y - borrow
    ensures p * limb - (BASE * p) * next == p * x - p * y - p * borrow
  {
    MulAdd(p, limb, BASE * next);
    MulAssoc(p, BASE, next);
    MulAdd(p, x - y, borrow);
    MulAdd(p, x, y);
  }

  /** With `a >= b` the last borrow is zero and the limbs hold the difference. */
  lemma {:induction false} SubDone(a: seq<u64>, b: seq<u64>, out: seq<u64>, borrow: nat)
    requires |out| == |a| && |b| <= |a|
    requires Value(b) <= Value(a)
    requires Value(out) + Part(b, 0, |out|) == Part(a, 0, |out|) + Pow(|out|) * borrow
    ensures borrow == 0
    ensures Value(out) == Value(a) - Value(b)
  {
    PartPadded(b, |a|);
    PartBound(out, 0, |out|);
    NothingAbove(Pow(|out|), Value(a) - Value(b), borrow);
  }

  method SubMagnitudeRequired(a: LimbVec, b: LimbVec) returns (required: usize)
    requires |b| <= |a| && Value(b) <= Value(a)
    ensures required <= |a|
    ensures required == LimbCount(Value(a) - Value(b))
  {
    var borrow: u64 := 0;
    required := 0;
    ghost var out: seq<u64> := [];
    for index := 0 to |a|
      invariant |out| == index
      invariant borrow <= 1
      invariant Trimmed(out, required)
      invariant Value(out) + Part(b, 0, index) == Part(a, 0, index) + Pow(index) * borrow
    {
      SubStep(a, b, out, borrow);
      var (difference, next) := SubLimb(a[index], At(b, index), borrow);
      borrow := next;
      out := out + [difference];
      if difference != 0 {
        required := index + 1;
      }
    }
    SubDone(a, b, out, borrow);
    TrimmedCount(out, required);
  }

  method SubMagnitude(a: LimbVec, b: LimbVec, operation: ArithmeticOperation, limit: usize)
    returns (r: Result<LimbVec, ArithmeticError>)
    requires |b| <= |a| && Value(b) <= Value(a)
    ensures var difference := Value(a) - Value(b);
            match Admission(operation, LimbCount(difference), limit)
            case Some(error) => r == Err(error)
            case None => r.Ok? && Value(r.value) == difference && Canonical(r.value)
  {
    var required := SubMagnitudeRequired(a, b);
    var refused := Admission(operation, required, limit);
    if refused.Some? {
      return Err(refused.value);
    }
    var out: LimbVec := [];
    var borrow: u64 := 0;
    ghost var full: seq<u64> := [];
    for index := 0 to |a|
      invariant |full| == index
      invariant out == full[..Min(index, required)]
      invariant borrow <= 1
      invariant Value(full) + Part(b, 0, index) == Part(a, 0, index) + Pow(index) * borrow
    {
      SubStep(a, b, full, borrow);
      var (difference, next) := SubLimb(a[index], At(b, index), borrow);
      borrow := next;
      full := full + [difference];
      if index < required {
        out := out + [difference];
      }
    }
    SubDone(a, b, full, borrow);
    LimbCountBounds(Value(full));
    ValueTake(full, required);
    CanonicalLength(out);
    return Ok(out);
  }
}
