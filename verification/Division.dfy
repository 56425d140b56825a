/**
 Multi-limb division: Algorithm D of section 4.3.1 of Knuth, The Art of Computer
 Programming, volume 2, over an in-place normalised dividend.
 */
module Division {
  import opened Words
  import opened Arith
  import opened Limbs
  import opened Magnitude

  // ----- shifts

  function Pow2(n: nat): (p: nat)
    ensures p >= 1
  {
    if n == 0 then 1 else 2 * Pow2(n - 1)
  }

  lemma {:induction false} Pow2Add(m: nat, n: nat)
    ensures Pow2(m + n) == Pow2(m) * Pow2(n)
  {
    if m > 0 {
      Pow2Add(m - 1, n);
      assert Pow2(m + n) == 2 * Pow2(m - 1 + n);
      MulAssoc(2, Pow2(m - 1), Pow2(n));
    }
  }

  lemma WordIsPow2()
    ensures Pow2(64) == BASE
  {
    Pow2Doubles(1, 2);
    Pow2Doubles(2, 4);
    Pow2Doubles(4, 0x10);
    Pow2Doubles(8, 0x100);
    Pow2Doubles(16, 0x1_0000);
    Pow2Doubles(32, 0x1_0000_0000);
  }

  lemma {:induction false} Pow2Doubles(n: nat, value: nat)
    requires Pow2(n) == value
    ensures Pow2(2 * n) == value * value
  {
    Pow2Add(n, n);
  }

  /** The zero bits above the top set bit. */
  function LeadingZeros(x: u64): (shift: nat)
    requires x > 0
    ensures BASE / 2 <= x * Pow2(shift) < BASE
    decreases BASE - x
  {
    if x >= BASE / 2 then 0
    else
      var rest := LeadingZeros(2 * x);
      assert x * Pow2(1 + rest) == (2 * x) * Pow2(rest) by { MulAssoc(x, 2, Pow2(rest)); }
      1 + rest
  }

  lemma {:induction false} Pow2Monotone(m: nat, n: nat)
    requires m <= n
    ensures Pow2(m) <= Pow2(n)
  {
    Pow2Add(m, n - m);
    MulAtLeast(Pow2(m), Pow2(n - m));
  }

  lemma LeadingZerosFit(x: u64)
    requires x > 0
    ensures LeadingZeros(x) < 64
  {
    var shift := LeadingZeros(x);
    if shift >= 64 {
      WordIsPow2();
      Pow2Monotone(64, shift);
      MulAtLeast(Pow2(shift), x);
    }
  }

  /**
   A shift by `s` bits, held as the factors `up == 2^s` and `down == 2^(64 - s)` that
   split a limb between the bits that stay and the bits that cross into its neighbour.
   */
  datatype Shift = Shift(up: nat, down: nat) {
    ghost predicate Valid() {
      up >= 1 && down >= 1 && up * down == BASE
    }

    /** The complementary shift, by `64 - s` bits. */
    function Complement(): Shift {
      Shift(down, up)
    }
  }

  function NormalizingShift(top: u64): (shift: Shift)
    requires top > 0
    ensures shift.Valid()
    ensures BASE / 2 <= top * shift.up < BASE
  {
    var bits := LeadingZeros(top);
    LeadingZerosFit(top);
    Pow2Add(bits, 64 - bits);
    WordIsPow2();
    Shift(Pow2(bits), Pow2(64 - bits))
  }

  lemma SplitBy(x: nat, p: nat, q: nat)
    requires p * q == BASE && x < BASE && p >= 1 && q >= 1
    ensures x == q * (x / q) + x % q
    ensures 0 <= x / q < p
    ensures 0 <= x % q < q && 0 <= (x % q) * p <= BASE - p
    ensures x * p == BASE * (x / q) + (x % q) * p
    ensures p <= BASE
  {
    DivModParts(x, q);
    MulMonotone(p, 0, x % q);
    if p <= x / q {
      MulMonotone(q, p, x / q);
    }
    MulMonotone(p, x % q + 1, q);
    MulAdd(p, x % q, 1);
    MulAdd(p, q * (x / q), x % q);
    MulAssoc(p, q, x / q);
    MulAtLeast(p, q);
  }

  /** `x << s`: the bits that stay, moved up, leaving the low `s` bits free. */
  function Shl(x: u64, shift: Shift): (r: u64)
    requires shift.Valid()
    ensures r + shift.up <= BASE
  {
    SplitBy(x, shift.up, shift.down);
    (x % shift.down) * shift.up
  }

  /** `x >> (64 - s)`: the bits a left shift by `s` carries out. */
  function ShiftedOut(x: u64, shift: Shift): (r: u64)
    requires shift.Valid()
    ensures r < shift.up
    ensures x * shift.up == BASE * r + Shl(x, shift)
  {
    SplitBy(x, shift.up, shift.down);
    x / shift.down
  }

  /** Every allocation check a normalised operand passes; or-ing a carry into free bits is a sum. */
  method NormalizedDivisionOperand(magnitude: LimbVec, shift: Shift, extraHighLimb: bool, limit: usize)
    returns (r: Result<LimbVec, ArithmeticError>)
    requires shift.Valid()
    requires extraHighLimb || Value(magnitude) * shift.up < Pow(|magnitude|)
    ensures var required := |magnitude| + (if extraHighLimb then 1 else 0);
            match Admission(Divide, required, limit)
            case Some(error) => r == Err(error)
            case None => r.Ok? && |r.value| == required && Value(r.value) == Value(magnitude) * shift.up
  {
    var required: usize := |magnitude| + (if extraHighLimb then 1 else 0);
    var refused := Admission(Divide, required, limit);
    if refused.Some? {
      return Err(refused.value);
    }
    if shift.up == 1 {
      ValueSnoc(magnitude, 0);
      return Ok(if extraHighLimb then magnitude + [0] else magnitude);
    }
    var normalized: LimbVec := [];
    var carry: u64 := 0;
    for index := 0 to |magnitude|
      invariant |normalized| == index
      invariant carry < shift.up
      invariant Scaled(magnitude, normalized, shift.up, carry)
    {
      var limb: u64 := Shl(magnitude[index], shift) + carry;
      var next := ShiftedOut(magnitude[index], shift);
      ScaledStep(magnitude, normalized, shift.up, carry, limb, next);
      normalized := normalized + [limb];
      carry := next;
    }
    ScaledDone(magnitude, normalized, shift.up, carry);
    return Ok(if extraHighLimb then normalized + [carry] else normalized);
  }

  /** `out` and the carry above it hold `p` times the limbs of `s` read so far. */
  ghost predicate Scaled(s: seq<u64>, out: seq<u64>, p: nat, carry: nat) {
    Value(out) + Pow(|out|) * carry == Part(s, 0, |out|) * p
  }

  lemma {:induction false} ScaledStep(s: seq<u64>, out: seq<u64>, p: nat, carry: nat, limb: u64, next: nat)
    requires Scaled(s, out, p, carry)
    requires At(s, |out|) * p + carry == BASE * next + limb
    ensures Scaled(s, out + [limb], p, next)
  {
    PartSnoc(s, 0, |out|);
    ValueSnoc(out, limb);
    ScaleSpread(Pow(|out|), Part(s, 0, |out|), At(s, |out|), p, carry, limb, next);
  }

  lemma {:induction false} ScaledDone(s: seq<u64>, out: seq<u64>, p: nat, carry: u64)
    requires |out| == |s| && Scaled(s, out, p, carry)
    ensures Value(out + [carry]) == Value(s) * p
    ensures Value(s) * p < Pow(|s|) ==> Value(out) == Value(s) * p
  {
    ValueSnoc(out, carry);
    if Value(s) * p < Pow(|s|) {
      NothingAbove(Pow(|s|), Value(out), carry);
    }
  }

  lemma ScaleSpread(w: nat, part: nat, x: nat, p: nat, carry: nat, limb: nat, next: nat)
    requires x * p + carry == BASE * next + limb
    ensures (part + w * x) * p + w * carry == part * p + w * limb + (BASE * w) * next
  {
    MulAdd(p, part, w * x);
    MulAssoc(w, x, p);
    MulAdd(w, x * p, carry);
    MulAdd(w, BASE * next, limb);
    MulAssoc(w, BASE, next);
  }

  // ----- one quotient digit

  /** No digit above `q`, short of the largest one, fits `divisor` into `dividend`. */
  ghost predicate NotBelow(dividend: nat, divisor: nat, q: nat) {
    q >= BASE - 1 || (q + 1) * divisor > dividend
  }

  lemma FirstEstimate(high: u64, middle: u64, divisorHigh: u64)
    requires divisorHigh >= BASE / 2 && high <= divisorHigh
    ensures var q := (high * BASE + middle) / divisorHigh;
            q <= BASE + 1 && (q >= BASE ==> high == divisorHigh)
  {
    var numerator := high * BASE + middle;
    var q := numerator / divisorHigh;
    DivModParts(numerator, divisorHigh);
    if q >= BASE + 2 {
      MulMonotone(divisorHigh, BASE + 2, q);
    } else if q >= BASE {
      MulMonotone(divisorHigh, BASE, q);
    }
  }

  lemma EstimateNotBelow(numerator: nat, low: u64, divisorHigh: nat, divisorNext: u64)
    requires divisorHigh > 0
    ensures NotBelow(numerator * BASE + low, divisorHigh * BASE + divisorNext, numerator / divisorHigh)
  {
    var q := numerator / divisorHigh;
    DivModParts(numerator, divisorHigh);
    MulAdd(divisorHigh, q, 1);
    TrialProduct(q + 1, divisorHigh, divisorNext, (q + 1) * divisorHigh, 0);
    MulMonotone(divisorNext, 0, q + 1);
  }

  lemma TrialProductsFit(q: nat, divisorNext: u64)
    requires q <= BASE + 1
    ensures q * divisorNext < BASE * BASE
  {
    MulMonotone(divisorNext, q, BASE + 1);
  }

  /** The source's correction test, defined where neither product overflows 128 bits. */
  predicate Overestimates(q: u128, divisorNext: u64, r: u128, low: u64)
    requires q * divisorNext < BASE * BASE
    requires BASE * r + low < BASE * BASE
  {
    q == BASE || q * divisorNext > BASE * r + low
  }

  /** Multiplying a digit by the top two divisor limbs. */
  lemma TrialProduct(q: nat, divisorHigh: nat, divisorNext: nat, numerator: int, r: int)
    requires q * divisorHigh + r == numerator
    ensures q * (divisorHigh * BASE + divisorNext) == (numerator - r) * BASE + q * divisorNext
  {
    MulAdd(q, divisorHigh * BASE, divisorNext);
    MulAssoc(q, divisorHigh, BASE);
  }

  lemma ClippedDigit(dividend: nat, divisor: nat, q: nat)
    requires divisor > 0 && q < BASE
    requires q * divisor <= dividend && NotBelow(dividend, divisor, q)
    ensures q == Min(BASE - 1, dividend / divisor)
  {
    var d, r := dividend / divisor, dividend % divisor;
    assert dividend == divisor * d + r;
    MulAdd(divisor, d, 1);
    if d < q {
      MulMonotone(divisor, d + 1, q);
    }
    if q < BASE - 1 && q < d {
      MulMonotone(divisor, q + 1, d);
    }
  }

  /** What the correction loop keeps about its trial digit `q` and remainder `r`. */
  ghost predicate Trial(numerator: nat, low: u64, divisorHigh: u64, divisorNext: u64, q: int, r: int) {
    && q * divisorHigh + r == numerator
    && 0 <= q <= BASE + 1
    && (q >= BASE ==> numerator >= divisorHigh * BASE)
    && 0 <= r
    && NotBelow(numerator * BASE + low, divisorHigh * BASE + divisorNext, q)
  }

  lemma TrialDown(numerator: nat, low: u64, divisorHigh: u64, divisorNext: u64, q: nat, r: nat)
    requires Trial(numerator, low, divisorHigh, divisorNext, q, r)
    requires q == BASE || q * divisorNext > BASE * r + low
    ensures q > 0
    ensures Trial(numerator, low, divisorHigh, divisorNext, q - 1, r + divisorHigh)
  {
    TrialProduct(q, divisorHigh, divisorNext, numerator, r);
    MulAdd(divisorHigh, q, 1);
  }

  /** A trial digit that passes the correction test is a limb and fits. */
  lemma TrialPasses(numerator: nat, low: u64, divisorHigh: u64, divisorNext: u64, q: nat, r: nat)
    requires divisorHigh >= BASE / 2
    requires numerator <= divisorHigh * BASE + divisorNext
    requires Trial(numerator, low, divisorHigh, divisorNext, q, r)
    requires q != BASE && q * divisorNext <= BASE * r + low
    ensures q < BASE
    ensures q * (divisorHigh * BASE + divisorNext) <= numerator * BASE + low
  {
    TrialProduct(q, divisorHigh, divisorNext, numerator, r);
    // A first estimate of base + 1 leaves remainder numerator - divisorHigh * (base + 1).
    MulAdd(divisorHigh, BASE, 1);
  }

  /** Once the trial remainder leaves its limb no further correction is needed. */
  lemma TrialStops(numerator: nat, low: u64, divisorHigh: u64, divisorNext: u64, q: nat, r: nat)
    requires numerator < divisorHigh * BASE + BASE
    requires Trial(numerator, low, divisorHigh, divisorNext, q, r)
    requires r >= BASE
    ensures q < BASE
    ensures q * (divisorHigh * BASE + divisorNext) <= numerator * BASE + low
  {
    TrialProduct(q, divisorHigh, divisorNext, numerator, r);
    MulCancelLess(divisorHigh, q, BASE);
    LimbProduct(q, divisorNext);
  }

  /** The quotient digit read off the top three dividend limbs and top two divisor limbs. */
  method TrialQuotient(high: u64, middle: u64, low: u64, divisorHigh: u64, divisorNext: u64)
    returns (digit: u64)
    requires divisorHigh >= BASE / 2
    requires high * BASE + middle <= divisorHigh * BASE + divisorNext
    ensures digit == Min(BASE - 1, ((high * BASE + middle) * BASE + low) / (divisorHigh * BASE + divisorNext))
  {
    var numerator: u128 := high * BASE + middle;
    DivModParts(numerator, divisorHigh);
    FirstEstimate(high, middle, divisorHigh);
    var trialQuotient: u128 := numerator / divisorHigh;
    var trialRemainder: u128 := numerator % divisorHigh;
    EstimateNotBelow(numerator, low, divisorHigh, divisorNext);
    TrialProductsFit(trialQuotient, divisorNext);
    while Overestimates(trialQuotient, divisorNext, trialRemainder, low)
      invariant Trial(numerator, low, divisorHigh, divisorNext, trialQuotient, trialRemainder)
      invariant trialQuotient * divisorNext < BASE * BASE && trialRemainder < BASE
      decreases trialQuotient
    {
      TrialDown(numerator, low, divisorHigh, divisorNext, trialQuotient, trialRemainder);
      trialQuotient := trialQuotient - 1;
      trialRemainder := trialRemainder + divisorHigh;
      TrialProductsFit(trialQuotient, divisorNext);
      if trialRemainder >= BASE {
        TrialStops(numerator, low, divisorHigh, divisorNext, trialQuotient, trialRemainder);
        break;
      }
    }
    if trialRemainder < BASE {
      TrialPasses(numerator, low, divisorHigh, divisorNext, trialQuotient, trialRemainder);
    }
    ClippedDigit(numerator * BASE + low, divisorHigh * BASE + divisorNext, trialQuotient);
    digit := trialQuotient;
  }
}
