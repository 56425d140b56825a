/** Magnitude division by one limb and by many, with their limb admission. */
module Quotients {
  import opened Words
  import opened Arith
  import opened Limbs
  import opened Magnitude
  import opened Division
  import opened LongDivision
  import opened Knuth

  lemma QuotientBetween(x: nat, d: nat, lo: nat, hi: nat)
    requires d > 0 && d * lo <= x < d * hi
    ensures lo <= x / d < hi
  {
    DivModParts(x, d);
    MulAdd(d, x / d, 1);
    if x / d < lo {
      MulMonotone(d, x / d + 1, lo);
    }
    if hi <= x / d {
      MulMonotone(d, hi, x / d);
    }
  }

  lemma ShortQuotient(x: nat, d: nat, p: nat, low: nat, top: nat, p': nat, pm: nat)
    requires x == low + p * top && low < p
    requires top < d <= pm && pm * p' <= x
    ensures p' <= x / d < p
  {
    HighDecides(p, low, top, 0, d);
    MulMonotone(p', d, pm);
    QuotientBetween(x, d, p', p);
  }

  lemma LongQuotient(x: nat, d: nat, p: nat, low: nat, top: nat, p': nat, pm: nat)
    requires x == low + p * top
    requires 0 < pm <= d <= top && x < pm * p'
    ensures p <= x / d < p'
  {
    MulMonotone(p, d, top);
    MulMonotone(p', pm, d);
    QuotientBetween(x, d, p, p');
  }

  /** Comparing the top limbs with the divisor fixes the quotient's length. */
  lemma {:induction false} QuotientLength(dividend: seq<u64>, divisor: seq<u64>, offset: nat, top: nat)
    requires Canonical(dividend) && Canonical(divisor) && divisor != []
    requires offset == |dividend| - |divisor| && 0 < Value(divisor) <= Value(dividend)
    requires top == Part(dividend, offset, |divisor|)
    ensures top < Value(divisor) ==> offset > 0
    ensures LimbCount(Value(dividend) / Value(divisor)) == if top < Value(divisor) then offset else offset + 1
  {
    if top < Value(divisor) {
      QuotientLengthShort(dividend, divisor, offset, top);
    } else {
      QuotientLengthLong(dividend, divisor, offset, top);
    }
  }

  lemma {:induction false} QuotientLengthShort(dividend: seq<u64>, divisor: seq<u64>, offset: nat, top: nat)
    requires Canonical(dividend) && divisor != []
    requires offset == |dividend| - |divisor| && 0 < Value(divisor) <= Value(dividend)
    requires top == Part(dividend, offset, |divisor|) < Value(divisor)
    ensures offset > 0 && LimbCount(Value(dividend) / Value(divisor)) == offset
  {
    var m := |divisor|;
    PartSplit(dividend, 0, offset, m);
    PartBound(dividend, 0, offset);
    PartBound(divisor, 0, m);
    CanonicalFloor(dividend);
    assert offset > 0;
    PowAdd(m, offset - 1);
    ShortQuotient(Value(dividend), Value(divisor), Pow(offset), Part(dividend, 0, offset), top, Pow(offset - 1),
                  Pow(m));
    LimbCountIs(Value(dividend) / Value(divisor), offset);
  }

  lemma {:induction false} QuotientLengthLong(dividend: seq<u64>, divisor: seq<u64>, offset: nat, top: nat)
    requires Canonical(divisor) && divisor != []
    requires offset == |dividend| - |divisor| && 0 < Value(divisor)
    requires top == Part(dividend, offset, |divisor|) >= Value(divisor)
    ensures LimbCount(Value(dividend) / Value(divisor)) == offset + 1
  {
    var m := |divisor|;
    PartSplit(dividend, 0, offset, m);
    PartBound(dividend, 0, |dividend|);
    CanonicalFloor(divisor);
    PowAdd(m - 1, offset + 1);
    LongQuotient(Value(dividend), Value(divisor), Pow(offset), Part(dividend, 0, offset), top, Pow(offset + 1),
                 Pow(m - 1));
    LimbCountIs(Value(dividend) / Value(divisor), offset + 1);
  }

  method QuotientLimbCount(dividend: LimbVec, divisor: LimbVec) returns (count: usize)
    requires Canonical(dividend) && Canonical(divisor) && divisor != []
    requires |divisor| <= |dividend| && 0 < Value(divisor) <= Value(dividend)
    ensures count == LimbCount(Value(dividend) / Value(divisor))
    ensures |dividend| - |divisor| <= count <= |dividend| - |divisor| + 1
    ensures count > 0
  {
    var limbOffset := |dividend| - |divisor|;
    PartDrop(dividend, limbOffset, 0, |divisor|);
    QuotientLength(dividend, divisor, limbOffset, Value(dividend[limbOffset..]));
    var order := CmpMagnitude(dividend[limbOffset..], divisor);
    count := if order == Less then limbOffset else limbOffset + 1;
  }

  /** Canonical quotient and remainder of `x` by `d`. */
  ghost predicate Divides(x: nat, d: nat, quotient: seq<u64>, remainder: seq<u64>) {
    && x == d * Value(quotient) + Value(remainder)
    && Value(remainder) < d
    && Canonical(quotient) && Canonical(remainder)
  }

  // ----- one divisor limb

  lemma DivideDown(divisor: nat, q: nat, higher: nat, partial: nat, rest: nat, limb: nat)
    requires partial == rest * BASE + limb && divisor > 0 && q == partial / divisor
    ensures limb + BASE * (divisor * higher + rest) == divisor * (q + BASE * higher) + partial % divisor
  {
    DivModParts(partial, divisor);
    MulAdd(divisor, q, BASE * higher);
    MulAssoc(divisor, BASE, higher);
  }

  /** Long division by one limb; the quotient gets exactly the limbs it needs. */
  method DivRemMagnitudeByLimb(dividend: LimbVec, divisor: u64, quotientLimbs: usize, limit: usize)
    returns (r: Result<(LimbVec, LimbVec), ArithmeticError>)
    requires divisor > 0 && 0 < quotientLimbs <= |dividend|
    requires quotientLimbs == LimbCount(Value(dividend) / divisor)
    ensures match Admission(Divide, quotientLimbs, limit)
            case Some(error) => r == Err(error)
            case None =>
              r.Ok? && Divides(Value(dividend), divisor, r.value.0, r.value.1)
  {
    var refused := Admission(Divide, quotientLimbs, limit);
    if refused.Some? {
      return Err(refused.value);
    }
    var quotient: LimbVec := seq(quotientLimbs, _ => 0);
    ghost var full: seq<u64> := seq(|dividend|, _ => 0);
    var remainder: u128 := 0;
    var index := |dividend|;
    assert divisor * 0 == 0;
    while index > 0
      invariant 0 <= index <= |dividend| == |full|
      invariant |quotient| == quotientLimbs
      invariant remainder < divisor
      invariant forall i :: 0 <= i < quotientLimbs ==> quotient[i] == full[i]
      invariant Part(dividend, index, |dividend| - index) == divisor * Part(full, index, |full| - index) + remainder
    {
      index := index - 1;
      var partial: u128 := remainder * BASE + dividend[index];
      LimbQuotient(remainder, dividend[index], divisor);
      var quotientLimb: u64 := partial / divisor;
      ByLimbStep(dividend, full, full[index := quotientLimb], index, divisor, remainder, quotientLimb);
      remainder := partial % divisor;
      full := full[index := quotientLimb];
      if index < quotientLimbs {
        quotient := quotient[index := quotientLimb];
      }
    }
    assert quotient == full[..quotientLimbs];
    ByLimbDone(Value(dividend), divisor, full, quotientLimbs, remainder);
    match Admission(Divide, if remainder != 0 then 1 else 0, limit) {
      case Some(error) =>
        return Err(error);
      case None =>
    }
    var remainderOut: LimbVec := if remainder != 0 then [remainder] else [];
    return Ok((quotient, remainderOut));
  }

  lemma {:induction false} ByLimbDone(x: nat, divisor: nat, full: seq<u64>, count: nat, remainder: u64)
    requires divisor > 0 && count <= |full| && count == LimbCount(x / divisor)
    requires x == divisor * Value(full) + remainder && remainder < divisor
    ensures Divides(x, divisor, full[..count], if remainder != 0 then [remainder] else [])
  {
    DivUnique(x, divisor, Value(full), remainder);
    LimbCountBounds(Value(full));
    ValueTake(full, count);
    CanonicalLength(full[..count]);
    assert Value([remainder]) == remainder + BASE * Part([remainder], 1, 0);
  }

  lemma {:induction false} ByLimbStep(s: seq<u64>, before: seq<u64>, after: seq<u64>, index: nat, divisor: nat,
    rest: nat, q: u64)
    requires |before| == |after| == |s| && index < |s| && divisor > 0
    requires after == before[index := q] && q == (rest * BASE + s[index]) / divisor
    requires Part(s, index + 1, |s| - index - 1) == divisor * Part(before, index + 1, |s| - index - 1) + rest
    ensures Part(s, index, |s| - index) ==
            divisor * Part(after, index, |s| - index) + (rest * BASE + s[index]) % divisor
  {
    var higher := Part(before, index + 1, |s| - index - 1);
    PartFrame(after, before, index + 1, |s| - index - 1);
    DivideDown(divisor, q, higher, rest * BASE + s[index], rest, s[index]);
    MulEqual(divisor, Part(after, index, |s| - index), q + BASE * higher);
  }

  lemma LimbQuotient(rest: nat, limb: u64, divisor: u64)
    requires rest < divisor
    ensures 0 <= (rest * BASE + limb) / divisor < BASE
    ensures 0 <= (rest * BASE + limb) % divisor < divisor
  {
    var partial := rest * BASE + limb;
    DivModParts(partial, divisor);
    if partial / divisor >= BASE {
      MulMonotone(divisor, BASE, partial / divisor);
    }
  }

  // ----- many divisor limbs

  lemma ShiftDownSpread(up: nat, down: nat, high: nat, lowBits: nat, rest: nat, above: nat)
    requires up * down == BASE
    ensures up * ((high + rest * down) + BASE * above) + lowBits == (up * high + lowBits) + BASE * (up * above + rest)
  {
    MulAdd(up, high + rest * down, BASE * above);
    MulAdd(up, high, rest * down);
    MulAssoc(up, rest, down);
    MulAssoc(up, BASE, above);
    MulAssoc(rest, up, down);
  }

  lemma {:induction false} ShiftDownStep(
    start: seq<u64>, before: seq<u64>, index: nat, n: nat, shift: Shift, rest: nat, high: nat, limb: u64)
    requires shift.Valid() && index < n <= |start| == |before|
    requires limb == high + rest * shift.down && start[index] == shift.up * high + start[index] % shift.up
    requires shift.up * Part(before, index + 1, n - index - 1) + rest == Part(start, index + 1, n - index - 1)
    ensures shift.up * Part(before[index := limb], index, n - index) + start[index] % shift.up ==
            Part(start, index, n - index)
  {
    var after, above := before[index := limb], Part(before, index + 1, n - index - 1);
    PartFrame(after, before, index + 1, n - index - 1);
    ShiftDownSpread(shift.up, shift.down, high, start[index] % shift.up, rest, above);
    MulEqual(shift.up, Part(after, index, n - index), high + rest * shift.down + BASE * above);
  }

  /** Undoes the normalisation of the low `n` limbs, which must be a multiple of its factor. */
  method ShiftRemainderDown(limbs: array<u64>, n: nat, shift: Shift, ghost remainder: nat)
    requires shift.Valid() && n <= limbs.Length
    requires Part(limbs[..], 0, n) == shift.up * remainder
    modifies limbs
    ensures Part(limbs[..], 0, n) == remainder
  {
    ghost var start := limbs[..];
    var carry: u64 := 0;
    ghost var rest: nat := 0;
    var index := n;
    assert shift.up * 0 == 0;
    while index > 0
      invariant 0 <= index <= n
      invariant rest < shift.up && carry == rest * shift.down && carry + shift.down <= BASE
      invariant forall i :: 0 <= i < index ==> limbs[i] == start[i]
      invariant shift.up * Part(limbs[..], index, n - index) + rest == Part(start, index, n - index)
    {
      index := index - 1;
      var limb := limbs[index];
      ghost var before := limbs[..];
      SplitBy(limb, shift.down, shift.up);
      var high := ShiftedOut(limb, shift.Complement());
      var shifted: u64 := high + carry;
      limbs[index] := shifted;
      assert limbs[..] == before[index := shifted];
      ShiftDownStep(start, before, index, n, shift, rest, high, shifted);
      carry := Shl(limb, shift.Complement());
      rest := limb % shift.up;
    }
    ExactShift(shift.up, remainder, Part(limbs[..], 0, n), rest);
  }

  lemma ExactShift(up: nat, remainder: nat, shifted: nat, rest: nat)
    requires rest < up && up * shifted + rest == up * remainder
    ensures shifted == remainder
  {
    MulAdd(up, remainder, shifted);
    if remainder > shifted {
      MulAtLeast(up, remainder - shifted);
    } else if shifted > remainder {
      MulStrict(up, remainder, shifted);
    }
  }

  method TrimmedLength(limbs: array<u64>, n: nat) returns (length: nat)
    requires n <= limbs.Length
    ensures Trimmed(limbs[..n], length)
  {
    length := n;
    while length > 0 && limbs[length - 1] == 0
      invariant 0 <= length <= n
      invariant forall i :: length <= i < n ==> limbs[i] == 0
    {
      length := length - 1;
    }
  }

  /** The refusal of the first allocation that does not fit, in the order they are made. */
  function FirstRefusal(quotientLimbs: nat, divisorLimbs: nat, dividendLimbs: nat,
    limit: usize): Option<ArithmeticError> {
    var quotient := Admission(Divide, quotientLimbs, limit);
    var divisor := Admission(Divide, divisorLimbs, limit);
    if quotient.Some? then quotient
    else if divisor.Some? then divisor
    else Admission(Divide, dividendLimbs + 1, limit)
  }

  lemma ScaleBelow(low: nat, p: nat, top: nat, up: nat, down: nat)
    requires low < p && up >= 1 && up * down == BASE && top * up < BASE
    ensures (low + p * top) * up < p * BASE
    ensures (low + p * top) * up >= p * (top * up)
  {
    if down <= top {
      MulMonotone(up, down, top);
    }
    MulAdd(up, low, p * top);
    MulAssoc(p, top, up);
    MulStrict(up, low, p);
    MulMonotone(up, top + 1, down);
    MulAdd(up, top, 1);
    MulMonotone(p, (top + 1) * up, BASE);
    MulAdd(p, top * up, up);
  }

  /** Normalising the divisor keeps its length and fills its top limb. */
  lemma {:induction false} NormalizedDivisor(divisor: seq<u64>, shift: Shift)
    requires divisor != [] && shift.Valid()
    requires BASE / 2 <= divisor[|divisor| - 1] * shift.up < BASE
    ensures Value(divisor) * shift.up < Pow(|divisor|)
    ensures Value(divisor) * shift.up >= Pow(|divisor| - 1) * (BASE / 2)
  {
    var n := |divisor| - 1;
    PartSnoc(divisor, 0, n);
    PartBound(divisor, 0, n);
    ScaleBelow(Part(divisor, 0, n), Pow(n), divisor[n], shift.up, shift.down);
    MulMonotone(Pow(n), BASE / 2, divisor[n] * shift.up);
  }

  lemma {:induction false} FullTopLimb(s: seq<u64>)
    requires s != [] && Value(s) >= Pow(|s| - 1) * (BASE / 2)
    ensures s[|s| - 1] >= BASE / 2
  {
    var n := |s| - 1;
    PartSnoc(s, 0, n);
    PartBound(s, 0, n);
    if s[n] < BASE / 2 {
      HighDecides(Pow(n), Part(s, 0, n), s[n], 0, BASE / 2);
    }
  }

  lemma {:induction false} HighBelow(s: seq<u64>, k: nat, bound: nat)
    requires k <= |s| && Value(s) < Pow(k) * bound
    ensures Part(s, k, |s| - k) < bound
  {
    PartSplit(s, 0, k, |s| - k);
    if bound <= Part(s, k, |s| - k) {
      MulMonotone(Pow(k), bound, Part(s, k, |s| - k));
    }
  }

  lemma {:induction false} LowHoldsAll(s: seq<u64>, k: nat)
    requires k <= |s| && Value(s) < Pow(k)
    ensures Part(s, 0, k) == Value(s)
  {
    PartSplit(s, 0, k, |s| - k);
    NothingAbove(Pow(k), Part(s, 0, k), Part(s, k, |s| - k));
  }

  /** A quotient below `p` bounds the normalised dividend. */
  lemma ScaledQuotient(x: nat, d: nat, up: nat, p: nat)
    requires d > 0 && up > 0 && x / d < p
    ensures x * up < p * (d * up)
  {
    DivModParts(x, d);
    MulAdd(d, x / d, 1);
    MulMonotone(d, x / d + 1, p);
    MulStrict(up, x, d * p);
    MulAssoc(up, d, p);
    MulAssoc(p, d, up);
  }

  /** Dividing scaled operands gives the same quotient and a scaled remainder. */
  lemma ScaledDivision(x: nat, d: nat, up: nat, v: nat, q: nat, scaledRest: nat) returns (rest: nat)
    requires d > 0 && up > 0 && v == d * up
    requires x * up == v * q + scaledRest && scaledRest < v
    ensures scaledRest == up * rest && x == d * q + rest && rest < d
  {
    MulAssoc(d, up, q);
    MulAdd(up, x, d * q);
    var r := x - d * q;
    assert scaledRest == up * r;
    if r < 0 {
      MulStrict(up, r, 0);
    }
    if r >= d {
      MulMonotone(up, d, r);
    }
    rest := r;
  }

  method DivRemMagnitudeKnuth(dividend: LimbVec, divisor: LimbVec, quotientLimbs: usize, limit: usize)
    returns (r: Result<(LimbVec, LimbVec), ArithmeticError>)
    requires Canonical(divisor) && 2 <= |divisor| <= |dividend|
    requires 0 < Value(divisor)
    requires quotientLimbs == LimbCount(Value(dividend) / Value(divisor)) <= |dividend| - |divisor| + 1
    ensures match FirstRefusal(quotientLimbs, |divisor|, |dividend|, limit)
            case Some(error) => r == Err(error)
            case None =>
              r.Ok? && Divides(Value(dividend), Value(divisor), r.value.0, r.value.1)
  {
    var refused := Admission(Divide, quotientLimbs, limit);
    if refused.Some? {
      return Err(refused.value);
    }
    var n := |divisor|;
    var shift := NormalizingShift(divisor[n - 1]);
    NormalizedDivisor(divisor, shift);
    var normalizedDivisor := NormalizedDivisionOperand(divisor, shift, false, limit);
    if normalizedDivisor.Err? {
      return Err(normalizedDivisor.error);
    }
    var normalizedDividend := NormalizedDivisionOperand(dividend, shift, true, limit);
    if normalizedDividend.Err? {
      return Err(normalizedDividend.error);
    }
    FullTopLimb(normalizedDivisor.value);
    var quotient, remainder := DivideScaled(Value(dividend), Value(divisor), normalizedDividend.value,
                                            normalizedDivisor.value, shift, quotientLimbs);
    return Ok((quotient, remainder));
  }

  /** The division of normalised operands, and the remainder brought back to scale. */
  method DivideScaled(
    ghost x: nat, ghost d: nat, u: LimbVec, v: LimbVec, shift: Shift, quotientLimbs: usize)
    returns (quotient: LimbVec, remainder: LimbVec)
    requires shift.Valid() && |v| >= 2 && v[|v| - 1] >= BASE / 2 && d > 0
    requires Value(u) == x * shift.up && Value(v) == d * shift.up
    requires quotientLimbs == LimbCount(x / d) && quotientLimbs + |v| <= |u|
    ensures Divides(x, d, quotient, remainder)
  {
    ReadyToDivide(x, d, shift.up, u, Value(v), quotientLimbs);
    var limbs := new u64[|u|](i requires 0 <= i < |u| => u[i]);
    assert limbs[..] == u;
    quotient := DivideNormalized(limbs, v, quotientLimbs);
    ghost var rest := ScaledDivision(x, d, shift.up, Value(v), Value(quotient), Value(limbs[..]));
    PartBound(v, 0, |v|);
    remainder := RemainderLimbs(limbs, |v|, shift, rest);
    DivUnique(x, d, Value(quotient), rest);
    CanonicalLength(quotient);
  }

  lemma {:induction false} ReadyToDivide(x: nat, d: nat, up: nat, u: seq<u64>, v: nat, count: nat)
    requires d > 0 && up > 0 && Value(u) == x * up && v == d * up
    requires count == LimbCount(x / d) && count <= |u|
    ensures Part(u, count, |u| - count) < v
  {
    LimbCountBounds(x / d);
    ScaledQuotient(x, d, up, Pow(count));
    MulEqual(Pow(count), v, d * up);
    HighBelow(u, count, v);
  }

  /** Brings the rest left in place by the digit loop back to scale, without high zeros. */
  method RemainderLimbs(limbs: array<u64>, n: nat, shift: Shift, ghost rest: nat) returns (remainder: LimbVec)
    requires shift.Valid() && n <= limbs.Length && n <= MAX_LIMBS
    requires Value(limbs[..]) == shift.up * rest && Value(limbs[..]) < Pow(n)
    modifies limbs
    ensures Value(remainder) == rest && Canonical(remainder)
  {
    LowHoldsAll(limbs[..], n);
    if shift.up != 1 {
      ShiftRemainderDown(limbs, n, shift, rest);
    }
    var length := TrimmedLength(limbs, n);
    remainder := limbs[..length];
    TrimmedPart(limbs[..], n, remainder);
  }

  lemma {:induction false} TrimmedPart(limbs: seq<u64>, n: nat, remainder: seq<u64>)
    requires n <= |limbs| && Trimmed(limbs[..n], |remainder|) && remainder == limbs[..|remainder|]
    ensures Value(remainder) == Part(limbs, 0, n) && Canonical(remainder)
  {
    PartFrame(limbs[..n], limbs, 0, n);
    TrimmedCount(limbs[..n], |remainder|);
    assert limbs[..n][..|remainder|] == remainder;
    CanonicalLength(remainder);
  }
}
