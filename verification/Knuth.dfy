/** Algorithm D assembled: quotient digits from the top down, then the remainder. */
module Knuth {
  import opened Words
  import opened Arith
  import opened Limbs
  import opened Magnitude
  import opened Division
  import opened LongDivision

  lemma {:induction false} TopTwo(s: seq<u64>, lo: nat, n: nat, top: nat)
    requires n >= 2 && top == At(s, lo + n - 1) * BASE + At(s, lo + n - 2)
    ensures Part(s, lo, n) == Part(s, lo, n - 2) + Pow(n - 2) * top
    ensures Part(s, lo, n - 2) < Pow(n - 2)
  {
    PartSplit(s, lo, n - 2, 2);
    PartBound(s, lo, n - 2);
    var k := lo + n - 2;
    assert Part(s, k + 1, 1) == At(s, k + 1) + BASE * Part(s, k + 2, 0);
    MulEqual(Pow(n - 2), Part(s, k, 2), top);
  }

  lemma {:induction false} TopThree(s: seq<u64>, lo: nat, n: nat, top: nat)
    requires n >= 2 && top == (At(s, lo + n) * BASE + At(s, lo + n - 1)) * BASE + At(s, lo + n - 2)
    ensures Part(s, lo, n + 1) == Part(s, lo, n - 2) + Pow(n - 2) * top
    ensures Part(s, lo, n - 2) < Pow(n - 2)
  {
    PartSplit(s, lo, n - 2, 3);
    PartBound(s, lo, n - 2);
    var k := lo + n - 2;
    assert Part(s, k + 1, 2) == At(s, k + 1) + BASE * Part(s, k + 2, 1);
    assert Part(s, k + 2, 1) == At(s, k + 2) + BASE * Part(s, k + 3, 0);
    MulEqual(Pow(n - 2), Part(s, k, 3), top);
  }

  /** A number known through its leading part: `low` below weight `p`, `top` above it. */
  ghost predicate Leads(number: nat, p: nat, low: nat, top: nat) {
    low < p && number == low + p * top
  }

  /** A digit from the top limbs alone is the true digit or one more. */
  lemma DigitClose(p: nat, window: nat, low: nat, top: nat, divisor: nat, divisorLow: nat, divisorTop: nat, q: nat)
    requires Leads(window, p, low, top) && Leads(divisor, p, divisorLow, divisorTop)
    requires divisorTop >= BASE && window < BASE * divisor
    requires q == Min(BASE - 1, top / divisorTop)
    ensures window < (q + 1) * divisor
    ensures q * divisor < window + divisor
  {
    DivModParts(top, divisorTop);
    MulAdd(divisorTop, top / divisorTop, 1);
    if q < BASE - 1 {
      DigitNotSmall(p, window, low, top, divisor, divisorLow, divisorTop, q);
    }
    MulMonotone(divisorTop, q, top / divisorTop);
    DigitNotLarge(p, window, low, top, divisor, divisorLow, divisorTop, q);
  }

  lemma DigitNotSmall(p: nat, window: nat, low: nat, top: nat, divisor: nat, divisorLow: nat, divisorTop: nat, q: nat)
    requires Leads(window, p, low, top) && Leads(divisor, p, divisorLow, divisorTop)
    requires top < (q + 1) * divisorTop
    ensures window < (q + 1) * divisor
  {
    MulStrict(p, top, (q + 1) * divisorTop);
    MulAdd(q + 1, divisorLow, p * divisorTop);
    MulAssoc(q + 1, p, divisorTop);
    MulMonotone(divisorLow, 0, q + 1);
  }

  lemma DigitNotLarge(p: nat, window: nat, low: nat, top: nat, divisor: nat, divisorLow: nat, divisorTop: nat, q: nat)
    requires Leads(window, p, low, top) && Leads(divisor, p, divisorLow, divisorTop)
    requires divisorTop >= BASE && q < BASE && q * divisorTop <= top
    ensures q * divisor < window + divisor
  {
    MulAdd(q, divisorLow, p * divisorTop);
    MulAssoc(q, p, divisorTop);
    MulMonotone(p, q * divisorTop, top);
    MulMonotone(q, divisorLow, p);
    MulStrict(p, q, BASE);
    MulMonotone(p, BASE, divisorTop);
  }

  /** The running window: its top limbs are below the divisor, so one digit divides it. */
  lemma {:induction false} WindowFacts(s: seq<u64>, offset: nat, divisor: seq<u64>)
    requires |divisor| >= 2 && divisor[|divisor| - 1] >= BASE / 2
    requires Part(s, offset + 1, |divisor|) < Value(divisor)
    ensures var n := |divisor|;
            At(s, offset + n) * BASE + At(s, offset + n - 1) <= divisor[n - 1] * BASE + divisor[n - 2]
    ensures Part(s, offset, |divisor| + 1) < BASE * Value(divisor)
  {
    var n := |divisor|;
    var high, divisorHigh := At(s, offset + n) * BASE + At(s, offset + n - 1), divisor[n - 1] * BASE + divisor[n - 2];
    TopTwo(s, offset + 1, n, high);
    TopTwo(divisor, 0, n, divisorHigh);
    if divisorHigh < high {
      HighDecides(Pow(n - 2), Part(divisor, 0, n - 2), divisorHigh, Part(s, offset + 1, n - 2), high);
    }
  }

  lemma {:induction false} WindowDigit(s: seq<u64>, offset: nat, divisor: seq<u64>, top: nat, divisorTop: nat,
    digit: u64)
    requires |divisor| >= 2 && divisor[|divisor| - 1] >= BASE / 2
    requires Part(s, offset + 1, |divisor|) < Value(divisor)
    requires top == (At(s, offset + |divisor|) * BASE + At(s, offset + |divisor| - 1)) * BASE + At(s,
          offset + |divisor| - 2)
    requires divisorTop == divisor[|divisor| - 1] * BASE + divisor[|divisor| - 2]
    requires digit == Min(BASE - 1, top / divisorTop)
    ensures Part(s, offset, |divisor| + 1) < (digit + 1) * Value(divisor)
    ensures digit * Value(divisor) < Part(s, offset, |divisor| + 1) + Value(divisor)
  {
    var n := |divisor|;
    WindowFacts(s, offset, divisor);
    TopTwo(divisor, 0, n, divisorTop);
    TopThree(s, offset, n, top);
    DigitClose(Pow(n - 2), Part(s, offset, n + 1), Part(s, offset, n - 2), top,
               Value(divisor), Part(divisor, 0, n - 2), divisorTop, digit);
  }

  /** One pass of the digit loop: the window is replaced by its remainder. */
  method NextQuotientLimb(dividend: array<u64>, offset: nat, divisor: LimbVec) returns (quotientLimb: u64)
    requires |divisor| >= 2 && divisor[|divisor| - 1] >= BASE / 2
    requires offset + |divisor| < dividend.Length
    requires Part(dividend[..], offset + 1, |divisor|) < Value(divisor)
    modifies dividend
    ensures forall i :: 0 <= i < dividend.Length && !(offset <= i <= offset + |divisor|) ==>
            dividend[i] == old(dividend[i])
    ensures old(Part(dividend[..], offset, |divisor| + 1))
            == quotientLimb * Value(divisor) + Part(dividend[..], offset, |divisor| + 1)
    ensures Part(dividend[..], offset, |divisor| + 1) < Value(divisor)
  {
    ghost var start := dividend[..];
    var n := |divisor|;
    var highIndex := offset + n;
    WindowFacts(start, offset, divisor);
    quotientLimb := TrialQuotient(dividend[highIndex], dividend[highIndex - 1], dividend[highIndex - 2],
                                  divisor[n - 1], divisor[n - 2]);
    WindowDigit(start, offset, divisor, (start[highIndex] * BASE + start[highIndex - 1]) * BASE + start[highIndex - 2],
                divisor[n - 1] * BASE + divisor[n - 2], quotientLimb);
    MulAdd(Value(divisor), quotientLimb, 1);
    PartBound(divisor, 0, n);
    var borrowed := SubtractDivisorProduct(dividend, offset, divisor, quotientLimb);
    PartBound(dividend[..], offset, n + 1);
    if borrowed {
      assert quotientLimb != 0;
      quotientLimb := quotientLimb - 1;
      MulAdd(Value(divisor), quotientLimb, 1);
      AddDivisorBack(dividend, offset, divisor);
    }
  }

  // ----- the digit loop

  /** Digits from `k` up are settled: they account for all but a rest below the divisor's weight. */
  ghost predicate Settled(total: nat, s: seq<u64>, divisor: nat, quotient: seq<u64>, k: nat) {
    && k <= |s| && k <= |quotient|
    && Value(s) + divisor * (Pow(k) * Part(quotient, k, |quotient| - k)) == total
    && Part(s, k, |s| - k) < divisor
  }

  lemma {:induction false} ZeroAbove(s: seq<u64>, k: nat, divisor: seq<u64>)
    requires k + |divisor| <= |s|
    requires Part(s, k, |s| - k) < Value(divisor)
    ensures Part(s, k + |divisor|, |s| - k - |divisor|) == 0
    ensures Part(s, k, |s| - k) == Part(s, k, |divisor|)
  {
    var m := |divisor|;
    PartSplit(s, k, m, |s| - k - m);
    PartBound(divisor, 0, m);
    NothingAbove(Pow(m), Part(s, k, m), Part(s, k + m, |s| - k - m));
  }

  lemma {:induction false} WindowValue(s: seq<u64>, offset: nat, width: nat)
    requires offset + width <= |s|
    requires Part(s, offset + width, |s| - offset - width) == 0
    ensures Value(s) == Part(s, 0, offset) + Pow(offset) * Part(s, offset, width)
    ensures Part(s, offset, |s| - offset) == Part(s, offset, width)
  {
    PartSplit(s, 0, offset, |s| - offset);
    PartSplit(s, offset, width, |s| - offset - width);
    assert Pow(width) * 0 == 0;
  }

  lemma DigitAccount(total: nat, low: nat, p: nat, window: nat, window': nat, divisor: nat, digit: nat, higher: nat)
    requires low + p * window + divisor * ((BASE * p) * higher) == total
    requires window == digit * divisor + window'
    ensures low + p * window' + divisor * (p * (digit + BASE * higher)) == total
  {
    MulAdd(p, digit * divisor, window');
    MulAssoc(p, digit, divisor);
    MulAdd(p, digit, BASE * higher);
    MulAssoc(p, BASE, higher);
    MulAdd(divisor, p * digit, (BASE * p) * higher);
    MulAssoc(divisor, p, digit);
  }

  /** Writing one more digit below the settled ones. */
  lemma {:induction false} DigitWritten(quotient: seq<u64>, offset: nat, digit: u64)
    requires offset < |quotient|
    ensures Part(quotient[offset := digit], offset, |quotient| - offset) == digit + BASE * Part(quotient, offset + 1,
          |quotient| - offset - 1)
  {
    PartFrame(quotient[offset := digit], quotient, offset + 1, |quotient| - offset - 1);
  }

  /** The windows around a digit step: what lies below is untouched and nothing lies above. */
  lemma {:induction false} WindowsAround(before: seq<u64>, after: seq<u64>, divisor: seq<u64>, offset: nat, width: nat)
    requires |before| == |after| && width == |divisor| + 1 && offset + width <= |before|
    requires Part(before, offset + 1, |before| - offset - 1) < Value(divisor)
    requires forall i :: 0 <= i < |before| && !(offset <= i < offset + width) ==> after[i] == before[i]
    ensures Value(before) == Part(before, 0, offset) + Pow(offset) * Part(before, offset, width)
    ensures Value(after) == Part(before, 0, offset) + Pow(offset) * Part(after, offset, width)
    ensures Part(after, offset, |after| - offset) == Part(after, offset, width)
  {
    ZeroAbove(before, offset + 1, divisor);
    PartFrame(after, before, offset + width, |before| - offset - width);
    PartFrame(after, before, 0, offset);
    WindowValue(before, offset, width);
    WindowValue(after, offset, width);
  }

  lemma {:induction false} SettledStep(total: nat, before: seq<u64>, after: seq<u64>, divisor: seq<u64>,
    quotient: seq<u64>, offset: nat, digit: u64)
    requires |before| == |after| && offset + |divisor| < |before| && offset < |quotient|
    requires Settled(total, before, Value(divisor), quotient, offset + 1)
    requires forall i :: 0 <= i < |before| && !(offset <= i <= offset + |divisor|) ==> after[i] == before[i]
    requires Part(before, offset, |divisor| + 1) == digit * Value(divisor) + Part(after, offset, |divisor| + 1)
    requires Part(after, offset, |divisor| + 1) < Value(divisor)
    ensures Settled(total, after, Value(divisor), quotient[offset := digit], offset)
  {
    var width, d, p := |divisor| + 1, Value(divisor), Pow(offset);
    var low, window, window' := Part(before, 0, offset), Part(before, offset, width), Part(after, offset, width);
    var higher := Part(quotient, offset + 1, |quotient| - offset - 1);
    WindowsAround(before, after, divisor, offset, width);
    DigitWritten(quotient, offset, digit);
    assert Pow(offset + 1) == BASE * p;
    DigitAccount(total, low, p, window, window', d, digit, higher);
  }

  /** Divides a normalised dividend in place; the rest stays in the low limbs. */
  method DivideNormalized(dividend: array<u64>, divisor: LimbVec, quotientLimbs: nat) returns (quotient: LimbVec)
    requires |divisor| >= 2 && divisor[|divisor| - 1] >= BASE / 2
    requires quotientLimbs <= MAX_LIMBS && quotientLimbs + |divisor| <= dividend.Length
    requires Part(dividend[..], quotientLimbs, dividend.Length - quotientLimbs) < Value(divisor)
    modifies dividend
    ensures |quotient| == quotientLimbs
    ensures old(Value(dividend[..])) == Value(divisor) * Value(quotient) + Value(dividend[..])
    ensures Value(dividend[..]) < Value(divisor)
  {
    ghost var total := Value(dividend[..]);
    quotient := seq(quotientLimbs, _ => 0);
    var offset := quotientLimbs;
    assert Value(divisor) * (Pow(offset) * 0) == 0;
    while offset > 0
      invariant 0 <= offset <= quotientLimbs == |quotient|
      invariant Settled(total, dividend[..], Value(divisor), quotient, offset)
    {
      offset := offset - 1;
      ghost var before := dividend[..];
      ZeroAbove(before, offset + 1, divisor);
      var quotientLimb := NextQuotientLimb(dividend, offset, divisor);
      SettledStep(total, before, dividend[..], divisor, quotient, offset, quotientLimb);
      quotient := quotient[offset := quotientLimb];
    }
    assert Pow(0) * Value(quotient) == Value(quotient);
  }
}
