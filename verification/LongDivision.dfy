/** The in-place window steps of Algorithm D: subtract a multiple of the divisor, and add the divisor back. */
module LongDivision {
  import opened Words
  import opened Arith
  import opened Limbs
  import opened Magnitude
  import opened Division

  lemma {:induction false} PartUpdate(s: seq<u64>, lo: nat, n: nat, x: u64)
    requires lo + n < |s|
    ensures Part(s[lo + n := x], lo, n) == Part(s, lo, n)
    ensures Part(s[lo + n := x], lo, n + 1) == Part(s, lo, n) + Pow(n) * x
  {
    var t := s[lo + n := x];
    PartFrame(t, s, lo, n);
    PartSnoc(t, lo, n);
  }

  lemma SubtractSpread(
    p: nat, q: nat, part: nat, d: nat, limb: int, difference: int, carry: int, carry': int, borrow: int, borrow': int)
    requires difference - BASE * borrow' == limb - (q * d + carry - BASE * carry') - borrow
    ensures p * difference + q * (part + p * d)
            == p * limb + q * part + (BASE * p) * (carry' + borrow') - p * (carry + borrow)
  {
    MulAdd(q, part, p * d);
    MulAssoc(q, p, d);
    MulAdd(p, difference, q * d);
    MulAdd(p, limb + BASE * (carry' + borrow'), carry + borrow);
    MulAdd(p, limb, BASE * (carry' + borrow'));
    MulAssoc(p, BASE, carry' + borrow');
  }

  /** The first `index` limbs of the window already hold the difference, up to what is owed above them. */
  ghost predicate Subtracted(start: seq<u64>, now: seq<u64>, offset: nat, divisor: seq<u64>, q: nat, index: nat,
    owed: int) {
    Part(now, offset, index) + q * Part(divisor, 0, index) == Part(start, offset, index) + Pow(index) * owed
  }

  lemma {:induction false} SubtractedStep(
    start: seq<u64>, now: seq<u64>, offset: nat, divisor: seq<u64>, q: u64, index: nat,
    limb: u64, product: nat, difference: u64, carry: nat, borrow: nat, nextBorrow: nat)
    requires offset + index < |now| && limb == At(start, offset + index)
    requires product == q * At(divisor, index) + carry
    requires difference - BASE * nextBorrow == limb - product % BASE - borrow
    requires Subtracted(start, now, offset, divisor, q, index, carry + borrow)
    ensures Subtracted(start, now[offset + index := difference], offset, divisor, q, index + 1,
                       product / BASE + nextBorrow)
  {
    var d := At(divisor, index);
    SubtractSpread(Pow(index), q, Part(divisor, 0, index), d, limb, difference, carry, product / BASE, borrow,
                   nextBorrow);
    PartUpdate(now, offset, index, difference);
    PartSnoc(start, offset, index);
    PartSnoc(divisor, 0, index);
  }

  /** The limb above the divisor's settles what is owed, wrapping once if it cannot. */
  lemma {:induction false} SubtractedTop(
    start: seq<u64>, now: seq<u64>, offset: nat, divisor: seq<u64>, q: u64, owed: nat, limb: u64, wrapped: bool)
    requires offset + |divisor| < |now|
    requires limb == At(start, offset + |divisor|) - owed + (if wrapped then BASE else 0)
    requires Subtracted(start, now, offset, divisor, q, |divisor|, owed)
    ensures Part(now[offset + |divisor| := limb], offset, |divisor| + 1) + q * Value(divisor)
            == Part(start, offset, |divisor| + 1) + (if wrapped then Pow(|divisor| + 1) else 0)
  {
    var n, high := |divisor|, At(start, offset + |divisor|);
    PartUpdate(now, offset, n, limb);
    PartSnoc(start, offset, n);
    WrapSpread(Pow(n), limb, high, owed, wrapped);
  }

  lemma WrapSpread(p: nat, limb: int, high: int, owed: int, wrapped: bool)
    requires limb == high - owed + (if wrapped then BASE else 0)
    ensures p * limb == p * high - p * owed + (if wrapped then BASE * p else 0)
  {
    MulAdd(p, high, owed);
    MulAdd(p, high - owed, BASE);
  }

  /** Subtracts `quotientLimb * divisor` from the window at `offset`; true when it borrows. */
  method SubtractDivisorProduct(dividend: array<u64>, offset: nat, divisor: LimbVec, quotientLimb: u64)
    returns (borrowed: bool)
    requires offset + |divisor| < dividend.Length
    modifies dividend
    ensures forall i :: 0 <= i < dividend.Length && !(offset <= i <= offset + |divisor|) ==>
            dividend[i] == old(dividend[i])
    ensures Part(dividend[..], offset, |divisor| + 1) + quotientLimb * Value(divisor)
            == old(Part(dividend[..], offset, |divisor| + 1)) + (if borrowed then Pow(|divisor| + 1) else 0)
  {
    var n := |divisor|;
    ghost var start := dividend[..];
    var productCarry: u128 := 0;
    var borrow: u64 := 0;
    for index := 0 to n
      invariant productCarry < BASE && borrow <= 1
      invariant forall i :: 0 <= i < dividend.Length && !(offset <= i < offset + index) ==> dividend[i] == start[i]
      invariant Subtracted(start, dividend[..], offset, divisor, quotientLimb, index, productCarry + borrow)
    {
      ghost var before := dividend[..];
      LimbProduct(quotientLimb, divisor[index]);
      var product: u128 := quotientLimb * divisor[index] + productCarry;
      var (difference, nextBorrow) := SubLimb(dividend[offset + index], product % BASE, borrow);
      SubtractedStep(start, before, offset, divisor, quotientLimb, index, dividend[offset + index],
                     product, difference, productCarry, borrow, nextBorrow);
      productCarry := product / BASE;
      dividend[offset + index] := difference;
      borrow := nextBorrow;
      assert dividend[..] == before[offset + index := difference];
    }
    ghost var before := dividend[..];
    var highIndex := offset + n;
    var highSubtrahend: u128 := productCarry + borrow;
    var highLimb: u128 := dividend[highIndex];
    borrowed := highLimb < highSubtrahend;
    var limb: u64 := if borrowed then BASE + highLimb - highSubtrahend else highLimb - highSubtrahend;
    SubtractedTop(start, before, offset, divisor, quotientLimb, highSubtrahend, limb, borrowed);
    dividend[highIndex] := limb;
    assert dividend[..] == before[highIndex := limb];
  }

  ghost predicate AddedBack(start: seq<u64>, now: seq<u64>, offset: nat, divisor: seq<u64>, index: nat, carry: nat) {
    Part(now, offset, index) + Pow(index) * carry == Part(start, offset, index) + Part(divisor, 0, index)
  }

  lemma {:induction false} AddedBackStep(
    start: seq<u64>, now: seq<u64>, offset: nat, divisor: seq<u64>, index: nat, carry: nat, limb: u64, sum: nat)
    requires offset + index < |now|
    requires sum == At(start, offset + index) + At(divisor, index) + carry && limb == sum % BASE
    requires AddedBack(start, now, offset, divisor, index, carry)
    ensures AddedBack(start, now[offset + index := limb], offset, divisor, index + 1, sum / BASE)
  {
    PartUpdate(now, offset, index, limb);
    PartSnoc(start, offset, index);
    PartSnoc(divisor, 0, index);
    AddSpread(Pow(index), At(start, offset + index), At(divisor, index), carry);
  }

  /** The carry out of the window's top limb is dropped. */
  lemma {:induction false} AddedBackTop(
    start: seq<u64>, now: seq<u64>, offset: nat, divisor: seq<u64>, carry: nat, limb: u64, dropped: bool)
    requires offset + |divisor| < |now|
    requires limb + (if dropped then BASE else 0) == At(start, offset + |divisor|) + carry
    requires AddedBack(start, now, offset, divisor, |divisor|, carry)
    ensures Part(now[offset + |divisor| := limb], offset, |divisor| + 1) + (if dropped then Pow(|divisor| + 1) else 0)
            == Part(start, offset, |divisor| + 1) + Value(divisor)
  {
    var n, high := |divisor|, At(start, offset + |divisor|);
    PartUpdate(now, offset, n, limb);
    PartSnoc(start, offset, n);
    WrapSpread(Pow(n), high, limb, carry, dropped);
  }

  /** Adds the divisor back into the window at `offset`, dropping the carry out of it. */
  method AddDivisorBack(dividend: array<u64>, offset: nat, divisor: LimbVec)
    requires offset + |divisor| < dividend.Length
    modifies dividend
    ensures forall i :: 0 <= i < dividend.Length && !(offset <= i <= offset + |divisor|) ==>
            dividend[i] == old(dividend[i])
    ensures var sum := old(Part(dividend[..], offset, |divisor| + 1)) + Value(divisor);
            Part(dividend[..], offset, |divisor| + 1)
            == if sum < Pow(|divisor| + 1) then sum else sum - Pow(|divisor| + 1)
  {
    var n := |divisor|;
    ghost var start := dividend[..];
    var carry: u128 := 0;
    for index := 0 to n
      invariant carry <= 1
      invariant forall i :: 0 <= i < dividend.Length && !(offset <= i < offset + index) ==> dividend[i] == start[i]
      invariant AddedBack(start, dividend[..], offset, divisor, index, carry)
    {
      ghost var before := dividend[..];
      var sum: u128 := dividend[offset + index] + divisor[index] + carry;
      var limb: u64 := sum % BASE;
      AddedBackStep(start, before, offset, divisor, index, carry, limb, sum);
      dividend[offset + index] := limb;
      carry := sum / BASE;
      assert dividend[..] == before[offset + index := limb];
    }
    ghost var before := dividend[..];
    var highIndex := offset + n;
    var (wrapped, dropped) := OverflowingAdd(dividend[highIndex], carry);
    AddedBackTop(start, before, offset, divisor, carry, wrapped, dropped);
    dividend[highIndex] := wrapped;
    assert dividend[..] == before[highIndex := wrapped];
    PartBound(dividend[..], offset, n + 1);
  }
}
