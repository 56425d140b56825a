/**
 Schoolbook multiplication by columns. Column `j` of a product collects every
 `a[i] * b[j - i]`; a three-limb accumulator carries from one column to the next.
 */
module Multiplication {
  import opened Words
  import opened Arith
  import opened Limbs
  import opened Magnitude

  ghost function Column(a: seq<u64>, b: seq<u64>, j: nat, n: nat): nat {
    if n == 0 then 0
    else Column(a, b, j, n - 1) + Term(a, b, j, n - 1)
  }

  ghost function Term(a: seq<u64>, b: seq<u64>, j: nat, i: nat): nat {
    if i <= j then At(a, i) * At(b, j - i) else 0
  }

  /** The weighted sum of the first `c` columns over the first `n` limbs of `a`. */
  ghost function Columns(a: seq<u64>, b: seq<u64>, c: nat, n: nat): nat {
    if c == 0 then 0 else Columns(a, b, c - 1, n) + Pow(c - 1) * Column(a, b, c - 1, n)
  }

  lemma {:induction false} ColumnsEmpty(a: seq<u64>, b: seq<u64>, c: nat)
    ensures Columns(a, b, c, 0) == 0
  {
    if c > 0 {
      ColumnsEmpty(a, b, c - 1);
    }
  }

  /** What limb `n` of `a` adds to the first `c` columns. */
  ghost function Row(a: seq<u64>, b: seq<u64>, c: nat, n: nat): nat {
    Pow(n) * At(a, n) * Part(b, 0, if n <= c then c - n else 0)
  }

  lemma {:induction false} RowStep(a: seq<u64>, b: seq<u64>, c: nat, n: nat)
    ensures Row(a, b, c + 1, n) == Row(a, b, c, n) + Pow(c) * Term(a, b, c, n)
  {
    if n <= c {
      var k := c - n;
      var x, y := At(a, n), At(b, k);
      PartSnoc(b, 0, k);
      PowAdd(n, k);
      RowTerm(Pow(n), x, Part(b, 0, k), Pow(k), y);
      assert Part(b, 0, 0) == 0;
      assert Pow(n) * x * 0 == 0;
    }
  }

  lemma RowTerm(p: nat, x: nat, part: nat, q: nat, y: nat)
    ensures p * x * (part + q * y) == p * x * part + (p * q) * (x * y)
  {
    MulAdd(p * x, part, q * y);
    MulAssoc(p * x, q, y);
    MulAssoc(p, x, q);
    MulAssoc(p * q, x, y);
  }

  lemma {:induction false} ColumnsRow(a: seq<u64>, b: seq<u64>, c: nat, n: nat)
    ensures Columns(a, b, c, n + 1) == Columns(a, b, c, n) + Row(a, b, c, n)
    decreases c
  {
    if c > 0 {
      ColumnsRow(a, b, c - 1, n);
      RowStep(a, b, c - 1, n);
      MulAdd(Pow(c - 1), Column(a, b, c - 1, n), Term(a, b, c - 1, n));
    }
  }

  lemma {:induction false} ColumnsArePartialProduct(a: seq<u64>, b: seq<u64>, c: nat, n: nat)
    requires n == 0 || c >= n - 1 + |b|
    ensures Columns(a, b, c, n) == Part(a, 0, n) * Value(b)
    decreases n
  {
    if n == 0 {
      ColumnsEmpty(a, b, c);
    } else {
      ColumnsArePartialProduct(a, b, c, n - 1);
      ColumnsRow(a, b, c, n - 1);
      PartSnoc(a, 0, n - 1);
      MulAdd(Value(b), Part(a, 0, n - 1), Pow(n - 1) * At(a, n - 1));
      PartPadded(b, c - (n - 1));
    }
  }

  /** All columns together are the product. */
  lemma {:induction false} ColumnsAreProduct(a: seq<u64>, b: seq<u64>, c: nat)
    requires a != [] && c >= |a| + |b| - 1
    ensures Columns(a, b, c, |a|) == Value(a) * Value(b)
  {
    ColumnsArePartialProduct(a, b, c, |a|);
  }

  // ----- the accumulator

  ghost function Triple(acc: seq<u64>): nat
    requires |acc| == 3
  {
    acc[0] + BASE * acc[1] + BASE * BASE * acc[2]
  }

  /** Adds one limb product; the flag is false when the top limb would overflow. */
  method AddProductToAccumulator(accumulator: array<u64>, left: u64, right: u64) returns (ok: bool)
    requires accumulator.Length == 3
    modifies accumulator
    ensures ok <==> old(Triple(accumulator[..])) + left * right < BASE * BASE * BASE
    ensures ok ==> Triple(accumulator[..]) == old(Triple(accumulator[..])) + left * right
  {
    LimbProduct(left, right);
    var product: u128 := left * right;
    var (low, carryLow) := OverflowingAdd(accumulator[0], product % BASE);
    accumulator[0] := low;
    var (sum, carryHigh) := OverflowingAdd(accumulator[1], product / BASE);
    var (high, carryFromLow) := OverflowingAdd(sum, if carryLow then 1 else 0);
    accumulator[1] := high;
    var carry := if carryHigh || carryFromLow then 1 else 0;
    ok := accumulator[2] + carry < BASE;
    if ok {
      accumulator[2] := accumulator[2] + carry;
    }
  }

  lemma {:induction false} ColumnSkips(a: seq<u64>, b: seq<u64>, j: nat, m: nat, n: nat)
    requires m <= n
    requires forall i :: m <= i < n ==> Term(a, b, j, i) == 0
    ensures Column(a, b, j, n) == Column(a, b, j, m)
    decreases n
  {
    if m < n {
      ColumnSkips(a, b, j, m, n - 1);
    }
  }

  // What a column may start from, and what `terms` products raise it to.
  ghost predicate Roomy(acc: nat, terms: nat) {
    acc <= MAX_LIMBS * (BASE - 1) + terms * ((BASE - 1) * (BASE - 1))
  }

  lemma RoomyStep(acc: nat, terms: nat, left: u64, right: u64)
    requires Roomy(acc, terms) && terms < MAX_LIMBS
    ensures Roomy(acc + left * right, terms + 1)
    ensures acc + left * right < BASE * BASE * BASE
  {
    LimbProduct(left, right);
    MulAdd((BASE - 1) * (BASE - 1), terms, 1);
    RoomyFits(acc + left * right, terms + 1);
  }

  /** A column of at most `MAX_LIMBS` products leaves room for the next column. */
  lemma RoomyFits(acc: nat, terms: nat)
    requires Roomy(acc, terms) && terms <= MAX_LIMBS
    ensures acc < BASE * BASE * BASE
    ensures Roomy(acc / BASE, 0)
  {
    MulMonotone((BASE - 1) * (BASE - 1), terms, MAX_LIMBS);
  }

  method AccumulateProductColumn(a: LimbVec, b: LimbVec, column: nat, accumulator: array<u64>)
    requires a != [] && b != [] && accumulator.Length == 3
    requires Roomy(Triple(accumulator[..]), 0)
    modifies accumulator
    ensures Triple(accumulator[..]) == old(Triple(accumulator[..])) + Column(a, b, column, |a|)
    ensures Roomy(Triple(accumulator[..]), |a|)
  {
    var firstLeft := Max(column - (|b| - 1), 0);
    var lastLeft := Min(column, |a| - 1);
    ghost var start := Triple(accumulator[..]);
    ColumnSkips(a, b, column, 0, Min(firstLeft, |a|));
    if firstLeft <= lastLeft {
      var leftIndex := firstLeft;
      while leftIndex <= lastLeft
        invariant firstLeft <= leftIndex <= lastLeft + 1
        invariant Triple(accumulator[..]) == start + Column(a, b, column, leftIndex)
        invariant Roomy(Triple(accumulator[..]), leftIndex)
      {
        var rightIndex := column - leftIndex;
        RoomyStep(Triple(accumulator[..]), leftIndex, a[leftIndex], b[rightIndex]);
        var ok := AddProductToAccumulator(accumulator, a[leftIndex], b[rightIndex]);
        assert ok;
        leftIndex := leftIndex + 1;
      }
      ColumnSkips(a, b, column, leftIndex, |a|);
      MulMonotone((BASE - 1) * (BASE - 1), leftIndex, |a|);
    }
  }

  method ShiftProductAccumulator(accumulator: array<u64>)
    requires accumulator.Length == 3
    modifies accumulator
    ensures Triple(accumulator[..]) == old(Triple(accumulator[..])) / BASE
    ensures old(accumulator[0]) == old(Triple(accumulator[..])) % BASE
  {
    accumulator[0], accumulator[1], accumulator[2] := accumulator[1], accumulator[2], 0;
  }

  lemma {:induction false} ColumnDone(out: seq<u64>, before: nat, column: nat, acc: nat)
    requires Value(out) + Pow(|out|) * acc == before + Pow(|out|) * column
    ensures Value(out + [acc % BASE]) + Pow(|out| + 1) * (acc / BASE) == before + Pow(|out|) * column
  {
    ValueSnoc(out, acc % BASE);
    Distribute(Pow(|out|), acc);
  }

  /** Limbs already emitted and the accumulator together hold the columns seen so far. */
  ghost predicate Holds(a: seq<u64>, b: seq<u64>, out: seq<u64>, acc: nat) {
    && Roomy(acc, 0)
    && Value(out) + Pow(|out|) * acc == Columns(a, b, |out|, |a|)
  }

  /** Emitting the low limb of the accumulator after a column keeps the account. */
  lemma {:induction false} HoldsStep(a: seq<u64>, b: seq<u64>, out: seq<u64>, before: nat, acc: nat)
    requires |a| <= MAX_LIMBS
    requires Holds(a, b, out, before)
    requires acc == before + Column(a, b, |out|, |a|) && Roomy(acc, |a|)
    ensures Holds(a, b, out + [acc % BASE], acc / BASE)
  {
    MulAdd(Pow(|out|), before, Column(a, b, |out|, |a|));
    ColumnDone(out, Columns(a, b, |out|, |a|), Column(a, b, |out|, |a|), acc);
    RoomyFits(acc, |a|);
  }

  lemma {:induction false} HoldsPastEnd(a: seq<u64>, b: seq<u64>, out: seq<u64>, acc: nat)
    requires |a| <= MAX_LIMBS && |out| >= |a| + |b| - 1
    requires Holds(a, b, out, acc)
    ensures Holds(a, b, out + [acc % BASE], acc / BASE)
  {
    ColumnSkips(a, b, |out|, 0, |a|);
    MulMonotone((BASE - 1) * (BASE - 1), 0, |a|);
    HoldsStep(a, b, out, acc, acc);
  }

  method MulMagnitudeRequired(a: LimbVec, b: LimbVec) returns (required: usize)
    ensures required == LimbCount(Value(a) * Value(b))
  {
    if a == [] || b == [] {
      return 0;
    }
    var columns: usize := |a| + |b| - 1;
    var accumulator := new u64[3](_ => 0);
    required := 0;
    ghost var out: seq<u64> := [];
    for column := 0 to columns
      invariant column == |out|
      invariant Trimmed(out, required)
      invariant Holds(a, b, out, Triple(accumulator[..]))
    {
      ghost var before := Triple(accumulator[..]);
      AccumulateProductColumn(a, b, column, accumulator);
      HoldsStep(a, b, out, before, Triple(accumulator[..]));
      out := out + [accumulator[0]];
      if accumulator[0] != 0 {
        required := column + 1;
      }
      ShiftProductAccumulator(accumulator);
    }
    out, required := DrainAccumulator(a, b, columns, accumulator, required, out);
    ColumnsAreProduct(a, b, |out|);
    TrimmedCount(out, required);
  }

  /** The limbs left in the accumulator after the last column. */
  method DrainAccumulator(a: LimbVec, b: LimbVec, columns: usize, accumulator: array<u64>, last: usize,
    ghost emitted: seq<u64>)
    returns (ghost out: seq<u64>, required: usize)
    requires accumulator.Length == 3
    requires columns == |emitted| == |a| + |b| - 1
    requires Trimmed(emitted, last) && Holds(a, b, emitted, Triple(accumulator[..]))
    modifies accumulator
    ensures |out| >= columns
    ensures Trimmed(out, required) && Value(out) == Columns(a, b, |out|, |a|)
  {
    var column := columns;
    required, out := last, emitted;
    while !(accumulator[0] == 0 && accumulator[1] == 0 && accumulator[2] == 0)
      invariant column == |out| >= columns
      invariant Trimmed(out, required)
      invariant Holds(a, b, out, Triple(accumulator[..]))
      invariant column > columns ==> Triple(accumulator[..]) < BASE
      invariant column > columns + 1 ==> Triple(accumulator[..]) == 0
      decreases Triple(accumulator[..])
    {
      HoldsPastEnd(a, b, out, Triple(accumulator[..]));
      out := out + [accumulator[0]];
      if accumulator[0] != 0 {
        required := column + 1;
      }
      ShiftProductAccumulator(accumulator);
      column := column + 1;
    }
    assert Pow(|out|) * 0 == 0;
  }

  /** No column lies above the top limb of a product of canonical magnitudes. */
  lemma {:induction false} ProductCoversColumns(a: seq<u64>, b: seq<u64>, required: nat)
    requires Canonical(a) && Canonical(b) && a != [] && b != []
    requires Value(a) * Value(b) < Pow(required)
    ensures |a| + |b| - 1 <= required
  {
    CanonicalLength(a);
    CanonicalLength(b);
    PowAdd(|a| - 1, |b| - 1);
    MulMonotone(Pow(|a| - 1), Pow(|b| - 1), Value(b));
    MulMonotone(Value(b), Pow(|a| - 1), Value(a));
    if required <= |a| + |b| - 2 {
      PowMonotone(required, |a| + |b| - 2);
    }
  }

  method MulMagnitude(a: LimbVec, b: LimbVec, limit: usize) returns (r: Result<LimbVec, ArithmeticError>)
    requires Canonical(a) && Canonical(b)
    ensures var product := Value(a) * Value(b);
            match Admission(Multiply, LimbCount(product), limit)
            case Some(error) => r == Err(error)
            case None => r.Ok? && Value(r.value) == product && Canonical(r.value)
  {
    var required := MulMagnitudeRequired(a, b);
    var refused := Admission(Multiply, required, limit);
    if refused.Some? {
      return Err(refused.value);
    }
    var out: LimbVec := [];
    LimbCountBounds(Value(a) * Value(b));
    if required == 0 {
      return Ok(out);
    }
    assert a != [] && b != [];
    ProductCoversColumns(a, b, required);
    var sourceColumns: usize := |a| + |b| - 1;
    var accumulator := new u64[3](_ => 0);
    for column := 0 to required
      invariant column == |out|
      invariant Holds(a, b, out, Triple(accumulator[..]))
    {
      ghost var before := Triple(accumulator[..]);
      if column < sourceColumns {
        AccumulateProductColumn(a, b, column, accumulator);
        HoldsStep(a, b, out, before, Triple(accumulator[..]));
      } else {
        HoldsPastEnd(a, b, out, before);
      }
      out := out + [accumulator[0]];
      ShiftProductAccumulator(accumulator);
    }
    ColumnsAreProduct(a, b, required);
    NothingAbove(Pow(required), Value(out), Triple(accumulator[..]));
    CanonicalLength(out);
    return Ok(out);
  }
}
