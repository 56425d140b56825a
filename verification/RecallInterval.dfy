/** The outward-rounded integer Hoeffding interval and the decision it supports. */
module RecallInterval {
  import opened Words
  import opened Arith

  const RECALL_SCALE: nat := 1_000_000_000
  const U128: int := 0x1_0000_0000_0000_0000_0000_0000_0000_0000

  datatype RecallError = ArithmeticOverflow

  /** The least `q` with `q * denominator >= numerator`, unless the adjusted numerator overflows. */
  function CeilDiv(numerator: u128, denominator: u128): (r: Result<nat, RecallError>)
    ensures r.Ok? <==> denominator > 0 && numerator + denominator - 1 < U128
    ensures r.Ok? ==> r.value * denominator >= numerator && (r.value - 1) * denominator < numerator
  {
    if denominator == 0 || numerator + denominator - 1 >= U128 then Err(ArithmeticOverflow) else
    var adjusted: nat := numerator + denominator - 1;
    DivModParts(adjusted, denominator);
    Ok(adjusted / denominator)
  }

  /** `r` is the least natural number whose square reaches `value`. */
  ghost predicate LeastRoot(value: nat, r: nat) {
    r * r >= value && (r > 0 ==> (r - 1) * (r - 1) < value)
  }

  function Square(x: nat): nat {
    x * x
  }

  lemma LeastRootIsLeast(value: nat, r: nat)
    requires LeastRoot(value, r)
    ensures forall x: nat :: Square(x) >= value ==> r <= x
  {
    forall x: nat | Square(x) >= value
      ensures r <= x
    {
      if x < r {
        SquareMonotone(x, r - 1);
      }
    }
  }

  lemma SquareMonotone(x: nat, y: nat)
    requires x <= y
    ensures x * x <= y * y
  {
    MulMonotone(x, x, y);
    MulMonotone(y, x, y);
  }

  lemma QuotientDecides(midpoint: nat, value: nat)
    requires midpoint > 0
    ensures midpoint > value / midpoint <==> midpoint * midpoint > value
  {
    var q := value / midpoint;
    DivModParts(value, midpoint);
    if midpoint > q {
      MulMonotone(midpoint, q + 1, midpoint);
    } else {
      MulMonotone(midpoint, midpoint, q);
    }
  }

  method CeilSqrt(value: u128) returns (r: nat)
    ensures LeastRoot(value, r)
    ensures Square(r) >= value && forall x: nat :: Square(x) >= value ==> r <= x
    ensures r <= 0x1_0000_0000_0000_0000
  {
    if value <= 1 {
      LeastRootIsLeast(value, value);
      return value;
    }
    var low: u128 := 1;
    var high: u128 := Min(value, 0x1_0000_0000_0000_0000);
    assert high * high >= value by {
      if high == value {
        MulMonotone(value, 1, value);
      }
    }
    while low < high
      invariant 1 <= low <= high <= 0x1_0000_0000_0000_0000
      invariant high * high >= value
      invariant (low - 1) * (low - 1) < value
      decreases high - low
    {
      var midpoint: u128 := low + (high - low) / 2;
      QuotientDecides(midpoint, value);
      if midpoint > value / midpoint {
        high := midpoint;
      } else {
        var square: u128 := midpoint * midpoint;
        if square == value {
          SquareMonotone(midpoint - 1, midpoint);
          MulStrict(midpoint, midpoint - 1, midpoint);
          MulMonotone(midpoint - 1, midpoint - 1, midpoint);
          LeastRootIsLeast(value, midpoint);
          return midpoint;
        }
        low := midpoint + 1;
      }
    }
    r := low;
    LeastRootIsLeast(value, r);
  }

  datatype Interval = Interval(point: nat, lower: nat, upper: nat, radius: nat, exponent: u8, queries: u64)

  /** The least radius that Hoeffding's bound asks of `queries` observations at failure probability `2^-exponent`. */
  ghost predicate LeastRadius(radius: nat, exponent: nat, queries: nat) {
    var needed := (exponent + 1) * RECALL_SCALE * RECALL_SCALE;
    && radius * radius * (2 * queries) >= needed
    && (radius > 0 ==> (radius - 1) * (radius - 1) * (2 * queries) < needed)
  }

  /** The radius is the least one, clamped to the scale; the endpoints round the exact ratio outward. */
  ghost predicate Encloses(i: Interval, hits: nat, baseline: nat) {
    && (exists raw: nat :: LeastRadius(raw, i.exponent, i.queries) && i.radius == Min(raw, RECALL_SCALE))
    && i.point * baseline <= hits * RECALL_SCALE < (i.point + 1) * baseline
    && i.lower == Max(i.point - i.radius, 0)
    && (exists ceil: nat ::
          IsCeiling(ceil, hits * RECALL_SCALE, baseline) && i.upper == Min(ceil + i.radius, RECALL_SCALE))
  }

  ghost predicate IsCeiling(q: nat, numerator: nat, denominator: nat) {
    q * denominator >= numerator && (q - 1) * denominator < numerator
  }

  lemma RadiusFromSquare(raw: nat, square: nat, denominator: nat, needed: nat)
    requires denominator > 0 && LeastRoot(square, raw)
    requires square * denominator >= needed && (square - 1) * denominator < needed
    ensures raw * raw * denominator >= needed
    ensures raw > 0 ==> (raw - 1) * (raw - 1) * denominator < needed
  {
    MulMonotone(denominator, square, raw * raw);
    if raw > 0 {
      MulMonotone(denominator, (raw - 1) * (raw - 1), square - 1);
    }
  }

  method ConfidenceInterval(hits: u64, baseline: u64, queries: u64, exponent: u8)
    returns (r: Result<Interval, RecallError>)
    ensures queries == 0 || baseline == 0 ==> r == Ok(Interval(0, 0, RECALL_SCALE, RECALL_SCALE, exponent, queries))
    ensures queries > 0 && baseline > 0 ==> (r.Err? <==> hits * RECALL_SCALE / baseline >= BASE)
    ensures queries > 0 && baseline > 0 && r.Ok? ==> Encloses(r.value, hits, baseline)
    ensures r.Ok? ==> r.value.exponent == exponent && r.value.queries == queries
  {
    if queries == 0 || baseline == 0 {
      return Ok(Interval(0, 0, RECALL_SCALE, RECALL_SCALE, exponent, queries));
    }
    var scaledHits: u128 := hits * RECALL_SCALE;
    var point := scaledHits / baseline;
    var pointCeil := CeilDiv(scaledHits, baseline).value;
    var radius := Radius(queries, exponent);
    var lower := if point < radius then 0 else point - radius;
    var upper := Min(pointCeil + radius, RECALL_SCALE);
    DivModParts(scaledHits, baseline);
    if point >= BASE {
      return Err(ArithmeticOverflow);
    }
    assert IsCeiling(pointCeil, scaledHits, baseline);
    r := Ok(Interval(point, lower, upper, radius, exponent, queries));
  }

  method Radius(queries: u64, exponent: u8) returns (radius: nat)
    requires queries > 0
    ensures exists raw: nat :: LeastRadius(raw, exponent, queries) && radius == Min(raw, RECALL_SCALE)
  {
    var numerator: u128 := (exponent + 1) * RECALL_SCALE * RECALL_SCALE;
    var denominator: u128 := queries * 2;
    var square := CeilDiv(numerator, denominator).value;
    var raw := CeilSqrt(square);
    RadiusFromSquare(raw, square, denominator, numerator);
    assert LeastRadius(raw, exponent, queries);
    radius := Min(raw, RECALL_SCALE);
  }

  lemma PointBounded(point: nat, hits: nat, baseline: nat)
    requires 0 < baseline && hits <= baseline && point * baseline <= hits * RECALL_SCALE
    ensures point <= RECALL_SCALE
  {
    MulMonotone(RECALL_SCALE, hits, baseline);
    if point > RECALL_SCALE {
      MulStrict(baseline, RECALL_SCALE, point);
    }
  }

  lemma FloorBelowCeiling(point: nat, ceil: nat, scaled: nat, baseline: nat)
    requires 0 < baseline && point * baseline <= scaled && IsCeiling(ceil, scaled, baseline)
    ensures point <= ceil
  {
    if point > ceil {
      MulStrict(baseline, ceil, point);
    }
  }

  /** A recall ratio is at most one, so every endpoint lies on the scale and in order. */
  lemma IntervalOrdered(i: Interval, hits: nat, baseline: nat)
    requires 0 < baseline && hits <= baseline && Encloses(i, hits, baseline)
    ensures i.lower <= i.point <= i.upper <= RECALL_SCALE
  {
    var scaled := hits * RECALL_SCALE;
    var ceil: nat :| IsCeiling(ceil, scaled, baseline) && i.upper == Min(ceil + i.radius, RECALL_SCALE);
    PointBounded(i.point, hits, baseline);
    FloorBelowCeiling(i.point, ceil, scaled, baseline);
  }

  datatype Action = Candidate | PinnedFallback | Rebuild

  function Decide(complete: bool, supported: bool, i: Interval, candidate: nat, rebuild: nat): Option<Action> {
    if !complete then None
    else if !supported then Some(PinnedFallback)
    else if i.upper < rebuild then Some(Rebuild)
    else if i.lower >= candidate then Some(Candidate)
    else Some(PinnedFallback)
  }

  /** The two tests can never both succeed, so their order does not matter. */
  lemma DecisionOrderIrrelevant(
    complete: bool, supported: bool, i: Interval, hits: nat, baseline: nat, candidate: nat, rebuild: nat)
    requires 0 < baseline && hits <= baseline && Encloses(i, hits, baseline) && rebuild <= candidate
    ensures !(i.upper < rebuild && i.lower >= candidate)
    ensures Decide(complete, supported, i, candidate, rebuild) ==
            if !complete then None
            else if !supported then Some(PinnedFallback)
            else if i.lower >= candidate then Some(Candidate)
            else if i.upper < rebuild then Some(Rebuild)
            else Some(PinnedFallback)
  {
    IntervalOrdered(i, hits, baseline);
  }
}
