/** Exact reciprocal-rank scores: construction, comparison and decimal rendering. */
module ExactScores {
  import opened Words
  import opened Arith
  import opened Rationals

  type Rank = x: int | 0 < x < 0x1_0000_0000 witness 1

  datatype Profile = Profile(rankConstant: Rank, vectorWeight: u16, textWeight: u16)

  const N_BOUND: int := 0x10_0000_0000_0000_0000_0000 // 2^84
  const D_BOUND: int := 0x8_0000_0000_0000_0000_0000_0000 // 2^99
  const RATIO_BOUND: int := 98304

  /** A nonnegative fraction within the bounds every three-lane score meets. */
  datatype Score = Score(numerator: u128, denominator: u128) {
    ghost predicate Bounded() {
      && 0 < denominator < D_BOUND
      && numerator < N_BOUND
      && numerator <= RATIO_BOUND * denominator
    }

    ghost predicate Valid() {
      Bounded() && Gcd(numerator, denominator) == 1
    }

    function Number(): real {
      if denominator == 0 then 0.0 else numerator as real / denominator as real
    }
  }

  /** One lane's share of a score: nothing when the lane is absent or has no weight. */
  ghost function Share(rankConstant: Rank, rank: Option<Rank>, weight: u16): real {
    if rank.Some? && weight != 0 then weight as real / (rankConstant + rank.value) as real else 0.0
  }

  lemma AddShare(n: nat, d: nat, v: nat, w: nat, sum: real)
    requires d > 0 && v > 0 && n as real == d as real * sum
    ensures (n * v + w * d) as real == (d * v) as real * (sum + w as real / v as real)
  {
    var dr, vr, wr := d as real, v as real, w as real;
    assert (n * v) as real == n as real * vr;
    assert (w * d) as real == wr * dr;
    assert (d * v) as real == dr * vr;
    assert vr * (wr / vr) == wr;
    assert dr * vr * (sum + wr / vr) == dr * sum * vr + dr * (vr * (wr / vr));
  }

  // The largest denominator and numerator after `i` lanes: (2^33)^i and i * 65535 * (2^33)^(i-1).
  function LaneDenominator(i: nat): nat
    requires i <= 3
  {
    if i == 0 then 1 else if i == 1 then 0x2_0000_0000 else if i == 2 then 0x4_0000_0000_0000_0000 else D_BOUND
  }

  function LaneNumerator(i: nat): nat
    requires i <= 3
  {
    if i == 0 then 0 else i * 65535 * LaneDenominator(i - 1)
  }

  ghost predicate WithinLanes(i: nat, n: nat, d: nat) {
    && i <= 3
    && 0 < d && (if i == 0 then d == 1 else d < LaneDenominator(i))
    && n <= LaneNumerator(i)
    && n <= i * 32768 * d
  }

  lemma RatioStep(c: nat, n: nat, d: nat, v: nat, w: u16)
    requires n <= c * d && v >= 2
    ensures n * v + w * d <= (c + 32768) * (d * v)
  {
    MulMonotone(v, n, c * d);
    MulAssoc(v, c, d);
    MulMonotone(d, w, 32768 * v);
    MulAssoc(d, 32768, v);
    MulAdd(d * v, c, 32768);
  }

  lemma LaneStep(i: nat, n: nat, d: nat, v: nat, w: u16)
    requires i < 3 && WithinLanes(i, n, d) && 2 <= v < 0x2_0000_0000
    ensures 0 <= n * v && 0 <= w * d && 0 < d * v
    ensures WithinLanes(i + 1, n * v + w * d, d * v)
  {
    RatioStep(i * 32768, n, d, v, w);
    LaneProducts(n, d, v, w);
    if i == 0 {
    } else if i == 1 {
    } else {
    }
  }

  lemma LaneProducts(n: nat, d: nat, v: nat, w: u16)
    requires d > 0 && 2 <= v < 0x2_0000_0000
    ensures 0 <= n * v <= n * 0x2_0000_0000
    ensures 0 <= w * d <= 65535 * d
    ensures 0 < d * v < d * 0x2_0000_0000
  {
    MulMonotone(n, 0, v);
    MulMonotone(n, v, 0x2_0000_0000);
    MulMonotone(d, 0, w);
    MulMonotone(d, w, 65535);
    MulStrict(d, 0, v);
    MulStrict(d, v, 0x2_0000_0000);
  }

  method GcdByRemainders(a0: nat, b0: nat) returns (a: nat)
    ensures a == Gcd(a0, b0)
  {
    a := a0;
    var b: nat := b0;
    while b != 0
      invariant Gcd(a, b) == Gcd(a0, b0)
      decreases b
    {
      DivModParts(a, b);
      a, b := b, a % b;
    }
  }

  lemma RealQuotient(n: nat, d: nat, g: nat, n': nat, d': nat, sum: real)
    requires d > 0 && g > 0 && d' > 0 && n == g * n' && d == g * d'
    requires n as real == d as real * sum
    ensures n' as real / d' as real == sum
  {
    var gr, nr, dr := g as real, n' as real, d' as real;
    assert (g * n') as real == gr * nr && (g * d') as real == gr * dr;
    assert gr * nr == gr * (dr * sum);
    assert nr == dr * sum;
  }

  lemma ReducedBounds(i: nat, n: nat, d: nat, g: nat, n': nat, d': nat)
    requires g > 0 && d' > 0 && n == g * n' && d == g * d' && WithinLanes(i, n, d)
    ensures n' <= n && d' <= d && n' <= i * 32768 * d'
  {
    MulAtLeast(n', g);
    MulAtLeast(d', g);
    MulAssoc(g, i * 32768, d');
    if n' > i * 32768 * d' {
      MulStrict(g, i * 32768 * d', n');
    }
  }

  type Lane = (Option<Rank>, u16)

  ghost function Shares(rankConstant: Rank, lanes: seq<Lane>): real {
    if lanes == [] then 0.0
    else Shares(rankConstant, lanes[..|lanes| - 1]) + Share(rankConstant, lanes[|lanes| - 1].0, lanes[|lanes| - 1].1)
  }

  /** The unreduced fraction after the lanes so far. */
  ghost predicate Adds(rankConstant: Rank, lanes: seq<Lane>, used: nat, n: nat, d: nat) {
    && used <= |lanes|
    && WithinLanes(used, n, d)
    && n as real == d as real * Shares(rankConstant, lanes)
  }

  lemma {:induction false} AddsNothing(rankConstant: Rank, lanes: seq<Lane>, lane: Lane, used: nat, n: nat, d: nat)
    requires Adds(rankConstant, lanes, used, n, d)
    requires lane.0.None? || lane.1 == 0
    ensures Adds(rankConstant, lanes + [lane], used, n, d)
  {
    assert (lanes + [lane])[..|lanes|] == lanes;
  }

  lemma {:induction false} AddsLane(rankConstant: Rank, lanes: seq<Lane>, lane: Lane, used: nat, n: nat, d: nat,
    v: nat, n': nat, d': nat)
    requires |lanes| < 3 && Adds(rankConstant, lanes, used, n, d)
    requires lane.0.Some? && lane.1 != 0 && v == rankConstant + lane.0.value
    requires n' == n * v + lane.1 * d && d' == d * v
    ensures Adds(rankConstant, lanes + [lane], used + 1, n', d')
  {
    assert (lanes + [lane])[..|lanes|] == lanes;
    LaneStep(used, n, d, v, lane.1);
    AddShare(n, d, v, lane.1, Shares(rankConstant, lanes));
  }

  method SumLanes(rankConstant: Rank, lanes: seq<Lane>) returns (numerator: u128, denominator: u128, ghost used: nat)
    requires |lanes| == 3
    ensures Adds(rankConstant, lanes, used, numerator, denominator)
    ensures lanes[2].0.None? || lanes[2].1 == 0 ==> used <= 2
  {
    numerator, denominator, used := 0, 1, 0;
    for i := 0 to 3
      invariant Adds(rankConstant, lanes[..i], used, numerator, denominator)
      invariant i == 3 && (lanes[2].0.None? || lanes[2].1 == 0) ==> used <= 2
    {
      assert lanes[..i + 1] == lanes[..i] + [lanes[i]];
      var (rank, weight) := lanes[i];
      if rank.Some? && weight != 0 {
        var divisor := rankConstant + rank.value;
        LaneStep(used, numerator, denominator, divisor, weight);
        ghost var n, d := numerator, denominator;
        numerator := numerator * divisor + weight * denominator;
        denominator := denominator * divisor;
        AddsLane(rankConstant, lanes[..i], lanes[i], used, n, d, divisor, numerator, denominator);
        used := used + 1;
      } else {
        AddsNothing(rankConstant, lanes[..i], lanes[i], used, numerator, denominator);
      }
    }
    assert lanes[..3] == lanes;
  }

  lemma {:induction false} SharesSnoc(rankConstant: Rank, front: seq<Lane>, lane: Lane, all: seq<Lane>)
    requires all == front + [lane]
    ensures Shares(rankConstant, all) == Shares(rankConstant, front) + Share(rankConstant, lane.0, lane.1)
  {
    assert all[..|all| - 1] == front;
  }

  /** Two lanes that both rank a row give it weight over constant plus rank each, and a lane that does not, nothing. */
  lemma {:induction false} SharesInNumbers(profile: Profile, vectorRank: Option<Rank>, textRank: Option<Rank>)
    ensures Shares(profile.rankConstant,
                   [(vectorRank, profile.vectorWeight), (textRank, profile.textWeight), (None, 0)]) ==
            (match vectorRank
             case Some(r) => profile.vectorWeight as real / (profile.rankConstant + r) as real
             case None => 0.0)
            + (match textRank
               case Some(r) => profile.textWeight as real / (profile.rankConstant + r) as real
               case None => 0.0)
  {
    var a, b, c := (vectorRank, profile.vectorWeight), (textRank, profile.textWeight), (None, 0);
    SharesSnoc(profile.rankConstant, [], a, [a]);
    SharesSnoc(profile.rankConstant, [a], b, [a, b]);
    SharesSnoc(profile.rankConstant, [a, b], c, [a, b, c]);
    ShareIs(profile.rankConstant, vectorRank, profile.vectorWeight);
    ShareIs(profile.rankConstant, textRank, profile.textWeight);
  }

  lemma ShareIs(rankConstant: Rank, rank: Option<Rank>, weight: u16)
    ensures Share(rankConstant, rank, weight) ==
            match rank
            case Some(r) => weight as real / (rankConstant + r) as real
            case None => 0.0
  {
  }

  /** A score is the reduced exact sum of its lanes' shares, within 2^84 over 2^99. */
  method FromGraphRanks(
    profile: Profile, vectorRank: Option<Rank>, textRank: Option<Rank>, graphRank: Option<Rank>, graphWeight: u16)
    returns (score: Score)
    ensures score.Valid()
    ensures score.Number() == Shares(profile.rankConstant,
                                     [(vectorRank, profile.vectorWeight), (textRank, profile.textWeight),
                                      (graphRank, graphWeight)])
    ensures graphRank.None? || graphWeight == 0 ==>
              score.numerator < 0x4_0000_0000_0000 && score.denominator < 0x4_0000_0000_0000_0000
  {
    var lanes := [(vectorRank, profile.vectorWeight), (textRank, profile.textWeight), (graphRank, graphWeight)];
    var numerator, denominator, used := SumLanes(profile.rankConstant, lanes);
    score := Reduce(numerator, denominator, used, Shares(profile.rankConstant, lanes));
  }

  method Reduce(numerator: u128, denominator: u128, ghost used: nat, ghost sum: real) returns (score: Score)
    requires WithinLanes(used, numerator, denominator)
    requires numerator as real == denominator as real * sum
    ensures score.Valid() && score.Number() == sum
    ensures used <= 2 ==> score.numerator < 0x4_0000_0000_0000 && score.denominator < 0x4_0000_0000_0000_0000
  {
    var g := GcdByRemainders(numerator, denominator);
    Reduces(numerator, denominator);
    var n, d := numerator / g, denominator / g;
    ReducedBounds(used, numerator, denominator, g, n, d);
    RealQuotient(numerator, denominator, g, n, d, sum);
    score := Score(n, d);
  }

  // ----- comparison

  lemma CrossByRemainder(a: nat, b: nat, c: nat, d: nat, q: nat, left: nat, right: nat)
    requires a == b * q + left && c == d * q + right
    ensures Compare(a * d, c * b) == Compare(left * d, right * b)
  {
    MulAdd(d, b * q, left);
    MulAdd(b, d * q, right);
    MulAssoc(d, b, q);
  }

  lemma CrossByQuotient(a: nat, b: nat, c: nat, d: nat)
    requires b > 0 && d > 0 && a / b < c / d
    ensures a * d < c * b
  {
    DivModParts(a, b);
    DivModParts(c, d);
    MulAdd(b, a / b, 1);
    MulStrict(d, a, b * (a / b + 1));
    MulMonotone(b, a / b + 1, c / d);
    MulMonotone(d, b * (a / b + 1), b * (c / d));
    MulAssoc(d, b, c / d);
    MulMonotone(b, d * (c / d), c);
  }

  lemma CrossAtZero(left: nat, right: nat, b: nat, d: nat)
    requires b > 0 && d > 0 && (left == 0 || right == 0)
    ensures Compare(left * d, right * b) == Compare(left, right)
  {
    if left > 0 {
      MulStrict(d, 0, left);
    }
    if right > 0 {
      MulStrict(b, 0, right);
    }
  }

  const U128_LIMIT: int := 0x1_0000_0000_0000_0000_0000_0000_0000_0000

  /** Compares by cross product, or by continued fractions when a product overflows. */
  method Cmp(s: Score, t: Score) returns (order: Ordering)
    requires s.denominator > 0 && t.denominator > 0
    ensures order == Compare(s.numerator * t.denominator, t.numerator * s.denominator)
  {
    var left, right := s.numerator * t.denominator, t.numerator * s.denominator;
    if left < U128_LIMIT && right < U128_LIMIT {
      return Compare(left, right);
    }
    var a: u128, b: u128, c: u128, d: u128 := s.numerator, s.denominator, t.numerator, t.denominator;
    var reversed := false;
    ghost var truth := Compare(left, right);
    while true
      invariant b > 0 && d > 0
      invariant truth == if reversed then Compare(a * d, c * b).Reverse() else Compare(a * d, c * b)
      decreases b
    {
      DivModParts(a, b);
      DivModParts(c, d);
      order := Compare(a / b, c / d);
      if order != Equal {
        if order == Less {
          CrossByQuotient(a, b, c, d);
        } else {
          CrossByQuotient(c, d, a, b);
        }
        return if reversed then order.Reverse() else order;
      }
      var restLeft, restRight := a % b, c % d;
      CrossByRemainder(a, b, c, d, a / b, restLeft, restRight);
      if restLeft == 0 || restRight == 0 {
        CrossAtZero(restLeft, restRight, b, d);
        order := Compare(restLeft, restRight);
        return if reversed then order.Reverse() else order;
      }
      a, b, c, d := b, restLeft, d, restRight;
      reversed := !reversed;
    }
  }

  function CompareReal(x: real, y: real): Ordering {
    if x < y then Less else if x == y then Equal else Greater
  }

  lemma CrossIsReal(n: nat, d: nat, n': nat, d': nat)
    requires d > 0 && d' > 0
    ensures Compare(n * d', n' * d) == CompareReal(n as real / d as real, n' as real / d' as real)
  {
    var x, y := n as real / d as real, n' as real / d' as real;
    var dr, dr' := d as real, d' as real;
    assert n as real == x * dr && n' as real == y * dr';
    assert (n * d') as real == n as real * dr' && (n' * d) as real == n' as real * dr;
    var p := dr * dr';
    assert n as real * dr' == x * p && n' as real * dr == y * p;
    if x < y {
      assert (y - x) * p > 0.0;
    } else if y < x {
      assert (x - y) * p > 0.0;
    }
  }

  /** The exact order is the order of the numbers, and equal scores are the same pair. */
  lemma OrderIsExact(s: Score, t: Score)
    requires s.Valid() && t.Valid()
    ensures Compare(s.numerator * t.denominator, t.numerator * s.denominator) == CompareReal(s.Number(), t.Number())
    ensures s.Number() == t.Number() <==> s == t
  {
    CrossIsReal(s.numerator, s.denominator, t.numerator, t.denominator);
    if s.Number() == t.Number() {
      ReducedUnique(s.numerator, s.denominator, t.numerator, t.denominator);
    }
  }

  /** Two-lane scores never leave the cross-product path. */
  lemma TwoLaneProductsFit(s: Score, t: Score)
    requires s.numerator < 0x4_0000_0000_0000 && s.denominator < 0x4_0000_0000_0000_0000
    requires t.numerator < 0x4_0000_0000_0000 && t.denominator < 0x4_0000_0000_0000_0000
    ensures s.numerator * t.denominator < U128_LIMIT && t.numerator * s.denominator < U128_LIMIT
  {
    MulMonotone(s.numerator, t.denominator, 0x4_0000_0000_0000_0000);
    MulMonotone(t.numerator, s.denominator, 0x4_0000_0000_0000_0000);
  }

  // ----- decimal rendering

  const DECIMAL_SCALE: int := 1_000_000_000_000_000_000

  /** `c` is `n / d` rounded to the nearest integer, ties to even. */
  ghost predicate HalfEven(n: int, d: int, c: int) {
    && 2 * n - d <= 2 * (d * c) <= 2 * n + d
    && (2 * (d * c) == 2 * n - d || 2 * (d * c) == 2 * n + d ==> c % 2 == 0)
  }

  lemma RoundsHalfEven(n: int, d: nat, q: int, r: int, c: int)
    requires d > 0 && n == d * q + r && 0 <= r < d
    requires c == if 2 * r > d || (2 * r == d && q % 2 != 0) then q + 1 else q
    ensures HalfEven(n, d, c)
  {
    MulAdd(d, q, 1);
  }

  function Pow10(i: nat): (p: nat)
    ensures p >= 1
  {
    if i == 0 then 1 else 10 * Pow10(i - 1)
  }

  lemma EighteenDigits()
    ensures Pow10(18) == DECIMAL_SCALE
  {
    assert Pow10(3) == 1000;
    assert Pow10(6) == 1_000_000;
    assert Pow10(9) == 1_000_000_000;
    assert Pow10(12) == 1_000_000_000_000;
    assert Pow10(15) == 1_000_000_000_000_000;
  }

  /** One long-division digit. */
  lemma DigitStep(n: nat, p: nat, d: nat, q: nat, r: nat)
    requires d > 0 && n * p == d * q + r && r < d
    ensures n * (10 * p) == d * (q * 10 + (r * 10) / d) + (r * 10) % d
    ensures 0 <= (r * 10) / d && 0 <= (r * 10) % d < d
  {
    DivModParts(r * 10, d);
    MulAssoc(n, 10, p);
    MulAdd(d, q * 10, (r * 10) / d);
    MulAssoc(d, q, 10);
  }

  lemma QuotientSmall(n: nat, d: nat, p: nat, q: nat, r: nat)
    requires d > 0 && n <= RATIO_BOUND * d && n * p == d * q + r
    ensures q <= RATIO_BOUND * p
  {
    if q > RATIO_BOUND * p {
      MulStrict(d, RATIO_BOUND * p, q);
      MulMonotone(p, n, RATIO_BOUND * d);
      MulAssoc(d, RATIO_BOUND, p);
    }
  }

  /** The scale-18 coefficient, by one multiplication or by eighteen long-division digits. */
  method Decimal(score: Score) returns (coefficient: nat)
    requires score.Bounded()
    ensures HalfEven(score.numerator * DECIMAL_SCALE, score.denominator, coefficient)
    ensures coefficient <= RATIO_BOUND * DECIMAL_SCALE + 1
  {
    var n, d := score.numerator, score.denominator;
    var quotient: u128, remainder: u128;
    EighteenDigits();
    if n * DECIMAL_SCALE < U128_LIMIT {
      var scaled: u128 := n * DECIMAL_SCALE;
      DivModParts(scaled, d);
      MulMonotone(scaled / d, 1, d);
      quotient, remainder := scaled / d, scaled % d;
    } else {
      DivModParts(n, d);
      MulMonotone(n / d, 1, d);
      quotient, remainder := n / d, n % d;
      for i := 0 to 18
        invariant remainder < d
        invariant n * Pow10(i) == d * quotient + remainder
      {
        QuotientSmall(n, d, Pow10(i), quotient, remainder);
        Pow10Bound(i);
        DigitStep(n, Pow10(i), d, quotient, remainder);
        var tenfold: u128 := remainder * 10;
        QuotientSmall(n, d, Pow10(i + 1), quotient * 10 + tenfold / d, tenfold % d);
        quotient := quotient * 10 + tenfold / d;
        remainder := tenfold % d;
      }
    }
    QuotientSmall(n, d, DECIMAL_SCALE, quotient, remainder);
    var twice: u128 := remainder * 2;
    var roundUp := twice > d || (twice == d && quotient % 2 != 0);
    coefficient := quotient + (if roundUp then 1 else 0);
    RoundsHalfEven(n * DECIMAL_SCALE, d, quotient, remainder, coefficient);
  }

  lemma {:induction false} Pow10Bound(i: nat)
    requires i <= 18
    ensures Pow10(i) <= DECIMAL_SCALE
  {
    EighteenDigits();
    Pow10Monotone(i, 18);
  }

  lemma {:induction false} Pow10Monotone(i: nat, j: nat)
    requires i <= j
    ensures Pow10(i) <= Pow10(j)
    decreases j
  {
    if i < j {
      Pow10Monotone(i, j - 1);
    }
  }

  // Doubled coefficients at the common denominator `d * d'`.
  lemma CommonUpper(n: int, d: nat, c: int, d': nat)
    requires 2 * (d * c) <= 2 * n + d
    ensures 2 * ((d * d') * c) <= 2 * (n * d') + d * d'
    ensures d' > 0 && 2 * ((d * d') * c) == 2 * (n * d') + d * d' ==> 2 * (d * c) == 2 * n + d
  {
    CommonScale(n, d, c, d');
    MulMonotone(d', 2 * (d * c), 2 * n + d);
    if d' > 0 && 2 * (d * c) < 2 * n + d {
      MulStrict(d', 2 * (d * c), 2 * n + d);
    }
  }

  lemma CommonLower(n: int, d: nat, c: int, d': nat)
    requires 2 * n - d <= 2 * (d * c)
    ensures 2 * (n * d') - d * d' <= 2 * ((d * d') * c)
    ensures d' > 0 && 2 * (n * d') - d * d' == 2 * ((d * d') * c) ==> 2 * (d * c) == 2 * n - d
  {
    CommonScale(n, d, c, d');
    MulMonotone(d', 2 * n - d, 2 * (d * c));
    if d' > 0 && 2 * n - d < 2 * (d * c) {
      MulStrict(d', 2 * n - d, 2 * (d * c));
    }
  }

  lemma CommonScale(n: int, d: nat, c: int, d': nat)
    ensures d' * (2 * (d * c)) == 2 * ((d * d') * c)
    ensures d' * (2 * n + d) == 2 * (n * d') + d * d'
    ensures d' * (2 * n - d) == 2 * (n * d') - d * d'
  {
    MulAssoc(d', 2, d * c);
    MulAssoc(d', d, c);
    MulAdd(d', 2 * n, d);
    MulAssoc(d', 2, n);
  }

  /** Rounding keeps order: a rendered list never reverses an exact one. */
  lemma HalfEvenMonotone(n: nat, d: nat, c: int, n': nat, d': nat, c': int)
    requires d > 0 && d' > 0
    requires HalfEven(n, d, c) && HalfEven(n', d', c')
    requires n * d' <= n' * d
    ensures c <= c'
  {
    if c > c' {
      CommonUpper(n, d, c, d');
      CommonLower(n', d', c', d);
      var p := d * d';
      MulStrict(d, 0, d');
      assert d' * d == p;
      MulStrict(p, c', c);
      // Both roundings are ties at the same number, one apart, so both cannot be even.
      if c > c' + 1 {
        MulStrict(p, c' + 1, c);
        MulAdd(p, c', 1);
      }
    }
  }
}
