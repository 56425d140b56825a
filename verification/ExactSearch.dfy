/** Exact nearest-neighbour search with blockwise early abandonment. */
module ExactSearch {
  import opened Words
  import opened Ranking

  const BLOCK: nat := 16

  /**
   A distance accumulated coordinate by coordinate. `plus` stands for rounded addition, of
   which only monotonicity is used; `finish` turns the sum into the cost.
   */
  datatype Metric = Metric(squaredEuclidean: bool, term: (real, real) -> real, plus: (real, real) -> real,
    finish: (real, Vector, Vector) -> real)

  function Plus(metric: Metric, s: real, x: real): real {
    metric.plus(s, x)
  }

  function Term(metric: Metric, a: real, b: real): real {
    metric.term(a, b)
  }

  function Finish(metric: Metric, s: real, v: Vector, w: Vector): real {
    metric.finish(s, v, w)
  }

  /** Squared Euclidean sums never fall and are the cost as they stand. */
  ghost predicate Lawful(metric: Metric) {
    metric.squaredEuclidean ==>
      && (forall s, x :: x >= 0.0 ==> Plus(metric, s, x) >= s)
      && (forall a, b :: Term(metric, a, b) >= 0.0)
      && (forall s, v, w :: Finish(metric, s, v, w) == s)
  }

  function SumTo(metric: Metric, query: Vector, vector: Vector, n: nat): real
    requires n <= |query| && n <= |vector|
  {
    if n == 0 then 0.0
    else Plus(metric, SumTo(metric, query, vector, n - 1), Term(metric, query[n - 1], vector[n - 1]))
  }

  function Distance(metric: Metric, query: Vector, vector: Vector): real {
    Finish(metric, SumTo(metric, query, vector, Min(|query|, |vector|)), query, vector)
  }

  // ----- what the distance is, for exact arithmetic

  function Times(a: real, b: real): (r: real)
    ensures (a > 0.0 && b > 0.0) || (a < 0.0 && b < 0.0) ==> r > 0.0
  {
    a * b
  }

  function Square(x: real): (r: real)
    ensures r >= 0.0 && (r == 0.0 <==> x == 0.0)
  {
    Times(x, x)
  }

  /** Squared Euclidean distance without rounding. */
  ghost predicate ExactEuclidean(metric: Metric) {
    && metric.squaredEuclidean
    && (forall a, b :: Term(metric, a, b) == Square(a - b))
    && (forall s, x :: Plus(metric, s, x) == s + x)
    && (forall s, v, w :: Finish(metric, s, v, w) == s)
  }

  /** Negative dot product without rounding. */
  ghost predicate ExactDot(metric: Metric) {
    && !metric.squaredEuclidean
    && (forall a, b :: Term(metric, a, b) == a * b)
    && (forall s, x :: Plus(metric, s, x) == s + x)
    && (forall s, v, w :: Finish(metric, s, v, w) == -s)
  }

  function SquaredEuclidean(): (metric: Metric)
    ensures ExactEuclidean(metric)
  {
    Metric(true, (a, b) => Square(a - b), (s, x) => s + x, (s, v, w) => s)
  }

  function NegativeDotProduct(): (metric: Metric)
    ensures ExactDot(metric)
  {
    Metric(false, (a, b) => a * b, (s, x) => s + x, (s, v, w) => -s)
  }

  lemma ExactIsLawful(metric: Metric)
    requires ExactEuclidean(metric) || ExactDot(metric)
    ensures Lawful(metric)
  {
    if metric.squaredEuclidean {
      forall a, b
        ensures Term(metric, a, b) >= 0.0
      {
        assert Term(metric, a, b) == Square(a - b);
      }
    }
  }

  lemma {:induction false} SumZero(metric: Metric, v: Vector, w: Vector, n: nat)
    requires ExactEuclidean(metric) && n <= |v| && n <= |w|
    ensures SumTo(metric, v, w, n) >= 0.0 && (SumTo(metric, v, w, n) == 0.0 <==> v[..n] == w[..n])
  {
    if n > 0 {
      var k := n - 1;
      SumZero(metric, v, w, k);
      var sum, term := SumTo(metric, v, w, k), Term(metric, v[k], w[k]);
      assert term == Square(v[k] - w[k]);
      assert SumTo(metric, v, w, n) == Plus(metric, sum, term) == sum + term;
      assert v[..n] == v[..k] + [v[k]] && w[..n] == w[..k] + [w[k]];
    }
  }

  /** Vectors of one length are at distance zero exactly when they are the same; no distance is negative. */
  lemma DistanceZero(metric: Metric, v: Vector, w: Vector)
    requires ExactEuclidean(metric) && |v| == |w|
    ensures Distance(metric, v, w) >= 0.0 && (Distance(metric, v, w) == 0.0 <==> v == w)
  {
    SumZero(metric, v, w, |v|);
    assert v[..|v|] == v && w[..|w|] == w;
    assert forall s :: Finish(metric, s, v, w) == s;
  }

  lemma {:induction false} SumMoved(metric: Metric, v: Vector, w: Vector, i: nat, b: real, n: nat)
    requires n <= |v| && n <= |w| && i < |w| && forall s, x :: Plus(metric, s, x) == s + x
    ensures SumTo(metric, v, w[i := b], n) - SumTo(metric, v, w, n) ==
            if i < n then Term(metric, v[i], b) - Term(metric, v[i], w[i]) else 0.0
  {
    if n > 0 {
      var k := n - 1;
      SumMoved(metric, v, w, i, b, k);
      assert Plus(metric, SumTo(metric, v, w, k), Term(metric, v[k], w[k])) ==
             SumTo(metric, v, w, k) + Term(metric, v[k], w[k]);
      assert Plus(metric, SumTo(metric, v, w[i := b], k), Term(metric, v[k], w[i := b][k])) ==
             SumTo(metric, v, w[i := b], k) + Term(metric, v[k], w[i := b][k]);
    }
  }

  /** Moving one coordinate moves the squared distance by the change of that coordinate's square alone. */
  lemma DistanceMoved(metric: Metric, v: Vector, w: Vector, i: nat, b: real)
    requires ExactEuclidean(metric) && |v| == |w| && i < |w|
    ensures Distance(metric, v, w[i := b]) - Distance(metric, v, w) ==
            (v[i] - b) * (v[i] - b) - (v[i] - w[i]) * (v[i] - w[i])
  {
    SumMoved(metric, v, w, i, b, |v|);
    assert Finish(metric, SumTo(metric, v, w, |v|), v, w) == SumTo(metric, v, w, |v|);
    assert Finish(metric, SumTo(metric, v, w[i := b], |v|), v, w[i := b]) == SumTo(metric, v, w[i := b], |v|);
  }

  /** The negative dot product is zero against the zero vector, and linear in every coordinate. */
  lemma DotMoved(metric: Metric, v: Vector, w: Vector, i: nat, b: real)
    requires ExactDot(metric) && |v| == |w| && i < |w|
    ensures Distance(metric, v, w[i := b]) - Distance(metric, v, w) == -(v[i] * (b - w[i]))
  {
    SumMoved(metric, v, w, i, b, |v|);
    assert Finish(metric, SumTo(metric, v, w, |v|), v, w) == -SumTo(metric, v, w, |v|);
    assert Finish(metric, SumTo(metric, v, w[i := b], |v|), v, w[i := b]) == -SumTo(metric, v, w[i := b], |v|);
  }

  lemma {:induction false} SumAtZero(metric: Metric, v: Vector, n: nat)
    requires ExactDot(metric) && n <= |v|
    ensures SumTo(metric, v, seq(|v|, _ => 0.0), n) == 0.0
  {
    if n > 0 {
      var k, zero := n - 1, seq(|v|, _ => 0.0);
      SumAtZero(metric, v, k);
      assert Term(metric, v[k], zero[k]) == v[k] * zero[k];
      assert Plus(metric, SumTo(metric, v, zero, k), Term(metric, v[k], zero[k])) ==
             SumTo(metric, v, zero, k) + Term(metric, v[k], zero[k]);
    }
  }

  lemma DotAtZero(metric: Metric, v: Vector)
    requires ExactDot(metric)
    ensures Distance(metric, v, seq(|v|, _ => 0.0)) == 0.0
  {
    var zero := seq(|v|, _ => 0.0);
    SumAtZero(metric, v, |v|);
    assert Finish(metric, SumTo(metric, v, zero, |v|), v, zero) == -SumTo(metric, v, zero, |v|);
  }

  lemma {:induction false} SumGrows(metric: Metric, query: Vector, vector: Vector, n: nat, k: nat)
    requires Lawful(metric) && metric.squaredEuclidean && n <= k <= |query| && k <= |vector|
    ensures SumTo(metric, query, vector, n) <= SumTo(metric, query, vector, k)
    decreases k
  {
    if n < k {
      SumGrows(metric, query, vector, n, k - 1);
      assert Term(metric, query[k - 1], vector[k - 1]) >= 0.0;
    }
  }

  method FullDistance(metric: Metric, query: Vector, vector: Vector) returns (cost: real)
    ensures cost == Distance(metric, query, vector)
  {
    var sum := 0.0;
    var n := Min(|query|, |vector|);
    for i := 0 to n
      invariant sum == SumTo(metric, query, vector, i)
    {
      sum := Plus(metric, sum, Term(metric, query[i], vector[i]));
    }
    cost := Finish(metric, sum, query, vector);
  }

  /** The cost of a vector, or nothing once a block boundary shows it exceeds the cutoff. */
  method ExactCandidate(metric: Metric, query: Vector, vector: Vector, cutoff: Option<real>)
    returns (cost: Option<real>)
    requires Lawful(metric)
    ensures cost.Some? ==> cost.value == Distance(metric, query, vector)
    ensures cost.None? ==> cutoff.Some? && Distance(metric, query, vector) > cutoff.value
  {
    if cutoff.None? || !metric.squaredEuclidean {
      var full := FullDistance(metric, query, vector);
      return Some(full);
    }
    var sum := 0.0;
    var n := Min(|query|, |vector|);
    var i := 0;
    while i < n
      invariant 0 <= i <= n && sum == SumTo(metric, query, vector, i)
    {
      var end := Min(i + BLOCK, n);
      while i < end
        invariant i <= end <= n && sum == SumTo(metric, query, vector, i)
      {
        sum := Plus(metric, sum, Term(metric, query[i], vector[i]));
        i := i + 1;
      }
      if sum > cutoff.value {
        SumGrows(metric, query, vector, i, n);
        return None;
      }
    }
    cost := Some(sum);
  }

  // ----- the search

  datatype Point = Point(id: nat, vector: Vector)

  /** The eligible points of a prefix, each with its full cost. */
  ghost function Scanned(metric: Metric, query: Vector, points: seq<Point>, eligible: nat -> bool,
    n: nat): multiset<Ranked>
    requires n <= |points|
  {
    if n == 0 then multiset{}
    else
      var p, before := points[n - 1], Scanned(metric, query, points, eligible, n - 1);
      if eligible(p.id) then before + multiset{Ranked(Distance(metric, query, p.vector), p.id, n - 1)} else before
  }

  lemma {:induction false} ScannedOnce(metric: Metric, query: Vector, points: seq<Point>, eligible: nat -> bool,
    n: nat, r: Ranked)
    requires n <= |points|
    ensures Scanned(metric, query, points, eligible, n)[r] ==
            if r.slot < n && r == Priced(metric, query, points, r.slot) && eligible(r.id) then 1 else 0
  {
    if n > 0 {
      ScannedOnce(metric, query, points, eligible, n - 1, r);
    }
  }

  /** The point in a slot, with its distance from the query. */
  ghost function Priced(metric: Metric, query: Vector, points: seq<Point>, slot: nat): Ranked
    requires slot < |points|
  {
    Ranked(Distance(metric, query, points[slot].vector), points[slot].id, slot)
  }

  /**
   Eligible points at their distances, nearest first, ties by identity and then by slot; what is left out
   comes after all of them, and nothing is while there is room.
   */
  ghost predicate Nearest(
    metric: Metric, query: Vector, points: seq<Point>, eligible: nat -> bool, ranked: seq<Ranked>, k: nat) {
    && |ranked| <= k
    && (forall i :: 0 <= i < |ranked| ==>
          && ranked[i].slot < |points| && ranked[i].id == points[ranked[i].slot].id && eligible(ranked[i].id)
          && ranked[i].cost == Distance(metric, query, points[ranked[i].slot].vector))
    && (forall i, j :: 0 <= i < j < |ranked| ==>
          || ranked[i].cost < ranked[j].cost
          || (ranked[i].cost == ranked[j].cost && ranked[i].id < ranked[j].id)
          || (ranked[i].cost == ranked[j].cost && ranked[i].id == ranked[j].id && ranked[i].slot < ranked[j].slot))
    && (forall s :: 0 <= s < |points| && eligible(points[s].id) && Omitted(ranked, s) ==>
          |ranked| == k && NoneAfter(ranked, Distance(metric, query, points[s].vector), points[s].id, s))
  }

  ghost predicate Omitted(ranked: seq<Ranked>, s: nat) {
    forall i :: 0 <= i < |ranked| ==> ranked[i].slot != s
  }

  ghost predicate NoneAfter(ranked: seq<Ranked>, cost: real, id: nat, s: nat) {
    forall i :: 0 <= i < |ranked| ==>
      || ranked[i].cost < cost
      || (ranked[i].cost == cost && ranked[i].id < id)
      || (ranked[i].cost == cost && ranked[i].id == id && ranked[i].slot < s)
  }

  lemma BestIsNearest(metric: Metric, query: Vector, points: seq<Point>, eligible: nat -> bool, k: nat)
    requires k <= |points|
    ensures Nearest(metric, query, points, eligible,
                    BestOf(Scanned(metric, query, points, eligible, |points|), k), k)
  {
    var pool := Scanned(metric, query, points, eligible, |points|);
    var best := BestOf(pool, k);
    forall r
      ensures pool[r] <= 1
    {
      ScannedOnce(metric, query, points, eligible, |points|, r);
    }
    BestRises(pool, k);
    forall i | 0 <= i < |best|
      ensures best[i].slot < |points| && best[i] == Priced(metric, query, points, best[i].slot) && eligible(best[i].id)
    {
      assert best[i] in pool;
      ScannedOnce(metric, query, points, eligible, |points|, best[i]);
    }
    forall s | 0 <= s < |points| && eligible(points[s].id) && Omitted(best, s)
      ensures |best| == k && NoneAfter(best, Distance(metric, query, points[s].vector), points[s].id, s)
    {
      OmittedAfter(metric, query, points, eligible, best, k, s);
    }
  }

  lemma OmittedAfter(
    metric: Metric, query: Vector, points: seq<Point>, eligible: nat -> bool, best: seq<Ranked>, k: nat, s: nat)
    requires forall r :: r in Scanned(metric, query, points, eligible, |points|) && r !in best ==>
               |best| == k && forall i :: 0 <= i < |best| ==> Before(best[i], r)
    requires s < |points| && eligible(points[s].id) && Omitted(best, s)
    ensures |best| == k && NoneAfter(best, Distance(metric, query, points[s].vector), points[s].id, s)
  {
    var r := Priced(metric, query, points, s);
    ScannedOnce(metric, query, points, eligible, |points|, r);
    assert r in Scanned(metric, query, points, eligible, |points|) && r !in best;
  }

  // ----- the returned costs, for exact arithmetic

  /** A cost is zero exactly for the query itself, and otherwise positive. */
  ghost predicate ZeroAtQuery(query: Vector, points: seq<Point>, ranked: seq<Ranked>) {
    forall i :: 0 <= i < |ranked| && ranked[i].slot < |points| && |points[ranked[i].slot].vector| == |query| ==>
      ranked[i].cost >= 0.0 && (ranked[i].cost == 0.0 <==> points[ranked[i].slot].vector == query)
  }

  /** Costs of vectors that differ in one coordinate differ by the squares of that coordinate's distances. */
  ghost predicate ApartBySquares(query: Vector, points: seq<Point>, ranked: seq<Ranked>) {
    forall i, j, c :: 0 <= i < |ranked| && 0 <= j < |ranked| && 0 <= c < |query| ==>
      OneMoved(query, points, ranked[i], ranked[j], c)
  }

  ghost predicate OneMoved(query: Vector, points: seq<Point>, a: Ranked, b: Ranked, c: nat)
    requires c < |query|
  {
    a.slot < |points| && b.slot < |points| ==>
      var v, w := points[a.slot].vector, points[b.slot].vector;
      |v| == |w| == |query| && v == w[c := v[c]] ==>
        a.cost - b.cost == (query[c] - v[c]) * (query[c] - v[c]) - (query[c] - w[c]) * (query[c] - w[c])
  }

  lemma ExactCosts(
    metric: Metric, query: Vector, points: seq<Point>, eligible: nat -> bool, ranked: seq<Ranked>, k: nat)
    requires ExactEuclidean(metric) && Nearest(metric, query, points, eligible, ranked, k)
    ensures ZeroAtQuery(query, points, ranked) && ApartBySquares(query, points, ranked)
  {
    forall i | 0 <= i < |ranked| && |points[ranked[i].slot].vector| == |query|
      ensures ranked[i].cost >= 0.0 && (ranked[i].cost == 0.0 <==> points[ranked[i].slot].vector == query)
    {
      DistanceZero(metric, query, points[ranked[i].slot].vector);
    }
    forall i, j, c | 0 <= i < |ranked| && 0 <= j < |ranked| && 0 <= c < |query|
      ensures OneMoved(query, points, ranked[i], ranked[j], c)
    {
      var v, w := points[ranked[i].slot].vector, points[ranked[j].slot].vector;
      if |v| == |w| == |query| && v == w[c := v[c]] {
        DistanceMoved(metric, query, w, c, v[c]);
      }
    }
  }

  /** A hit dearer than the worst of a full heap changes nothing. */
  lemma AbandonedChangesNothing(heap: seq<Ranked>, value: Ranked, k: nat)
    requires |heap| == k > 0 && value.cost > heap[k - 1].cost
    ensures Retained(heap, value, k) == heap
  {
  }

  /** The `k` least full costs, abandonment notwithstanding. */
  method Search(metric: Metric, query: Vector, points: seq<Point>, k: nat, eligible: nat -> bool)
    returns (ranked: seq<Ranked>)
    requires Lawful(metric)
    ensures ranked == BestOf(Scanned(metric, query, points, eligible, |points|), Min(k, |points|))
    ensures Nearest(metric, query, points, eligible, ranked, Min(k, |points|))
    ensures ExactEuclidean(metric) ==> ZeroAtQuery(query, points, ranked) && ApartBySquares(query, points, ranked)
  {
    var limit := Min(k, |points|);
    var best := new BestHeap();
    for slot := 0 to |points|
      invariant fresh(best)
      invariant best.items == BestOf(Scanned(metric, query, points, eligible, slot), limit)
    {
      if limit > 0 && eligible(points[slot].id) {
        Consider(metric, query, points[slot], slot, limit, best, Scanned(metric, query, points, eligible, slot));
      }
    }
    ranked := best.items;
    BestIsNearest(metric, query, points, eligible, limit);
    if ExactEuclidean(metric) {
      ExactCosts(metric, query, points, eligible, ranked, limit);
    }
  }

  method Consider(metric: Metric, query: Vector, point: Point, slot: nat, limit: nat, best: BestHeap,
    ghost pool: multiset<Ranked>)
    requires Lawful(metric) && limit > 0 && best.items == BestOf(pool, limit)
    modifies best
    ensures best.items == BestOf(pool + multiset{Ranked(Distance(metric, query, point.vector), point.id, slot)}, limit)
  {
    ghost var value := Ranked(Distance(metric, query, point.vector), point.id, slot);
    RetainedIsBest(pool, value, limit);
    var cutoff := if |best.items| == limit then Some(best.items[|best.items| - 1].cost) else None;
    var cost := ExactCandidate(metric, query, point.vector, cutoff);
    if cost.Some? {
      RetainBest(best, Ranked(cost.value, point.id, slot), limit, pool);
    } else {
      AbandonedChangesNothing(best.items, value, limit);
    }
  }
}
