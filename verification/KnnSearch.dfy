/** Exact vector search over every segment gives what a scan of the live documents would. */
module KnnSearch {
  import opened Words
  import opened Corpus
  import opened Ranking
  import opened Pools
  import opened Generations
  import opened IndexSearch
  import opened Links
  import ES = ExactSearch

  // ----- forgetting slots

  function Unslotted(r: Ranked): Ranked {
    r.(slot := 0)
  }

  ghost function Flat(s: seq<Ranked>): (t: seq<Ranked>)
    ensures |t| == |s|
  {
    seq(|s|, i requires 0 <= i < |s| => Unslotted(s[i]))
  }

  lemma FlatSorted(s: seq<Ranked>)
    requires Sorted(s)
    ensures Sorted(Flat(s))
  {
    forall i, j | 0 <= i < j < |s|
      ensures !Before(Flat(s)[j], Flat(s)[i])
    {
      assert !Before(s[j], s[i]);
    }
  }

  lemma FlatConcat(a: seq<Ranked>, b: seq<Ranked>)
    ensures Flat(a + b) == Flat(a) + Flat(b)
  {
  }

  lemma FlatOne(x: Ranked)
    ensures Flat([x]) == [Unslotted(x)]
  {
  }

  lemma FlatAround(low: seq<Ranked>, x: Ranked, high: seq<Ranked>)
    ensures multiset(Flat(low + ([x] + high))) == multiset(Flat(low + high)) + multiset{Unslotted(x)}
  {
    FlatConcat(low, [x] + high);
    FlatConcat([x], high);
    FlatConcat(low, high);
    FlatOne(x);
  }

  lemma RemoveAt(b: seq<Ranked>, x: Ranked) returns (low: seq<Ranked>, high: seq<Ranked>)
    requires x in multiset(b)
    ensures b == low + ([x] + high) && multiset(low + high) == multiset(b) - multiset{x}
  {
    var i :| 0 <= i < |b| && b[i] == x;
    low, high := b[..i], b[i + 1..];
    assert b == low + ([x] + high);
  }

  /** Listing the same hits in another order flattens to the same hits. */
  lemma {:induction false} FlatPermuted(a: seq<Ranked>, b: seq<Ranked>)
    requires multiset(a) == multiset(b)
    ensures multiset(Flat(a)) == multiset(Flat(b))
    decreases |a|
  {
    if a == [] {
      assert |multiset(b)| == 0;
    } else {
      var x, rest := a[0], a[1..];
      assert a == [x] + rest;
      var low, high := RemoveAt(b, x);
      FlatPermuted(rest, low + high);
      FlatAround([], x, rest);
      assert [] + rest == rest && [] + ([x] + rest) == a;
      FlatAround(low, x, high);
    }
  }

  /** Choosing the best and forgetting slots can be done in either order. */
  lemma FlatBest(s: seq<Ranked>, k: nat)
    ensures Flat(BestOf(multiset(s), k)) == BestOf(multiset(Flat(s)), k)
  {
    var sorted := SortedOf(multiset(s));
    FlatPermuted(sorted, s);
    FlatSorted(sorted);
    SortedUnique(Flat(sorted), SortedOf(multiset(Flat(s))));
    assert |multiset(Flat(s))| == |Flat(s)| && |multiset(s)| == |s|;
  }

  // ----- a segment's points

  ghost function ScannedList(metric: ES.Metric, query: Vector, points: seq<ES.Point>, eligible: nat -> bool,
    n: nat): (s: seq<Ranked>)
    requires n <= |points|
    ensures multiset(s) == ES.Scanned(metric, query, points, eligible, n) && |s| <= n
  {
    if n == 0 then [] else
    var p, before := points[n - 1], ScannedList(metric, query, points, eligible, n - 1);
    if eligible(p.id) then before + [Ranked(ES.Distance(metric, query, p.vector), p.id, n - 1)] else before
  }

  ghost function PointCosts(metric: ES.Metric, query: Vector, points: seq<ES.Point>, eligible: nat -> bool,
    n: nat): map<nat, real>
    requires n <= |points|
  {
    if n == 0 then map[] else
    var p, before := points[n - 1], PointCosts(metric, query, points, eligible, n - 1);
    if eligible(p.id) then before[p.id := ES.Distance(metric, query, p.vector)] else before
  }

  ghost predicate DistinctPoints(points: seq<ES.Point>) {
    forall i, j :: 0 <= i < j < |points| ==> points[i].id != points[j].id
  }

  /** The costs name exactly the eligible points read, each with its own cost. */
  lemma {:induction false} PointCostsAre(metric: ES.Metric, query: Vector, points: seq<ES.Point>,
    eligible: nat -> bool, n: nat, id: nat)
    requires n <= |points| && DistinctPoints(points)
    ensures id in PointCosts(metric, query, points, eligible, n) <==>
            eligible(id) && exists i :: 0 <= i < n && points[i].id == id
    ensures forall i :: 0 <= i < n && points[i].id == id && eligible(id) ==>
              id in PointCosts(metric, query, points, eligible, n)
              && PointCosts(metric, query, points, eligible, n)[id] == ES.Distance(metric, query, points[i].vector)
  {
    if n > 0 {
      PointCostsAre(metric, query, points, eligible, n - 1, id);
    }
  }

  lemma {:induction false} FlatScanned(metric: ES.Metric, query: Vector, points: seq<ES.Point>, eligible: nat -> bool,
    n: nat)
    requires n <= |points| && DistinctPoints(points)
    ensures multiset(Flat(ScannedList(metric, query, points, eligible, n))) == PoolOf(PointCosts(metric, query, points,
          eligible, n))
  {
    if n == 0 {
      assert Hits(map[]) == {};
    } else {
      var k := n - 1;
      FlatScanned(metric, query, points, eligible, k);
      var p, before := points[k], ScannedList(metric, query, points, eligible, k);
      if eligible(p.id) {
        var cost := ES.Distance(metric, query, p.vector);
        var hit := Ranked(cost, p.id, k);
        PointCostsAre(metric, query, points, eligible, k, p.id);
        PoolInsert(PointCosts(metric, query, points, eligible, k), p.id, cost);
        FlatConcat(before, [hit]);
        FlatOne(hit);
        assert ScannedList(metric, query, points, eligible, n) == before + [hit];
      }
    }
  }

  function PointsOf(nodes: seq<Node>): (points: seq<ES.Point>)
    ensures |points| == |nodes|
  {
    seq(|nodes|, i requires 0 <= i < |nodes| => ES.Point(nodes[i].id, nodes[i].vector))
  }

  // ----- the reference

  /** Every eligible live document with a vector, at its full distance. */
  ghost function VectorScan(metric: ES.Metric, query: Vector, docs: map<nat, Document>,
    eligible: nat -> bool): map<nat, real> {
    map id | id in docs && eligible(id) && docs[id].vector.Some? :: ES.Distance(metric, query, docs[id].vector.value)
  }

  lemma ShareOf(
    metric: ES.Metric, query: Vector, docs: map<nat, Document>, nodes: seq<Node>, eligible: nat -> bool,
    visible: nat -> bool, shown: set<nat>)
    requires DistinctIds(nodes) && forall id :: visible(id) <==> id in shown && eligible(id)
    requires forall id :: id in shown ==> id in docs && NodeHolds(nodes, id, docs[id])
    ensures PointCosts(metric, query, PointsOf(nodes), visible, |nodes|) ==
            Restrict(VectorScan(metric, query, docs, eligible), shown)
  {
    var points := PointsOf(nodes);
    var costs, scan := PointCosts(metric, query, points, visible, |nodes|), VectorScan(metric, query, docs, eligible);
    forall id
      ensures id in costs <==> id in scan && id in shown
      ensures id in costs && id in scan ==> costs[id] == scan[id]
    {
      PointCostsAre(metric, query, points, visible, |nodes|, id);
      if id in shown {
        assert NodeHolds(nodes, id, docs[id]);
        if i :| 0 <= i < |nodes| && nodes[i].id == id {
          assert points[i].id == id && points[i].vector == nodes[i].vector;
        }
      }
    }
  }

  // ----- the search

  /** Offering the best hits of a part is offering the whole part. */
  lemma BestPartSuffices(pool: multiset<Ranked>, list: seq<Ranked>, limit: nat, n: nat)
    requires |list| <= n
    ensures BestOf(pool + multiset(Flat(BestOf(multiset(list), Min(limit, n)))), limit) ==
            BestOf(pool + multiset(Flat(list)), limit)
  {
    assert |multiset(list)| == |list|;
    BestUnbounded(multiset(list), limit, n);
    FlatBest(list, limit);
    BestMerge(pool, multiset(Flat(list)), limit);
  }

  /** Offers a list of hits, slots forgotten, to the shared heap. */
  method OfferAll(best: BestHeap, hits: seq<Ranked>, limit: nat, ghost pool: multiset<Ranked>)
    requires best.items == BestOf(pool, limit)
    modifies best
    ensures best.items == BestOf(pool + multiset(Flat(hits)), limit)
  {
    assert Flat([]) == [] && pool + multiset{} == pool;
    for i := 0 to |hits|
      invariant best.items == BestOf(pool + multiset(Flat(hits[..i])), limit)
    {
      FlatTake(hits, i, pool);
      RetainBest(best, Ranked(hits[i].cost, hits[i].id, 0), limit, pool + multiset(Flat(hits[..i])));
    }
    assert hits[..|hits|] == hits;
  }

  lemma FlatTake(hits: seq<Ranked>, i: nat, pool: multiset<Ranked>)
    requires i < |hits|
    ensures pool + multiset(Flat(hits[..i + 1])) == pool + multiset(Flat(hits[..i])) + multiset{Ranked(hits[i].cost,
          hits[i].id, 0)}
  {
    assert hits[..i + 1] == hits[..i] + [hits[i]];
    FlatConcat(hits[..i], [hits[i]]);
    FlatOne(hits[i]);
  }

  lemma PartContributes(
    g: Generation, config: Config, n: nat, metric: ES.Metric, query: Vector, limit: nat, eligible: nat -> bool,
    visible: nat -> bool,
    scan: map<nat, real>)
    requires Valid(g, config) && n < |g.segments| && scan == VectorScan(metric, query, Contents(g.live), eligible)
    requires forall id :: visible(id) <==> VisibleIn(g, id, g.segments[n].generation) && eligible(id)
    ensures var points := PointsOf(g.segments[n].nodes);
            var part := BestOf(ES.Scanned(metric, query, points, visible, |points|), Min(limit, |points|));
            BestOf(Contributed(scan, g, n) + multiset(Flat(part)), limit) == BestOf(Contributed(scan, g, n + 1), limit)
  {
    var nodes, shown := g.segments[n].nodes, ShownBy(g.live, g.segments[n].generation);
    var points := PointsOf(nodes);
    var list := ScannedList(metric, query, points, visible, |points|);
    BestPartSuffices(Contributed(scan, g, n), list, limit, |points|);
    assert SegmentSound(g.segments[n], config.m);
    PointsDistinct(nodes);
    FlatScanned(metric, query, points, visible, |points|);
    forall id | id in shown
      ensures id in Contents(g.live) && NodeHolds(nodes, id, Contents(g.live)[id])
    {
      ShownHolds(g, config, n, id);
    }
    ShareOf(metric, query, Contents(g.live), nodes, eligible, visible, shown);
    ShownStep(scan, g.live, g.segments, n);
  }

  lemma PointsDistinct(nodes: seq<Node>)
    requires DistinctIds(nodes)
    ensures DistinctPoints(PointsOf(nodes))
  {
  }

  lemma KnnFinish(g: Generation, config: Config, metric: ES.Metric, query: Vector, eligible: nat -> bool, k: nat)
    requires Valid(g, config)
    ensures var scan := VectorScan(metric, query, Contents(g.live), eligible);
            BestOf(Contributed(scan, g, |g.segments|), Min(k, g.totals.vectorDocuments)) == BestOf(PoolOf(scan), k)
  {
    var docs := Contents(g.live);
    var scan := VectorScan(metric, query, docs, eligible);
    ShownAll(scan, g.live, g.segments);
    VectorsCounted(docs);
    PoolSize(scan);
    SubsetSize(scan.Keys, Vectors(docs));
    assert |scan| == |scan.Keys|;
    BestUnbounded(PoolOf(scan), k, g.totals.vectorDocuments);
  }

  /** What one segment's hits add, slots forgotten. */
  ghost predicate KnnStep(
    g: Generation, metric: ES.Metric, query: Vector, limit: nat, eligible: nat -> bool, scan: map<nat, real>, n: nat)
    requires n < |g.segments|
  {
    var points, visible := PointsOf(g.segments[n].nodes), Shown(g, g.segments[n].generation, eligible);
    var part := BestOf(ES.Scanned(metric, query, points, visible, |points|), Min(limit, |points|));
    BestOf(Contributed(scan, g, n) + multiset(Flat(part)), limit) == BestOf(Contributed(scan, g, n + 1), limit)
  }

  ghost predicate KnnSteps(g: Generation, metric: ES.Metric, query: Vector, limit: nat, eligible: nat -> bool,
    scan: map<nat, real>) {
    forall n :: 0 <= n < |g.segments| ==> KnnStep(g, metric, query, limit, eligible, scan, n)
  }

  method KnnSegment(
    g: Generation, metric: ES.Metric, query: Vector, limit: nat, eligible: nat -> bool, best: BestHeap,
    ghost scan: map<nat, real>, n: nat)
    requires ES.Lawful(metric) && n < |g.segments| && KnnSteps(g, metric, query, limit, eligible, scan)
    requires best.items == BestOf(Contributed(scan, g, n), limit)
    modifies best
    ensures best.items == BestOf(Contributed(scan, g, n + 1), limit)
  {
    var visible := Shown(g, g.segments[n].generation, eligible);
    var part := ES.Search(metric, query, PointsOf(g.segments[n].nodes), limit, visible);
    OfferAll(best, part, limit, Contributed(scan, g, n));
    assert KnnStep(g, metric, query, limit, eligible, scan, n);
  }

  method KnnSegments(
    g: Generation, metric: ES.Metric, query: Vector, limit: nat, eligible: nat -> bool, ghost scan: map<nat, real>)
    returns (hits: seq<Ranked>)
    requires ES.Lawful(metric) && KnnSteps(g, metric, query, limit, eligible, scan)
    ensures hits == BestOf(Contributed(scan, g, |g.segments|), limit)
  {
    var best := new BestHeap();
    NothingContributed(scan, g);
    for n := 0 to |g.segments|
      invariant fresh(best)
      invariant best.items == BestOf(Contributed(scan, g, n), limit)
    {
      KnnSegment(g, metric, query, limit, eligible, best, scan, n);
    }
    hits := best.items;
  }

  // ----- the returned costs, for exact squared Euclidean distance

  ghost predicate HasVector(docs: map<nat, Document>, id: nat, n: nat) {
    id in docs && docs[id].vector.Some? && |docs[id].vector.value| == n
  }

  /** A cost is zero exactly for the query itself, and otherwise positive. */
  ghost predicate ZeroAtQuery(query: Vector, docs: map<nat, Document>, hits: seq<Ranked>) {
    forall i :: 0 <= i < |hits| && HasVector(docs, hits[i].id, |query|) ==>
      hits[i].cost >= 0.0 && (hits[i].cost == 0.0 <==> docs[hits[i].id].vector.value == query)
  }

  /** Costs of vectors that differ in one coordinate differ by the squares of that coordinate's distances. */
  ghost predicate ApartBySquares(query: Vector, docs: map<nat, Document>, hits: seq<Ranked>) {
    forall i, j, c :: 0 <= i < |hits| && 0 <= j < |hits| && 0 <= c < |query| ==>
      OneMoved(query, docs, hits[i], hits[j], c)
  }

  ghost predicate OneMoved(query: Vector, docs: map<nat, Document>, a: Ranked, b: Ranked, c: nat)
    requires c < |query|
  {
    HasVector(docs, a.id, |query|) && HasVector(docs, b.id, |query|) ==>
      var v, w := docs[a.id].vector.value, docs[b.id].vector.value;
      v == w[c := v[c]] ==>
        a.cost - b.cost == (query[c] - v[c]) * (query[c] - v[c]) - (query[c] - w[c]) * (query[c] - w[c])
  }

  lemma ExactCosts(
    metric: ES.Metric, query: Vector, docs: map<nat, Document>, eligible: nat -> bool, hits: seq<Ranked>)
    requires ES.ExactEuclidean(metric) && Rising(hits, VectorScan(metric, query, docs, eligible))
    ensures ZeroAtQuery(query, docs, hits) && ApartBySquares(query, docs, hits)
  {
    forall i | 0 <= i < |hits| && HasVector(docs, hits[i].id, |query|)
      ensures hits[i].cost >= 0.0 && (hits[i].cost == 0.0 <==> docs[hits[i].id].vector.value == query)
    {
      ES.DistanceZero(metric, query, docs[hits[i].id].vector.value);
    }
    forall i, j, c | 0 <= i < |hits| && 0 <= j < |hits| && 0 <= c < |query|
      ensures OneMoved(query, docs, hits[i], hits[j], c)
    {
      if HasVector(docs, hits[i].id, |query|) && HasVector(docs, hits[j].id, |query|) {
        var v, w := docs[hits[i].id].vector.value, docs[hits[j].id].vector.value;
        if v == w[c := v[c]] {
          ES.DistanceMoved(metric, query, w, c, v[c]);
        }
      }
    }
  }

  /** The nearest live documents, whichever segments hold them. */
  method Knn(g: Generation, config: Config, metric: ES.Metric, query: Vector, k: nat, eligible: nat -> bool)
    returns (hits: seq<Ranked>)
    requires Valid(g, config) && ES.Lawful(metric)
    ensures hits == BestOf(PoolOf(VectorScan(metric, query, Contents(g.live), eligible)), k)
    ensures TopOf(hits, VectorScan(metric, query, Contents(g.live), eligible), k)
    ensures forall i, j :: 0 <= i < j < |hits| ==>
              hits[i].cost < hits[j].cost || (hits[i].cost == hits[j].cost && hits[i].id < hits[j].id)
    ensures ES.ExactEuclidean(metric) ==>
              ZeroAtQuery(query, Contents(g.live), hits) && ApartBySquares(query, Contents(g.live), hits)
  {
    var limit := Min(k, g.totals.vectorDocuments);
    KnnFinish(g, config, metric, query, eligible, k);
    BestIsTop(VectorScan(metric, query, Contents(g.live), eligible), k);
    if ES.ExactEuclidean(metric) {
      ExactCosts(metric, query, Contents(g.live), eligible,
                 BestOf(PoolOf(VectorScan(metric, query, Contents(g.live), eligible)), k));
    }
    if limit == 0 {
      return [];
    }
    ghost var scan := VectorScan(metric, query, Contents(g.live), eligible);
    forall n | 0 <= n < |g.segments|
      ensures KnnStep(g, metric, query, limit, eligible, scan, n)
    {
      PartContributes(g, config, n, metric, query, limit, eligible, Shown(g, g.segments[n].generation, eligible), scan);
    }
    hits := KnnSegments(g, metric, query, limit, eligible, scan);
  }
}
