/** Fusing two ranked lists by exact score through a bounded heap. */
module Fusion {
  import opened Words
  import opened Arith
  import opened Ranking
  import opened Pools
  import opened Ordered
  import opened ExactScores

  datatype Evidence = Evidence(vectorRank: Option<Rank>, textRank: Option<Rank>)

  datatype Hit = Hit(id: nat, score: Score, decimal: nat, evidence: Evidence)

  datatype Query = Query(k: nat, vectorCandidates: u32, textCandidates: u32, profile: Profile)

  datatype FusionError = KExceedsDepths

  /** How deep a lane is read: not at all when its weight switches it off. */
  function OpenDepth(weight: nat, count: nat): nat {
    if weight == 0 then 0 else count
  }

  /** A zero weight switches its lane off; an output larger than the open depths together is refused. */
  function Depths(query: Query): (r: Result<(nat, nat), FusionError>)
    ensures var vector := OpenDepth(query.profile.vectorWeight, query.vectorCandidates);
            var text := OpenDepth(query.profile.textWeight, query.textCandidates);
            (r.Ok? <==> query.k <= vector + text) && (r.Ok? ==> r.value == (vector, text))
  {
    var vector := if query.profile.vectorWeight == 0 then 0 else query.vectorCandidates;
    var text := if query.profile.textWeight == 0 then 0 else query.textCandidates;
    if query.k > vector + text then Err(KExceedsDepths) else Ok((vector, text))
  }

  ghost function RankIn(hits: seq<nat>, id: nat): Option<nat> {
    if exists i :: 0 <= i < |hits| && hits[i] == id then
      var i :| 0 <= i < |hits| && hits[i] == id;
      Some(i + 1)
    else None
  }

  /** Every listed identity once, with its one-based place in each list. */
  ghost predicate Fuses(fused: map<nat, Evidence>, vectorHits: seq<nat>, textHits: seq<nat>) {
    && (forall id :: id in fused <==> id in vectorHits || id in textHits)
    && (forall id :: id in fused ==> fused[id].vectorRank == RankIn(vectorHits, id))
    && (forall id :: id in fused ==> fused[id].textRank == RankIn(textHits, id))
  }

  lemma RankInAt(hits: seq<nat>, i: nat)
    requires Distinct(hits) && i < |hits|
    ensures RankIn(hits, hits[i]) == Some(i + 1)
  {
  }

  lemma FuseVectorStep(fused: map<nat, Evidence>, hits: seq<nat>, n: nat, row: Evidence, next: map<nat, Evidence>)
    requires Distinct(hits) && n < |hits| && n + 1 < 0x1_0000_0000 && Fuses(fused, hits[..n], [])
    requires row == if hits[n] in fused then fused[hits[n]] else Evidence(None, None)
    requires next == fused[hits[n] := row.(vectorRank := Some(n + 1))]
    ensures Fuses(next, hits[..n + 1], [])
  {
    var front, more := hits[..n], hits[..n + 1];
    RankStep(hits, n);
    assert forall id :: id in more <==> id in front || id == hits[n];
    forall id | id in next
      ensures next[id].vectorRank == RankIn(more, id) && next[id].textRank == RankIn([], id)
    {
    }
  }

  lemma FuseTextStep(
    fused: map<nat, Evidence>, vectorHits: seq<nat>, hits: seq<nat>, n: nat, row: Evidence, next: map<nat, Evidence>)
    requires Distinct(hits) && n < |hits| && n + 1 < 0x1_0000_0000 && Fuses(fused, vectorHits, hits[..n])
    requires row == if hits[n] in fused then fused[hits[n]] else Evidence(None, None)
    requires next == fused[hits[n] := row.(textRank := Some(n + 1))]
    ensures Fuses(next, vectorHits, hits[..n + 1])
  {
    var front, more := hits[..n], hits[..n + 1];
    RankStep(hits, n);
    assert forall id :: id in more <==> id in front || id == hits[n];
    forall id | id in next
      ensures next[id].vectorRank == RankIn(vectorHits, id) && next[id].textRank == RankIn(more, id)
    {
    }
  }

  method AddVectorRanks(hits: seq<nat>) returns (fused: map<nat, Evidence>)
    requires Distinct(hits) && |hits| < 0x1_0000_0000
    ensures Fuses(fused, hits, [])
  {
    fused := map[];
    for offset := 0 to |hits|
      invariant Fuses(fused, hits[..offset], [])
    {
      var id := hits[offset];
      var row := if id in fused then fused[id] else Evidence(None, None);
      var next := fused[id := row.(vectorRank := Some(offset + 1))];
      FuseVectorStep(fused, hits, offset, row, next);
      fused := next;
    }
    assert hits[..|hits|] == hits;
  }

  method AddTextRanks(start: map<nat, Evidence>, vectorHits: seq<nat>, hits: seq<nat>)
    returns (fused: map<nat, Evidence>)
    requires Fuses(start, vectorHits, []) && Distinct(hits) && |hits| < 0x1_0000_0000
    ensures Fuses(fused, vectorHits, hits)
  {
    fused := start;
    assert hits[..0] == [];
    for offset := 0 to |hits|
      invariant Fuses(fused, vectorHits, hits[..offset])
    {
      var id := hits[offset];
      var row := if id in fused then fused[id] else Evidence(None, None);
      var next := fused[id := row.(textRank := Some(offset + 1))];
      FuseTextStep(fused, vectorHits, hits, offset, row, next);
      fused := next;
    }
    assert hits[..|hits|] == hits;
  }

  method FusionCandidates(vectorHits: seq<nat>, textHits: seq<nat>) returns (fused: map<nat, Evidence>)
    requires Distinct(vectorHits) && Distinct(textHits)
    requires |vectorHits| < 0x1_0000_0000 && |textHits| < 0x1_0000_0000
    ensures Fuses(fused, vectorHits, textHits)
  {
    fused := AddVectorRanks(vectorHits);
    fused := AddTextRanks(fused, vectorHits, textHits);
  }

  /** Reading one more hit ranks that hit and leaves every other rank alone. */
  lemma RankStep(hits: seq<nat>, n: nat)
    requires Distinct(hits) && n < |hits|
    ensures hits[n] !in hits[..n]
    ensures forall id :: RankIn(hits[..n + 1], id) == if id == hits[n] then Some(n + 1) else RankIn(hits[..n], id)
  {
    var more := hits[..n + 1];
    RankInAt(more, n);
    forall id | id != hits[n]
      ensures RankIn(more, id) == RankIn(hits[..n], id)
    {
      if i :| 0 <= i < |more| && more[i] == id {
        RankInAt(more, i);
        RankInAt(hits[..n], i);
      }
    }
  }

  // ----- ranking by exact score

  /** The heap's cost of a row: the negated score, so that higher scores come first. */
  ghost predicate CostIs(cost: real, score: Score) {
    score.Bounded() && cost == -score.Number()
  }

  ghost predicate Costs(costs: map<nat, real>, scores: map<nat, Score>) {
    && costs.Keys == scores.Keys
    && forall id {:trigger CostIs(costs[id], scores[id])} :: id in scores ==> CostIs(costs[id], scores[id])
  }

  /** The source's comparison of two fused rows is the heap order of their keys. */
  method Precedes(key: Ranked, score: Score, key': Ranked, score': Score) returns (less: bool)
    requires CostIs(key.cost, score) && CostIs(key'.cost, score') && key.slot == key'.slot
    ensures less <==> Before(key, key')
  {
    CrossIsReal(score'.numerator, score'.denominator, score.numerator, score.denominator);
    var order := Cmp(score', score);
    less := order == Less || (order == Equal && key.id < key'.id);
  }

  function Key(costs: map<nat, real>, id: nat): Ranked {
    Ranked(if id in costs then costs[id] else 0.0, id, 0)
  }

  /** The keys of the listed identities. */
  ghost function Pool(costs: map<nat, real>, ids: seq<nat>): multiset<Ranked> {
    if ids == [] then multiset{}
    else Pool(costs, ids[..|ids| - 1]) + multiset{Key(costs, ids[|ids| - 1])}
  }

  ghost predicate Keyed(items: seq<Ranked>, costs: map<nat, real>) {
    forall i :: 0 <= i < |items| ==> items[i].id in costs && items[i] == Key(costs, items[i].id)
  }

  lemma {:induction false} PoolIsKeyed(costs: map<nat, real>, ids: seq<nat>)
    requires Listed(ids, costs.Keys)
    ensures forall r :: r in Pool(costs, ids) ==> r.id in costs && r == Key(costs, r.id)
    ensures |Pool(costs, ids)| == |ids|
  {
    if ids != [] {
      PoolIsKeyed(costs, ids[..|ids| - 1]);
    }
  }

  lemma BestIsKeyed(costs: map<nat, real>, ids: seq<nat>, k: nat)
    requires Listed(ids, costs.Keys)
    ensures Keyed(BestOf(Pool(costs, ids), k), costs)
  {
    PoolIsKeyed(costs, ids);
    var s := SortedOf(Pool(costs, ids));
    forall i | 0 <= i < |s|
      ensures s[i].id in costs && s[i] == Key(costs, s[i].id)
    {
      assert s[i] in multiset(s);
    }
  }

  /** One heap step; the worst retained row is compared by exact score. */
  method Offer(best: BestHeap, id: nat, scores: map<nat, Score>, costs: map<nat, real>, k: nat)
    requires Costs(costs, scores) && id in scores && k > 0
    requires Keyed(best.items, costs)
    modifies best
    ensures best.items == Retained(old(best.items), Key(costs, id), k)
  {
    if |best.items| < k {
      best.Push(Key(costs, id));
    } else {
      var worst := best.items[|best.items| - 1];
      assert CostIs(costs[id], scores[id]) && CostIs(costs[worst.id], scores[worst.id]);
      var better := Precedes(Key(costs, id), scores[id], worst, scores[worst.id]);
      if better {
        var _ := best.Pop();
        best.Push(Key(costs, id));
      }
    }
  }

  lemma PoolStep(costs: map<nat, real>, ids: seq<nat>, i: nat, k: nat)
    requires i < |ids|
    ensures Retained(BestOf(Pool(costs, ids[..i]), k), Key(costs, ids[i]), k) == BestOf(Pool(costs, ids[..i + 1]), k)
  {
    assert ids[..i + 1][..i] == ids[..i];
    RetainedIsBest(Pool(costs, ids[..i]), Key(costs, ids[i]), k);
  }

  ghost predicate Listed(ids: seq<nat>, keys: set<nat>) {
    forall i :: 0 <= i < |ids| ==> ids[i] in keys
  }

  /** Keeps the best `k` of the listed identities, comparing scores exactly. */
  method RankFused(ids: seq<nat>, scores: map<nat, Score>, costs: map<nat, real>, k: nat) returns (best: BestHeap)
    requires Costs(costs, scores) && Listed(ids, scores.Keys) && k > 0
    ensures fresh(best)
    ensures best.items == BestOf(Pool(costs, ids), k)
  {
    best := new BestHeap();
    for i := 0 to |ids|
      invariant fresh(best)
      invariant best.items == BestOf(Pool(costs, ids[..i]), k)
    {
      BestIsKeyed(costs, ids[..i], k);
      PoolStep(costs, ids, i, k);
      Offer(best, ids[i], scores, costs, k);
    }
    assert ids[..|ids|] == ids;
  }

  // ----- results

  ghost predicate IsRow(row: Hit, key: Ranked, fused: map<nat, Evidence>, scores: map<nat, Score>) {
    && row.id == key.id && row.id in scores && row.id in fused
    && row.score == scores[row.id]
    && row.evidence == fused[row.id]
    && Renders(row.score, row.decimal)
  }

  ghost predicate Renders(score: Score, decimal: int) {
    HalfEven(score.numerator * DECIMAL_SCALE, score.denominator, decimal)
  }

  /** A result list: one row per key, in the order of the keys. */
  ghost predicate Rows(rows: seq<Hit>, keys: seq<Ranked>, fused: map<nat, Evidence>, scores: map<nat, Score>) {
    && |rows| == |keys|
    && (forall i :: 0 <= i < |rows| ==> IsRow(rows[i], keys[i], fused, scores))
  }

  method MakeRow(id: nat, score: Score, evidence: Evidence, ghost cost: real) returns (row: Hit)
    requires CostIs(cost, score)
    ensures row.id == id && row.score == score && row.evidence == evidence && Renders(score, row.decimal)
  {
    var decimal := Decimal(score);
    row := Hit(id, score, decimal, evidence);
  }

  /** Drains the heap worst-first, then reverses in place. */
  method DrainRows(best: BestHeap, fused: map<nat, Evidence>, scores: map<nat, Score>, costs: map<nat, real>)
    returns (rows: seq<Hit>)
    requires Costs(costs, scores) && scores.Keys <= fused.Keys && Keyed(best.items, costs)
    modifies best
    ensures Rows(rows, old(best.items), fused, scores)
  {
    ghost var keys := best.items;
    ghost var n := |keys|;
    rows := [];
    while best.items != []
      invariant |rows| <= n && best.items == keys[..n - |rows|]
      invariant forall i :: 0 <= i < |rows| ==> IsRow(rows[i], keys[n - 1 - i], fused, scores)
      decreases |best.items|
    {
      var hit := best.Pop();
      assert hit == keys[n - 1 - |rows|];
      assert CostIs(costs[hit.id], scores[hit.id]);
      var row := MakeRow(hit.id, scores[hit.id], fused[hit.id], costs[hit.id]);
      rows := rows + [row];
    }
    rows := Reversed(rows);
  }

  method Reversed(drained: seq<Hit>) returns (rows: seq<Hit>)
    ensures |rows| == |drained|
    ensures forall j :: 0 <= j < |rows| ==> rows[j] == drained[|rows| - 1 - j]
  {
    rows := drained;
    var len := |rows|;
    for i := 0 to len / 2
      invariant |rows| == len
      invariant forall j :: 0 <= j < i || len - i <= j < len ==> rows[j] == drained[len - 1 - j]
      invariant forall j :: i <= j < len - i ==> rows[j] == drained[j]
    {
      rows := rows[i := rows[len - i - 1]][len - i - 1 := rows[i]];
    }
  }

  /** Exact order and rendered order never disagree along a result list. */
  lemma RenderedInOrder(
    rows: seq<Hit>, keys: seq<Ranked>, fused: map<nat, Evidence>, scores: map<nat, Score>, costs: map<nat, real>,
    i: nat, j: nat)
    requires Costs(costs, scores) && Keyed(keys, costs) && Rows(rows, keys, fused, scores) && Sorted(keys)
    requires i < j < |rows|
    ensures rows[j].decimal <= rows[i].decimal
  {
    assert IsRow(rows[i], keys[i], fused, scores) && IsRow(rows[j], keys[j], fused, scores);
    assert !Before(keys[j], keys[i]);
    assert CostIs(costs[keys[i].id], scores[keys[i].id]) && CostIs(costs[keys[j].id], scores[keys[j].id]);
    RendersInOrder(rows[j].score, costs[keys[j].id], rows[j].decimal, rows[i].score, costs[keys[i].id],
                   rows[i].decimal);
  }

  lemma RendersInOrder(low: Score, lowCost: real, lowDecimal: int, high: Score, highCost: real, highDecimal: int)
    requires CostIs(lowCost, low) && CostIs(highCost, high) && highCost <= lowCost
    requires Renders(low, lowDecimal) && Renders(high, highDecimal)
    ensures lowDecimal <= highDecimal
  {
    CrossIsReal(low.numerator, low.denominator, high.numerator, high.denominator);
    ScaledOrder(low.numerator, low.denominator, high.numerator, high.denominator, DECIMAL_SCALE);
    HalfEvenMonotone(low.numerator * DECIMAL_SCALE, low.denominator, lowDecimal,
                     high.numerator * DECIMAL_SCALE, high.denominator, highDecimal);
  }

  lemma ScaledOrder(n: nat, d: nat, n': nat, d': nat, p: nat)
    requires n * d' <= n' * d
    ensures 0 <= n * p && 0 <= n' * p && (n * p) * d' <= (n' * p) * d
  {
    MulMonotone(p, n * d', n' * d);
    MulAssoc(p, n, d');
    MulAssoc(p, n', d);
    MulMonotone(p, 0, n);
    MulMonotone(p, 0, n');
  }

  /** A row's score is the exact sum of the shares of the lanes that ranked it. */
  ghost predicate ScoreIs(score: Score, cost: real, profile: Profile, evidence: Evidence) {
    && CostIs(cost, score)
    && -cost == Shares(profile.rankConstant,
                       [(evidence.vectorRank, profile.vectorWeight), (evidence.textRank, profile.textWeight),
                        (None, 0)])
  }

  method ScoreOne(evidence: Evidence, profile: Profile) returns (score: Score, cost: real)
    ensures ScoreIs(score, cost, profile, evidence)
  {
    score := FromGraphRanks(profile, evidence.vectorRank, evidence.textRank, None, 0);
    cost := -score.Number();
  }

  ghost predicate Scored(scores: map<nat, Score>, costs: map<nat, real>, fused: map<nat, Evidence>, profile: Profile) {
    && scores.Keys == costs.Keys <= fused.Keys
    && forall id {:trigger ScoreIs(scores[id], costs[id], profile, fused[id])} ::
         id in scores ==> ScoreIs(scores[id], costs[id], profile, fused[id])
  }

  lemma ScoredCosts(scores: map<nat, Score>, costs: map<nat, real>, fused: map<nat, Evidence>, profile: Profile)
    requires Scored(scores, costs, fused, profile)
    ensures Costs(costs, scores)
  {
    forall id | id in scores
      ensures CostIs(costs[id], scores[id])
    {
      assert ScoreIs(scores[id], costs[id], profile, fused[id]);
    }
  }

  lemma ScoredStep(
    scores: map<nat, Score>, costs: map<nat, real>, fused: map<nat, Evidence>, profile: Profile, id: nat, score: Score,
    cost: real)
    requires Scored(scores, costs, fused, profile) && id in fused && ScoreIs(score, cost, profile, fused[id])
    ensures Scored(scores[id := score], costs[id := cost], fused, profile)
  {
    var scores', costs' := scores[id := score], costs[id := cost];
    forall other | other in scores'
      ensures ScoreIs(scores'[other], costs'[other], profile, fused[other])
    {
      assert other != id ==> ScoreIs(scores[other], costs[other], profile, fused[other]);
    }
  }

  method ScoreAll(ids: seq<nat>, fused: map<nat, Evidence>, profile: Profile)
    returns (scores: map<nat, Score>, costs: map<nat, real>)
    requires Listed(ids, fused.Keys)
    ensures Scored(scores, costs, fused, profile)
    ensures forall id :: id in scores <==> id in ids
  {
    scores, costs := map[], map[];
    for i := 0 to |ids|
      invariant Scored(scores, costs, fused, profile)
      invariant forall id :: id in scores <==> id in ids[..i]
    {
      var score, cost := ScoreOne(fused[ids[i]], profile);
      ScoredStep(scores, costs, fused, profile, ids[i], score, cost);
      scores, costs := scores[ids[i] := score], costs[ids[i] := cost];
    }
  }

  /** The fused top-k: higher scores first, lower identities first among equal scores. */
  ghost predicate FusedTop(
    rows: seq<Hit>, k: nat, fused: map<nat, Evidence>, scores: map<nat, Score>, costs: map<nat, real>,
    profile: Profile) {
    && Scored(scores, costs, fused, profile) && scores.Keys == fused.Keys
    && Rows(rows, BestOf(Pool(costs, Ascending(scores.Keys)), k), fused, scores)
  }

  method FuseAndRank(ids: seq<nat>, fused: map<nat, Evidence>, k: nat, profile: Profile)
    returns (rows: seq<Hit>, ghost scores: map<nat, Score>, ghost costs: map<nat, real>)
    requires k > 0 && Listed(ids, fused.Keys)
    ensures Scored(scores, costs, fused, profile)
    ensures forall id :: id in scores <==> id in ids
    ensures Rows(rows, BestOf(Pool(costs, ids), k), fused, scores)
  {
    var exact, cost := ScoreAll(ids, fused, profile);
    scores, costs := exact, cost;
    ScoredCosts(exact, cost, fused, profile);
    var best := RankFused(ids, exact, cost, k);
    BestIsKeyed(cost, ids, k);
    rows := DrainRows(best, fused, exact, cost);
  }

  lemma AscendingListed(keys: set<nat>)
    ensures Listed(Ascending(keys), keys)
  {
    var ids := Ascending(keys);
    forall i | 0 <= i < |ids|
      ensures ids[i] in keys
    {
      assert ids[i] in ids;
    }
  }

  lemma AscendingKeys(keys: set<nat>, scored: set<nat>)
    requires forall id :: id in scored <==> id in Ascending(keys)
    ensures scored == keys
  {
  }

  method FuseTop(fused: map<nat, Evidence>, k: nat, profile: Profile)
    returns (rows: seq<Hit>, ghost scores: map<nat, Score>, ghost costs: map<nat, real>)
    requires k > 0
    ensures FusedTop(rows, k, fused, scores, costs, profile)
  {
    AscendingListed(fused.Keys);
    rows, scores, costs := FuseAndRank(Ascending(fused.Keys), fused, k, profile);
    AscendingKeys(fused.Keys, scores.Keys);
  }

  /** The rendered decimals never rise down the fused list. */
  lemma FusedInOrder(
    rows: seq<Hit>, k: nat, fused: map<nat, Evidence>, scores: map<nat, Score>, costs: map<nat, real>,
    profile: Profile, i: nat, j: nat)
    requires FusedTop(rows, k, fused, scores, costs, profile) && i < j < |rows|
    ensures rows[j].decimal <= rows[i].decimal
  {
    ScoredCosts(scores, costs, fused, profile);
    AscendingListed(scores.Keys);
    BestIsKeyed(costs, Ascending(scores.Keys), k);
    RenderedInOrder(rows, BestOf(Pool(costs, Ascending(scores.Keys)), k), fused, scores, costs, i, j);
  }

  // ----- the order of the rows, in numbers

  ghost function CostsOf(costs: map<nat, real>, ids: seq<nat>): map<nat, real> {
    map id | id in ids && id in costs :: costs[id]
  }

  lemma CostsOfNext(costs: map<nat, real>, ids: seq<nat>, front: seq<nat>, last: nat)
    requires ids == front + [last] && Listed(ids, costs.Keys) && Distinct(ids)
    ensures Listed(front, costs.Keys) && Distinct(front) && last in costs && last !in CostsOf(costs, front)
    ensures CostsOf(costs, ids) == CostsOf(costs, front)[last := costs[last]]
  {
    assert forall i :: 0 <= i < |front| ==> front[i] == ids[i];
    assert ids[|front|] == last;
  }

  lemma {:induction false} PoolIsListed(costs: map<nat, real>, ids: seq<nat>)
    requires Listed(ids, costs.Keys) && Distinct(ids)
    ensures Pool(costs, ids) == PoolOf(CostsOf(costs, ids))
  {
    if ids == [] {
      assert Hits(CostsOf(costs, ids)) == {};
    } else {
      var front, last := ids[..|ids| - 1], ids[|ids| - 1];
      assert ids == front + [last];
      CostsOfNext(costs, ids, front, last);
      PoolIsListed(costs, front);
      PoolInsert(CostsOf(costs, front), last, costs[last]);
    }
  }

  ghost predicate Unranked(rows: seq<Hit>, id: nat) {
    forall i :: 0 <= i < |rows| ==> rows[i].id != id
  }

  /** Scores fall down the list, equal scores by rising identity, and what is left out comes after all of it. */
  ghost predicate RankedRows(rows: seq<Hit>, scores: map<nat, Score>, k: nat) {
    && |rows| == Min(k, |scores|)
    && (forall i :: 0 <= i < |rows| ==> rows[i].id in scores && rows[i].score == scores[rows[i].id])
    && (forall i, j :: 0 <= i < j < |rows| ==>
          || rows[i].score.Number() > rows[j].score.Number()
          || (rows[i].score.Number() == rows[j].score.Number() && rows[i].id < rows[j].id))
    && (forall i, id :: 0 <= i < |rows| && id in scores && Unranked(rows, id) ==>
          || rows[i].score.Number() > scores[id].Number()
          || (rows[i].score.Number() == scores[id].Number() && rows[i].id < id))
  }

  lemma FusedRanked(
    rows: seq<Hit>, k: nat, fused: map<nat, Evidence>, scores: map<nat, Score>, costs: map<nat, real>,
    profile: Profile)
    requires FusedTop(rows, k, fused, scores, costs, profile)
    ensures RankedRows(rows, scores, k)
  {
    var ids := Ascending(scores.Keys);
    ScoredCosts(scores, costs, fused, profile);
    AscendingListed(scores.Keys);
    assert CostsOf(costs, ids) == costs;
    PoolIsListed(costs, ids);
    BestIsTop(costs, k);
    RowsRanked(rows, BestOf(PoolOf(costs), k), k, fused, scores, costs);
  }

  lemma RowsRanked(
    rows: seq<Hit>, keys: seq<Ranked>, k: nat, fused: map<nat, Evidence>, scores: map<nat, Score>,
    costs: map<nat, real>)
    requires Costs(costs, scores) && Rows(rows, keys, fused, scores) && TopOf(keys, costs, k)
    ensures RankedRows(rows, scores, k)
  {
    assert |costs| == |costs.Keys| && |scores| == |scores.Keys|;
    forall i | 0 <= i < |rows|
      ensures rows[i].id == keys[i].id && rows[i].id in scores && rows[i].score == scores[rows[i].id]
      ensures keys[i].cost == -rows[i].score.Number()
    {
      assert IsRow(rows[i], keys[i], fused, scores);
      assert CostIs(costs[rows[i].id], scores[rows[i].id]);
    }
    forall i, id | 0 <= i < |rows| && id in scores && Unranked(rows, id)
      ensures || rows[i].score.Number() > scores[id].Number()
              || (rows[i].score.Number() == scores[id].Number() && rows[i].id < id)
    {
      assert CostIs(costs[id], scores[id]);
      assert Unlisted(keys, id);
    }
  }

  /** The best `k` of the fused candidates by exact score, best first, rendered in the same order. */
  method HybridSearchExactFusion(query: Query, vectorHits: seq<nat>, textHits: seq<nat>)
    returns (r: Result<seq<Hit>, FusionError>, ghost fused: map<nat, Evidence>, ghost scores: map<nat, Score>,
             ghost costs: map<nat, real>)
    requires Distinct(vectorHits) && Distinct(textHits)
    requires Depths(query).Ok? ==> |vectorHits| <= Depths(query).value.0 && |textHits| <= Depths(query).value.1
    ensures r.Err? <==> Depths(query).Err?
    ensures r.Ok? && query.k == 0 ==> r.value == []
    ensures r.Ok? && query.k > 0 ==>
              Fuses(fused, vectorHits, textHits) && FusedTop(r.value, query.k, fused, scores, costs, query.profile)
    ensures r.Ok? ==> forall i, j :: 0 <= i < j < |r.value| ==> r.value[j].decimal <= r.value[i].decimal
    ensures r.Ok? && query.k > 0 ==> scores.Keys == fused.Keys && RankedRows(r.value, scores, query.k)
  {
    fused, scores, costs := map[], map[], map[];
    var depths := Depths(query);
    if depths.Err? {
      return Err(depths.error), fused, scores, costs;
    }
    if query.k == 0 {
      return Ok([]), fused, scores, costs;
    }
    var candidates := FusionCandidates(vectorHits, textHits);
    fused := candidates;
    var rows;
    rows, scores, costs := FuseTop(candidates, query.k, query.profile);
    FusedRanked(rows, query.k, fused, scores, costs, query.profile);
    forall i, j | 0 <= i < j < |rows|
      ensures rows[j].decimal <= rows[i].decimal
    {
      FusedInOrder(rows, query.k, fused, scores, costs, query.profile, i, j);
    }
    r := Ok(rows);
  }
}
