/** Hybrid search of one generation: both lanes read the live documents, and the fusion is exact. */
module HybridSearch {
  import opened Words
  import opened Corpus
  import opened Ranking
  import opened Pools
  import Ordered
  import Analysis
  import Generations
  import PostingMerge
  import IndexSearch
  import KnnSearch
  import ES = ExactSearch
  import F = Fusion
  import X = ExactScores

  function Ids(hits: seq<Ranked>): (ids: seq<nat>)
    ensures |ids| == |hits|
  {
    seq(|hits|, i requires 0 <= i < |hits| => hits[i].id)
  }

  /** No identity is ranked twice by a lane. */
  lemma LaneDistinct(costs: map<nat, real>, k: nat)
    ensures Ordered.Distinct(Ids(BestOf(PoolOf(costs), k)))
  {
    BestIsTop(costs, k);
  }

  /** The identities one lane ranks: the first `depth` of a scan of the live documents. */
  ghost function Lane(costs: map<nat, real>, depth: nat): (ids: seq<nat>)
    ensures |ids| <= depth
  {
    Ids(BestOf(PoolOf(costs), depth))
  }

  /** Both lanes of one immutable generation, fused by exact score. */
  method Search(
    g: Generations.Generation, config: Generations.Config, query: F.Query, metric: ES.Metric, vector: Vector,
    scoring: PostingMerge.Scoring, terms: seq<Analysis.Term>, eligible: nat -> bool)
    returns (r: Result<seq<F.Hit>, F.FusionError>, ghost fused: map<nat, F.Evidence>, ghost scores: map<nat, X.Score>,
             ghost costs: map<nat, real>)
    requires Generations.Valid(g, config) && ES.Lawful(metric)
    ensures r.Err? <==> F.Depths(query).Err?
    ensures r.Ok? && query.k == 0 ==> r.value == []
    ensures r.Ok? && query.k > 0 ==>
              F.Fuses(fused,
                      Lane(KnnSearch.VectorScan(metric, vector, Generations.Contents(g.live), eligible),
                           F.Depths(query).value.0),
                      Lane(IndexSearch.TextScan(scoring, Generations.Contents(g.live), terms, eligible),
                           F.Depths(query).value.1))
    ensures r.Ok? && query.k > 0 ==> F.FusedTop(r.value, query.k, fused, scores, costs, query.profile)
    ensures r.Ok? && query.k > 0 ==> scores.Keys == fused.Keys && F.RankedRows(r.value, scores, query.k)
  {
    var depths := F.Depths(query);
    var vectorHits, textHits := [], [];
    if depths.Ok? {
      var near := KnnSearch.Knn(g, config, metric, vector, depths.value.0, eligible);
      var found := IndexSearch.TextSearchAny(g, config, scoring, terms, depths.value.1, eligible);
      LaneDistinct(KnnSearch.VectorScan(metric, vector, Generations.Contents(g.live), eligible), depths.value.0);
      LaneDistinct(IndexSearch.TextScan(scoring, Generations.Contents(g.live), terms, eligible), depths.value.1);
      vectorHits, textHits := Ids(near), Ids(found);
    }
    r, fused, scores, costs := F.HybridSearchExactFusion(query, vectorHits, textHits);
  }
}
