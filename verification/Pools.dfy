/** Pools of hits given by a cost per identity. */
module Pools {
  import opened Words
  import opened Ranking

  ghost function Hits(costs: map<nat, real>): set<Ranked> {
    set id | id in costs :: Ranked(costs[id], id, 0)
  }

  ghost function PoolOf(costs: map<nat, real>): multiset<Ranked> {
    multiset(Hits(costs))
  }

  lemma PoolInsert(costs: map<nat, real>, id: nat, cost: real)
    requires id !in costs
    ensures PoolOf(costs[id := cost]) == PoolOf(costs) + multiset{Ranked(cost, id, 0)}
  {
    var after, hit := costs[id := cost], Ranked(cost, id, 0);
    forall r
      ensures r in Hits(after) <==> r in Hits(costs) + {hit}
    {
      if r in Hits(costs) {
        assert r.id in costs && after[r.id] == costs[r.id];
      }
      if r == hit {
        assert after[id] == cost;
      }
    }
    assert Hits(after) == Hits(costs) + {hit};
    assert hit !in Hits(costs);
  }

  lemma InHits(costs: map<nat, real>, r: Ranked)
    ensures r in Hits(costs) <==> r.id in costs && r.cost == costs[r.id] && r.slot == 0
  {
    if r.id in costs && r.cost == costs[r.id] && r.slot == 0 {
      assert r == Ranked(costs[r.id], r.id, 0);
    }
  }

  lemma DisjointSets(a: set<Ranked>, b: set<Ranked>)
    requires a !! b
    ensures multiset(a + b) == multiset(a) + multiset(b)
  {
  }

  lemma PoolUnion(a: map<nat, real>, b: map<nat, real>)
    requires a.Keys !! b.Keys
    ensures PoolOf(a + b) == PoolOf(a) + PoolOf(b)
  {
    forall r
      ensures r in Hits(a + b) <==> r in Hits(a) || r in Hits(b)
      ensures !(r in Hits(a) && r in Hits(b))
    {
      InHits(a, r);
      InHits(b, r);
      InHits(a + b, r);
    }
    assert Hits(a + b) == Hits(a) + Hits(b);
    DisjointSets(Hits(a), Hits(b));
  }

  lemma {:induction false} PoolSize(costs: map<nat, real>)
    ensures |PoolOf(costs)| == |costs|
    decreases |costs|
  {
    if costs == map[] {
      assert Hits(costs) == {};
    } else {
      var id :| id in costs;
      var rest := costs - {id};
      PoolSize(rest);
      PoolInsert(rest, id, costs[id]);
      assert rest[id := costs[id]] == costs;
      assert |costs| == |rest| + 1;
    }
  }

  // ----- what the best of a pool are, in numbers

  /** Every hit has its own cost, and they rise strictly by cost, then by identity. */
  ghost predicate Rising(hits: seq<Ranked>, costs: map<nat, real>) {
    && (forall i :: 0 <= i < |hits| ==> hits[i].id in costs && hits[i].cost == costs[hits[i].id])
    && (forall i, j :: 0 <= i < j < |hits| ==>
          hits[i].cost < hits[j].cost || (hits[i].cost == hits[j].cost && hits[i].id < hits[j].id))
  }

  ghost predicate Unlisted(hits: seq<Ranked>, id: nat) {
    forall i :: 0 <= i < |hits| ==> hits[i].id != id
  }

  /** The `k` least costs, least first, ties by lower identity; whatever is left out comes after all of them. */
  ghost predicate TopOf(hits: seq<Ranked>, costs: map<nat, real>, k: nat) {
    && |hits| == Min(k, |costs|)
    && Rising(hits, costs)
    && (forall i, id :: 0 <= i < |hits| && id in costs && Unlisted(hits, id) ==>
          hits[i].cost < costs[id] || (hits[i].cost == costs[id] && hits[i].id < id))
  }

  lemma BestIsTop(costs: map<nat, real>, k: nat)
    ensures TopOf(BestOf(PoolOf(costs), k), costs, k)
  {
    var pool, best := PoolOf(costs), BestOf(PoolOf(costs), k);
    PoolSize(costs);
    BestRises(pool, k);
    BestPriced(costs, best);
    forall i, id | 0 <= i < |best| && id in costs && Unlisted(best, id)
      ensures best[i].cost < costs[id] || (best[i].cost == costs[id] && best[i].id < id)
    {
      var hit := Ranked(costs[id], id, 0);
      InHits(costs, hit);
      assert hit in pool && hit !in best;
      assert Before(best[i], hit);
    }
  }

  lemma BestPriced(costs: map<nat, real>, best: seq<Ranked>)
    requires forall i :: 0 <= i < |best| ==> best[i] in PoolOf(costs)
    requires forall i, j :: 0 <= i < j < |best| ==> Before(best[i], best[j])
    ensures Rising(best, costs) && forall i :: 0 <= i < |best| ==> best[i].slot == 0
  {
    forall i | 0 <= i < |best|
      ensures best[i].id in costs && best[i].cost == costs[best[i].id] && best[i].slot == 0
    {
      InHits(costs, best[i]);
    }
  }

  /** A limit no smaller than the pool is no limit. */
  lemma BestUnbounded(pool: multiset<Ranked>, k: nat, n: nat)
    requires |pool| <= n
    ensures BestOf(pool, Min(k, n)) == BestOf(pool, k)
  {
  }
}
