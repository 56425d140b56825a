/**
 Ranked hits and the bounded heap that keeps the best of them.

 `BestOf(pool, k)` is the reference: the `k` least members of a multiset of hits, in
 order. It depends on the pool alone, not on the order in which hits were offered.
 */
module Ranking {
  import opened Words

  /** Lower cost wins, then lower identity, then lower slot. */
  datatype Ranked = Ranked(cost: real, id: nat, slot: nat)

  predicate Before(a: Ranked, b: Ranked) {
    a.cost < b.cost || (a.cost == b.cost && (a.id < b.id || (a.id == b.id && a.slot < b.slot)))
  }

  ghost predicate Sorted(s: seq<Ranked>) {
    forall i, j :: 0 <= i < j < |s| ==> !Before(s[j], s[i])
  }

  function Insert(s: seq<Ranked>, x: Ranked): (r: seq<Ranked>)
    ensures |r| == |s| + 1
    ensures multiset(r) == multiset(s) + multiset{x}
  {
    if s == [] then [x]
    else if Before(x, s[0]) then [x] + s
    else
      assert s == [s[0]] + s[1..];
      [s[0]] + Insert(s[1..], x)
  }

  lemma {:induction false} InsertSorted(s: seq<Ranked>, x: Ranked)
    requires Sorted(s)
    ensures Sorted(Insert(s, x))
  {
    if s != [] && !Before(x, s[0]) {
      InsertSorted(s[1..], x);
      var r := Insert(s[1..], x);
      forall j | 0 <= j < |r|
        ensures !Before(r[j], s[0])
      {
        assert r[j] in multiset(s[1..]) + multiset{x};
      }
    }
  }

  /** A multiset has one sorted listing. */
  lemma {:induction false} SortedUnique(s: seq<Ranked>, t: seq<Ranked>)
    requires Sorted(s) && Sorted(t) && multiset(s) == multiset(t)
    ensures s == t
  {
    if s == [] {
      assert |multiset(t)| == 0;
    } else {
      assert |multiset(s)| == |multiset(t)|;
      assert s[0] in multiset(t) && t[0] in multiset(s);
      assert s[0] == t[0];
      assert s == [s[0]] + s[1..] && t == [t[0]] + t[1..];
      assert multiset(s[1..]) == multiset(s) - multiset{s[0]};
      SortedUnique(s[1..], t[1..]);
    }
  }

  lemma {:induction false} SortedExists(m: multiset<Ranked>) returns (s: seq<Ranked>)
    ensures Sorted(s) && multiset(s) == m
    decreases |m|
  {
    if m == multiset{} {
      s := [];
    } else {
      var x :| x in m;
      var rest := SortedExists(m - multiset{x});
      s := Insert(rest, x);
      InsertSorted(rest, x);
    }
  }

  ghost function SortedOf(m: multiset<Ranked>): (s: seq<Ranked>)
    ensures Sorted(s) && multiset(s) == m && |s| == |m|
  {
    assert exists s :: Sorted(s) && multiset(s) == m by {
      var s := SortedExists(m);
    }
    var s :| Sorted(s) && multiset(s) == m;
    assert |multiset(s)| == |s|;
    s
  }

  lemma TwiceListed(s: seq<Ranked>, i: nat, j: nat)
    requires i < j < |s| && s[i] == s[j]
    ensures multiset(s)[s[i]] >= 2
  {
    assert s == s[..j] + [s[j]] + s[j + 1..];
    assert s[i] in s[..j];
  }

  /** The `k` least hits of the pool, least first. */
  ghost function BestOf(pool: multiset<Ranked>, k: nat): (s: seq<Ranked>)
    ensures |s| == Min(k, |pool|)
    ensures Sorted(s)
  {
    SortedOf(pool)[..Min(k, |pool|)]
  }

  lemma SortedRises(pool: multiset<Ranked>, sorted: seq<Ranked>)
    requires Sorted(sorted) && multiset(sorted) == pool && forall r :: pool[r] <= 1
    ensures forall i :: 0 <= i < |sorted| ==> sorted[i] in pool
    ensures forall i, j :: 0 <= i < j < |sorted| ==> Before(sorted[i], sorted[j])
  {
    forall i | 0 <= i < |sorted|
      ensures sorted[i] in pool
    {
      assert sorted[i] in multiset(sorted);
    }
    forall i, j | 0 <= i < j < |sorted|
      ensures Before(sorted[i], sorted[j])
    {
      if sorted[i] == sorted[j] {
        TwiceListed(sorted, i, j);
      }
    }
  }

  /** Of a pool without repetitions, the best come in strict order and before everything left out. */
  lemma BestRises(pool: multiset<Ranked>, k: nat)
    requires forall r :: pool[r] <= 1
    ensures var best := BestOf(pool, k);
            && (forall i :: 0 <= i < |best| ==> best[i] in pool)
            && (forall i, j :: 0 <= i < j < |best| ==> Before(best[i], best[j]))
            && (forall i, r :: 0 <= i < |best| && r in pool && r !in best ==> Before(best[i], r))
            && (forall r :: r in pool && r !in best ==> |best| == k)
  {
    var sorted, best := SortedOf(pool), BestOf(pool, k);
    SortedRises(pool, sorted);
    forall r | r in pool && r !in best
      ensures |best| == k && forall i :: 0 <= i < |best| ==> Before(best[i], r)
    {
      assert r in multiset(sorted);
      var j :| 0 <= j < |sorted| && sorted[j] == r;
      assert forall n :: 0 <= n < |best| ==> best[n] == sorted[n];
    }
  }

  /** A bounded heap step: keep the value if there is room or it beats the worst. */
  function Retained(heap: seq<Ranked>, value: Ranked, limit: nat): seq<Ranked> {
    if limit == 0 then heap
    else if |heap| < limit then Insert(heap, value)
    else if Before(value, heap[|heap| - 1]) then Insert(heap[..|heap| - 1], value)
    else heap
  }

  lemma TakeTail(s: seq<Ranked>, k: nat)
    requires 1 < k <= |s|
    ensures s[1..][..k - 1] == s[..k][1..] && s[1..][..k - 2] == s[..k - 1][1..]
    ensures s[..k] == [s[0]] + s[..k][1..] && s[..k - 1] == [s[0]] + s[..k - 1][1..]
  {
  }

  lemma {:induction false} InsertTake(s: seq<Ranked>, x: Ranked, k: nat)
    requires Sorted(s) && 0 < k <= |s|
    ensures Insert(s, x)[..k] == if Before(x, s[k - 1]) then Insert(s[..k - 1], x) else s[..k]
  {
    if Before(x, s[0]) {
      assert s[..k - 1] == [] || s[..k - 1][0] == s[0];
      assert ([x] + s)[..k] == [x] + s[..k - 1];
    } else if k == 1 {
      assert Insert(s, x)[..1] == [s[0]] == s[..1];
    } else {
      InsertTake(s[1..], x, k - 1);
      TakeTail(s, k);
      assert Insert(s, x)[..k] == [s[0]] + Insert(s[1..], x)[..k - 1];
    }
  }

  lemma SortedOfInsert(pool: multiset<Ranked>, value: Ranked)
    ensures SortedOf(pool + multiset{value}) == Insert(SortedOf(pool), value)
  {
    InsertSorted(SortedOf(pool), value);
    SortedUnique(Insert(SortedOf(pool), value), SortedOf(pool + multiset{value}));
  }

  /** One heap step tracks the reference as the pool grows by one hit. */
  lemma RetainedIsBest(pool: multiset<Ranked>, value: Ranked, limit: nat)
    ensures Retained(BestOf(pool, limit), value, limit) == BestOf(pool + multiset{value}, limit)
  {
    var s, best := SortedOf(pool), BestOf(pool, limit);
    var after := Insert(s, value);
    SortedOfInsert(pool, value);
    assert |after| == |s| + 1 && BestOf(pool + multiset{value}, limit) == after[..Min(limit, |s| + 1)];
    if limit == 0 {
      assert best == [];
    } else if |s| < limit {
      assert best == s && after[..|after|] == after;
    } else {
      assert best == s[..limit] && best[..limit - 1] == s[..limit - 1];
      InsertTake(s, value, limit);
    }
  }

  lemma SubMultisetSize(a: multiset<Ranked>, b: multiset<Ranked>)
    requires a <= b
    ensures |a| <= |b|
  {
    assert b == a + (b - a);
  }

  /** A hit no better than `k` hits already pooled changes nothing. */
  lemma UselessHit(pool: multiset<Ranked>, better: multiset<Ranked>, x: Ranked, k: nat)
    requires better <= pool && |better| == k
    requires forall y :: y in better ==> !Before(x, y)
    ensures BestOf(pool + multiset{x}, k) == BestOf(pool, k)
  {
    RetainedIsBest(pool, x, k);
    SubMultisetSize(better, pool);
    var s := SortedOf(pool);
    if k > 0 && Before(x, s[k - 1]) {
      var low, high := s[..k - 1], s[k - 1..];
      assert s == low + high;
      forall y | y in high
        ensures y !in better
      {
        var i :| 0 <= i < |high| && high[i] == y;
        assert !Before(s[k - 1 + i], s[k - 1]);
      }
      assert forall y :: y in better ==> better[y] <= multiset(low)[y];
      SubMultisetSize(better, multiset(low));
      assert false;
    }
  }

  lemma {:induction false} BestMergePrefix(pool: multiset<Ranked>, s: seq<Ranked>, k: nat, n: nat)
    requires Sorted(s) && k <= n <= |s|
    ensures BestOf(pool + multiset(s[..n]), k) == BestOf(pool + multiset(s[..k]), k)
    decreases n
  {
    if n > k {
      BestMergePrefix(pool, s, k, n - 1);
      assert s[..n] == s[..n - 1] + [s[n - 1]];
      assert s[..n - 1] == s[..k] + s[k..n - 1];
      assert |multiset(s[..k])| == k;
      UselessHit(pool + multiset(s[..n - 1]), multiset(s[..k]), s[n - 1], k);
      assert pool + multiset(s[..n]) == pool + multiset(s[..n - 1]) + multiset{s[n - 1]};
    }
  }

  /** Pre-selecting the best `k` of a part loses nothing of the best `k` of the whole. */
  lemma BestMerge(pool: multiset<Ranked>, part: multiset<Ranked>, k: nat)
    ensures BestOf(pool + multiset(BestOf(part, k)), k) == BestOf(pool + part, k)
  {
    var s := SortedOf(part);
    assert s[..|s|] == s;
    if k < |s| {
      BestMergePrefix(pool, s, k, |s|);
    }
  }

  /** `std::collections::BinaryHeap`, seen through its sorted contents: the worst hit is on top. */
  class BestHeap {
    var items: seq<Ranked>

    constructor ()
      ensures items == []
    {
      items := [];
    }

    method Push(value: Ranked)
      modifies this
      ensures items == Insert(old(items), value)
    {
      items := Insert(items, value);
    }

    method Pop() returns (value: Ranked)
      requires items != []
      modifies this
      ensures old(items) == items + [value]
    {
      value := items[|items| - 1];
      items := items[..|items| - 1];
    }
  }

  /** Keeps exactly the `limit` least hits of everything offered so far. */
  method RetainBest(heap: BestHeap, value: Ranked, limit: nat, ghost pool: multiset<Ranked>)
    requires heap.items == BestOf(pool, limit)
    modifies heap
    ensures heap.items == BestOf(pool + multiset{value}, limit)
  {
    RetainedIsBest(pool, value, limit);
    if limit == 0 {
      return;
    }
    if |heap.items| < limit {
      heap.Push(value);
    } else if Before(value, heap.items[|heap.items| - 1]) {
      var _ := heap.Pop();
      heap.Push(value);
    }
  }
}
