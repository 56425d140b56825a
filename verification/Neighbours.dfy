/** Choosing neighbours: a diverse selection, topped up with the nearest candidates it set aside. */
module Neighbours {
  import opened Words
  import opened Ranking
  import opened Ordered
  import opened Links
  import opened LayerSearch

  ghost predicate AllNodes(nodes: seq<Node>, s: seq<Ranked>) {
    forall i :: 0 <= i < |s| ==> s[i].slot < |nodes|
  }

  function Between(nodes: seq<Node>, distance: Distance, a: nat, b: nat): real
    requires a < |nodes| && b < |nodes|
  {
    distance(nodes[a].vector, nodes[b].vector)
  }

  /** The candidate is no nearer to a kept one than to the query. */
  ghost predicate Diverse(nodes: seq<Node>, distance: Distance, c: Ranked, kept: seq<Ranked>)
    requires c.slot < |nodes| && AllNodes(nodes, kept)
  {
    forall i :: 0 <= i < |kept| ==> c.cost <= Between(nodes, distance, c.slot, kept[i].slot)
  }

  /** The candidates kept so far, and those set aside. */
  datatype Sifted = Sifted(kept: seq<Ranked>, aside: seq<Ranked>)

  ghost predicate InNodes(nodes: seq<Node>, s: Sifted) {
    AllNodes(nodes, s.kept) && AllNodes(nodes, s.aside)
  }

  /** While there is room, a candidate is kept if it is diverse from those kept before, and set aside if not. */
  ghost function SiftNext(nodes: seq<Node>, distance: Distance, limit: nat, s: Sifted, c: Ranked): (next: Sifted)
    requires InNodes(nodes, s) && c.slot < |nodes|
    ensures InNodes(nodes, next)
  {
    if |s.kept| >= limit then s
    else if Diverse(nodes, distance, c, s.kept) then Sifted(s.kept + [c], s.aside)
    else Sifted(s.kept, s.aside + [c])
  }

  ghost function Sift(nodes: seq<Node>, distance: Distance, candidates: seq<Ranked>, limit: nat, n: nat): (s: Sifted)
    requires AllNodes(nodes, candidates) && n <= |candidates|
    ensures InNodes(nodes, s)
  {
    if n == 0 then Sifted([], [])
    else SiftNext(nodes, distance, limit, Sift(nodes, distance, candidates, limit, n - 1), candidates[n - 1])
  }

  function Slots(s: seq<Ranked>): (slots: seq<nat>)
    ensures |slots| == |s| && forall i :: 0 <= i < |s| ==> slots[i] == s[i].slot
  {
    seq(|s|, i requires 0 <= i < |s| => s[i].slot)
  }

  /** The hits chosen: those kept, then the first ones set aside while there is room. */
  ghost function Chosen(nodes: seq<Node>, distance: Distance, candidates: seq<Ranked>, limit: nat): seq<Ranked>
    requires AllNodes(nodes, candidates)
  {
    var s := Sift(nodes, distance, candidates, limit, |candidates|);
    s.kept + s.aside[..Room(limit, s)]
  }

  ghost function Room(limit: nat, s: Sifted): nat {
    if |s.kept| < limit then Min(limit - |s.kept|, |s.aside|) else 0
  }

  // ----- what the choice is

  /** Those kept are diverse from one another. */
  ghost predicate PairwiseDiverse(nodes: seq<Node>, distance: Distance, kept: seq<Ranked>)
    requires AllNodes(nodes, kept)
  {
    forall i, j :: 0 <= i < j < |kept| ==> kept[j].cost <= Between(nodes, distance, kept[j].slot, kept[i].slot)
  }

  /** Some kept candidate is nearer to `c` than the query is. */
  ghost predicate Covered(nodes: seq<Node>, distance: Distance, c: Ranked, kept: seq<Ranked>)
    requires c.slot < |nodes| && AllNodes(nodes, kept)
  {
    exists k :: 0 <= k < |kept| && Between(nodes, distance, c.slot, kept[k].slot) < c.cost
  }

  ghost predicate AllCovered(nodes: seq<Node>, distance: Distance, s: Sifted)
    requires InNodes(nodes, s)
  {
    forall i :: 0 <= i < |s.aside| ==> Covered(nodes, distance, s.aside[i], s.kept)
  }

  lemma CoveredMore(nodes: seq<Node>, distance: Distance, c: Ranked, kept: seq<Ranked>, more: Ranked)
    requires c.slot < |nodes| && AllNodes(nodes, kept) && more.slot < |nodes| && Covered(nodes, distance, c, kept)
    ensures Covered(nodes, distance, c, kept + [more])
  {
    var k :| 0 <= k < |kept| && Between(nodes, distance, c.slot, kept[k].slot) < c.cost;
    assert (kept + [more])[k] == kept[k];
  }

  lemma SiftNextDiverse(nodes: seq<Node>, distance: Distance, limit: nat, s: Sifted, c: Ranked)
    requires InNodes(nodes, s) && c.slot < |nodes|
    requires PairwiseDiverse(nodes, distance, s.kept) && AllCovered(nodes, distance, s)
    ensures var next := SiftNext(nodes, distance, limit, s, c);
            PairwiseDiverse(nodes, distance, next.kept) && AllCovered(nodes, distance, next)
  {
    var next := SiftNext(nodes, distance, limit, s, c);
    forall i | 0 <= i < |next.aside|
      ensures Covered(nodes, distance, next.aside[i], next.kept)
    {
      if i < |s.aside| && next.kept != s.kept {
        CoveredMore(nodes, distance, s.aside[i], s.kept, c);
      }
    }
  }

  /** Those kept are diverse from one another, and each one set aside is nearer to a kept one than to the query. */
  lemma {:induction false} SiftDiverse(nodes: seq<Node>, distance: Distance, candidates: seq<Ranked>, limit: nat,
    n: nat)
    requires AllNodes(nodes, candidates) && n <= |candidates|
    ensures var s := Sift(nodes, distance, candidates, limit, n);
            PairwiseDiverse(nodes, distance, s.kept) && AllCovered(nodes, distance, s)
  {
    if n > 0 {
      SiftDiverse(nodes, distance, candidates, limit, n - 1);
      SiftNextDiverse(nodes, distance, limit, Sift(nodes, distance, candidates, limit, n - 1), candidates[n - 1]);
    }
  }

  /** Kept and set aside are parts of what was offered, and all of it while there is room. */
  ghost predicate Divides(whole: seq<Ranked>, limit: nat, s: Sifted) {
    && multiset(s.kept) + multiset(s.aside) <= multiset(whole)
    && |s.kept| <= Min(limit, |whole|)
    && (|s.kept| < limit ==> multiset(s.kept) + multiset(s.aside) == multiset(whole) && |s.kept| + |s.aside| == |whole|)
  }

  lemma SiftNextDivides(nodes: seq<Node>, distance: Distance, front: seq<Ranked>, whole: seq<Ranked>, limit: nat,
    s: Sifted, c: Ranked, next: Sifted)
    requires InNodes(nodes, s) && c.slot < |nodes| && Divides(front, limit, s) && whole == front + [c]
    requires next == SiftNext(nodes, distance, limit, s, c)
    ensures Divides(whole, limit, next)
  {
  }

  lemma {:induction false} SiftDivides(nodes: seq<Node>, distance: Distance, candidates: seq<Ranked>, limit: nat,
    n: nat)
    requires AllNodes(nodes, candidates) && n <= |candidates|
    ensures Divides(candidates[..n], limit, Sift(nodes, distance, candidates, limit, n))
  {
    if n > 0 {
      var k := n - 1;
      var s, next := Sift(nodes, distance, candidates, limit, k), Sift(nodes, distance, candidates, limit, n);
      assert next == SiftNext(nodes, distance, limit, s, candidates[k]);
      assert candidates[..n] == candidates[..k] + [candidates[k]];
      SiftDivides(nodes, distance, candidates, limit, k);
      SiftNextDivides(nodes, distance, candidates[..k], candidates[..n], limit, s, candidates[k], next);
    }
  }

  ghost predicate InOrder(s: Sifted) {
    Sorted(s.kept) && Sorted(s.aside)
  }

  lemma SiftNextInOrder(
    nodes: seq<Node>, distance: Distance, candidates: seq<Ranked>, n: nat, limit: nat, s: Sifted, next: Sifted)
    requires Sorted(candidates) && n < |candidates| && candidates[n].slot < |nodes|
    requires InNodes(nodes, s) && Divides(candidates[..n], limit, s) && InOrder(s)
    requires next == SiftNext(nodes, distance, limit, s, candidates[n])
    ensures InOrder(next)
  {
    forall x | x in s.kept || x in s.aside
      ensures !Before(candidates[n], x)
    {
      assert x in multiset(s.kept) + multiset(s.aside) && x in candidates[..n];
    }
  }

  /** Both parts keep the order of the candidates: those set aside fill up nearest first. */
  lemma {:induction false} SiftInOrder(nodes: seq<Node>, distance: Distance, candidates: seq<Ranked>, limit: nat,
    n: nat)
    requires AllNodes(nodes, candidates) && n <= |candidates| && Sorted(candidates)
    ensures InOrder(Sift(nodes, distance, candidates, limit, n))
  {
    if n > 0 {
      var k := n - 1;
      var s, next := Sift(nodes, distance, candidates, limit, k), Sift(nodes, distance, candidates, limit, n);
      assert next == SiftNext(nodes, distance, limit, s, candidates[k]);
      SiftInOrder(nodes, distance, candidates, limit, k);
      SiftDivides(nodes, distance, candidates, limit, k);
      SiftNextInOrder(nodes, distance, candidates, k, limit, s, next);
    }
  }

  lemma {:induction false} OnceListed(s: seq<Ranked>, x: Ranked)
    requires DistinctSlots(s)
    ensures multiset(s)[x] <= 1
  {
    if s != [] {
      OnceListed(s[1..], x);
      assert s == [s[0]] + s[1..];
    }
  }

  lemma PartDistinct(candidates: seq<Ranked>, part: seq<Ranked>)
    requires DistinctSlots(candidates) && multiset(part) <= multiset(candidates)
    ensures DistinctSlots(part) && forall x :: x in part ==> x in candidates
  {
    forall x | x in part
      ensures x in candidates
    {
      assert x in multiset(candidates);
    }
    forall i, j | 0 <= i < j < |part|
      ensures part[i].slot != part[j].slot
    {
      assert part[i] in candidates && part[j] in candidates;
      if part[i] == part[j] {
        TwiceListed(part, i, j);
        OnceListed(candidates, part[i]);
      }
    }
  }

  lemma TakePart(kept: seq<Ranked>, aside: seq<Ranked>, n: nat)
    requires n <= |aside|
    ensures multiset(kept + aside[..n]) <= multiset(kept) + multiset(aside)
  {
    assert aside == aside[..n] + aside[n..];
  }

  /** As many as allowed, each one of the candidates, none twice. */
  lemma ChosenAre(nodes: seq<Node>, distance: Distance, candidates: seq<Ranked>, limit: nat)
    requires AllNodes(nodes, candidates) && DistinctSlots(candidates)
    ensures var chosen := Chosen(nodes, distance, candidates, limit);
            && |chosen| == Min(limit, |candidates|) && DistinctSlots(chosen)
            && (forall x :: x in chosen ==> x in candidates)
  {
    var s := Sift(nodes, distance, candidates, limit, |candidates|);
    SiftDivides(nodes, distance, candidates, limit, |candidates|);
    assert candidates[..|candidates|] == candidates;
    TakePart(s.kept, s.aside, Room(limit, s));
    PartDistinct(candidates, Chosen(nodes, distance, candidates, limit));
  }

  // ----- choosing

  method IsDiverse(nodes: seq<Node>, distance: Distance, candidate: Ranked, selected: seq<nat>, ghost kept: seq<Ranked>)
    returns (diverse: bool)
    requires candidate.slot < |nodes| && AllNodes(nodes, kept) && selected == Slots(kept)
    ensures diverse <==> Diverse(nodes, distance, candidate, kept)
  {
    for i := 0 to |selected|
      invariant forall k :: 0 <= k < i ==> candidate.cost <= Between(nodes, distance, candidate.slot, kept[k].slot)
    {
      assert selected[i] == kept[i].slot;
      if Between(nodes, distance, candidate.slot, selected[i]) < candidate.cost {
        return false;
      }
    }
    diverse := true;
  }

  /** Nothing changes once the limit is reached. */
  lemma {:induction false} FullStays(nodes: seq<Node>, distance: Distance, candidates: seq<Ranked>, limit: nat, n: nat,
    k: nat)
    requires AllNodes(nodes, candidates) && n <= k <= |candidates|
             && |Sift(nodes, distance, candidates, limit, n).kept| >= limit
    ensures Sift(nodes, distance, candidates, limit, k) == Sift(nodes, distance, candidates, limit, n)
    decreases k
  {
    if n < k {
      FullStays(nodes, distance, candidates, limit, n, k - 1);
    }
  }

  lemma SlotsOf(kept: seq<Ranked>, aside: seq<Ranked>, n: nat)
    requires n <= |aside|
    ensures Slots(kept + aside[..n]) == Slots(kept) + Slots(aside)[..n]
  {
  }

  lemma SlotsPush(s: seq<Ranked>, x: Ranked)
    ensures Slots(s + [x]) == Slots(s) + [x.slot]
  {
  }

  /** Walks the candidates once, nearest first. */
  method SelectDiverse(nodes: seq<Node>, distance: Distance, candidates: seq<Ranked>, limit: nat)
    returns (chosen: seq<nat>)
    requires AllNodes(nodes, candidates)
    ensures chosen == Slots(Chosen(nodes, distance, candidates, limit))
  {
    var selected: seq<nat>, rejected: seq<nat> := [], [];
    ghost var s := Sifted([], []);
    var n := 0;
    while n < |candidates| && |selected| < limit
      invariant n <= |candidates| && s == Sift(nodes, distance, candidates, limit, n)
      invariant selected == Slots(s.kept) && rejected == Slots(s.aside) && |selected| <= limit
    {
      var c := candidates[n];
      var diverse := IsDiverse(nodes, distance, c, selected, s.kept);
      SlotsPush(s.kept, c);
      SlotsPush(s.aside, c);
      s := SiftNext(nodes, distance, limit, s, c);
      if diverse {
        selected := selected + [c.slot];
      } else {
        rejected := rejected + [c.slot];
      }
      n := n + 1;
    }
    if n < |candidates| {
      FullStays(nodes, distance, candidates, limit, n, |candidates|);
    }
    var more := Min(limit - |selected|, |rejected|);
    SlotsOf(s.kept, s.aside, more);
    chosen := selected + rejected[..more];
  }

  // ----- sorting a node's own links

  ghost function CandidatesOf(nodes: seq<Node>, distance: Distance, query: Vector, slots: seq<nat>): (s: seq<Ranked>)
    requires forall i :: 0 <= i < |slots| ==> slots[i] < |nodes|
    ensures |s| == |slots| && forall i :: 0 <= i < |s| ==> s[i] == Candidate(nodes, distance, query, slots[i])
  {
    seq(|slots|, i requires 0 <= i < |slots| => Candidate(nodes, distance, query, slots[i]))
  }

  method SortCandidates(nodes: seq<Node>, distance: Distance, query: Vector, slots: seq<nat>)
    returns (sorted: seq<Ranked>)
    requires forall i :: 0 <= i < |slots| ==> slots[i] < |nodes|
    ensures sorted == SortedOf(multiset(CandidatesOf(nodes, distance, query, slots)))
  {
    ghost var all := CandidatesOf(nodes, distance, query, slots);
    sorted := [];
    for i := 0 to |slots|
      invariant Sorted(sorted) && multiset(sorted) == multiset(all[..i])
    {
      var candidate := Candidate(nodes, distance, query, slots[i]);
      InsertSorted(sorted, candidate);
      assert all[..i + 1] == all[..i] + [all[i]];
      sorted := Insert(sorted, candidate);
    }
    assert all[..|all|] == all;
    SortedUnique(sorted, SortedOf(multiset(all)));
  }

  lemma SortedSlots(nodes: seq<Node>, distance: Distance, query: Vector, slots: seq<nat>)
    requires Distinct(slots) && forall i :: 0 <= i < |slots| ==> slots[i] < |nodes|
    ensures var sorted := SortedOf(multiset(CandidatesOf(nodes, distance, query, slots)));
            |sorted| == |slots| && DistinctSlots(sorted) && AllNodes(nodes, sorted) && forall x :: x in sorted ==>
              x.slot in slots
  {
    var all := CandidatesOf(nodes, distance, query, slots);
    var sorted := SortedOf(multiset(all));
    PartDistinct(all, sorted);
    forall x | x in sorted
      ensures x.slot in slots && x.slot < |nodes|
    {
      var i :| 0 <= i < |all| && all[i] == x;
      assert slots[i] == x.slot;
    }
    forall i | 0 <= i < |sorted|
      ensures sorted[i].slot < |nodes|
    {
      assert sorted[i] in sorted;
    }
    assert |multiset(all)| == |all|;
  }

  /** Drops a candidate whose slot repeats the one before it. */
  method DedupBySlot(candidates: seq<Ranked>) returns (kept: seq<Ranked>)
    requires DistinctSlots(candidates)
    ensures kept == candidates
  {
    kept := [];
    for i := 0 to |candidates|
      invariant kept == candidates[..i]
    {
      if kept == [] || kept[|kept| - 1].slot != candidates[i].slot {
        kept := kept + [candidates[i]];
      }
    }
  }
}
