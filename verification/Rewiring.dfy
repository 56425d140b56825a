/** Linking a new node into a graph: its own links, the links back to it, and what stays as it was. */
module Rewiring {
  import opened Words
  import opened Ranking
  import opened Ordered
  import opened Links
  import opened LayerSearch
  import opened Neighbours

  // ----- pruning a list of links

  /** The links a node keeps of a list that is too long: chosen among them, nearest to it first. */
  ghost function Pruned(nodes: seq<Node>, distance: Distance, slot: nat, list: seq<nat>, limit: nat): seq<nat>
    requires slot < |nodes| && AllBelow(list, |nodes|)
  {
    SortedNodes(nodes, distance, slot, list);
    Slots(Chosen(nodes, distance, SortedOf(multiset(CandidatesOf(nodes, distance, nodes[slot].vector, list))), limit))
  }

  ghost predicate AllBelow(list: seq<nat>, n: nat) {
    forall i :: 0 <= i < |list| ==> list[i] < n
  }

  lemma SortedNodes(nodes: seq<Node>, distance: Distance, slot: nat, list: seq<nat>)
    requires slot < |nodes| && AllBelow(list, |nodes|)
    ensures AllNodes(nodes, SortedOf(multiset(CandidatesOf(nodes, distance, nodes[slot].vector, list))))
  {
    var all := CandidatesOf(nodes, distance, nodes[slot].vector, list);
    var sorted := SortedOf(multiset(all));
    forall i | 0 <= i < |sorted|
      ensures sorted[i].slot < |nodes|
    {
      assert sorted[i] in multiset(sorted) && sorted[i] in all;
    }
  }

  lemma WiredBelow(nodes: seq<Node>, slot: nat, layer: nat, list: seq<nat>, limit: nat)
    requires Wired(nodes, slot, layer, list, limit)
    ensures AllBelow(list, |nodes|)
  {
    assert forall i :: 0 <= i < |list| ==> Target(nodes, slot, layer, list[i]);
  }

  /** The pruned list is as long as allowed and as sound as the whole. */
  lemma PrunedWired(nodes: seq<Node>, distance: Distance, slot: nat, layer: nat, list: seq<nat>, limit: nat)
    requires OnLayer(nodes, layer, slot) && Wired(nodes, slot, layer, list, limit + 1) && AllBelow(list, |nodes|)
    ensures var chosen := Pruned(nodes, distance, slot, list, limit);
            Wired(nodes, slot, layer, chosen, limit) && |chosen| == Min(limit, |list|) && forall s :: s in chosen ==>
              s in list
  {
    SortedNodes(nodes, distance, slot, list);
    SortedSlots(nodes, distance, nodes[slot].vector, list);
    var sorted := SortedOf(multiset(CandidatesOf(nodes, distance, nodes[slot].vector, list)));
    ChosenAre(nodes, distance, sorted, limit);
    var hits := Chosen(nodes, distance, sorted, limit);
    var chosen := Slots(hits);
    forall j | 0 <= j < |chosen|
      ensures chosen[j] in list && Target(nodes, slot, layer, chosen[j])
    {
      assert hits[j] in hits && hits[j] in sorted;
      var i :| 0 <= i < |list| && list[i] == chosen[j];
      assert Target(nodes, slot, layer, list[i]);
    }
  }

  /** The neighbour's links once it is linked back to the new slot. */
  ghost function BackLinks(nodes: seq<Node>, m: nat, distance: Distance, neighbour: nat, slot: nat,
    layer: nat): seq<nat>
    requires OnLayer(nodes, layer, neighbour) && slot < |nodes| && AllBelow(nodes[neighbour].links[layer], |nodes|)
  {
    var longer := nodes[neighbour].links[layer] + [slot];
    if |longer| <= Degree(m, layer) then longer else Pruned(nodes, distance, neighbour, longer, Degree(m, layer))
  }

  /** Linking back keeps the list sound, adds the slot while there is room, and fills the list otherwise. */
  lemma BackLinksAre(nodes: seq<Node>, m: nat, distance: Distance, neighbour: nat, slot: nat, layer: nat)
    requires OnLayer(nodes, layer, neighbour) && Awaits(nodes, slot, layer, neighbour) && OnLayer(nodes, layer, slot)
    requires Wired(nodes, neighbour, layer, nodes[neighbour].links[layer], Degree(m, layer))
    requires AllBelow(nodes[neighbour].links[layer], |nodes|)
    ensures var list, back := nodes[neighbour].links[layer], BackLinks(nodes, m, distance, neighbour, slot, layer);
            && Wired(nodes, neighbour, layer, back, Degree(m, layer))
            && (forall t :: t in back ==> t == slot || t in list)
            && (if |list| < Degree(m, layer) then back == list + [slot] else |back| == Degree(m, layer))
  {
    var longer := nodes[neighbour].links[layer] + [slot];
    if |longer| > Degree(m, layer) {
      assert Wired(nodes, neighbour, layer, longer, Degree(m, layer) + 1);
      PrunedWired(nodes, distance, neighbour, layer, longer, Degree(m, layer));
    }
  }

  /** A node other than the new slot, on its layer, that does not link to it yet. */
  ghost predicate Awaits(nodes: seq<Node>, slot: nat, layer: nat, neighbour: nat) {
    Target(nodes, slot, layer, neighbour) && slot !in nodes[neighbour].links[layer]
  }

  /** The neighbours from the `j`th on are still to be linked back. */
  ghost predicate AwaitsFrom(nodes: seq<Node>, slot: nat, layer: nat, neighbours: seq<nat>, j: nat) {
    forall k :: j <= k < |neighbours| ==> Awaits(nodes, slot, layer, neighbours[k])
  }

  lemma AwaitsNext(
    nodes: seq<Node>, slot: nat, layer: nat, neighbours: seq<nat>, j: nat, next: nat, list: seq<nat>)
    requires AwaitsFrom(nodes, slot, layer, neighbours, j) && next == j + 1 && next <= |neighbours|
    requires Distinct(neighbours) && OnLayer(nodes, layer, neighbours[j])
    ensures AwaitsFrom(WithLinks(nodes, neighbours[j], layer, list), slot, layer, neighbours, next)
  {
    var after := WithLinks(nodes, neighbours[j], layer, list);
    forall k | next <= k < |neighbours|
      ensures Awaits(after, slot, layer, neighbours[k])
    {
      assert Awaits(nodes, slot, layer, neighbours[k]) && neighbours[k] != neighbours[j];
    }
  }

  // ----- only identities and vectors decide what is pruned

  lemma {:induction false} SiftShape(
    a: seq<Node>, b: seq<Node>, distance: Distance, candidates: seq<Ranked>, limit: nat, n: nat)
    requires SameShape(a, b) && AllNodes(a, candidates) && AllNodes(b, candidates) && n <= |candidates|
    ensures Sift(a, distance, candidates, limit, n) == Sift(b, distance, candidates, limit, n)
  {
    if n > 0 {
      var k := n - 1;
      SiftShape(a, b, distance, candidates, limit, k);
      var s, c := Sift(a, distance, candidates, limit, k), candidates[k];
      assert Diverse(a, distance, c, s.kept) <==> Diverse(b, distance, c, s.kept) by {
        assert forall i :: 0 <= i < |s.kept| ==>
            Between(a, distance, c.slot, s.kept[i].slot) == Between(b, distance, c.slot, s.kept[i].slot);
      }
    }
  }

  lemma PrunedShape(a: seq<Node>, b: seq<Node>, distance: Distance, slot: nat, list: seq<nat>, limit: nat)
    requires SameShape(a, b) && slot < |a| && AllBelow(list, |a|)
    ensures Pruned(a, distance, slot, list, limit) == Pruned(b, distance, slot, list, limit)
  {
    var all := CandidatesOf(a, distance, a[slot].vector, list);
    assert all == CandidatesOf(b, distance, b[slot].vector, list);
    SortedNodes(a, distance, slot, list);
    SortedNodes(b, distance, slot, list);
    SiftShape(a, b, distance, SortedOf(multiset(all)), limit, |SortedOf(multiset(all))|);
  }

  lemma BackLinksShape(
    a: seq<Node>, b: seq<Node>, m: nat, distance: Distance, neighbour: nat, slot: nat, layer: nat)
    requires SameShape(a, b) && OnLayer(a, layer, neighbour) && slot < |a|
    requires AllBelow(a[neighbour].links[layer], |a|) && b[neighbour].links[layer] == a[neighbour].links[layer]
    ensures BackLinks(a, m, distance, neighbour, slot, layer) == BackLinks(b, m, distance, neighbour, slot, layer)
  {
    PrunedShape(a, b, distance, neighbour, a[neighbour].links[layer] + [slot], Degree(m, layer));
  }

  // ----- every list after a layer has been linked

  ghost predicate LinksBelow(nodes: seq<Node>) {
    forall i, l :: 0 <= i < |nodes| && 0 <= l < |nodes[i].links| ==> AllBelow(nodes[i].links[l], |nodes|)
  }

  lemma LinkedBelow(nodes: seq<Node>, m: nat)
    requires Linked(nodes, m)
    ensures LinksBelow(nodes)
  {
    forall i, l | 0 <= i < |nodes| && 0 <= l < |nodes[i].links|
      ensures AllBelow(nodes[i].links[l], |nodes|)
    {
      WiredBelow(nodes, i, l, nodes[i].links[l], Degree(m, l));
    }
  }

  /** The list of node `i` on layer `l` once the first `done` neighbours have been linked back. */
  ghost function ListBack(
    start: seq<Node>, m: nat, distance: Distance, slot: nat, layer: nat, done: seq<nat>, i: nat, l: nat): seq<nat>
    requires LinksBelow(start) && i < |start| && l < |start[i].links| && slot < |start|
  {
    if l == layer && i in done then BackLinks(start, m, distance, i, slot, layer) else start[i].links[l]
  }

  /** Exactly the lists of `done` on the layer have been linked back. */
  ghost predicate LinkedBack(
    start: seq<Node>, now: seq<Node>, m: nat, distance: Distance, slot: nat, layer: nat, done: seq<nat>)
    requires LinksBelow(start) && slot < |start|
  {
    && SameShape(start, now)
    && (forall i, l :: 0 <= i < |start| && 0 <= l < |start[i].links| ==>
          now[i].links[l] == ListBack(start, m, distance, slot, layer, done, i, l))
  }

  lemma LinkedBackNext(
    start: seq<Node>, now: seq<Node>, m: nat, distance: Distance, slot: nat, layer: nat, done: seq<nat>, next: nat)
    requires LinksBelow(start) && slot < |start| && LinkedBack(start, now, m, distance, slot, layer, done)
    requires next !in done && OnLayer(start, layer, next) && AllBelow(now[next].links[layer], |now|)
    ensures LinkedBack(start, WithLinks(now, next, layer, BackLinks(now, m, distance, next, slot, layer)),
                       m, distance, slot, layer, done + [next])
  {
    assert now[next].links[layer] == ListBack(start, m, distance, slot, layer, done, next, layer);
    BackLinksShape(start, now, m, distance, next, slot, layer);
    var list := BackLinks(now, m, distance, next, slot, layer);
    var after := WithLinks(now, next, layer, list);
    forall i, l | 0 <= i < |start| && 0 <= l < |start[i].links|
      ensures after[i].links[l] == ListBack(start, m, distance, slot, layer, done + [next], i, l)
    {
      assert now[i].links[l] == ListBack(start, m, distance, slot, layer, done, i, l);
    }
  }

  /** Linking a layer: the slot gets its neighbours, they are linked back, and no other list changes. */
  ghost predicate Attaches(
    before: seq<Node>, after: seq<Node>, m: nat, distance: Distance, slot: nat, layer: nat, neighbours: seq<nat>) {
    && LinksBelow(before) && OnLayer(before, layer, slot)
    && SameShape(before, after)
    && (forall i, l :: 0 <= i < |before| && 0 <= l < |before[i].links| ==>
          after[i].links[l] == ListAfter(before, m, distance, slot, layer, neighbours, i, l))
  }

  ghost function ListAfter(
    before: seq<Node>, m: nat, distance: Distance, slot: nat, layer: nat, neighbours: seq<nat>, i: nat,
    l: nat): seq<nat>
    requires LinksBelow(before) && i < |before| && l < |before[i].links| && slot < |before|
  {
    if l == layer && i == slot then neighbours
    else ListBack(before, m, distance, slot, layer, neighbours, i, l)
  }

  lemma AttachesAre(
    before: seq<Node>, start: seq<Node>, after: seq<Node>, m: nat, distance: Distance, slot: nat, layer: nat,
    neighbours: seq<nat>)
    requires LinksBelow(before) && LinksBelow(start) && OnLayer(before, layer, slot) && slot !in neighbours
    requires start == WithLinks(before, slot, layer, neighbours)
    requires LinkedBack(start, after, m, distance, slot, layer, neighbours)
    ensures Attaches(before, after, m, distance, slot, layer, neighbours)
  {
    forall i, l | 0 <= i < |before| && 0 <= l < |before[i].links|
      ensures after[i].links[l] == ListAfter(before, m, distance, slot, layer, neighbours, i, l)
    {
      assert after[i].links[l] == ListBack(start, m, distance, slot, layer, neighbours, i, l);
      if l == layer && i in neighbours {
        BackLinksShape(before, start, m, distance, i, slot, layer);
      }
    }
  }

  // ----- mutual links

  /** Node `i` is linked from `t` on the layer, or `t` has no room. */
  ghost predicate Answers(nodes: seq<Node>, m: nat, layer: nat, i: nat, t: nat) {
    OnLayer(nodes, layer, t) && (i in nodes[t].links[layer] || |nodes[t].links[layer]| == Degree(m, layer))
  }

  /** Links are mutual, except towards nodes whose list is full. */
  ghost predicate Mutual(nodes: seq<Node>, m: nat) {
    forall i, l, t :: 0 <= i < |nodes| && 0 <= l < |nodes[i].links| && t in nodes[i].links[l] ==>
      Answers(nodes, m, l, i, t)
  }

  lemma PushedMutual(nodes: seq<Node>, m: nat, id: nat, vector: Vector, level: nat)
    requires Mutual(nodes, m)
    ensures Mutual(nodes + [Node(id, vector, Layers(level + 1))], m)
  {
    var after := nodes + [Node(id, vector, Layers(level + 1))];
    forall i, l, t | 0 <= i < |after| && 0 <= l < |after[i].links| && t in after[i].links[l]
      ensures Answers(after, m, l, i, t)
    {
      assert Answers(nodes, m, l, i, t);
    }
  }

  /** What a list keeps when its layer is linked: its old links while there is room, and fullness for good. */
  lemma ListKeeps(
    before: seq<Node>, after: seq<Node>, m: nat, distance: Distance, slot: nat, layer: nat, neighbours: seq<nat>,
    i: nat, t: nat)
    requires Linked(before, m) && Attaches(before, after, m, distance, slot, layer, neighbours)
    requires AwaitsFrom(before, slot, layer, neighbours, 0)
    requires t != slot && Answers(before, m, layer, i, t)
    ensures Answers(after, m, layer, i, t)
  {
    assert after[t].links[layer] == ListAfter(before, m, distance, slot, layer, neighbours, t, layer);
    if t in neighbours {
      var j :| 0 <= j < |neighbours| && neighbours[j] == t;
      assert Awaits(before, slot, layer, neighbours[j]);
      assert Wired(before, t, layer, before[t].links[layer], Degree(m, layer));
      BackLinksAre(before, m, distance, t, slot, layer);
    }
  }

  /** Every chosen neighbour links back, or is full. */
  lemma NeighbourAnswers(
    before: seq<Node>, after: seq<Node>, m: nat, distance: Distance, slot: nat, layer: nat, neighbours: seq<nat>,
    t: nat)
    requires Linked(before, m) && Attaches(before, after, m, distance, slot, layer, neighbours)
    requires t in neighbours && Awaits(before, slot, layer, t)
    ensures Answers(after, m, layer, slot, t)
  {
    assert after[t].links[layer] == ListAfter(before, m, distance, slot, layer, neighbours, t, layer);
    assert Wired(before, t, layer, before[t].links[layer], Degree(m, layer));
    BackLinksAre(before, m, distance, t, slot, layer);
  }

  /** Linking one layer keeps links mutual. */
  lemma AttachesMutual(
    before: seq<Node>, after: seq<Node>, m: nat, distance: Distance, slot: nat, layer: nat, neighbours: seq<nat>)
    requires Linked(before, m) && Mutual(before, m) && AbsentBelow(before, slot, layer + 1)
    requires Attaches(before, after, m, distance, slot, layer, neighbours)
    requires AwaitsFrom(before, slot, layer, neighbours, 0)
    ensures Mutual(after, m)
  {
    forall i, l, t | 0 <= i < |after| && 0 <= l < |after[i].links| && t in after[i].links[l]
      ensures Answers(after, m, l, i, t)
    {
      LinkAnswered(before, after, m, distance, slot, layer, neighbours, i, l, t);
    }
  }

  lemma LinkAnswered(
    before: seq<Node>, after: seq<Node>, m: nat, distance: Distance, slot: nat, layer: nat, neighbours: seq<nat>,
    i: nat, l: nat, t: nat)
    requires Linked(before, m) && Mutual(before, m) && AbsentBelow(before, slot, layer + 1)
    requires Attaches(before, after, m, distance, slot, layer, neighbours)
    requires AwaitsFrom(before, slot, layer, neighbours, 0)
    requires i < |after| && l < |after[i].links| && t in after[i].links[l]
    ensures Answers(after, m, l, i, t)
  {
    assert after[i].links[l] == ListAfter(before, m, distance, slot, layer, neighbours, i, l);
    if l != layer {
      assert Answers(before, m, l, i, t);
      assert after[t].links[l] == ListAfter(before, m, distance, slot, layer, neighbours, t, l);
    } else if i == slot {
      var j :| 0 <= j < |neighbours| && neighbours[j] == t;
      assert Awaits(before, slot, layer, neighbours[j]);
      NeighbourAnswers(before, after, m, distance, slot, layer, neighbours, t);
    } else {
      if i in neighbours {
        var j :| 0 <= j < |neighbours| && neighbours[j] == i;
        assert Awaits(before, slot, layer, neighbours[j]);
        assert Wired(before, i, layer, before[i].links[layer], Degree(m, layer));
        BackLinksAre(before, m, distance, i, slot, layer);
      }
      if t == slot {
        assert after[slot].links[layer] == ListAfter(before, m, distance, slot, layer, neighbours, slot, layer);
      } else {
        assert Answers(before, m, layer, i, t);
        ListKeeps(before, after, m, distance, slot, layer, neighbours, i, t);
      }
    }
  }

  /** Only lists on the layer gain the slot. */
  lemma AttachesAbsent(
    before: seq<Node>, after: seq<Node>, m: nat, distance: Distance, slot: nat, layer: nat, neighbours: seq<nat>)
    requires AbsentBelow(before, slot, layer + 1) && Attaches(before, after, m, distance, slot, layer, neighbours)
    ensures AbsentBelow(after, slot, layer)
  {
    forall i, l | 0 <= i < |after| && 0 <= l < |after[i].links| && l < layer
      ensures slot !in after[i].links[l]
    {
      assert after[i].links[l] == ListAfter(before, m, distance, slot, layer, neighbours, i, l);
    }
  }

  /** The slot's own lists: the neighbours on this layer, and on the others what it had. */
  lemma AttachedSlot(
    before: seq<Node>, after: seq<Node>, m: nat, distance: Distance, slot: nat, layer: nat, neighbours: seq<nat>)
    requires Attaches(before, after, m, distance, slot, layer, neighbours)
    ensures after[slot].links[layer] == neighbours
    ensures forall l :: 0 <= l < |after[slot].links| && l != layer ==> after[slot].links[l] == before[slot].links[l]
  {
    forall l | 0 <= l < |after[slot].links|
      ensures after[slot].links[l] == if l == layer then neighbours else before[slot].links[l]
    {
      assert after[slot].links[l] == ListAfter(before, m, distance, slot, layer, neighbours, slot, l);
    }
  }
}
