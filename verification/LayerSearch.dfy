/** Walks over one layer of an HNSW graph: the greedy descent and the bounded best-first search. */
module LayerSearch {
  import opened Words
  import opened Ranking
  import opened Ordered
  import opened Links

  type Distance = (Vector, Vector) -> real

  function Candidate(nodes: seq<Node>, distance: Distance, query: Vector, slot: nat): Ranked
    requires slot < |nodes|
  {
    Ranked(distance(query, nodes[slot].vector), nodes[slot].id, slot)
  }

  // ----- the greedy descent

  ghost function Nearer(nodes: seq<Node>, distance: Distance, query: Vector, nearest: Ranked): set<nat> {
    set s: nat | s < |nodes| && Before(Candidate(nodes, distance, query, s), nearest)
  }

  ghost predicate NoneNearer(nodes: seq<Node>, distance: Distance, query: Vector, slots: seq<nat>, nearest: Ranked) {
    forall j :: 0 <= j < |slots| && slots[j] < |nodes| ==> !Before(Candidate(nodes, distance, query, slots[j]), nearest)
  }

  /** `to` is the least of `from` and its neighbours on the layer. */
  ghost predicate Steepest(
    nodes: seq<Node>, distance: Distance, query: Vector, layer: nat, from: Ranked, to: Ranked) {
    && OnLayer(nodes, layer, from.slot) && from == Candidate(nodes, distance, query, from.slot)
    && OnLayer(nodes, layer, to.slot) && to == Candidate(nodes, distance, query, to.slot)
    && (to == from || (to.slot in nodes[from.slot].links[layer] && Before(to, from)))
    && NoneNearer(nodes, distance, query, nodes[from.slot].links[layer], to)
  }

  ghost predicate StepsDown(
    nodes: seq<Node>, distance: Distance, query: Vector, layer: nat, walk: seq<Ranked>, k: nat)
    requires k + 1 < |walk|
  {
    Steepest(nodes, distance, query, layer, walk[k], walk[k + 1]) && walk[k + 1] != walk[k]
  }

  /** Each stop of the walk is the least neighbour of the one before. */
  ghost predicate WalkDown(
    nodes: seq<Node>, distance: Distance, query: Vector, layer: nat, start: Ranked, nearest: Ranked,
    walk: seq<Ranked>) {
    && walk != [] && walk[0] == start && walk[|walk| - 1] == nearest
    && forall k :: 0 <= k < |walk| - 1 ==> StepsDown(nodes, distance, query, layer, walk, k)
  }

  /** The steepest walk from `start` ends at `nearest`, which none of its neighbours beats. */
  ghost predicate GreedyTo(
    nodes: seq<Node>, distance: Distance, query: Vector, layer: nat, start: Ranked, nearest: Ranked) {
    && Steepest(nodes, distance, query, layer, nearest, nearest)
    && exists walk :: WalkDown(nodes, distance, query, layer, start, nearest, walk)
  }

  lemma WalkMore(
    nodes: seq<Node>, distance: Distance, query: Vector, layer: nat, start: Ranked, at: Ranked, next: Ranked,
    walk: seq<Ranked>)
    requires WalkDown(nodes, distance, query, layer, start, at, walk)
    requires Steepest(nodes, distance, query, layer, at, next) && next != at
    ensures WalkDown(nodes, distance, query, layer, start, next, walk + [next])
  {
    var longer := walk + [next];
    forall k | 0 <= k < |longer| - 1
      ensures StepsDown(nodes, distance, query, layer, longer, k)
    {
      assert k < |walk| - 1 ==> StepsDown(nodes, distance, query, layer, walk, k);
    }
  }

  /** Walks downhill on one layer; it stops because the nearest node strictly falls in a finite order. */
  method Greedy(nodes: seq<Node>, m: nat, distance: Distance, query: Vector, start: Ranked, layer: nat)
    returns (nearest: Ranked)
    requires Linked(nodes, m) && OnLayer(nodes, layer, start.slot)
    requires start == Candidate(nodes, distance, query, start.slot)
    ensures OnLayer(nodes, layer, nearest.slot) && nearest == Candidate(nodes, distance, query, nearest.slot)
    ensures !Before(start, nearest)
    ensures NoneNearer(nodes, distance, query, nodes[nearest.slot].links[layer], nearest)
    ensures GreedyTo(nodes, distance, query, layer, start, nearest)
  {
    nearest := start;
    ghost var walk := [start];
    while true
      invariant OnLayer(nodes, layer, nearest.slot) && nearest == Candidate(nodes, distance, query, nearest.slot)
      invariant !Before(start, nearest)
      invariant WalkDown(nodes, distance, query, layer, start, nearest, walk)
      decreases Nearer(nodes, distance, query, nearest)
    {
      ghost var before := nearest;
      var at := nearest.slot;
      nearest := Downhill(nodes, m, distance, query, nearest, layer);
      if nearest.slot == at {
        return;
      }
      WalkMore(nodes, distance, query, layer, start, before, nearest, walk);
      walk := walk + [nearest];
      assert nearest.slot in Nearer(nodes, distance, query, before);
      assert nearest.slot !in Nearer(nodes, distance, query, nearest);
    }
  }

  /** The least of a node and its neighbours. */
  method Downhill(nodes: seq<Node>, m: nat, distance: Distance, query: Vector, start: Ranked, layer: nat)
    returns (nearest: Ranked)
    requires Linked(nodes, m) && OnLayer(nodes, layer, start.slot)
    requires start == Candidate(nodes, distance, query, start.slot)
    ensures Steepest(nodes, distance, query, layer, start, nearest)
  {
    var links := nodes[start.slot].links[layer];
    assert Wired(nodes, start.slot, layer, links, Degree(m, layer));
    nearest := start;
    for j := 0 to |links|
      invariant OnLayer(nodes, layer, nearest.slot) && nearest == Candidate(nodes, distance, query, nearest.slot)
      invariant nearest == start || (nearest.slot in links && Before(nearest, start))
      invariant NoneNearer(nodes, distance, query, links[..j], nearest)
    {
      assert Target(nodes, start.slot, layer, links[j]);
      var candidate := Candidate(nodes, distance, query, links[j]);
      if Before(candidate, nearest) {
        nearest := candidate;
      }
    }
    assert links[..|links|] == links;
  }

  // ----- what a search has seen

  /** The query side of a layer search. */
  datatype Probe = Probe(distance: Distance, query: Vector, layer: nat, entry: nat, ef: nat, eligible: nat -> bool)

  function Hit(nodes: seq<Node>, p: Probe, slot: nat): Ranked
    requires slot < |nodes|
  {
    Candidate(nodes, p.distance, p.query, slot)
  }

  /** The hits of the eligible nodes among `visited`. */
  ghost function Hits(nodes: seq<Node>, p: Probe, visited: set<nat>): set<Ranked> {
    set s | s in visited && s < |nodes| && p.eligible(nodes[s].id) :: Hit(nodes, p, s)
  }

  ghost function Pool(nodes: seq<Node>, p: Probe, visited: set<nat>): multiset<Ranked> {
    multiset(Hits(nodes, p, visited))
  }

  lemma PoolVisit(nodes: seq<Node>, p: Probe, visited: set<nat>, slot: nat)
    requires slot < |nodes| && slot !in visited
    ensures Pool(nodes, p, visited + {slot}) ==
            Pool(nodes, p, visited) + if p.eligible(nodes[slot].id) then multiset{Hit(nodes, p, slot)} else multiset{}
  {
    var before, after := Hits(nodes, p, visited), Hits(nodes, p, visited + {slot});
    assert Hit(nodes, p, slot) !in before;
    assert after == before + if p.eligible(nodes[slot].id) then {Hit(nodes, p, slot)} else {};
  }

  lemma BestVisit(nodes: seq<Node>, p: Probe, visited: set<nat>, slot: nat)
    requires slot < |nodes| && slot !in visited
    ensures var best := BestOf(Pool(nodes, p, visited), p.ef);
            BestOf(Pool(nodes, p, visited + {slot}), p.ef) ==
            if p.eligible(nodes[slot].id) then Retained(best, Hit(nodes, p, slot), p.ef) else best
  {
    PoolVisit(nodes, p, visited, slot);
    RetainedIsBest(Pool(nodes, p, visited), Hit(nodes, p, slot), p.ef);
    assert Pool(nodes, p, visited) + multiset{} == Pool(nodes, p, visited);
  }

  /** The best hits of a set of hits: each is one of them, and none comes twice. */
  lemma BestOfSet(hits: set<Ranked>, k: nat)
    ensures var best := BestOf(multiset(hits), k);
            (forall i :: 0 <= i < |best| ==> best[i] in hits) && Distinct(best)
  {
    var best, sorted := BestOf(multiset(hits), k), SortedOf(multiset(hits));
    forall i | 0 <= i < |best|
      ensures best[i] in hits
    {
      assert sorted[i] in multiset(sorted);
    }
    forall i, j | 0 <= i < j < |best|
      ensures best[i] != best[j]
    {
      if sorted[i] == sorted[j] {
        TwiceListed(sorted, i, j);
      }
    }
  }

  /** A pooled hit is among the best, or the best are full and it does not beat their worst. */
  lemma BestCovers(pool: multiset<Ranked>, k: nat, x: Ranked)
    requires k > 0 && x in pool
    ensures x in BestOf(pool, k) || (|BestOf(pool, k)| == k && !Before(x, BestOf(pool, k)[k - 1]))
  {
    var sorted := SortedOf(pool);
    assert x in multiset(sorted);
    var i :| 0 <= i < |sorted| && sorted[i] == x;
    if i < k {
      assert x == BestOf(pool, k)[i];
    }
  }

  // ----- the frontier

  /** The open candidates and the kept results of a layer search, both in order. */
  datatype Frontier = Frontier(visited: set<nat>, candidates: seq<Ranked>, best: seq<Ranked>)

  ghost predicate Explored(nodes: seq<Node>, p: Probe, visited: set<nat>) {
    && p.entry in visited
    && (forall s :: s in visited ==> OnLayer(nodes, p.layer, s) && Reached(nodes, p.layer, p.entry, s))
  }

  ghost predicate Open(nodes: seq<Node>, p: Probe, visited: set<nat>, candidates: seq<Ranked>) {
    && Sorted(candidates)
    && (forall c :: c in candidates ==> c.slot in visited && c.slot < |nodes| && c == Hit(nodes, p, c.slot))
  }

  /** Results full, and the hit costs more than the worst of them. */
  ghost predicate Beaten(best: seq<Ranked>, ef: nat, c: Ranked) {
    |best| == ef > 0 && best[ef - 1].cost < c.cost
  }

  /** All neighbours of the slot have been visited. */
  ghost predicate Settled(nodes: seq<Node>, layer: nat, visited: set<nat>, slot: nat) {
    OnLayer(nodes, layer, slot) && forall t :: t in nodes[slot].links[layer] ==> t in visited
  }

  /** The slot's neighbours are visited, or it still waits, or it is beaten. */
  ghost predicate Accounted(nodes: seq<Node>, p: Probe, f: Frontier, slot: nat) {
    || Settled(nodes, p.layer, f.visited, slot)
    || (slot < |nodes| && (Hit(nodes, p, slot) in f.candidates || Beaten(f.best, p.ef, Hit(nodes, p, slot))))
  }

  ghost predicate Sound(nodes: seq<Node>, p: Probe, f: Frontier) {
    && Explored(nodes, p, f.visited)
    && Open(nodes, p, f.visited, f.candidates)
    && f.best == BestOf(Pool(nodes, p, f.visited), p.ef)
  }

  /** Every visited slot but `busy` is accounted for. */
  ghost predicate Closed(nodes: seq<Node>, p: Probe, f: Frontier, busy: set<nat>) {
    forall s :: s in f.visited && s !in busy ==> Accounted(nodes, p, f, s)
  }

  lemma InsertOpen(nodes: seq<Node>, p: Probe, visited: set<nat>, candidates: seq<Ranked>, slot: nat)
    requires Open(nodes, p, visited, candidates) && slot < |nodes|
    ensures Open(nodes, p, visited + {slot}, Insert(candidates, Hit(nodes, p, slot)))
  {
    InsertSorted(candidates, Hit(nodes, p, slot));
    forall c | c in Insert(candidates, Hit(nodes, p, slot))
      ensures c in candidates || c == Hit(nodes, p, slot)
    {
      assert c in multiset(candidates) + multiset{Hit(nodes, p, slot)};
    }
  }

  /** The worst kept hit never gets worse. */
  lemma WorstFalls(best: seq<Ranked>, x: Ranked, ef: nat)
    requires Sorted(best) && |best| == ef > 0
    ensures |Retained(best, x, ef)| == ef && Retained(best, x, ef)[ef - 1].cost <= best[ef - 1].cost
  {
    var after := Retained(best, x, ef);
    if Before(x, best[ef - 1]) {
      var kept := best[..ef - 1];
      assert after[ef - 1] in multiset(kept) + multiset{x};
    }
  }

  /** Accounts carry over when more is visited, more waits and the worst result falls. */
  ghost predicate Grows(p: Probe, f: Frontier, next: Frontier) {
    && f.visited <= next.visited
    && (forall c :: c in f.candidates ==> c in next.candidates)
    && (|f.best| == p.ef > 0 ==> |next.best| == p.ef && next.best[p.ef - 1].cost <= f.best[p.ef - 1].cost)
  }

  lemma AccountedGrows(nodes: seq<Node>, p: Probe, f: Frontier, next: Frontier, slot: nat)
    requires Grows(p, f, next) && Accounted(nodes, p, f, slot)
    ensures Accounted(nodes, p, next, slot)
  {
  }

  lemma ClosedGrows(nodes: seq<Node>, p: Probe, f: Frontier, next: Frontier, busy: set<nat>)
    requires Grows(p, f, next) && Closed(nodes, p, f, busy)
    requires forall s :: s in next.visited && s !in f.visited ==> Accounted(nodes, p, next, s)
    ensures Closed(nodes, p, next, busy)
  {
    forall s | s in next.visited && s !in busy
      ensures Accounted(nodes, p, next, s)
    {
      if s in f.visited {
        AccountedGrows(nodes, p, f, next, s);
      }
    }
  }

  // ----- the search

  /** Visits one new slot: it is kept if it is eligible and good enough, and opened if it may lead further. */
  method Visit(nodes: seq<Node>, p: Probe, slot: nat, f: Frontier, ghost busy: set<nat>) returns (next: Frontier)
    requires p.ef > 0 && Sound(nodes, p, f) && Closed(nodes, p, f, busy)
    requires OnLayer(nodes, p.layer, slot) && Reached(nodes, p.layer, p.entry, slot) && slot !in f.visited
    ensures Sound(nodes, p, next) && Closed(nodes, p, next, busy)
    ensures next.visited == f.visited + {slot}
  {
    var candidate := Hit(nodes, p, slot);
    BestVisit(nodes, p, f.visited, slot);
    next := Frontier(f.visited + {slot}, f.candidates, f.best);
    if |f.best| < p.ef || candidate.cost <= f.best[|f.best| - 1].cost {
      InsertOpen(nodes, p, f.visited, f.candidates, slot);
      next := next.(candidates := Insert(f.candidates, candidate));
      if p.eligible(candidate.id) {
        next := next.(best := Retained(f.best, candidate, p.ef));
      }
      VisitGrows(p, f, next, candidate);
    }
    ClosedGrows(nodes, p, f, next, busy);
  }

  lemma VisitGrows(p: Probe, f: Frontier, next: Frontier, x: Ranked)
    requires p.ef > 0 && Sorted(f.best) && |f.best| <= p.ef && f.visited <= next.visited
    requires next.candidates == Insert(f.candidates, x)
             && (next.best == f.best || next.best == Retained(f.best, x, p.ef))
    ensures Grows(p, f, next) && x in next.candidates
  {
    assert x in multiset(next.candidates);
    forall c | c in f.candidates
      ensures c in next.candidates
    {
      assert c in multiset(next.candidates);
    }
    if |f.best| == p.ef {
      WorstFalls(f.best, x, p.ef);
    }
  }

  /** Visits every unseen neighbour of a slot. */
  method Expand(nodes: seq<Node>, m: nat, p: Probe, slot: nat, f: Frontier) returns (next: Frontier)
    requires Linked(nodes, m) && p.ef > 0 && Sound(nodes, p, f) && Closed(nodes, p, f, {slot}) && slot in f.visited
    ensures Sound(nodes, p, next) && Closed(nodes, p, next, {})
    ensures f.visited <= next.visited && (next.visited == f.visited ==> next == f)
  {
    assert OnLayer(nodes, p.layer, slot);
    var links := nodes[slot].links[p.layer];
    assert Wired(nodes, slot, p.layer, links, Degree(m, p.layer));
    next := f;
    for j := 0 to |links|
      invariant Sound(nodes, p, next) && Closed(nodes, p, next, {slot})
      invariant f.visited <= next.visited && (next.visited == f.visited ==> next == f)
      invariant forall k :: 0 <= k < j ==> links[k] in next.visited
    {
      assert Target(nodes, slot, p.layer, links[j]);
      if links[j] !in next.visited {
        ReachedNext(nodes, p.layer, p.entry, slot, links[j]);
        next := Visit(nodes, p, links[j], next, {slot});
      }
    }
    Expanded(nodes, p, next, slot, links);
  }

  lemma Expanded(nodes: seq<Node>, p: Probe, f: Frontier, slot: nat, links: seq<nat>)
    requires OnLayer(nodes, p.layer, slot) && links == nodes[slot].links[p.layer]
    requires Closed(nodes, p, f, {slot}) && forall k :: 0 <= k < |links| ==> links[k] in f.visited
    ensures Closed(nodes, p, f, {})
  {
    assert Settled(nodes, p.layer, f.visited, slot);
  }

  ghost function Unvisited(nodes: seq<Node>, visited: set<nat>): set<nat> {
    set s: nat | s < |nodes| && s !in visited
  }

  lemma Shrinks(nodes: seq<Node>, p: Probe, before: set<nat>, after: set<nat>)
    requires before <= after && Explored(nodes, p, after)
    ensures before != after ==> Unvisited(nodes, after) < Unvisited(nodes, before)
  {
    if before != after {
      var s :| s in after && s !in before;
      assert s in Unvisited(nodes, before) && s !in Unvisited(nodes, after);
    }
  }

  /** Taking the least candidate leaves only its own slot unaccounted for. */
  lemma Popped(nodes: seq<Node>, p: Probe, f: Frontier)
    requires Sound(nodes, p, f) && Closed(nodes, p, f, {}) && f.candidates != []
    ensures var rest := f.(candidates := f.candidates[1..]);
            Sound(nodes, p, rest) && Closed(nodes, p, rest, {f.candidates[0].slot})
  {
    var rest, current := f.(candidates := f.candidates[1..]), f.candidates[0];
    assert current in f.candidates;
    assert forall c :: c in rest.candidates ==> c in f.candidates;
    forall s | s in f.visited && s != current.slot
      ensures Accounted(nodes, p, rest, s)
    {
      assert Accounted(nodes, p, f, s);
      if Hit(nodes, p, s) in f.candidates {
        var i :| 0 <= i < |f.candidates| && f.candidates[i] == Hit(nodes, p, s);
        assert rest.candidates[i - 1] == Hit(nodes, p, s);
      }
    }
  }

  /** No visited slot can lead further: its neighbours are visited or it is beaten. */
  ghost predicate Finished(nodes: seq<Node>, p: Probe, visited: set<nat>, best: seq<Ranked>) {
    forall s :: s in visited ==>
      Settled(nodes, p.layer, visited, s) || (s < |nodes| && Beaten(best, p.ef, Hit(nodes, p, s)))
  }

  /** Once the least open candidate is beaten, all of them are. */
  lemma AllBeaten(nodes: seq<Node>, p: Probe, f: Frontier)
    requires Sound(nodes, p, f) && Closed(nodes, p, f, {})
    requires f.candidates == [] || Beaten(f.best, p.ef, f.candidates[0])
    ensures Finished(nodes, p, f.visited, f.best)
  {
    forall s | s in f.visited
      ensures Settled(nodes, p.layer, f.visited, s) || (s < |nodes| && Beaten(f.best, p.ef, Hit(nodes, p, s)))
    {
      assert Accounted(nodes, p, f, s);
      if s < |nodes| && Hit(nodes, p, s) in f.candidates {
        var i :| 0 <= i < |f.candidates| && f.candidates[i] == Hit(nodes, p, s);
        assert i > 0 ==> !Before(f.candidates[i], f.candidates[0]);
      }
    }
  }

  /**
   The best `ef` of every eligible node visited. What was visited is joined to the entry by
   links, and nothing unvisited is one link away from a result.
   */
  method SearchLayer(nodes: seq<Node>, m: nat, p: Probe) returns (best: seq<Ranked>, ghost visited: set<nat>)
    requires Linked(nodes, m) && OnLayer(nodes, p.layer, p.entry) && p.ef > 0
    ensures Explored(nodes, p, visited) && best == BestOf(Pool(nodes, p, visited), p.ef)
    ensures Finished(nodes, p, visited, best)
  {
    var first := Hit(nodes, p, p.entry);
    var f := Frontier({p.entry}, [first], if p.eligible(first.id) then [first] else []);
    Started(nodes, p);
    while f.candidates != []
      invariant Sound(nodes, p, f) && Closed(nodes, p, f, {})
      decreases Unvisited(nodes, f.visited), |f.candidates|
    {
      var current := f.candidates[0];
      if |f.best| == p.ef && current.cost > f.best[|f.best| - 1].cost {
        break;
      }
      Popped(nodes, p, f);
      assert current in f.candidates;
      ghost var before := f.visited;
      f := Expand(nodes, m, p, current.slot, f.(candidates := f.candidates[1..]));
      Shrinks(nodes, p, before, f.visited);
    }
    AllBeaten(nodes, p, f);
    best, visited := f.best, f.visited;
  }

  lemma Started(nodes: seq<Node>, p: Probe)
    requires OnLayer(nodes, p.layer, p.entry) && p.ef > 0
    ensures var first := Hit(nodes, p, p.entry);
            var f := Frontier({p.entry}, [first], if p.eligible(first.id) then [first] else []);
            Sound(nodes, p, f) && Closed(nodes, p, f, {})
  {
    var first := Hit(nodes, p, p.entry);
    EntryReached(nodes, p.layer, p.entry);
    BestVisit(nodes, p, {}, p.entry);
    assert {} + {p.entry} == {p.entry} && Hits(nodes, p, {}) == {};
    assert BestOf(multiset{}, p.ef) == [] && Retained([], first, p.ef) == [first];
  }

  // ----- what the results are

  /** `found` is an answer of the layer search. */
  ghost predicate Answer(nodes: seq<Node>, p: Probe, found: seq<Ranked>) {
    exists visited :: AnswerFrom(nodes, p, found, visited)
  }

  ghost predicate AnswerFrom(nodes: seq<Node>, p: Probe, found: seq<Ranked>, visited: set<nat>) {
    Explored(nodes, p, visited) && Finished(nodes, p, visited, found) && found == BestOf(Pool(nodes, p, visited), p.ef)
  }

  ghost predicate DistinctSlots(s: seq<Ranked>) {
    forall i, j :: 0 <= i < j < |s| ==> s[i].slot != s[j].slot
  }

  ghost predicate IsResult(nodes: seq<Node>, p: Probe, hit: Ranked) {
    && OnLayer(nodes, p.layer, hit.slot) && Reached(nodes, p.layer, p.entry, hit.slot)
    && hit == Hit(nodes, p, hit.slot) && p.eligible(hit.id)
  }

  /** Each result is an eligible node reached from the entry, at its own distance, and none comes twice. */
  lemma AnswerIs(nodes: seq<Node>, p: Probe, found: seq<Ranked>)
    requires Answer(nodes, p, found)
    ensures Sorted(found) && |found| <= p.ef && DistinctSlots(found)
    ensures forall i :: 0 <= i < |found| ==> IsResult(nodes, p, found[i])
    ensures p.ef > 0 && p.entry < |nodes| && p.eligible(nodes[p.entry].id) ==> found != []
  {
    var visited :| AnswerFrom(nodes, p, found, visited);
    BestOfSet(Hits(nodes, p, visited), p.ef);
    forall i | 0 <= i < |found|
      ensures IsResult(nodes, p, found[i])
    {
      assert found[i] in Hits(nodes, p, visited);
    }
    forall i, j | 0 <= i < j < |found|
      ensures found[i].slot != found[j].slot
    {
      assert IsResult(nodes, p, found[i]) && IsResult(nodes, p, found[j]);
    }
    if p.entry < |nodes| && p.eligible(nodes[p.entry].id) {
      assert Hit(nodes, p, p.entry) in Pool(nodes, p, visited);
    }
  }

  /** No eligible neighbour of a result improves the answer: it is in it, or the answer is full and no worse. */
  lemma LocallyBest(nodes: seq<Node>, p: Probe, found: seq<Ranked>, i: nat, t: nat)
    requires Answer(nodes, p, found) && p.ef > 0 && i < |found|
    requires OnLayer(nodes, p.layer, found[i].slot) && t in nodes[found[i].slot].links[p.layer]
    requires t < |nodes| && p.eligible(nodes[t].id)
    ensures Hit(nodes, p, t) in found || (|found| == p.ef && !Before(Hit(nodes, p, t), found[p.ef - 1]))
  {
    var visited :| AnswerFrom(nodes, p, found, visited);
    BestOfSet(Hits(nodes, p, visited), p.ef);
    assert found[i] in Hits(nodes, p, visited);
    assert found[i].slot in visited && found[i] == Hit(nodes, p, found[i].slot);
    assert i < |found| - 1 ==> !Before(found[|found| - 1], found[i]);
    assert Settled(nodes, p.layer, visited, found[i].slot);
    assert Hit(nodes, p, t) in Pool(nodes, p, visited);
    BestCovers(Pool(nodes, p, visited), p.ef, Hit(nodes, p, t));
  }
}
