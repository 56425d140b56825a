/** Building an HNSW graph, and searching it approximately. */
module Hnsw {
  import opened Words
  import opened Ranking
  import opened Ordered
  import opened Links
  import opened LayerSearch
  import opened Neighbours
  import opened Rewiring

  datatype HnswError = DuplicateVertex(id: nat) | TooManyVectors | InvalidQuery

  // ----- the graph under construction

  function Anyone(id: nat): bool {
    true
  }

  /** The search that looks for a new slot's neighbours on a layer. */
  function ProbeFor(nodes: seq<Node>, distance: Distance, efConstruction: nat, slot: nat, layer: nat, start: nat): Probe
    requires slot < |nodes|
  {
    Probe(distance, nodes[slot].vector, layer, start, Max(Min(efConstruction, slot), 1), Anyone)
  }

  datatype Settings = Settings(m: nat, efConstruction: nat, distance: Distance)

  datatype State = State(nodes: seq<Node>, entry: Option<nat>, topLevel: nat)

  class Graph {
    const m: nat
    const efConstruction: nat
    const distance: Distance
    var nodes: seq<Node>
    var entry: Option<nat>
    var topLevel: nat

    ghost predicate Valid()
      reads this
    {
      && Linked(nodes, m)
      && (entry.None? <==> nodes == [])
      && (entry.Some? ==> entry.value < |nodes| && |nodes[entry.value].links| == topLevel + 1)
      && LevelsUpTo(nodes, topLevel)
      && Mutual(nodes, m)
    }

    ghost function Rules(): Settings {
      Settings(m, efConstruction, distance)
    }

    ghost function Now(): State
      reads this
    {
      State(nodes, entry, topLevel)
    }

    constructor (m: nat, efConstruction: nat, distance: Distance)
      ensures Valid() && Now() == State([], None, 0) && Rules() == Settings(m, efConstruction, distance)
    {
      this.m, this.efConstruction, this.distance := m, efConstruction, distance;
      nodes, entry, topLevel := [], None, 0;
    }

    /** Replaces an overlong list by a bounded selection from it. */
    method Prune(slot: nat, layer: nat, limit: nat, list: seq<nat>) returns (chosen: seq<nat>)
      requires OnLayer(nodes, layer, slot) && Wired(nodes, slot, layer, list, limit + 1) && AllBelow(list, |nodes|)
      ensures chosen == Pruned(nodes, distance, slot, list, limit)
    {
      SortedNodes(nodes, distance, slot, list);
      SortedSlots(nodes, distance, nodes[slot].vector, list);
      var candidates := SortCandidates(nodes, distance, nodes[slot].vector, list);
      candidates := DedupBySlot(candidates);
      chosen := SelectDiverse(nodes, distance, candidates, limit);
    }

    /** Adds the new slot to a neighbour's list, pruning it back to its limit. */
    method Connect(neighbour: nat, slot: nat, layer: nat)
      requires Linked(nodes, m) && OnLayer(nodes, layer, neighbour) && Target(nodes, neighbour, layer, slot)
      requires slot !in nodes[neighbour].links[layer] && AllBelow(nodes[neighbour].links[layer], |nodes|)
      modifies this`nodes
      ensures Linked(nodes, m) && SameShape(old(nodes), nodes)
      ensures nodes == WithLinks(old(nodes), neighbour, layer,
                                 BackLinks(old(nodes), m, distance, neighbour, slot, layer))
    {
      var list := nodes[neighbour].links[layer];
      var limit := Degree(m, layer);
      assert Wired(nodes, neighbour, layer, list, limit);
      var longer := list + [slot];
      assert Wired(nodes, neighbour, layer, longer, limit + 1);
      if |longer| > limit {
        WiredBelow(nodes, neighbour, layer, longer, limit + 1);
        PrunedWired(nodes, distance, neighbour, layer, longer, limit);
        longer := Prune(neighbour, layer, limit, longer);
      }
      WithLinksLinked(nodes, m, neighbour, layer, longer);
      nodes := WithLinks(nodes, neighbour, layer, longer);
    }

    /** Links each chosen neighbour back to the new slot. */
    method ConnectAll(neighbours: seq<nat>, slot: nat, layer: nat)
      requires Linked(nodes, m) && LinksBelow(nodes) && OnLayer(nodes, layer, slot) && Distinct(neighbours)
      requires AwaitsFrom(nodes, slot, layer, neighbours, 0)
      modifies this`nodes
      ensures Linked(nodes, m) && LinkedBack(old(nodes), nodes, m, distance, slot, layer, neighbours)
    {
      ghost var start := nodes;
      for j := 0 to |neighbours|
        invariant Linked(nodes, m) && LinkedBack(start, nodes, m, distance, slot, layer, neighbours[..j])
        invariant AwaitsFrom(nodes, slot, layer, neighbours, j)
      {
        ghost var next, done, neighbour := j + 1, neighbours[..j], neighbours[j];
        TakeNext(neighbours, j, next);
        assert Awaits(nodes, slot, layer, neighbours[j]);
        LinkedBelow(nodes, m);
        LinkedBackNext(start, nodes, m, distance, slot, layer, done, neighbour);
        AwaitsNext(nodes, slot, layer, neighbours, j, next,
                   BackLinks(nodes, m, distance, neighbour, slot, layer));
        Connect(neighbours[j], slot, layer);
      }
      assert neighbours[..|neighbours|] == neighbours;
    }

    /** Gives the new slot its neighbours on a layer, and links them back. */
    method Attach(slot: nat, layer: nat, neighbours: seq<nat>)
      requires Linked(nodes, m) && Mutual(nodes, m) && OnLayer(nodes, layer, slot)
      requires AbsentBelow(nodes, slot, layer + 1) && Wired(nodes, slot, layer, neighbours, Degree(m, layer))
      modifies this`nodes
      ensures Linked(nodes, m) && Mutual(nodes, m) && AbsentBelow(nodes, slot, layer)
      ensures Attaches(old(nodes), nodes, m, distance, slot, layer, neighbours)
    {
      ghost var before := nodes;
      WithLinksLinked(nodes, m, slot, layer, neighbours);
      LinkedBelow(nodes, m);
      forall j | 0 <= j < |neighbours|
        ensures Awaits(before, slot, layer, neighbours[j])
      {
        assert Target(before, slot, layer, neighbours[j]);
      }
      nodes := WithLinks(nodes, slot, layer, neighbours);
      ghost var start := nodes;
      LinkedBelow(nodes, m);
      forall j | 0 <= j < |neighbours|
        ensures Awaits(start, slot, layer, neighbours[j])
      {
        assert Awaits(before, slot, layer, neighbours[j]);
      }
      ConnectAll(neighbours, slot, layer);
      AttachesAre(before, start, nodes, m, distance, slot, layer, neighbours);
      AttachesMutual(before, nodes, m, distance, slot, layer, neighbours);
      AttachesAbsent(before, nodes, m, distance, slot, layer, neighbours);
    }

    /** Searches one layer from `start` and links the new slot there. */
    method LinkLayer(slot: nat, layer: nat, start: nat) returns (nearest: nat)
      requires Linked(nodes, m) && Mutual(nodes, m) && OnLayer(nodes, layer, slot)
      requires OnLayer(nodes, layer, start) && start != slot && AbsentBelow(nodes, slot, layer + 1)
      modifies this`nodes
      ensures Linked(nodes, m) && Mutual(nodes, m) && SameShape(old(nodes), nodes) && AbsentBelow(nodes, slot, layer)
      ensures OnLayer(nodes, layer, nearest) && nearest != slot
      ensures LayerStep(Rules(), old(nodes), nodes, slot, layer, start, nearest)
      ensures LinkedTo(old(nodes), ProbeFor(old(nodes), distance, efConstruction, slot, layer, start), m,
                       nodes[slot].links[layer])
      ensures m > 0 ==> nodes[slot].links[layer] != []
      ensures forall l :: 0 <= l < |nodes[slot].links| && l != layer ==>
              nodes[slot].links[l] == old(nodes)[slot].links[l]
    {
      ghost var before := nodes;
      var p := ProbeFor(nodes, distance, efConstruction, slot, layer, start);
      var found, visited := SearchLayer(nodes, m, p);
      assert AnswerFrom(nodes, p, found, visited);
      FoundAre(nodes, p, found, slot);
      nearest := start;
      if found != [] {
        nearest := found[0].slot;
      }
      var neighbours := SelectDiverse(nodes, distance, found, m);
      assert Answer(nodes, p, found) && ChosenFrom(nodes, p, m, found, neighbours);
      ChosenWired(nodes, m, p, slot, found);
      Attach(slot, layer, neighbours);
      assert StepFrom(Rules(), before, nodes, slot, layer, start, nearest, found);
      AttachedSlot(before, nodes, m, distance, slot, layer, neighbours);
    }

    /** From the entry down to the layer above the new node's own. */
    method Descend(vector: Vector, level: nat) returns (nearest: nat)
      requires Valid() && entry.Some?
      ensures OnLayer(nodes, Min(level, topLevel), nearest)
      ensures DescendsTo(nodes, distance, vector, entry.value, topLevel, Min(level, topLevel), nearest)
    {
      var at := Candidate(nodes, distance, vector, entry.value);
      var layer: nat := topLevel;
      while layer > level
        invariant OnLayer(nodes, layer, at.slot) && at == Candidate(nodes, distance, vector, at.slot)
        invariant Min(level, topLevel) <= layer <= topLevel
        invariant Descends(nodes, distance, vector, entry.value, topLevel, layer, at)
      {
        ghost var before := at;
        at := Greedy(nodes, m, distance, vector, at, layer);
        layer := layer - 1;
        assert Descends(nodes, distance, vector, entry.value, topLevel, layer + 1, before);
      }
      nearest := at.slot;
    }

    /** Links the new slot on every layer below `high`, the highest first. */
    method LinkDown(slot: nat, start: nat, high: nat)
      requires Linked(nodes, m) && Mutual(nodes, m) && AbsentBelow(nodes, slot, high) && start != slot
      requires OnLayer(nodes, 0, slot) && high <= |nodes[slot].links| && 0 < high && OnLayer(nodes, high - 1, start)
      modifies this`nodes
      ensures Linked(nodes, m) && Mutual(nodes, m) && SameShape(old(nodes), nodes)
      ensures LinksAll(Rules(), old(nodes), nodes, slot, high, start)
      ensures m > 0 ==> LinkedFrom(nodes[slot], 0, high)
      ensures ChosenFromUp(nodes, distance, efConstruction, m, slot, 0, high)
    {
      ghost var pushed := nodes;
      var nearest, layer := start, high;
      while layer > 0
        invariant Linked(nodes, m) && Mutual(nodes, m) && SameShape(pushed, nodes) && AbsentBelow(nodes, slot, layer)
        invariant 0 <= layer <= high && nearest != slot
        invariant layer > 0 ==> OnLayer(nodes, layer - 1, nearest)
        invariant LinksDown(Rules(), pushed, nodes, slot, layer, high, start, nearest)
        invariant m > 0 ==> LinkedFrom(nodes[slot], layer, high)
        invariant ChosenFromUp(nodes, distance, efConstruction, m, slot, layer, high)
      {
        ghost var before, at, above := nodes, nearest, layer;
        layer := layer - 1;
        nearest := LinkLayer(slot, layer, nearest);
        ShapeNext(pushed, before, nodes);
        if m > 0 {
          LinkedNext(before[slot], nodes[slot], layer, above, high);
        }
        ChosenNext(before, nodes, distance, efConstruction, m, slot, layer, high, at);
        LinksNext(Rules(), pushed, before, nodes, slot, layer, high, start, at, nearest, above);
      }
    }

    /** The first node is the entry. */
    method Begin(id: nat, vector: Vector, level: nat)
      requires Valid() && entry.None?
      modifies this
      ensures Valid() && Now() == State([Node(id, vector, Layers(level + 1))], Some(0), level)
      ensures Points(nodes) == Points(old(nodes)) + [(id, vector)] && LinksAnswered(nodes, m, 0)
    {
      nodes := [Node(id, vector, Layers(level + 1))];
      entry, topLevel := Some(0), level;
    }

    /** Adds a node to a graph that has some, linked on every layer it shares with them. */
    method Join(id: nat, vector: Vector, level: nat, slot: nat)
      requires Valid() && entry.Some? && slot == |nodes|
      modifies this`nodes
      ensures Linked(nodes, m) && Mutual(nodes, m)
      ensures Points(nodes) == Points(old(nodes)) + [(id, vector)]
      ensures LevelsKept(old(nodes), nodes) && |nodes| == slot + 1 && |nodes[slot].links| == level + 1
      ensures LevelsUpTo(nodes, Max(level, topLevel))
      ensures m > 0 ==> LinkedFrom(nodes[slot], 0, Min(level, topLevel) + 1)
      ensures ChosenFromUp(nodes, distance, efConstruction, m, slot, 0, Min(level, topLevel) + 1)
      ensures InsertsOne(Rules(), old(Now()), nodes, id, vector, level)
    {
      ghost var before, node := Now(), Node(id, vector, Layers(level + 1));
      PushedLinked(nodes, m, id, vector, level);
      PushedMutual(nodes, m, id, vector, level);
      PushedAbsent(nodes, m, node);
      var nearest := Descend(vector, level);
      nodes := nodes + [Node(id, vector, Layers(level + 1))];
      LinkDown(slot, nearest, Min(level, topLevel) + 1);
      PushedShape(before.nodes, node, nodes, topLevel, level);
      assert InsertsVia(Rules(), before, nodes, id, vector, level, nearest);
    }

    /** Inserts a node at `level`, keeping every list of links sound and linking it on every layer it shares. */
    method Insert(id: nat, vector: Vector, level: nat)
      requires Valid()
      modifies this
      ensures Valid() && Points(nodes) == Points(old(nodes)) + [(id, vector)]
      ensures |nodes| == |old(nodes)| + 1 && LevelsKept(old(nodes), nodes) && |nodes[|old(nodes)|].links| == level + 1
              && topLevel == Max(level, if old(entry).None? then 0 else old(topLevel))
      ensures m > 0 && old(entry).Some? ==> LinkedFrom(nodes[|old(nodes)|], 0, Min(level, old(topLevel)) + 1)
      ensures old(entry).Some? ==> ChosenFromUp(nodes, distance, efConstruction, m, |old(nodes)|, 0,
                                                Min(level, old(topLevel)) + 1)
      ensures Inserts(Rules(), old(Now()), Now(), id, vector, level)
      ensures LinksAnswered(nodes, m, |old(nodes)|)
    {
      if entry.None? {
        Begin(id, vector, level);
        return;
      }
      var slot := |nodes|;
      Join(id, vector, level, slot);
      if level > topLevel {
        entry, topLevel := Some(slot), level;
      }
      NewAnswered(nodes, m, slot);
    }

    /** One insertion of a build. */
    method InsertPoint(
      id: nat, vector: Vector, level: nat -> nat, ghost points: seq<(nat, Vector)>, ghost n: nat, ghost next: nat)
      requires Valid() && n < |points| && points[n] == (id, vector) && next == n + 1
      requires Points(nodes) == points[..n] && LevelsDrawn(nodes, level) && BuiltBy(Rules(), points, level, n, Now())
      modifies this
      ensures Valid() && Points(nodes) == points[..next] && LevelsDrawn(nodes, level)
      ensures BuiltBy(Rules(), points, level, next, Now())
    {
      ghost var before := Now();
      TakeNext(points, n, next);
      Insert(id, vector, level(id));
      BuiltNext(Rules(), points, level, n, next, before, Now());
      PushedLevels(before.nodes, nodes, id, vector, level);
    }

    /** The `k` nearest of what a search of the bottom layer finds, from where the greedy descent ends. */
    method SearchApproximate(query: Vector, k: nat, efSearch: nat, eligible: nat -> bool)
      returns (r: Result<seq<Ranked>, HnswError>, ghost p: Probe)
      requires Valid()
      ensures r.Err? <==> efSearch == 0
      ensures r.Ok? && 0 < k && nodes != [] ==>
              SearchOf(Now(), p, distance, query, eligible, Min(Max(efSearch, Min(k, |nodes|)), |nodes|))
      ensures r.Ok? && 0 < k && nodes != [] ==>
                exists found :: Answer(nodes, p, found) && r.value == found[..Min(k, |found|)]
      ensures r.Ok? && (k == 0 || nodes == []) ==> r.value == []
    {
      p := Probe(distance, query, 0, 0, 0, eligible);
      if efSearch == 0 {
        return Err(InvalidQuery), p;
      }
      var limit := Min(k, |nodes|);
      if limit == 0 || entry.None? {
        return Ok([]), p;
      }
      var nearest := Descend(query, 0);
      var probe := Probe(distance, query, 0, nearest, Min(Max(efSearch, limit), |nodes|), eligible);
      p := probe;
      var found, visited := SearchLayer(nodes, m, probe);
      assert AnswerFrom(nodes, p, found, visited);
      FoundFew(nodes, p, visited);
      r := Ok(found[..Min(limit, |found|)]);
    }
  }

  /** The probe searches the bottom layer for the query, from where the greedy descent ends. */
  ghost predicate SearchOf(g: State, p: Probe, distance: Distance, query: Vector, eligible: nat -> bool, ef: nat) {
    && p.distance == distance && p.query == query && p.layer == 0 && p.eligible == eligible && p.ef == ef
    && OnLayer(g.nodes, 0, p.entry)
    && g.entry.Some? && DescendsTo(g.nodes, distance, query, g.entry.value, g.topLevel, 0, p.entry)
  }

  // ----- what an insertion does, layer by layer

  ghost predicate DescendsTo(
    nodes: seq<Node>, distance: Distance, query: Vector, entry: nat, top: nat, layer: nat, slot: nat) {
    exists at :: Descends(nodes, distance, query, entry, top, layer, at) && at.slot == slot
  }

  /** Greedy walks from the entry through each layer above `layer`, each from where the last ended, end at `at`. */
  ghost predicate Descends(
    nodes: seq<Node>, distance: Distance, query: Vector, entry: nat, top: nat, layer: nat, at: Ranked)
    decreases top - layer
  {
    if layer >= top then entry < |nodes| && at == Candidate(nodes, distance, query, entry)
    else
      var up := layer + 1;
      exists above ::
        Descends(nodes, distance, query, entry, top, up, above) && GreedyTo(nodes, distance, query, up, above, at)
  }

  /** One layer: a search from `start`, links to the choice among what it finds, and links back. */
  ghost predicate LayerStep(
    rules: Settings, before: seq<Node>, after: seq<Node>, slot: nat, layer: nat, start: nat, nearest: nat) {
    slot < |before| && exists found :: StepFrom(rules, before, after, slot, layer, start, nearest, found)
  }

  ghost predicate StepFrom(
    rules: Settings, before: seq<Node>, after: seq<Node>, slot: nat, layer: nat, start: nat, nearest: nat,
    found: seq<Ranked>)
    requires slot < |before|
  {
    && Answer(before, Probe(rules.distance, before[slot].vector, layer, start, Max(Min(rules.efConstruction, slot), 1),
                            Anyone), found)
    && AllNodes(before, found)
    && Attaches(before, after, rules.m, rules.distance, slot, layer,
                Slots(Chosen(before, rules.distance, found, rules.m)))
    && nearest == if found == [] then start else found[0].slot
  }

  /** The layers from `high - 1` down to `low`, each searched from the nearest the one above found. */
  ghost predicate LinksDown(
    rules: Settings, pushed: seq<Node>, after: seq<Node>, slot: nat, low: nat, high: nat, start: nat, nearest: nat)
    decreases high - low
  {
    if low >= high then after == pushed && nearest == start
    else
      var above := low + 1;
      exists mid, at ::
        && LinksDown(rules, pushed, mid, slot, above, high, start, at)
        && LayerStep(rules, mid, after, slot, low, at, nearest)
  }

  lemma LinksNext(
    rules: Settings, pushed: seq<Node>, mid: seq<Node>, after: seq<Node>, slot: nat, low: nat, high: nat, start: nat,
    at: nat, nearest: nat, above: nat)
    requires above == low + 1 && low < high && LinksDown(rules, pushed, mid, slot, above, high, start, at)
    requires LayerStep(rules, mid, after, slot, low, at, nearest)
    ensures LinksDown(rules, pushed, after, slot, low, high, start, nearest)
  {
  }

  ghost predicate LinksAll(
    rules: Settings, pushed: seq<Node>, after: seq<Node>, slot: nat, high: nat, start: nat) {
    exists last :: LinksDown(rules, pushed, after, slot, 0, high, start, last)
  }

  /** An insertion: the first node is the entry; any other is linked on each layer it shares with the graph. */
  ghost predicate Inserts(rules: Settings, before: State, after: State, id: nat, vector: Vector, level: nat) {
    var slot := |before.nodes|;
    match before.entry
    case None => after == State([Node(id, vector, Layers(level + 1))], Some(0), level)
    case Some(entry) =>
      && after.topLevel == Max(level, before.topLevel)
      && after.entry == Some(if level > before.topLevel then slot else entry)
      && InsertsOne(rules, before, after.nodes, id, vector, level)
  }

  ghost predicate InsertsOne(
    rules: Settings, before: State, after: seq<Node>, id: nat, vector: Vector, level: nat)
    requires before.entry.Some?
  {
    exists start :: InsertsVia(rules, before, after, id, vector, level, start)
  }

  ghost predicate InsertsVia(
    rules: Settings, before: State, after: seq<Node>, id: nat, vector: Vector, level: nat, start: nat)
    requires before.entry.Some?
  {
    var slot, shared := |before.nodes|, Min(level, before.topLevel);
    && DescendsTo(before.nodes, rules.distance, vector, before.entry.value, before.topLevel, shared, start)
    && LinksAll(rules, before.nodes + [Node(id, vector, Layers(level + 1))], after, slot, shared + 1, start)
  }

  /** The first `n` points inserted in turn, each at the level its identity draws. */
  ghost predicate BuiltBy(rules: Settings, points: seq<(nat, Vector)>, level: nat -> nat, n: nat, g: State) {
    n <= |points| && exists history :: BuildHistory(rules, points, level, n, g, history)
  }

  /** The states of a build: empty at first, `g` at last, and each the one before with its point inserted. */
  ghost predicate BuildHistory(
    rules: Settings, points: seq<(nat, Vector)>, level: nat -> nat, n: nat, g: State, history: seq<State>)
    requires n <= |points|
  {
    && |history| == n + 1 && history[0] == State([], None, 0) && history[n] == g
    && forall k :: 0 <= k < n ==> InsertsPoint(rules, points, level, history, k)
  }

  ghost predicate InsertsPoint(
    rules: Settings, points: seq<(nat, Vector)>, level: nat -> nat, history: seq<State>, k: nat)
    requires k < |points| && k + 1 < |history|
  {
    Inserts(rules, history[k], history[k + 1], points[k].0, points[k].1, level(points[k].0))
  }

  lemma BuiltNext(
    rules: Settings, points: seq<(nat, Vector)>, level: nat -> nat, n: nat, next: nat, before: State, g: State)
    requires next == n + 1 && next <= |points| && BuiltBy(rules, points, level, n, before)
    requires Inserts(rules, before, g, points[n].0, points[n].1, level(points[n].0))
    ensures BuiltBy(rules, points, level, next, g)
  {
    var history :| BuildHistory(rules, points, level, n, before, history);
    var longer := history + [g];
    forall k | 0 <= k < next
      ensures InsertsPoint(rules, points, level, longer, k)
    {
      assert k < n ==> InsertsPoint(rules, points, level, history, k);
    }
    assert BuildHistory(rules, points, level, next, g, longer);
  }

  ghost predicate LevelsKept(before: seq<Node>, after: seq<Node>) {
    |before| <= |after| && forall i :: 0 <= i < |before| ==> |after[i].links| == |before[i].links|
  }

  /** Every node has the layers its identity draws. */
  ghost predicate LevelsDrawn(nodes: seq<Node>, level: nat -> nat) {
    forall i :: 0 <= i < |nodes| ==> |nodes[i].links| == level(nodes[i].id) + 1
  }

  /** No node stands above the top level. */
  ghost predicate LevelsUpTo(nodes: seq<Node>, top: nat) {
    forall i :: 0 <= i < |nodes| ==> 0 < |nodes[i].links| <= top + 1
  }

  lemma PushedShape(before: seq<Node>, node: Node, after: seq<Node>, top: nat, level: nat)
    requires SameShape(before + [node], after) && LevelsUpTo(before, top) && |node.links| == level + 1
    ensures Points(after) == Points(before) + [(node.id, node.vector)] && LevelsKept(before, after)
    ensures |after[|before|].links| == level + 1 && LevelsUpTo(after, Max(level, top))
  {
    PointsPushed(before, node);
    PointsShape(before + [node], after);
    assert (before + [node])[|before|] == node;
    assert forall i :: 0 <= i < |before| ==> (before + [node])[i] == before[i];
  }

  /** Whatever the slot links to links back to it, or has no room: 2m links on the bottom layer, m above. */
  ghost predicate LinksAnswered(nodes: seq<Node>, m: nat, slot: nat) {
    slot < |nodes| && forall l, t :: 0 <= l < |nodes[slot].links| && t in nodes[slot].links[l] ==>
      OnLayer(nodes, l, t) && (slot in nodes[t].links[l] || |nodes[t].links[l]| == Degree(m, l))
  }

  lemma NewAnswered(nodes: seq<Node>, m: nat, slot: nat)
    requires Mutual(nodes, m) && slot < |nodes|
    ensures LinksAnswered(nodes, m, slot)
  {
    forall l, t | 0 <= l < |nodes[slot].links| && t in nodes[slot].links[l]
      ensures OnLayer(nodes, l, t) && (slot in nodes[t].links[l] || |nodes[t].links[l]| == Degree(m, l))
    {
      assert Answers(nodes, m, l, slot, t);
    }
  }

  /** A search cannot find more results than there are nodes. */
  lemma FoundFew(nodes: seq<Node>, p: Probe, visited: set<nat>)
    requires Explored(nodes, p, visited)
    ensures |BestOf(Pool(nodes, p, visited), p.ef)| <= |nodes|
  {
    HitsFew(nodes, p, visited, |nodes|);
  }

  lemma {:induction false} HitsFew(nodes: seq<Node>, p: Probe, visited: set<nat>, n: nat)
    requires n <= |nodes|
    ensures |set s | s in visited && s < n && p.eligible(nodes[s].id) :: Hit(nodes, p, s)| <= n
  {
    if n > 0 {
      var k := n - 1;
      HitsFew(nodes, p, visited, k);
      var before := set s | s in visited && s < k && p.eligible(nodes[s].id) :: Hit(nodes, p, s);
      var after := set s | s in visited && s < n && p.eligible(nodes[s].id) :: Hit(nodes, p, s);
      SubsetSize(after, before + {Hit(nodes, p, k)});
    }
  }

  /** The slot's links on a layer were chosen from an answer of a search over the graph as it then stood. */
  ghost predicate ChosenOn(nodes: seq<Node>, distance: Distance, efConstruction: nat, m: nat, slot: nat, layer: nat) {
    OnLayer(nodes, layer, slot) && exists stage, start :: ChosenAt(nodes, distance, efConstruction, m, slot, layer,
                                                                   stage, start)
  }

  ghost predicate ChosenAt(
    nodes: seq<Node>, distance: Distance, efConstruction: nat, m: nat, slot: nat, layer: nat, stage: seq<Node>,
    start: nat)
    requires OnLayer(nodes, layer, slot)
  {
    && SameShape(stage, nodes) && OnLayer(stage, layer, start)
    && LinkedTo(stage, ProbeFor(stage, distance, efConstruction, slot, layer, start), m, nodes[slot].links[layer])
  }

  ghost predicate ChosenFromUp(nodes: seq<Node>, distance: Distance, efConstruction: nat, m: nat, slot: nat, low: nat,
    high: nat) {
    forall l :: low <= l < high ==> ChosenOn(nodes, distance, efConstruction, m, slot, l)
  }

  lemma ChosenKept(before: seq<Node>, after: seq<Node>, distance: Distance, efConstruction: nat, m: nat, slot: nat,
    layer: nat)
    requires ChosenOn(before, distance, efConstruction, m, slot, layer) && SameShape(before, after)
    requires after[slot].links[layer] == before[slot].links[layer]
    ensures ChosenOn(after, distance, efConstruction, m, slot, layer)
  {
    var stage, start :| ChosenAt(before, distance, efConstruction, m, slot, layer, stage, start);
    assert ChosenAt(after, distance, efConstruction, m, slot, layer, stage, start);
  }

  /** Linking one more layer keeps the choices made above it. */
  lemma ChosenNext(
    before: seq<Node>, after: seq<Node>, distance: Distance, efConstruction: nat, m: nat, slot: nat, layer: nat,
    high: nat, start: nat)
    requires SameShape(before, after) && slot < |before| && layer < |before[slot].links|
             && OnLayer(before, layer, start)
    requires ChosenFromUp(before, distance, efConstruction, m, slot, layer + 1, high)
    requires LinkedTo(before, ProbeFor(before, distance, efConstruction, slot, layer, start), m,
                      after[slot].links[layer])
    requires forall l :: 0 <= l < |after[slot].links| && l != layer ==> after[slot].links[l] == before[slot].links[l]
    ensures ChosenFromUp(after, distance, efConstruction, m, slot, layer, high)
  {
    assert ChosenAt(after, distance, efConstruction, m, slot, layer, before, start);
    forall l | layer < l < high
      ensures ChosenOn(after, distance, efConstruction, m, slot, l)
    {
      ChosenKept(before, after, distance, efConstruction, m, slot, l);
    }
  }

  /** The links are those chosen from an answer of the search. */
  ghost predicate LinkedTo(nodes: seq<Node>, p: Probe, m: nat, links: seq<nat>) {
    exists found :: Answer(nodes, p, found) && ChosenFrom(nodes, p, m, found, links)
  }

  ghost predicate ChosenFrom(nodes: seq<Node>, p: Probe, m: nat, found: seq<Ranked>, links: seq<nat>) {
    AllNodes(nodes, found) && links == Slots(Chosen(nodes, p.distance, found, m))
  }

  /** What a search from `start` finds never includes a slot nobody links to. */
  lemma FoundAre(nodes: seq<Node>, p: Probe, found: seq<Ranked>, slot: nat)
    requires Answer(nodes, p, found) && slot != p.entry && AbsentBelow(nodes, slot, p.layer + 1)
    ensures AllNodes(nodes, found) && DistinctSlots(found)
            && (p.ef > 0 && p.entry < |nodes| && p.eligible(nodes[p.entry].id) ==> found != [])
    ensures forall i :: 0 <= i < |found| ==> Target(nodes, slot, p.layer, found[i].slot)
  {
    AnswerIs(nodes, p, found);
    AbsentUnreached(nodes, slot, p.layer, p.entry);
    forall i | 0 <= i < |found|
      ensures Target(nodes, slot, p.layer, found[i].slot)
    {
      assert IsResult(nodes, p, found[i]);
    }
  }

  lemma ChosenWired(nodes: seq<Node>, m: nat, p: Probe, slot: nat, found: seq<Ranked>)
    requires AllNodes(nodes, found) && DistinctSlots(found)
    requires forall i :: 0 <= i < |found| ==> Target(nodes, slot, p.layer, found[i].slot)
    ensures var links := Slots(Chosen(nodes, p.distance, found, m));
            Wired(nodes, slot, p.layer, links, Degree(m, p.layer)) && |links| == Min(m, |found|)
  {
    ChosenAre(nodes, p.distance, found, m);
    var hits := Chosen(nodes, p.distance, found, m);
    forall j | 0 <= j < |hits|
      ensures Target(nodes, slot, p.layer, hits[j].slot)
    {
      assert hits[j] in hits && hits[j] in found;
    }
  }

  /** The node has links on each layer from `low` up to `high`. */
  ghost predicate LinkedFrom(node: Node, low: nat, high: nat) {
    forall l :: low <= l < high && l < |node.links| ==> node.links[l] != []
  }

  lemma LinkedNext(before: Node, after: Node, layer: nat, above: nat, high: nat)
    requires above == layer + 1 && LinkedFrom(before, above, high) && |after.links| == |before.links|
    requires layer < |after.links| && after.links[layer] != []
    requires forall l :: 0 <= l < |after.links| && l != layer ==> after.links[l] == before.links[l]
    ensures LinkedFrom(after, layer, high)
  {
  }

  lemma PushedAbsent(nodes: seq<Node>, m: nat, node: Node)
    requires Linked(nodes, m) && forall l :: 0 <= l < |node.links| ==> node.links[l] == []
    ensures forall layer: nat :: AbsentBelow(nodes + [node], |nodes|, layer)
  {
    forall i, l | 0 <= i < |nodes| && 0 <= l < |nodes[i].links|
      ensures |nodes| !in nodes[i].links[l]
    {
      var list := nodes[i].links[l];
      assert Wired(nodes, i, l, list, Degree(m, l));
      assert forall j :: 0 <= j < |list| ==> Target(nodes, i, l, list[j]);
    }
  }

  /** The indexed identities and vectors, in slot order. */
  ghost function Points(nodes: seq<Node>): seq<(nat, Vector)> {
    seq(|nodes|, i requires 0 <= i < |nodes| => (nodes[i].id, nodes[i].vector))
  }

  lemma PointsPushed(nodes: seq<Node>, node: Node)
    ensures Points(nodes + [node]) == Points(nodes) + [(node.id, node.vector)]
  {
  }

  lemma PointsShape(a: seq<Node>, b: seq<Node>)
    requires SameShape(a, b)
    ensures Points(a) == Points(b)
  {
  }

  // ----- building

  /** No identity twice, and few enough. */
  ghost predicate Buildable(points: seq<(nat, Vector)>, maxVectors: nat) {
    |points| <= maxVectors && forall i, j :: 0 <= i < j < |points| ==> points[i].0 != points[j].0
  }

  /** The map holds exactly these vectors, one per identity. */
  ghost predicate Collected(points: seq<(nat, Vector)>, ordered: map<nat, Vector>) {
    && |ordered| == |points|
    && (forall i :: 0 <= i < |points| ==> points[i].0 in ordered && ordered[points[i].0] == points[i].1)
    && (forall id :: id in ordered ==> exists i :: 0 <= i < |points| && points[i].0 == id)
  }

  lemma CollectNext(front: seq<(nat, Vector)>, point: (nat, Vector), maxVectors: nat, ordered: map<nat, Vector>)
    requires Buildable(front, maxVectors) && Collected(front, ordered) && point.0 !in ordered && |front| < maxVectors
    ensures Buildable(front + [point], maxVectors) && Collected(front + [point], ordered[point.0 := point.1])
  {
    var after, grown := front + [point], ordered[point.0 := point.1];
    forall id | id in grown
      ensures exists i :: 0 <= i < |after| && after[i].0 == id
    {
      if id in ordered {
        var i :| 0 <= i < |front| && front[i].0 == id;
        assert after[i].0 == id;
      } else {
        assert after[|front|].0 == id;
      }
    }
  }

  /** The vectors by identity, unless one comes twice or there are too many. */
  method Collect(points: seq<(nat, Vector)>, maxVectors: nat) returns (r: Result<map<nat, Vector>, HnswError>)
    ensures r.Ok? <==> Buildable(points, maxVectors)
    ensures r.Ok? ==> Collected(points, r.value)
    ensures r.Err? ==> BuildRefused(points, maxVectors, r.error)
  {
    var ordered: map<nat, Vector> := map[];
    for n := 0 to |points|
      invariant Buildable(points[..n], maxVectors) && Collected(points[..n], ordered)
    {
      var id := points[n].0;
      if id in ordered {
        var i :| 0 <= i < n && points[..n][i].0 == id;
        assert points[i].0 == points[n].0 == id;
        return Err(DuplicateVertex(id));
      }
      if |ordered| == maxVectors {
        return Err(TooManyVectors);
      }
      TakeNext(points, n, n + 1);
      CollectNext(points[..n], points[n], maxVectors, ordered);
      ordered := ordered[id := points[n].1];
    }
    assert points[..|points|] == points;
    r := Ok(ordered);
  }

  ghost predicate BuildRefused(points: seq<(nat, Vector)>, maxVectors: nat, error: HnswError) {
    match error
    case DuplicateVertex(id) => exists i, j :: 0 <= i < j < |points| && points[i].0 == points[j].0 == id
    case TooManyVectors => |points| > maxVectors
    case InvalidQuery => false
  }

  /** The map's entries in identity order. */
  ghost function InOrderOf(ordered: map<nat, Vector>, ids: seq<nat>): seq<(nat, Vector)>
    requires forall id :: id in ids ==> id in ordered
  {
    seq(|ids|, i requires 0 <= i < |ids| => (assert ids[i] in ids; (ids[i], ordered[ids[i]])))
  }

  /** Builds a graph over the vectors in identity order, each at the level its identity draws. */
  method Build(
    points: seq<(nat, Vector)>, maxVectors: nat, m: nat, efConstruction: nat, distance: Distance, level: nat -> nat)
    returns (r: Result<Graph, HnswError>)
    ensures r.Ok? <==> Buildable(points, maxVectors)
    ensures r.Err? ==> BuildRefused(points, maxVectors, r.error)
    ensures r.Ok? ==> fresh(r.value) && r.value.Valid() && r.value.Rules() == Settings(m, efConstruction, distance)
    ensures r.Ok? ==> Indexes(r.value.nodes, points) && LevelsDrawn(r.value.nodes, level)
    ensures r.Ok? ==> BuiltBy(r.value.Rules(), Points(r.value.nodes), level, |r.value.nodes|, r.value.Now())
    ensures r.Ok? ==> Mutual(r.value.nodes, m) && DegreesWithin(r.value.nodes, m)
  {
    var collected := Collect(points, maxVectors);
    if collected.Err? {
      return Err(collected.error);
    }
    var ordered := collected.value;
    var ids := Ascending(ordered.Keys);
    ghost var all := InOrderOf(ordered, ids);
    var graph := BuildListed(ordered, ids, m, efConstruction, distance, level, all);
    ListedIndexes(graph.nodes, points, ordered, ids);
    LinkedDegrees(graph.nodes, m);
    r := Ok(graph);
  }

  /** The nodes are the points, in identity order. */
  ghost predicate Indexes(nodes: seq<Node>, points: seq<(nat, Vector)>) {
    && |nodes| == |points|
    && (forall i, j :: 0 <= i < j < |nodes| ==> nodes[i].id < nodes[j].id)
    && (forall i :: 0 <= i < |nodes| ==> (nodes[i].id, nodes[i].vector) in points)
    && (forall i :: 0 <= i < |points| ==> points[i] in Points(nodes))
  }

  /** At most twice `m` links on the bottom layer and `m` on each above. */
  ghost predicate DegreesWithin(nodes: seq<Node>, m: nat) {
    forall i, l :: 0 <= i < |nodes| && 0 <= l < |nodes[i].links| ==>
      |nodes[i].links[l]| <= if l == 0 then 2 * m else m
  }

  lemma LinkedDegrees(nodes: seq<Node>, m: nat)
    requires Linked(nodes, m)
    ensures DegreesWithin(nodes, m)
  {
    forall i, l | 0 <= i < |nodes| && 0 <= l < |nodes[i].links|
      ensures |nodes[i].links[l]| <= if l == 0 then 2 * m else m
    {
      assert Wired(nodes, i, l, nodes[i].links[l], Degree(m, l));
    }
  }

  method BuildListed(
    ordered: map<nat, Vector>, ids: seq<nat>, m: nat, efConstruction: nat, distance: Distance, level: nat -> nat,
    ghost all: seq<(nat, Vector)>)
    returns (graph: Graph)
    requires |all| == |ids| && forall i :: 0 <= i < |ids| ==> ids[i] in ordered && all[i] == (ids[i], ordered[ids[i]])
    ensures fresh(graph) && graph.Valid() && graph.Rules() == Settings(m, efConstruction, distance)
    ensures Points(graph.nodes) == all && LevelsDrawn(graph.nodes, level)
    ensures BuiltBy(graph.Rules(), all, level, |ids|, graph.Now())
  {
    graph := new Graph(m, efConstruction, distance);
    assert BuildHistory(graph.Rules(), all, level, 0, graph.Now(), [graph.Now()]);
    TakeAll(all, |ids|);
    for i := 0 to |ids|
      invariant fresh(graph) && graph.Valid() && graph.Rules() == Settings(m, efConstruction, distance)
      invariant Points(graph.nodes) == all[..i] && LevelsDrawn(graph.nodes, level)
      invariant BuiltBy(graph.Rules(), all, level, i, graph.Now())
    {
      graph.InsertPoint(ids[i], ordered[ids[i]], level, all, i, i + 1);
    }
  }

  lemma PushedLevels(before: seq<Node>, after: seq<Node>, id: nat, vector: Vector, level: nat -> nat)
    requires LevelsDrawn(before, level) && LevelsKept(before, after)
    requires Points(after) == Points(before) + [(id, vector)] && |after[|after| - 1].links| == level(id) + 1
    ensures LevelsDrawn(after, level)
  {
    forall i | 0 <= i < |after|
      ensures |after[i].links| == level(after[i].id) + 1
    {
      assert Points(after)[i].0 == after[i].id;
      assert i < |before| ==> Points(before)[i].0 == before[i].id;
    }
  }

  lemma ListedIndexes(nodes: seq<Node>, points: seq<(nat, Vector)>, ordered: map<nat, Vector>, ids: seq<nat>)
    requires StrictlyAscending(ids) && forall id :: id in ids <==> id in ordered
    requires |ids| == |points| && Collected(points, ordered) && Points(nodes) == InOrderOf(ordered, ids)
    ensures Indexes(nodes, points)
  {
    var all := Points(nodes);
    forall i | 0 <= i < |nodes|
      ensures nodes[i].id == ids[i] && (nodes[i].id, nodes[i].vector) in points
    {
      assert all[i] == (nodes[i].id, nodes[i].vector) && ids[i] in ids;
      var k :| 0 <= k < |points| && points[k].0 == ids[i];
      assert points[k] == all[i];
    }
    forall i | 0 <= i < |points|
      ensures points[i] in all
    {
      assert points[i].0 in ids;
      var k :| 0 <= k < |ids| && ids[k] == points[i].0;
      assert all[k] == points[i];
    }
  }
}
