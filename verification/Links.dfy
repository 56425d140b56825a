/** HNSW nodes and their links: every list stays in range, on its layer, duplicate-free and bounded. */
module Links {
  import opened Words
  import opened Ordered

  datatype Node = Node(id: nat, vector: Vector, links: seq<seq<nat>>)

  /** Twice as many links are kept on the bottom layer. */
  function Degree(m: nat, layer: nat): nat {
    if layer == 0 then 2 * m else m
  }

  /** `t` is another node that has `layer`. */
  predicate Target(nodes: seq<Node>, i: nat, layer: nat, t: nat) {
    t < |nodes| && t != i && layer < |nodes[t].links|
  }

  /** A list of links that node `i` may hold on `layer`. */
  ghost predicate Wired(nodes: seq<Node>, i: nat, layer: nat, list: seq<nat>, limit: nat) {
    && |list| <= limit
    && Distinct(list)
    && (forall j :: 0 <= j < |list| ==> Target(nodes, i, layer, list[j]))
  }

  ghost predicate Linked(nodes: seq<Node>, m: nat) {
    forall i, layer :: 0 <= i < |nodes| && 0 <= layer < |nodes[i].links| ==>
      Wired(nodes, i, layer, nodes[i].links[layer], Degree(m, layer))
  }

  /** Same nodes and layers, whatever the links. */
  ghost predicate SameShape(a: seq<Node>, b: seq<Node>) {
    && |a| == |b|
    && (forall i :: 0 <= i < |a| ==> a[i].id == b[i].id && a[i].vector == b[i].vector && |a[i].links| == |b[i].links|)
  }

  lemma ShapeNext(a: seq<Node>, b: seq<Node>, c: seq<Node>)
    requires SameShape(a, b) && SameShape(b, c)
    ensures SameShape(a, c)
  {
  }

  function WithLinks(nodes: seq<Node>, i: nat, layer: nat, list: seq<nat>): seq<Node>
    requires i < |nodes| && layer < |nodes[i].links|
  {
    nodes[i := nodes[i].(links := nodes[i].links[layer := list])]
  }

  lemma WithLinksLinked(nodes: seq<Node>, m: nat, i: nat, layer: nat, list: seq<nat>)
    requires Linked(nodes, m) && i < |nodes| && layer < |nodes[i].links|
    requires Wired(nodes, i, layer, list, Degree(m, layer))
    ensures Linked(WithLinks(nodes, i, layer, list), m) && SameShape(nodes, WithLinks(nodes, i, layer, list))
  {
    var after := WithLinks(nodes, i, layer, list);
    forall k, l | 0 <= k < |after| && 0 <= l < |after[k].links|
      ensures Wired(after, k, l, after[k].links[l], Degree(m, l))
    {
      if k != i || l != layer {
        assert Wired(nodes, k, l, nodes[k].links[l], Degree(m, l));
      }
      assert forall j :: 0 <= j < |after[k].links[l]| ==> Target(nodes, k, l, after[k].links[l][j]);
    }
  }

  function Layers(n: nat): seq<seq<nat>> {
    seq(n, _ => [])
  }

  lemma PushedLinked(nodes: seq<Node>, m: nat, id: nat, vector: Vector, level: nat)
    requires Linked(nodes, m)
    ensures Linked(nodes + [Node(id, vector, Layers(level + 1))], m)
  {
    var after := nodes + [Node(id, vector, Layers(level + 1))];
    forall k, l | 0 <= k < |after| && 0 <= l < |after[k].links|
      ensures Wired(after, k, l, after[k].links[l], Degree(m, l))
    {
      if k < |nodes| {
        assert Wired(nodes, k, l, nodes[k].links[l], Degree(m, l));
        assert forall j :: 0 <= j < |nodes[k].links[l]| ==> Target(nodes, k, l, nodes[k].links[l][j]);
      }
    }
  }

  predicate OnLayer(nodes: seq<Node>, layer: nat, slot: nat) {
    slot < |nodes| && layer < |nodes[slot].links|
  }

  // ----- paths

  /** A link on the layer leads from the `k`th node of the path to the next. */
  ghost predicate Step(nodes: seq<Node>, layer: nat, path: seq<nat>, k: nat)
    requires k + 1 < |path|
  {
    OnLayer(nodes, layer, path[k]) && path[k + 1] in nodes[path[k]].links[layer]
  }

  ghost predicate PathTo(nodes: seq<Node>, layer: nat, entry: nat, slot: nat, path: seq<nat>) {
    && path != [] && path[0] == entry && path[|path| - 1] == slot
    && (forall k :: 0 <= k < |path| - 1 ==> Step(nodes, layer, path, k))
  }

  /** A path of links on the layer leads from `entry` to `slot`. */
  ghost predicate Reached(nodes: seq<Node>, layer: nat, entry: nat, slot: nat) {
    exists path :: PathTo(nodes, layer, entry, slot, path)
  }

  lemma EntryReached(nodes: seq<Node>, layer: nat, entry: nat)
    ensures Reached(nodes, layer, entry, entry)
  {
    assert PathTo(nodes, layer, entry, entry, [entry]);
  }

  lemma ReachedNext(nodes: seq<Node>, layer: nat, entry: nat, slot: nat, next: nat)
    requires Reached(nodes, layer, entry, slot) && OnLayer(nodes, layer, slot) && next in nodes[slot].links[layer]
    ensures Reached(nodes, layer, entry, next)
  {
    var path :| PathTo(nodes, layer, entry, slot, path);
    var longer := path + [next];
    forall k | 0 <= k < |longer| - 1
      ensures Step(nodes, layer, longer, k)
    {
      assert k < |path| - 1 ==> Step(nodes, layer, path, k);
    }
    assert PathTo(nodes, layer, entry, next, longer);
  }

  /** No list below `layer` mentions the slot. */
  ghost predicate AbsentBelow(nodes: seq<Node>, slot: nat, layer: nat) {
    forall i, l :: 0 <= i < |nodes| && 0 <= l < |nodes[i].links| && l < layer ==> slot !in nodes[i].links[l]
  }

  /** A slot nobody links to on the layer is reached from itself alone. */
  lemma AbsentUnreached(nodes: seq<Node>, slot: nat, layer: nat, entry: nat)
    requires entry != slot && AbsentBelow(nodes, slot, layer + 1)
    ensures !Reached(nodes, layer, entry, slot)
  {
    forall path
      ensures !PathTo(nodes, layer, entry, slot, path)
    {
      if path != [] && path[0] == entry && path[|path| - 1] == slot {
        assert !Step(nodes, layer, path, |path| - 2);
      }
    }
  }
}
