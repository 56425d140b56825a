/** Ascending and duplicate-free lists, and the listing of a finite set that a `BTreeMap` yields. */
module Ordered {
  lemma {:induction false} LeastExists(s: set<nat>) returns (m: nat)
    requires s != {}
    ensures m in s && forall x | x in s :: m <= x
    decreases s
  {
    var y :| y in s;
    if s == {y} {
      m := y;
    } else {
      var rest := s - {y};
      assert s == rest + {y};
      var m' := LeastExists(rest);
      m := if y < m' then y else m';
    }
  }

  function Least(s: set<nat>): (m: nat)
    requires s != {}
    ensures m in s && forall x | x in s :: m <= x
  {
    assert exists m :: m in s && forall x | x in s :: m <= x by {
      var m := LeastExists(s);
    }
    var m :| m in s && forall x | x in s :: m <= x;
    m
  }

  ghost predicate StrictlyAscending(q: seq<int>) {
    forall i, j :: 0 <= i < j < |q| ==> q[i] < q[j]
  }

  ghost predicate Distinct<T>(list: seq<T>) {
    forall i, j :: 0 <= i < j < |list| ==> list[i] != list[j]
  }

  ghost function Members<T>(list: seq<T>): set<T> {
    set x | x in list
  }

  /** A list without repeats has as many members as entries. */
  lemma {:induction false} DistinctSize<T>(list: seq<T>)
    requires Distinct(list)
    ensures |Members(list)| == |list|
  {
    if list != [] {
      var front, last := list[..|list| - 1], list[|list| - 1];
      DistinctSize(front);
      assert last !in Members(front);
      assert Members(list) == Members(front) + {last};
    }
  }

  /** `q` lists the members of `s`, each once, in ascending order. */
  ghost predicate Lists(q: seq<nat>, s: set<nat>) {
    (forall x :: x in q <==> x in s) && StrictlyAscending(q) && |q| == |s|
  }

  lemma ListsNext(s: set<nat>, m: nat, rest: seq<nat>)
    requires m in s && (forall x | x in s :: m <= x) && Lists(rest, s - {m})
    ensures Lists([m] + rest, s)
  {
    var q := [m] + rest;
    assert forall x :: x in q <==> x == m || x in rest;
    assert forall i :: 0 <= i < |rest| ==> rest[i] in s - {m};
  }

  function Ascending(s: set<nat>): (q: seq<nat>)
    ensures Lists(q, s)
    decreases s
  {
    if s == {} then []
    else
      var m := Least(s);
      var rest := Ascending(s - {m});
      ListsNext(s, m, rest);
      [m] + rest
  }

  lemma TakeAll<T>(list: seq<T>, n: nat)
    requires n == |list|
    ensures list[..n] == list
  {
  }

  lemma TakeNext<T>(list: seq<T>, n: nat, next: nat)
    requires next == n + 1 && next <= |list|
    ensures list[..next] == list[..n] + [list[n]]
  {
  }
}
