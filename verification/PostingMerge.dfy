/** Any-term retrieval: a k-way merge of postings that ranks what a scan of the segment would. */
module PostingMerge {
  import opened Words
  import opened Analysis
  import opened Corpus
  import opened Ranking
  import opened Pools
  import opened TextSearch
  import opened Ordered

  /** Term weights and rounded addition, both left abstract. */
  datatype Scoring = Scoring(weight: (nat, nat, nat, nat, nat) -> real, plus: (real, real) -> real)

  function Weight(scoring: Scoring, stats: Stats, term: Term, length: nat, frequency: nat): real {
    scoring.weight(stats.documents, Count(stats.frequencies, term), stats.totalLength, length, frequency)
  }

  function Plus(scoring: Scoring, a: real, b: real): real {
    scoring.plus(a, b)
  }

  /** The weights of the query terms a posted document has, added in query order. */
  ghost function PostedScore(scoring: Scoring, stats: Stats, terms: seq<Term>, seg: TextSegment, id: nat, n: nat): real
    requires n <= |terms| && id in seg.lengths
  {
    if n == 0 then 0.0 else
    var before := PostedScore(scoring, stats, terms, seg, id, n - 1);
    if Has(seg, terms[n - 1], id)
    then Plus(scoring, before, Weight(scoring, stats, terms[n - 1], seg.lengths[id], |Posting(seg, terms[n - 1], id)|))
    else before
  }

  ghost predicate PostedMatch(terms: seq<Term>, seg: TextSegment, id: nat) {
    exists i :: 0 <= i < |terms| && Has(seg, terms[i], id)
  }

  /** What a scan of the segment would find. */
  ghost function SegmentScan(scoring: Scoring, stats: Stats, terms: seq<Term>, seg: TextSegment, visible: nat -> bool):
    (costs: map<nat, real>)
  {
    map id | id in seg.lengths && visible(id) && PostedMatch(terms, seg, id) ::
      -PostedScore(scoring, stats, terms, seg, id, |terms|)
  }

  // ----- cursors over ascending posting lists

  /** Every cursor stands at the first posting not below `bound`. */
  ghost predicate At(ids: seq<seq<nat>>, cursors: seq<nat>, bound: nat) {
    && |cursors| == |ids|
    && forall i :: 0 <= i < |ids| ==> CursorAt(ids[i], cursors[i], bound)
  }

  ghost predicate CursorAt(list: seq<nat>, cursor: nat, bound: nat) {
    && cursor <= |list|
    && (forall j :: 0 <= j < cursor ==> list[j] < bound)
    && (forall j :: cursor <= j < |list| ==> list[j] >= bound)
  }

  /** No posting lies between `bound` and `id`. */
  ghost predicate Gap(ids: seq<seq<nat>>, bound: nat, id: nat) {
    forall i, j :: 0 <= i < |ids| && 0 <= j < |ids[i]| ==> ids[i][j] < bound || ids[i][j] >= id
  }

  ghost predicate InStreams(ids: seq<seq<nat>>, id: nat) {
    exists i :: 0 <= i < |ids| && id in ids[i]
  }

  /** Every posting lies below `bound`. */
  ghost predicate Exhausted(ids: seq<seq<nat>>, bound: nat) {
    forall i, j :: 0 <= i < |ids| && 0 <= j < |ids[i]| ==> ids[i][j] < bound
  }

  /** The least identity under any cursor. */
  method LeastHead(ids: seq<seq<nat>>, cursors: seq<nat>, ghost bound: nat) returns (least: Option<nat>)
    requires At(ids, cursors, bound) && forall i :: 0 <= i < |ids| ==> StrictlyAscending(ids[i])
    ensures least.None? ==> Exhausted(ids, bound)
    ensures least.Some? ==> least.value >= bound && InStreams(ids, least.value) && Gap(ids, bound, least.value)
  {
    least := None;
    for k := 0 to |ids|
      invariant least.None? ==> forall i, j :: 0 <= i < k && 0 <= j < |ids[i]| ==> ids[i][j] < bound
      invariant least.Some? ==> least.value >= bound && exists i :: 0 <= i < k && least.value in ids[i]
      invariant least.Some? ==>
                  forall i, j :: 0 <= i < k && 0 <= j < |ids[i]| ==> ids[i][j] < bound || ids[i][j] >= least.value
    {
      assert CursorAt(ids[k], cursors[k], bound) && StrictlyAscending(ids[k]);
      if cursors[k] < |ids[k]| {
        var head := ids[k][cursors[k]];
        assert head in ids[k];
        if least.None? || head < least.value {
          least := Some(head);
        }
      }
    }
  }

  // ----- the merge

  /** The posting lists of the query terms that live documents have. */
  ghost predicate Streams(ids: seq<seq<nat>>, terms: seq<Term>, seg: TextSegment, stats: Stats) {
    && |ids| == |terms|
    && forall i :: 0 <= i < |terms| ==> Stream(ids[i], terms[i], seg, stats)
  }

  ghost predicate Stream(list: seq<nat>, term: Term, seg: TextSegment, stats: Stats) {
    && StrictlyAscending(list)
    && (forall id :: id in list <==> Has(seg, term, id) && Count(stats.frequencies, term) > 0)
  }

  /** A visible posting belongs to a counted document. */
  ghost predicate Counted(seg: TextSegment, stats: Stats, visible: nat -> bool) {
    && Sound(seg)
    && (forall t :: Count(stats.frequencies, t) <= stats.documents)
    && (forall t, id :: Has(seg, t, id) && visible(id) ==> Count(stats.frequencies, t) > 0 && stats.totalLength > 0)
  }

  method OpenStreams(terms: seq<Term>, seg: TextSegment, stats: Stats) returns (ids: Option<seq<seq<nat>>>)
    requires forall t :: Count(stats.frequencies, t) <= stats.documents
    ensures ids.Some? && Streams(ids.value, terms, seg, stats)
  {
    var streams: seq<seq<nat>> := [];
    for i := 0 to |terms|
      invariant |streams| == i && forall k :: 0 <= k < i ==> Stream(streams[k], terms[k], seg, stats)
    {
      var df := Count(stats.frequencies, terms[i]);
      if df > stats.documents {
        return None;
      }
      var list := if terms[i] in seg.postings && df != 0 then Ascending(seg.postings[terms[i]].Keys) else [];
      streams := streams + [list];
    }
    ids := Some(streams);
  }

  /** One cursor past `id`: it moves exactly when `id` is under it. */
  lemma CursorStep(list: seq<nat>, cursor: nat, bound: nat, id: nat)
    requires StrictlyAscending(list) && CursorAt(list, cursor, bound) && bound <= id
    requires forall j :: 0 <= j < |list| ==> list[j] < bound || list[j] >= id
    ensures id in list <==> cursor < |list| && list[cursor] == id
    ensures CursorAt(list, if cursor < |list| && list[cursor] == id then cursor + 1 else cursor, id + 1)
  {
  }

  /** Steps every stream past `id`, adding the weights of those that hold it. */
  method Advance(
    scoring: Scoring, stats: Stats, terms: seq<Term>, seg: TextSegment, ids: seq<seq<nat>>, cursors: seq<nat>, id: nat,
    shown: bool, ghost bound: nat) returns (score: real, next: seq<nat>)
    requires Streams(ids, terms, seg, stats) && At(ids, cursors, bound) && bound <= id && Gap(ids, bound, id)
    requires id in seg.lengths
    requires shown ==> forall i :: 0 <= i < |terms| && Has(seg, terms[i], id) ==> Count(stats.frequencies, terms[i]) > 0
    ensures At(ids, next, id + 1)
    ensures shown ==> score == PostedScore(scoring, stats, terms, seg, id, |terms|)
  {
    score, next := 0.0, [];
    for k := 0 to |ids|
      invariant |next| == k && forall i :: 0 <= i < k ==> CursorAt(ids[i], next[i], id + 1)
      invariant shown ==> score == PostedScore(scoring, stats, terms, seg, id, k)
    {
      assert Stream(ids[k], terms[k], seg, stats) && CursorAt(ids[k], cursors[k], bound);
      CursorStep(ids[k], cursors[k], bound, id);
      if cursors[k] < |ids[k]| && ids[k][cursors[k]] == id {
        next := next + [cursors[k] + 1];
        if shown {
          score := Plus(scoring, score, Weight(scoring, stats, terms[k], seg.lengths[id],
                                               |Posting(seg, terms[k], id)|));
        }
      } else {
        next := next + [cursors[k]];
      }
    }
  }

  ghost function Below(costs: map<nat, real>, bound: nat): map<nat, real> {
    map id | id in costs && id < bound :: costs[id]
  }

  /** Passing the least pending identity adds it to what has been scanned, if it is visible. */
  lemma BelowStep(costs: map<nat, real>, bound: nat, id: nat)
    requires bound <= id && forall i :: i in costs ==> i < bound || i >= id
    ensures id in costs ==> Below(costs, id + 1) == Below(costs, bound)[id := costs[id]]
    ensures id !in costs ==> Below(costs, id + 1) == Below(costs, bound)
  {
  }

  /** The scan's identities are exactly the visible ones in the streams. */
  lemma ScanInStreams(
    scoring: Scoring, stats: Stats, terms: seq<Term>, seg: TextSegment, visible: nat -> bool, ids: seq<seq<nat>>,
    id: nat)
    requires Counted(seg, stats, visible) && Streams(ids, terms, seg, stats)
    ensures id in SegmentScan(scoring, stats, terms, seg, visible) <==>
            visible(id) && exists i :: 0 <= i < |ids| && id in ids[i]
  {
    if id in SegmentScan(scoring, stats, terms, seg, visible) {
      var i :| 0 <= i < |terms| && Has(seg, terms[i], id);
      assert Stream(ids[i], terms[i], seg, stats);
      assert id in ids[i];
    }
    if i :| 0 <= i < |ids| && id in ids[i] {
      assert Stream(ids[i], terms[i], seg, stats);
      assert Has(seg, terms[i], id);
    }
  }

  ghost function Pending(ids: seq<seq<nat>>, bound: nat): set<nat> {
    set i, j | 0 <= i < |ids| && 0 <= j < |ids[i]| && ids[i][j] >= bound :: ids[i][j]
  }

  lemma BelowPool(pool: multiset<Ranked>, costs: map<nat, real>, bound: nat, id: nat)
    requires bound <= id && id in costs && forall i :: i in costs ==> i < bound || i >= id
    ensures pool + PoolOf(Below(costs, id + 1)) ==
            pool + PoolOf(Below(costs, bound)) + multiset{Ranked(costs[id], id, 0)}
  {
    BelowStep(costs, bound, id);
    PoolInsert(Below(costs, bound), id, costs[id]);
  }

  /** Offers a visible identity to the heap. */
  method Offer(best: BestHeap, id: nat, score: real, limit: nat, ghost pool: multiset<Ranked>,
    ghost costs: map<nat, real>, ghost bound: nat)
    requires best.items == BestOf(pool + PoolOf(Below(costs, bound)), limit)
    requires bound <= id && id in costs && costs[id] == -score
    requires forall i :: i in costs ==> i < bound || i >= id
    modifies best
    ensures best.items == BestOf(pool + PoolOf(Below(costs, id + 1)), limit)
  {
    BelowPool(pool, costs, bound, id);
    RetainBest(best, Ranked(-score, id, 0), limit, pool + PoolOf(Below(costs, bound)));
  }

  lemma PendingShrinks(ids: seq<seq<nat>>, bound: nat, id: nat)
    requires bound <= id && InStreams(ids, id)
    ensures Pending(ids, id + 1) < Pending(ids, bound)
  {
    var i :| 0 <= i < |ids| && id in ids[i];
    var j :| 0 <= j < |ids[i]| && ids[i][j] == id;
    assert id in Pending(ids, bound) && id !in Pending(ids, id + 1);
  }

  /** What a scan finds under `id`, in terms of the streams. */
  ghost predicate Described(
    scoring: Scoring, stats: Stats, terms: seq<Term>, seg: TextSegment, visible: nat -> bool, ids: seq<seq<nat>>,
    costs: map<nat, real>, id: nat) {
    && (InStreams(ids, id) ==> id in seg.lengths)
    && (id in costs <==> visible(id) && InStreams(ids, id))
    && (id in costs && id in seg.lengths ==> costs[id] == -PostedScore(scoring, stats, terms, seg, id, |terms|))
    && (visible(id) ==> forall i :: 0 <= i < |terms| && Has(seg, terms[i], id) ==>
        Count(stats.frequencies, terms[i]) > 0)
  }

  ghost predicate Describes(
    scoring: Scoring, stats: Stats, terms: seq<Term>, seg: TextSegment, visible: nat -> bool, ids: seq<seq<nat>>,
    costs: map<nat, real>) {
    forall id :: Described(scoring, stats, terms, seg, visible, ids, costs, id)
  }

  lemma ScanDescribed(
    scoring: Scoring, stats: Stats, terms: seq<Term>, seg: TextSegment, visible: nat -> bool, ids: seq<seq<nat>>)
    requires Counted(seg, stats, visible) && Streams(ids, terms, seg, stats)
    ensures Describes(scoring, stats, terms, seg, visible, ids, SegmentScan(scoring, stats, terms, seg, visible))
  {
    var costs := SegmentScan(scoring, stats, terms, seg, visible);
    forall id
      ensures Described(scoring, stats, terms, seg, visible, ids, costs, id)
    {
      ScanInStreams(scoring, stats, terms, seg, visible, ids, id);
      if i :| 0 <= i < |ids| && id in ids[i] {
        assert Stream(ids[i], terms[i], seg, stats);
        assert Has(seg, terms[i], id);
      }
    }
  }

  /** One identity of the merge: every stream steps past it, and it is offered if visible. */
  method MergeOne(
    scoring: Scoring, stats: Stats, terms: seq<Term>, seg: TextSegment, ids: seq<seq<nat>>, cursors: seq<nat>, id: nat,
    limit: nat, visible: nat -> bool, best: BestHeap, ghost pool: multiset<Ranked>, ghost costs: map<nat, real>,
    ghost bound: nat)
    returns (next: seq<nat>)
    requires Streams(ids, terms, seg, stats) && Described(scoring, stats, terms, seg, visible, ids, costs, id)
    requires At(ids, cursors, bound) && bound <= id && Gap(ids, bound, id) && InStreams(ids, id)
    requires forall i :: i in costs ==> i < bound || i >= id
    requires best.items == BestOf(pool + PoolOf(Below(costs, bound)), limit)
    modifies best
    ensures At(ids, next, id + 1)
    ensures best.items == BestOf(pool + PoolOf(Below(costs, id + 1)), limit)
  {
    var shown := visible(id);
    var score;
    score, next := Advance(scoring, stats, terms, seg, ids, cursors, id, shown, bound);
    if shown {
      Offer(best, id, score, limit, pool, costs, bound);
    } else {
      BelowStep(costs, bound, id);
    }
  }

  /** One round of the merge, which takes every stream past the least pending identity. */
  method MergeNext(
    scoring: Scoring, stats: Stats, terms: seq<Term>, seg: TextSegment, ids: seq<seq<nat>>, cursors: seq<nat>, id: nat,
    limit: nat,
    visible: nat -> bool, best: BestHeap, ghost pool: multiset<Ranked>, ghost costs: map<nat, real>, ghost bound: nat,
    ghost after: nat)
    returns (next: Result<seq<nat>, CorpusError>)
    requires Streams(ids, terms, seg, stats) && Describes(scoring, stats, terms, seg, visible, ids, costs)
    requires At(ids, cursors, bound) && bound <= id && after == id + 1 && Gap(ids, bound, id) && InStreams(ids, id)
    requires best.items == BestOf(pool + PoolOf(Below(costs, bound)), limit)
    modifies best
    ensures next.Ok? && At(ids, next.value, after) && Pending(ids, after) < Pending(ids, bound)
    ensures best.items == BestOf(pool + PoolOf(Below(costs, after)), limit)
  {
    PendingShrinks(ids, bound, id);
    GapInCosts(scoring, stats, terms, seg, visible, ids, costs, bound, id);
    assert Described(scoring, stats, terms, seg, visible, ids, costs, id);
    if id !in seg.lengths {
      return Err(MissingTerm);
    }
    var moved := MergeOne(scoring, stats, terms, seg, ids, cursors, id, limit, visible, best, pool, costs, bound);
    next := Ok(moved);
  }

  /** Merges the streams into the heap. */
  method Merge(
    scoring: Scoring, stats: Stats, terms: seq<Term>, seg: TextSegment, ids: seq<seq<nat>>, limit: nat,
    visible: nat -> bool,
    best: BestHeap, ghost pool: multiset<Ranked>, ghost costs: map<nat, real>) returns (error: Option<CorpusError>)
    requires Streams(ids, terms, seg, stats) && Describes(scoring, stats, terms, seg, visible, ids, costs)
    requires best.items == BestOf(pool, limit)
    modifies best
    ensures error.None?
    ensures best.items == BestOf(pool + PoolOf(costs), limit)
  {
    var cursors: seq<nat> := seq(|ids|, _ => 0);
    ghost var bound: nat := 0;
    NothingBelow(costs, pool);
    AllAscending(ids, terms, seg, stats);
    while true
      invariant At(ids, cursors, bound)
      invariant best.items == BestOf(pool + PoolOf(Below(costs, bound)), limit)
      decreases Pending(ids, bound)
    {
      var least := LeastHead(ids, cursors, bound);
      if least.None? {
        EverythingBelow(scoring, stats, terms, seg, visible, ids, costs, bound);
        break;
      }
      ghost var after: nat := least.value + 1;
      var next := MergeNext(scoring, stats, terms, seg, ids, cursors, least.value, limit, visible, best, pool, costs,
                            bound, after);
      match next {
        case Err(failed) =>
          return Some(failed);
        case Ok(moved) =>
          cursors, bound := moved, after;
      }
    }
    error := None;
  }

  lemma NothingBelow(costs: map<nat, real>, pool: multiset<Ranked>)
    ensures pool + PoolOf(Below(costs, 0)) == pool
  {
    assert Below(costs, 0) == map[];
    assert Hits(map[]) == {};
  }

  lemma AllAscending(ids: seq<seq<nat>>, terms: seq<Term>, seg: TextSegment, stats: Stats)
    requires Streams(ids, terms, seg, stats)
    ensures forall i :: 0 <= i < |ids| ==> StrictlyAscending(ids[i])
  {
    forall i | 0 <= i < |ids|
      ensures StrictlyAscending(ids[i])
    {
      assert Stream(ids[i], terms[i], seg, stats);
    }
  }

  lemma EverythingBelow(
    scoring: Scoring, stats: Stats, terms: seq<Term>, seg: TextSegment, visible: nat -> bool, ids: seq<seq<nat>>,
    costs: map<nat, real>, bound: nat)
    requires Describes(scoring, stats, terms, seg, visible, ids, costs)
    requires Exhausted(ids, bound)
    ensures Below(costs, bound) == costs
  {
    forall id | id in costs
      ensures id < bound
    {
      assert Described(scoring, stats, terms, seg, visible, ids, costs, id);
    }
  }

  lemma GapInCosts(
    scoring: Scoring, stats: Stats, terms: seq<Term>, seg: TextSegment, visible: nat -> bool, ids: seq<seq<nat>>,
    costs: map<nat, real>, bound: nat, id: nat)
    requires Describes(scoring, stats, terms, seg, visible, ids, costs) && Gap(ids, bound, id)
    ensures forall other :: other in costs ==> other < bound || other >= id
  {
    forall other | other in costs
      ensures other < bound || other >= id
    {
      assert Described(scoring, stats, terms, seg, visible, ids, costs, other);
    }
  }

  /** Adds every visible document of the segment that has a query term; its refusals are unreachable. */
  method SearchInto(
    scoring: Scoring, stats: Stats, terms: seq<Term>, seg: TextSegment, limit: nat, visible: nat -> bool,
    best: BestHeap, ghost pool: multiset<Ranked>) returns (error: Option<CorpusError>)
    requires Counted(seg, stats, visible) && best.items == BestOf(pool, limit)
    modifies best
    ensures error.None?
    ensures best.items == BestOf(pool + PoolOf(SegmentScan(scoring, stats, terms, seg, visible)), limit)
  {
    ghost var costs := SegmentScan(scoring, stats, terms, seg, visible);
    if limit == 0 || terms == [] || stats.documents == 0 || stats.totalLength == 0 {
      NothingToFind(scoring, stats, terms, seg, limit, visible, pool);
      return None;
    }
    var ids := OpenStreams(terms, seg, stats);
    if ids.None? {
      return Some(CountOverflow);
    }
    ScanDescribed(scoring, stats, terms, seg, visible, ids.value);
    error := Merge(scoring, stats, terms, seg, ids.value, limit, visible, best, pool, costs);
  }

  lemma NothingToFind(
    scoring: Scoring, stats: Stats, terms: seq<Term>, seg: TextSegment, limit: nat, visible: nat -> bool,
    pool: multiset<Ranked>)
    requires Counted(seg, stats, visible)
    requires limit == 0 || terms == [] || stats.documents == 0 || stats.totalLength == 0
    ensures BestOf(pool, limit) == BestOf(pool + PoolOf(SegmentScan(scoring, stats, terms, seg, visible)), limit)
  {
    if limit > 0 {
      var costs := SegmentScan(scoring, stats, terms, seg, visible);
      forall id
        ensures id !in costs
      {
        assert visible(id) && PostedMatch(terms, seg, id) ==> stats.documents > 0 && stats.totalLength > 0;
      }
      assert costs == map[];
      assert Hits(costs) == {};
      assert pool + PoolOf(costs) == pool;
    }
  }
}
