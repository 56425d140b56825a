/** Searching a published generation gives what a scan of its live documents would. */
module IndexSearch {
  import opened Words
  import opened Analysis
  import opened Corpus
  import opened Ranking
  import opened Pools
  import opened TextSearch
  import opened PostingMerge
  import opened Generations

  predicate VisibleIn(g: Generation, id: nat, generation: nat) {
    id in g.live && g.live[id].generation == generation
  }

  /** The eligible documents that a generation's segment shows. */
  function Shown(g: Generation, generation: nat, eligible: nat -> bool): nat -> bool {
    (id: nat) => VisibleIn(g, id, generation) && eligible(id)
  }

  // ----- the text reference

  /** A term's weight from a recount of the documents. */
  ghost function RecountedWeight(scoring: Scoring, docs: map<nat, Document>, term: Term, length: nat,
    frequency: nat): real {
    scoring.weight(Total(TextDocuments, docs), |Holders(docs, term)|, Total(Tokens, docs), length, frequency)
  }

  ghost function DocScore(scoring: Scoring, docs: map<nat, Document>, terms: seq<Term>, d: Document, n: nat): real
    requires n <= |terms| && d.text.Some?
  {
    if n == 0 then 0.0 else
    var before := DocScore(scoring, docs, terms, d, n - 1);
    if Mentions(d, terms[n - 1])
    then Plus(scoring, before, RecountedWeight(scoring, docs, terms[n - 1], d.text.value.length,
                                               |Positions(d, terms[n - 1])|))
    else before
  }

  ghost predicate DocMatch(terms: seq<Term>, d: Document) {
    d.text.Some? && exists i :: 0 <= i < |terms| && Mentions(d, terms[i])
  }

  /** Every eligible live document with a query term, at its negated score. */
  ghost function TextScan(scoring: Scoring, docs: map<nat, Document>, terms: seq<Term>,
    eligible: nat -> bool): map<nat, real> {
    map id | id in docs && eligible(id) && DocMatch(terms, docs[id]) ::
      -DocScore(scoring, docs, terms, docs[id], |terms|)
  }

  lemma RecountedCount(stats: Stats, docs: map<nat, Document>, term: Term)
    requires Recounts(stats, docs)
    ensures Count(stats.frequencies, term) == |Holders(docs, term)| <= stats.documents
  {
    RecountsIs(stats, docs);
    HoldersBounded(docs, term);
  }

  lemma {:induction false} StoredScore(
    scoring: Scoring, stats: Stats, docs: map<nat, Document>, terms: seq<Term>, seg: TextSegment, id: nat, d: Document,
    n: nat)
    requires Recounts(stats, docs) && Stores(seg, id, d) && d.text.Some? && n <= |terms|
    ensures id in seg.lengths && PostedScore(scoring, stats, terms, seg, id, n) == DocScore(scoring, docs, terms, d, n)
  {
    if n > 0 {
      StoredScore(scoring, stats, docs, terms, seg, id, d, n - 1);
      RecountedCount(stats, docs, terms[n - 1]);
      assert Has(seg, terms[n - 1], id) <==> Mentions(d, terms[n - 1]);
      assert Posting(seg, terms[n - 1], id) == Positions(d, terms[n - 1]);
    }
  }

  // ----- splitting a scan by generation

  ghost function Restrict(costs: map<nat, real>, ids: set<nat>): map<nat, real> {
    map id | id in costs && id in ids :: costs[id]
  }

  lemma RestrictUnion(costs: map<nat, real>, a: set<nat>, b: set<nat>)
    requires a !! b
    ensures PoolOf(Restrict(costs, a + b)) == PoolOf(Restrict(costs, a)) + PoolOf(Restrict(costs, b))
  {
    assert Restrict(costs, a + b) == Restrict(costs, a) + Restrict(costs, b);
    PoolUnion(Restrict(costs, a), Restrict(costs, b));
  }

  /** The documents one generation's segment shows. */
  ghost function ShownBy(live: map<nat, Live>, generation: nat): set<nat> {
    set id | id in live && live[id].generation == generation
  }

  ghost function ShownByFirst(live: map<nat, Live>, segments: seq<Segment>, n: nat): set<nat>
    requires n <= |segments|
  {
    if n == 0 then {} else ShownByFirst(live, segments, n - 1) + ShownBy(live, segments[n - 1].generation)
  }

  lemma {:induction false} ShownByIs(live: map<nat, Live>, segments: seq<Segment>, n: nat, id: nat)
    requires n <= |segments|
    ensures id in ShownByFirst(live, segments, n) <==>
            id in live && exists j :: 0 <= j < n && live[id].generation == segments[j].generation
  {
    if n > 0 {
      ShownByIs(live, segments, n - 1, id);
    }
  }

  lemma ShownDisjoint(live: map<nat, Live>, segments: seq<Segment>, n: nat)
    requires n < |segments| && forall i, j :: 0 <= i < j < |segments| ==>
             segments[i].generation < segments[j].generation
    ensures ShownByFirst(live, segments, n) !! ShownBy(live, segments[n].generation)
  {
    forall id
      ensures !(id in ShownByFirst(live, segments, n) && id in ShownBy(live, segments[n].generation))
    {
      ShownByIs(live, segments, n, id);
    }
  }

  lemma ShownStep(costs: map<nat, real>, live: map<nat, Live>, segments: seq<Segment>, n: nat)
    requires n < |segments| && forall i, j :: 0 <= i < j < |segments| ==>
             segments[i].generation < segments[j].generation
    ensures PoolOf(Restrict(costs, ShownByFirst(live, segments, n + 1)))
         == PoolOf(Restrict(costs, ShownByFirst(live, segments, n)))
            + PoolOf(Restrict(costs, ShownBy(live, segments[n].generation)))
  {
    ShownDisjoint(live, segments, n);
    RestrictUnion(costs, ShownByFirst(live, segments, n), ShownBy(live, segments[n].generation));
  }

  lemma ShownAll(costs: map<nat, real>, live: map<nat, Live>, segments: seq<Segment>)
    requires Placed(live, segments) && forall id :: id in costs ==> id in live
    ensures Restrict(costs, ShownByFirst(live, segments, |segments|)) == costs
  {
    forall id | id in costs
      ensures id in ShownByFirst(live, segments, |segments|)
    {
      var i: nat :| Home(segments, i, id, live[id]);
      ShownByIs(live, segments, |segments|, id);
    }
  }

  lemma ShownNone(costs: map<nat, real>, pool: multiset<Ranked>)
    ensures pool + PoolOf(Restrict(costs, {})) == pool
  {
    assert Restrict(costs, {}) == map[];
    assert Hits(map[]) == {};
  }

  // ----- one segment's share of a text scan

  /** A live document shown by this segment has its content there. */
  lemma ShownHolds(g: Generation, config: Config, n: nat, id: nat)
    requires Valid(g, config) && n < |g.segments| && VisibleIn(g, id, g.segments[n].generation)
    ensures Holds(g.segments[n], id, g.live[id].document)
  {
    var i: nat :| Home(g.segments, i, id, g.live[id]);
    assert i == n;
  }

  lemma VisibleCounted(g: Generation, config: Config, n: nat, visible: nat -> bool)
    requires Valid(g, config) && n < |g.segments|
    requires forall id :: visible(id) ==> VisibleIn(g, id, g.segments[n].generation)
    ensures Counted(g.segments[n].text, g.stats, visible)
  {
    var docs, seg := Contents(g.live), g.segments[n].text;
    assert SegmentSound(g.segments[n], config.m);
    forall t
      ensures Count(g.stats.frequencies, t) <= g.stats.documents
    {
      RecountedCount(g.stats, docs, t);
    }
    forall t, id | Has(seg, t, id) && visible(id)
      ensures Count(g.stats.frequencies, t) > 0 && g.stats.totalLength > 0
    {
      ShownHolds(g, config, n, id);
      MentionedCounts(g.stats, docs, id, t);
    }
  }

  lemma MentionedCounts(stats: Stats, docs: map<nat, Document>, id: nat, t: Term)
    requires Recounts(stats, docs) && id in docs && Mentions(docs[id], t)
    ensures Count(stats.frequencies, t) > 0 && stats.totalLength > 0
  {
    RecountsIs(stats, docs);
    RecountedCount(stats, docs, t);
    assert id in Holders(docs, t);
    TotalRemove(Tokens, docs, id);
    assert docs[id].text.value.frequencies != map[];
  }

  /** The segment and the documents agree about one identity. */
  ghost predicate Agrees(stats: Stats, docs: map<nat, Document>, scoring: Scoring, terms: seq<Term>, seg: TextSegment,
    id: nat) {
    && id in docs
    && (id in seg.lengths && PostedMatch(terms, seg, id) <==> DocMatch(terms, docs[id]))
    && (id in seg.lengths && docs[id].text.Some? ==>
          PostedScore(scoring, stats, terms, seg, id, |terms|) == DocScore(scoring, docs, terms, docs[id], |terms|))
  }

  lemma StoredAgrees(stats: Stats, docs: map<nat, Document>, scoring: Scoring, terms: seq<Term>, seg: TextSegment,
    id: nat)
    requires Recounts(stats, docs) && id in docs && Stores(seg, id, docs[id])
    ensures Agrees(stats, docs, scoring, terms, seg, id)
  {
    if docs[id].text.Some? {
      StoredScore(scoring, stats, docs, terms, seg, id, docs[id], |terms|);
    }
  }

  lemma AgreedShare(
    stats: Stats, docs: map<nat, Document>, scoring: Scoring, terms: seq<Term>, seg: TextSegment, eligible: nat -> bool,
    visible: nat -> bool, shown: set<nat>)
    requires forall id :: visible(id) <==> id in shown && eligible(id)
    requires forall id :: id in shown ==> Agrees(stats, docs, scoring, terms, seg, id)
    ensures SegmentScan(scoring, stats, terms, seg, visible) == Restrict(TextScan(scoring, docs, terms, eligible),
          shown)
  {
    var found, scan := SegmentScan(scoring, stats, terms, seg, visible), TextScan(scoring, docs, terms, eligible);
    forall id
      ensures id in found <==> id in scan && id in shown
      ensures id in found && id in scan ==> found[id] == scan[id]
    {
      assert id in shown ==> Agrees(stats, docs, scoring, terms, seg, id);
    }
  }

  /** The segment's own scan is its share of the scan of the live documents. */
  lemma SegmentShare(
    g: Generation, config: Config, n: nat, scoring: Scoring, terms: seq<Term>, eligible: nat -> bool,
    visible: nat -> bool)
    requires Valid(g, config) && n < |g.segments|
    requires forall id :: visible(id) <==> VisibleIn(g, id, g.segments[n].generation) && eligible(id)
    ensures SegmentScan(scoring, g.stats, terms, g.segments[n].text, visible)
         == Restrict(TextScan(scoring, Contents(g.live), terms, eligible), ShownBy(g.live, g.segments[n].generation))
  {
    var docs, seg, shown := Contents(g.live), g.segments[n].text, ShownBy(g.live, g.segments[n].generation);
    forall id | id in shown
      ensures Agrees(g.stats, docs, scoring, terms, seg, id)
    {
      ShownHolds(g, config, n, id);
      StoredAgrees(g.stats, docs, scoring, terms, seg, id);
    }
    AgreedShare(g.stats, docs, scoring, terms, seg, eligible, visible, shown);
  }

  // ----- text search

  ghost function Texts(docs: map<nat, Document>): set<nat> {
    set id | id in docs && docs[id].text.Some?
  }

  lemma TextsInsert(docs: map<nat, Document>, id: nat, d: Document)
    requires id !in docs
    ensures |Texts(docs[id := d])| == |Texts(docs)| + Weigh(TextDocuments, d)
  {
    assert Texts(docs[id := d]) == Texts(docs) + if d.text.Some? then {id} else {};
  }

  lemma {:induction false} TextsCounted(docs: map<nat, Document>)
    ensures |Texts(docs)| == Total(TextDocuments, docs)
    decreases |docs|
  {
    if docs != map[] {
      var id := Pick(docs.Keys);
      var rest := docs - {id};
      TextsCounted(rest);
      TextsInsert(rest, id, docs[id]);
      assert rest[id := docs[id]] == docs;
    }
  }

  lemma ScanBounded(scoring: Scoring, docs: map<nat, Document>, terms: seq<Term>, eligible: nat -> bool)
    ensures |PoolOf(TextScan(scoring, docs, terms, eligible))| <= Total(TextDocuments, docs)
  {
    var scan := TextScan(scoring, docs, terms, eligible);
    TextsCounted(docs);
    PoolSize(scan);
    SubsetSize(scan.Keys, Texts(docs));
    assert |scan| == |scan.Keys|;
  }

  /** What the first `n` segments contribute to a scan. */
  ghost function Contributed(costs: map<nat, real>, g: Generation, n: nat): multiset<Ranked>
    requires n <= |g.segments|
  {
    PoolOf(Restrict(costs, ShownByFirst(g.live, g.segments, n)))
  }

  lemma TextFinish(g: Generation, config: Config, scoring: Scoring, terms: seq<Term>, eligible: nat -> bool, k: nat)
    requires Valid(g, config)
    ensures var scan := TextScan(scoring, Contents(g.live), terms, eligible);
            BestOf(Contributed(scan, g, |g.segments|), Min(k, g.stats.documents)) == BestOf(PoolOf(scan), k)
  {
    var scan := TextScan(scoring, Contents(g.live), terms, eligible);
    ShownAll(scan, g.live, g.segments);
    ScanBounded(scoring, Contents(g.live), terms, eligible);
    BestUnbounded(PoolOf(scan), k, g.stats.documents);
  }

  lemma NothingContributed(costs: map<nat, real>, g: Generation)
    ensures Contributed(costs, g, 0) == multiset{}
  {
    ShownNone(costs, multiset{});
  }

  /** What one segment's text search needs and adds. */
  ghost predicate TextStep(
    g: Generation, scoring: Scoring, terms: seq<Term>, eligible: nat -> bool, scan: map<nat, real>, n: nat)
    requires n < |g.segments|
  {
    var seg, visible := g.segments[n].text, Shown(g, g.segments[n].generation, eligible);
    && Counted(seg, g.stats, visible)
    && Contributed(scan, g, n + 1) == Contributed(scan, g, n) + PoolOf(SegmentScan(scoring, g.stats, terms, seg,
          visible))
  }

  lemma TextStepHolds(g: Generation, config: Config, scoring: Scoring, terms: seq<Term>, eligible: nat -> bool, n: nat)
    requires Valid(g, config) && n < |g.segments|
    ensures TextStep(g, scoring, terms, eligible, TextScan(scoring, Contents(g.live), terms, eligible), n)
  {
    var visible := Shown(g, g.segments[n].generation, eligible);
    VisibleCounted(g, config, n, visible);
    SegmentShare(g, config, n, scoring, terms, eligible, visible);
    ShownStep(TextScan(scoring, Contents(g.live), terms, eligible), g.live, g.segments, n);
  }

  method SearchSegment(
    g: Generation, scoring: Scoring, terms: seq<Term>, limit: nat, eligible: nat -> bool, best: BestHeap,
    ghost scan: map<nat, real>, n: nat)
    requires n < |g.segments| && TextStep(g, scoring, terms, eligible, scan, n)
    requires best.items == BestOf(Contributed(scan, g, n), limit)
    modifies best
    ensures best.items == BestOf(Contributed(scan, g, n + 1), limit)
  {
    var visible := Shown(g, g.segments[n].generation, eligible);
    var error := SearchInto(scoring, g.stats, terms, g.segments[n].text, limit, visible, best, Contributed(scan, g, n));
  }

  method SearchSegments(
    g: Generation, scoring: Scoring, terms: seq<Term>, limit: nat, eligible: nat -> bool, ghost scan: map<nat, real>)
    returns (hits: seq<Ranked>)
    requires forall n :: 0 <= n < |g.segments| ==> TextStep(g, scoring, terms, eligible, scan, n)
    ensures hits == BestOf(Contributed(scan, g, |g.segments|), limit)
  {
    var best := new BestHeap();
    NothingContributed(scan, g);
    for n := 0 to |g.segments|
      invariant fresh(best)
      invariant best.items == BestOf(Contributed(scan, g, n), limit)
    {
      assert TextStep(g, scoring, terms, eligible, scan, n);
      SearchSegment(g, scoring, terms, limit, eligible, best, scan, n);
    }
    hits := best.items;
  }

  /**
   Searches every segment with the shared statistics and one heap; the answer is that of a scan of the live
   documents.
   */
  method TextSearchAny(g: Generation, config: Config, scoring: Scoring, terms: seq<Term>, k: nat, eligible: nat -> bool)
    returns (hits: seq<Ranked>)
    requires Valid(g, config)
    ensures hits == BestOf(PoolOf(TextScan(scoring, Contents(g.live), terms, eligible)), k)
    ensures TopOf(hits, TextScan(scoring, Contents(g.live), terms, eligible), k)
    ensures forall i, j :: 0 <= i < j < |hits| ==>
              hits[i].cost < hits[j].cost || (hits[i].cost == hits[j].cost && hits[i].id < hits[j].id)
  {
    ghost var scan := TextScan(scoring, Contents(g.live), terms, eligible);
    forall n | 0 <= n < |g.segments|
      ensures TextStep(g, scoring, terms, eligible, scan, n)
    {
      TextStepHolds(g, config, scoring, terms, eligible, n);
    }
    hits := SearchSegments(g, scoring, terms, Min(k, g.stats.documents), eligible, scan);
    TextFinish(g, config, scoring, terms, eligible, k);
    BestIsTop(scan, k);
  }

  /** However the documents came to be live, a generation answers like one freshly built segment of them. */
  method SearchLikeRebuilt(
    g: Generation, rebuilt: Generation, config: Config, scoring: Scoring, terms: seq<Term>, k: nat,
    eligible: nat -> bool)
    returns (here: seq<Ranked>, there: seq<Ranked>)
    requires Valid(g, config) && Valid(rebuilt, config) && Contents(g.live) == Contents(rebuilt.live)
             && |rebuilt.segments| <= 1
    ensures here == there
  {
    here := TextSearchAny(g, config, scoring, terms, k, eligible);
    there := TextSearchAny(rebuilt, config, scoring, terms, k, eligible);
  }
}
