/** Generations of a multi-segment index, and the draft that becomes the next one. */
module Generations {
  import opened Words
  import opened Analysis
  import opened Corpus
  import opened TextSearch
  import Ordered
  import opened Links
  import H = Hnsw
  import LS = LayerSearch

  datatype Config = Config(
    maxDocuments: usize, maxBatchOperations: usize, maxSegments: usize, maxVectorValues: usize, maxTextBytes: usize,
    maxDocumentTerms: usize,
    maxVectors: usize, maxTexts: usize, m: nat, efConstruction: nat, distance: LS.Distance, level: nat -> nat)

  datatype BeaconError =
    | ResourceLimit
    | GenerationExhausted
    | DuplicateVertex(id: nat)
    | Invariant(error: Option<CorpusError>)
    | Arithmetic
    | WorkRefused
    | Source(code: nat)
    | Unprepared(code: nat)

  // ----- segments

  datatype Segment = Segment(generation: nat, text: TextSegment, nodes: seq<Node>)

  ghost predicate DistinctIds(nodes: seq<Node>) {
    forall i, j :: 0 <= i < j < |nodes| ==> nodes[i].id != nodes[j].id
  }

  ghost predicate StoresVector(nodes: seq<Node>, id: nat, d: Document) {
    forall i :: 0 <= i < |nodes| && nodes[i].id == id ==> d.vector == Some(nodes[i].vector)
  }

  ghost predicate HasNode(nodes: seq<Node>, id: nat) {
    exists i :: 0 <= i < |nodes| && nodes[i].id == id
  }

  /** The segment stores both lanes of `d` under `id`, and nothing else there. */
  ghost predicate Holds(s: Segment, id: nat, d: Document) {
    && Stores(s.text, id, d)
    && StoresVector(s.nodes, id, d)
    && (d.vector.Some? <==> HasNode(s.nodes, id))
  }

  ghost predicate SegmentSound(s: Segment, m: nat) {
    Sound(s.text) && DistinctIds(s.nodes) && Linked(s.nodes, m)
  }

  ghost predicate PointsAre(points: seq<(nat, Vector)>, docs: map<nat, Document>) {
    && (forall i, j :: 0 <= i < j < |points| ==> points[i].0 != points[j].0)
    && (forall i :: 0 <= i < |points| ==> points[i].0 in docs && docs[points[i].0].vector == Some(points[i].1))
    && (forall id :: id in docs && docs[id].vector.Some? ==> exists i :: 0 <= i < |points| && points[i].0 == id)
  }

  method ListVectors(docs: map<nat, Document>, ids: seq<nat>) returns (points: seq<(nat, Vector)>)
    requires forall id :: id in docs <==> id in ids
    requires forall i, j :: 0 <= i < j < |ids| ==> ids[i] != ids[j]
    ensures PointsAre(points, docs)
  {
    points := [];
    for k := 0 to |ids|
      invariant forall i, j :: 0 <= i < j < |points| ==> points[i].0 != points[j].0
      invariant forall i :: 0 <= i < |points| ==> points[i].0 in ids[..k]
      invariant forall i :: 0 <= i < |points| ==> points[i].0 in docs && docs[points[i].0].vector == Some(points[i].1)
      invariant forall id :: id in ids[..k] && id in docs && docs[id].vector.Some? ==>
                  exists i :: 0 <= i < |points| && points[i].0 == id
    {
      assert ids[k] in ids && ids[k] !in ids[..k];
      assert ids[..k + 1] == ids[..k] + [ids[k]];
      if docs[ids[k]].vector.Some? {
        ghost var before := points;
        points := points + [(ids[k], docs[ids[k]].vector.value)];
        assert points[|before|].0 == ids[k];
        assert forall i :: 0 <= i < |before| ==> points[i] == before[i];
      }
    }
    assert ids[..|ids|] == ids;
  }

  lemma {:induction false} PointsFew(points: seq<(nat, Vector)>, vectors: set<nat>)
    requires forall i :: 0 <= i < |points| ==> points[i].0 in vectors
    requires forall i, j :: 0 <= i < j < |points| ==> points[i].0 != points[j].0
    ensures |points| <= |vectors|
    decreases |points|
  {
    if points != [] {
      var k := |points| - 1;
      PointsFew(points[..k], vectors - {points[k].0});
    }
  }

  /** One segment over the given documents, both lanes together. */
  method BuildSegment(generation: nat, docs: map<nat, Document>, config: Config) returns (s: Segment)
    requires Total(VectorDocuments, docs) <= config.maxVectors
    ensures s.generation == generation && SegmentSound(s, config.m)
    ensures forall id :: Holds(s, id, Under(docs, id))
  {
    var text := Build(docs);
    var points := ListVectors(docs, Ordered.Ascending(docs.Keys));
    VectorsCounted(docs);
    PointsFew(points, Vectors(docs));
    var graph := H.Build(points, config.maxVectors, config.m, config.efConstruction, config.distance, config.level);
    s := Segment(generation, text, graph.value.nodes);
    NodesHold(s.nodes, points, docs);
    forall id
      ensures Holds(s, id, Under(docs, id))
    {
      assert Stores(text, id, Under(docs, id));
      assert NodeHolds(s.nodes, id, Under(docs, id));
    }
  }

  ghost predicate NodeHolds(nodes: seq<Node>, id: nat, d: Document) {
    StoresVector(nodes, id, d) && (d.vector.Some? <==> HasNode(nodes, id))
  }

  lemma NodesHold(nodes: seq<Node>, points: seq<(nat, Vector)>, docs: map<nat, Document>)
    requires H.Indexes(nodes, points) && PointsAre(points, docs)
    ensures DistinctIds(nodes) && forall id :: NodeHolds(nodes, id, Under(docs, id))
  {
    forall i | 0 <= i < |nodes|
      ensures nodes[i].id in docs && docs[nodes[i].id].vector == Some(nodes[i].vector)
    {
      var k :| 0 <= k < |points| && points[k] == (nodes[i].id, nodes[i].vector);
    }
    forall id
      ensures NodeHolds(nodes, id, Under(docs, id))
    {
      if id in docs && docs[id].vector.Some? {
        var k :| 0 <= k < |points| && points[k].0 == id;
        assert points[k] in H.Points(nodes);
        var i :| 0 <= i < |nodes| && H.Points(nodes)[i] == points[k];
        assert nodes[i].id == id;
      }
    }
  }

  // ----- live documents and their totals

  /** A live document and the generation whose segment shows it. */
  datatype Live = Live(generation: nat, document: Document)

  function Contents(live: map<nat, Live>): map<nat, Document> {
    map id | id in live :: live[id].document
  }

  datatype Totals = Totals(vectorDocuments: nat, vectorValues: nat, textBytes: nat, documentTerms: nat)

  ghost predicate TotalsOf(t: Totals, docs: map<nat, Document>) {
    t == Totals(Total(VectorDocuments, docs), Total(VectorValues, docs), Total(TextBytes, docs),
                Total(DocumentTerms, docs))
  }

  /** The totals without `d`, unless one would underflow. */
  function Without(t: Totals, d: Document): Option<Totals> {
    if t.vectorDocuments < Weigh(VectorDocuments, d) || t.vectorValues < Weigh(VectorValues, d)
       || t.textBytes < Weigh(TextBytes, d) || t.documentTerms < Weigh(DocumentTerms, d)
    then None
    else Some(Totals(t.vectorDocuments - Weigh(VectorDocuments, d), t.vectorValues - Weigh(VectorValues, d),
                     t.textBytes - Weigh(TextBytes, d), t.documentTerms - Weigh(DocumentTerms, d)))
  }

  /** The totals with `d`, unless one would overflow. */
  function With(t: Totals, d: Document): Option<Totals> {
    if t.vectorDocuments + Weigh(VectorDocuments, d) >= BASE || t.vectorValues + Weigh(VectorValues, d) >= BASE
       || t.textBytes + Weigh(TextBytes, d) >= BASE || t.documentTerms + Weigh(DocumentTerms, d) >= BASE
    then None
    else Some(Totals(t.vectorDocuments + Weigh(VectorDocuments, d), t.vectorValues + Weigh(VectorValues, d),
                     t.textBytes + Weigh(TextBytes, d), t.documentTerms + Weigh(DocumentTerms, d)))
  }

  lemma TotalsRemove(t: Totals, docs: map<nat, Document>, id: nat)
    requires TotalsOf(t, docs) && id in docs
    ensures Without(t, docs[id]).Some? && TotalsOf(Without(t, docs[id]).value, docs - {id})
  {
    TotalRemove(VectorDocuments, docs, id);
    TotalRemove(VectorValues, docs, id);
    TotalRemove(TextBytes, docs, id);
    TotalRemove(DocumentTerms, docs, id);
  }

  lemma TotalsInsert(t: Totals, docs: map<nat, Document>, id: nat, d: Document)
    requires TotalsOf(t, docs) && id !in docs
    ensures With(t, d).Some? ==> TotalsOf(With(t, d).value, docs[id := d])
  {
    TotalInsert(VectorDocuments, docs, id, d);
    TotalInsert(VectorValues, docs, id, d);
    TotalInsert(TextBytes, docs, id, d);
    TotalInsert(DocumentTerms, docs, id, d);
  }

  /** A document without text leaves the corpus statistics alone. */
  lemma TextlessInsert(stats: Stats, docs: map<nat, Document>, id: nat, d: Document)
    requires id !in docs && d.text.None?
    ensures Recounts(stats, docs) <==> Recounts(stats, docs[id := d])
  {
    TotalInsert(TextDocuments, docs, id, d);
    TotalInsert(Tokens, docs, id, d);
    FrequenciesInsert(stats.frequencies, docs, id, d, {});
    RecountsIs(stats, docs);
    RecountsIs(stats, docs[id := d]);
  }

  /** Counting this document would take some counter past 64 bits. */
  ghost predicate Uncountable(stats: Stats, t: Totals, d: Document) {
    With(t, d).None? || (d.text.Some? && Overflows(stats, d.text.value))
  }

  lemma VocabularySize(frequencies: map<Term, nat>, docs: map<nat, Document>, id: nat, d: Document)
    requires Frequencies(frequencies, docs, {}) && id !in docs
    ensures TermBytes(Vocabulary(docs)) == TermBytes(frequencies.Keys)
    ensures TermBytes(Vocabulary(docs[id := d])) ==
            TermBytes(if d.text.Some? then frequencies.Keys + d.text.value.frequencies.Keys else frequencies.Keys)
  {
    KeysAreVocabulary(frequencies, docs);
    VocabularyInsert(docs, id, d);
    assert frequencies.Keys + {} == frequencies.Keys;
  }

  lemma TotalsFit(t: Totals, docs: map<nat, Document>, id: nat, d: Document)
    requires TotalsOf(t, docs) && id !in docs
    ensures var after := docs[id := d];
            With(t, d).Some? <==> Fits(Sum(VectorDocuments), after) && Fits(Sum(VectorValues), after)
                                  && Fits(Sum(TextBytes), after) && Fits(Sum(DocumentTerms), after)
  {
    FitsInsert(VectorDocuments, docs, id, d);
    FitsInsert(VectorValues, docs, id, d);
    FitsInsert(TextBytes, docs, id, d);
    FitsInsert(DocumentTerms, docs, id, d);
  }

  lemma TextFits(stats: Stats, docs: map<nat, Document>, id: nat, d: Document)
    requires Recounts(stats, docs) && Countable(docs) && id !in docs
    ensures stats.termBytes < BASE
    ensures var after := docs[id := d];
            Fits(Sum(TextDocuments), after) && Fits(Sum(Tokens), after) && Fits(VocabularyBytes, after) <==>
            !(d.text.Some? && Overflows(stats, d.text.value))
  {
    RecountsIs(stats, docs);
    FitsInsert(TextDocuments, docs, id, d);
    FitsInsert(Tokens, docs, id, d);
    VocabularySize(stats.frequencies, docs, id, d);
    assert Fits(Sum(TextDocuments), docs) && Fits(Sum(Tokens), docs) && Fits(VocabularyBytes, docs);
  }

  /** Whether the counters overflow depends on the documents alone. */
  lemma CountableInsert(stats: Stats, t: Totals, docs: map<nat, Document>, id: nat, d: Document)
    requires Recounts(stats, docs) && TotalsOf(t, docs) && Countable(docs) && id !in docs
    ensures stats.termBytes < BASE && (Countable(docs[id := d]) <==> !Uncountable(stats, t, d))
  {
    TotalsFit(t, docs, id, d);
    TextFits(stats, docs, id, d);
    CountableIs(docs[id := d]);
  }

  /** The generation's own totals fit 64 bits; the corpus statistics are checked after them. */
  ghost predicate TotalsCountable(docs: map<nat, Document>) {
    && Fits(Sum(VectorDocuments), docs) && Fits(Sum(VectorValues), docs)
    && Fits(Sum(TextBytes), docs) && Fits(Sum(DocumentTerms), docs)
  }

  /** The error for documents that cannot be counted. */
  ghost function CountErrorOf(docs: map<nat, Document>): BeaconError {
    if TotalsCountable(docs) then Invariant(Some(CountOverflow)) else Arithmetic
  }

  /** The errors that report an overflowing counter. */
  predicate CountError(error: BeaconError) {
    error == Arithmetic || error == Invariant(Some(CountOverflow))
  }

  /** The live documents of a draft and its statistics. */
  datatype DraftState = DraftState(live: map<nat, Live>, stats: Stats, totals: Totals) {
    ghost predicate Tallied() {
      Recounts(stats, Contents(live)) && TotalsOf(totals, Contents(live)) && Countable(Contents(live))
    }
  }

  /** The next generation under construction. */
  class Draft {
    const config: Config
    const sequence: nat
    const corpus: CorpusStats
    var live: map<nat, Live>
    var segments: seq<Segment>
    var totals: Totals

    constructor (config: Config, sequence: nat, live: map<nat, Live>, segments: seq<Segment>, stats: Stats,
      totals: Totals)
      ensures this.config == config && this.sequence == sequence && fresh(corpus) && corpus.Value() == stats
      ensures this.live == live && this.segments == segments && this.totals == totals
    {
      this.config, this.sequence, this.live, this.segments, this.totals := config, sequence, live, segments, totals;
      corpus := new CorpusStats(stats);
    }

    /** Every statistic equals a recount of `docs`. */
    ghost predicate Tallies(docs: map<nat, Document>)
      reads this, corpus
    {
      Recounts(corpus.Value(), docs) && TotalsOf(totals, docs) && Countable(docs)
    }

    ghost function State(): DraftState
      reads this, corpus
    {
      DraftState(live, corpus.Value(), totals)
    }

    /** Takes a document out of the statistics; no underflow is reachable. */
    method RemoveStats(id: nat, d: Document, ghost docs: map<nat, Document>) returns (error: Option<BeaconError>)
      requires Tallies(docs) && id in docs && docs[id] == d
      modifies this`totals, corpus
      ensures error.None? && Tallies(docs - {id})
    {
      TotalsRemove(totals, docs, id);
      CountableRemove(docs, id);
      var t := Without(totals, d);
      if t.None? {
        return Some(Arithmetic);
      }
      if d.text.Some? {
        var failed := corpus.Remove(id, d, docs);
        if failed.Some? {
          return Some(Invariant(failed));
        }
      } else {
        ghost var rest := docs - {id};
        assert rest[id := d] == docs;
        TextlessInsert(corpus.Value(), rest, id, d);
      }
      totals := t.value;
      error := None;
    }

    /** Adds a document to the statistics; it is refused exactly when a counter would overflow. */
    method AddStats(id: nat, d: Document, ghost docs: map<nat, Document>) returns (error: Option<BeaconError>)
      requires Tallies(docs) && id !in docs
      modifies this`totals, corpus
      ensures error.None? <==> Countable(docs[id := d])
      ensures error.None? ==> Tallies(docs[id := d])
      ensures error.Some? ==> error.value == CountErrorOf(docs[id := d])
    {
      TotalsInsert(totals, docs, id, d);
      TotalsFit(totals, docs, id, d);
      CountableInsert(corpus.Value(), totals, docs, id, d);
      var t := With(totals, d);
      if t.None? {
        return Some(Arithmetic);
      }
      if d.text.Some? {
        var failed := corpus.Add(id, d, docs);
        if failed.Some? {
          return Some(Invariant(failed));
        }
      } else {
        TextlessInsert(corpus.Value(), docs, id, d);
      }
      totals := t.value;
      error := None;
    }

    /** Takes a document out of the live map, if it is there. */
    method TakeOut(id: nat) returns (error: Option<BeaconError>)
      requires Tallies(Contents(live))
      modifies this`live, this`totals, corpus
      ensures error.None? && live == old(live) - {id} && Tallies(Contents(live))
    {
      if id in live {
        ContentsRemove(live, id);
        error := RemoveStats(id, live[id].document, Contents(live));
        live := live - {id};
      } else {
        assert live - {id} == live;
        error := None;
      }
    }

    method PutIn(id: nat, d: Document) returns (error: Option<BeaconError>)
      requires Tallies(Contents(live)) && id !in live
      modifies this`live, this`totals, corpus
      ensures error.None? <==> Countable(old(Contents(live))[id := d])
      ensures error.None? ==> live == old(live)[id := Live(sequence, d)] && Tallies(Contents(live))
      ensures error.Some? ==> error.value == CountErrorOf(old(Contents(live))[id := d])
    {
      ContentsInsert(live, id, Live(sequence, d));
      error := AddStats(id, d, Contents(live));
      live := live[id := Live(sequence, d)];
    }

    /** Replaces or removes one live document, statistics included. */
    method ApplyOne(id: nat, document: Option<Document>) returns (error: Option<BeaconError>)
      requires Tallies(Contents(live))
      modifies this`live, this`totals, corpus
      ensures error.None? <==> Countable(Contents(Updated(old(live), id, document, sequence)))
      ensures error.None? ==> live == Updated(old(live), id, document, sequence) && Tallies(Contents(live))
      ensures error.Some? ==> CountError(error.value)
    {
      error := TakeOut(id);
      if error.None? && document.Some? {
        ContentsInsert(live, id, Live(sequence, document.value));
        error := PutIn(id, document.value);
      }
    }

    method CheckLimits() returns (error: Option<BeaconError>)
      requires Tallies(Contents(live))
      ensures error.None? <==> FitsLimits(config, Contents(live))
      ensures error.Some? ==> error.value.ResourceLimit?
    {
      FitsLimitsIs(config, Contents(live));
      RecountsIs(corpus.Value(), Contents(live));
      assert Contents(live).Keys == live.Keys && |live| == |live.Keys| && |Contents(live)| == |Contents(live).Keys|;
      if |live| > config.maxDocuments || totals.vectorValues > config.maxVectorValues
         || totals.textBytes > config.maxTextBytes || totals.documentTerms > config.maxDocumentTerms {
        return Some(ResourceLimit);
      }
      if totals.vectorDocuments > config.maxVectors || corpus.documents > config.maxTexts {
        return Some(ResourceLimit);
      }
      error := None;
    }

    /** Rewrites every live document into one segment, or drops all segments when nothing is live. */
    method Compact()
      requires Total(VectorDocuments, Contents(live)) <= config.maxVectors
      modifies this`live, this`segments
      ensures Contents(live) == old(Contents(live))
      ensures Placed(live, segments) && Layered(segments, sequence, config.m)
      ensures |segments| == if old(live) == map[] then 0 else 1
    {
      if live == map[] {
        segments := [];
        return;
      }
      var documents := Contents(live);
      var segment := BuildSegment(sequence, documents, config);
      live := map id | id in live :: Live(sequence, live[id].document);
      segments := [segment];
      forall id | id in live
        ensures Home(segments, 0, id, live[id])
      {
        assert Holds(segment, id, Under(documents, id));
      }
    }
  }

  function Updated(live: map<nat, Live>, id: nat, document: Option<Document>, sequence: nat): map<nat, Live> {
    if document.Some? then (live - {id})[id := Live(sequence, document.value)] else live - {id}
  }

  lemma ContentsRemove(live: map<nat, Live>, id: nat)
    ensures Contents(live - {id}) == Contents(live) - {id}
  {
  }

  lemma ContentsInsert(live: map<nat, Live>, id: nat, l: Live)
    ensures Contents(live[id := l]) == Contents(live)[id := l.document]
  {
  }

  /** What the configuration bounds: the number of live documents, and their measures. */
  datatype Limit = LiveDocuments | LiveMeasure(measure: Measure)

  function Bound(config: Config, measure: Measure): Option<nat> {
    match measure
    case VectorValues => Some(config.maxVectorValues)
    case TextBytes => Some(config.maxTextBytes)
    case DocumentTerms => Some(config.maxDocumentTerms)
    case VectorDocuments => Some(config.maxVectors)
    case TextDocuments => Some(config.maxTexts)
    case Tokens => None
  }

  ghost predicate WithinLimit(l: Limit, config: Config, docs: map<nat, Document>) {
    match l
    case LiveDocuments => |docs| <= config.maxDocuments
    case LiveMeasure(m) => Bound(config, m).Some? ==> Total(m, docs) <= Bound(config, m).value
  }

  /** The configured limits admit these live documents. */
  ghost predicate FitsLimits(config: Config, docs: map<nat, Document>) {
    forall l: Limit :: WithinLimit(l, config, docs)
  }

  lemma VectorsFit(config: Config, docs: map<nat, Document>)
    requires FitsLimits(config, docs)
    ensures Total(VectorDocuments, docs) <= config.maxVectors
  {
    assert WithinLimit(LiveMeasure(VectorDocuments), config, docs);
  }

  lemma FitsLimitsIs(config: Config, docs: map<nat, Document>)
    ensures FitsLimits(config, docs) <==>
            && WithinLimit(LiveDocuments, config, docs) && WithinLimit(LiveMeasure(VectorValues), config, docs)
            && WithinLimit(LiveMeasure(TextBytes), config, docs)
            && WithinLimit(LiveMeasure(DocumentTerms), config, docs)
            && WithinLimit(LiveMeasure(VectorDocuments), config, docs)
            && WithinLimit(LiveMeasure(TextDocuments), config, docs)
  {
    assert WithinLimit(LiveMeasure(Tokens), config, docs);
  }

  /** The `i`th segment is the one that shows `l` under `id`. */
  ghost predicate Home(segments: seq<Segment>, i: nat, id: nat, l: Live) {
    i < |segments| && segments[i].generation == l.generation && Holds(segments[i], id, l.document)
  }

  ghost predicate Placed(live: map<nat, Live>, segments: seq<Segment>) {
    forall id :: id in live ==> exists i: nat :: Home(segments, i, id, live[id])
  }

  /** Sound segments of distinct generations, none later than the sequence. */
  ghost predicate Layered(segments: seq<Segment>, sequence: nat, m: nat) {
    && (forall i, j :: 0 <= i < j < |segments| ==> segments[i].generation < segments[j].generation)
    && (forall i :: 0 <= i < |segments| ==> segments[i].generation <= sequence && SegmentSound(segments[i], m))
  }

  // ----- published generations

  datatype Generation = Generation(sequence: nat, live: map<nat, Live>, segments: seq<Segment>, stats: Stats,
    totals: Totals)

  ghost predicate Valid(g: Generation, config: Config) {
    && g.sequence < BASE
    && Layered(g.segments, g.sequence, config.m)
    && |g.segments| <= config.maxSegments
    && Placed(g.live, g.segments)
    && Recounts(g.stats, Contents(g.live))
    && TotalsOf(g.totals, Contents(g.live))
    && Countable(Contents(g.live))
    && FitsLimits(config, Contents(g.live))
  }

  /** Searches see the `i`th segment's entry for `id`. */
  predicate ShownAt(g: Generation, i: nat, id: nat) {
    i < |g.segments| && id in g.live && g.segments[i].generation == g.live[id].generation
  }

  /** Each live document is shown by exactly one segment, with its current content; nothing else is shown. */
  lemma ShownExactlyOnce(g: Generation, config: Config, id: nat)
    requires Valid(g, config)
    ensures id in g.live <==> exists i: nat :: ShownAt(g, i, id)
    ensures forall i: nat, j: nat :: ShownAt(g, i, id) && ShownAt(g, j, id) ==> i == j
    ensures forall i: nat :: ShownAt(g, i, id) ==> Holds(g.segments[i], id, g.live[id].document)
  {
    if id in g.live {
      var home: nat :| Home(g.segments, home, id, g.live[id]);
      assert ShownAt(g, home, id);
      forall i: nat | ShownAt(g, i, id)
        ensures i == home
      {
        OneGeneration(g.segments, g.sequence, config.m, i, home);
      }
    }
  }

  lemma OneGeneration(segments: seq<Segment>, sequence: nat, m: nat, i: nat, j: nat)
    requires Layered(segments, sequence, m) && i < |segments| && j < |segments|
             && segments[i].generation == segments[j].generation
    ensures i == j
  {
  }
}
