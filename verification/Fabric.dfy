/** The index: batches, replacements and compactions over published generations. */
module Fabric {
  import opened Words
  import opened Analysis
  import opened Corpus
  import opened TextSearch
  import opened Generations
  import Ordered

  /** A caller's work allowance; running out refuses the operation. */
  class Work {
    var remaining: nat

    constructor (remaining: nat)
      ensures this.remaining == remaining
    {
      this.remaining := remaining;
    }

    method Charge(units: nat) returns (ok: bool)
      modifies this
      ensures ok <==> units <= old(remaining)
      ensures remaining == if ok then old(remaining) - units else 0
    {
      ok := units <= remaining;
      remaining := if ok then remaining - units else 0;
    }
  }

  // ----- normalizing a batch

  /** An operation with its prepared document, or the reason it could not be prepared. */
  datatype Mutation = Upsert(id: nat, prepared: Result<Document, nat>) | Delete(id: nat)

  /** A fallible stream of operations; failures carry the source's own code. */
  type Feed = seq<Result<Mutation, nat>>

  predicate Sane(e: Result<Mutation, nat>) {
    e.Ok? && (e.value.Upsert? ==> e.value.prepared.Ok?)
  }

  function IdOf(e: Result<Mutation, nat>): nat {
    if e.Ok? then e.value.id else 0
  }

  function Outcome(e: Result<Mutation, nat>): Option<Document>
    requires Sane(e)
  {
    if e.value.Upsert? then Some(e.value.prepared.value) else None
  }

  ghost predicate AllSaneFeed(feed: Feed) {
    forall i :: 0 <= i < |feed| ==> Sane(feed[i])
  }

  /** The last operation for each vertex wins. */
  ghost function LastWins(feed: Feed): map<nat, Option<Document>>
    requires AllSaneFeed(feed)
  {
    if feed == [] then map[] else
    var last := feed[|feed| - 1];
    assert Sane(last);
    LastWins(feed[..|feed| - 1])[last.value.id := Outcome(last)]
  }

  /** What the normalized batch holds for a vertex is the outcome of its last operation. */
  lemma {:induction false} LastWinsIs(feed: Feed, i: nat)
    requires AllSaneFeed(feed)
    requires i < |feed| && forall k :: i < k < |feed| ==> IdOf(feed[k]) != IdOf(feed[i])
    ensures IdOf(feed[i]) in LastWins(feed) && LastWins(feed)[IdOf(feed[i])] == Outcome(feed[i])
  {
    if i < |feed| - 1 {
      LastWinsIs(feed[..|feed| - 1], i);
    }
  }

  /** The documents a normalized batch will insert. */
  function Inserted(normalized: map<nat, Option<Document>>): map<nat, Document> {
    map id | id in normalized && normalized[id].Some? :: normalized[id].value
  }

  datatype Staged = Staged(vectorValues: nat, textBytes: nat, documentTerms: nat)

  ghost predicate StagedOf(s: Staged, docs: map<nat, Document>) {
    s == Staged(Total(VectorValues, docs), Total(TextBytes, docs), Total(DocumentTerms, docs))
  }

  predicate StagedWithin(s: Staged, config: Config) {
    s.vectorValues <= config.maxVectorValues && s.textBytes <= config.maxTextBytes
      && s.documentTerms <= config.maxDocumentTerms
  }

  /** The documents staged so far are within the configured limits. */
  ghost predicate StagedFits(config: Config, docs: map<nat, Document>) {
    && Total(VectorValues, docs) <= config.maxVectorValues
    && Total(TextBytes, docs) <= config.maxTextBytes
    && Total(DocumentTerms, docs) <= config.maxDocumentTerms
  }

  /** The staged sizes fit 64 bits. */
  ghost predicate StagedCountable(docs: map<nat, Document>) {
    Total(VectorValues, docs) < BASE && Total(TextBytes, docs) < BASE && Total(DocumentTerms, docs) < BASE
  }

  function Unstage(s: Staged, d: Document): Option<Staged> {
    if s.vectorValues < Weigh(VectorValues, d) || s.textBytes < Weigh(TextBytes, d)
      || s.documentTerms < Weigh(DocumentTerms, d)
    then None
    else Some(Staged(s.vectorValues - Weigh(VectorValues, d), s.textBytes - Weigh(TextBytes, d),
                     s.documentTerms - Weigh(DocumentTerms, d)))
  }

  function Stage(s: Staged, d: Document): Option<Staged> {
    if s.vectorValues + Weigh(VectorValues, d) >= BASE || s.textBytes + Weigh(TextBytes, d) >= BASE
       || s.documentTerms + Weigh(DocumentTerms, d) >= BASE
    then None
    else Some(Staged(s.vectorValues + Weigh(VectorValues, d), s.textBytes + Weigh(TextBytes, d),
                     s.documentTerms + Weigh(DocumentTerms, d)))
  }

  lemma UnstageIs(s: Staged, docs: map<nat, Document>, id: nat)
    requires StagedOf(s, docs) && id in docs
    ensures Unstage(s, docs[id]).Some? && StagedOf(Unstage(s, docs[id]).value, docs - {id})
  {
    TotalRemove(VectorValues, docs, id);
    TotalRemove(TextBytes, docs, id);
    TotalRemove(DocumentTerms, docs, id);
  }

  lemma StageIs(s: Staged, docs: map<nat, Document>, id: nat, d: Document, config: Config)
    requires StagedOf(s, docs) && id !in docs
    ensures Stage(s, d).Some? ==> StagedOf(Stage(s, d).value, docs[id := d])
    ensures Stage(s, d).None? ==> !StagedFits(config, docs[id := d])
    ensures Stage(s, d).Some? <==> StagedCountable(docs[id := d])
  {
    TotalInsert(VectorValues, docs, id, d);
    TotalInsert(TextBytes, docs, id, d);
    TotalInsert(DocumentTerms, docs, id, d);
  }

  lemma InsertedUpdate(normalized: map<nat, Option<Document>>, id: nat, d: Option<Document>)
    ensures Inserted(normalized[id := d]) == if d.Some? then (Inserted(normalized) - {id})[id := d.value]
            else Inserted(normalized) - {id}
  {
  }

  /** Supersedes the vertex's staged document; sizes always equal a recount of what is staged. */
  method Supersede(normalized: map<nat, Option<Document>>, staged: Staged, id: nat, d: Option<Document>, config: Config)
    returns (r: Result<Staged, BeaconError>)
    requires StagedOf(staged, Inserted(normalized))
    requires StagedFits(config, Inserted(normalized))
    ensures r.Ok? <==> StagedFits(config, Inserted(normalized[id := d]))
    ensures r.Ok? ==> StagedOf(r.value, Inserted(normalized[id := d]))
    ensures r.Err? ==> r.error == if StagedCountable(Inserted(normalized[id := d])) then ResourceLimit else Arithmetic
  {
    ghost var docs := Inserted(normalized);
    InsertedUpdate(normalized, id, d);
    var s := staged;
    if id in normalized && normalized[id].Some? {
      UnstageIs(staged, docs, id);
      var less := Unstage(s, normalized[id].value);
      if less.None? {
        return Err(Arithmetic);
      }
      s := less.value;
    } else {
      assert docs - {id} == docs;
    }
    if d.Some? {
      StageIs(s, docs - {id}, id, d.value, config);
      var more := Stage(s, d.value);
      if more.None? {
        return Err(Arithmetic);
      }
      s := more.value;
      if !StagedWithin(s, config) {
        return Err(ResourceLimit);
      }
    }
    r := Ok(s);
  }

  /** Every operation is sound, there are not too many, and no prefix stages too much. */
  ghost predicate BatchAdmitted(feed: Feed, config: Config) {
    && AllSaneFeed(feed) && |feed| <= config.maxBatchOperations
    && PrefixesFit(feed, config, |feed|)
  }

  ghost predicate PrefixesFit(feed: Feed, config: Config, n: nat)
    requires n <= |feed|
  {
    forall k :: 0 <= k <= n ==> PrefixFits(feed, config, k)
  }

  ghost predicate PrefixFits(feed: Feed, config: Config, n: nat)
    requires n <= |feed|
  {
    AllSaneFeed(feed[..n]) && StagedFits(config, Inserted(LastWins(feed[..n])))
  }

  /** The `n`th operation is the first to be refused, and this is why. */
  ghost predicate OperationRefused(feed: Feed, config: Config, n: nat, error: BeaconError) {
    && n < |feed| && n <= config.maxBatchOperations && PrefixFits(feed, config, n)
    && match error
       case Source(code) => feed[n] == Err(code)
       case Unprepared(code) =>
         && n < config.maxBatchOperations
         && feed[n].Ok? && feed[n].value.Upsert? && feed[n].value.prepared == Err(code)
       case ResourceLimit =>
         && feed[n].Ok?
         && (n == config.maxBatchOperations || StagesTooMuch(feed, config, n + 1, true))
       case Arithmetic => n < config.maxBatchOperations && StagesTooMuch(feed, config, n + 1, false)
       case _ => false
  }

  /** The first `n` operations are sound but stage more than the limits, or more than 64 bits can count. */
  ghost predicate StagesTooMuch(feed: Feed, config: Config, n: nat, countable: bool)
    requires n <= |feed|
  {
    && AllSaneFeed(feed[..n]) && !PrefixFits(feed, config, n)
    && countable == StagedCountable(Inserted(LastWins(feed[..n])))
  }

  lemma RefusedIsInadmissible(feed: Feed, config: Config, n: nat, error: BeaconError)
    requires OperationRefused(feed, config, n, error)
    ensures !BatchAdmitted(feed, config)
  {
  }

  lemma LastWinsStep(feed: Feed, n: nat)
    requires n < |feed| && AllSaneFeed(feed[..n]) && Sane(feed[n])
    ensures AllSaneFeed(feed[..n + 1])
    ensures LastWins(feed[..n + 1]) == LastWins(feed[..n])[feed[n].value.id := Outcome(feed[n])]
  {
    assert feed[..n + 1] == feed[..n] + [feed[n]];
    assert feed[..n + 1][..n] == feed[..n];
  }

  /** What the first `n` operations come to, and how much they stage. */
  ghost predicate NormalizedTo(feed: Feed, n: nat, normalized: map<nat, Option<Document>>, staged: Staged)
    requires n <= |feed|
  {
    AllSaneFeed(feed[..n]) && normalized == LastWins(feed[..n]) && StagedOf(staged, Inserted(normalized))
  }

  /** One operation of a batch: validated, counted against the limits, and staged over any earlier one. */
  method NormalizeOne(feed: Feed, n: nat, config: Config, normalized: map<nat, Option<Document>>, staged: Staged,
    ghost next: nat)
    returns (r: Result<(map<nat, Option<Document>>, Staged), BeaconError>)
    requires n < |feed| && n <= config.maxBatchOperations && next == n + 1
    requires PrefixesFit(feed, config, n) && NormalizedTo(feed, n, normalized, staged)
    ensures r.Ok? ==> n < config.maxBatchOperations && PrefixesFit(feed, config, next)
    ensures r.Ok? ==> NormalizedTo(feed, next, r.value.0, r.value.1)
    ensures r.Err? ==> OperationRefused(feed, config, n, r.error) && !BatchAdmitted(feed, config)
  {
    assert PrefixFits(feed, config, n);
    if feed[n].Err? {
      r := Err(Source(feed[n].error));
      RefusedIsInadmissible(feed, config, n, r.error);
      return;
    }
    if n == config.maxBatchOperations {
      r := Err(ResourceLimit);
      RefusedIsInadmissible(feed, config, n, r.error);
      return;
    }
    var mutation := feed[n].value;
    if mutation.Upsert? && mutation.prepared.Err? {
      r := Err(Unprepared(mutation.prepared.error));
      RefusedIsInadmissible(feed, config, n, r.error);
      return;
    }
    LastWinsStep(feed, n);
    var document := Outcome(feed[n]);
    var after := Supersede(normalized, staged, mutation.id, document, config);
    if after.Err? {
      r := Err(after.error);
      RefusedIsInadmissible(feed, config, n, r.error);
      return;
    }
    assert PrefixFits(feed, config, next);
    r := Ok((normalized[mutation.id := document], after.value));
  }

  /** Why a batch is refused before anything is applied. */
  ghost predicate BatchRefused(feed: Feed, config: Config, remaining: nat, error: BeaconError) {
    if error.WorkRefused? then remaining < |feed| else exists n :: OperationRefused(feed, config, n, error)
  }

  /** Validates every operation and keeps the last one per vertex. */
  method Normalize(feed: Feed, config: Config, work: Work) returns (r: Result<map<nat, Option<Document>>, BeaconError>)
    modifies work
    ensures r.Ok? <==> BatchAdmitted(feed, config) && |feed| <= old(work.remaining)
    ensures r.Ok? ==> r.value == LastWins(feed) && work.remaining == old(work.remaining) - |feed|
    ensures r.Err? ==> BatchRefused(feed, config, old(work.remaining), r.error)
  {
    var normalized: map<nat, Option<Document>> := map[];
    var staged := Staged(0, 0, 0);
    NothingNormalized(feed, config);
    for n := 0 to |feed|
      invariant n <= config.maxBatchOperations && work.remaining == old(work.remaining) - n
      invariant PrefixesFit(feed, config, n) && NormalizedTo(feed, n, normalized, staged)
    {
      var ok := work.Charge(1);
      if !ok {
        return Err(WorkRefused);
      }
      var next := NormalizeOne(feed, n, config, normalized, staged, n + 1);
      if next.Err? {
        return Err(next.error);
      }
      normalized, staged := next.value.0, next.value.1;
    }
    assert feed[..|feed|] == feed;
    r := Ok(normalized);
  }

  lemma NothingNormalized(feed: Feed, config: Config)
    ensures PrefixesFit(feed, config, 0) && NormalizedTo(feed, 0, map[], Staged(0, 0, 0))
  {
    assert Inserted(map[]) == map[];
    assert PrefixFits(feed, config, 0);
  }

  // ----- applying a batch to a draft

  ghost function Overlaid(live: map<nat, Live>, batch: map<nat, Option<Document>>, sequence: nat): map<nat, Live> {
    map id | id in live.Keys + batch.Keys && (id in batch ==> batch[id].Some?) ::
      if id in batch then Live(sequence, batch[id].value) else live[id]
  }

  /** The live documents after a batch. */
  ghost function Overlay(docs: map<nat, Document>, batch: map<nat, Option<Document>>): map<nat, Document> {
    map id | id in docs.Keys + batch.Keys && (id in batch ==> batch[id].Some?) ::
      if id in batch then batch[id].value else docs[id]
  }

  lemma OverlaidStep(live: map<nat, Live>, done: map<nat, Option<Document>>, id: nat, d: Option<Document>,
    sequence: nat)
    requires id !in done
    ensures Updated(Overlaid(live, done, sequence), id, d, sequence) == Overlaid(live, done[id := d], sequence)
  {
  }

  lemma OverlaidContents(live: map<nat, Live>, batch: map<nat, Option<Document>>, sequence: nat)
    ensures Contents(Overlaid(live, batch, sequence)) == Overlay(Contents(live), batch)
  {
  }

  /** The part of the batch on vertices below `v`. */
  ghost function Below(batch: map<nat, Option<Document>>, v: nat): map<nat, Option<Document>> {
    map id | id in batch && id < v :: batch[id]
  }

  /** No vertex of the batch lies between `v` and `w`. */
  ghost predicate Gap(batch: map<nat, Option<Document>>, v: nat, w: nat) {
    forall id :: id in batch ==> !(v <= id < w)
  }

  lemma BelowGap(batch: map<nat, Option<Document>>, v: nat, w: nat)
    requires v <= w && Gap(batch, v, w)
    ensures Below(batch, w) == Below(batch, v)
  {
  }

  lemma BelowNext(batch: map<nat, Option<Document>>, v: nat, id: nat)
    requires v <= id && Gap(batch, v, id) && id in batch
    ensures Below(batch, id + 1) == Below(batch, v)[id := batch[id]] && id !in Below(batch, v)
  {
  }

  lemma NothingOverlaid(live: map<nat, Live>, sequence: nat)
    ensures Overlaid(live, map[], sequence) == live
  {
  }

  /** After the operations on vertices below `v` every counter still fits. */
  ghost predicate CountsAt(docs: map<nat, Document>, batch: map<nat, Option<Document>>, v: nat) {
    forall c: Counter :: FitsAt(c, docs, batch, v)
  }

  ghost predicate FitsAt(c: Counter, docs: map<nat, Document>, batch: map<nat, Option<Document>>, v: nat) {
    Fits(c, Overlay(docs, Below(batch, v)))
  }

  lemma CountsAtIs(docs: map<nat, Document>, batch: map<nat, Option<Document>>, v: nat, after: map<nat, Document>)
    requires after == Overlay(docs, Below(batch, v))
    ensures CountsAt(docs, batch, v) <==> Countable(after)
  {
    forall c: Counter
      ensures FitsAt(c, docs, batch, v) <==> Fits(c, after)
    {
    }
  }

  lemma CountsSame(docs: map<nat, Document>, batch: map<nat, Option<Document>>, v: nat, w: nat)
    requires v <= w && Gap(batch, v, w)
    ensures CountsAt(docs, batch, v) <==> CountsAt(docs, batch, w)
  {
    BelowGap(batch, v, w);
    CountsAtIs(docs, batch, v, Overlay(docs, Below(batch, v)));
    CountsAtIs(docs, batch, w, Overlay(docs, Below(batch, v)));
  }

  /** The vertices before which some counter no longer fits. */
  ghost predicate Marks(stuck: iset<nat>, docs: map<nat, Document>, batch: map<nat, Option<Document>>) {
    forall v: nat {:trigger CountsAt(docs, batch, v)} :: v in stuck <==> !CountsAt(docs, batch, v)
  }

  ghost predicate ClearUpTo(stuck: iset<nat>, v: nat) {
    forall u: nat :: u <= v ==> u !in stuck
  }

  /** Applying the batch in vertex order never takes a counter past 64 bits. */
  ghost predicate CountsThrough(docs: map<nat, Document>, batch: map<nat, Option<Document>>) {
    forall v: nat :: CountsAt(docs, batch, v)
  }

  /** The draft holds the batch's operations on vertices below `v`, over `start`. */
  ghost predicate Applied(state: DraftState, sequence: nat, start: map<nat, Live>, batch: map<nat, Option<Document>>,
    v: nat) {
    state.live == Overlaid(start, Below(batch, v), sequence) && state.Tallied()
  }

  lemma ClearNext(stuck: iset<nat>, docs: map<nat, Document>, batch: map<nat, Option<Document>>, v: nat, id: nat)
    requires Marks(stuck, docs, batch) && ClearUpTo(stuck, v) && v <= id && Gap(batch, v, id) && id + 1 !in stuck
    ensures ClearUpTo(stuck, id + 1)
  {
    forall u: nat | u <= id + 1
      ensures u !in stuck
    {
      if v < u <= id {
        CountsSame(docs, batch, v, u);
      }
    }
  }

  /** The vertices of the batch, in order. */
  ghost predicate Lists(ids: seq<nat>, batch: map<nat, Option<Document>>) {
    Ordered.StrictlyAscending(ids) && |ids| == |batch| && forall id :: id in batch <==> id in ids
  }

  function Upper(ids: seq<nat>, i: nat): nat
    requires i <= |ids|
  {
    if i == 0 then 0 else ids[i - 1] + 1
  }

  /** The `i`th listed vertex is the next one of the batch. */
  ghost predicate Next(ids: seq<nat>, batch: map<nat, Option<Document>>, i: nat)
    requires i < |ids|
  {
    ids[i] in batch && Upper(ids, i) <= ids[i] && Gap(batch, Upper(ids, i), ids[i])
  }

  ghost predicate Steps(ids: seq<nat>, batch: map<nat, Option<Document>>) {
    forall i :: 0 <= i < |ids| ==> Next(ids, batch, i)
  }

  lemma ListedSteps(ids: seq<nat>, batch: map<nat, Option<Document>>)
    requires Lists(ids, batch)
    ensures Steps(ids, batch)
  {
    forall i | 0 <= i < |ids|
      ensures Next(ids, batch, i)
    {
      assert ids[i] in ids;
    }
  }

  method ApplyVertex(
    draft: Draft, batch: map<nat, Option<Document>>, id: nat, work: Work, ghost v: nat, ghost w: nat,
    ghost start: map<nat, Live>,
    ghost stuck: iset<nat>)
    returns (error: Option<BeaconError>)
    requires Applied(draft.State(), draft.sequence, start, batch, v) && Marks(stuck, Contents(start), batch)
             && ClearUpTo(stuck, v)
    requires id in batch && v <= id && w == id + 1 && Gap(batch, v, id)
    modifies draft`live, draft`totals, draft.corpus, work
    ensures error.None? ==> Applied(draft.State(), draft.sequence, start, batch, w) && ClearUpTo(stuck, w)
    ensures error.None? ==> work.remaining == old(work.remaining) - 1
    ensures error.Some? ==> if error.value.WorkRefused? then old(work.remaining) < 1
                            else CountError(error.value) && stuck != iset{}
  {
    var ok := work.Charge(1);
    if !ok {
      return Some(WorkRefused);
    }
    BelowNext(batch, v, id);
    OverlaidStep(start, Below(batch, v), id, batch[id], draft.sequence);
    OverlaidContents(start, Below(batch, w), draft.sequence);
    error := draft.ApplyOne(id, batch[id]);
    CountsAtIs(Contents(start), batch, w, Contents(Overlaid(start, Below(batch, w), draft.sequence)));
    if error.None? {
      ClearNext(stuck, Contents(start), batch, v, id);
    } else {
      assert w in stuck;
    }
  }

  method ApplyNext(
    draft: Draft, batch: map<nat, Option<Document>>, ids: seq<nat>, i: nat, work: Work, ghost v: nat, ghost w: nat,
    ghost start: map<nat, Live>, ghost stuck: iset<nat>)
    returns (error: Option<BeaconError>)
    requires i < |ids| && v == Upper(ids, i) && w == Upper(ids, i + 1) && Steps(ids, batch)
             && Marks(stuck, Contents(start), batch)
    requires Applied(draft.State(), draft.sequence, start, batch, v) && ClearUpTo(stuck, v)
    modifies draft`live, draft`totals, draft.corpus, work
    ensures error.None? ==> Applied(draft.State(), draft.sequence, start, batch, w) && ClearUpTo(stuck, w)
    ensures error.None? ==> work.remaining == old(work.remaining) - 1
    ensures error.Some? ==> if error.value.WorkRefused? then old(work.remaining) < 1
                            else CountError(error.value) && stuck != iset{}
  {
    assert Next(ids, batch, i);
    error := ApplyVertex(draft, batch, ids[i], work, v, w, start, stuck);
  }

  lemma NothingApplied(draft: Draft, batch: map<nat, Option<Document>>, stuck: iset<nat>)
    requires draft.Tallies(Contents(draft.live)) && Marks(stuck, Contents(draft.live), batch)
    ensures Applied(draft.State(), draft.sequence, draft.live, batch, 0) && ClearUpTo(stuck, 0)
  {
    assert Below(batch, 0) == map[];
    NothingOverlaid(draft.live, draft.sequence);
    OverlaidContents(draft.live, map[], draft.sequence);
    CountsAtIs(Contents(draft.live), batch, 0, Contents(draft.live));
  }

  lemma AllListed(stuck: iset<nat>, docs: map<nat, Document>, ids: seq<nat>, batch: map<nat, Option<Document>>)
    requires Lists(ids, batch) && Marks(stuck, docs, batch) && ClearUpTo(stuck, Upper(ids, |ids|))
    ensures Below(batch, Upper(ids, |ids|)) == batch && CountsThrough(docs, batch)
  {
    var end := Upper(ids, |ids|);
    forall v: nat
      ensures CountsAt(docs, batch, v)
    {
      if end < v {
        CountsSame(docs, batch, end, v);
      }
    }
  }

  method ApplyListed(draft: Draft, batch: map<nat, Option<Document>>, ids: seq<nat>, work: Work, ghost stuck: iset<nat>)
    returns (error: Option<BeaconError>)
    requires draft.Tallies(Contents(draft.live)) && Steps(ids, batch) && Marks(stuck, Contents(draft.live), batch)
    modifies draft`live, draft`totals, draft.corpus, work
    ensures error.None? ==>
            Applied(draft.State(), draft.sequence, old(draft.live), batch, Upper(ids, |ids|))
            && ClearUpTo(stuck, Upper(ids, |ids|))
    ensures error.None? ==> work.remaining == old(work.remaining) - |ids|
    ensures error.Some? ==> if error.value.WorkRefused? then old(work.remaining) < |ids|
                            else CountError(error.value) && stuck != iset{}
  {
    ghost var start := draft.live;
    ghost var v := 0;
    NothingApplied(draft, batch, stuck);
    for i := 0 to |ids|
      invariant v == Upper(ids, i)
      invariant Applied(draft.State(), draft.sequence, start, batch, v) && ClearUpTo(stuck, v)
      invariant work.remaining == old(work.remaining) - i
    {
      ghost var w := Upper(ids, i + 1);
      error := ApplyNext(draft, batch, ids, i, work, v, w, start, stuck);
      if error.Some? {
        return;
      }
      v := w;
    }
    error := None;
  }

  /** Applies every normalized operation, in vertex order. */
  method ApplyAll(draft: Draft, batch: map<nat, Option<Document>>, work: Work) returns (error: Option<BeaconError>)
    requires draft.Tallies(Contents(draft.live))
    modifies draft`live, draft`totals, draft.corpus, work
    ensures error.None? <==> |batch| <= old(work.remaining) && CountsThrough(old(Contents(draft.live)), batch)
    ensures error.None? ==> draft.live == Overlaid(old(draft.live), batch, draft.sequence)
    ensures error.None? ==> draft.Tallies(Contents(draft.live)) && work.remaining == old(work.remaining) - |batch|
    ensures error.Some? ==> if error.value.WorkRefused? then old(work.remaining) < |batch|
                            else CountError(error.value) && !CountsThrough(old(Contents(draft.live)), batch)
  {
    var ids := Ordered.Ascending(batch.Keys);
    ghost var docs := Contents(draft.live);
    ghost var stuck := iset v: nat | !CountsAt(docs, batch, v);
    ListedSteps(ids, batch);
    error := ApplyListed(draft, batch, ids, work, stuck);
    if error.None? {
      AllListed(stuck, docs, ids, batch);
    }
  }

  // ----- sealing a draft

  /** Live documents are placed already or wait to be written by this draft. */
  ghost predicate PlacedOrWaiting(live: map<nat, Live>, segments: seq<Segment>, waiting: map<nat, Document>,
    sequence: nat) {
    forall id :: id in live ==>
      (id in waiting && live[id] == Live(sequence, waiting[id])) || exists i: nat :: Home(segments, i, id, live[id])
  }

  lemma BatchWaits(live: map<nat, Live>, segments: seq<Segment>, batch: map<nat, Option<Document>>, sequence: nat)
    requires Placed(live, segments)
    ensures PlacedOrWaiting(Overlaid(live, batch, sequence), segments, Inserted(batch), sequence)
  {
  }

  lemma HomeKept(segments: seq<Segment>, more: seq<Segment>, i: nat, id: nat, l: Live)
    requires Home(segments, i, id, l)
    ensures Home(segments + more, i, id, l)
  {
  }

  /** A new segment gives every waiting document its home. */
  lemma WrittenIsPlaced(live: map<nat, Live>, segments: seq<Segment>, waiting: map<nat, Document>, sequence: nat,
    s: Segment)
    requires PlacedOrWaiting(live, segments, waiting, sequence)
    requires s.generation == sequence && forall id :: Holds(s, id, Under(waiting, id))
    ensures Placed(live, segments + [s])
  {
    forall id | id in live
      ensures exists i: nat :: Home(segments + [s], i, id, live[id])
    {
      if i: nat :| Home(segments, i, id, live[id]) {
        HomeKept(segments, [s], i, id, live[id]);
      } else {
        assert Holds(s, id, Under(waiting, id));
        assert Home(segments + [s], |segments|, id, live[id]);
      }
    }
  }

  lemma LayeredPush(segments: seq<Segment>, s: Segment, sequence: nat, m: nat)
    requires Layered(segments, sequence, m) && s.generation == sequence && SegmentSound(s, m)
    requires forall i :: 0 <= i < |segments| ==> segments[i].generation < sequence
    ensures Layered(segments + [s], sequence, m)
  {
  }

  lemma NothingWaits(live: map<nat, Live>, segments: seq<Segment>, sequence: nat)
    requires PlacedOrWaiting(live, segments, map[], sequence)
    ensures Placed(live, segments)
  {
  }

  /** Segments written before this draft, and a live map that only this draft is still to write. */
  ghost predicate Sealable(
    live: map<nat, Live>, segments: seq<Segment>, waiting: map<nat, Document>, sequence: nat, config: Config) {
    && 0 < config.maxSegments && |segments| <= config.maxSegments
    && (forall i :: 0 <= i < |segments| ==> segments[i].generation < sequence)
    && Layered(segments, sequence, config.m)
    && PlacedOrWaiting(live, segments, waiting, sequence)
    && Total(VectorDocuments, Contents(live)) <= config.maxVectors
    && Total(VectorDocuments, waiting) <= config.maxVectors
  }

  method Write(draft: Draft, waiting: map<nat, Document>)
    requires Sealable(draft.live, draft.segments, waiting, draft.sequence, draft.config)
    modifies draft`segments
    ensures Placed(draft.live, draft.segments) && Layered(draft.segments, draft.sequence, draft.config.m)
    ensures |draft.segments| == old(|draft.segments|) + 1
  {
    var s := BuildSegment(draft.sequence, waiting, draft.config);
    WrittenIsPlaced(draft.live, draft.segments, waiting, draft.sequence, s);
    LayeredPush(draft.segments, s, draft.sequence, draft.config.m);
    draft.segments := draft.segments + [s];
  }

  /** Writes the waiting documents, merging all segments first when there would be too many. */
  method Seal(draft: Draft, waiting: map<nat, Document>) returns (compacted: bool)
    requires Sealable(draft.live, draft.segments, waiting, draft.sequence, draft.config)
    modifies draft`live, draft`segments
    ensures Contents(draft.live) == old(Contents(draft.live))
    ensures Placed(draft.live, draft.segments) && Layered(draft.segments, draft.sequence, draft.config.m)
    ensures |draft.segments| <= draft.config.maxSegments
    ensures compacted <==>
            old(draft.live) == map[]
              || old(|draft.segments|) + (if waiting == map[] then 0 else 1) > draft.config.maxSegments
    ensures |draft.segments| == if compacted then (if old(draft.live) == map[] then 0 else 1)
                                else old(|draft.segments|) + if waiting == map[] then 0 else 1
  {
    var projected := |draft.segments| + if waiting == map[] then 0 else 1;
    compacted := draft.live == map[] || projected > draft.config.maxSegments;
    if compacted {
      draft.Compact();
    } else if waiting != map[] {
      Write(draft, waiting);
    } else {
      NothingWaits(draft.live, draft.segments, draft.sequence);
    }
  }

  // ----- the index

  datatype Report = Report(operations: nat, distinctVertices: nat, compacted: bool, segments: nat)

  const NO_STATS: Stats := Stats(0, 0, map[], 0)
  const NO_TOTALS: Totals := Totals(0, 0, 0, 0)

  lemma EmptyRecounts()
    ensures Recounts(NO_STATS, map[]) && TotalsOf(NO_TOTALS, map[]) && Countable(map[])
  {
    assert Vocabulary(map[]) == {};
    forall t: Term
      ensures Holders(map[], t) == {}
    {
    }
    RecountsIs(NO_STATS, map[]);
  }

  /** A draft whose every invariant is in place. */
  ghost predicate Publishable(draft: Draft, config: Config)
    reads draft, draft.corpus
  {
    && draft.config == config && draft.sequence < BASE
    && draft.Tallies(Contents(draft.live)) && Placed(draft.live, draft.segments)
    && Layered(draft.segments, draft.sequence, config.m) && |draft.segments| <= config.maxSegments
    && FitsLimits(config, Contents(draft.live))
  }

  /** The batch fits on top of `g`: the sequence, the counters and the limits all have room. */
  ghost predicate Follows(g: Generation, config: Config, batch: map<nat, Option<Document>>) {
    && g.sequence + 1 < BASE
    && CountsThrough(Contents(g.live), batch)
    && FitsLimits(config, Overlay(Contents(g.live), batch))
  }

  /** Why an admitted batch on top of `g` is refused. */
  ghost predicate Excused(g: Generation, config: Config, batch: map<nat, Option<Document>>, error: BeaconError,
    remaining: nat) {
    || (error.WorkRefused? && remaining <= |batch|)
    || (error.GenerationExhausted? && g.sequence + 1 >= BASE)
    || (error.ResourceLimit? && !FitsLimits(config, Overlay(Contents(g.live), batch)))
    || (CountError(error) && !CountsThrough(Contents(g.live), batch))
  }

  /** All segments are merged when nothing stays live or one more would be too many. */
  ghost predicate Merges(g: Generation, config: Config, batch: map<nat, Option<Document>>) {
    || Overlay(Contents(g.live), batch) == map[]
    || |g.segments| + (if Inserted(batch) == map[] then 0 else 1) > config.maxSegments
  }

  ghost function SegmentsAfter(g: Generation, config: Config, batch: map<nat, Option<Document>>): nat {
    if Overlay(Contents(g.live), batch) == map[] then 0
    else if Merges(g, config, batch) then 1
    else |g.segments| + if Inserted(batch) == map[] then 0 else 1
  }

  lemma NothingLive(live: map<nat, Live>)
    ensures live == map[] <==> Contents(live) == map[]
  {
    if live != map[] {
      var id :| id in live;
      assert id in Contents(live);
    }
  }

  /** The draft holds the whole batch over `g`, within the limits, and is still to be sealed. */
  ghost predicate Drafted(draft: Draft, g: Generation, config: Config, batch: map<nat, Option<Document>>)
    reads draft, draft.corpus
  {
    && draft.config == config && draft.sequence == g.sequence + 1 < BASE && draft.segments == g.segments
    && draft.live == Overlaid(g.live, batch, draft.sequence)
    && draft.Tallies(Contents(draft.live)) && FitsLimits(config, Contents(draft.live))
  }

  method DraftBatch(g: Generation, config: Config, batch: map<nat, Option<Document>>, work: Work)
    returns (r: Result<Draft, BeaconError>)
    requires Recounts(g.stats, Contents(g.live)) && TotalsOf(g.totals, Contents(g.live)) && Countable(Contents(g.live))
    modifies work
    ensures r.Ok? <==> |batch| <= old(work.remaining) && Follows(g, config, batch)
    ensures r.Ok? ==> fresh(r.value) && fresh(r.value.corpus) && Drafted(r.value, g, config, batch)
    ensures r.Ok? ==> work.remaining == old(work.remaining) - |batch|
    ensures r.Err? ==> Excused(g, config, batch, r.error, old(work.remaining))
  {
    if g.sequence + 1 >= BASE {
      return Err(GenerationExhausted);
    }
    var draft := new Draft(config, g.sequence + 1, g.live, g.segments, g.stats, g.totals);
    var error := ApplyAll(draft, batch, work);
    if error.Some? {
      return Err(error.value);
    }
    OverlaidContents(g.live, batch, draft.sequence);
    error := draft.CheckLimits();
    if error.Some? {
      return Err(error.value);
    }
    r := Ok(draft);
  }

  /** What was layered by one sequence is layered, and older, at the next. */
  lemma LayeredLater(segments: seq<Segment>, sequence: nat, m: nat)
    requires Layered(segments, sequence, m)
    ensures Layered(segments, sequence + 1, m) && forall i :: 0 <= i < |segments| ==>
            segments[i].generation < sequence + 1
  {
  }

  lemma OverlaySealable(g: Generation, config: Config, batch: map<nat, Option<Document>>, sequence: nat)
    requires sequence == g.sequence + 1 && Layered(g.segments, g.sequence, config.m)
             && |g.segments| <= config.maxSegments && Placed(g.live, g.segments)
    requires 0 < config.maxSegments && FitsLimits(config, Overlay(Contents(g.live), batch))
    ensures Sealable(Overlaid(g.live, batch, sequence), g.segments, Inserted(batch), sequence, config)
  {
    LayeredLater(g.segments, g.sequence, config.m);
    BatchWaits(g.live, g.segments, batch, sequence);
    VectorsWithin(Inserted(batch), Overlay(Contents(g.live), batch));
    VectorsFit(config, Overlay(Contents(g.live), batch));
    OverlaidContents(g.live, batch, sequence);
  }

  lemma DraftedSeals(draft: Draft, g: Generation, config: Config, batch: map<nat, Option<Document>>)
    requires Valid(g, config) && 0 < config.maxSegments && Drafted(draft, g, config, batch)
    ensures Sealable(draft.live, draft.segments, Inserted(batch), draft.sequence, draft.config)
    ensures Contents(draft.live) == Overlay(Contents(g.live), batch)
    ensures draft.live == map[] <==> Overlay(Contents(g.live), batch) == map[]
  {
    OverlaidContents(g.live, batch, draft.sequence);
    OverlaySealable(g, config, batch, draft.sequence);
    NothingLive(draft.live);
  }

  method SealDraft(draft: Draft, config: Config, waiting: map<nat, Document>) returns (compacted: bool)
    requires draft.config == config && draft.sequence < BASE
             && Sealable(draft.live, draft.segments, waiting, draft.sequence, config)
    requires draft.Tallies(Contents(draft.live)) && FitsLimits(config, Contents(draft.live))
    modifies draft`live, draft`segments
    ensures Publishable(draft, config) && Contents(draft.live) == old(Contents(draft.live))
    ensures compacted <==>
            old(draft.live) == map[]
            || old(|draft.segments|) + (if waiting == map[] then 0 else 1) > config.maxSegments
    ensures |draft.segments| == if compacted then (if old(draft.live) == map[] then 0 else 1)
                                else old(|draft.segments|) + if waiting == map[] then 0 else 1
  {
    compacted := Seal(draft, waiting);
  }

  method SealBatch(draft: Draft, g: Generation, config: Config, batch: map<nat, Option<Document>>)
    returns (compacted: bool)
    requires Valid(g, config) && 0 < config.maxSegments && Drafted(draft, g, config, batch)
    modifies draft`live, draft`segments
    ensures Publishable(draft, config) && Contents(draft.live) == Overlay(Contents(g.live), batch)
    ensures (compacted <==> Merges(g, config, batch)) && |draft.segments| == SegmentsAfter(g, config, batch)
  {
    DraftedSeals(draft, g, config, batch);
    compacted := SealDraft(draft, config, Inserted(batch));
  }

  /** Builds the generation that follows `g` after a batch. */
  method Succeed(g: Generation, config: Config, batch: map<nat, Option<Document>>, work: Work)
    returns (r: Result<Draft, BeaconError>, compacted: bool)
    requires Valid(g, config) && 0 < config.maxSegments
    modifies work
    ensures r.Ok? <==> |batch| <= old(work.remaining) && Follows(g, config, batch)
    ensures r.Ok? ==> fresh(r.value) && fresh(r.value.corpus) && Publishable(r.value, config)
    ensures r.Ok? ==> Advances(r.value, g, config, batch, compacted) && work.remaining == old(work.remaining) - |batch|
    ensures r.Err? ==> Excused(g, config, batch, r.error, old(work.remaining))
  {
    compacted := false;
    r := DraftBatch(g, config, batch, work);
    if r.Ok? {
      compacted := SealBatch(r.value, g, config, batch);
    }
  }

  /** The draft is what follows `g` after the batch. */
  ghost predicate Advances(draft: Draft, g: Generation, config: Config, batch: map<nat, Option<Document>>,
    compacted: bool)
    reads draft
  {
    && draft.sequence == g.sequence + 1 && Contents(draft.live) == Overlay(Contents(g.live), batch)
    && (compacted <==> Merges(g, config, batch)) && |draft.segments| == SegmentsAfter(g, config, batch)
  }

  /** Publishing is paid for last. */
  method SucceedPaid(g: Generation, config: Config, batch: map<nat, Option<Document>>, work: Work)
    returns (r: Result<Draft, BeaconError>, compacted: bool)
    requires Valid(g, config) && 0 < config.maxSegments
    modifies work
    ensures r.Ok? <==> |batch| < old(work.remaining) && Follows(g, config, batch)
    ensures r.Ok? ==> fresh(r.value) && fresh(r.value.corpus) && Publishable(r.value, config)
    ensures r.Ok? ==> Advances(r.value, g, config, batch, compacted)
    ensures r.Err? ==> Excused(g, config, batch, r.error, old(work.remaining))
  {
    r, compacted := Succeed(g, config, batch, work);
    if r.Ok? {
      var ok := work.Charge(1);
      if !ok {
        r := Err(WorkRefused);
      }
    }
  }

  /** A row of a bulk load: a vertex and its prepared document. */
  datatype Row = Row(id: nat, prepared: Result<Document, nat>)

  predicate SaneRow(e: Result<Row, nat>) {
    e.Ok? && e.value.prepared.Ok?
  }

  /** The documents of a bulk load. */
  ghost function Loaded(rows: seq<Result<Row, nat>>): map<nat, Document>
    requires AllSane(rows)
  {
    if rows == [] then map[] else
    var last := rows[|rows| - 1];
    assert SaneRow(last);
    Loaded(rows[..|rows| - 1])[last.value.id := last.value.prepared.value]
  }

  /** Why a row may be refused after the documents already loaded. */
  ghost predicate RowRefused(config: Config, docs: map<nat, Document>, row: Result<Row, nat>, error: BeaconError,
    remaining: nat) {
    match error
    case WorkRefused => remaining < 1
    case Source(code) => row == Err(code)
    case DuplicateVertex(id) => row.Ok? && row.value.id == id && id in docs
    case Unprepared(code) =>
      row.Ok? && row.value.id !in docs && |docs| != config.maxDocuments && row.value.prepared == Err(code)
    case ResourceLimit =>
      && row.Ok? && row.value.id !in docs
      && if SaneRow(row) then !FitsLimits(config, docs[row.value.id := row.value.prepared.value])
         else |docs| >= config.maxDocuments
    case Arithmetic | Invariant(_) => Uncounted(docs, row, error)
    case GenerationExhausted => false
  }

  /** The counters have no room for the row, and the error names the first that has none. */
  ghost predicate Uncounted(docs: map<nat, Document>, row: Result<Row, nat>, error: BeaconError) {
    && SaneRow(row) && row.value.id !in docs && !Countable(docs[row.value.id := row.value.prepared.value])
    && error == CountErrorOf(docs[row.value.id := row.value.prepared.value])
  }

  lemma OneTooMany(config: Config, docs: map<nat, Document>, id: nat, d: Document)
    requires id !in docs && |docs| >= config.maxDocuments
    ensures !FitsLimits(config, docs[id := d])
  {
    var after := docs[id := d];
    assert after.Keys == docs.Keys + {id} && |after| == |after.Keys| && |docs| == |docs.Keys|;
    assert !WithinLimit(LiveDocuments, config, after);
  }

  method LoadRow(draft: Draft, row: Result<Row, nat>, work: Work) returns (error: Option<BeaconError>)
    requires draft.Tallies(Contents(draft.live))
    modifies draft`live, draft`totals, draft.corpus, work
    ensures error.None? ==> SaneRow(row) && row.value.id !in old(Contents(draft.live))
    ensures error.None? ==> Contents(draft.live) == old(Contents(draft.live))[row.value.id := row.value.prepared.value]
    ensures error.None? ==> draft.Tallies(Contents(draft.live)) && FitsLimits(draft.config, Contents(draft.live))
    ensures error.None? ==> work.remaining == old(work.remaining) - 1
    ensures error.Some? ==> RowRefused(draft.config, old(Contents(draft.live)), row, error.value, old(work.remaining))
  {
    assert Contents(draft.live).Keys == draft.live.Keys && |draft.live| == |draft.live.Keys|
           && |Contents(draft.live)| == |Contents(draft.live).Keys|;
    var ok := work.Charge(1);
    if !ok {
      return Some(WorkRefused);
    }
    if row.Err? {
      return Some(Source(row.error));
    }
    var id := row.value.id;
    if id in draft.live {
      return Some(DuplicateVertex(id));
    }
    if |draft.live| == draft.config.maxDocuments {
      if row.value.prepared.Ok? {
        OneTooMany(draft.config, Contents(draft.live), id, row.value.prepared.value);
      }
      return Some(ResourceLimit);
    }
    if row.value.prepared.Err? {
      return Some(Unprepared(row.value.prepared.error));
    }
    ContentsInsert(draft.live, id, Live(draft.sequence, row.value.prepared.value));
    error := draft.PutIn(id, row.value.prepared.value);
    if error.None? {
      error := draft.CheckLimits();
    }
  }

  ghost predicate AllSane(rows: seq<Result<Row, nat>>) {
    forall i :: 0 <= i < |rows| ==> SaneRow(rows[i])
  }

  lemma LoadedStep(rows: seq<Result<Row, nat>>, n: nat)
    requires n < |rows| && AllSane(rows[..n]) && SaneRow(rows[n])
    ensures AllSane(rows[..n + 1])
    ensures Loaded(rows[..n + 1]) == Loaded(rows[..n])[rows[n].value.id := rows[n].value.prepared.value]
  {
    assert rows[..n + 1] == rows[..n] + [rows[n]];
    assert rows[..n + 1][..n] == rows[..n];
  }

  function RowId(e: Result<Row, nat>): nat {
    if e.Ok? then e.value.id else 0
  }

  ghost predicate DistinctRows(rows: seq<Result<Row, nat>>) {
    forall i, j :: 0 <= i < j < |rows| ==> RowId(rows[i]) != RowId(rows[j])
  }

  /** Every row is sound, no vertex comes twice, and the whole load fits the counters and the limits. */
  ghost predicate Loadable(config: Config, rows: seq<Result<Row, nat>>) {
    && AllSane(rows) && DistinctRows(rows)
    && Countable(Loaded(rows)) && FitsLimits(config, Loaded(rows))
  }

  lemma {:induction false} LoadedIds(rows: seq<Result<Row, nat>>, id: nat)
    requires AllSane(rows)
    ensures id in Loaded(rows) <==> exists i :: 0 <= i < |rows| && RowId(rows[i]) == id
  {
    if rows != [] {
      var front := rows[..|rows| - 1];
      LoadedIds(front, id);
      assert rows[|rows| - 1] == rows[|front|];
      if id in Loaded(front) {
        var i :| 0 <= i < |front| && RowId(front[i]) == id;
        assert RowId(rows[i]) == id;
      }
    }
  }

  lemma FitsRemove(config: Config, docs: map<nat, Document>, id: nat)
    requires FitsLimits(config, docs) && id in docs
    ensures FitsLimits(config, docs - {id})
  {
    var rest := docs - {id};
    assert rest.Keys == docs.Keys - {id} && |rest| == |rest.Keys| && |docs| == |docs.Keys|;
    forall l: Limit
      ensures WithinLimit(l, config, rest)
    {
      assert WithinLimit(l, config, docs);
      if l.LiveMeasure? {
        TotalRemove(l.measure, docs, id);
      }
    }
  }

  /** A load that fits as a whole fits at every prefix. */
  lemma {:induction false} PrefixLoads(config: Config, rows: seq<Result<Row, nat>>, n: nat)
    requires n <= |rows| && Loadable(config, rows)
    ensures Loadable(config, rows[..n])
    decreases |rows|
  {
    if n == |rows| {
      assert rows[..n] == rows;
    } else {
      var front, id := rows[..|rows| - 1], RowId(rows[|rows| - 1]);
      LoadedIds(front, id);
      assert forall i :: 0 <= i < |front| ==> RowId(front[i]) == RowId(rows[i]);
      assert Loaded(rows) - {id} == Loaded(front);
      CountableRemove(Loaded(rows), id);
      FitsRemove(config, Loaded(rows), id);
      PrefixLoads(config, front, n);
      assert front[..n] == rows[..n];
    }
  }

  /** A row refused for any reason but work makes the load unloadable. */
  lemma RefusedIsUnloadable(config: Config, rows: seq<Result<Row, nat>>, n: nat, error: BeaconError, remaining: nat)
    requires n < |rows| && LoadRefused(config, rows, n, error, remaining) && !error.WorkRefused?
    ensures !Loadable(config, rows)
  {
    if Loadable(config, rows) {
      PrefixLoads(config, rows, n + 1);
      LoadedStep(rows, n);
      LoadedIds(rows[..n], RowId(rows[n]));
    }
  }

  /** The `n`th row is refused after the ones before it were loaded. */
  ghost predicate LoadRefused(config: Config, rows: seq<Result<Row, nat>>, n: nat, error: BeaconError, remaining: nat)
    requires n < |rows|
  {
    AllSane(rows[..n]) && n <= remaining && RowRefused(config, Loaded(rows[..n]), rows[n], error, remaining - n)
  }

  lemma NextLoads(config: Config, rows: seq<Result<Row, nat>>, n: nat)
    requires n < |rows| && AllSane(rows[..n]) && DistinctRows(rows[..n]) && SaneRow(rows[n])
             && rows[n].value.id !in Loaded(rows[..n])
    ensures AllSane(rows[..n + 1]) && DistinctRows(rows[..n + 1])
    ensures Loaded(rows[..n + 1]) == Loaded(rows[..n])[rows[n].value.id := rows[n].value.prepared.value]
  {
    LoadedStep(rows, n);
    LoadedIds(rows[..n], rows[n].value.id);
    var before, after := rows[..n], rows[..n + 1];
    forall i, j | 0 <= i < j < |after|
      ensures RowId(after[i]) != RowId(after[j])
    {
      assert after[i] == before[i];
      assert j < n ==> after[j] == before[j];
    }
  }

  method Load(draft: Draft, rows: seq<Result<Row, nat>>, work: Work) returns (error: Option<BeaconError>)
    requires draft.live == map[] && draft.Tallies(map[])
    modifies draft`live, draft`totals, draft.corpus, work
    ensures error.None? <==> |rows| <= old(work.remaining) && Loadable(draft.config, rows)
    ensures error.None? ==> Contents(draft.live) == Loaded(rows) && draft.Tallies(Contents(draft.live))
    ensures error.None? ==> work.remaining == old(work.remaining) - |rows|
    ensures error.Some? ==>
              exists n :: 0 <= n < |rows| && LoadRefused(draft.config, rows, n, error.value, old(work.remaining))
  {
    NothingLive(draft.live);
    ghost var docs := Contents(draft.live);
    for n := 0 to |rows|
      invariant Loadable(draft.config, rows[..n]) && docs == Loaded(rows[..n])
      invariant Contents(draft.live) == docs && draft.Tallies(docs)
      invariant work.remaining == old(work.remaining) - n
    {
      error := LoadRow(draft, rows[n], work);
      if error.Some? {
        assert LoadRefused(draft.config, rows, n, error.value, old(work.remaining));
        if !error.value.WorkRefused? {
          RefusedIsUnloadable(draft.config, rows, n, error.value, old(work.remaining));
        }
        return;
      }
      NextLoads(draft.config, rows, n);
      docs := docs[rows[n].value.id := rows[n].value.prepared.value];
    }
    assert rows[..|rows|] == rows;
    error := None;
  }

  method DraftLoad(config: Config, sequence: nat, rows: seq<Result<Row, nat>>, work: Work)
    returns (r: Result<Draft, BeaconError>)
    modifies work
    ensures r.Ok? <==> |rows| <= old(work.remaining) && Loadable(config, rows)
    ensures r.Ok? ==>
            fresh(r.value) && fresh(r.value.corpus) && r.value.config == config
            && r.value.sequence == sequence
    ensures r.Ok? ==>
            Contents(r.value.live) == Loaded(rows) && r.value.Tallies(Loaded(rows))
            && FitsLimits(config, Loaded(rows))
    ensures r.Ok? ==> work.remaining == old(work.remaining) - |rows|
    ensures r.Err? ==> exists n :: 0 <= n < |rows| && LoadRefused(config, rows, n, r.error, old(work.remaining))
  {
    var draft := new Draft(config, sequence, map[], [], NO_STATS, NO_TOTALS);
    EmptyRecounts();
    var error := Load(draft, rows, work);
    if error.Some? {
      return Err(error.value);
    }
    r := Ok(draft);
  }

  /** Writes a draft as one segment. */
  method SealLoad(draft: Draft, config: Config)
    requires draft.config == config && draft.sequence < BASE && 0 < config.maxSegments
    requires draft.Tallies(Contents(draft.live)) && FitsLimits(config, Contents(draft.live))
    modifies draft`live, draft`segments
    ensures Publishable(draft, config) && Contents(draft.live) == old(Contents(draft.live))
    ensures |draft.segments| == if Contents(draft.live) == map[] then 0 else 1
  {
    NothingLive(draft.live);
    VectorsFit(config, Contents(draft.live));
    draft.Compact();
  }

  /** The next generation with everything in one segment. */
  method CompactDraft(g: Generation, config: Config, work: Work) returns (r: Result<Draft, BeaconError>)
    requires Valid(g, config) && 0 < config.maxSegments
    modifies work
    ensures r.Ok? <==> g.sequence + 1 < BASE && 1 <= old(work.remaining)
    ensures r.Ok? ==>
            fresh(r.value) && fresh(r.value.corpus) && Publishable(r.value, config)
            && r.value.sequence == g.sequence + 1
    ensures r.Ok? ==> Contents(r.value.live) == Contents(g.live) && |r.value.segments| == if Contents(g.live) == map[]
            then 0 else 1
    ensures r.Err? ==> r.error == if g.sequence + 1 >= BASE then GenerationExhausted else WorkRefused
  {
    if g.sequence + 1 >= BASE {
      return Err(GenerationExhausted);
    }
    var draft := new Draft(config, g.sequence + 1, g.live, g.segments, g.stats, g.totals);
    SealLoad(draft, config);
    var ok := work.Charge(1);
    r := if ok then Ok(draft) else Err(WorkRefused);
  }

  /** Builds a generation from a bulk load alone. */
  method Bootstrap(config: Config, sequence: nat, rows: seq<Result<Row, nat>>, work: Work)
    returns (r: Result<Draft, BeaconError>)
    requires sequence < BASE && 0 < config.maxSegments
    modifies work
    ensures r.Ok? <==> |rows| < old(work.remaining) && Loadable(config, rows)
    ensures r.Ok? ==> fresh(r.value) && fresh(r.value.corpus) && Publishable(r.value, config)
    ensures r.Ok? ==> r.value.sequence == sequence && Contents(r.value.live) == Loaded(rows)
    ensures r.Ok? ==> |r.value.segments| == if Loaded(rows) == map[] then 0 else 1
    ensures r.Err? ==> || (r.error.WorkRefused? && old(work.remaining) <= |rows|)
                       || exists n :: 0 <= n < |rows| && LoadRefused(config, rows, n, r.error, old(work.remaining))
  {
    r := DraftLoad(config, sequence, rows, work);
    if r.Ok? {
      SealLoad(r.value, config);
      var ok := work.Charge(1);
      if !ok {
        r := Err(WorkRefused);
      }
    }
  }

  /** A batch is accepted: admitted, paid for, and empty or fitting on top of `g`. */
  ghost predicate BatchAccepted(g: Generation, config: Config, feed: Feed, remaining: nat) {
    && BatchAdmitted(feed, config) && |feed| <= remaining
    && (LastWins(feed) == map[] || (|feed| + |LastWins(feed)| < remaining && Follows(g, config, LastWins(feed))))
  }

  ghost function ReportOf(g: Generation, config: Config, feed: Feed): Report
    requires AllSaneFeed(feed)
  {
    var batch := LastWins(feed);
    if batch == map[] then Report(|feed|, 0, false, |g.segments|)
    else Report(|feed|, |batch|, Merges(g, config, batch), SegmentsAfter(g, config, batch))
  }

  class BeaconIndex {
    const config: Config
    var current: Generation

    ghost predicate Ready()
      reads this
    {
      0 < config.maxSegments && Valid(current, config)
    }

    constructor (config: Config)
      requires 0 < config.maxSegments
      ensures Ready() && this.config == config && current.live == map[]
    {
      EmptyRecounts();
      assert Contents(map[]) == map[];
      this.config := config;
      current := Generation(0, map[], [], NO_STATS, NO_TOTALS);
    }

    /** Publishes a draft in one step. */
    method Publish(draft: Draft)
      requires 0 < config.maxSegments && Publishable(draft, config)
      modifies this
      ensures Ready() && current.live == draft.live && current.sequence == draft.sequence
              && current.segments == draft.segments
    {
      current := Generation(draft.sequence, draft.live, draft.segments, draft.corpus.Value(), draft.totals);
    }

    /** Builds and publishes the generation after a batch. */
    method ApplyNormalized(batch: map<nat, Option<Document>>, work: Work) returns (r: Result<bool, BeaconError>)
      requires Ready()
      modifies this, work
      ensures Ready()
      ensures r.Ok? <==> |batch| < old(work.remaining) && Follows(old(current), config, batch)
      ensures r.Ok? ==>
              Contents(current.live) == Overlay(old(Contents(current.live)), batch)
              && current.sequence == old(current.sequence) + 1
      ensures r.Ok? ==>
              r.value == Merges(old(current), config, batch)
              && |current.segments| == SegmentsAfter(old(current), config, batch)
      ensures r.Err? ==> current == old(current) && Excused(current, config, batch, r.error, old(work.remaining))
    {
      var next, compacted := SucceedPaid(current, config, batch, work);
      if next.Err? {
        return Err(next.error);
      }
      Publish(next.value);
      r := Ok(compacted);
    }

    /** Applies a whole batch or nothing: a refusal leaves the published generation as it was. */
    method TryApplyBatch(feed: Feed, work: Work) returns (r: Result<Report, BeaconError>)
      requires Ready()
      modifies this, work
      ensures Ready()
      ensures r.Ok? <==> BatchAccepted(old(current), config, feed, old(work.remaining))
      ensures r.Ok? ==> Contents(current.live) == Overlay(old(Contents(current.live)), LastWins(feed))
      ensures r.Ok? ==> current.sequence == old(current.sequence) + if LastWins(feed) == map[] then 0 else 1
      ensures r.Ok? ==> r.value == ReportOf(old(current), config, feed) && r.value.segments == |current.segments|
      ensures r.Err? ==> current == old(current)
      ensures r.Err? ==>
                if BatchAdmitted(feed, config) && |feed| <= old(work.remaining)
                then Excused(old(current), config, LastWins(feed), r.error, old(work.remaining) - |feed|)
                else BatchRefused(feed, config, old(work.remaining), r.error)
    {
      var normalized := Normalize(feed, config, work);
      if normalized.Err? {
        return Err(normalized.error);
      }
      var batch := normalized.value;
      if batch == map[] {
        NothingOverlaid(current.live, 0);
        OverlaidContents(current.live, batch, 0);
        return Ok(Report(|feed|, 0, false, |current.segments|));
      }
      var compacted := ApplyNormalized(batch, work);
      if compacted.Err? {
        return Err(compacted.error);
      }
      r := Ok(Report(|feed|, |batch|, compacted.value, |current.segments|));
    }

    /** Replaces the whole corpus, or nothing. */
    method TryReplaceAll(rows: seq<Result<Row, nat>>, work: Work) returns (r: Result<(), BeaconError>)
      requires Ready()
      modifies this, work
      ensures Ready()
      ensures r.Ok? <==> old(current.sequence) + 1 < BASE && |rows| < old(work.remaining) && Loadable(config, rows)
      ensures r.Ok? ==>
              Contents(current.live) == Loaded(rows)
              && |current.segments| == if Loaded(rows) == map[] then 0 else 1
      ensures r.Ok? ==> current.sequence == old(current.sequence) + 1
      ensures r.Err? ==> current == old(current)
      ensures r.Err? ==>
                || (r.error.GenerationExhausted? && old(current.sequence) + 1 >= BASE)
                || (r.error.WorkRefused? && old(work.remaining) <= |rows|)
                || exists n :: 0 <= n < |rows| && LoadRefused(config, rows, n, r.error, old(work.remaining))
    {
      if current.sequence + 1 >= BASE {
        return Err(GenerationExhausted);
      }
      var next := Bootstrap(config, current.sequence + 1, rows, work);
      if next.Err? {
        return Err(next.error);
      }
      Publish(next.value);
      r := Ok(());
    }

    /** Merges all segments into one without changing what is live. */
    method Compact(work: Work) returns (r: Result<(), BeaconError>)
      requires Ready()
      modifies this, work
      ensures Ready()
      ensures r.Ok? ==>
              Contents(current.live) == old(Contents(current.live))
              && current.sequence == old(current.sequence) + 1
      ensures r.Ok? ==> |current.segments| == if Contents(current.live) == map[] then 0 else 1
      ensures r.Err? ==> current == old(current)
      ensures r.Err? ==> r.error == if current.sequence + 1 >= BASE then GenerationExhausted else WorkRefused
      ensures r.Ok? <==> old(current.sequence) + 1 < BASE && 1 <= old(work.remaining)
    {
      var draft := CompactDraft(current, config, work);
      if draft.Err? {
        return Err(draft.error);
      }
      Publish(draft.value);
      r := Ok(());
    }
  }
}
