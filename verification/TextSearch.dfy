/** Text segments and the k-way posting merge, proved against a scan of the documents. */
module TextSearch {
  import opened Words
  import opened Analysis
  import opened Corpus
  import opened Ranking
  import Ordered

  datatype TextSegment = TextSegment(postings: map<Term, map<nat, seq<nat>>>, lengths: map<nat, nat>)

  const EMPTY: TextSegment := TextSegment(map[], map[])
  const NOTHING: Document := Document(None, None)

  predicate Has(seg: TextSegment, term: Term, id: nat) {
    term in seg.postings && id in seg.postings[term]
  }

  function Posting(seg: TextSegment, term: Term, id: nat): seq<nat> {
    if Has(seg, term, id) then seg.postings[term][id] else []
  }

  function Positions(d: Document, term: Term): seq<nat> {
    if Mentions(d, term) then d.text.value.frequencies[term] else []
  }

  /** The segment holds exactly the text of `d` under `id`. */
  ghost predicate Stores(seg: TextSegment, id: nat, d: Document) {
    && (id in seg.lengths <==> d.text.Some?)
    && (d.text.Some? ==> seg.lengths[id] == d.text.value.length)
    && (forall t :: Has(seg, t, id) <==> Mentions(d, t))
    && (forall t :: Posting(seg, t, id) == Positions(d, t))
  }

  /** Every posting has a document length. */
  ghost predicate Sound(seg: TextSegment) {
    forall t, id :: Has(seg, t, id) ==> id in seg.lengths
  }

  // ----- building

  function AddPosting(seg: TextSegment, term: Term, id: nat, positions: seq<nat>): TextSegment {
    var list: map<nat, seq<nat>> := if term in seg.postings then seg.postings[term] else map[];
    seg.(postings := seg.postings[term := list[id := positions]])
  }

  lemma AddPostingHas(seg: TextSegment, term: Term, id: nat, positions: seq<nat>)
    ensures var after := AddPosting(seg, term, id, positions);
            && after.lengths == seg.lengths
            && (forall t, i :: Has(after, t, i) <==> Has(seg, t, i) || (t == term && i == id))
            && (forall t, i :: Posting(after, t, i) == if t == term && i == id then positions else Posting(seg, t, i))
  {
  }

  /** The first `done` terms of one document have been posted. */
  ghost predicate Posted(seg: TextSegment, before: TextSegment, id: nat, d: Document, left: set<Term>) {
    && seg.lengths == before.lengths
    && (forall t, i :: i != id ==>
          (Has(seg, t, i) <==> Has(before, t, i)) && Posting(seg, t, i) == Posting(before, t, i))
    && (forall t :: Has(seg, t, id) <==> Mentions(d, t) && t !in left)
    && (forall t :: t !in left ==> Posting(seg, t, id) == Positions(d, t))
  }

  method PostTerms(seg: TextSegment, id: nat, d: Document) returns (posted: TextSegment)
    requires d.text.Some? && forall t :: !Has(seg, t, id)
    ensures Posted(posted, seg, id, d, {})
  {
    posted := seg;
    var left := d.text.value.frequencies.Keys;
    while left != {}
      invariant left <= d.text.value.frequencies.Keys
      invariant Posted(posted, seg, id, d, left)
      decreases |left|
    {
      var term :| term in left;
      AddPostingHas(posted, term, id, d.text.value.frequencies[term]);
      posted := AddPosting(posted, term, id, d.text.value.frequencies[term]);
      left := left - {term};
    }
  }

  ghost function Listed(docs: map<nat, Document>, ids: seq<nat>, id: nat): Document {
    if id in ids && id in docs then docs[id] else NOTHING
  }

  ghost predicate StoresAll(seg: TextSegment, docs: map<nat, Document>, ids: seq<nat>) {
    forall id :: Stores(seg, id, Listed(docs, ids, id))
  }

  /** Storing one document leaves every other as it was. */
  ghost predicate Keeps(before: TextSegment, after: TextSegment, id: nat) {
    forall i, other :: i != id && Stores(before, i, other) ==> Stores(after, i, other)
  }

  method BuildOne(seg: TextSegment, id: nat, d: Document) returns (after: TextSegment)
    requires Stores(seg, id, NOTHING) && Sound(seg)
    ensures Sound(after) && Stores(after, id, d) && Keeps(seg, after, id)
  {
    if d.text.None? {
      return seg;
    }
    var withLength := seg.(lengths := seg.lengths[id := d.text.value.length]);
    assert forall t, i :: Has(withLength, t, i) == Has(seg, t, i) && Posting(withLength, t, i) == Posting(seg, t, i);
    after := PostTerms(withLength, id, d);
  }

  lemma StoresStep(before: TextSegment, after: TextSegment, docs: map<nat, Document>, ids: seq<nat>, id: nat)
    requires StoresAll(before, docs, ids) && id in docs && Stores(after, id, docs[id]) && Keeps(before, after, id)
    ensures StoresAll(after, docs, ids + [id])
  {
    var longer := ids + [id];
    forall other
      ensures Stores(after, other, Listed(docs, longer, other))
    {
      if other != id {
        assert Stores(before, other, Listed(docs, ids, other));
        assert Listed(docs, longer, other) == Listed(docs, ids, other);
      } else {
        assert id in longer;
      }
    }
  }

  method BuildListed(docs: map<nat, Document>, ids: seq<nat>) returns (seg: TextSegment)
    requires forall i :: 0 <= i < |ids| ==> ids[i] in docs
    requires forall i, j :: 0 <= i < j < |ids| ==> ids[i] != ids[j]
    ensures Sound(seg) && StoresAll(seg, docs, ids)
  {
    seg := EMPTY;
    for i := 0 to |ids|
      invariant Sound(seg) && StoresAll(seg, docs, ids[..i])
    {
      var id := ids[i];
      assert Stores(seg, id, Listed(docs, ids[..i], id));
      ghost var before := seg;
      seg := BuildOne(seg, id, docs[id]);
      StoresStep(before, seg, docs, ids[..i], id);
      assert ids[..i + 1] == ids[..i] + [id];
    }
    assert ids[..|ids|] == ids;
  }

  ghost function Under(docs: map<nat, Document>, id: nat): Document {
    if id in docs then docs[id] else NOTHING
  }

  /** One segment that stores every document given, and nothing else. */
  method Build(docs: map<nat, Document>) returns (seg: TextSegment)
    ensures Sound(seg)
    ensures forall id :: Stores(seg, id, Under(docs, id))
  {
    var ids := Ordered.Ascending(docs.Keys);
    forall i | 0 <= i < |ids|
      ensures ids[i] in docs
    {
      assert ids[i] in ids;
    }
    seg := BuildListed(docs, ids);
    forall id
      ensures Stores(seg, id, Under(docs, id))
    {
      assert Stores(seg, id, Listed(docs, ids, id));
    }
  }
}
