/** Stored documents and the live-corpus statistics, which always equal a recount. */
module Corpus {
  import opened Words
  import opened Analysis

  datatype Document = Document(vector: Option<Vector>, text: Option<AnalyzedText>)

  // ----- recounting

  datatype Measure = TextDocuments | Tokens | TextBytes | DocumentTerms | VectorDocuments | VectorValues

  function Weigh(measure: Measure, d: Document): nat {
    match measure
    case TextDocuments => if d.text.Some? then 1 else 0
    case Tokens => if d.text.Some? then d.text.value.length else 0
    case TextBytes => if d.text.Some? then d.text.value.sourceBytes else 0
    case DocumentTerms => if d.text.Some? then |d.text.value.frequencies| else 0
    case VectorDocuments => if d.vector.Some? then 1 else 0
    case VectorValues => if d.vector.Some? then |d.vector.value| else 0
  }

  ghost function Pick<K>(s: set<K>): (k: K)
    requires s != {}
    ensures k in s
  {
    var k :| k in s;
    k
  }

  /** The measure summed over every document. */
  ghost function Total(measure: Measure, docs: map<nat, Document>): nat
    decreases |docs|
  {
    if docs == map[] then 0 else
    var id := Pick(docs.Keys);
    Weigh(measure, docs[id]) + Total(measure, docs - {id})
  }

  lemma {:induction false} TotalRemove(measure: Measure, docs: map<nat, Document>, id: nat)
    requires id in docs
    ensures Total(measure, docs) == Weigh(measure, docs[id]) + Total(measure, docs - {id})
    decreases |docs|
  {
    var first := Pick(docs.Keys);
    if first != id {
      TotalRemove(measure, docs - {first}, id);
      TotalRemove(measure, docs - {id}, first);
      assert docs - {first} - {id} == docs - {id} - {first};
    }
  }

  lemma TotalInsert(measure: Measure, docs: map<nat, Document>, id: nat, d: Document)
    requires id !in docs
    ensures Total(measure, docs[id := d]) == Total(measure, docs) + Weigh(measure, d)
  {
    TotalRemove(measure, docs[id := d], id);
    assert docs[id := d] - {id} == docs;
  }

  /** The documents that have a vector. */
  ghost function Vectors(docs: map<nat, Document>): set<nat> {
    set id | id in docs && docs[id].vector.Some?
  }

  lemma VectorsInsert(docs: map<nat, Document>, id: nat, d: Document)
    requires id !in docs
    ensures |Vectors(docs[id := d])| == |Vectors(docs)| + Weigh(VectorDocuments, d)
  {
    assert Vectors(docs[id := d]) == Vectors(docs) + if d.vector.Some? then {id} else {};
  }

  lemma {:induction false} VectorsCounted(docs: map<nat, Document>)
    ensures |Vectors(docs)| == Total(VectorDocuments, docs)
    decreases |docs|
  {
    if docs != map[] {
      var id := Pick(docs.Keys);
      var rest := docs - {id};
      VectorsCounted(rest);
      VectorsInsert(rest, id, docs[id]);
      assert rest[id := docs[id]] == docs;
    }
  }

  /** A part has no more vectors than the whole. */
  lemma VectorsWithin(part: map<nat, Document>, docs: map<nat, Document>)
    requires forall id :: id in part ==> id in docs && part[id] == docs[id]
    ensures Total(VectorDocuments, part) <= Total(VectorDocuments, docs)
  {
    VectorsCounted(part);
    VectorsCounted(docs);
    SubsetSize(Vectors(part), Vectors(docs));
  }

  predicate Mentions(d: Document, term: Term) {
    d.text.Some? && term in d.text.value.frequencies
  }

  /** The documents that contain `term`. */
  ghost function Holders(docs: map<nat, Document>, term: Term): set<nat> {
    set id | id in docs && Mentions(docs[id], term)
  }

  lemma HoldersInsert(docs: map<nat, Document>, id: nat, d: Document, term: Term)
    requires id !in docs
    ensures |Holders(docs[id := d], term)| == |Holders(docs, term)| + (if Mentions(d, term) then 1 else 0)
  {
    var after := docs[id := d];
    assert Holders(after, term) == Holders(docs, term) + if Mentions(d, term) then {id} else {};
  }

  lemma HoldersRemove(docs: map<nat, Document>, id: nat, term: Term)
    requires id in docs
    ensures |Holders(docs, term)| == |Holders(docs - {id}, term)| + (if Mentions(docs[id], term) then 1 else 0)
  {
    HoldersInsert(docs - {id}, id, docs[id], term);
    assert (docs - {id})[id := docs[id]] == docs;
  }

  /** No term is in more documents than have text. */
  lemma {:induction false} HoldersBounded(docs: map<nat, Document>, term: Term)
    ensures |Holders(docs, term)| <= Total(TextDocuments, docs)
    decreases |docs|
  {
    if docs != map[] {
      var id := Pick(docs.Keys);
      HoldersRemove(docs, id, term);
      HoldersBounded(docs - {id}, term);
    }
  }

  ghost function TermBytes(terms: set<Term>): nat
    decreases |terms|
  {
    if terms == {} then 0 else
    var t := Pick(terms);
    |t| + TermBytes(terms - {t})
  }

  lemma {:induction false} TermBytesRemove(terms: set<Term>, t: Term)
    requires t in terms
    ensures TermBytes(terms) == |t| + TermBytes(terms - {t})
    decreases |terms|
  {
    var first := Pick(terms);
    if first != t {
      TermBytesRemove(terms - {first}, t);
      TermBytesRemove(terms - {t}, first);
      assert terms - {first} - {t} == terms - {t} - {first};
    }
  }

  // ----- statistics kept up to date

  datatype Stats = Stats(documents: nat, totalLength: nat, frequencies: map<Term, nat>, termBytes: nat)

  function Count(frequencies: map<Term, nat>, t: Term): nat {
    if t in frequencies then frequencies[t] else 0
  }

  /** Document frequencies of `docs`, with one more for each of the `extra` terms. */
  ghost predicate Frequencies(frequencies: map<Term, nat>, docs: map<nat, Document>, extra: set<Term>) {
    && (forall t :: t in frequencies ==> frequencies[t] > 0)
    && (forall t :: Count(frequencies, t) == |Holders(docs, t)| + (if t in extra then 1 else 0))
  }

  /** Every term of every document. */
  ghost function Vocabulary(docs: map<nat, Document>): set<Term> {
    set id, t | id in docs && docs[id].text.Some? && t in docs[id].text.value.frequencies :: t
  }

  lemma VocabularyIs(docs: map<nat, Document>, t: Term)
    ensures t in Vocabulary(docs) <==> Holders(docs, t) != {}
  {
    if id :| id in Holders(docs, t) {
      assert id in docs && docs[id].text.Some? && t in docs[id].text.value.frequencies;
    }
    if t in Vocabulary(docs) {
      var id :| id in docs && docs[id].text.Some? && t in docs[id].text.value.frequencies;
      assert id in Holders(docs, t);
    }
  }

  lemma KeysAreVocabulary(frequencies: map<Term, nat>, docs: map<nat, Document>)
    requires Frequencies(frequencies, docs, {})
    ensures frequencies.Keys == Vocabulary(docs)
  {
    forall t
      ensures t in frequencies <==> t in Vocabulary(docs)
    {
      VocabularyIs(docs, t);
      assert Count(frequencies, t) == |Holders(docs, t)|;
    }
  }

  function TermsOf(d: Document): set<Term> {
    if d.text.Some? then d.text.value.frequencies.Keys else {}
  }

  lemma VocabularyInsert(docs: map<nat, Document>, id: nat, d: Document)
    requires id !in docs
    ensures Vocabulary(docs[id := d]) == Vocabulary(docs) + TermsOf(d)
  {
    var after := docs[id := d];
    forall t
      ensures t in Vocabulary(after) <==> t in Vocabulary(docs) + TermsOf(d)
    {
      VocabularyIs(docs, t);
      VocabularyIs(after, t);
      assert Holders(after, t) == Holders(docs, t) + if Mentions(d, t) then {id} else {};
    }
  }

  /** The statistics counted from scratch. */
  ghost function StatsOf(docs: map<nat, Document>): Stats {
    var frequencies := map t | t in Vocabulary(docs) :: |Holders(docs, t)|;
    Stats(Total(TextDocuments, docs), Total(Tokens, docs), frequencies, TermBytes(Vocabulary(docs)))
  }

  /** The statistics equal a recount of the documents. */
  ghost predicate Recounts(stats: Stats, docs: map<nat, Document>) {
    stats == StatsOf(docs)
  }

  /** Counter by counter. */
  lemma RecountsIs(stats: Stats, docs: map<nat, Document>)
    ensures Recounts(stats, docs) <==>
            && stats.documents == Total(TextDocuments, docs)
            && stats.totalLength == Total(Tokens, docs)
            && Frequencies(stats.frequencies, docs, {})
            && stats.termBytes == TermBytes(stats.frequencies.Keys)
  {
    var counted := StatsOf(docs).frequencies;
    CountedFrequencies(docs);
    if Frequencies(stats.frequencies, docs, {}) {
      KeysAreVocabulary(stats.frequencies, docs);
      forall t | t in counted
        ensures stats.frequencies[t] == counted[t]
      {
        assert Count(stats.frequencies, t) == |Holders(docs, t)|;
      }
      assert stats.frequencies == counted;
    }
  }

  lemma CountedFrequencies(docs: map<nat, Document>)
    ensures Frequencies(StatsOf(docs).frequencies, docs, {}) && StatsOf(docs).frequencies.Keys == Vocabulary(docs)
  {
    forall t
      ensures t in Vocabulary(docs) <==> |Holders(docs, t)| > 0
    {
      VocabularyIs(docs, t);
    }
  }

  lemma FrequenciesInsert(frequencies: map<Term, nat>, docs: map<nat, Document>, id: nat, d: Document, extra: set<Term>)
    requires id !in docs && forall t :: t in extra <==> Mentions(d, t)
    ensures Frequencies(frequencies, docs, extra) <==> Frequencies(frequencies, docs[id := d], {})
  {
    forall t
      ensures |Holders(docs[id := d], t)| == |Holders(docs, t)| + if t in extra then 1 else 0
    {
      HoldersInsert(docs, id, d, t);
    }
  }

  lemma FrequenciesRemove(frequencies: map<Term, nat>, docs: map<nat, Document>, id: nat, extra: set<Term>)
    requires Frequencies(frequencies, docs, {}) && id in docs && forall t :: t in extra <==> Mentions(docs[id], t)
    ensures Frequencies(frequencies, docs - {id}, extra)
  {
    forall t
      ensures Count(frequencies, t) == |Holders(docs - {id}, t)| + if t in extra then 1 else 0
    {
      HoldersRemove(docs, id, t);
    }
  }

  lemma FrequenciesBump(frequencies: map<Term, nat>, docs: map<nat, Document>, extra: set<Term>, term: Term)
    requires Frequencies(frequencies, docs, extra) && term !in extra
    ensures Frequencies(frequencies[term := Count(frequencies, term) + 1], docs, extra + {term})
  {
    var after := frequencies[term := Count(frequencies, term) + 1];
    forall t
      ensures Count(after, t) == |Holders(docs, t)| + if t in extra + {term} then 1 else 0
    {
      assert Count(frequencies, t) == |Holders(docs, t)| + if t in extra then 1 else 0;
    }
  }

  lemma CountBounded(frequencies: map<Term, nat>, docs: map<nat, Document>, extra: set<Term>, term: Term)
    requires Frequencies(frequencies, docs, extra) && term !in extra
    ensures Count(frequencies, term) <= Total(TextDocuments, docs)
  {
    HoldersBounded(docs, term);
  }

  lemma TermBytesAdd(terms: set<Term>, t: Term)
    ensures TermBytes(terms + {t}) == TermBytes(terms) + if t in terms then 0 else |t|
  {
    if t in terms {
      assert terms + {t} == terms;
    } else {
      TermBytesRemove(terms + {t}, t);
      assert terms + {t} - {t} == terms;
    }
  }

  lemma {:induction false} TermBytesMonotone(a: set<Term>, b: set<Term>)
    requires a <= b
    ensures TermBytes(a) <= TermBytes(b)
    decreases |b - a|
  {
    if a != b {
      var t :| t in b && t !in a;
      TermBytesAdd(a, t);
      assert b - (a + {t}) == b - a - {t};
      TermBytesMonotone(a + {t}, b);
    }
  }

  ghost predicate Splits(terms: set<Term>, done: set<Term>, left: set<Term>) {
    terms == done + left && done !! left
  }

  lemma OneLess(keys: set<Term>, terms: set<Term>, done: set<Term>, left: set<Term>, term: Term)
    requires Splits(terms, done, left) && term in left
    ensures Splits(terms, done + {term}, left - {term}) && term !in done
    ensures keys + done + {term} == keys + (done + {term})
    ensures TermBytes(keys + done + {term}) <= TermBytes(keys + terms)
  {
    TermBytesMonotone(keys + done + {term}, keys + terms);
  }

  datatype Counter = Sum(measure: Measure) | VocabularyBytes

  ghost predicate Fits(c: Counter, docs: map<nat, Document>) {
    match c
    case Sum(m) => Total(m, docs) < BASE
    case VocabularyBytes => TermBytes(Vocabulary(docs)) < BASE
  }

  /** Every counter of these documents fits 64 bits. */
  ghost predicate Countable(docs: map<nat, Document>) {
    forall c: Counter :: Fits(c, docs)
  }

  lemma CountableIs(docs: map<nat, Document>)
    ensures Countable(docs) <==>
            && Fits(Sum(TextDocuments), docs) && Fits(Sum(Tokens), docs) && Fits(Sum(TextBytes), docs)
            && Fits(Sum(DocumentTerms), docs) && Fits(Sum(VectorDocuments), docs) && Fits(Sum(VectorValues), docs)
            && Fits(VocabularyBytes, docs)
  {
  }

  lemma FitsInsert(m: Measure, docs: map<nat, Document>, id: nat, d: Document)
    requires id !in docs
    ensures Fits(Sum(m), docs[id := d]) <==> Total(m, docs) + Weigh(m, d) < BASE
  {
    TotalInsert(m, docs, id, d);
  }

  lemma CountableRemove(docs: map<nat, Document>, id: nat)
    requires Countable(docs)
    ensures Countable(docs - {id})
  {
    if id !in docs {
      assert docs - {id} == docs;
      return;
    }
    var rest := docs - {id};
    assert rest[id := docs[id]] == docs;
    VocabularyInsert(rest, id, docs[id]);
    TermBytesMonotone(Vocabulary(rest), Vocabulary(docs));
    forall c: Counter
      ensures Fits(c, rest)
    {
      assert Fits(c, docs);
      if c.Sum? {
        TotalRemove(c.measure, docs, id);
      }
    }
  }

  /** Counting this text would take some counter past 64 bits. */
  ghost predicate Overflows(stats: Stats, text: Text) {
    || stats.documents + 1 >= BASE
    || stats.totalLength + text.length >= BASE
    || TermBytes(stats.frequencies.Keys + text.frequencies.Keys) >= BASE
  }

  /** The statistics of `docs`, read as those of the rest and one more text. */
  lemma BeforeRemove(stats: Stats, docs: map<nat, Document>, id: nat)
    requires Recounts(stats, docs) && id in docs && docs[id].text.Some?
    ensures var rest, text := docs - {id}, docs[id].text.value;
            && stats.documents == Total(TextDocuments, rest) + 1
            && stats.totalLength == Total(Tokens, rest) + text.length
            && Frequencies(stats.frequencies, rest, text.frequencies.Keys)
            && stats.termBytes == TermBytes(stats.frequencies.Keys)
  {
    var rest, d := docs - {id}, docs[id];
    RecountsIs(stats, docs);
    TotalRemove(TextDocuments, docs, id);
    TotalRemove(Tokens, docs, id);
    FrequenciesRemove(stats.frequencies, docs, id, d.text.value.frequencies.Keys);
  }

  datatype CorpusError = CountOverflow | Underflow | MissingTerm

  class CorpusStats {
    var documents: nat
    var totalLength: nat
    var frequencies: map<Term, nat>
    var termBytes: nat

    constructor (stats: Stats)
      ensures Value() == stats
    {
      documents, totalLength, frequencies, termBytes := stats.documents, stats.totalLength, stats.frequencies,
        stats.termBytes;
    }

    function Value(): Stats
      reads this
    {
      Stats(documents, totalLength, frequencies, termBytes)
    }

    method AddTerm(term: Term, ghost docs: map<nat, Document>, ghost extra: set<Term>)
      returns (error: Option<CorpusError>)
      requires Frequencies(frequencies, docs, extra) && term !in extra
               && termBytes == TermBytes(frequencies.Keys) < BASE
      requires Total(TextDocuments, docs) + 1 < BASE
      modifies this`frequencies, this`termBytes
      ensures error == if TermBytes(old(frequencies.Keys) + {term}) < BASE then None else Some(CountOverflow)
      ensures error.None? ==> Frequencies(frequencies, docs, extra + {term}) && termBytes == TermBytes(frequencies.Keys)
      ensures error.None? ==> frequencies.Keys == old(frequencies.Keys) + {term}
    {
      TermBytesAdd(frequencies.Keys, term);
      FrequenciesBump(frequencies, docs, extra, term);
      CountBounded(frequencies, docs, extra, term);
      ghost var keys := frequencies.Keys + {term};
      var count := Count(frequencies, term);
      var bytes := if term in frequencies then termBytes else termBytes + |term|;
      if (term !in frequencies && bytes >= BASE) || count + 1 >= BASE {
        return Some(CountOverflow);
      }
      termBytes := bytes;
      frequencies := frequencies[term := count + 1];
      assert frequencies.Keys == keys;
      error := None;
    }

    method AddTerms(terms: set<Term>, ghost docs: map<nat, Document>) returns (error: Option<CorpusError>)
      requires Frequencies(frequencies, docs, {}) && termBytes == TermBytes(frequencies.Keys) < BASE
      requires Total(TextDocuments, docs) + 1 < BASE
      modifies this`frequencies, this`termBytes
      ensures error == if TermBytes(old(frequencies.Keys) + terms) < BASE then None else Some(CountOverflow)
      ensures error.None? ==> Frequencies(frequencies, docs, terms) && termBytes == TermBytes(frequencies.Keys)
    {
      var left := terms;
      ghost var keys, done := frequencies.Keys, {};
      assert keys + done == keys;
      while left != {}
        invariant Splits(terms, done, left)
        invariant Frequencies(frequencies, docs, done) && termBytes == TermBytes(frequencies.Keys) < BASE
        invariant frequencies.Keys == keys + done
        decreases left
      {
        var term :| term in left;
        OneLess(keys, terms, done, left, term);
        error := AddTerm(term, docs, done);
        if error.Some? {
          return;
        }
        left, done := left - {term}, done + {term};
      }
      assert done == terms;
      error := None;
    }

    /** Counts one more document; it is refused exactly when a counter would overflow. */
    method Add(id: nat, d: Document, ghost docs: map<nat, Document>) returns (error: Option<CorpusError>)
      requires Recounts(Value(), docs) && termBytes < BASE && id !in docs && d.text.Some?
      modifies this
      ensures error == if Overflows(old(Value()), d.text.value) then Some(CountOverflow) else None
      ensures error.None? ==> Recounts(Value(), docs[id := d])
    {
      var text := d.text.value;
      RecountsIs(Value(), docs);
      if documents + 1 >= BASE || totalLength + text.length >= BASE {
        return Some(CountOverflow);
      }
      TotalInsert(TextDocuments, docs, id, d);
      TotalInsert(Tokens, docs, id, d);
      documents := documents + 1;
      totalLength := totalLength + text.length;
      error := AddTerms(text.frequencies.Keys, docs);
      if error.None? {
        FrequenciesInsert(frequencies, docs, id, d, text.frequencies.Keys);
        RecountsIs(Value(), docs[id := d]);
      }
    }

    method RemoveTerm(term: Term, ghost docs: map<nat, Document>, ghost extra: set<Term>)
      returns (error: Option<CorpusError>)
      requires Frequencies(frequencies, docs, extra) && term in extra && termBytes == TermBytes(frequencies.Keys)
      modifies this`frequencies, this`termBytes
      ensures error.None?
      ensures Frequencies(frequencies, docs, extra - {term}) && termBytes == TermBytes(frequencies.Keys)
    {
      if term !in frequencies {
        return Some(MissingTerm);
      }
      var count := frequencies[term];
      if count < 1 {
        return Some(Underflow);
      }
      ghost var before := frequencies;
      if count == 1 {
        TermBytesRemove(frequencies.Keys, term);
        frequencies := frequencies - {term};
        assert frequencies.Keys == before.Keys - {term};
        termBytes := termBytes - |term|;
      } else {
        frequencies := frequencies[term := count - 1];
        assert frequencies.Keys == before.Keys;
      }
      assert forall t :: t != term ==> Count(frequencies, t) == Count(before, t);
      error := None;
    }

    method RemoveTerms(terms: set<Term>, ghost docs: map<nat, Document>) returns (error: Option<CorpusError>)
      requires Frequencies(frequencies, docs, terms) && termBytes == TermBytes(frequencies.Keys)
      modifies this`frequencies, this`termBytes
      ensures error.None? && Frequencies(frequencies, docs, {}) && termBytes == TermBytes(frequencies.Keys)
    {
      var left := terms;
      while left != {}
        invariant Frequencies(frequencies, docs, left) && termBytes == TermBytes(frequencies.Keys)
        decreases left
      {
        var term :| term in left;
        error := RemoveTerm(term, docs, left);
        if error.Some? {
          return;
        }
        left := left - {term};
      }
      error := None;
    }

    /** Forgets a live document; the underflow and missing-term refusals are unreachable. */
    method Remove(id: nat, d: Document, ghost docs: map<nat, Document>) returns (error: Option<CorpusError>)
      requires Recounts(Value(), docs) && id in docs && docs[id] == d && d.text.Some?
      modifies this
      ensures error.None? && Recounts(Value(), docs - {id})
    {
      var text := d.text.value;
      ghost var rest := docs - {id};
      BeforeRemove(Value(), docs, id);
      if documents < 1 || totalLength < text.length {
        return Some(Underflow);
      }
      documents := documents - 1;
      totalLength := totalLength - text.length;
      error := RemoveTerms(text.frequencies.Keys, rest);
      RecountsIs(Value(), rest);
    }
  }
}
