/** Text analysis from a token stream, and phrase matching over the positions it records. */
module Analysis {
  import opened Words
  import opened Ordered

  type Term = string

  const MAX_FREQUENCY: nat := 0xFFFF_FFFF

  /** One ascending position list per term; `length` counts the tokens. */
  datatype Text = Text(frequencies: map<Term, seq<nat>>, length: nat, sourceBytes: nat)

  /** Analyzed text has tokens wherever it has terms. */
  type AnalyzedText = t: Text | t.frequencies == map[] || t.length > 0 witness Text(map[], 0, 0)

  datatype AnalysisError = TooManyTerms(limit: nat) | TermTooFrequent

  /** `q` lists, in ascending order, exactly where `term` stands in `tokens`. */
  ghost predicate PositionsOf(q: seq<nat>, tokens: seq<Term>, term: Term) {
    && StrictlyAscending(q)
    && (forall p :: p in q <==> 0 <= p < |tokens| && tokens[p] == term)
  }

  /** The position lists of the terms partition `0..length`. */
  ghost predicate Analyzes(text: Text, tokens: seq<Term>) {
    && text.length == |tokens|
    && (forall t :: t in text.frequencies <==> t in tokens)
    && (forall t :: t in text.frequencies ==> PositionsOf(text.frequencies[t], tokens, t))
  }

  ghost function TokenSet(tokens: seq<Term>): set<Term> {
    set t | t in tokens
  }

  /** The limits hold: few enough distinct terms, and none too frequent. */
  ghost predicate WithinLimits(text: Text, limit: nat) {
    |text.frequencies| <= limit && forall t :: t in text.frequencies ==> |text.frequencies[t]| <= MAX_FREQUENCY
  }

  lemma PositionsStep(q: seq<nat>, tokens: seq<Term>, term: Term, token: Term)
    requires PositionsOf(q, tokens, term)
    ensures term != token ==> PositionsOf(q, tokens + [token], term)
    ensures term == token ==> PositionsOf(q + [|tokens|], tokens + [token], term)
  {
    assert forall i :: 0 <= i < |q| ==> q[i] in q;
  }

  ghost function Places(tokens: seq<Term>, term: Term): set<nat> {
    set p: nat | p < |tokens| && tokens[p] == term
  }

  lemma PositionsCount(q: seq<nat>, tokens: seq<Term>, term: Term)
    requires PositionsOf(q, tokens, term)
    ensures |q| == |Places(tokens, term)|
  {
    DistinctSize(q);
    assert Members(q) == Places(tokens, term);
  }

  /** Few enough distinct tokens, and none too frequent. */
  ghost predicate Admissible(tokens: seq<Term>, limit: nat) {
    |TokenSet(tokens)| <= limit && forall t :: t in tokens ==> |Places(tokens, t)| <= MAX_FREQUENCY
  }

  /** A prefix past a limit leaves the whole stream past it. */
  lemma InadmissiblePrefix(tokens: seq<Term>, n: nat, limit: nat)
    requires n <= |tokens| && !Admissible(tokens[..n], limit)
    ensures !Admissible(tokens, limit)
  {
    var front := tokens[..n];
    SubsetSize(TokenSet(front), TokenSet(tokens));
    if |TokenSet(front)| <= limit {
      var t :| t in front && |Places(front, t)| > MAX_FREQUENCY;
      SubsetSize(Places(front, t), Places(tokens, t));
      assert t in tokens;
    }
  }

  lemma NewTokenCounts(tokens: seq<Term>, token: Term)
    requires token !in tokens
    ensures |TokenSet(tokens + [token])| == |TokenSet(tokens)| + 1
  {
    assert TokenSet(tokens + [token]) == TokenSet(tokens) + {token};
  }

  lemma RepeatedTokenCounts(tokens: seq<Term>, token: Term)
    ensures |Places(tokens + [token], token)| == |Places(tokens, token)| + 1
  {
    var all, earlier := tokens + [token], Places(tokens, token);
    assert all[|tokens|] == token;
    assert forall p: nat :: p < |tokens| ==> all[p] == tokens[p];
    assert Places(all, token) == earlier + {|tokens|};
    assert |tokens| !in earlier;
  }

  lemma RefusalIsInadmissible(frequencies: map<Term, seq<nat>>, tokens: seq<Term>, token: Term, limit: nat)
    requires Analyzes(Text(frequencies, |tokens|, 0), tokens)
    requires || (token !in tokens && |frequencies| == limit)
             || (token in frequencies && |frequencies[token]| == MAX_FREQUENCY)
    ensures !Admissible(tokens + [token], limit)
  {
    if token !in tokens {
      assert frequencies.Keys == TokenSet(tokens);
      NewTokenCounts(tokens, token);
    } else {
      PositionsCount(frequencies[token], tokens, token);
      RepeatedTokenCounts(tokens, token);
      assert token in tokens + [token];
    }
  }

  lemma AdmittedIsAdmissible(text: Text, tokens: seq<Term>, limit: nat)
    requires Analyzes(text, tokens) && WithinLimits(text, limit)
    ensures Admissible(tokens, limit)
  {
    assert text.frequencies.Keys == TokenSet(tokens);
    forall t | t in tokens
      ensures |Places(tokens, t)| <= MAX_FREQUENCY
    {
      PositionsCount(text.frequencies[t], tokens, t);
    }
  }

  lemma NonemptyHasTokens(text: Text, tokens: seq<Term>)
    requires Analyzes(text, tokens)
    ensures text.frequencies == map[] || text.length > 0
  {
    if text.frequencies != map[] {
      var t :| t in text.frequencies;
    }
  }

  class Analyzer {
    var frequencies: map<Term, seq<nat>>
    var length: nat

    ghost function Value(bytes: nat): Text
      reads this
    {
      Text(frequencies, length, bytes)
    }

    constructor ()
      ensures frequencies == map[] && length == 0
    {
      frequencies, length := map[], 0;
    }

    /** Records one token at the next position. */
    method FinishToken(token: Term, limit: nat, ghost tokens: seq<Term>) returns (error: Option<AnalysisError>)
      requires token != [] && Analyzes(Value(0), tokens)
      modifies this
      ensures error.None? ==> Analyzes(Value(0), tokens + [token])
      ensures error.None? && old(WithinLimits(Value(0), limit)) ==> WithinLimits(Value(0), limit)
      ensures error.Some? ==>
                || (token !in tokens && |old(frequencies)| == limit)
                || (token in old(frequencies) && |old(frequencies)[token]| == MAX_FREQUENCY)
      ensures error.Some? ==> frequencies == old(frequencies)
    {
      if token !in frequencies && |frequencies| == limit {
        return Some(TooManyTerms(limit));
      }
      var positions := if token in frequencies then frequencies[token] else [];
      if |positions| == MAX_FREQUENCY {
        return Some(TermTooFrequent);
      }
      if token !in frequencies {
        assert PositionsOf([], tokens, token);
      }
      forall t | t in frequencies
        ensures t != token ==> PositionsOf(frequencies[t], tokens + [token], t)
      {
        PositionsStep(frequencies[t], tokens, t, token);
      }
      PositionsStep(positions, tokens, token, token);
      ghost var before := frequencies;
      frequencies := frequencies[token := positions + [length]];
      assert frequencies.Keys == before.Keys + {token};
      length := length + 1;
      error := None;
    }
  }

  /** Analyzes a token stream, or refuses it exactly when a limit is passed. */
  method Analyze(tokens: seq<Term>, sourceBytes: nat, limit: nat) returns (r: Result<AnalyzedText, AnalysisError>)
    requires forall i :: 0 <= i < |tokens| ==> tokens[i] != []
    ensures r.Ok? <==> Admissible(tokens, limit)
    ensures r.Ok? ==> Analyzes(r.value, tokens) && r.value.sourceBytes == sourceBytes
  {
    var analyzer := new Analyzer();
    for i := 0 to |tokens|
      invariant fresh(analyzer)
      invariant Analyzes(analyzer.Value(0), tokens[..i]) && WithinLimits(analyzer.Value(0), limit)
    {
      assert tokens[..i + 1] == tokens[..i] + [tokens[i]];
      ghost var before := analyzer.frequencies;
      var error := analyzer.FinishToken(tokens[i], limit, tokens[..i]);
      if error.Some? {
        RefusalIsInadmissible(before, tokens[..i], tokens[i], limit);
        InadmissiblePrefix(tokens, i + 1, limit);
        return Err(error.value);
      }
    }
    assert tokens[..|tokens|] == tokens;
    AdmittedIsAdmissible(analyzer.Value(0), tokens, limit);
    NonemptyHasTokens(analyzer.Value(0), tokens);
    r := Ok(Text(analyzer.frequencies, analyzer.length, sourceBytes));
  }

  // ----- phrases

  /** `phrase` stands in `tokens` at `start`. */
  ghost predicate StandsAt(phrase: seq<Term>, tokens: seq<Term>, start: nat) {
    start + |phrase| <= |tokens| && forall o :: 0 <= o < |phrase| ==> tokens[start + o] == phrase[o]
  }

  ghost predicate Occurs(phrase: seq<Term>, tokens: seq<Term>) {
    phrase != [] && exists start: nat :: StandsAt(phrase, tokens, start)
  }

  /** The least index whose position reaches `wanted`. */
  method LowerBound(positions: seq<nat>, wanted: nat) returns (low: nat)
    requires StrictlyAscending(positions)
    ensures low <= |positions|
    ensures forall i :: 0 <= i < low ==> positions[i] < wanted
    ensures forall i :: low <= i < |positions| ==> positions[i] >= wanted
  {
    low := 0;
    var high := |positions|;
    while low < high
      invariant low <= high <= |positions|
      invariant forall i :: 0 <= i < low ==> positions[i] < wanted
      invariant forall i :: high <= i < |positions| ==> positions[i] >= wanted
    {
      var middle := low + (high - low) / 2;
      if positions[middle] < wanted {
        low := middle + 1;
      } else {
        high := middle;
      }
    }
  }

  method Contains(positions: seq<nat>, wanted: nat) returns (found: bool)
    requires StrictlyAscending(positions)
    ensures found <==> wanted in positions
  {
    var low := LowerBound(positions, wanted);
    found := low < |positions| && positions[low] == wanted;
  }

  /** The query's position lists and the document's, term by term. */
  ghost predicate Paired(
    query: seq<seq<nat>>, document: seq<seq<nat>>, terms: seq<Term>, phrase: seq<Term>, tokens: seq<Term>) {
    && |query| == |document| == |terms|
    && (forall t :: t in terms <==> t in phrase)
    && (forall i :: 0 <= i < |terms| ==>
          PositionsOf(query[i], phrase, terms[i]) && PositionsOf(document[i], tokens, terms[i]))
  }

  /** Every offset of the `i`th term has its place in the document. */
  ghost predicate TermFits(query: seq<nat>, document: seq<nat>, start: nat, done: nat)
    requires done <= |query|
  {
    forall j :: 0 <= j < done ==> start + query[j] in document
  }

  method CheckTerm(query: seq<nat>, document: seq<nat>, start: nat) returns (fits: bool)
    requires StrictlyAscending(document)
    ensures fits <==> TermFits(query, document, start, |query|)
  {
    for j := 0 to |query|
      invariant TermFits(query, document, start, j)
    {
      var found := Contains(document, start + query[j]);
      if !found {
        return false;
      }
    }
    fits := true;
  }

  /** A start serves every term exactly when the phrase stands there. */
  lemma TermsDecide(
    query: seq<seq<nat>>, document: seq<seq<nat>>, terms: seq<Term>, phrase: seq<Term>, tokens: seq<Term>, start: nat)
    requires Paired(query, document, terms, phrase, tokens) && start + |phrase| <= |tokens|
    ensures StandsAt(phrase, tokens, start) <==>
            forall i :: 0 <= i < |terms| ==> TermFits(query[i], document[i], start, |query[i]|)
  {
    if StandsAt(phrase, tokens, start) {
      forall i, j | 0 <= i < |terms| && 0 <= j < |query[i]|
        ensures start + query[i][j] in document[i]
      {
        assert query[i][j] in query[i];
      }
    }
    if forall i :: 0 <= i < |terms| ==> TermFits(query[i], document[i], start, |query[i]|) {
      forall o | 0 <= o < |phrase|
        ensures tokens[start + o] == phrase[o]
      {
        assert phrase[o] in terms;
        var i :| 0 <= i < |terms| && terms[i] == phrase[o];
        assert o in query[i];
        var j :| 0 <= j < |query[i]| && query[i][j] == o;
        assert TermFits(query[i], document[i], start, |query[i]|);
        assert start + query[i][j] in document[i];
      }
    }
  }

  method CheckStart(
    query: seq<seq<nat>>, document: seq<seq<nat>>, start: nat,
    ghost terms: seq<Term>, ghost phrase: seq<Term>, ghost tokens: seq<Term>) returns (stands: bool)
    requires Paired(query, document, terms, phrase, tokens) && start + |phrase| <= |tokens|
    ensures stands <==> StandsAt(phrase, tokens, start)
  {
    TermsDecide(query, document, terms, phrase, tokens, start);
    for i := 0 to |query|
      invariant forall k :: 0 <= k < i ==> TermFits(query[k], document[k], start, |query[k]|)
    {
      var fits := CheckTerm(query[i], document[i], start);
      if !fits {
        return false;
      }
    }
    stands := true;
  }

  /** The rarest document list, and the first query offset of its term. */
  method Anchor(query: seq<seq<nat>>, document: seq<seq<nat>>) returns (anchor: nat)
    requires |query| == |document| > 0
    ensures anchor < |document|
    ensures forall i :: 0 <= i < |document| ==> |document[anchor]| <= |document[i]|
  {
    anchor := 0;
    for i := 1 to |document|
      invariant anchor < |document|
      invariant forall k :: 0 <= k < i ==> |document[anchor]| <= |document[k]|
    {
      if |document[i]| < |document[anchor]| {
        anchor := i;
      }
    }
  }

  /** Wherever the phrase stands, the anchor's first offset is one of its document positions. */
  lemma AnchorCovers(
    query: seq<seq<nat>>, document: seq<seq<nat>>, terms: seq<Term>, phrase: seq<Term>, tokens: seq<Term>, anchor: nat,
    start: nat)
    requires Paired(query, document, terms, phrase, tokens) && anchor < |terms| && StandsAt(phrase, tokens, start)
    ensures query[anchor] != [] && start + query[anchor][0] in document[anchor]
  {
    assert terms[anchor] in terms;
    var o :| 0 <= o < |phrase| && phrase[o] == terms[anchor];
    assert o in query[anchor];
    TermsDecide(query, document, terms, phrase, tokens, start);
    assert TermFits(query[anchor], document[anchor], start, |query[anchor]|);
  }

  /** True exactly when the nonempty query token sequence occurs contiguously in the document. */
  method PhraseMatches(
    query: seq<seq<nat>>, document: seq<seq<nat>>, queryLength: nat, documentLength: nat,
    ghost terms: seq<Term>, ghost phrase: seq<Term>, ghost tokens: seq<Term>) returns (matches: bool)
    requires Paired(query, document, terms, phrase, tokens)
    requires queryLength == |phrase| && documentLength == |tokens|
    ensures matches <==> Occurs(phrase, tokens)
  {
    if queryLength == 0 || queryLength > documentLength {
      return false;
    }
    assert phrase[0] in terms;
    var anchor := Anchor(query, document);
    var candidates := document[anchor];
    assert query[anchor] != [] by {
      assert terms[anchor] in terms;
      var o :| 0 <= o < |phrase| && phrase[o] == terms[anchor];
      assert o in query[anchor];
    }
    var offset := query[anchor][0];
    for c := 0 to |candidates|
      invariant forall s: nat :: StandsAt(phrase, tokens, s) ==> s + offset !in candidates[..c]
    {
      assert candidates[..c + 1] == candidates[..c] + [candidates[c]];
      var position := candidates[c];
      if position < offset || position - offset > documentLength - queryLength {
        continue;
      }
      var stands := CheckStart(query, document, position - offset, terms, phrase, tokens);
      if stands {
        return true;
      }
    }
    assert candidates[..|candidates|] == candidates;
    forall s: nat | StandsAt(phrase, tokens, s)
      ensures false
    {
      AnchorCovers(query, document, terms, phrase, tokens, anchor, s);
    }
    matches := false;
  }

  // ----- phrases in analyzed text

  function PositionList(text: Text, term: Term): seq<nat> {
    if term in text.frequencies then text.frequencies[term] else []
  }

  function PositionLists(text: Text, terms: seq<Term>): (lists: seq<seq<nat>>)
    ensures |lists| == |terms|
  {
    seq(|terms|, i requires 0 <= i < |terms| => PositionList(text, terms[i]))
  }

  /** Analysis gives the matcher the position lists it needs, whatever order the terms come in. */
  lemma AnalyzedPairs(query: Text, document: Text, terms: seq<Term>, phrase: seq<Term>, tokens: seq<Term>)
    requires Analyzes(query, phrase) && Analyzes(document, tokens)
    requires forall t :: t in terms <==> t in query.frequencies
    ensures Paired(PositionLists(query, terms), PositionLists(document, terms), terms, phrase, tokens)
  {
    forall i | 0 <= i < |terms|
      ensures PositionsOf(PositionList(query, terms[i]), phrase, terms[i])
      ensures PositionsOf(PositionList(document, terms[i]), tokens, terms[i])
    {
      assert terms[i] in terms;
    }
  }

  method ListTerms(keys: set<Term>) returns (terms: seq<Term>)
    ensures forall t :: t in terms <==> t in keys
  {
    terms := [];
    var left := keys;
    while left != {}
      invariant forall t :: t in keys <==> t in terms || t in left
      decreases left
    {
      var term :| term in left;
      terms, left := terms + [term], left - {term};
    }
  }

  /** Whether an analyzed phrase stands in an analyzed document. */
  method DocumentMatches(query: Text, document: Text, ghost phrase: seq<Term>, ghost tokens: seq<Term>)
    returns (matches: bool)
    requires Analyzes(query, phrase) && Analyzes(document, tokens)
    ensures matches <==> Occurs(phrase, tokens)
  {
    var terms := ListTerms(query.frequencies.Keys);
    AnalyzedPairs(query, document, terms, phrase, tokens);
    matches := PhraseMatches(PositionLists(query, terms), PositionLists(document, terms), query.length,
                             document.length, terms, phrase, tokens);
  }

  /** Analyzing a phrase and a document and matching the results finds the phrase exactly where it stands. */
  method PhraseInText(phrase: seq<Term>, tokens: seq<Term>, queryLimit: nat, documentLimit: nat)
    returns (r: Result<bool, AnalysisError>)
    requires forall i :: 0 <= i < |phrase| ==> phrase[i] != []
    requires forall i :: 0 <= i < |tokens| ==> tokens[i] != []
    ensures r.Ok? <==> Admissible(phrase, queryLimit) && Admissible(tokens, documentLimit)
    ensures r.Ok? ==> (r.value <==> Occurs(phrase, tokens))
  {
    var query := Analyze(phrase, 0, queryLimit);
    if query.Err? {
      return Err(query.error);
    }
    var document := Analyze(tokens, 0, documentLimit);
    if document.Err? {
      return Err(document.error);
    }
    var matches := DocumentMatches(query.value, document.value, phrase, tokens);
    r := Ok(matches);
  }
}
