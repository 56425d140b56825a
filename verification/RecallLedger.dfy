/** The append-only recall ledger: consecutive sequences, distinct members, counters that recount. */
module RecallLedger {
  import opened Words
  import opened Ordered
  import opened Arith
  import opened RecallInterval

  const MAX_RECALL_QUERIES: nat := 1_048_576
  const MAX_RECALL_TOP_K: nat := 65_536
  const MAX_RECALL_RESULT_IDS: nat := 4_194_304
  const MAX_CONFIDENCE_EXPONENT: nat := 63

  // A 32-byte object identity, as the big-endian number its bytes spell.
  const OID_LIMIT: int := 0x1_00000000_00000000_00000000_00000000_00000000_00000000_00000000_00000000
  type Oid = x: int | 0 <= x < 0x1_00000000_00000000_00000000_00000000_00000000_00000000_00000000_00000000

  datatype Window = Window(first: u64, last: u64) {
    predicate Valid() {
      first <= last && last - first + 1 < BASE
    }

    function Capacity(): int {
      last - first + 1
    }
  }

  /** What every observation must agree on with the ledger. */
  datatype Binding = Binding(
    monitor: Oid, profile: Oid, population: Oid, snapshot: Oid, authority: Oid, sampleKey: Oid, sampleDesign: Oid,
    baseline: Oid, candidatePolicy: Oid, epoch: u64)

  datatype Identity = Identity(binding: Binding, fallbackPolicy: Oid, rebuildPolicy: Oid, window: Window) {
    predicate Valid() {
      && window.Valid()
      && binding.candidatePolicy != fallbackPolicy
      && binding.candidatePolicy != rebuildPolicy
      && fallbackPolicy != rebuildPolicy
    }
  }

  datatype SampleDesign = UniformWithoutReplacement | IndependentWithReplacement | UnspecifiedDependence

  datatype Assumptions = Assumptions(
    design: SampleDesign, baselineComplete: bool, authorizationFixed: bool, candidateFixed: bool) {
    predicate Supported() {
      !design.UnspecifiedDependence? && baselineComplete && authorizationFixed && candidateFixed
    }
  }

  datatype Profile = Profile(
    oid: Oid, topK: usize, maximumQueries: usize, maximumResultIds: usize, exponent: u8,
    candidateThreshold: u64, rebuildThreshold: u64, assumptions: Assumptions) {
    predicate Valid() {
      && 0 < topK <= MAX_RECALL_TOP_K
      && 0 < maximumQueries <= MAX_RECALL_QUERIES
      && 0 < maximumResultIds <= MAX_RECALL_RESULT_IDS
      && topK * 2 <= maximumResultIds
      && 0 < exponent <= MAX_CONFIDENCE_EXPONENT
      && rebuildThreshold <= candidateThreshold <= RECALL_SCALE
    }
  }

  datatype Observation = Observation(sequence: u64, member: Oid, query: Oid, binding: Binding, baseline: seq<Oid>,
    candidate: seq<Oid>) {
    ghost predicate Valid() {
      && 0 < |baseline| <= MAX_RECALL_TOP_K && StrictlyAscending(baseline)
      && 0 < |candidate| <= MAX_RECALL_TOP_K && StrictlyAscending(candidate)
    }

    /** How many of the exact results the candidate found. */
    ghost function Hits(): nat {
      |Members(baseline) * Members(candidate)|
    }
  }

  // ----- counting a sorted intersection

  lemma IntersectionSkip(a: seq<Oid>, i: nat, b: seq<Oid>, j: nat)
    requires StrictlyAscending(a) && StrictlyAscending(b) && i < |a| && j <= |b|
    requires forall k :: j <= k < |b| ==> a[i] < b[k]
    ensures Members(a[i..]) * Members(b[j..]) == Members(a[i + 1..]) * Members(b[j..])
  {
    assert a[i..] == [a[i]] + a[i + 1..];
    assert a[i] !in Members(b[j..]);
  }

  lemma IntersectionStep(a: seq<Oid>, i: nat, b: seq<Oid>, j: nat)
    requires StrictlyAscending(a) && StrictlyAscending(b) && i < |a| && j < |b|
    ensures a[i] < b[j] ==> |Members(a[i..]) * Members(b[j..])| == |Members(a[i + 1..]) * Members(b[j..])|
    ensures a[i] > b[j] ==> |Members(a[i..]) * Members(b[j..])| == |Members(a[i..]) * Members(b[j + 1..])|
    ensures a[i] == b[j] ==> |Members(a[i..]) * Members(b[j..])| == 1 + |Members(a[i + 1..]) * Members(b[j + 1..])|
  {
    if a[i] < b[j] {
      IntersectionSkip(a, i, b, j);
    } else if a[i] > b[j] {
      IntersectionSkip(b, j, a, i);
      assert Members(a[i..]) * Members(b[j..]) == Members(b[j..]) * Members(a[i..]);
      assert Members(a[i..]) * Members(b[j + 1..]) == Members(b[j + 1..]) * Members(a[i..]);
    } else {
      var rest := Members(a[i + 1..]) * Members(b[j + 1..]);
      assert a[i..] == [a[i]] + a[i + 1..] && b[j..] == [b[j]] + b[j + 1..];
      assert Members(a[i..]) * Members(b[j..]) == {a[i]} + rest;
      assert a[i] !in rest;
    }
  }

  method SortedIntersectionCount(baseline: seq<Oid>, candidate: seq<Oid>) returns (hits: nat)
    requires StrictlyAscending(baseline) && StrictlyAscending(candidate)
    ensures hits == |Members(baseline) * Members(candidate)|
  {
    var i, j := 0, 0;
    hits := 0;
    assert baseline[0..] == baseline && candidate[0..] == candidate;
    while i < |baseline| && j < |candidate|
      invariant i <= |baseline| && j <= |candidate|
      invariant hits + |Members(baseline[i..]) * Members(candidate[j..])| == |Members(baseline) * Members(candidate)|
      decreases |baseline| - i + |candidate| - j
    {
      IntersectionStep(baseline, i, candidate, j);
      if baseline[i] < candidate[j] {
        i := i + 1;
      } else if baseline[i] > candidate[j] {
        j := j + 1;
      } else {
        hits := hits + 1;
        i, j := i + 1, j + 1;
      }
    }
    assert Members(baseline[i..]) * Members(candidate[j..]) == {};
  }

  // ----- runs of observations

  ghost function TotalHits(obs: seq<Observation>): nat {
    if obs == [] then 0 else TotalHits(obs[..|obs| - 1]) + obs[|obs| - 1].Hits()
  }

  ghost function BaselineTotal(obs: seq<Observation>): nat {
    if obs == [] then 0 else BaselineTotal(obs[..|obs| - 1]) + |obs[|obs| - 1].baseline|
  }

  ghost function CandidateTotal(obs: seq<Observation>): nat {
    if obs == [] then 0 else CandidateTotal(obs[..|obs| - 1]) + |obs[|obs| - 1].candidate|
  }

  ghost function SampleMembers(obs: seq<Observation>): set<Oid> {
    set o | o in obs :: o.member
  }

  /** `o` may follow `obs`: the next sequence, bound to the ledger, a new member, and full result lists. */
  ghost predicate Follows(identity: Identity, profile: Profile, obs: seq<Observation>, o: Observation) {
    && |obs| < identity.window.Capacity()
    && o.sequence == identity.window.first + |obs|
    && o.binding == identity.binding
    && o.member !in SampleMembers(obs)
    && |o.baseline| == profile.topK && |o.candidate| == profile.topK
  }

  /** The observation sequences a ledger can hold. */
  ghost predicate Run(identity: Identity, profile: Profile, obs: seq<Observation>) {
    obs == [] || (
      var front, last := obs[..|obs| - 1], obs[|obs| - 1];
      Run(identity, profile, front) && last.Valid() && Follows(identity, profile, front, last))
  }

  predicate Opens(identity: Identity, profile: Profile) {
    && identity.Valid() && profile.Valid()
    && identity.binding.profile == profile.oid
    && identity.window.Capacity() <= profile.maximumQueries
    && identity.window.Capacity() * (profile.topK * 2) <= profile.maximumResultIds
  }

  /** Each observation of a run follows what came before it. */
  lemma {:induction false} RunFollows(identity: Identity, profile: Profile, obs: seq<Observation>, i: nat)
    requires Run(identity, profile, obs) && i < |obs|
    ensures obs[i].Valid() && Follows(identity, profile, obs[..i], obs[i])
  {
    var front := obs[..|obs| - 1];
    if i < |front| {
      RunFollows(identity, profile, front, i);
      assert front[..i] == obs[..i];
    }
  }

  /** Every run is consecutive, bound, duplicate-free and uniform in width. */
  lemma RunShape(identity: Identity, profile: Profile, obs: seq<Observation>)
    requires Run(identity, profile, obs)
    ensures |obs| <= Max(identity.window.Capacity(), 0)
    ensures forall i :: 0 <= i < |obs| ==> obs[i].Valid() && obs[i].sequence == identity.window.first + i
    ensures forall i :: 0 <= i < |obs| ==> obs[i].binding == identity.binding
    ensures forall i :: 0 <= i < |obs| ==> |obs[i].baseline| == profile.topK && |obs[i].candidate| == profile.topK
    ensures forall i, j :: 0 <= i < j < |obs| ==> obs[i].member != obs[j].member
  {
    forall i | 0 <= i < |obs|
      ensures obs[i].Valid() && Follows(identity, profile, obs[..i], obs[i])
    {
      RunFollows(identity, profile, obs, i);
    }
    forall i, j | 0 <= i < j < |obs|
      ensures obs[i].member != obs[j].member
    {
      assert obs[i] in obs[..j] && obs[i].member in SampleMembers(obs[..j]);
    }
  }

  /** A run's recounts: full lists throughout, and no more hits than baseline results. */
  lemma {:induction false} RunTotals(identity: Identity, profile: Profile, obs: seq<Observation>)
    requires Run(identity, profile, obs)
    ensures BaselineTotal(obs) == CandidateTotal(obs) == |obs| * profile.topK
    ensures TotalHits(obs) <= BaselineTotal(obs)
  {
    if obs != [] {
      var front, last := obs[..|obs| - 1], obs[|obs| - 1];
      RunTotals(identity, profile, front);
      DistinctSize(last.baseline);
      SubsetSize(Members(last.baseline) * Members(last.candidate), Members(last.baseline));
      MulAdd(profile.topK, |front|, 1);
    }
  }

  datatype LedgerError =
    | WindowAlreadyComplete
    | SequenceOutsideWindow(first: u64, last: u64, actual: u64)
    | UnexpectedSequence(expectedSequence: u64, actual: u64)
    | BindingMismatch
    | DuplicateSampleMember(member: Oid)
    | UnexpectedTopKLength(expectedLength: usize, actualLength: nat)
    | ProfileIdentityMismatch
    | WindowExceedsQueryLimit
    | ResultIdLimitCannotCoverWindow
    | ResultIdLimitExceeded

  /** The first reason to refuse `o`, in the order the ledger checks. */
  ghost function Refusal(identity: Identity, profile: Profile, obs: seq<Observation>,
    o: Observation): Option<LedgerError>
    requires Opens(identity, profile) && |obs| <= identity.window.Capacity()
  {
    var w := identity.window;
    if |obs| == w.Capacity() then Some(WindowAlreadyComplete)
    else if o.sequence > w.last then Some(SequenceOutsideWindow(w.first, w.last, o.sequence))
    else if o.sequence != w.first + |obs| then Some(UnexpectedSequence(w.first + |obs|, o.sequence))
    else if o.binding != identity.binding then Some(BindingMismatch)
    else if o.member in SampleMembers(obs) then Some(DuplicateSampleMember(o.member))
    else if |o.baseline| != profile.topK then Some(UnexpectedTopKLength(profile.topK, |o.baseline|))
    else if |o.candidate| != profile.topK then Some(UnexpectedTopKLength(profile.topK, |o.candidate|))
    else None
  }

  /** No counter of a run that fits its window can overflow or pass the result limit. */
  lemma CountersFit(identity: Identity, profile: Profile, obs: seq<Observation>)
    requires Opens(identity, profile) && Run(identity, profile, obs) && |obs| <= identity.window.Capacity()
    ensures TotalHits(obs) <= BaselineTotal(obs) <= profile.maximumResultIds
    ensures BaselineTotal(obs) + CandidateTotal(obs) <= profile.maximumResultIds
    ensures BaselineTotal(obs) == CandidateTotal(obs)
  {
    RunTotals(identity, profile, obs);
    WindowProduct(|obs|, identity.window.Capacity(), profile.topK, profile.maximumResultIds);
  }

  lemma WindowProduct(n: int, capacity: int, topK: int, maximum: int)
    requires 0 <= n <= capacity && 0 <= topK && capacity * (topK * 2) <= maximum
    ensures 0 <= n * topK && n * topK + n * topK <= maximum
  {
    MulMonotone(topK, n, capacity);
    MulMonotone(topK, 0, n);
    MulAssoc(2, capacity, topK);
  }

  datatype Counters = Counters(members: set<Oid>, total: nat, baseline: nat, candidate: nat, hits: nat)

  /** Every counter equals a recount of the observations. */
  ghost predicate Counted(obs: seq<Observation>, c: Counters) {
    c == Counters(SampleMembers(obs), BaselineTotal(obs) + CandidateTotal(obs), BaselineTotal(obs),
                  CandidateTotal(obs), TotalHits(obs))
  }

  class Ledger {
    const identity: Identity
    const profile: Profile
    var observations: seq<Observation>
    var sampleMembers: set<Oid>
    var totalResultIds: nat
    var baselineResults: nat
    var candidateResults: nat
    var intersectionHits: nat

    ghost predicate Valid()
      reads this
    {
      && Opens(identity, profile)
      && Run(identity, profile, observations)
      && |observations| <= identity.window.Capacity()
      && Counted(observations, Counters(sampleMembers, totalResultIds, baselineResults, candidateResults,
                                        intersectionHits))
    }

    constructor (identity: Identity, profile: Profile)
      requires Opens(identity, profile)
      ensures Valid() && this.identity == identity && this.profile == profile && observations == []
    {
      this.identity := identity;
      this.profile := profile;
      observations, sampleMembers := [], {};
      totalResultIds, baselineResults, candidateResults, intersectionHits := 0, 0, 0, 0;
    }

    /** Accepts exactly the next observation; a refusal changes nothing. */
    method Record(o: Observation) returns (r: Result<(), LedgerError>)
      requires Valid() && o.Valid()
      modifies this
      ensures Valid()
      ensures match Refusal(identity, profile, old(observations), o)
              case Some(error) => r == Err(error) && unchanged(this)
              case None => r == Ok(()) && observations == old(observations) + [o]
    {
      if |observations| == identity.window.Capacity() {
        return Err(WindowAlreadyComplete);
      }
      if o.sequence > identity.window.last {
        return Err(SequenceOutsideWindow(identity.window.first, identity.window.last, o.sequence));
      }
      var expected: u64 := identity.window.first + |observations|;
      if o.sequence != expected {
        return Err(UnexpectedSequence(expected, o.sequence));
      }
      if o.binding != identity.binding {
        return Err(BindingMismatch);
      }
      if o.member in sampleMembers {
        return Err(DuplicateSampleMember(o.member));
      }
      if |o.baseline| != profile.topK {
        return Err(UnexpectedTopKLength(profile.topK, |o.baseline|));
      }
      if |o.candidate| != profile.topK {
        return Err(UnexpectedTopKLength(profile.topK, |o.candidate|));
      }
      RecordStep(identity, profile, observations, o);
      CountedStep(observations, o);
      CountersFit(identity, profile, observations + [o]);
      var newTotal: usize := totalResultIds + (|o.baseline| + |o.candidate|);
      if newTotal > profile.maximumResultIds {
        return Err(ResultIdLimitExceeded);
      }
      Commit(o, newTotal);
      r := Ok(());
    }

    method Commit(o: Observation, newTotal: usize)
      requires Valid() && o.Valid() && Follows(identity, profile, observations, o)
      requires newTotal == totalResultIds + (|o.baseline| + |o.candidate|)
      modifies this
      ensures Valid() && observations == old(observations) + [o]
    {
      var hits := SortedIntersectionCount(o.baseline, o.candidate);
      RecordStep(identity, profile, observations, o);
      CountedNext(observations, o, Counters(sampleMembers, totalResultIds, baselineResults, candidateResults,
                                            intersectionHits));
      CountersFit(identity, profile, observations + [o]);
      var newBaseline: u64 := baselineResults + |o.baseline|;
      var newCandidate: u64 := candidateResults + |o.candidate|;
      var newHits: u64 := intersectionHits + hits;
      sampleMembers, totalResultIds, baselineResults, candidateResults, intersectionHits, observations :=
        sampleMembers + {o.member}, newTotal, newBaseline, newCandidate, newHits, observations + [o];
    }

    /** The interval of the accepted prefix, and the action once the window is complete; it never overflows. */
    method Evidence() returns (interval: Interval, action: Option<Action>)
      requires Valid()
      ensures interval.lower <= interval.point <= interval.upper <= RECALL_SCALE
      ensures observations != [] ==> Encloses(interval, TotalHits(observations), BaselineTotal(observations))
      ensures action.Some? <==> |observations| == identity.window.Capacity()
      ensures observations == [] ==> interval == Interval(0, 0, RECALL_SCALE, RECALL_SCALE, profile.exponent, 0)
      ensures interval.exponent == profile.exponent && interval.queries == |observations|
      ensures action == Some(Candidate) <==>
              action.Some? && profile.assumptions.Supported() && interval.lower >= profile.candidateThreshold
      ensures action == Some(Rebuild) <==>
              action.Some? && profile.assumptions.Supported() && interval.upper < profile.rebuildThreshold
      ensures !(interval.upper < profile.rebuildThreshold && interval.lower >= profile.candidateThreshold)
    {
      CountersFit(identity, profile, observations);
      RunTotals(identity, profile, observations);
      var evidence := ConfidenceInterval(intersectionHits, baselineResults, |observations|, profile.exponent);
      if observations != [] {
        MulMonotone(profile.topK, 1, |observations|);
        PointFits(intersectionHits, baselineResults);
        IntervalOrdered(evidence.value, intersectionHits, baselineResults);
      }
      interval := evidence.value;
      action := Decide(|observations| == identity.window.Capacity(), profile.assumptions.Supported(), interval,
                       profile.candidateThreshold, profile.rebuildThreshold);
    }
  }

  lemma PointFits(hits: nat, baseline: nat)
    requires hits <= baseline && baseline > 0
    ensures hits * RECALL_SCALE / baseline <= RECALL_SCALE
  {
    MulMonotone(RECALL_SCALE, hits, baseline);
    DivModParts(hits * RECALL_SCALE, baseline);
    var q := hits * RECALL_SCALE / baseline;
    if q > RECALL_SCALE {
      MulMonotone(baseline, RECALL_SCALE + 1, q);
    }
  }

  lemma RecordStep(identity: Identity, profile: Profile, obs: seq<Observation>, o: Observation)
    requires Run(identity, profile, obs) && o.Valid() && Follows(identity, profile, obs, o)
    ensures Run(identity, profile, obs + [o])
  {
    assert (obs + [o])[..|obs|] == obs;
  }

  lemma CountedNext(obs: seq<Observation>, o: Observation, c: Counters)
    requires Counted(obs, c)
    ensures Counted(obs + [o],
                    Counters(c.members + {o.member}, c.total + (|o.baseline| + |o.candidate|),
                             c.baseline + |o.baseline|,
                             c.candidate + |o.candidate|, c.hits + o.Hits()))
  {
    CountedStep(obs, o);
  }

  /** What one accepted observation adds to each counter. */
  lemma CountedStep(obs: seq<Observation>, o: Observation)
    ensures SampleMembers(obs + [o]) == SampleMembers(obs) + {o.member}
    ensures TotalHits(obs + [o]) == TotalHits(obs) + o.Hits()
    ensures BaselineTotal(obs + [o]) == BaselineTotal(obs) + |o.baseline|
    ensures CandidateTotal(obs + [o]) == CandidateTotal(obs) + |o.candidate|
  {
    assert (obs + [o])[..|obs|] == obs;
    forall m
      ensures m in SampleMembers(obs + [o]) <==> m in SampleMembers(obs) + {o.member}
    {
      if m in SampleMembers(obs) {
        var o' :| o' in obs && o'.member == m;
        assert o' in obs + [o];
      }
      if m == o.member {
        assert o in obs + [o];
      }
    }
  }
}
