/** Writing a ledger as a replay stream, and rebuilding it by recording every observation again. */
module RecallStream {
  import opened Words
  import opened Arith
  import opened Bytes
  import opened RecallInterval
  import opened RecallLedger
  import opened RecallReplay

  function PreludeBytes(): (b: seq<u8>)
    ensures |b| == 12
  {
    ShapeLengths(0);
    WordsBytes(PreludeShape(), [MAGIC, VERSION, 0])
  }

  function IdentityBytes(i: Identity): (b: seq<u8>)
    ensures |b| == 376
  {
    ShapeLengths(0);
    WordsBytes(IdentityShape(), IdentityWords(i))
  }

  function ProfileBytes(p: Profile): (b: seq<u8>)
    ensures |b| == 65
  {
    ProfileLength();
    WordsBytes(ProfileShape(), ProfileWords(p))
  }

  function TailBytes(count: nat): (b: seq<u8>)
    ensures |b| == 7
  {
    ShapeLengths(0);
    WordsBytes(TailShape(), [0, count])
  }

  function HeaderBytes(i: Identity, p: Profile, count: nat): (b: seq<u8>)
    ensures |b| == HEADER_BYTES
  {
    PreludeBytes() + (IdentityBytes(i) + (ProfileBytes(p) + TailBytes(count)))
  }

  ghost predicate FullLists(obs: seq<Observation>, topK: nat) {
    forall k :: 0 <= k < |obs| ==> |obs[k].baseline| == |obs[k].candidate| == topK
  }

  function ObservationBytes(o: Observation, topK: nat): (b: seq<u8>)
    requires |o.baseline| == |o.candidate| == topK
    ensures |b| == Size(topK)
  {
    ShapeLengths(topK);
    WordsBytes(ObservationShape(topK), ObservationWords(o))
  }

  ghost function ObservationsBytes(obs: seq<Observation>, topK: nat): (b: seq<u8>)
    requires FullLists(obs, topK)
    ensures |b| == Span(|obs|, Size(topK))
  {
    if obs == [] then [] else ObservationBytes(obs[0], topK) + ObservationsBytes(obs[1..], topK)
  }

  ghost function StreamBytes(i: Identity, p: Profile, obs: seq<Observation>): seq<u8>
    requires FullLists(obs, p.topK)
  {
    HeaderBytes(i, p, |obs|) + ObservationsBytes(obs, p.topK)
  }

  // ----- reading

  function Size(topK: nat): nat {
    OBSERVATION_FIXED_BYTES + 64 * topK
  }

  function Span(count: nat, size: nat): nat {
    if count == 0 then 0 else size + Span(count - 1, size)
  }

  lemma {:induction false} SpanIs(count: nat, size: nat)
    ensures Span(count, size) == count * size
  {
    if count > 0 {
      SpanIs(count - 1, size);
      MulAdd(size, count - 1, 1);
    }
  }

  function ReadObservation(bytes: seq<u8>, at: nat, topK: nat, binding: Binding): (o: Observation)
    requires at + Size(topK) <= |bytes|
    ensures |o.baseline| == |o.candidate| == topK && o.binding == binding
  {
    ShapeLengths(topK);
    ObservationOf(ReadWords(bytes, at, ObservationShape(topK)), topK, binding)
  }

  function ReadObservations(bytes: seq<u8>, at: nat, topK: nat, binding: Binding, count: nat): (obs: seq<Observation>)
    requires at + Span(count, Size(topK)) <= |bytes|
    ensures |obs| == count
    decreases count
  {
    if count == 0 then []
    else [ReadObservation(bytes, at, topK, binding)]
         + ReadObservations(bytes, at + Size(topK), topK, binding, count - 1)
  }

  lemma {:induction false} ReadLists(bytes: seq<u8>, at: nat, topK: nat, binding: Binding, count: nat)
    requires at + Span(count, Size(topK)) <= |bytes|
    ensures FullLists(ReadObservations(bytes, at, topK, binding, count), topK)
    decreases count
  {
    if count > 0 {
      ReadLists(bytes, at + Size(topK), topK, binding, count - 1);
    }
  }

  lemma ObservationStands(o: Observation, topK: nat, bytes: seq<u8>, at: nat)
    requires |o.baseline| == |o.candidate| == topK && Stands(bytes, at, ObservationBytes(o, topK))
    ensures at + Size(topK) <= |bytes| && ReadObservation(bytes, at, topK, o.binding) == o
  {
    ShapeLengths(topK);
    ObservationFits(o, topK);
    WordsRoundTrip(ObservationShape(topK), ObservationWords(o), bytes, at);
    ObservationRoundTrip(o, topK);
  }

  lemma ObservationReread(bytes: seq<u8>, at: nat, topK: nat, binding: Binding)
    requires at + Size(topK) <= |bytes|
    ensures Stands(bytes, at, ObservationBytes(ReadObservation(bytes, at, topK, binding), topK))
  {
    ShapeLengths(topK);
    WordsReadBack(ObservationShape(topK), bytes, at);
    ObservationReadBack(ReadWords(bytes, at, ObservationShape(topK)), topK, binding);
  }

  lemma FirstObservation(obs: seq<Observation>, topK: nat, bytes: seq<u8>, at: nat)
    requires obs != [] && FullLists(obs, topK) && Stands(bytes, at, ObservationsBytes(obs, topK))
    ensures at + Size(topK) <= |bytes| && ReadObservation(bytes, at, topK, obs[0].binding) == obs[0]
    ensures FullLists(obs[1..], topK) && Stands(bytes, at + Size(topK), ObservationsBytes(obs[1..], topK))
  {
    StandsParts(bytes, at, ObservationBytes(obs[0], topK), ObservationsBytes(obs[1..], topK));
    ObservationStands(obs[0], topK, bytes, at);
  }

  /** Reading written observations returns them. */
  lemma {:induction false} ObservationsRoundTrip(obs: seq<Observation>, topK: nat, binding: Binding, bytes: seq<u8>,
    at: nat)
    requires FullLists(obs, topK) && forall k :: 0 <= k < |obs| ==> obs[k].binding == binding
    requires Stands(bytes, at, ObservationsBytes(obs, topK))
    ensures ReadObservations(bytes, at, topK, binding, |obs|) == obs
    decreases |obs|
  {
    if obs != [] {
      FirstObservation(obs, topK, bytes, at);
      ObservationsRoundTrip(obs[1..], topK, binding, bytes, at + Size(topK));
      Cons(obs, ReadObservation(bytes, at, topK, binding),
           ReadObservations(bytes, at + Size(topK), topK, binding, |obs| - 1));
    }
  }

  lemma ObservationsJoin(o: Observation, rest: seq<Observation>, topK: nat, bytes: seq<u8>, at: nat)
    requires |o.baseline| == |o.candidate| == topK && FullLists(rest, topK)
    requires Stands(bytes, at, ObservationBytes(o, topK))
             && Stands(bytes, at + Size(topK), ObservationsBytes(rest, topK))
    ensures FullLists([o] + rest, topK) && Stands(bytes, at, ObservationsBytes([o] + rest, topK))
  {
    StandsJoin(bytes, at, ObservationBytes(o, topK), ObservationsBytes(rest, topK));
    assert ([o] + rest)[1..] == rest;
  }

  /** Writing the observations read returns the bytes. */
  lemma {:induction false} ObservationsReadBack(bytes: seq<u8>, at: nat, topK: nat, binding: Binding, count: nat)
    requires at + Span(count, Size(topK)) <= |bytes|
    ensures FullLists(ReadObservations(bytes, at, topK, binding, count), topK)
    ensures Stands(bytes, at, ObservationsBytes(ReadObservations(bytes, at, topK, binding, count), topK))
    decreases count
  {
    if count > 0 {
      ObservationReread(bytes, at, topK, binding);
      ObservationsReadBack(bytes, at + Size(topK), topK, binding, count - 1);
      ObservationsJoin(ReadObservation(bytes, at, topK, binding),
                       ReadObservations(bytes, at + Size(topK), topK, binding, count - 1), topK, bytes, at);
    }
  }

  // ----- the header

  const IDENTITY_AT: nat := 12
  const PROFILE_AT: nat := 388
  const TAIL_AT: nat := 453

  ghost predicate PreludeAgrees(bytes: seq<u8>)
    requires |bytes| >= HEADER_BYTES
  {
    ShapeLengths(0);
    ReadWords(bytes, 0, PreludeShape()) == [MAGIC, VERSION, 0]
  }

  ghost predicate IdentityAgrees(bytes: seq<u8>, i: Identity)
    requires |bytes| >= HEADER_BYTES
  {
    ShapeLengths(0);
    IdentityOf(ReadWords(bytes, IDENTITY_AT, IdentityShape())) == i
  }

  ghost predicate ProfileAgrees(bytes: seq<u8>, p: Profile)
    requires |bytes| >= HEADER_BYTES
  {
    ProfileLength();
    var words := ReadWords(bytes, PROFILE_AT, ProfileShape());
    Canonical(words) && ProfileOf(words) == p
  }

  ghost predicate TailAgrees(bytes: seq<u8>, count: nat)
    requires |bytes| >= HEADER_BYTES
  {
    ShapeLengths(0);
    ReadWords(bytes, TAIL_AT, TailShape()) == [0, count]
  }

  /** The header words spell the trusted identity and profile. */
  ghost predicate HeaderAgrees(bytes: seq<u8>, i: Identity, p: Profile, count: nat)
    requires |bytes| >= HEADER_BYTES
  {
    PreludeAgrees(bytes) && IdentityAgrees(bytes, i) && ProfileAgrees(bytes, p) && TailAgrees(bytes, count)
  }

  lemma PreludeStands(bytes: seq<u8>)
    requires |bytes| >= HEADER_BYTES
    ensures PreludeAgrees(bytes) <==> Stands(bytes, 0, PreludeBytes())
  {
    ShapeLengths(0);
    if PreludeAgrees(bytes) {
      WordsReadBack(PreludeShape(), bytes, 0);
    }
    if Stands(bytes, 0, PreludeBytes()) {
      PreludeFits();
      WordsRoundTrip(PreludeShape(), [MAGIC, VERSION, 0], bytes, 0);
    }
  }

  lemma IdentityStands(bytes: seq<u8>, i: Identity)
    requires |bytes| >= HEADER_BYTES
    ensures IdentityAgrees(bytes, i) <==> Stands(bytes, IDENTITY_AT, IdentityBytes(i))
  {
    ShapeLengths(0);
    if IdentityAgrees(bytes, i) {
      WordsReadBack(IdentityShape(), bytes, IDENTITY_AT);
      IdentityReadBack(ReadWords(bytes, IDENTITY_AT, IdentityShape()));
    }
    if Stands(bytes, IDENTITY_AT, IdentityBytes(i)) {
      IdentityFits(i);
      WordsRoundTrip(IdentityShape(), IdentityWords(i), bytes, IDENTITY_AT);
      IdentityRoundTrip(i);
    }
  }

  lemma ProfileStands(bytes: seq<u8>, p: Profile)
    requires |bytes| >= HEADER_BYTES && p.Valid()
    ensures ProfileAgrees(bytes, p) <==> Stands(bytes, PROFILE_AT, ProfileBytes(p))
  {
    ProfileLength();
    if ProfileAgrees(bytes, p) {
      WordsReadBack(ProfileShape(), bytes, PROFILE_AT);
      ProfileReadBack(ReadWords(bytes, PROFILE_AT, ProfileShape()));
    }
    if Stands(bytes, PROFILE_AT, ProfileBytes(p)) {
      ProfileFits(p);
      WordsRoundTrip(ProfileShape(), ProfileWords(p), bytes, PROFILE_AT);
      ProfileRoundTrip(p);
    }
  }

  lemma TailStands(bytes: seq<u8>, count: nat)
    requires |bytes| >= HEADER_BYTES && count < 0x1_0000_0000
    ensures TailAgrees(bytes, count) <==> Stands(bytes, TAIL_AT, TailBytes(count))
  {
    ShapeLengths(0);
    if TailAgrees(bytes, count) {
      WordsReadBack(TailShape(), bytes, TAIL_AT);
    }
    if Stands(bytes, TAIL_AT, TailBytes(count)) {
      TailFits(count);
      WordsRoundTrip(TailShape(), [0, count], bytes, TAIL_AT);
    }
  }

  lemma PreludeFits()
    ensures Fits(PreludeShape(), [MAGIC, VERSION, 0])
  {
    RangeFits(PreludeShape(), [MAGIC, VERSION, 0]);
  }

  lemma TailFits(count: nat)
    requires count < 0x1_0000_0000
    ensures Fits(TailShape(), [0, count])
  {
    WordWidths();
    assert TailShape()[1..] == [LittleEndian(4)] && [0, count][1..] == [count];
    assert Fits([LittleEndian(4)], [count]);
  }

  lemma StandsFour(bytes: seq<u8>, a: seq<u8>, b: seq<u8>, c: seq<u8>, d: seq<u8>)
    requires |bytes| >= |a| + |b| + |c| + |d|
    ensures Stands(bytes, 0, a + (b + (c + d))) <==>
            Stands(bytes, 0, a) && Stands(bytes, |a|, b) && Stands(bytes, |a| + |b|, c)
              && Stands(bytes, |a| + |b| + |c|, d)
  {
    if Stands(bytes, 0, a + (b + (c + d))) {
      StandsParts(bytes, 0, a, b + (c + d));
      StandsParts(bytes, |a|, b, c + d);
      StandsParts(bytes, |a| + |b|, c, d);
    }
    if Stands(bytes, 0, a) && Stands(bytes, |a|, b) && Stands(bytes, |a| + |b|, c)
      && Stands(bytes, |a| + |b| + |c|, d) {
      StandsJoin(bytes, |a| + |b|, c, d);
      StandsJoin(bytes, |a|, b, c + d);
      StandsJoin(bytes, 0, a, b + (c + d));
    }
  }

  /** The header words agree exactly when the header bytes are the canonical ones. */
  lemma HeaderStands(bytes: seq<u8>, i: Identity, p: Profile, count: nat)
    requires |bytes| >= HEADER_BYTES && p.Valid() && count < 0x1_0000_0000
    ensures HeaderAgrees(bytes, i, p, count) <==> Stands(bytes, 0, HeaderBytes(i, p, count))
  {
    PreludeStands(bytes);
    IdentityStands(bytes, i);
    ProfileStands(bytes, p);
    TailStands(bytes, count);
    StandsFour(bytes, PreludeBytes(), IdentityBytes(i), ProfileBytes(p), TailBytes(count));
  }

  // ----- what is accepted

  datatype ReplayLimits = ReplayLimits(maxEncodedBytes: usize, maxTopK: usize, maxQueries: usize, maxResultIds: usize)

  /** The caller's limits and the profile's own admit `count` observations. */
  predicate Admits(limits: ReplayLimits, p: Profile, count: nat) {
    && p.topK <= limits.maxTopK
    && p.maximumQueries <= limits.maxQueries
    && count <= p.maximumQueries
    && p.maximumResultIds <= limits.maxResultIds
    && count * p.topK * 2 <= p.maximumResultIds
  }

  /** The observation count the header declares. */
  function CountAt(bytes: seq<u8>): nat
    requires |bytes| >= HEADER_BYTES
  {
    ShapeLengths(0);
    ReadWords(bytes, TAIL_AT, TailShape())[1]
  }

  ghost predicate Accepts(bytes: seq<u8>, limits: ReplayLimits, i: Identity, p: Profile, verified: bool) {
    && HEADER_BYTES <= |bytes| <= limits.maxEncodedBytes
    && HeaderAgrees(bytes, i, p, CountAt(bytes))
    && BodyAccepts(bytes, limits, i, p, verified, CountAt(bytes))
  }

  ghost predicate BodyAccepts(bytes: seq<u8>, limits: ReplayLimits, i: Identity, p: Profile, verified: bool,
    count: nat) {
    && verified && Admits(limits, p, count)
    && |bytes| == HEADER_BYTES + Span(count, Size(p.topK))
    && Opens(i, p)
    && Run(i, p, ReadObservations(bytes, HEADER_BYTES, p.topK, i.binding, count))
  }

  lemma TailCount(bytes: seq<u8>, count: nat)
    requires |bytes| >= HEADER_BYTES && TailAgrees(bytes, count)
    ensures CountAt(bytes) == count
  {
  }

  lemma RunLists(i: Identity, p: Profile, obs: seq<Observation>)
    requires Run(i, p, obs)
    ensures FullLists(obs, p.topK)
  {
    RunShape(i, p, obs);
  }

  /** Accepted bytes are the canonical encoding of the ledger they rebuild. */
  lemma AcceptedReencodes(bytes: seq<u8>, limits: ReplayLimits, i: Identity, p: Profile, verified: bool)
    requires Accepts(bytes, limits, i, p, verified)
    ensures var obs := ReadObservations(bytes, HEADER_BYTES, p.topK, i.binding, CountAt(bytes));
            FullLists(obs, p.topK) && StreamBytes(i, p, obs) == bytes
  {
    var count := CountAt(bytes);
    HeaderStands(bytes, i, p, count);
    ObservationsReadBack(bytes, HEADER_BYTES, p.topK, i.binding, count);
    var obs := ReadObservations(bytes, HEADER_BYTES, p.topK, i.binding, count);
    StandsWhole(bytes, HeaderBytes(i, p, count), ObservationsBytes(obs, p.topK));
  }

  lemma StandsWhole(bytes: seq<u8>, a: seq<u8>, b: seq<u8>)
    requires Stands(bytes, 0, a) && Stands(bytes, |a|, b) && |bytes| == |a| + |b|
    ensures a + b == bytes
  {
    StandsJoin(bytes, 0, a, b);
  }

  /** The encoding of every ledger the limits admit is accepted, and rebuilds that ledger. */
  lemma EncodedIsAccepted(i: Identity, p: Profile, obs: seq<Observation>, limits: ReplayLimits)
    requires Opens(i, p) && Run(i, p, obs) && Admits(limits, p, |obs|)
    requires FullLists(obs, p.topK) && |StreamBytes(i, p, obs)| <= limits.maxEncodedBytes
    ensures Accepts(StreamBytes(i, p, obs), limits, i, p, true) && CountAt(StreamBytes(i, p, obs)) == |obs|
    ensures ReadObservations(StreamBytes(i, p, obs), HEADER_BYTES, p.topK, i.binding, |obs|) == obs
  {
    var bytes := StreamBytes(i, p, obs);
    RunShape(i, p, obs);
    assert bytes[0..|bytes|] == bytes;
    StandsParts(bytes, 0, HeaderBytes(i, p, |obs|), ObservationsBytes(obs, p.topK));
    HeaderStands(bytes, i, p, |obs|);
    TailCount(bytes, |obs|);
    ObservationsRoundTrip(obs, p.topK, i.binding, bytes, HEADER_BYTES);
  }

  lemma {:induction false} RunPrefix(i: Identity, p: Profile, obs: seq<Observation>, n: nat)
    requires Run(i, p, obs) && n < |obs|
    ensures Run(i, p, obs[..n]) && obs[n].Valid() && Follows(i, p, obs[..n], obs[n])
    decreases |obs|
  {
    var front := obs[..|obs| - 1];
    if n < |front| {
      RunPrefix(i, p, front, n);
      assert front[..n] == obs[..n];
    }
  }
}
