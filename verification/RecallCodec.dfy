/** The replay encoder and decoder, proved against the accepted streams. */
module RecallCodec {
  import opened Words
  import opened Ordered
  import opened Arith
  import opened Bytes
  import opened RecallInterval
  import opened RecallLedger
  import opened RecallReplay
  import opened RecallStream

  datatype ReplayError =
    | EncodedBytesLimit(actual: nat, maximum: usize)
    | Truncated
    | Magic
    | Version
    | Reserved
    | ProfileReserved
    | InvalidIdentity
    | NonCanonicalProfile
    | InvalidProfile
    | IdentityMismatch
    | ProfileMismatch
    | ProfileIdentityUnverified
    | LimitExceeded
    | WrongLength(required: nat, actual: nat)
    | InvalidResultList
    | Refused(error: LedgerError)

  /** A result list is nonempty, bounded, and strictly ascending; adjacent pairs decide. */
  method ValidateResultList(results: seq<Oid>) returns (ok: bool)
    ensures ok <==> 0 < |results| <= MAX_RECALL_TOP_K && StrictlyAscending(results)
  {
    if |results| == 0 || |results| > MAX_RECALL_TOP_K {
      return false;
    }
    for offset := 0 to |results| - 1
      invariant forall i, j :: 0 <= i < j <= offset ==> results[i] < results[j]
    {
      if results[offset] >= results[offset + 1] {
        assert !StrictlyAscending(results);
        return false;
      }
      assert forall i :: 0 <= i < offset ==> results[i] < results[offset];
    }
    ok := true;
  }

  /** The first condition of opening a ledger that fails. */
  ghost predicate CannotOpen(identity: Identity, profile: Profile, error: LedgerError) {
    var same := identity.binding.profile == profile.oid;
    var queries := identity.window.Capacity();
    match error
    case ProfileIdentityMismatch => !same
    case WindowExceedsQueryLimit => same && queries > profile.maximumQueries
    case ResultIdLimitCannotCoverWindow =>
      same && queries <= profile.maximumQueries && 2 * queries * profile.topK > profile.maximumResultIds
    case _ => false
  }

  /** Opens an empty ledger when the whole window fits the profile. */
  method TryNew(identity: Identity, profile: Profile) returns (r: Result<Ledger, LedgerError>)
    requires identity.Valid() && profile.Valid()
    ensures r.Ok? <==> Opens(identity, profile)
    ensures r.Ok? ==> fresh(r.value) && r.value.Valid() && r.value.observations == []
    ensures r.Ok? ==> r.value.identity == identity && r.value.profile == profile
    ensures r.Err? ==> CannotOpen(identity, profile, r.error)
  {
    if identity.binding.profile != profile.oid {
      return Err(ProfileIdentityMismatch);
    }
    var windowQueries: usize := identity.window.Capacity();
    if windowQueries > profile.maximumQueries {
      return Err(WindowExceedsQueryLimit);
    }
    var perQuery: usize := profile.topK * 2;
    MulMonotone(perQuery, windowQueries, MAX_RECALL_QUERIES);
    MulMonotone(MAX_RECALL_QUERIES, perQuery, 2 * MAX_RECALL_TOP_K);
    var required: usize := windowQueries * perQuery;
    if required > profile.maximumResultIds {
      return Err(ResultIdLimitCannotCoverWindow);
    }
    var ledger := new Ledger(identity, profile);
    r := Ok(ledger);
  }

  class Reader {
    const bytes: seq<u8>
    var offset: nat

    constructor (bytes: seq<u8>)
      ensures this.bytes == bytes && offset == 0
    {
      this.bytes := bytes;
      offset := 0;
    }

    method Word(w: Width) returns (r: Result<nat, ReplayError>)
      requires offset <= |bytes|
      modifies this
      ensures if old(offset) + w.bytes <= |bytes|
              then r == Ok(ReadWord(bytes, old(offset), w)) && offset == old(offset) + w.bytes
              else r == Err(Truncated)
    {
      var end := offset + w.bytes;
      if end > |bytes| {
        return Err(Truncated);
      }
      r := Ok(ReadWord(bytes, offset, w));
      offset := end;
    }

    /** Reads a run of words that the length checks have already covered. */
    method Run(shape: seq<Width>) returns (words: seq<nat>)
      requires offset + Length(shape) <= |bytes|
      modifies this
      ensures offset == old(offset) + Length(shape)
      ensures words == ReadWords(bytes, old(offset), shape)
    {
      words := [];
      for k := 0 to |shape|
        invariant offset + Length(shape[k..]) == old(offset) + Length(shape)
        invariant words + ReadWords(bytes, offset, shape[k..]) == ReadWords(bytes, old(offset), shape)
      {
        assert shape[k..][1..] == shape[k + 1..];
        ghost var here := offset;
        var word := Word(shape[k]);
        Extended(words, word.value, ReadWords(bytes, offset, shape[k + 1..]));
        words := words + [word.value];
      }
      assert shape[|shape|..] == [];
    }
  }

  lemma Extended(done: seq<nat>, word: nat, rest: seq<nat>)
    ensures done + ([word] + rest) == done + [word] + rest
  {
  }

  // ----- encoding

  lemma ObservationsStep(obs: seq<Observation>, topK: nat, k: nat)
    requires FullLists(obs, topK) && k < |obs|
    ensures FullLists(obs[k..], topK) && FullLists(obs[k + 1..], topK)
    ensures ObservationsBytes(obs[k..], topK) == ObservationBytes(obs[k], topK) + ObservationsBytes(obs[k + 1..], topK)
  {
    assert obs[k..][1..] == obs[k + 1..];
  }

  method PushObservations(start: seq<u8>, obs: seq<Observation>, topK: nat) returns (bytes: seq<u8>)
    requires FullLists(obs, topK)
    ensures bytes == start + ObservationsBytes(obs, topK)
  {
    bytes := start;
    assert obs[0..] == obs;
    for k := 0 to |obs|
      invariant bytes + ObservationsBytes(obs[k..], topK) == start + ObservationsBytes(obs, topK)
    {
      ObservationsStep(obs, topK, k);
      Appended(bytes, ObservationBytes(obs[k], topK), ObservationsBytes(obs[k + 1..], topK));
      bytes := bytes + ObservationBytes(obs[k], topK);
    }
    assert obs[|obs|..] == [];
  }

  lemma Appended(done: seq<u8>, part: seq<u8>, rest: seq<u8>)
    ensures done + (part + rest) == done + part + rest
  {
  }

  /** The canonical stream of a ledger's configuration and observations; counters are left to replay. */
  method ToCanonicalReplayBytes(ledger: Ledger) returns (bytes: seq<u8>)
    requires ledger.Valid()
    ensures FullLists(ledger.observations, ledger.profile.topK)
    ensures bytes == StreamBytes(ledger.identity, ledger.profile, ledger.observations)
  {
    RunLists(ledger.identity, ledger.profile, ledger.observations);
    var header := HeaderBytes(ledger.identity, ledger.profile, |ledger.observations|);
    bytes := PushObservations(header, ledger.observations, ledger.profile.topK);
  }

  // ----- why a stream is refused

  ghost function PreludeAt(bytes: seq<u8>): (words: seq<nat>)
    requires |bytes| >= HEADER_BYTES
    ensures |words| == 3
  {
    ShapeLengths(0);
    ReadWords(bytes, 0, PreludeShape())
  }

  ghost function IdentityAt(bytes: seq<u8>): Identity
    requires |bytes| >= HEADER_BYTES
  {
    ShapeLengths(0);
    IdentityOf(ReadWords(bytes, IDENTITY_AT, IdentityShape()))
  }

  ghost function ProfileAt(bytes: seq<u8>): (words: seq<nat>)
    requires |bytes| >= HEADER_BYTES
    ensures |words| == 11
  {
    ProfileLength();
    ReadWords(bytes, PROFILE_AT, ProfileShape())
  }

  /** The first part of the header that does not agree with trusted state. */
  ghost predicate HeaderComplaint(bytes: seq<u8>, i: Identity, p: Profile, error: ReplayError)
    requires |bytes| >= HEADER_BYTES
  {
    match error
    case Magic => PreludeAt(bytes)[0] != MAGIC
    case Version => PreludeAt(bytes)[0] == MAGIC && PreludeAt(bytes)[1] != VERSION
    case Reserved => PreludeAt(bytes)[..2] == [MAGIC, VERSION] && PreludeAt(bytes)[2] != 0
    case InvalidIdentity => PreludeAgrees(bytes) && !IdentityAt(bytes).Valid()
    case NonCanonicalProfile => PreludeAgrees(bytes) && IdentityAt(bytes).Valid() && !Canonical(ProfileAt(bytes))
    case InvalidProfile =>
      && PreludeAgrees(bytes) && IdentityAt(bytes).Valid()
      && Canonical(ProfileAt(bytes)) && !ProfileOf(ProfileAt(bytes)).Valid()
    case ProfileReserved => PreludeAgrees(bytes) && !TailAgrees(bytes, CountAt(bytes))
    case IdentityMismatch => PreludeAgrees(bytes) && TailAgrees(bytes, CountAt(bytes)) && !IdentityAgrees(bytes, i)
    case ProfileMismatch =>
      PreludeAgrees(bytes) && TailAgrees(bytes, CountAt(bytes)) && IdentityAgrees(bytes, i) && !ProfileAgrees(bytes, p)
    case _ => false
  }

  /** The first check after the header that fails. */
  ghost predicate BodyComplaint(
    bytes: seq<u8>, limits: ReplayLimits, i: Identity, p: Profile, verified: bool, count: nat, error: ReplayError) {
    match error
    case ProfileIdentityUnverified => !verified
    case LimitExceeded => verified && !Admits(limits, p, count)
    case WrongLength(required, actual) =>
      verified && Admits(limits, p, count) && |bytes| == actual != required == HEADER_BYTES + Span(count, Size(p.topK))
    case Refused(_) | InvalidResultList =>
      && verified && Admits(limits, p, count) && |bytes| == HEADER_BYTES + Span(count, Size(p.topK))
      && ReplayStops(i, p, ReadObservations(bytes, HEADER_BYTES, p.topK, i.binding, count), error)
    case _ => false
  }

  /** The ledger cannot be opened, or some observation after a good start is malformed or refused. */
  ghost predicate ReplayStops(i: Identity, p: Profile, obs: seq<Observation>, error: ReplayError) {
    if Opens(i, p) then exists k :: 0 <= k < |obs| && StopsAt(i, p, obs, k, error)
    else error.Refused? && CannotOpen(i, p, error.error)
  }

  ghost predicate StopsAt(i: Identity, p: Profile, obs: seq<Observation>, k: nat, error: ReplayError)
    requires Opens(i, p) && k < |obs|
  {
    && RecallLedger.Run(i, p, obs[..k]) && k <= i.window.Capacity()
    && match error
       case InvalidResultList => !obs[k].Valid()
       case Refused(reason) => obs[k].Valid() && Refusal(i, p, obs[..k], obs[k]) == Some(reason)
       case _ => false
  }

  ghost predicate Complaint(bytes: seq<u8>, limits: ReplayLimits, i: Identity, p: Profile, verified: bool,
    error: ReplayError) {
    match error
    case EncodedBytesLimit(actual, maximum) => actual == |bytes| > maximum == limits.maxEncodedBytes
    case Truncated => |bytes| <= limits.maxEncodedBytes && |bytes| < HEADER_BYTES
    case _ =>
      && HEADER_BYTES <= |bytes| <= limits.maxEncodedBytes
      && (|| HeaderComplaint(bytes, i, p, error)
          || (HeaderAgrees(bytes, i, p, CountAt(bytes))
              && BodyComplaint(bytes, limits, i, p, verified, CountAt(bytes), error)))
  }

  // ----- decoding

  method ReadPrelude(reader: Reader) returns (error: Option<ReplayError>)
    requires reader.offset == 0 && |reader.bytes| >= HEADER_BYTES
    modifies reader
    ensures error.None? <==> PreludeAgrees(reader.bytes)
    ensures match error
            case Some(Magic) => PreludeAt(reader.bytes)[0] != MAGIC
            case Some(Version) => PreludeAt(reader.bytes)[0] == MAGIC && PreludeAt(reader.bytes)[1] != VERSION
            case Some(Reserved) => PreludeAt(reader.bytes)[..2] == [MAGIC, VERSION] && PreludeAt(reader.bytes)[2] != 0
            case Some(_) => false
            case None => true
    ensures reader.offset == IDENTITY_AT
  {
    ShapeLengths(0);
    var words := reader.Run(PreludeShape());
    if words[0] != MAGIC {
      return Some(Magic);
    }
    if words[1] != VERSION {
      return Some(Version);
    }
    if words[2] != 0 {
      return Some(Reserved);
    }
    error := None;
  }

  method ReadIdentity(reader: Reader) returns (r: Result<Identity, ReplayError>)
    requires reader.offset == IDENTITY_AT && |reader.bytes| >= HEADER_BYTES
    modifies reader
    ensures reader.offset == PROFILE_AT
    ensures var identity := IdentityAt(reader.bytes);
            r == if identity.Valid() then Ok(identity) else Err(InvalidIdentity)
  {
    ShapeLengths(0);
    var words := reader.Run(IdentityShape());
    var identity := IdentityOf(words);
    if !identity.Valid() {
      return Err(InvalidIdentity);
    }
    r := Ok(identity);
  }

  method ReadProfile(reader: Reader) returns (r: Result<Profile, ReplayError>)
    requires reader.offset == PROFILE_AT && |reader.bytes| >= HEADER_BYTES
    modifies reader
    ensures reader.offset == TAIL_AT
    ensures var words := ProfileAt(reader.bytes);
            r == if !Canonical(words) then Err(NonCanonicalProfile)
                 else if !ProfileOf(words).Valid() then Err(InvalidProfile)
                 else Ok(ProfileOf(words))
  {
    ProfileLength();
    var words := reader.Run(ProfileShape());
    if !Canonical(words) {
      return Err(NonCanonicalProfile);
    }
    var profile := ProfileOf(words);
    if !profile.Valid() {
      return Err(InvalidProfile);
    }
    r := Ok(profile);
  }

  method ReadTail(reader: Reader) returns (r: Result<nat, ReplayError>)
    requires reader.offset == TAIL_AT && |reader.bytes| >= HEADER_BYTES
    modifies reader
    ensures reader.offset == HEADER_BYTES
    ensures r.Ok? <==> TailAgrees(reader.bytes, CountAt(reader.bytes))
    ensures r.Ok? ==> r.value == CountAt(reader.bytes)
    ensures r.Ok? ==> r.value < 0x1_0000_0000
    ensures r.Err? ==> r.error.ProfileReserved?
  {
    ShapeLengths(0);
    CountFits(reader.bytes);
    var words := reader.Run(TailShape());
    assert words == [words[0], words[1]];
    if words[0] != 0 {
      return Err(ProfileReserved);
    }
    r := Ok(words[1]);
  }

  lemma CountFits(bytes: seq<u8>)
    requires |bytes| >= HEADER_BYTES
    ensures TAIL_AT + Length(TailShape()) <= |bytes| && ReadWords(bytes, TAIL_AT, TailShape())[1] < 0x1_0000_0000
  {
    ShapeLengths(0);
    WordsReadBack(TailShape(), bytes, TAIL_AT);
    FitsAt(TailShape(), ReadWords(bytes, TAIL_AT, TailShape()), 1);
    WordWidths();
  }

  /** Reads every part of the header, or finds one that no trusted state could agree with. */
  method ReadParts(reader: Reader, ghost i: Identity, ghost p: Profile)
    returns (r: Result<(Identity, Profile, nat), ReplayError>)
    requires reader.offset == 0 && |reader.bytes| >= HEADER_BYTES && i.Valid() && p.Valid()
    modifies reader
    ensures r.Ok? ==>
            reader.offset == HEADER_BYTES && PreludeAgrees(reader.bytes)
            && TailAgrees(reader.bytes, CountAt(reader.bytes))
    ensures r.Ok? ==>
            (IdentityAgrees(reader.bytes, i) <==> r.value.0 == i)
            && (ProfileAgrees(reader.bytes, p) <==> r.value.1 == p)
    ensures r.Ok? ==> r.value.2 == CountAt(reader.bytes) && r.value.2 < 0x1_0000_0000
    ensures r.Err? ==> HeaderComplaint(reader.bytes, i, p, r.error)
    ensures r.Err? ==> !HeaderAgrees(reader.bytes, i, p, CountAt(reader.bytes))
  {
    var error := ReadPrelude(reader);
    if error.Some? {
      return Err(error.value);
    }
    var identity := ReadIdentity(reader);
    if identity.Err? {
      return Err(identity.error);
    }
    var profile := ReadProfile(reader);
    if profile.Err? {
      return Err(profile.error);
    }
    var count := ReadTail(reader);
    if count.Err? {
      return Err(count.error);
    }
    r := Ok((identity.value, profile.value, count.value));
  }

  /** Reads the header and compares it with trusted state; the answer is the observation count. */
  method ReadHeader(reader: Reader, i: Identity, p: Profile) returns (r: Result<nat, ReplayError>)
    requires reader.offset == 0 && |reader.bytes| >= HEADER_BYTES && i.Valid() && p.Valid()
    modifies reader
    ensures r.Ok? <==> HeaderAgrees(reader.bytes, i, p, CountAt(reader.bytes))
    ensures r.Ok? ==> r.value == CountAt(reader.bytes)
    ensures r.Ok? ==> reader.offset == HEADER_BYTES && r.value < 0x1_0000_0000
    ensures r.Err? ==> HeaderComplaint(reader.bytes, i, p, r.error)
  {
    var parts := ReadParts(reader, i, p);
    if parts.Err? {
      return Err(parts.error);
    }
    if parts.value.0 != i {
      return Err(IdentityMismatch);
    }
    if parts.value.1 != p {
      return Err(ProfileMismatch);
    }
    r := Ok(parts.value.2);
  }

  method NextObservation(reader: Reader, topK: nat, binding: Binding) returns (o: Observation)
    requires reader.offset + Size(topK) <= |reader.bytes|
    modifies reader
    ensures reader.offset == old(reader.offset) + Size(topK)
    ensures o == ReadObservation(reader.bytes, old(reader.offset), topK, binding)
  {
    ShapeLengths(topK);
    var words := reader.Run(ObservationShape(topK));
    o := ObservationOf(words, topK, binding);
  }

  method ValidateLists(o: Observation) returns (ok: bool)
    ensures ok <==> o.Valid()
  {
    ok := ValidateResultList(o.baseline);
    if ok {
      ok := ValidateResultList(o.candidate);
    }
  }

  /** Reads and records the next observation of a stream that holds `all`. */
  method ReplayOne(reader: Reader, ledger: Ledger, ghost all: seq<Observation>, ghost left: nat)
    returns (error: Option<ReplayError>)
    requires ledger.Valid() && left > 0
    requires reader.offset + Span(left, Size(ledger.profile.topK)) <= |reader.bytes|
    requires all == ledger.observations
                    + ReadObservations(reader.bytes, reader.offset, ledger.profile.topK, ledger.identity.binding, left)
    modifies reader, ledger
    ensures ledger.Valid()
    ensures error.Some? ==>
            && !RecallLedger.Run(ledger.identity, ledger.profile, all)
            && |old(ledger.observations)| < |all|
            && StopsAt(ledger.identity, ledger.profile, all, |old(ledger.observations)|, error.value)
    ensures error.None? ==> reader.offset + Span(left - 1, Size(ledger.profile.topK)) <= |reader.bytes|
    ensures error.None? ==> |ledger.observations| == |old(ledger.observations)| + 1
    ensures error.None? ==>
              all == ledger.observations
                     + ReadObservations(reader.bytes, reader.offset, ledger.profile.topK, ledger.identity.binding,
                                        left - 1)
  {
    var topK, binding := ledger.profile.topK, ledger.identity.binding;
    ghost var done := ledger.observations;
    var o := NextObservation(reader, topK, binding);
    SplitAt(all, done, o, ReadObservations(reader.bytes, reader.offset, topK, binding, left - 1));
    var valid := ValidateLists(o);
    if !valid {
      NotARun(ledger.identity, ledger.profile, all, |done|);
      return Some(InvalidResultList);
    }
    var recorded := ledger.Record(o);
    if recorded.Err? {
      NotARun(ledger.identity, ledger.profile, all, |done|);
      return Some(Refused(recorded.error));
    }
    error := None;
  }

  /** Records every observation of the stream in order. */
  method Replay(reader: Reader, ledger: Ledger, count: nat) returns (r: Result<(), ReplayError>)
    requires ledger.Valid() && ledger.observations == [] && reader.offset == HEADER_BYTES
    requires HEADER_BYTES + Span(count, Size(ledger.profile.topK)) <= |reader.bytes|
    modifies reader, ledger
    ensures ledger.Valid()
    ensures var obs := ReadObservations(reader.bytes, HEADER_BYTES, ledger.profile.topK, ledger.identity.binding,
                                        count);
            && (r.Ok? <==> RecallLedger.Run(ledger.identity, ledger.profile, obs))
            && (r.Ok? ==> ledger.observations == obs)
    ensures r.Err? ==>
              ReplayStops(ledger.identity, ledger.profile,
                          ReadObservations(reader.bytes, HEADER_BYTES, ledger.profile.topK, ledger.identity.binding,
                                           count), r.error)
  {
    ghost var topK, binding := ledger.profile.topK, ledger.identity.binding;
    ghost var all := ReadObservations(reader.bytes, HEADER_BYTES, topK, binding, count);
    for k := 0 to count
      invariant ledger.Valid()
      invariant reader.offset + Span(count - k, Size(topK)) <= |reader.bytes|
      invariant all == ledger.observations + ReadObservations(reader.bytes, reader.offset, topK, binding, count - k)
    {
      var error := ReplayOne(reader, ledger, all, count - k);
      if error.Some? {
        return Err(error.value);
      }
    }
    assert ledger.observations + [] == ledger.observations;
    r := Ok(());
  }

  lemma SplitAt(all: seq<Observation>, done: seq<Observation>, o: Observation, rest: seq<Observation>)
    requires all == done + ([o] + rest)
    ensures |done| < |all| && all[..|done|] == done && all[|done|] == o
    ensures all == (done + [o]) + rest
  {
  }

  lemma NotARun(i: Identity, p: Profile, all: seq<Observation>, k: nat)
    requires k < |all| && !(all[k].Valid() && Follows(i, p, all[..k], all[k]))
    ensures !RecallLedger.Run(i, p, all)
  {
    if RecallLedger.Run(i, p, all) {
      RunPrefix(i, p, all, k);
    }
  }

  /** Everything after the header. */
  method Rebuild(reader: Reader, limits: ReplayLimits, identity: Identity, profile: Profile, verified: bool, count: nat)
    returns (r: Result<Ledger, ReplayError>)
    requires identity.Valid() && profile.Valid() && reader.offset == HEADER_BYTES <= |reader.bytes|
    modifies reader
    ensures r.Ok? <==> BodyAccepts(reader.bytes, limits, identity, profile, verified, count)
    ensures r.Ok? ==> fresh(r.value) && r.value.Valid() && r.value.identity == identity && r.value.profile == profile
    ensures r.Ok? ==> r.value.observations == ReadObservations(reader.bytes, HEADER_BYTES, profile.topK,
                                                               identity.binding, count)
    ensures r.Err? ==> BodyComplaint(reader.bytes, limits, identity, profile, verified, count, r.error)
  {
    if !verified {
      return Err(ProfileIdentityUnverified);
    }
    if !Admits(limits, profile, count) {
      return Err(LimitExceeded);
    }
    SpanIs(count, Size(profile.topK));
    var required := HEADER_BYTES + count * Size(profile.topK);
    if |reader.bytes| != required {
      return Err(WrongLength(required, |reader.bytes|));
    }
    var empty := TryNew(identity, profile);
    if empty.Err? {
      return Err(Refused(empty.error));
    }
    var replayed := Replay(reader, empty.value, count);
    if replayed.Err? {
      return Err(replayed.error);
    }
    r := Ok(empty.value);
  }

  /**
   Rebuilds a ledger from a stream; it succeeds exactly on the streams that are accepted, and says what was wrong
   with the others.
   */
  method FromCanonicalReplayBytes(
    bytes: seq<u8>, limits: ReplayLimits, identity: Identity, profile: Profile, verified: bool)
    returns (r: Result<Ledger, ReplayError>)
    requires identity.Valid() && profile.Valid()
    ensures r.Ok? <==> Accepts(bytes, limits, identity, profile, verified)
    ensures r.Ok? ==> fresh(r.value) && r.value.Valid() && r.value.identity == identity && r.value.profile == profile
    ensures r.Ok? ==> r.value.observations == ReadObservations(bytes, HEADER_BYTES, profile.topK, identity.binding,
                                                               CountAt(bytes))
    ensures r.Err? ==> Complaint(bytes, limits, identity, profile, verified, r.error)
  {
    if |bytes| > limits.maxEncodedBytes {
      return Err(EncodedBytesLimit(|bytes|, limits.maxEncodedBytes));
    }
    if |bytes| < HEADER_BYTES {
      return Err(Truncated);
    }
    var reader := new Reader(bytes);
    var header := ReadHeader(reader, identity, profile);
    if header.Err? {
      return Err(header.error);
    }
    r := Rebuild(reader, limits, identity, profile, verified, header.value);
  }

  /** Replaying a ledger's own stream rebuilds its observations and every counter. */
  method RoundTrip(ledger: Ledger, limits: ReplayLimits) returns (r: Result<Ledger, ReplayError>)
    requires ledger.Valid() && Admits(limits, ledger.profile, |ledger.observations|)
    requires HEADER_BYTES + Span(|ledger.observations|, Size(ledger.profile.topK)) <= limits.maxEncodedBytes
    ensures r.Ok? && fresh(r.value) && r.value.Valid()
    ensures r.value.identity == ledger.identity && r.value.profile == ledger.profile
    ensures r.value.observations == ledger.observations && r.value.sampleMembers == ledger.sampleMembers
    ensures r.value.intersectionHits == ledger.intersectionHits && r.value.baselineResults == ledger.baselineResults
  {
    var bytes := ToCanonicalReplayBytes(ledger);
    EncodedIsAccepted(ledger.identity, ledger.profile, ledger.observations, limits);
    r := FromCanonicalReplayBytes(bytes, limits, ledger.identity, ledger.profile, true);
  }
}
