/** Where every field of a replay stream lies, and how its bytes spell it. */
module RecallLayout {
  import opened Words
  import opened Bytes
  import opened RecallLedger
  import opened RecallReplay
  import opened RecallStream

  // ----- the layout

  /** An object identifier, thirty-two bytes, highest first. */
  ghost predicate OidAt(bytes: seq<u8>, at: nat, oid: nat) {
    Stands(bytes, at, ToBE(oid, 32))
  }

  /** A number in `width` bytes, lowest first. */
  ghost predicate NumberAt(bytes: seq<u8>, at: nat, n: nat, width: nat) {
    Stands(bytes, at, ToLE(n, width))
  }

  /** The letters FGDBARR1, version one and a reserved zero. */
  ghost predicate PreludeLaidOut(bytes: seq<u8>) {
    && Stands(bytes, 0, [0x46, 0x47, 0x44, 0x42, 0x41, 0x52, 0x52, 0x31])
    && Stands(bytes, 8, [1, 0]) && Stands(bytes, 10, [0, 0])
  }

  ghost predicate IdentityLaidOut(bytes: seq<u8>, i: Identity) {
    && OidAt(bytes, 12, i.binding.monitor) && OidAt(bytes, 44, i.binding.profile)
    && OidAt(bytes, 76, i.binding.population) && OidAt(bytes, 108, i.binding.snapshot)
    && OidAt(bytes, 140, i.binding.authority) && OidAt(bytes, 172, i.binding.sampleKey)
    && OidAt(bytes, 204, i.binding.sampleDesign) && OidAt(bytes, 236, i.binding.baseline)
    && OidAt(bytes, 268, i.binding.candidatePolicy) && OidAt(bytes, 300, i.fallbackPolicy)
    && OidAt(bytes, 332, i.rebuildPolicy)
    && NumberAt(bytes, 364, i.window.first, 8) && NumberAt(bytes, 372, i.window.last, 8)
    && NumberAt(bytes, 380, i.binding.epoch, 8)
  }

  ghost predicate ProfileLaidOut(bytes: seq<u8>, p: Profile) {
    && OidAt(bytes, 388, p.oid)
    && NumberAt(bytes, 420, p.topK, 4) && NumberAt(bytes, 424, p.maximumQueries, 4)
    && NumberAt(bytes, 428, p.maximumResultIds, 4) && NumberAt(bytes, 432, p.exponent, 1)
    && NumberAt(bytes, 433, p.candidateThreshold, 8) && NumberAt(bytes, 441, p.rebuildThreshold, 8)
    && NumberAt(bytes, 449, match p.assumptions.design
                            case UniformWithoutReplacement => 1
                            case IndependentWithReplacement => 2
                            case UnspecifiedDependence => 3, 1)
    && NumberAt(bytes, 450, if p.assumptions.baselineComplete then 1 else 0, 1)
    && NumberAt(bytes, 451, if p.assumptions.authorizationFixed then 1 else 0, 1)
    && NumberAt(bytes, 452, if p.assumptions.candidateFixed then 1 else 0, 1)
  }

  ghost predicate TailLaidOut(bytes: seq<u8>, count: nat) {
    NumberAt(bytes, 453, 0, 3) && NumberAt(bytes, 456, count, 4)
  }

  /** Identifiers one after another. */
  ghost predicate ListAt(bytes: seq<u8>, at: nat, list: seq<nat>) {
    forall k :: 0 <= k < |list| ==> OidAt(bytes, at + 32 * k, list[k])
  }

  /** An observation: its sequence, member and query, then the exact list and then the candidate's. */
  ghost predicate ObservationLaidOut(bytes: seq<u8>, at: nat, o: Observation, topK: nat) {
    && NumberAt(bytes, at, o.sequence, 8) && OidAt(bytes, at + 8, o.member) && OidAt(bytes, at + 40, o.query)
    && ListAt(bytes, at + 72, o.baseline) && ListAt(bytes, at + 72 + 32 * topK, o.candidate)
  }

  // ----- offsets

  /** Where the `k`th word begins. */
  function Offset(shape: seq<Width>, k: nat): nat
    requires k <= |shape|
  {
    if k == 0 then 0 else Offset(shape, k - 1) + shape[k - 1].bytes
  }

  lemma {:induction false} SuffixStands(shape: seq<Width>, vs: seq<nat>, bytes: seq<u8>, at: nat, k: nat)
    requires |shape| == |vs| && Stands(bytes, at, WordsBytes(shape, vs)) && k <= |vs|
    ensures Stands(bytes, at + Offset(shape, k), WordsBytes(shape[k..], vs[k..]))
    decreases k
  {
    if k == 0 {
      assert shape[0..] == shape && vs[0..] == vs;
    } else {
      var j := k - 1;
      SuffixStands(shape, vs, bytes, at, j);
      var rest, words := shape[j..], vs[j..];
      assert rest[1..] == shape[k..] && words[1..] == vs[k..] && rest[0] == shape[j];
      StandsParts(bytes, at + Offset(shape, j), WordBytes(rest[0], words[0]), WordsBytes(rest[1..], words[1..]));
    }
  }

  /** The `k`th word stands at its offset. */
  lemma {:induction false} WordAt(shape: seq<Width>, vs: seq<nat>, bytes: seq<u8>, at: nat, k: nat, spot: nat)
    requires |shape| == |vs| && Stands(bytes, at, WordsBytes(shape, vs)) && k < |vs| && spot == at + Offset(shape, k)
    ensures Stands(bytes, spot, WordBytes(shape[k], vs[k]))
  {
    SuffixStands(shape, vs, bytes, at, k);
    var rest, words := shape[k..], vs[k..];
    StandsParts(bytes, spot, WordBytes(rest[0], words[0]), WordsBytes(rest[1..], words[1..]));
  }

  lemma {:induction false} OidWordAt(shape: seq<Width>, vs: seq<nat>, bytes: seq<u8>, at: nat, k: nat, spot: nat)
    requires |shape| == |vs| && Stands(bytes, at, WordsBytes(shape, vs)) && k < |vs| && spot == at + Offset(shape, k)
    requires shape[k] == OID
    ensures OidAt(bytes, spot, vs[k])
  {
    WordAt(shape, vs, bytes, at, k, spot);
  }

  lemma {:induction false} NumberWordAt(shape: seq<Width>, vs: seq<nat>, bytes: seq<u8>, at: nat, k: nat, spot: nat)
    requires |shape| == |vs| && Stands(bytes, at, WordsBytes(shape, vs)) && k < |vs| && spot == at + Offset(shape, k)
    requires shape[k].LittleEndian?
    ensures NumberAt(bytes, spot, vs[k], shape[k].bytes)
  {
    WordAt(shape, vs, bytes, at, k, spot);
  }

  /** After `lead`, a run of identifiers lies thirty-two bytes apart. */
  lemma {:induction false} OidOffset(shape: seq<Width>, lead: nat, k: nat)
    requires lead + k <= |shape| && forall j :: lead <= j < lead + k ==> shape[j] == OID
    ensures Offset(shape, lead + k) == Offset(shape, lead) + 32 * k
    decreases k
  {
    if k > 0 {
      OidOffset(shape, lead, k - 1);
      assert shape[lead + k - 1] == OID;
    }
  }

  // ----- the header

  lemma {:induction false} IdentityOid(bytes: seq<u8>, i: Identity, k: nat, spot: nat)
    requires Stands(bytes, 12, IdentityBytes(i)) && k < 11 && spot == 12 + 32 * k
    ensures OidAt(bytes, spot, IdentityWords(i)[k])
  {
    OidOffset(IdentityShape(), 0, k);
    OidWordAt(IdentityShape(), IdentityWords(i), bytes, 12, k, spot);
  }

  lemma {:induction false} IdentityOffsets(shape: seq<Width>)
    requires shape == IdentityShape()
    ensures Offset(shape, 11) == 352 && Offset(shape, 12) == 360 && Offset(shape, 13) == 368
    ensures shape[11] == shape[12] == shape[13] == LittleEndian(8)
  {
    OidOffset(shape, 0, 11);
    assert Offset(shape, 0) == 0 && Offset(shape, 11) == 352;
    assert Offset(shape, 12) == 360;
  }

  lemma {:induction false} IdentityNumbers(bytes: seq<u8>, i: Identity)
    requires Stands(bytes, 12, IdentityBytes(i))
    ensures NumberAt(bytes, 364, i.window.first, 8) && NumberAt(bytes, 372, i.window.last, 8)
    ensures NumberAt(bytes, 380, i.binding.epoch, 8)
  {
    var shape, vs := IdentityShape(), IdentityWords(i);
    IdentityOffsets(shape);
    NumberWordAt(shape, vs, bytes, 12, 11, 364);
    NumberWordAt(shape, vs, bytes, 12, 12, 372);
    NumberWordAt(shape, vs, bytes, 12, 13, 380);
  }

  lemma {:induction false} IdentityLies(bytes: seq<u8>, i: Identity)
    requires Stands(bytes, 12, IdentityBytes(i))
    ensures IdentityLaidOut(bytes, i)
  {
    IdentityOid(bytes, i, 0, 12);
    IdentityOid(bytes, i, 1, 44);
    IdentityOid(bytes, i, 2, 76);
    IdentityOid(bytes, i, 3, 108);
    IdentityOid(bytes, i, 4, 140);
    IdentityOid(bytes, i, 5, 172);
    IdentityOid(bytes, i, 6, 204);
    IdentityOid(bytes, i, 7, 236);
    IdentityOid(bytes, i, 8, 268);
    IdentityOid(bytes, i, 9, 300);
    IdentityOid(bytes, i, 10, 332);
    IdentityNumbers(bytes, i);
  }

  lemma {:induction false} ProfileOffsets(shape: seq<Width>)
    requires shape == ProfileShape()
    ensures Offset(shape, 0) == 0 && Offset(shape, 1) == 32 && Offset(shape, 2) == 36 && Offset(shape, 3) == 40
    ensures Offset(shape, 4) == 44 && Offset(shape, 5) == 45 && Offset(shape, 6) == 53 && Offset(shape, 7) == 61
    ensures Offset(shape, 8) == 62 && Offset(shape, 9) == 63 && Offset(shape, 10) == 64
  {
    assert Offset(shape, 1) == 32;
    assert Offset(shape, 2) == 36;
    assert Offset(shape, 3) == 40;
    assert Offset(shape, 4) == 44;
    assert Offset(shape, 5) == 45;
    assert Offset(shape, 6) == 53;
    assert Offset(shape, 7) == 61;
    assert Offset(shape, 8) == 62;
    assert Offset(shape, 9) == 63;
  }

  lemma {:induction false} ProfileNumber(bytes: seq<u8>, p: Profile, k: nat, spot: nat)
    requires Stands(bytes, 388, ProfileBytes(p)) && 0 < k < 11 && spot == 388 + Offset(ProfileShape(), k)
    ensures NumberAt(bytes, spot, ProfileWords(p)[k], ProfileShape()[k].bytes)
  {
    NumberWordAt(ProfileShape(), ProfileWords(p), bytes, 388, k, spot);
  }

  lemma {:induction false} ProfileLies(bytes: seq<u8>, p: Profile)
    requires Stands(bytes, 388, ProfileBytes(p))
    ensures ProfileLaidOut(bytes, p)
  {
    ProfileOffsets(ProfileShape());
    OidWordAt(ProfileShape(), ProfileWords(p), bytes, 388, 0, 388);
    ProfileNumber(bytes, p, 1, 420);
    ProfileNumber(bytes, p, 2, 424);
    ProfileNumber(bytes, p, 3, 428);
    ProfileNumber(bytes, p, 4, 432);
    ProfileNumber(bytes, p, 5, 433);
    ProfileNumber(bytes, p, 6, 441);
    ProfileNumber(bytes, p, 7, 449);
    ProfileNumber(bytes, p, 8, 450);
    ProfileNumber(bytes, p, 9, 451);
    ProfileNumber(bytes, p, 10, 452);
  }

  lemma {:induction false} TailLies(bytes: seq<u8>, count: nat)
    requires Stands(bytes, 453, TailBytes(count))
    ensures TailLaidOut(bytes, count)
  {
    var shape, vs := TailShape(), [0, count];
    assert Offset(shape, 1) == 3;
    NumberWordAt(shape, vs, bytes, 453, 0, 453);
    NumberWordAt(shape, vs, bytes, 453, 1, 456);
  }

  lemma {:induction false} PreludeLies(bytes: seq<u8>)
    requires Stands(bytes, 0, PreludeBytes())
    ensures PreludeLaidOut(bytes)
  {
    var shape, vs := PreludeShape(), [MAGIC, VERSION, 0];
    assert Offset(shape, 1) == 8 && Offset(shape, 2) == 10;
    WordAt(shape, vs, bytes, 0, 0, 0);
    WordAt(shape, vs, bytes, 0, 1, 8);
    WordAt(shape, vs, bytes, 0, 2, 10);
    Constants();
  }

  lemma {:induction false} Constants()
    ensures ToBE(MAGIC, 8) == [0x46, 0x47, 0x44, 0x42, 0x41, 0x52, 0x52, 0x31]
    ensures ToLE(VERSION, 2) == [1, 0] && ToLE(0, 2) == [0, 0]
  {
    assert ToBE(0x46, 1) == [0x46];
    NextByte(0x46, 0x47, 1, [0x46]);
    NextByte(0x46_47, 0x44, 2, [0x46, 0x47]);
    NextByte(0x46_47_44, 0x42, 3, [0x46, 0x47, 0x44]);
    NextByte(0x46_47_44_42, 0x41, 4, [0x46, 0x47, 0x44, 0x42]);
    NextByte(0x46_47_44_42_41, 0x52, 5, [0x46, 0x47, 0x44, 0x42, 0x41]);
    NextByte(0x46_47_44_42_41_52, 0x52, 6, [0x46, 0x47, 0x44, 0x42, 0x41, 0x52]);
    NextByte(0x46_47_44_42_41_52_52, 0x31, 7, [0x46, 0x47, 0x44, 0x42, 0x41, 0x52, 0x52]);
    assert ToLE(0, 1) == [0];
  }

  lemma {:induction false} NextByte(high: nat, low: u8, width: nat, bytes: seq<u8>)
    requires ToBE(high, width) == bytes
    ensures ToBE(high * 256 + low, width + 1) == bytes + [low]
  {
  }

  lemma {:induction false} HeaderLies(bytes: seq<u8>, i: Identity, p: Profile, count: nat)
    requires Stands(bytes, 0, HeaderBytes(i, p, count))
    ensures PreludeLaidOut(bytes) && IdentityLaidOut(bytes, i) && ProfileLaidOut(bytes, p) && TailLaidOut(bytes, count)
  {
    var rest := ProfileBytes(p) + TailBytes(count);
    StandsParts(bytes, 0, PreludeBytes(), IdentityBytes(i) + rest);
    StandsParts(bytes, 12, IdentityBytes(i), rest);
    StandsParts(bytes, 388, ProfileBytes(p), TailBytes(count));
    PreludeLies(bytes);
    IdentityLies(bytes, i);
    ProfileLies(bytes, p);
    TailLies(bytes, count);
  }

  // ----- the observations

  lemma {:induction false} ObservationStands(bytes: seq<u8>, at: nat, obs: seq<Observation>, topK: nat, k: nat)
    requires FullLists(obs, topK) && Stands(bytes, at, ObservationsBytes(obs, topK)) && k < |obs|
    ensures Stands(bytes, at + Span(k, Size(topK)), ObservationBytes(obs[k], topK))
    decreases k
  {
    StandsParts(bytes, at, ObservationBytes(obs[0], topK), ObservationsBytes(obs[1..], topK));
    if k > 0 {
      ObservationStands(bytes, at + Size(topK), obs[1..], topK, k - 1);
    }
  }

  lemma {:induction false} ObservationOffsets(topK: nat, k: nat)
    requires k < 2 * topK
    ensures Offset(ObservationShape(topK), 3 + k) == 72 + 32 * k && ObservationShape(topK)[3 + k] == OID
  {
    var shape := ObservationShape(topK);
    assert shape[0] == LittleEndian(8) && shape[1] == OID && shape[2] == OID;
    assert Offset(shape, 1) == 8;
    assert Offset(shape, 2) == 40;
    assert Offset(shape, 3) == 72;
    OidOffset(shape, 3, k);
  }

  lemma {:induction false} ListedOid(bytes: seq<u8>, at: nat, o: Observation, topK: nat, k: nat, spot: nat)
    requires |o.baseline| == |o.candidate| == topK && Stands(bytes, at, ObservationBytes(o, topK)) && k < 2 * topK
    requires spot == at + 72 + 32 * k
    ensures |ObservationWords(o)| == 3 + 2 * topK && OidAt(bytes, spot, ObservationWords(o)[3 + k])
  {
    ObservationFits(o, topK);
    ObservationOffsets(topK, k);
    OidWordAt(ObservationShape(topK), ObservationWords(o), bytes, at, 3 + k, spot);
  }

  lemma {:induction false} ListsLie(bytes: seq<u8>, at: nat, o: Observation, topK: nat, first: nat, second: nat)
    requires |o.baseline| == |o.candidate| == topK && Stands(bytes, at, ObservationBytes(o, topK))
    requires first == at + 72 && second == at + 72 + 32 * topK
    ensures ListAt(bytes, first, o.baseline) && ListAt(bytes, second, o.candidate)
  {
    forall k | 0 <= k < topK
      ensures OidAt(bytes, first + 32 * k, o.baseline[k])
    {
      ListedOid(bytes, at, o, topK, k, first + 32 * k);
    }
    forall k | 0 <= k < topK
      ensures OidAt(bytes, second + 32 * k, o.candidate[k])
    {
      ListedOid(bytes, at, o, topK, topK + k, second + 32 * k);
    }
  }

  lemma {:induction false} ObservationLies(bytes: seq<u8>, at: nat, o: Observation, topK: nat)
    requires |o.baseline| == |o.candidate| == topK && Stands(bytes, at, ObservationBytes(o, topK))
    ensures ObservationLaidOut(bytes, at, o, topK)
  {
    ObservationFits(o, topK);
    var shape, vs := ObservationShape(topK), ObservationWords(o);
    assert Offset(shape, 1) == 8 && Offset(shape, 2) == 40;
    NumberWordAt(shape, vs, bytes, at, 0, at);
    OidWordAt(shape, vs, bytes, at, 1, at + 8);
    OidWordAt(shape, vs, bytes, at, 2, at + 40);
    ListsLie(bytes, at, o, topK, at + 72, at + 72 + 32 * topK);
  }

  /** Observations follow one another from the end of the header. */
  lemma {:induction false} ObservationsLie(
    bytes: seq<u8>, obs: seq<Observation>, topK: nat, k: nat, size: nat, at: nat)
    requires FullLists(obs, topK) && Stands(bytes, 460, ObservationsBytes(obs, topK)) && k < |obs|
    requires size == 72 + 64 * topK && at == 460 + k * size
    ensures ObservationLaidOut(bytes, at, obs[k], topK)
  {
    SpanIs(k, size);
    ObservationStands(bytes, 460, obs, topK, k);
    ObservationLies(bytes, at, obs[k], topK);
  }

  // ----- the stream

  /** A canonical stream is a header of 460 bytes and the observations. */
  lemma {:induction false} StreamParts(i: Identity, p: Profile, obs: seq<Observation>)
    requires FullLists(obs, p.topK)
    ensures Stands(StreamBytes(i, p, obs), 0, HeaderBytes(i, p, |obs|))
    ensures Stands(StreamBytes(i, p, obs), 460, ObservationsBytes(obs, p.topK))
  {
    var bytes, header, body := StreamBytes(i, p, obs), HeaderBytes(i, p, |obs|), ObservationsBytes(obs, p.topK);
    assert bytes[0..|bytes|] == bytes;
    StandsParts(bytes, 0, header, body);
  }

  /** The header of a canonical stream, field by field. */
  lemma {:induction false} StreamHeader(i: Identity, p: Profile, obs: seq<Observation>)
    requires FullLists(obs, p.topK)
    ensures var bytes := StreamBytes(i, p, obs);
            && PreludeLaidOut(bytes) && IdentityLaidOut(bytes, i) && ProfileLaidOut(bytes, p)
            && TailLaidOut(bytes, |obs|)
  {
    StreamParts(i, p, obs);
    HeaderLies(StreamBytes(i, p, obs), i, p, |obs|);
  }
}
