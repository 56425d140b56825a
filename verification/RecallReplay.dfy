/** The canonical replay stream of a recall ledger. */
module RecallReplay {
  import opened Words
  import opened Arith
  import opened Bytes
  import opened RecallInterval
  import opened RecallLedger

  // ----- fixed-width words

  datatype Width = LittleEndian(bytes: nat) | BigEndian(bytes: nat)

  function WordBytes(w: Width, v: nat): (b: seq<u8>)
    ensures |b| == w.bytes
  {
    match w
    case LittleEndian(n) => ToLE(v, n)
    case BigEndian(n) => ToBE(v, n)
  }

  function ReadWord(bytes: seq<u8>, at: nat, w: Width): nat
    requires at + w.bytes <= |bytes|
  {
    var raw := bytes[at..at + w.bytes];
    match w
    case LittleEndian(_) => FromLE(raw)
    case BigEndian(_) => FromBE(raw)
  }

  function Length(shape: seq<Width>): nat {
    if shape == [] then 0 else shape[0].bytes + Length(shape[1..])
  }

  predicate FitsWord(w: Width, v: nat) {
    v < Pow256(w.bytes)
  }

  predicate Fits(shape: seq<Width>, vs: seq<nat>)
    requires |shape| == |vs|
  {
    vs == [] || (FitsWord(shape[0], vs[0]) && Fits(shape[1..], vs[1..]))
  }

  lemma {:induction false} FitsEach(shape: seq<Width>, vs: seq<nat>)
    requires |shape| == |vs| && forall i :: 0 <= i < |vs| ==> FitsWord(shape[i], vs[i])
    ensures Fits(shape, vs)
  {
    if vs != [] {
      FitsEach(shape[1..], vs[1..]);
    }
  }

  function WordsBytes(shape: seq<Width>, vs: seq<nat>): (b: seq<u8>)
    requires |shape| == |vs|
    ensures |b| == Length(shape)
  {
    if vs == [] then [] else WordBytes(shape[0], vs[0]) + WordsBytes(shape[1..], vs[1..])
  }

  function ReadWords(bytes: seq<u8>, at: nat, shape: seq<Width>): (vs: seq<nat>)
    requires at + Length(shape) <= |bytes|
    ensures |vs| == |shape|
    decreases |shape|
  {
    if shape == [] then [] else [ReadWord(bytes, at, shape[0])] + ReadWords(bytes, at + shape[0].bytes, shape[1..])
  }

  lemma WordRoundTrip(w: Width, v: nat, bytes: seq<u8>, at: nat)
    requires FitsWord(w, v) && Stands(bytes, at, WordBytes(w, v))
    ensures ReadWord(bytes, at, w) == v
  {
    if w.LittleEndian? {
      FromToLE(v, w.bytes);
    } else {
      FromToBE(v, w.bytes);
    }
  }

  lemma WordReadBack(w: Width, bytes: seq<u8>, at: nat)
    requires at + w.bytes <= |bytes|
    ensures FitsWord(w, ReadWord(bytes, at, w))
    ensures WordBytes(w, ReadWord(bytes, at, w)) == bytes[at..at + w.bytes]
  {
    if w.LittleEndian? {
      ToFromLE(bytes[at..at + w.bytes]);
    } else {
      ToFromBE(bytes[at..at + w.bytes]);
    }
  }

  lemma FirstWord(shape: seq<Width>, vs: seq<nat>, bytes: seq<u8>, at: nat)
    requires |shape| == |vs| > 0 && Fits(shape, vs) && Stands(bytes, at, WordsBytes(shape, vs))
    ensures at + shape[0].bytes <= |bytes| && ReadWord(bytes, at, shape[0]) == vs[0]
    ensures Fits(shape[1..], vs[1..]) && Stands(bytes, at + shape[0].bytes, WordsBytes(shape[1..], vs[1..]))
  {
    StandsParts(bytes, at, WordBytes(shape[0], vs[0]), WordsBytes(shape[1..], vs[1..]));
    WordRoundTrip(shape[0], vs[0], bytes, at);
  }

  lemma Cons<T>(s: seq<T>, head: T, tail: seq<T>)
    requires s != [] && s[0] == head && s[1..] == tail
    ensures s == [head] + tail
  {
  }

  /** Reading written words returns them. */
  lemma {:induction false} WordsRoundTrip(shape: seq<Width>, vs: seq<nat>, bytes: seq<u8>, at: nat)
    requires |shape| == |vs| && Fits(shape, vs) && Stands(bytes, at, WordsBytes(shape, vs))
    ensures ReadWords(bytes, at, shape) == vs
    decreases |shape|
  {
    if vs != [] {
      FirstWord(shape, vs, bytes, at);
      WordsRoundTrip(shape[1..], vs[1..], bytes, at + shape[0].bytes);
      Cons(vs, ReadWord(bytes, at, shape[0]), ReadWords(bytes, at + shape[0].bytes, shape[1..]));
    }
  }

  /** Writing the words read returns the bytes. */
  lemma {:induction false} WordsReadBack(shape: seq<Width>, bytes: seq<u8>, at: nat)
    requires at + Length(shape) <= |bytes|
    ensures Fits(shape, ReadWords(bytes, at, shape))
    ensures Stands(bytes, at, WordsBytes(shape, ReadWords(bytes, at, shape)))
    decreases |shape|
  {
    if shape != [] {
      var next := at + shape[0].bytes;
      WordReadBack(shape[0], bytes, at);
      WordsReadBack(shape[1..], bytes, next);
      var vs := ReadWords(bytes, at, shape);
      assert vs[1..] == ReadWords(bytes, next, shape[1..]);
      StandsJoin(bytes, at, WordBytes(shape[0], vs[0]), WordsBytes(shape[1..], vs[1..]));
    } else {
      assert bytes[at..at] == [];
    }
  }

  lemma {:induction false} FitsAt(shape: seq<Width>, vs: seq<nat>, k: nat)
    requires |shape| == |vs| && Fits(shape, vs) && k < |vs|
    ensures FitsWord(shape[k], vs[k])
    decreases k
  {
    if k > 0 {
      FitsAt(shape[1..], vs[1..], k - 1);
    }
  }

  lemma {:induction false} LengthConcat(a: seq<Width>, b: seq<Width>)
    ensures Length(a + b) == Length(a) + Length(b)
  {
    if a == [] {
      assert a + b == b;
    } else {
      assert (a + b)[1..] == a[1..] + b;
      LengthConcat(a[1..], b);
    }
  }

  lemma {:induction false} Pow256Add(a: nat, b: nat)
    ensures Pow256(a + b) == Pow256(a) * Pow256(b)
  {
    if a > 0 {
      Pow256Add(a - 1, b);
      MulAssoc(256, Pow256(a - 1), Pow256(b));
    }
  }

  lemma OidWidth()
    ensures Pow256(32) == OID_LIMIT
  {
    WordWidths();
    Pow256Add(8, 8);
    Pow256Add(16, 16);
  }

  /** The range of each word width in use. */
  function Range(w: Width): int {
    if w.bytes == 32 then OID_LIMIT else if w.bytes == 8 then BASE else if w.bytes == 4 then 0x1_0000_0000
    else if w.bytes == 2 then 0x1_0000 else if w.bytes == 1 then 0x100 else 0
  }

  lemma FitsRange(w: Width, v: nat)
    requires Range(w) > 0
    ensures FitsWord(w, v) <==> v < Range(w)
  {
    WordWidths();
    OidWidth();
  }

  ghost predicate InRange(shape: seq<Width>, vs: seq<nat>) {
    |shape| == |vs| && forall k :: 0 <= k < |vs| ==> 0 <= vs[k] < Range(shape[k])
  }

  lemma RangeFits(shape: seq<Width>, vs: seq<nat>)
    requires InRange(shape, vs)
    ensures Fits(shape, vs)
  {
    forall k | 0 <= k < |vs|
      ensures FitsWord(shape[k], vs[k])
    {
      FitsRange(shape[k], vs[k]);
    }
    FitsEach(shape, vs);
  }

  lemma FitsInRange(shape: seq<Width>, vs: seq<nat>)
    requires |shape| == |vs| && Fits(shape, vs)
    requires forall k :: 0 <= k < |shape| ==> Range(shape[k]) > 0
    ensures InRange(shape, vs)
  {
    forall k | 0 <= k < |vs|
      ensures vs[k] < Range(shape[k])
    {
      FitsAt(shape, vs, k);
      FitsRange(shape[k], vs[k]);
    }
  }

  // ----- the parts of a stream

  const MAGIC: nat := 0x46_47_44_42_41_52_52_31
  const VERSION: nat := 1
  const HEADER_BYTES: nat := 460
  const OBSERVATION_FIXED_BYTES: nat := 72
  const OID: Width := BigEndian(32)

  function Oids(n: nat): seq<Width> {
    seq(n, _ => OID)
  }

  lemma {:induction false} OidsLength(n: nat)
    ensures Length(Oids(n)) == 32 * n
  {
    if n > 0 {
      assert Oids(n)[1..] == Oids(n - 1);
      OidsLength(n - 1);
    }
  }

  function PreludeShape(): seq<Width> {
    [BigEndian(8), LittleEndian(2), LittleEndian(2)]
  }

  function IdentityShape(): seq<Width> {
    Oids(11) + [LittleEndian(8), LittleEndian(8), LittleEndian(8)]
  }

  function ProfileShape(): seq<Width> {
    [OID, LittleEndian(4), LittleEndian(4), LittleEndian(4), LittleEndian(1), LittleEndian(8), LittleEndian(8),
     LittleEndian(1), LittleEndian(1), LittleEndian(1), LittleEndian(1)]
  }

  function TailShape(): seq<Width> {
    [LittleEndian(3), LittleEndian(4)]
  }

  function ObservationShape(topK: nat): seq<Width> {
    [LittleEndian(8), OID, OID] + Oids(2 * topK)
  }

  lemma LengthOf3(a: Width, b: Width, c: Width)
    ensures Length([a, b, c]) == a.bytes + b.bytes + c.bytes
  {
    assert [c][1..] == [] && Length([c]) == c.bytes;
    assert [b, c][1..] == [c] && Length([b, c]) == b.bytes + Length([c]);
    assert [a, b, c][1..] == [b, c];
  }

  lemma ShapeLengths(topK: nat)
    ensures Length(PreludeShape()) == 12
    ensures Length(IdentityShape()) == 376
    ensures Length(TailShape()) == 7
    ensures Length(ObservationShape(topK)) == OBSERVATION_FIXED_BYTES + 64 * topK
  {
    OidsLength(11);
    OidsLength(2 * topK);
    LengthOf3(BigEndian(8), LittleEndian(2), LittleEndian(2));
    LengthOf3(LittleEndian(8), LittleEndian(8), LittleEndian(8));
    LengthOf3(LittleEndian(8), OID, OID);
    LengthConcat(Oids(11), [LittleEndian(8), LittleEndian(8), LittleEndian(8)]);
    LengthConcat([LittleEndian(8), OID, OID], Oids(2 * topK));
    assert TailShape()[1..] == [LittleEndian(4)] && [LittleEndian(4)][1..] == [];
  }

  lemma ProfileLength()
    ensures Length(ProfileShape()) == 65
  {
    var a, b := [OID, LittleEndian(4), LittleEndian(4)], [LittleEndian(4), LittleEndian(1), LittleEndian(8)];
    var c, d := [LittleEndian(8), LittleEndian(1), LittleEndian(1)], [LittleEndian(1), LittleEndian(1)];
    assert ProfileShape() == a + (b + (c + d));
    LengthOf3(OID, LittleEndian(4), LittleEndian(4));
    LengthOf3(LittleEndian(4), LittleEndian(1), LittleEndian(8));
    LengthOf3(LittleEndian(8), LittleEndian(1), LittleEndian(1));
    LengthConcat(a, b + (c + d));
    LengthConcat(b, c + d);
    LengthConcat(c, d);
    assert d[1..] == [LittleEndian(1)] && [LittleEndian(1)][1..] == [];
  }

  function AsOid(v: nat): Oid {
    if v < OID_LIMIT then v else 0
  }

  function AsU64(v: nat): u64 {
    if v < BASE then v else 0
  }

  function AsU8(v: nat): u8 {
    if v < 0x100 then v else 0
  }

  function IdentityWords(i: Identity): (vs: seq<nat>)
    ensures |vs| == 14
  {
    var b := i.binding;
    [b.monitor, b.profile, b.population, b.snapshot, b.authority, b.sampleKey, b.sampleDesign, b.baseline,
     b.candidatePolicy,
     i.fallbackPolicy, i.rebuildPolicy, i.window.first, i.window.last, b.epoch]
  }

  function IdentityOf(vs: seq<nat>): Identity
    requires |vs| == 14
  {
    Identity(
      Binding(AsOid(vs[0]), AsOid(vs[1]), AsOid(vs[2]), AsOid(vs[3]), AsOid(vs[4]), AsOid(vs[5]), AsOid(vs[6]),
              AsOid(vs[7]),
              AsOid(vs[8]), AsU64(vs[13])),
      AsOid(vs[9]), AsOid(vs[10]), Window(AsU64(vs[11]), AsU64(vs[12])))
  }

  lemma IdentityFits(i: Identity)
    ensures Fits(IdentityShape(), IdentityWords(i))
  {
    RangeFits(IdentityShape(), IdentityWords(i));
  }

  lemma IdentityRoundTrip(i: Identity)
    ensures IdentityOf(IdentityWords(i)) == i
  {
  }

  lemma IdentityReadBack(vs: seq<nat>)
    requires |vs| == 14 && Fits(IdentityShape(), vs)
    ensures IdentityWords(IdentityOf(vs)) == vs
  {
    FitsInRange(IdentityShape(), vs);
    var ws := IdentityWords(IdentityOf(vs));
    forall k | 0 <= k < 14
      ensures ws[k] == vs[k]
    {
      assert vs[k] < Range(IdentityShape()[k]);
    }
  }

  function DesignTag(d: SampleDesign): nat {
    match d
    case UniformWithoutReplacement => 1
    case IndependentWithReplacement => 2
    case UnspecifiedDependence => 3
  }

  function Bit(b: bool): nat {
    if b then 1 else 0
  }

  function ProfileWords(p: Profile): (vs: seq<nat>)
    ensures |vs| == 11
  {
    var a := p.assumptions;
    [p.oid, p.topK, p.maximumQueries, p.maximumResultIds, p.exponent, p.candidateThreshold, p.rebuildThreshold,
     DesignTag(a.design), Bit(a.baselineComplete), Bit(a.authorizationFixed), Bit(a.candidateFixed)]
  }

  /** A design tag from 1 to 3 and booleans spelled 0 or 1. */
  predicate Canonical(vs: seq<nat>)
    requires |vs| == 11
  {
    1 <= vs[7] <= 3 && vs[8] <= 1 && vs[9] <= 1 && vs[10] <= 1
  }

  function ProfileOf(vs: seq<nat>): Profile
    requires |vs| == 11
  {
    var design := if vs[7] == 1 then UniformWithoutReplacement else if vs[7] == 2 then IndependentWithReplacement
      else UnspecifiedDependence;
    Profile(AsOid(vs[0]), AsU64(vs[1]), AsU64(vs[2]), AsU64(vs[3]), AsU8(vs[4]), AsU64(vs[5]), AsU64(vs[6]),
            Assumptions(design, vs[8] == 1, vs[9] == 1, vs[10] == 1))
  }

  lemma ProfileFits(p: Profile)
    requires p.Valid()
    ensures Fits(ProfileShape(), ProfileWords(p))
  {
    RangeFits(ProfileShape(), ProfileWords(p));
  }

  lemma ProfileRoundTrip(p: Profile)
    ensures Canonical(ProfileWords(p)) && ProfileOf(ProfileWords(p)) == p
  {
  }

  lemma ProfileReadBack(vs: seq<nat>)
    requires |vs| == 11 && Fits(ProfileShape(), vs) && Canonical(vs)
    ensures ProfileWords(ProfileOf(vs)) == vs
  {
    var shape := ProfileShape();
    FitsInRange(shape, vs);
    assert vs[0] < Range(shape[0]) && vs[1] < Range(shape[1]) && vs[2] < Range(shape[2]) && vs[3] < Range(shape[3]);
    assert vs[4] < Range(shape[4]) && vs[5] < Range(shape[5]) && vs[6] < Range(shape[6]);
    ProfileWordsAre(vs);
  }

  lemma ProfileWordsAre(vs: seq<nat>)
    requires |vs| == 11 && Canonical(vs) && vs[0] < OID_LIMIT && vs[4] < 0x100
    requires vs[1] < BASE && vs[2] < BASE && vs[3] < BASE && vs[5] < BASE && vs[6] < BASE
    ensures ProfileWords(ProfileOf(vs)) == vs
  {
    var p := ProfileOf(vs);
    assert p.oid == vs[0] && p.topK == vs[1] && p.maximumQueries == vs[2] && p.maximumResultIds == vs[3]
           && p.exponent == vs[4];
    assert p.candidateThreshold == vs[5] && p.rebuildThreshold == vs[6] && DesignTag(p.assumptions.design) == vs[7];
  }

  function ObservationWords(o: Observation): (vs: seq<nat>) {
    [o.sequence, o.member, o.query] + o.baseline + o.candidate
  }

  function OidsOf(vs: seq<nat>): (s: seq<Oid>)
    ensures |s| == |vs|
  {
    seq(|vs|, i requires 0 <= i < |vs| => AsOid(vs[i]))
  }

  function ObservationOf(vs: seq<nat>, topK: nat, binding: Binding): Observation
    requires |vs| == 3 + 2 * topK
  {
    Observation(AsU64(vs[0]), AsOid(vs[1]), AsOid(vs[2]), binding, OidsOf(vs[3..3 + topK]), OidsOf(vs[3 + topK..]))
  }

  lemma ObservationFits(o: Observation, topK: nat)
    requires |o.baseline| == |o.candidate| == topK
    ensures |ObservationWords(o)| == 3 + 2 * topK && Fits(ObservationShape(topK), ObservationWords(o))
  {
    var shape, vs := ObservationShape(topK), ObservationWords(o);
    forall k | 0 <= k < |vs|
      ensures 0 <= vs[k] < Range(shape[k])
    {
      if 3 <= k < 3 + topK {
        assert vs[k] == o.baseline[k - 3];
      } else if 3 + topK <= k {
        assert vs[k] == o.candidate[k - 3 - topK];
      }
    }
    RangeFits(shape, vs);
  }

  lemma ObservationRoundTrip(o: Observation, topK: nat)
    requires |o.baseline| == |o.candidate| == topK
    ensures ObservationOf(ObservationWords(o), topK, o.binding) == o
  {
    var vs := ObservationWords(o);
    assert vs[3..3 + topK] == o.baseline && vs[3 + topK..] == o.candidate;
    assert OidsOf(vs[3..3 + topK]) == o.baseline && OidsOf(vs[3 + topK..]) == o.candidate;
  }

  lemma OidsSame(vs: seq<nat>)
    requires forall k :: 0 <= k < |vs| ==> vs[k] < OID_LIMIT
    ensures OidsOf(vs) == vs
  {
  }

  lemma ObservationWordsAre(vs: seq<nat>, topK: nat, binding: Binding, low: seq<nat>, high: seq<nat>)
    requires |vs| == 3 + 2 * topK && low == vs[3..3 + topK] && high == vs[3 + topK..]
    requires vs[0] < BASE && forall k :: 1 <= k < |vs| ==> vs[k] < OID_LIMIT
    ensures ObservationWords(ObservationOf(vs, topK, binding)) == vs
  {
    OidsSame(low);
    OidsSame(high);
    assert vs == [vs[0], vs[1], vs[2]] + low + high;
  }

  lemma ObservationReadBack(vs: seq<nat>, topK: nat, binding: Binding)
    requires |vs| == 3 + 2 * topK && Fits(ObservationShape(topK), vs)
    ensures ObservationWords(ObservationOf(vs, topK, binding)) == vs
  {
    var shape := ObservationShape(topK);
    FitsInRange(shape, vs);
    assert vs[0] < Range(shape[0]);
    forall k | 1 <= k < |vs|
      ensures vs[k] < OID_LIMIT
    {
      assert vs[k] < Range(shape[k]);
    }
    ObservationWordsAre(vs, topK, binding, vs[3..3 + topK], vs[3 + topK..]);
  }
}
