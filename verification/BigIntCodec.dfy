/** The canonical byte encoding of a big integer: one byte string per value. */
module BigIntCodec {
  import opened Words
  import opened Ordered
  import opened Limbs
  import opened Bytes
  import opened BigInts

  // A byte slice holds at most `isize::MAX` bytes.
  const MAX_BYTES: int := 0x7FFF_FFFF_FFFF_FFFF

  type ByteVec = b: seq<u8> | |b| <= 0x7FFF_FFFF_FFFF_FFFF witness []

  datatype Sign = Negative | Zero | Positive

  datatype ConstructionError =
    | LimbLimitExceeded(requiredLimbs: nat, limit: nat)
    | ZeroWithMagnitude(limbCount: nat)
    | NonzeroSignWithoutMagnitude(sign: Sign)
    | HighZeroLimb(sign: Sign, limbCount: nat)

  datatype DecodeError =
    | Empty
    | UnknownSignTag(tag: u8)
    | TruncatedLimbCount(availableBytes: nat)
    | DeclaredLimbsExceedLimit(declaredLimbs: nat, limit: nat)
    | MagnitudeLengthMismatch(declaredLimbs: nat, actualBytes: nat)
    | TrailingBytes(expectedLen: nat, actualLen: nat)
    | NotCanonical(error: ConstructionError)

  const TAG_ZERO: u8 := 0
  const TAG_POSITIVE: u8 := 1
  const TAG_NEGATIVE: u8 := 2

  /** Imports a sign and magnitude, accepting exactly the canonical ones within the limit. */
  function FromCanonicalLimbs(sign: Sign, limbs: LimbVec, limit: usize): (r: Result<BigInt, ConstructionError>)
    ensures r.Ok? ==> r.value.IsCanonical() && r.value.limbs == limbs
    ensures r.Ok? <==> |limbs| <= limit && Canonical(limbs) && (sign == Zero <==> limbs == [])
  {
    if |limbs| > limit then Err(LimbLimitExceeded(|limbs|, limit))
    else if sign == Zero && limbs == [] then Ok(ZERO)
    else if sign == Zero then Err(ZeroWithMagnitude(|limbs|))
    else if limbs == [] then Err(NonzeroSignWithoutMagnitude(sign))
    else if limbs[|limbs| - 1] == 0 then Err(HighZeroLimb(sign, |limbs|))
    else Ok(BigInt(sign == Negative, limbs))
  }

  function LimbBytes(limbs: seq<u64>): (b: seq<u8>)
    ensures |b| == 8 * |limbs|
  {
    if limbs == [] then [] else ToLE(limbs[0], 8) + LimbBytes(limbs[1..])
  }

  function Limb(b: seq<u8>): u64
    requires |b| == 8
  {
    ToFromLE(b);
    WordWidths();
    FromLE(b)
  }

  function BytesLimbs(b: seq<u8>): (limbs: seq<u64>)
    requires |b| % 8 == 0
    ensures 8 * |limbs| == |b|
  {
    if b == [] then [] else [Limb(b[..8])] + BytesLimbs(b[8..])
  }

  lemma {:induction false} LimbsRoundTrip(limbs: seq<u64>)
    ensures BytesLimbs(LimbBytes(limbs)) == limbs
  {
    if limbs != [] {
      LimbsRoundTrip(limbs[1..]);
      WordWidths();
      FromToLE(limbs[0], 8);
      var b := LimbBytes(limbs);
      assert b[..8] == ToLE(limbs[0], 8) && b[8..] == LimbBytes(limbs[1..]);
      assert limbs == [limbs[0]] + limbs[1..];
    }
  }

  lemma {:induction false} BytesRoundTrip(b: seq<u8>)
    requires |b| % 8 == 0
    ensures LimbBytes(BytesLimbs(b)) == b
  {
    if b != [] {
      BytesRoundTrip(b[8..]);
      ToFromLE(b[..8]);
      var limbs := BytesLimbs(b);
      assert limbs[0] == Limb(b[..8]) && limbs[1..] == BytesLimbs(b[8..]);
      assert b == b[..8] + b[8..];
    }
  }

  function Encoding(x: BigInt): seq<u8> {
    if x.limbs == [] then [TAG_ZERO]
    else [if x.negative then TAG_NEGATIVE else TAG_POSITIVE] + ToLE(|x.limbs|, 8) + LimbBytes(x.limbs)
  }

  lemma {:induction false} LimbBytesSnoc(limbs: seq<u64>, limb: u64)
    ensures LimbBytes(limbs + [limb]) == LimbBytes(limbs) + ToLE(limb, 8)
  {
    if limbs == [] {
      assert LimbBytes([limb]) == ToLE(limb, 8) + LimbBytes([]);
    } else {
      var first, rest, all := limbs[0], limbs[1..], limbs + [limb];
      LimbBytesSnoc(rest, limb);
      assert all[0] == first && all[1..] == rest + [limb];
      assert LimbBytes(all) == ToLE(first, 8) + LimbBytes(rest + [limb]);
    }
  }

  /** The limbs' bytes are the magnitude's digits in base 256, lowest first. */
  lemma {:induction false} LimbBytesAre(limbs: seq<u64>)
    ensures LimbBytes(limbs) == ToLE(Value(limbs), 8 * |limbs|)
  {
    if limbs != [] {
      var low, rest := limbs[0], limbs[1..];
      var high, width := Value(rest), 8 * |rest|;
      LimbBytesAre(rest);
      PartDrop(limbs, 1, 0, |rest|);
      WordWidths();
      LittleEndianSplit(low, high, 8, width);
      assert Value(limbs) == low + BASE * high && 8 * |limbs| == 8 + width;
    }
  }

  /**
   The encoding byte by byte: 0 alone for zero, else 1 for a positive and 2 for a negative integer, the limb
   count in eight bytes, and the absolute value, both in base 256 with the lowest digit first.
   */
  lemma EncodedBytes(x: BigInt, k: nat)
    requires x.IsCanonical()
    ensures var b, n := Encoding(x), x.ToInt();
            && (n == 0 ==> b == [0])
            && (n != 0 ==>
                  && |b| == 9 + 8 * |x.limbs| && b[0] == (if n > 0 then 1 else 2)
                  && (k < 8 ==> b[1 + k] == |x.limbs| / Pow256(k) % 256)
                  && (9 + k < |b| ==> b[9 + k] == (if n < 0 then -n else n) / Pow256(k) % 256))
  {
    NonzeroLimbs(x.limbs);
    if x.limbs != [] {
      var width := 8 * |x.limbs|;
      LimbBytesAre(x.limbs);
      var b := Encoding(x);
      assert b[1..9] == ToLE(|x.limbs|, 8) && b[9..] == ToLE(Value(x.limbs), width);
      if k < 8 {
        LittleEndianByte(|x.limbs|, 8, k);
        assert b[1 + k] == b[1..9][k];
      }
      if k < width {
        LittleEndianByte(Value(x.limbs), width, k);
        assert b[9 + k] == b[9..][k];
      }
    }
  }

  method EncodeCanonicalBytes(x: BigInt) returns (out: seq<u8>)
    ensures out == Encoding(x)
  {
    if x.limbs == [] {
      return [TAG_ZERO];
    }
    out := [if x.negative then TAG_NEGATIVE else TAG_POSITIVE] + ToLE(|x.limbs|, 8);
    out := PushLimbs(out, x.limbs);
  }

  /** Appends each limb in eight bytes, lowest first. */
  method PushLimbs(header: seq<u8>, limbs: seq<u64>) returns (out: seq<u8>)
    ensures out == header + LimbBytes(limbs)
  {
    out := header;
    for i := 0 to |limbs|
      invariant out == header + LimbBytes(limbs[..i])
    {
      TakeNext(limbs, i, i + 1);
      LimbBytesSnoc(limbs[..i], limbs[i]);
      out := out + ToLE(limbs[i], 8);
    }
    TakeAll(limbs, |limbs|);
  }

  /** The decoder's answer as a function of its input. */
  function Decoding(bytes: ByteVec, limit: usize): Result<BigInt, DecodeError> {
    if bytes == [] then Err(Empty)
    else if bytes[0] == TAG_ZERO then
      if |bytes| > 1 then Err(TrailingBytes(1, |bytes|)) else Ok(ZERO)
    else if bytes[0] != TAG_POSITIVE && bytes[0] != TAG_NEGATIVE then Err(UnknownSignTag(bytes[0]))
    else if |bytes| < 9 then Err(TruncatedLimbCount(|bytes| - 1))
    else
      var declared := FromLE(bytes[1..9]);
      if declared > limit then Err(DeclaredLimbsExceedLimit(declared, limit))
      else if |bytes| - 9 != 8 * declared then Err(MagnitudeLengthMismatch(declared, |bytes| - 9))
      else
        var sign := if bytes[0] == TAG_NEGATIVE then Negative else Positive;
        match FromCanonicalLimbs(sign, BytesLimbs(bytes[9..]), limit)
        case Ok(x) => Ok(x)
        case Err(error) => Err(NotCanonical(error))
  }

  lemma {:induction false} BytesLimbsSnoc(b: seq<u8>, chunk: seq<u8>)
    requires |b| % 8 == 0 && |chunk| == 8
    ensures BytesLimbs(b + chunk) == BytesLimbs(b) + [Limb(chunk)]
  {
    if b == [] {
      assert b + chunk == chunk && chunk[..8] == chunk;
    } else {
      BytesLimbsSnoc(b[8..], chunk);
      assert (b + chunk)[8..] == b[8..] + chunk && (b + chunk)[..8] == b[..8];
    }
  }

  method DecodeCanonicalBytes(bytes: ByteVec, limit: usize) returns (r: Result<BigInt, DecodeError>)
    ensures r == Decoding(bytes, limit)
  {
    if bytes == [] {
      return Err(Empty);
    }
    var tag, rest := bytes[0], bytes[1..];
    if tag == TAG_ZERO {
      return if rest != [] then Err(TrailingBytes(1, |bytes|)) else Ok(ZERO);
    }
    if tag != TAG_POSITIVE && tag != TAG_NEGATIVE {
      return Err(UnknownSignTag(tag));
    }
    if |rest| < 8 {
      return Err(TruncatedLimbCount(|rest|));
    }
    var declared := FromLE(rest[..8]);
    var magnitude := rest[8..];
    assert rest[..8] == bytes[1..9] && magnitude == bytes[9..];
    if declared > limit {
      return Err(DeclaredLimbsExceedLimit(declared, limit));
    }
    if |magnitude| != declared * 8 {
      return Err(MagnitudeLengthMismatch(declared, |magnitude|));
    }
    var limbs: LimbVec := [];
    for i := 0 to declared
      invariant limbs == BytesLimbs(magnitude[..8 * i])
    {
      BytesLimbsSnoc(magnitude[..8 * i], magnitude[8 * i..8 * i + 8]);
      assert magnitude[..8 * (i + 1)] == magnitude[..8 * i] + magnitude[8 * i..8 * i + 8];
      limbs := limbs + [Limb(magnitude[8 * i..8 * i + 8])];
    }
    assert magnitude[..8 * declared] == magnitude;
    var value := FromCanonicalLimbs(if tag == TAG_NEGATIVE then Negative else Positive, limbs, limit);
    return match value case Ok(x) => Ok(x) case Err(error) => Err(NotCanonical(error));
  }

  /** Decoding undoes encoding, up to the limit. */
  lemma DecodeEncoded(x: BigInt, limit: usize)
    requires x.IsCanonical() && |Encoding(x)| <= MAX_BYTES
    ensures Decoding(Encoding(x), limit)
            == if |x.limbs| <= limit then Ok(x) else Err(DeclaredLimbsExceedLimit(|x.limbs|, limit))
  {
    if x.limbs != [] {
      var bytes := Encoding(x);
      assert bytes[1..9] == ToLE(|x.limbs|, 8) && bytes[9..] == LimbBytes(x.limbs);
      WordWidths();
      FromToLE(|x.limbs|, 8);
      LimbsRoundTrip(x.limbs);
    }
  }

  lemma NineAndRest(bytes: seq<u8>)
    requires |bytes| >= 9
    ensures bytes == [bytes[0]] + bytes[1..9] + bytes[9..]
  {
  }

  /** What a successful decoding took from each part of its input. */
  lemma DecodedParts(bytes: ByteVec, limit: usize)
    requires Decoding(bytes, limit).Ok? && bytes[0] != TAG_ZERO
    ensures |bytes| >= 9 && (|bytes| - 9) % 8 == 0
    ensures var x := Decoding(bytes, limit).value;
            && x.IsCanonical() && |x.limbs| <= limit && x.limbs == BytesLimbs(bytes[9..]) && x.limbs != []
            && |x.limbs| == FromLE(bytes[1..9])
            && bytes[0] == if x.negative then TAG_NEGATIVE else TAG_POSITIVE
  {
    BytesRoundTrip(bytes[9..]);
  }

  lemma EncodedParts(x: BigInt, count: seq<u8>, magnitude: seq<u8>)
    requires x.limbs != [] && count == ToLE(|x.limbs|, 8) && magnitude == LimbBytes(x.limbs)
    ensures Encoding(x) == [if x.negative then TAG_NEGATIVE else TAG_POSITIVE] + count + magnitude
  {
  }

  /** Whatever decodes is the one encoding of its value. */
  lemma EncodeDecoded(bytes: ByteVec, limit: usize)
    requires Decoding(bytes, limit).Ok?
    ensures var x := Decoding(bytes, limit).value;
            x.IsCanonical() && |x.limbs| <= limit && Encoding(x) == bytes
  {
    if bytes[0] == TAG_ZERO {
      assert bytes == [TAG_ZERO];
    } else {
      DecodedParts(bytes, limit);
      ToFromLE(bytes[1..9]);
      BytesRoundTrip(bytes[9..]);
      EncodedParts(Decoding(bytes, limit).value, bytes[1..9], bytes[9..]);
      NineAndRest(bytes);
    }
  }
}
