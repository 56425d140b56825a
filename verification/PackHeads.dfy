/** PackStream v1 headers: scalars, and the marker and length that open a sized value. */
module PackHeads {
  import opened Words
  import opened Bytes

  type i64 = x: int | -0x8000_0000_0000_0000 <= x < 0x8000_0000_0000_0000

  datatype DecodeLimit = Values | DataBytes

  datatype DecodeError =
    | Truncated
    | UnknownMarker(marker: u8)
    | InvalidUtf8
    | NonStringKey
    | DuplicateKey
    | TooDeep
    | TrailingBytes
    | LimitExceeded(resource: DecodeLimit, limit: usize)

  datatype Kind = BytesKind | StringKind | ListKind | MapKind

  datatype Head =
    | NullHead
    | BoolHead(on: bool)
    | IntHead(n: i64)
    | FloatHead(bits: u64)
    | SizedHead(kind: Kind, len: nat)
    | StructHead(tag: u8, len: nat)
  {
    /** What a header can carry: 32-bit lengths, and fewer than sixteen fields. */
    ghost predicate Framed() {
      match this
      case SizedHead(_, len) => len < 0x1_0000_0000
      case StructHead(_, len) => len < 16
      case _ => true
    }
  }

  /** The first of a kind's three consecutive length markers. */
  function Marker(kind: Kind): (m: u8)
    ensures m + 2 <= 0xDA
  {
    match kind
    case BytesKind => 0xCC
    case StringKind => 0xD0
    case ListKind => 0xD4
    case MapKind => 0xD8
  }

  /** The marker whose low four bits carry a length below sixteen; byte arrays have none. */
  function Tiny(kind: Kind): Option<u8> {
    match kind
    case BytesKind => None
    case StringKind => Some(0x80)
    case ListKind => Some(0x90)
    case MapKind => Some(0xA0)
  }

  /** Two's complement in a word of `modulus` values. */
  function Wrap(n: int, modulus: nat): (u: nat)
    requires n < modulus && 0 <= n + modulus
    ensures u < modulus
  {
    if n < 0 then n + modulus else n
  }

  function Unwrap(u: int, modulus: int): (n: int)
    requires 0 <= u < modulus && modulus % 2 == 0
    ensures -modulus <= 2 * n < modulus
    ensures Wrap(n, modulus) == u
  {
    if u < modulus / 2 then u else u - modulus
  }

  predicate Wide(width: nat) {
    width == 1 || width == 2 || width == 4 || width == 8
  }

  function Modulus(width: nat): (m: nat)
    requires Wide(width)
    ensures m <= BASE && m % 2 == 0
  {
    if width == 1 then 0x100 else if width == 2 then 0x1_0000 else if width == 4 then 0x1_0000_0000 else BASE
  }

  function IntHeader(n: i64): seq<u8> {
    if -16 <= n < 0x80 then [Wrap(n, 0x100)]
    else if -0x80 <= n < 0x80 then [0xC8, Wrap(n, 0x100)]
    else if -0x8000 <= n < 0x8000 then [0xC9] + ToBE(Wrap(n, 0x1_0000), 2)
    else if -0x8000_0000 <= n < 0x8000_0000 then [0xCA] + ToBE(Wrap(n, 0x1_0000_0000), 4)
    else [0xCB] + ToBE(Wrap(n, BASE), 8)
  }

  /** The shortest length header; lengths past 32 bits saturate. */
  function SizedHeader(kind: Kind, len: nat): seq<u8> {
    if Tiny(kind).Some? && len < 16 then [Tiny(kind).value + len]
    else if len <= 0xFF then [Marker(kind), len]
    else if len <= 0xFFFF then [Marker(kind) + 1] + ToBE(len, 2)
    else [Marker(kind) + 2] + ToBE(Min(len, 0xFFFF_FFFF), 4)
  }

  function HeadBytes(h: Head): seq<u8> {
    match h
    case NullHead => [0xC0]
    case BoolHead(on) => [if on then 0xC3 else 0xC2]
    case IntHead(n) => IntHeader(n)
    case FloatHead(bits) => [0xC1] + ToBE(bits, 8)
    case SizedHead(kind, len) => SizedHeader(kind, len)
    case StructHead(tag, len) => [0xB0 + len % 16, tag]
  }

  /** An unsigned big-endian word at `at`. */
  function Word(bytes: seq<u8>, at: nat, width: nat): (r: Result<nat, DecodeError>)
    requires Wide(width)
    ensures r.Ok? ==> at + width <= |bytes| && r.value < Modulus(width)
  {
    if at + width > |bytes| then Err(Truncated) else
    WordWidths();
    ToFromBE(bytes[at..at + width]);
    Ok(FromBE(bytes[at..at + width]))
  }

  function IntWord(bytes: seq<u8>, at: nat, width: nat): (r: Result<(Head, nat), DecodeError>)
    requires Wide(width)
    ensures r.Ok? ==> r.value.1 == at + width <= |bytes|
  {
    var word := Word(bytes, at, width);
    if word.Err? then Err(word.error) else Ok((IntHead(Unwrap(word.value, Modulus(width))), at + width))
  }

  function SizedWord(bytes: seq<u8>, at: nat, kind: Kind, marker: u8): (r: Result<(Head, nat), DecodeError>)
    requires Marker(kind) <= marker <= Marker(kind) + 2
    ensures r.Ok? ==> at < r.value.1 <= |bytes|
  {
    var width := if marker == Marker(kind) then 1 else if marker == Marker(kind) + 1 then 2 else 4;
    var word := Word(bytes, at, width);
    if word.Err? then Err(word.error) else Ok((SizedHead(kind, word.value), at + width))
  }

  /** The header at `at` and the offset just past it. */
  function ReadHead(bytes: seq<u8>, at: nat): (r: Result<(Head, nat), DecodeError>)
    requires at <= |bytes|
    ensures r.Ok? ==> at < r.value.1 <= |bytes|
  {
    if at == |bytes| then Err(Truncated) else
    var marker := bytes[at];
    if marker <= 0x7F then Ok((IntHead(marker), at + 1))
    else if marker >= 0xF0 then Ok((IntHead(Unwrap(marker, 0x100)), at + 1))
    else if marker <= 0x8F then Ok((SizedHead(StringKind, marker - 0x80), at + 1))
    else if marker <= 0x9F then Ok((SizedHead(ListKind, marker - 0x90), at + 1))
    else if marker <= 0xAF then Ok((SizedHead(MapKind, marker - 0xA0), at + 1))
    else if marker <= 0xBF then
      if at + 2 > |bytes| then Err(Truncated) else Ok((StructHead(bytes[at + 1], marker - 0xB0), at + 2))
    else if marker == 0xC0 then Ok((NullHead, at + 1))
    else if marker == 0xC1 then
      var word := Word(bytes, at + 1, 8);
      if word.Err? then Err(word.error) else Ok((FloatHead(word.value), at + 9))
    else if marker == 0xC2 then Ok((BoolHead(false), at + 1))
    else if marker == 0xC3 then Ok((BoolHead(true), at + 1))
    else if marker == 0xC8 then IntWord(bytes, at + 1, 1)
    else if marker == 0xC9 then IntWord(bytes, at + 1, 2)
    else if marker == 0xCA then IntWord(bytes, at + 1, 4)
    else if marker == 0xCB then IntWord(bytes, at + 1, 8)
    else if 0xCC <= marker <= 0xCE then SizedWord(bytes, at + 1, BytesKind, marker)
    else if 0xD0 <= marker <= 0xD2 then SizedWord(bytes, at + 1, StringKind, marker)
    else if 0xD4 <= marker <= 0xD6 then SizedWord(bytes, at + 1, ListKind, marker)
    else if 0xD8 <= marker <= 0xDA then SizedWord(bytes, at + 1, MapKind, marker)
    else Err(UnknownMarker(marker))
  }

  lemma WordStands(bytes: seq<u8>, at: nat, marker: u8, word: nat, width: nat)
    requires Wide(width) && word < Modulus(width) && Stands(bytes, at, [marker] + ToBE(word, width))
    ensures bytes[at] == marker && Word(bytes, at + 1, width) == Ok(word)
  {
    var part := [marker] + ToBE(word, width);
    assert bytes[at] == part[0];
    assert bytes[at + 1..at + 1 + width] == bytes[at..at + |part|][1..] == part[1..] == ToBE(word, width);
    WordWidths();
    FromToBE(word, width);
  }

  // ----- every spelling the reader accepts, byte by byte

  lemma SpelledWord(bytes: seq<u8>, at: nat, v: nat, width: nat)
    requires Wide(width) && v < Modulus(width) && at + width <= |bytes| && BigEndianIs(bytes[at..at + width], v)
    ensures Word(bytes, at, width) == Ok(v)
  {
    WordWidths();
    BigEndianRead(bytes[at..at + width], v, width);
  }

  /** Markers 0xC8 to 0xCB: an integer in one, two, four or eight bytes of two's complement. */
  ghost predicate SpellsInt(bytes: seq<u8>, at: nat, n: int, width: nat) {
    && Wide(width) && at + 1 + width <= |bytes| && 0 <= 2 * n + Modulus(width) && 2 * n < Modulus(width)
    && bytes[at] == (if width == 1 then 0xC8 else if width == 2 then 0xC9 else if width == 4 then 0xCA else 0xCB)
    && BigEndianIs(bytes[at + 1..at + 1 + width], if n < 0 then n + Modulus(width) else n)
  }

  /**
   Byte arrays from 0xCC, strings from 0xD0, lists from 0xD4 and maps from 0xD8: a length in one, two or
   four bytes.
   */
  ghost predicate SpellsLength(bytes: seq<u8>, at: nat, kind: Kind, len: nat, width: nat) {
    && (width == 1 || width == 2 || width == 4) && at + 1 + width <= |bytes| && len < Modulus(width)
    && bytes[at] ==
       (match kind case BytesKind => 0xCC case StringKind => 0xD0 case ListKind => 0xD4 case MapKind => 0xD8)
       + (if width == 1 then 0 else if width == 2 then 1 else 2)
    && BigEndianIs(bytes[at + 1..at + 1 + width], len)
  }

  /** An integer is read alike in every width that holds it. */
  lemma IntRead(bytes: seq<u8>, at: nat, n: int, width: nat)
    requires SpellsInt(bytes, at, n, width)
    ensures ReadHead(bytes, at) == Ok((IntHead(n), at + 1 + width))
  {
    SpelledWord(bytes, at + 1, if n < 0 then n + Modulus(width) else n, width);
  }

  /** A length is read alike in every width that holds it. */
  lemma LengthRead(bytes: seq<u8>, at: nat, kind: Kind, len: nat, width: nat)
    requires SpellsLength(bytes, at, kind, len, width)
    ensures ReadHead(bytes, at) == Ok((SizedHead(kind, len), at + 1 + width))
  {
    SpelledWord(bytes, at + 1, len, width);
  }

  /** The markers that carry their value in themselves. */
  lemma MarkerRead(bytes: seq<u8>, at: nat)
    requires at < |bytes|
    ensures var marker: int := bytes[at];
            && (marker < 0x80 ==> ReadHead(bytes, at) == Ok((IntHead(marker), at + 1)))
            && (marker >= 0xF0 ==> ReadHead(bytes, at) == Ok((IntHead(marker - 256), at + 1)))
            && (0x80 <= marker < 0x90 ==> ReadHead(bytes, at) == Ok((SizedHead(StringKind, marker - 0x80), at + 1)))
            && (0x90 <= marker < 0xA0 ==> ReadHead(bytes, at) == Ok((SizedHead(ListKind, marker - 0x90), at + 1)))
            && (0xA0 <= marker < 0xB0 ==> ReadHead(bytes, at) == Ok((SizedHead(MapKind, marker - 0xA0), at + 1)))
            && (0xB0 <= marker < 0xC0 && at + 1 < |bytes| ==>
                  ReadHead(bytes, at) == Ok((StructHead(bytes[at + 1], marker - 0xB0), at + 2)))
            && (marker == 0xC0 ==> ReadHead(bytes, at) == Ok((NullHead, at + 1)))
            && (marker == 0xC2 ==> ReadHead(bytes, at) == Ok((BoolHead(false), at + 1)))
            && (marker == 0xC3 ==> ReadHead(bytes, at) == Ok((BoolHead(true), at + 1)))
  {
  }

  lemma FloatRead(bytes: seq<u8>, at: nat, bits: u64)
    requires at + 9 <= |bytes| && bytes[at] == 0xC1 && BigEndianIs(bytes[at + 1..at + 9], bits)
    ensures ReadHead(bytes, at) == Ok((FloatHead(bits), at + 9))
  {
    SpelledWord(bytes, at + 1, bits, 8);
  }

  /** Reading a printed header returns it. */
  lemma HeadRoundTrip(h: Head, bytes: seq<u8>, at: nat)
    requires h.Framed() && Stands(bytes, at, HeadBytes(h))
    ensures ReadHead(bytes, at) == Ok((h, at + |HeadBytes(h)|))
  {
    match h
    case IntHead(n) => IntRoundTrip(n, bytes, at);
    case SizedHead(kind, len) => SizedRoundTrip(kind, len, bytes, at);
    case FloatHead(bits) => WordStands(bytes, at, 0xC1, bits, 8);
    case StructHead(_, _) => assert bytes[at] == HeadBytes(h)[0] && bytes[at + 1] == HeadBytes(h)[1];
    case _ => assert bytes[at] == HeadBytes(h)[0];
  }

  lemma IntRoundTrip(n: i64, bytes: seq<u8>, at: nat)
    requires Stands(bytes, at, IntHeader(n))
    ensures ReadHead(bytes, at) == Ok((IntHead(n), at + |IntHeader(n)|))
  {
    if -16 <= n < 0x80 {
      assert bytes[at] == IntHeader(n)[0];
    } else if -0x80 <= n < 0x80 {
      assert ToBE(Wrap(n, 0x100), 1) == [Wrap(n, 0x100)];
      WordStands(bytes, at, 0xC8, Wrap(n, 0x100), 1);
    } else if -0x8000 <= n < 0x8000 {
      WordStands(bytes, at, 0xC9, Wrap(n, 0x1_0000), 2);
    } else if -0x8000_0000 <= n < 0x8000_0000 {
      WordStands(bytes, at, 0xCA, Wrap(n, 0x1_0000_0000), 4);
    } else {
      WordStands(bytes, at, 0xCB, Wrap(n, BASE), 8);
    }
  }

  lemma SizedRoundTrip(kind: Kind, len: nat, bytes: seq<u8>, at: nat)
    requires len < 0x1_0000_0000 && Stands(bytes, at, SizedHeader(kind, len))
    ensures ReadHead(bytes, at) == Ok((SizedHead(kind, len), at + |SizedHeader(kind, len)|))
  {
    if Tiny(kind).Some? && len < 16 {
      assert bytes[at] == SizedHeader(kind, len)[0];
    } else if len <= 0xFF {
      assert ToBE(len, 1) == [len];
      WordStands(bytes, at, Marker(kind), len, 1);
    } else if len <= 0xFFFF {
      WordStands(bytes, at, Marker(kind) + 1, len, 2);
    } else {
      WordStands(bytes, at, Marker(kind) + 2, len, 4);
    }
  }

  lemma WordIs(bytes: seq<u8>, at: nat, width: nat)
    requires Wide(width) && at + 1 + width <= |bytes|
    ensures bytes[at..at + 1 + width] == [bytes[at]] + ToBE(Word(bytes, at + 1, width).value, width)
  {
    ToFromBE(bytes[at + 1..at + 1 + width]);
    assert bytes[at..at + 1 + width] == [bytes[at]] + bytes[at + 1..at + 1 + width];
  }

  /** No accepted header is shorter than the printed one, and the shortest is the printed one. */
  ghost predicate Shortest(bytes: seq<u8>, at: nat, h: Head, next: nat)
    requires at <= next <= |bytes|
  {
    && h.Framed()
    && |HeadBytes(h)| <= next - at
    && (next - at == |HeadBytes(h)| <==> bytes[at..next] == HeadBytes(h))
  }

  lemma IntShortest(bytes: seq<u8>, at: nat, width: nat)
    requires Wide(width) && at + 1 + width <= |bytes|
    requires bytes[at] == if width == 1 then 0xC8 else if width == 2 then 0xC9 else if width == 4 then 0xCA else 0xCB
    ensures Shortest(bytes, at, IntWord(bytes, at + 1, width).value.0, at + 1 + width)
  {
    WordIs(bytes, at, width);
    var word := Word(bytes, at + 1, width).value;
    assert width == 1 ==> ToBE(word, 1) == [word];
  }

  lemma SizedShortest(bytes: seq<u8>, at: nat, kind: Kind)
    requires at < |bytes| && Marker(kind) <= bytes[at] <= Marker(kind) + 2
    requires SizedWord(bytes, at + 1, kind, bytes[at]).Ok?
    ensures var r := SizedWord(bytes, at + 1, kind, bytes[at]).value; Shortest(bytes, at, r.0, r.1)
  {
    var r := SizedWord(bytes, at + 1, kind, bytes[at]).value;
    var width := r.1 - at - 1;
    WordIs(bytes, at, width);
    assert width == 1 ==> ToBE(r.0.len, 1) == [r.0.len];
  }

  /** A small integer, or a tiny string, list or map. */
  lemma TinyShortest(bytes: seq<u8>, at: nat)
    requires at < |bytes| && (bytes[at] <= 0xAF || bytes[at] >= 0xF0)
    ensures ReadHead(bytes, at).Ok?
    ensures var r := ReadHead(bytes, at).value; Shortest(bytes, at, r.0, r.1)
  {
    assert bytes[at..at + 1] == [bytes[at]];
  }

  /** A structure, null, boolean or float. */
  lemma FixedShortest(bytes: seq<u8>, at: nat)
    requires at < |bytes| && 0xB0 <= bytes[at] <= 0xC3 && ReadHead(bytes, at).Ok?
    ensures var r := ReadHead(bytes, at).value; Shortest(bytes, at, r.0, r.1)
  {
    var marker := bytes[at];
    if marker <= 0xBF {
      assert bytes[at..at + 2] == [marker, bytes[at + 1]];
    } else if marker == 0xC1 {
      WordIs(bytes, at, 8);
    } else {
      assert bytes[at..at + 1] == [marker];
    }
  }

  lemma HeadShortest(bytes: seq<u8>, at: nat)
    requires at <= |bytes| && ReadHead(bytes, at).Ok?
    ensures var r := ReadHead(bytes, at).value; Shortest(bytes, at, r.0, r.1)
  {
    var marker := bytes[at];
    if marker <= 0xAF || marker >= 0xF0 {
      TinyShortest(bytes, at);
    } else if marker <= 0xC3 {
      FixedShortest(bytes, at);
    } else if marker <= 0xCB {
      var width := if marker == 0xC8 then 1 else if marker == 0xC9 then 2 else if marker == 0xCA then 4 else 8;
      IntShortest(bytes, at, width);
    } else {
      SizedShortest(bytes, at, ReadHead(bytes, at).value.0.kind);
    }
  }
}
