/** The imperative PackStream encoder and decoder, proved against the printed and accepted forms. */
module PackCodec {
  import opened Words
  import opened Bytes
  import opened PackHeads
  import opened PackStream
  import opened Unicode

  method EncodeInt(value: i64, out: Buffer)
    modifies out
    ensures out.data == old(out.data) + IntHeader(value)
  {
    if -16 <= value < 0x80 {
      out.Push(Wrap(value, 0x100));
    } else if -0x80 <= value < 0x80 {
      out.Push(0xC8);
      out.Push(Wrap(value, 0x100));
    } else if -0x8000 <= value < 0x8000 {
      out.Push(0xC9);
      out.Extend(ToBE(Wrap(value, 0x1_0000), 2));
    } else if -0x8000_0000 <= value < 0x8000_0000 {
      out.Push(0xCA);
      out.Extend(ToBE(Wrap(value, 0x1_0000_0000), 4));
    } else {
      out.Push(0xCB);
      out.Extend(ToBE(Wrap(value, BASE), 8));
    }
  }

  method EncodeSized(out: Buffer, len: nat, kind: Kind)
    modifies out
    ensures out.data == old(out.data) + SizedHeader(kind, len)
  {
    if Tiny(kind).Some? && len < 16 {
      out.Push(Tiny(kind).value + len);
    } else if len <= 0xFF {
      out.Push(Marker(kind));
      out.Push(len);
    } else if len <= 0xFFFF {
      out.Push(Marker(kind) + 1);
      out.Extend(ToBE(len, 2));
    } else {
      out.Push(Marker(kind) + 2);
      out.Extend(ToBE(Min(len, 0xFFFF_FFFF), 4));
    }
  }

  lemma Regroup(data: seq<u8>, part: seq<u8>, rest: seq<u8>)
    ensures data + (part + rest) == (data + part) + rest
  {
  }

  /** Appends the printed form of `value`. */
  method Encode(value: Value, out: Buffer)
    modifies out
    ensures out.data == old(out.data) + Enc(value)
    decreases value, 1
  {
    EncodeHead(value, out);
    EncodeBody(value, out);
    Regroup(old(out.data), HeadBytes(HeadOf(value)), EncBody(value));
  }

  method EncodeBody(value: Value, out: Buffer)
    modifies out
    ensures out.data == old(out.data) + EncBody(value)
    decreases value, 0
  {
    match value
    case ByteArray(data) => out.Extend(data);
    case String(text) => out.Extend(text);
    case List(items) => EncodeAll(items, out);
    case Map(entries) => EncodeEntries(entries, out);
    case Structure(_, fields) => EncodeAll(fields, out);
    case _ =>
  }

  method EncodeHead(value: Value, out: Buffer)
    modifies out
    ensures out.data == old(out.data) + HeadBytes(HeadOf(value))
  {
    match value
    case Null => out.Push(0xC0);
    case Bool(on) => out.Push(if on then 0xC3 else 0xC2);
    case Int(n) => EncodeInt(n, out);
    case Float(bits) =>
      out.Push(0xC1);
      out.Extend(ToBE(bits, 8));
    case ByteArray(data) => EncodeSized(out, |data|, BytesKind);
    case String(text) => EncodeSized(out, |text|, StringKind);
    case List(items) => EncodeSized(out, |items|, ListKind);
    case Map(entries) => EncodeSized(out, |entries|, MapKind);
    case Structure(tag, fields) =>
      out.Push(0xB0 + |fields| % 16);
      out.Push(tag);
  }

  lemma EncAllStep(items: seq<Value>, i: nat)
    requires i < |items|
    ensures EncAll(items[i..]) == Enc(items[i]) + EncAll(items[i + 1..])
  {
    assert items[i..][1..] == items[i + 1..];
  }

  lemma EncEntriesStep(entries: seq<Entry>, i: nat)
    requires i < |entries|
    ensures EncEntries(entries[i..]) == (EncText(entries[i].key) + Enc(entries[i].value)) + EncEntries(entries[i + 1..])
  {
    assert entries[i..][1..] == entries[i + 1..];
  }

  method EncodeAll(items: seq<Value>, out: Buffer)
    modifies out
    ensures out.data == old(out.data) + EncAll(items)
    decreases items, 0
  {
    for i := 0 to |items|
      invariant out.data + EncAll(items[i..]) == old(out.data) + EncAll(items)
    {
      EncAllStep(items, i);
      Regroup(out.data, Enc(items[i]), EncAll(items[i + 1..]));
      Encode(items[i], out);
    }
    assert items[|items|..] == [];
  }

  method EncodeText(text: seq<u8>, out: Buffer)
    modifies out
    ensures out.data == old(out.data) + EncText(text)
  {
    EncodeSized(out, |text|, StringKind);
    out.Extend(text);
    Regroup(old(out.data), SizedHeader(StringKind, |text|), text);
  }

  method EncodeEntry(entry: Entry, out: Buffer)
    modifies out
    ensures out.data == old(out.data) + (EncText(entry.key) + Enc(entry.value))
    decreases entry, 0
  {
    Regroup(out.data, EncText(entry.key), Enc(entry.value));
    EncodeText(entry.key, out);
    Encode(entry.value, out);
  }

  method EncodeEntries(entries: seq<Entry>, out: Buffer)
    modifies out
    ensures out.data == old(out.data) + EncEntries(entries)
    decreases entries, 0
  {
    for i := 0 to |entries|
      invariant out.data + EncEntries(entries[i..]) == old(out.data) + EncEntries(entries)
    {
      EncEntriesStep(entries, i);
      Regroup(out.data, EncText(entries[i].key) + Enc(entries[i].value), EncEntries(entries[i + 1..]));
      EncodeEntry(entries[i], out);
    }
    assert entries[|entries|..] == [];
  }

  /** What a reader method answers, against the parse it follows. */
  ghost predicate Follows<T(!new)>(r: Result<T, DecodeError>, now: State, parse: Parse<T>) {
    match parse
    case Err(error) => r == Err(error)
    case Ok(parsed) => r == Ok(parsed.part) && now == parsed.next
  }

  ghost predicate EndsWith(bytes: seq<u8>, at: nat, text: seq<u8>) {
    |text| <= at <= |bytes| && bytes[at - |text|..at] == text
  }

  lemma BodySpan(bytes: seq<u8>, limits: Limits, s: State, depth: nat, head: Head)
    requires s.at <= |bytes| && ParseBody(bytes, limits, s, depth, head).Ok?
    requires ParseBody(bytes, limits, s, depth, head).value.part.String?
    ensures var p := ParseBody(bytes, limits, s, depth, head).value; EndsWith(bytes, p.next.at, p.part.text)
  {
    assert head.SizedHead? && head.kind == StringKind;
  }

  /** A string's bytes end where the reader stands after it. */
  lemma StringSpan(bytes: seq<u8>, limits: Limits, s: State, depth: nat)
    requires s.at <= |bytes|
    requires ParseValue(bytes, limits, s, depth).Ok? && ParseValue(bytes, limits, s, depth).value.part.String?
    ensures var p := ParseValue(bytes, limits, s, depth).value; EndsWith(bytes, p.next.at, p.part.text)
  {
    var head, at, excess := HeadedSound(bytes, limits, s, depth);
    BodySpan(bytes, limits, s.(at := at), depth, head);
  }

  class Reader {
    const bytes: seq<u8>
    const limits: Limits
    var at: nat
    var remainingValues: nat
    var remainingData: nat

    constructor (bytes: seq<u8>, limits: Limits)
      ensures this.bytes == bytes && this.limits == limits
      ensures Here() == State(0, limits.maxValues, limits.maxData)
    {
      this.bytes := bytes;
      this.limits := limits;
      at := 0;
      remainingValues := limits.maxValues;
      remainingData := limits.maxData;
    }

    ghost function Here(): State
      reads this
    {
      State(at, remainingValues, remainingData)
    }

    method ReserveValues(count: nat) returns (r: Result<(), DecodeError>)
      modifies this
      ensures var s := PackStream.ReserveValues(limits, old(Here()), count);
              if s.Ok? then r.Ok? && Here() == s.value else r == Err(s.error)
    {
      if count > remainingValues {
        return Err(LimitExceeded(Values, limits.maxValues));
      }
      remainingValues := remainingValues - count;
      r := Ok(());
    }

    method ReserveData(count: nat) returns (r: Result<(), DecodeError>)
      modifies this
      ensures r == if count <= old(remainingData) then Ok(()) else Err(LimitExceeded(DataBytes, limits.maxData))
      ensures r.Ok? ==> Here() == old(Here()).(data := old(remainingData) - count)
    {
      if count > remainingData {
        return Err(LimitExceeded(DataBytes, limits.maxData));
      }
      remainingData := remainingData - count;
      r := Ok(());
    }

    method Take(len: nat) returns (r: Result<seq<u8>, DecodeError>)
      requires at <= |bytes|
      modifies this
      ensures if old(at) + len <= |bytes|
              then r == Ok(bytes[old(at)..old(at) + len]) && Here() == old(Here()).(at := old(at) + len)
              else r == Err(Truncated)
    {
      var end := at + len;
      if end > |bytes| {
        return Err(Truncated);
      }
      r := Ok(bytes[at..end]);
      at := end;
    }

    method Byte() returns (r: Result<u8, DecodeError>)
      requires at <= |bytes|
      modifies this
      ensures if old(at) < |bytes|
              then r == Ok(bytes[old(at)]) && Here() == old(Here()).(at := old(at) + 1)
              else r == Err(Truncated)
    {
      var raw := Take(1);
      if raw.Err? {
        return Err(raw.error);
      }
      r := Ok(raw.value[0]);
    }

    /** Folds `width` big-endian bytes into a length. */
    method Length(width: nat) returns (r: Result<nat, DecodeError>)
      requires at <= |bytes| && Wide(width)
      modifies this
      ensures r == Word(bytes, old(at), width)
      ensures r.Ok? ==> Here() == old(Here()).(at := old(at) + width)
    {
      var taken := Take(width);
      if taken.Err? {
        return Err(taken.error);
      }
      var raw := taken.value;
      var acc: nat := 0;
      for i := 0 to |raw|
        invariant acc == FromBE(raw[..i])
      {
        assert raw[..i + 1][..i] == raw[..i];
        var byte: nat := raw[i];
        acc := acc * 256 + byte;
      }
      assert raw[..|raw|] == raw;
      r := Ok(acc);
    }

    method Raw(len: nat) returns (r: Result<seq<u8>, DecodeError>)
      requires at <= |bytes|
      modifies this
      ensures Follows(r, Here(), ParseRaw(bytes, limits, old(Here()), len))
    {
      r := Take(len);
      if r.Ok? {
        var reserved := ReserveData(len);
        if reserved.Err? {
          return Err(reserved.error);
        }
      }
    }

    method Text(len: nat) returns (r: Result<seq<u8>, DecodeError>)
      requires at <= |bytes|
      modifies this
      ensures Follows(r, Here(), ParseText(bytes, limits, old(Here()), len))
    {
      r := Take(len);
      if r.Err? {
        return;
      }
      if !Utf8(r.value) {
        return Err(InvalidUtf8);
      }
      var reserved := ReserveData(len);
      if reserved.Err? {
        return Err(reserved.error);
      }
    }

    /** The marker and whatever length or scalar follows it. */
    method Header() returns (r: Result<Head, DecodeError>)
      requires at <= |bytes|
      modifies this
      ensures var read := ReadHead(bytes, old(at));
              if read.Ok? then r == Ok(read.value.0)
                && Here() == old(Here()).(at := read.value.1) else r == Err(read.error)
    {
      var first := Byte();
      if first.Err? {
        return Err(first.error);
      }
      var marker := first.value;
      if marker <= 0x7F || marker >= 0xF0 {
        r := Ok(IntHead(if marker <= 0x7F then marker else Unwrap(marker, 0x100)));
      } else if marker <= 0xBF {
        r := TinyHeader(marker);
      } else if marker == 0xC0 {
        r := Ok(NullHead);
      } else if marker == 0xC2 || marker == 0xC3 {
        r := Ok(BoolHead(marker == 0xC3));
      } else if marker == 0xC1 || 0xC8 <= marker <= 0xCB {
        r := WordHeader(marker);
      } else if 0xCC <= marker <= 0xDA && marker % 4 != 3 {
        r := LengthHeader(marker);
      } else {
        r := Err(UnknownMarker(marker));
      }
    }

    method TinyHeader(marker: u8) returns (r: Result<Head, DecodeError>)
      requires 1 <= at <= |bytes| && bytes[at - 1] == marker && 0x80 <= marker <= 0xBF
      modifies this
      ensures var read := ReadHead(bytes, old(at) - 1);
              if read.Ok? then r == Ok(read.value.0)
                && Here() == old(Here()).(at := read.value.1) else r == Err(read.error)
    {
      var low := marker % 16;
      if marker <= 0x8F {
        r := Ok(SizedHead(StringKind, low));
      } else if marker <= 0x9F {
        r := Ok(SizedHead(ListKind, low));
      } else if marker <= 0xAF {
        r := Ok(SizedHead(MapKind, low));
      } else {
        var tag := Byte();
        if tag.Err? {
          return Err(tag.error);
        }
        r := Ok(StructHead(tag.value, low));
      }
    }

    method WordHeader(marker: u8) returns (r: Result<Head, DecodeError>)
      requires 1 <= at <= |bytes| && bytes[at - 1] == marker && (marker == 0xC1 || 0xC8 <= marker <= 0xCB)
      modifies this
      ensures var read := ReadHead(bytes, old(at) - 1);
              if read.Ok? then r == Ok(read.value.0)
                && Here() == old(Here()).(at := read.value.1) else r == Err(read.error)
    {
      var width := if marker == 0xC8 then 1 else if marker == 0xC9 then 2 else if marker == 0xCA then 4 else 8;
      var word := Length(width);
      if word.Err? {
        return Err(word.error);
      }
      r := Ok(if marker == 0xC1 then FloatHead(word.value) else IntHead(Unwrap(word.value, Modulus(width))));
    }

    method LengthHeader(marker: u8) returns (r: Result<Head, DecodeError>)
      requires 1 <= at <= |bytes| && bytes[at - 1] == marker && 0xCC <= marker <= 0xDA && marker % 4 != 3
      modifies this
      ensures var read := ReadHead(bytes, old(at) - 1);
              if read.Ok? then r == Ok(read.value.0)
                && Here() == old(Here()).(at := read.value.1) else r == Err(read.error)
    {
      var kind := if marker <= 0xCE then BytesKind else if marker <= 0xD2 then StringKind else if marker <= 0xD6
        then ListKind else MapKind;
      var step := marker - Marker(kind);
      var len := Length(if step == 0 then 1 else if step == 1 then 2 else 4);
      if len.Err? {
        return Err(len.error);
      }
      r := Ok(SizedHead(kind, len.value));
    }

    method Value(depth: nat) returns (r: Result<Value, DecodeError>)
      requires at <= |bytes|
      modifies this
      ensures Follows(r, Here(), ParseValue(bytes, limits, old(Here()), depth))
      decreases |bytes| - at, 0, 0
    {
      if depth > MAX_DEPTH {
        return Err(TooDeep);
      }
      ghost var start := Here();
      var header := Header();
      assert ParseValue(bytes, limits, start, depth) == ParseHeaded(bytes, limits, start, depth);
      if header.Err? {
        return Err(header.error);
      }
      r := Body(header.value, depth);
    }

    method Body(head: Head, depth: nat) returns (r: Result<Value, DecodeError>)
      requires at <= |bytes|
      modifies this
      ensures Follows(r, Here(), ParseBody(bytes, limits, old(Here()), depth, head))
      decreases |bytes| - at, 2
    {
      match head
      case NullHead => r := Ok(Null);
      case BoolHead(on) => r := Ok(Bool(on));
      case IntHead(n) => r := Ok(Int(n));
      case FloatHead(bits) => r := Ok(Float(bits));
      case SizedHead(BytesKind, len) =>
        var data := Raw(len);
        r := if data.Ok? then Ok(ByteArray(data.value)) else Err(data.error);
      case SizedHead(StringKind, len) =>
        var text := Text(len);
        r := if text.Ok? then Ok(String(text.value)) else Err(text.error);
      case SizedHead(ListKind, len) =>
        var items := Items(len, depth);
        r := if items.Ok? then Ok(List(items.value)) else Err(items.error);
      case SizedHead(MapKind, len) =>
        var entries := Entries(len, depth);
        r := if entries.Ok? then Ok(Map(entries.value)) else Err(entries.error);
      case StructHead(tag, len) =>
        var fields := Items(len, depth);
        r := if fields.Ok? then Ok(Structure(tag, fields.value)) else Err(fields.error);
    }

    method Items(len: nat, depth: nat) returns (r: Result<seq<Value>, DecodeError>)
      requires at <= |bytes|
      modifies this
      ensures Follows(r, Here(), ParseItems(bytes, limits, old(Here()), depth, len))
      decreases |bytes| - at, 1
    {
      if len > |bytes| - at {
        return Err(Truncated);
      }
      var reserved := ReserveValues(len);
      if reserved.Err? {
        return Err(reserved.error);
      }
      ghost var start := Here();
      ghost var waste: nat := 0;
      var items := [];
      JoinedNone(ParseAll(bytes, limits, start, depth + 1, len));
      for i := 0 to len
        invariant old(at) <= at <= |bytes|
        invariant ParseAll(bytes, limits, start, depth + 1, len)
               == Joined(items, waste, ParseAll(bytes, limits, Here(), depth + 1, len - i))
      {
        ghost var here := Here();
        var item := Value(depth + 1);
        if item.Err? {
          return Err(item.error);
        }
        ghost var parsed := ParseValue(bytes, limits, here, depth + 1).value;
        JoinedTwice(items, waste, [item.value], parsed.waste, ParseAll(bytes, limits, Here(), depth + 1, len - i - 1));
        items, waste := items + [item.value], waste + parsed.waste;
      }
      assert items + [] == items;
      r := Ok(items);
    }

    method Entries(len: nat, depth: nat) returns (r: Result<seq<Entry>, DecodeError>)
      requires at <= |bytes|
      modifies this
      ensures Follows(r, Here(), ParseMap(bytes, limits, old(Here()), depth, len))
      decreases |bytes| - at, 1
    {
      if len > (|bytes| - at) / 2 {
        return Err(Truncated);
      }
      var reserved := ReserveValues(len * 2);
      if reserved.Err? {
        return Err(reserved.error);
      }
      ghost var start := Here();
      ghost var waste: nat := 0;
      var entries := [];
      JoinedNone(ParseEntries(bytes, limits, start, depth + 1, len, {}));
      var names := {};
      for i := 0 to len
        invariant old(at) <= at <= |bytes|
        invariant ParseEntries(bytes, limits, start, depth + 1, len, {})
               == Joined(entries, waste, ParseEntries(bytes, limits, Here(), depth + 1, len - i, names))
      {
        ghost var here := Here();
        var entry := NextEntry(names, depth);
        if entry.Err? {
          return Err(entry.error);
        }
        ghost var parsed := ParseEntry(bytes, limits, here, depth + 1, names).value;
        names := names + {entry.value.key};
        JoinedTwice(entries, waste, [entry.value], parsed.waste,
                    ParseEntries(bytes, limits, Here(), depth + 1, len - i - 1, names));
        entries, waste := entries + [entry.value], waste + parsed.waste;
      }
      assert entries + [] == entries;
      r := Ok(entries);
    }

    /** One key and value; the key is compared through the input span it came from. */
    method NextEntry(names: set<seq<u8>>, depth: nat) returns (r: Result<Entry, DecodeError>)
      requires at <= |bytes|
      modifies this
      ensures Follows(r, Here(), ParseEntry(bytes, limits, old(Here()), depth + 1, names))
      decreases |bytes| - at, 0, 1
    {
      ghost var start := Here();
      var key := Value(depth + 1);
      if key.Err? {
        return Err(key.error);
      }
      if !key.value.String? {
        return Err(NonStringKey);
      }
      StringSpan(bytes, limits, start, depth + 1);
      var span := bytes[at - |key.value.text|..at];
      if span in names {
        return Err(DuplicateKey);
      }
      var value := Value(depth + 1);
      if value.Err? {
        return Err(value.error);
      }
      r := Ok(Entry(key.value.text, value.value));
    }
  }

  lemma JoinedNone<T(!new)>(p: Parse<seq<T>>)
    ensures Joined([], 0, p) == p
  {
    if p.Ok? {
      assert [] + p.value.part == p.value.part;
    }
  }

  lemma JoinedTwice<T(!new)>(a: seq<T>, wasteA: nat, b: seq<T>, wasteB: nat, rest: Parse<seq<T>>)
    ensures Joined(a, wasteA, Joined(b, wasteB, rest)) == Joined(a + b, wasteA + wasteB, rest)
  {
    if rest.Ok? {
      assert a + (b + rest.value.part) == a + b + rest.value.part;
    }
  }

  /** Decodes exactly one value within whole-value limits. */
  method DecodeWithLimits(bytes: seq<u8>, limits: Limits) returns (r: Result<Value, DecodeError>)
    ensures match Decode(bytes, limits)
            case Ok((value, _)) => r == Ok(value)
            case Err(error) => r == Err(error)
    ensures r.Ok? ==> Encodable(r.value) && FitsLimits(r.value, limits)
    ensures r.Ok? && r.value.String? ==> Spelled(r.value.text)
  {
    if Decode(bytes, limits).Ok? {
      EncodingIsShortest(bytes, limits);
      if Decode(bytes, limits).value.0.String? {
        AcceptedText(bytes, limits);
      }
    }
    var reader := new Reader(bytes, limits);
    var reserved := reader.ReserveValues(1);
    if reserved.Err? {
      return Err(reserved.error);
    }
    r := reader.Value(0);
    if r.Ok? && reader.at != |bytes| {
      return Err(TrailingBytes);
    }
  }

  const DEFAULT_LIMITS: Limits := Limits(100_000, 8 * 1024 * 1024)

  /** A value that fits the default limits survives a trip through the encoder and the decoder. */
  method RoundTrip(value: Value) returns (r: Result<Value, DecodeError>)
    requires Encodable(value)
    ensures if FitsLimits(value, DEFAULT_LIMITS) then r == Ok(value) else r.Err? && Refuses(r.error)
  {
    var out := new Buffer();
    Encode(value, out);
    DecodeEncoded(value, DEFAULT_LIMITS);
    assert out.data == Enc(value);
    r := DecodeWithLimits(out.data, DEFAULT_LIMITS);
  }
}
