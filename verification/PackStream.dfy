/** PackStream v1 values: the printed form, the accepted form, and what relates them. */
module PackStream {
  import opened Words
  import opened Bytes
  import opened PackHeads
  import opened Unicode

  const MAX_DEPTH: nat := 64

  datatype Entry = Entry(key: seq<u8>, value: Value)

  /** Strings are their UTF-8 bytes and floats their 64 bits. */
  datatype Value =
    | Null
    | Bool(on: bool)
    | Int(n: i64)
    | Float(bits: u64)
    | ByteArray(data: seq<u8>)
    | String(text: seq<u8>)
    | List(items: seq<Value>)
    | Map(entries: seq<Entry>)
    | Structure(tag: u8, fields: seq<Value>)

  // ----- the printed form

  function HeadOf(v: Value): Head {
    match v
    case Null => NullHead
    case Bool(on) => BoolHead(on)
    case Int(n) => IntHead(n)
    case Float(bits) => FloatHead(bits)
    case ByteArray(data) => SizedHead(BytesKind, |data|)
    case String(text) => SizedHead(StringKind, |text|)
    case List(items) => SizedHead(ListKind, |items|)
    case Map(entries) => SizedHead(MapKind, |entries|)
    case Structure(tag, fields) => StructHead(tag, |fields|)
  }

  function Enc(v: Value): (b: seq<u8>)
    ensures |b| > 0
    decreases v, 1
  {
    HeadBytes(HeadOf(v)) + EncBody(v)
  }

  function EncBody(v: Value): seq<u8>
    decreases v, 0
  {
    match v
    case ByteArray(data) => data
    case String(text) => text
    case List(items) => EncAll(items)
    case Map(entries) => EncEntries(entries)
    case Structure(_, fields) => EncAll(fields)
    case _ => []
  }

  function EncText(text: seq<u8>): (b: seq<u8>)
    ensures |b| > 0
  {
    SizedHeader(StringKind, |text|) + text
  }

  function EncAll(vs: seq<Value>): (b: seq<u8>)
    ensures |b| >= |vs|
  {
    if vs == [] then [] else Enc(vs[0]) + EncAll(vs[1..])
  }

  function EncEntries(es: seq<Entry>): (b: seq<u8>)
    ensures |b| >= 2 * |es|
  {
    if es == [] then [] else (EncText(es[0].key) + Enc(es[0].value)) + EncEntries(es[1..])
  }

  // ----- what a value costs the decoder

  /** Slots reserved for everything inside `v`; its own slot is its container's. */
  function Slots(v: Value): nat {
    match v
    case List(items) => |items| + SlotsAll(items)
    case Map(entries) => 2 * |entries| + SlotsEntries(entries)
    case Structure(_, fields) => |fields| + SlotsAll(fields)
    case _ => 0
  }

  function SlotsAll(vs: seq<Value>): nat {
    if vs == [] then 0 else Slots(vs[0]) + SlotsAll(vs[1..])
  }

  function SlotsEntries(es: seq<Entry>): nat {
    if es == [] then 0 else Slots(es[0].value) + SlotsEntries(es[1..])
  }

  /** String, key and byte-array bytes copied out of the input. */
  function Payload(v: Value): nat {
    match v
    case ByteArray(data) => |data|
    case String(text) => |text|
    case List(items) => PayloadAll(items)
    case Map(entries) => PayloadEntries(entries)
    case Structure(_, fields) => PayloadAll(fields)
    case _ => 0
  }

  function PayloadAll(vs: seq<Value>): nat {
    if vs == [] then 0 else Payload(vs[0]) + PayloadAll(vs[1..])
  }

  function PayloadEntries(es: seq<Entry>): nat {
    if es == [] then 0 else |es[0].key| + Payload(es[0].value) + PayloadEntries(es[1..])
  }

  /** `v`, standing at `depth`, nests no deeper than the cap. */
  predicate Within(v: Value, depth: nat) {
    && depth <= MAX_DEPTH
    && match v
       case List(items) => WithinAll(items, depth + 1)
       case Map(entries) => WithinEntries(entries, depth + 1)
       case Structure(_, fields) => WithinAll(fields, depth + 1)
       case _ => true
  }

  predicate WithinAll(vs: seq<Value>, depth: nat) {
    vs == [] || (Within(vs[0], depth) && WithinAll(vs[1..], depth))
  }

  predicate WithinEntries(es: seq<Entry>, depth: nat) {
    es == [] || (Within(es[0].value, depth) && WithinEntries(es[1..], depth))
  }

  /** Lengths that fit their headers, well-formed text, and keys that appear once. */
  ghost predicate Encodable(v: Value) {
    && HeadOf(v).Framed()
    && match v
       case String(text) => Utf8(text)
       case List(items) => EncodableAll(items)
       case Map(entries) => EncodableEntries(entries, {})
       case Structure(_, fields) => EncodableAll(fields)
       case _ => true
  }

  ghost predicate EncodableAll(vs: seq<Value>) {
    vs == [] || (Encodable(vs[0]) && EncodableAll(vs[1..]))
  }

  /** Entries whose keys avoid `names` and one another. */
  ghost predicate EncodableEntries(es: seq<Entry>, names: set<seq<u8>>) {
    es == [] || (
      && |es[0].key| < 0x1_0000_0000 && Utf8(es[0].key) && es[0].key !in names
      && Encodable(es[0].value)
      && EncodableEntries(es[1..], names + {es[0].key}))
  }

  // ----- the accepted form

  datatype Limits = Limits(maxValues: usize, maxData: usize)

  datatype State = State(at: nat, values: nat, data: nat)

  /** A parsed part, the state behind it, and the header bytes spent beyond the shortest form. */
  datatype Parsed<T> = Parsed(part: T, next: State, waste: nat)

  type Parse<T> = Result<Parsed<T>, DecodeError>

  function ReserveValues(limits: Limits, s: State, count: nat): Result<State, DecodeError> {
    if count > s.values then Err(LimitExceeded(Values, limits.maxValues)) else Ok(s.(values := s.values - count))
  }

  function ParseRaw(bytes: seq<u8>, limits: Limits, s: State, len: nat): (r: Parse<seq<u8>>)
    ensures r.Ok? ==> r.value.next.at == s.at + len <= |bytes|
    ensures r.Ok? ==> r.value.part == bytes[s.at..s.at + len]
  {
    if s.at + len > |bytes| then Err(Truncated)
    else if len > s.data then Err(LimitExceeded(DataBytes, limits.maxData))
    else Ok(Parsed(bytes[s.at..s.at + len], s.(at := s.at + len, data := s.data - len), 0))
  }

  function ParseText(bytes: seq<u8>, limits: Limits, s: State, len: nat): (r: Parse<seq<u8>>) {
    if s.at + len <= |bytes| && !Utf8(bytes[s.at..s.at + len]) then Err(InvalidUtf8)
    else ParseRaw(bytes, limits, s, len)
  }

  function ParseValue(bytes: seq<u8>, limits: Limits, s: State, depth: nat): (r: Parse<Value>)
    requires s.at <= |bytes|
    ensures r.Ok? ==> s.at < r.value.next.at <= |bytes|
    decreases |bytes| - s.at, 0, 1
  {
    if depth > MAX_DEPTH then Err(TooDeep) else ParseHeaded(bytes, limits, s, depth)
  }

  function ParseHeaded(bytes: seq<u8>, limits: Limits, s: State, depth: nat): (r: Parse<Value>)
    requires s.at <= |bytes|
    ensures r.Ok? ==> s.at < r.value.next.at <= |bytes|
    decreases |bytes| - s.at, 0, 0
  {
    var head := ReadHead(bytes, s.at);
    if head.Err? then Err(head.error) else
    AfterHead(Excess(bytes, s.at), ParseBody(bytes, limits, s.(at := head.value.1), depth, head.value.0))
  }

  function AfterHead(excess: nat, body: Parse<Value>): Parse<Value> {
    if body.Err? then body else Ok(body.value.(waste := excess + body.value.waste))
  }

  /** How far the header at `at` exceeds the shortest header of the same meaning. */
  function Excess(bytes: seq<u8>, at: nat): nat
    requires at <= |bytes| && ReadHead(bytes, at).Ok?
  {
    HeadShortest(bytes, at);
    var head := ReadHead(bytes, at).value;
    head.1 - at - |HeadBytes(head.0)|
  }

  function ParseBody(bytes: seq<u8>, limits: Limits, s: State, depth: nat, head: Head): (r: Parse<Value>)
    requires s.at <= |bytes|
    ensures r.Ok? ==> s.at <= r.value.next.at <= |bytes|
    decreases |bytes| - s.at, 2, 0
  {
    match head
    case NullHead => Ok(Parsed(Null, s, 0))
    case BoolHead(on) => Ok(Parsed(Bool(on), s, 0))
    case IntHead(n) => Ok(Parsed(Int(n), s, 0))
    case FloatHead(bits) => Ok(Parsed(Float(bits), s, 0))
    case SizedHead(kind, len) => (
      match kind
      case BytesKind => Wrapped(ParseRaw(bytes, limits, s, len), data => ByteArray(data))
      case StringKind => Wrapped(ParseText(bytes, limits, s, len), text => String(text))
      case ListKind => Wrapped(ParseItems(bytes, limits, s, depth, len), items => List(items))
      case MapKind => Wrapped(ParseMap(bytes, limits, s, depth, len), entries => Map(entries)))
    case StructHead(tag, len) =>
      Wrapped(ParseItems(bytes, limits, s, depth, len), fields => Structure(tag, fields))
  }

  function Wrapped<T, U>(p: Parse<T>, f: T -> U): Parse<U> {
    if p.Err? then Err(p.error) else Ok(Parsed(f(p.value.part), p.value.next, p.value.waste))
  }

  /** Slots for every declared item are reserved before any item is read. */
  function ParseItems(bytes: seq<u8>, limits: Limits, s: State, depth: nat, len: nat): (r: Parse<seq<Value>>)
    requires s.at <= |bytes|
    ensures r.Ok? ==> s.at <= r.value.next.at <= |bytes|
    decreases |bytes| - s.at, 1, 1
  {
    if len > |bytes| - s.at then Err(Truncated) else
    var reserved := ReserveValues(limits, s, len);
    if reserved.Err? then Err(reserved.error) else ParseAll(bytes, limits, reserved.value, depth + 1, len)
  }

  function ParseAll(bytes: seq<u8>, limits: Limits, s: State, depth: nat, len: nat): (r: Parse<seq<Value>>)
    requires s.at <= |bytes|
    ensures r.Ok? ==> s.at <= r.value.next.at <= |bytes| && |r.value.part| == len
    decreases |bytes| - s.at, 1, 0
  {
    if len == 0 then Ok(Parsed([], s, 0)) else
    var first := ParseValue(bytes, limits, s, depth);
    if first.Err? then Err(first.error) else
    Joined([first.value.part], first.value.waste, ParseAll(bytes, limits, first.value.next, depth, len - 1))
  }

  /** Puts earlier parts and their waste in front of a parsed tail. */
  function Joined<T>(parts: seq<T>, waste: nat, rest: Parse<seq<T>>): Parse<seq<T>> {
    if rest.Err? then rest else Ok(Parsed(parts + rest.value.part, rest.value.next, waste + rest.value.waste))
  }

  function ParseMap(bytes: seq<u8>, limits: Limits, s: State, depth: nat, len: nat): (r: Parse<seq<Entry>>)
    requires s.at <= |bytes|
    ensures r.Ok? ==> s.at <= r.value.next.at <= |bytes|
    decreases |bytes| - s.at, 1, 1
  {
    if len > (|bytes| - s.at) / 2 then Err(Truncated) else
    var reserved := ReserveValues(limits, s, len * 2);
    if reserved.Err? then Err(reserved.error) else ParseEntries(bytes, limits, reserved.value, depth + 1, len, {})
  }

  function ParseEntries(bytes: seq<u8>, limits: Limits, s: State, depth: nat, len: nat, names: set<seq<u8>>):
    (r: Parse<seq<Entry>>)
    requires s.at <= |bytes|
    ensures r.Ok? ==> s.at <= r.value.next.at <= |bytes| && |r.value.part| == len
    decreases |bytes| - s.at, 1, 0
  {
    if len == 0 then Ok(Parsed([], s, 0)) else
    var first := ParseEntry(bytes, limits, s, depth, names);
    if first.Err? then Err(first.error) else
    Joined([first.value.part], first.value.waste,
           ParseEntries(bytes, limits, first.value.next, depth, len - 1, names + {first.value.part.key}))
  }

  function ParseEntry(bytes: seq<u8>, limits: Limits, s: State, depth: nat, names: set<seq<u8>>): (r: Parse<Entry>)
    requires s.at <= |bytes|
    ensures r.Ok? ==> s.at < r.value.next.at <= |bytes|
    decreases |bytes| - s.at, 0, 2
  {
    var key := ParseValue(bytes, limits, s, depth);
    if key.Err? then Err(key.error)
    else if !key.value.part.String? then Err(NonStringKey)
    else if key.value.part.text in names then Err(DuplicateKey) else
    var value := ParseValue(bytes, limits, key.value.next, depth);
    if value.Err? then Err(value.error) else
    Ok(Parsed(Entry(key.value.part.text, value.value.part), value.value.next, key.value.waste + value.value.waste))
  }

  // ----- decoding a printed value

  predicate Refuses(e: DecodeError) {
    e.TooDeep? || e.LimitExceeded?
  }

  /** Parsing returns the printed part when it fits, and otherwise refuses it as too large. */
  ghost predicate Returns<T(!new)>(r: Parse<T>, part: T, s: State, len: nat, slots: nat, data: nat, within: bool) {
    if within && slots <= s.values && data <= s.data
    then r == Ok(Parsed(part, State(s.at + len, s.values - slots, s.data - data), 0))
    else r.Err? && Refuses(r.error)
  }

  /** A printed header is read back with nothing in excess. */
  lemma HeadEncoded(v: Value, bytes: seq<u8>, at: nat) returns (next: nat)
    requires HeadOf(v).Framed() && Stands(bytes, at, Enc(v))
    ensures next + |EncBody(v)| == at + |Enc(v)|
    ensures ReadHead(bytes, at) == Ok((HeadOf(v), next)) && Excess(bytes, at) == 0
    ensures Stands(bytes, next, EncBody(v))
  {
    var head := HeadBytes(HeadOf(v));
    StandsParts(bytes, at, head, EncBody(v));
    HeadRoundTrip(HeadOf(v), bytes, at);
    next := at + |head|;
  }

  lemma HeadedEncoded(v: Value, bytes: seq<u8>, limits: Limits, s: State, depth: nat) returns (inner: State)
    requires HeadOf(v).Framed() && Stands(bytes, s.at, Enc(v))
    ensures inner == s.(at := inner.at) && s.at + |Enc(v)| == inner.at + |EncBody(v)|
    ensures Stands(bytes, inner.at, EncBody(v))
    ensures ParseHeaded(bytes, limits, s, depth) == AfterHead(0, ParseBody(bytes, limits, inner, depth, HeadOf(v)))
  {
    var next := HeadEncoded(v, bytes, s.at);
    inner := s.(at := next);
  }

  lemma AfterHeadReturns(
    body: Parse<Value>, v: Value, inner: State, s: State, bodyLen: nat, len: nat, slots: nat, data: nat, within: bool)
    requires inner == s.(at := inner.at) && s.at + len == inner.at + bodyLen
    requires Returns(body, v, inner, bodyLen, slots, data, within)
    ensures Returns(AfterHead(0, body), v, s, len, slots, data, within)
  {
  }

  lemma {:induction false} ParseEncoded(v: Value, bytes: seq<u8>, limits: Limits, s: State, depth: nat)
    requires Encodable(v) && Stands(bytes, s.at, Enc(v))
    ensures Returns(ParseValue(bytes, limits, s, depth), v, s, |Enc(v)|, Slots(v), Payload(v), Within(v, depth))
    decreases v, 1
  {
    if depth <= MAX_DEPTH {
      var inner := HeadedEncoded(v, bytes, limits, s, depth);
      BodyEncoded(v, bytes, limits, inner, depth);
      var body := ParseBody(bytes, limits, inner, depth, HeadOf(v));
      AfterHeadReturns(body, v, inner, s, |EncBody(v)|, |Enc(v)|, Slots(v), Payload(v), Within(v, depth));
    }
  }

  lemma {:induction false} BodyEncoded(v: Value, bytes: seq<u8>, limits: Limits, s: State, depth: nat)
    requires Encodable(v) && Stands(bytes, s.at, EncBody(v)) && depth <= MAX_DEPTH
    ensures Returns(ParseBody(bytes, limits, s, depth, HeadOf(v)), v, s, |EncBody(v)|, Slots(v), Payload(v),
                    Within(v, depth))
    decreases v, 0
  {
    match v
    case List(items) => ParseItemsEncoded(items, bytes, limits, s, depth);
    case Structure(_, fields) => ParseItemsEncoded(fields, bytes, limits, s, depth);
    case Map(entries) => ParseMapEncoded(entries, bytes, limits, s, depth);
    case _ =>
  }

  /** A first part and then the others, as lists and maps are read. */
  lemma ChainReturns<T(!new)>(
    first: Parse<T>, rest: Parse<seq<T>>, whole: Parse<seq<T>>, xs: seq<T>, s: State,
    len: nat, slots: nat, data: nat, within: bool, len': nat, slots': nat, data': nat, within': bool)
    requires xs != [] && Returns(first, xs[0], s, len, slots, data, within)
    requires first.Ok? ==> Returns(rest, xs[1..], first.value.next, len', slots', data', within')
    requires whole == if first.Err? then Err(first.error) else Joined([first.value.part], first.value.waste, rest)
    ensures Returns(whole, xs, s, len + len', slots + slots', data + data', within && within')
  {
    assert [xs[0]] + xs[1..] == xs;
  }

  lemma {:induction false} ParseItemsEncoded(vs: seq<Value>, bytes: seq<u8>, limits: Limits, s: State, depth: nat)
    requires EncodableAll(vs) && Stands(bytes, s.at, EncAll(vs))
    ensures Returns(ParseItems(bytes, limits, s, depth, |vs|), vs, s, |EncAll(vs)|, |vs| + SlotsAll(vs), PayloadAll(vs),
                    WithinAll(vs, depth + 1))
    decreases vs, 2
  {
    if |vs| <= s.values {
      ParseAllEncoded(vs, bytes, limits, s.(values := s.values - |vs|), depth + 1);
    }
  }

  lemma {:induction false} ParseAllEncoded(vs: seq<Value>, bytes: seq<u8>, limits: Limits, s: State, depth: nat)
    requires EncodableAll(vs) && Stands(bytes, s.at, EncAll(vs))
    ensures Returns(ParseAll(bytes, limits, s, depth, |vs|), vs, s, |EncAll(vs)|, SlotsAll(vs), PayloadAll(vs),
                    WithinAll(vs, depth))
    decreases vs, 1
  {
    if vs != [] {
      StandsParts(bytes, s.at, Enc(vs[0]), EncAll(vs[1..]));
      ParseEncoded(vs[0], bytes, limits, s, depth);
      var first := ParseValue(bytes, limits, s, depth);
      if first.Ok? {
        ParseAllEncoded(vs[1..], bytes, limits, first.value.next, depth);
        ChainReturns(first, ParseAll(bytes, limits, first.value.next, depth, |vs| - 1),
                     ParseAll(bytes, limits, s, depth, |vs|), vs, s,
                     |Enc(vs[0])|, Slots(vs[0]), Payload(vs[0]), Within(vs[0], depth),
                     |EncAll(vs[1..])|, SlotsAll(vs[1..]), PayloadAll(vs[1..]), WithinAll(vs[1..], depth));
      }
    }
  }

  lemma {:induction false} ParseMapEncoded(es: seq<Entry>, bytes: seq<u8>, limits: Limits, s: State, depth: nat)
    requires EncodableEntries(es, {}) && Stands(bytes, s.at, EncEntries(es))
    ensures Returns(ParseMap(bytes, limits, s, depth, |es|), es, s, |EncEntries(es)|, 2 * |es| + SlotsEntries(es),
                    PayloadEntries(es), WithinEntries(es, depth + 1))
    decreases es, 2
  {
    if 2 * |es| <= s.values {
      ParseEntriesEncoded(es, bytes, limits, s.(values := s.values - 2 * |es|), depth + 1, {});
    }
  }

  lemma {:induction false} ParseEntryEncoded(
    e: Entry, bytes: seq<u8>, limits: Limits, s: State, depth: nat, names: set<seq<u8>>)
    requires |e.key| < 0x1_0000_0000 && Utf8(e.key) && e.key !in names && Encodable(e.value)
    requires Stands(bytes, s.at, EncText(e.key) + Enc(e.value))
    ensures Returns(ParseEntry(bytes, limits, s, depth, names), e, s, |EncText(e.key)| + |Enc(e.value)|, Slots(e.value),
                    |e.key| + Payload(e.value), Within(e.value, depth))
    decreases e, 2
  {
    StandsParts(bytes, s.at, EncText(e.key), Enc(e.value));
    ParseTextEncoded(e.key, bytes, limits, s, depth);
    var key := ParseValue(bytes, limits, s, depth);
    if key.Ok? {
      ParseEncoded(e.value, bytes, limits, key.value.next, depth);
    }
    EntryReturns(e, key, bytes, limits, s, depth, names);
  }

  /** A key and a value, each returned whole, return the entry. */
  lemma {:induction false} EntryReturns(
    e: Entry, key: Parse<Value>, bytes: seq<u8>, limits: Limits, s: State, depth: nat, names: set<seq<u8>>)
    requires s.at <= |bytes| && key == ParseValue(bytes, limits, s, depth) && e.key !in names
    requires Returns(key, String(e.key), s, |EncText(e.key)|, 0, |e.key|, depth <= MAX_DEPTH)
    requires key.Ok? ==>
               Returns(ParseValue(bytes, limits, key.value.next, depth), e.value, key.value.next, |Enc(e.value)|,
                       Slots(e.value), Payload(e.value), Within(e.value, depth))
    ensures Returns(ParseEntry(bytes, limits, s, depth, names), e, s, |EncText(e.key)| + |Enc(e.value)|, Slots(e.value),
                    |e.key| + Payload(e.value), Within(e.value, depth))
  {
  }

  lemma ParseTextEncoded(text: seq<u8>, bytes: seq<u8>, limits: Limits, s: State, depth: nat)
    requires |text| < 0x1_0000_0000 && Utf8(text) && Stands(bytes, s.at, EncText(text))
    ensures Returns(ParseValue(bytes, limits, s, depth), String(text), s, |EncText(text)|, 0, |text|,
                    depth <= MAX_DEPTH)
  {
    if depth <= MAX_DEPTH {
      TextIsString(text);
      var inner := HeadedEncoded(String(text), bytes, limits, s, depth);
      TextBody(text, bytes, limits, inner, depth);
      var body := ParseBody(bytes, limits, inner, depth, SizedHead(StringKind, |text|));
      AfterHeadReturns(body, String(text), inner, s, |text|, |EncText(text)|, 0, |text|, true);
    }
  }

  lemma TextIsString(text: seq<u8>)
    ensures EncText(text) == Enc(String(text)) && EncBody(String(text)) == text
    ensures HeadOf(String(text)) == SizedHead(StringKind, |text|)
  {
  }

  lemma TextBody(text: seq<u8>, bytes: seq<u8>, limits: Limits, s: State, depth: nat)
    requires Utf8(text) && Stands(bytes, s.at, text)
    ensures Returns(ParseBody(bytes, limits, s, depth, SizedHead(StringKind, |text|)), String(text), s, |text|, 0,
                    |text|, true)
  {
  }

  lemma {:induction false} ParseEntriesEncoded(
    es: seq<Entry>, bytes: seq<u8>, limits: Limits, s: State, depth: nat, names: set<seq<u8>>)
    requires EncodableEntries(es, names) && Stands(bytes, s.at, EncEntries(es))
    ensures Returns(ParseEntries(bytes, limits, s, depth, |es|, names), es, s, |EncEntries(es)|, SlotsEntries(es),
                    PayloadEntries(es), WithinEntries(es, depth))
    decreases es, 1
  {
    if es != [] {
      EntriesParts(es, bytes, s.at, names);
      ParseEntryEncoded(es[0], bytes, limits, s, depth, names);
      var first := ParseEntry(bytes, limits, s, depth, names);
      if first.Ok? {
        RestEncoded(es, bytes, limits, s.at, first.value.next, depth, names);
      }
      EntriesReturns(es, first, bytes, limits, s, depth, names);
    }
  }

  lemma {:induction false} RestEncoded(
    es: seq<Entry>, bytes: seq<u8>, limits: Limits, at: nat, next: State, depth: nat, names: set<seq<u8>>)
    requires es != [] && EncodableEntries(es, names) && Stands(bytes, at, EncEntries(es))
    requires next.at == at + (|EncText(es[0].key)| + |Enc(es[0].value)|)
    ensures next.at <= |bytes|
    ensures Returns(ParseEntries(bytes, limits, next, depth, |es| - 1, names + {es[0].key}), es[1..], next,
                    |EncEntries(es[1..])|, SlotsEntries(es[1..]), PayloadEntries(es[1..]),
                    WithinEntries(es[1..], depth))
    decreases es, 0
  {
    EntriesParts(es, bytes, at, names);
    ParseEntriesEncoded(es[1..], bytes, limits, next, depth, names + {es[0].key});
  }

  lemma {:induction false} EntriesParts(es: seq<Entry>, bytes: seq<u8>, at: nat, names: set<seq<u8>>)
    requires es != [] && EncodableEntries(es, names) && Stands(bytes, at, EncEntries(es))
    ensures |es[0].key| < 0x1_0000_0000 && Utf8(es[0].key) && es[0].key !in names && Encodable(es[0].value)
    ensures EncodableEntries(es[1..], names + {es[0].key})
    ensures Stands(bytes, at, EncText(es[0].key) + Enc(es[0].value))
    ensures Stands(bytes, at + (|EncText(es[0].key)| + |Enc(es[0].value)|), EncEntries(es[1..]))
  {
    StandsParts(bytes, at, EncText(es[0].key) + Enc(es[0].value), EncEntries(es[1..]));
  }

  /** The first entry and the rest, each returned whole, return all the entries. */
  lemma {:induction false} EntriesReturns(
    es: seq<Entry>, first: Parse<Entry>, bytes: seq<u8>, limits: Limits, s: State, depth: nat,
    names: set<seq<u8>>)
    requires es != [] && s.at <= |bytes| && first == ParseEntry(bytes, limits, s, depth, names)
    requires Returns(first, es[0], s, |EncText(es[0].key)| + |Enc(es[0].value)|, Slots(es[0].value),
                     |es[0].key| + Payload(es[0].value), Within(es[0].value, depth))
    requires first.Ok? ==>
               Returns(ParseEntries(bytes, limits, first.value.next, depth, |es| - 1, names + {es[0].key}), es[1..],
                       first.value.next, |EncEntries(es[1..])|, SlotsEntries(es[1..]), PayloadEntries(es[1..]),
                       WithinEntries(es[1..], depth))
    ensures Returns(ParseEntries(bytes, limits, s, depth, |es|, names), es, s, |EncEntries(es)|, SlotsEntries(es),
                    PayloadEntries(es), WithinEntries(es, depth))
  {
    if first.Ok? {
      ChainReturns(first, ParseEntries(bytes, limits, first.value.next, depth, |es| - 1, names + {es[0].key}),
                   ParseEntries(bytes, limits, s, depth, |es|, names), es, s,
                   |EncText(es[0].key)| + |Enc(es[0].value)|, Slots(es[0].value), |es[0].key| + Payload(es[0].value),
                   Within(es[0].value, depth),
                   |EncEntries(es[1..])|, SlotsEntries(es[1..]), PayloadEntries(es[1..]),
                     WithinEntries(es[1..], depth));
    }
  }

  // ----- what an accepted value is

  /** The part read between two states: its cost, and its length against the printed form. */
  ghost predicate Accounts<T(!new)>(bytes: seq<u8>, s: State, p: Parsed<T>, enc: seq<u8>, slots: nat, data: nat) {
    && s.at <= p.next.at <= |bytes|
    && s.values == p.next.values + slots
    && s.data == p.next.data + data
    && p.next.at - s.at == |enc| + p.waste
    && (p.waste == 0 ==> bytes[s.at..p.next.at] == enc)
  }

  lemma HeadedSound(bytes: seq<u8>, limits: Limits, s: State, depth: nat) returns (head: Head, at: nat, excess: nat)
    requires s.at <= |bytes| && ParseHeaded(bytes, limits, s, depth).Ok?
    ensures s.at < at <= |bytes| && head.Framed()
    ensures at - s.at == |HeadBytes(head)| + excess
    ensures excess == 0 ==> bytes[s.at..at] == HeadBytes(head)
    ensures ParseHeaded(bytes, limits, s, depth) ==
            AfterHead(excess, ParseBody(bytes, limits, s.(at := at), depth, head))
  {
    HeadShortest(bytes, s.at);
    var read := ReadHead(bytes, s.at).value;
    head, at, excess := read.0, read.1, Excess(bytes, s.at);
  }

  lemma AfterHeadAccounts(
    bytes: seq<u8>, s: State, at: nat, excess: nat, head: seq<u8>, body: Parsed<Value>, enc: seq<u8>, slots: nat,
    data: nat)
    requires s.at <= at <= |bytes| && at - s.at == |head| + excess
    requires excess == 0 ==> bytes[s.at..at] == head
    requires Accounts(bytes, s.(at := at), body, enc, slots, data)
    ensures Accounts(bytes, s, AfterHead(excess, Ok(body)).value, head + enc, slots, data)
  {
    assert bytes[s.at..body.next.at] == bytes[s.at..at] + bytes[at..body.next.at];
  }

  lemma {:induction false} ParseSound(bytes: seq<u8>, limits: Limits, s: State, depth: nat)
    requires s.at <= |bytes| && ParseValue(bytes, limits, s, depth).Ok?
    ensures var p := ParseValue(bytes, limits, s, depth).value;
            && Encodable(p.part) && Within(p.part, depth)
            && Accounts(bytes, s, p, Enc(p.part), Slots(p.part), Payload(p.part))
    decreases |bytes| - s.at, 0, 0
  {
    var head, at, excess := HeadedSound(bytes, limits, s, depth);
    BodySound(bytes, limits, s.(at := at), depth, head);
    var body := ParseBody(bytes, limits, s.(at := at), depth, head).value;
    AfterHeadAccounts(bytes, s, at, excess, HeadBytes(head), body, EncBody(body.part), Slots(body.part),
                      Payload(body.part));
  }

  lemma {:induction false} BodySound(bytes: seq<u8>, limits: Limits, s: State, depth: nat, head: Head)
    requires s.at <= |bytes| && head.Framed() && depth <= MAX_DEPTH && ParseBody(bytes, limits, s, depth, head).Ok?
    ensures var p := ParseBody(bytes, limits, s, depth, head).value;
            && HeadOf(p.part) == head && Encodable(p.part) && Within(p.part, depth)
            && Accounts(bytes, s, p, EncBody(p.part), Slots(p.part), Payload(p.part))
    decreases |bytes| - s.at, 2, 0
  {
    match head
    case SizedHead(ListKind, len) => ParseItemsSound(bytes, limits, s, depth, len);
    case SizedHead(MapKind, len) => ParseMapSound(bytes, limits, s, depth, len);
    case StructHead(_, len) => ParseItemsSound(bytes, limits, s, depth, len);
    case _ =>
  }

  lemma {:induction false} ParseItemsSound(bytes: seq<u8>, limits: Limits, s: State, depth: nat, len: nat)
    requires s.at <= |bytes| && ParseItems(bytes, limits, s, depth, len).Ok?
    ensures var p := ParseItems(bytes, limits, s, depth, len).value;
            && |p.part| == len && EncodableAll(p.part) && WithinAll(p.part, depth + 1)
            && Accounts(bytes, s, p, EncAll(p.part), len + SlotsAll(p.part), PayloadAll(p.part))
    decreases |bytes| - s.at, 1, 1
  {
    ParseAllSound(bytes, limits, s.(values := s.values - len), depth + 1, len);
  }

  lemma {:induction false} ParseAllSound(bytes: seq<u8>, limits: Limits, s: State, depth: nat, len: nat)
    requires s.at <= |bytes| && ParseAll(bytes, limits, s, depth, len).Ok?
    ensures var p := ParseAll(bytes, limits, s, depth, len).value;
            && EncodableAll(p.part) && WithinAll(p.part, depth)
            && Accounts(bytes, s, p, EncAll(p.part), SlotsAll(p.part), PayloadAll(p.part))
    decreases |bytes| - s.at, 1, 0
  {
    if len > 0 {
      ParseSound(bytes, limits, s, depth);
      var first := ParseValue(bytes, limits, s, depth).value;
      ParseAllSound(bytes, limits, first.next, depth, len - 1);
      var p := ParseAll(bytes, limits, s, depth, len).value;
      assert p.part[1..] == ParseAll(bytes, limits, first.next, depth, len - 1).value.part;
      Cut(bytes, s.at, first.next.at, p.next.at);
    }
  }

  lemma {:induction false} ParseMapSound(bytes: seq<u8>, limits: Limits, s: State, depth: nat, len: nat)
    requires s.at <= |bytes| && ParseMap(bytes, limits, s, depth, len).Ok?
    ensures var p := ParseMap(bytes, limits, s, depth, len).value;
            && |p.part| == len && EncodableEntries(p.part, {}) && WithinEntries(p.part, depth + 1)
            && Accounts(bytes, s, p, EncEntries(p.part), 2 * len + SlotsEntries(p.part), PayloadEntries(p.part))
    decreases |bytes| - s.at, 1, 1
  {
    ParseEntriesSound(bytes, limits, s.(values := s.values - len * 2), depth + 1, len, {});
  }

  lemma {:induction false} ParseEntrySound(bytes: seq<u8>, limits: Limits, s: State, depth: nat, names: set<seq<u8>>)
    requires s.at <= |bytes| && ParseEntry(bytes, limits, s, depth, names).Ok?
    ensures var p := ParseEntry(bytes, limits, s, depth, names).value;
            var e := p.part;
            && |e.key| < 0x1_0000_0000 && Utf8(e.key) && e.key !in names && Encodable(e.value) && Within(e.value, depth)
            && Accounts(bytes, s, p, EncText(e.key) + Enc(e.value), Slots(e.value), |e.key| + Payload(e.value))
    decreases |bytes| - s.at, 0, 1
  {
    ParseSound(bytes, limits, s, depth);
    var key := ParseValue(bytes, limits, s, depth).value;
    ParseSound(bytes, limits, key.next, depth);
    var p := ParseEntry(bytes, limits, s, depth, names).value;
    TextIsString(p.part.key);
    assert bytes[s.at..p.next.at] == bytes[s.at..key.next.at] + bytes[key.next.at..p.next.at];
  }

  lemma {:induction false} ParseEntriesSound(
    bytes: seq<u8>, limits: Limits, s: State, depth: nat, len: nat, names: set<seq<u8>>)
    requires s.at <= |bytes| && ParseEntries(bytes, limits, s, depth, len, names).Ok?
    ensures var p := ParseEntries(bytes, limits, s, depth, len, names).value;
            && EncodableEntries(p.part, names) && WithinEntries(p.part, depth)
            && Accounts(bytes, s, p, EncEntries(p.part), SlotsEntries(p.part), PayloadEntries(p.part))
    decreases |bytes| - s.at, 1, 0
  {
    if len > 0 {
      ParseEntrySound(bytes, limits, s, depth, names);
      var first := ParseEntry(bytes, limits, s, depth, names).value;
      var names' := names + {first.part.key};
      ParseEntriesSound(bytes, limits, first.next, depth, len - 1, names');
      var rest := ParseEntries(bytes, limits, first.next, depth, len - 1, names').value;
      EntriesAccounted(bytes, s, depth, names, first, rest, ParseEntries(bytes, limits, s, depth, len, names).value);
    }
  }

  /** An entry and the rest, each accounted for, account for all the entries. */
  lemma {:induction false} EntriesAccounted(
    bytes: seq<u8>, s: State, depth: nat, names: set<seq<u8>>, first: Parsed<Entry>, rest: Parsed<seq<Entry>>,
    p: Parsed<seq<Entry>>)
    requires p == Parsed([first.part] + rest.part, rest.next, first.waste + rest.waste)
    requires |first.part.key| < 0x1_0000_0000 && Utf8(first.part.key) && first.part.key !in names
    requires Encodable(first.part.value) && Within(first.part.value, depth)
    requires Accounts(bytes, s, first, EncText(first.part.key) + Enc(first.part.value), Slots(first.part.value),
                      |first.part.key| + Payload(first.part.value))
    requires EncodableEntries(rest.part, names + {first.part.key}) && WithinEntries(rest.part, depth)
    requires Accounts(bytes, first.next, rest, EncEntries(rest.part), SlotsEntries(rest.part),
                      PayloadEntries(rest.part))
    ensures EncodableEntries(p.part, names) && WithinEntries(p.part, depth)
    ensures Accounts(bytes, s, p, EncEntries(p.part), SlotsEntries(p.part), PayloadEntries(p.part))
  {
    assert p.part[0] == first.part && p.part[1..] == rest.part;
    Cut(bytes, s.at, first.next.at, p.next.at);
  }

  // ----- one whole value

  /** Decodes exactly one value, with its excess header bytes. */
  function Decode(bytes: seq<u8>, limits: Limits): Result<(Value, nat), DecodeError> {
    var reserved := ReserveValues(limits, State(0, limits.maxValues, limits.maxData), 1);
    if reserved.Err? then Err(reserved.error) else
    var root := ParseValue(bytes, limits, reserved.value, 0);
    if root.Err? then Err(root.error)
    else if root.value.next.at != |bytes| then Err(TrailingBytes)
    else Ok((root.value.part, root.value.waste))
  }

  /** The whole-value budgets, the root's own slot included. */
  predicate FitsLimits(v: Value, limits: Limits) {
    Within(v, 0) && 1 + Slots(v) <= limits.maxValues && Payload(v) <= limits.maxData
  }

  /** Decoding undoes encoding exactly when the value fits; otherwise it is refused as too large. */
  lemma DecodeEncoded(v: Value, limits: Limits)
    requires Encodable(v)
    ensures FitsLimits(v, limits) ==> Decode(Enc(v), limits) == Ok((v, 0))
    ensures !FitsLimits(v, limits) ==> Decode(Enc(v), limits).Err? && Refuses(Decode(Enc(v), limits).error)
  {
    if limits.maxValues > 0 {
      assert Enc(v)[0..|Enc(v)|] == Enc(v);
      ParseEncoded(v, Enc(v), limits, State(0, limits.maxValues - 1, limits.maxData), 0);
    }
  }

  /** Whatever is accepted was encodable and fits, and its printed form is the unique shortest spelling. */
  lemma EncodingIsShortest(bytes: seq<u8>, limits: Limits)
    requires Decode(bytes, limits).Ok?
    ensures var (v, waste) := Decode(bytes, limits).value;
            && Encodable(v) && FitsLimits(v, limits)
            && |bytes| == |Enc(v)| + waste
            && (bytes == Enc(v) <==> waste == 0)
  {
    var s := State(0, limits.maxValues - 1, limits.maxData);
    ParseSound(bytes, limits, s, 0);
    assert bytes[0..|bytes|] == bytes;
  }

  // ----- strings and the scalar values they spell

  /** A printed string decodes to itself exactly when its bytes spell scalar values, and is refused otherwise. */
  lemma {:induction false} TextDecoded(text: seq<u8>, limits: Limits)
    requires |text| < 0x1_0000_0000 && limits.maxValues > 0
    ensures !Spelled(text) ==> Decode(EncText(text), limits) == Err(InvalidUtf8)
    ensures Spelled(text) && |text| <= limits.maxData ==> Decode(EncText(text), limits) == Ok((String(text), 0))
  {
    Utf8Exactly(text);
    TextIsString(text);
    if Spelled(text) {
      DecodeEncoded(String(text), limits);
    } else {
      BadText(text, limits);
    }
  }

  lemma {:induction false} BadText(text: seq<u8>, limits: Limits)
    requires |text| < 0x1_0000_0000 && limits.maxValues > 0 && !Utf8(text)
    ensures Decode(EncText(text), limits) == Err(InvalidUtf8)
  {
    var bytes, head := EncText(text), SizedHeader(StringKind, |text|);
    assert bytes[0..|bytes|] == bytes;
    StandsParts(bytes, 0, head, text);
    HeadRoundTrip(SizedHead(StringKind, |text|), bytes, 0);
    var s := State(0, limits.maxValues - 1, limits.maxData);
    var inner := s.(at := |head|);
    assert bytes[inner.at..inner.at + |text|] == text;
    assert ParseText(bytes, limits, inner, |text|) == Err(InvalidUtf8);
    assert ParseBody(bytes, limits, inner, 0, SizedHead(StringKind, |text|)) == Err(InvalidUtf8);
    assert ParseHeaded(bytes, limits, s, 0) == Err(InvalidUtf8);
  }

  /** Every accepted string spells scalar values. */
  lemma {:induction false} AcceptedText(bytes: seq<u8>, limits: Limits)
    requires Decode(bytes, limits).Ok? && Decode(bytes, limits).value.0.String?
    ensures Spelled(Decode(bytes, limits).value.0.text)
  {
    EncodingIsShortest(bytes, limits);
    Utf8Exactly(Decode(bytes, limits).value.0.text);
  }
}
