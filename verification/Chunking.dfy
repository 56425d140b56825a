/** Chunked message transport: framing, and a buffered dechunker that refines a plain stream function. */
module Chunking {
  import opened Words
  import opened Bytes

  const MAX_CHUNK: nat := 0xFFFF

  // ----- the stream function

  /** The messages a byte stream carries, and whether it ends in a refused chunk. */
  datatype Outcome = Outcome(messages: seq<seq<u8>>, failed: bool) {
    function After(earlier: seq<seq<u8>>): Outcome {
      Outcome(earlier + messages, failed)
    }
  }

  function ChunkLength(bytes: seq<u8>): (len: nat)
    requires |bytes| >= 2
    ensures len <= MAX_CHUNK
  {
    var high: nat, low: nat := bytes[0], bytes[1];
    high * 256 + low
  }

  predicate TooLong(max: nat, message: seq<u8>, len: nat) {
    len > Max(max - |message|, 0)
  }

  /** Reads `bytes` with `message` already collected. */
  function Run(max: nat, message: seq<u8>, bytes: seq<u8>): Outcome
    decreases |bytes|
  {
    if |bytes| < 2 then Outcome([], false) else
    var len := ChunkLength(bytes);
    if len == 0 then
      if message == [] then Run(max, [], bytes[2..]) else Run(max, [], bytes[2..]).After([message])
    else if TooLong(max, message, len) then Outcome([], true)
    else if |bytes| < 2 + len then Outcome([], false)
    else Run(max, message + bytes[2..2 + len], bytes[2 + len..])
  }

  lemma RunEnd(max: nat, message: seq<u8>, rest: seq<u8>, more: seq<u8>)
    requires |rest| >= 2 && ChunkLength(rest) == 0
    ensures Run(max, message, rest + more)
         == if message == [] then Run(max, [], rest[2..] + more) else Run(max, [], rest[2..] + more).After([message])
  {
    assert ChunkLength(rest + more) == 0;
    assert (rest + more)[2..] == rest[2..] + more;
  }

  lemma RunChunk(max: nat, message: seq<u8>, rest: seq<u8>, more: seq<u8>, len: nat)
    requires |rest| >= 2 + len && ChunkLength(rest) == len > 0 && !TooLong(max, message, len)
    ensures Run(max, message, rest + more) == Run(max, message + rest[2..2 + len], rest[2 + len..] + more)
  {
    assert ChunkLength(rest + more) == len;
    assert (rest + more)[2 + len..] == rest[2 + len..] + more;
    assert (rest + more)[2..2 + len] == rest[2..2 + len];
  }

  /** More input only extends the messages, and a failure is final. */
  lemma {:induction false} RunExtends(max: nat, message: seq<u8>, bytes: seq<u8>, more: seq<u8>)
    ensures Run(max, message, bytes).messages <= Run(max, message, bytes + more).messages
    ensures Run(max, message, bytes).failed ==> Run(max, message, bytes + more) == Run(max, message, bytes)
    decreases |bytes|
  {
    if |bytes| >= 2 {
      var len := ChunkLength(bytes);
      if len == 0 {
        RunEnd(max, message, bytes, more);
        RunExtends(max, [], bytes[2..], more);
      } else if TooLong(max, message, len) {
        assert ChunkLength(bytes + more) == len;
      } else if |bytes| >= 2 + len {
        RunChunk(max, message, bytes, more, len);
        RunExtends(max, message + bytes[2..2 + len], bytes[2 + len..], more);
      }
    }
  }

  /** Whatever follows, reading everything gives the earlier answers and then those of the leftover. */
  ghost predicate Resumes(max: nat, received: seq<u8>, yielded: seq<seq<u8>>, message: seq<u8>, rest: seq<u8>) {
    forall more :: ResumesWith(max, received, yielded, message, rest, more)
  }

  ghost predicate ResumesWith(
    max: nat, received: seq<u8>, yielded: seq<seq<u8>>, message: seq<u8>, rest: seq<u8>, more: seq<u8>) {
    Run(max, [], received + more) == Run(max, message, rest + more).After(yielded)
  }

  lemma AfterTwice(o: Outcome, a: seq<seq<u8>>, b: seq<seq<u8>>)
    ensures o.After(b).After(a) == o.After(a + b)
  {
    assert a + (b + o.messages) == a + b + o.messages;
  }

  lemma Grouped(a: seq<u8>, b: seq<u8>, c: seq<u8>)
    ensures a + b + c == a + (b + c)
  {
  }

  lemma ResumesMore(
    max: nat, received: seq<u8>, yielded: seq<seq<u8>>, message: seq<u8>, rest: seq<u8>, bytes: seq<u8>)
    requires Resumes(max, received, yielded, message, rest)
    ensures Resumes(max, received + bytes, yielded, message, rest + bytes)
  {
    forall more
      ensures ResumesWith(max, received + bytes, yielded, message, rest + bytes, more)
    {
      assert ResumesWith(max, received, yielded, message, rest, bytes + more);
      Grouped(received, bytes, more);
      Grouped(rest, bytes, more);
    }
  }

  lemma ResumesEnd(max: nat, received: seq<u8>, yielded: seq<seq<u8>>, message: seq<u8>, rest: seq<u8>)
    requires Resumes(max, received, yielded, message, rest)
    requires |rest| >= 2 && ChunkLength(rest) == 0
    ensures Resumes(max, received, if message == [] then yielded else yielded + [message], [], rest[2..])
  {
    var yielded' := if message == [] then yielded else yielded + [message];
    forall more
      ensures ResumesWith(max, received, yielded', [], rest[2..], more)
    {
      assert ResumesWith(max, received, yielded, message, rest, more);
      RunEnd(max, message, rest, more);
      AfterTwice(Run(max, [], rest[2..] + more), yielded, [message]);
    }
  }

  lemma ResumesChunk(max: nat, received: seq<u8>, yielded: seq<seq<u8>>, message: seq<u8>, rest: seq<u8>, len: nat)
    requires Resumes(max, received, yielded, message, rest)
    requires |rest| >= 2 + len && ChunkLength(rest) == len > 0 && !TooLong(max, message, len)
    ensures Resumes(max, received, yielded, message + rest[2..2 + len], rest[2 + len..])
  {
    var message', rest' := message + rest[2..2 + len], rest[2 + len..];
    forall more
      ensures ResumesWith(max, received, yielded, message', rest', more)
    {
      assert ResumesWith(max, received, yielded, message, rest, more);
      RunChunk(max, message, rest, more, len);
    }
  }

  lemma ResumesNow(max: nat, received: seq<u8>, yielded: seq<seq<u8>>, message: seq<u8>, rest: seq<u8>)
    requires Resumes(max, received, yielded, message, rest)
    ensures Run(max, [], received) == Run(max, message, rest).After(yielded)
  {
    assert ResumesWith(max, received, yielded, message, rest, []);
    assert received + [] == received && rest + [] == rest;
  }

  lemma Stalls(max: nat, received: seq<u8>, yielded: seq<seq<u8>>, message: seq<u8>, rest: seq<u8>)
    requires Resumes(max, received, yielded, message, rest)
    requires |rest| >= 2 ==> ChunkLength(rest) > 0 && |rest| < 2 + ChunkLength(rest)
    requires |rest| >= 2 ==> !TooLong(max, message, ChunkLength(rest))
    ensures Owes(Run(max, [], received), yielded, Ok(None), yielded, max)
  {
    ResumesNow(max, received, yielded, message, rest);
    assert yielded + [] == yielded;
  }

  lemma Refused(max: nat, received: seq<u8>, yielded: seq<seq<u8>>, message: seq<u8>, rest: seq<u8>)
    requires Resumes(max, received, yielded, message, rest)
    requires |rest| >= 2 && TooLong(max, message, ChunkLength(rest))
    ensures Run(max, [], received) == Outcome(yielded, true)
    ensures Owes(Run(max, [], received), yielded, Err(MessageTooLarge(max)), yielded, max)
  {
    ResumesNow(max, received, yielded, message, rest);
    assert yielded + [] == yielded;
  }

  lemma Completes(max: nat, received: seq<u8>, yielded: seq<seq<u8>>, message: seq<u8>, rest: seq<u8>)
    requires Resumes(max, received, yielded, message, rest)
    requires |rest| >= 2 && ChunkLength(rest) == 0 && message != []
    ensures Owes(Run(max, [], received), yielded, Ok(Some(message)), yielded + [message], max)
  {
    ResumesNow(max, received, yielded, message, rest);
  }

  /** The answer a stream owes after `before`: its next message, its failure, or nothing yet. */
  ghost predicate Owes(
    stream: Outcome, before: seq<seq<u8>>, answer: Result<Option<seq<u8>>, MessageTooLarge>, after: seq<seq<u8>>,
    limit: nat) {
    && before <= stream.messages
    && if |before| < |stream.messages|
       then answer == Ok(Some(stream.messages[|before|])) && after == before + [stream.messages[|before|]]
       else after == before && answer == if stream.failed then Err(MessageTooLarge(limit)) else Ok(None)
  }

  // ----- the buffered dechunker

  datatype MessageTooLarge = MessageTooLarge(limit: nat)

  class Dechunker {
    var pending: seq<u8>
    var head: nat
    var message: seq<u8>
    const maxMessage: nat
    var failed: bool

    // What the connection has seen: input, answers, and the bytes retired and moved.
    ghost var received: seq<u8>
    ghost var yielded: seq<seq<u8>>
    ghost var consumed: nat
    ghost var moved: nat

    ghost predicate Valid()
      reads this
    {
      && head <= |pending|
      && |message| <= maxMessage
      && moved + head <= consumed <= |received|
      && (forall m :: m in yielded ==> 0 < |m| <= maxMessage)
      && if failed then pending == [] && message == [] && Run(maxMessage, [], received) == Outcome(yielded, true)
         else
           && Resumes(maxMessage, received, yielded, message, pending[head..])
           && consumed + (|pending| - head) == |received|
    }

    constructor (maxMessage: nat)
      ensures Valid() && this.maxMessage == maxMessage
      ensures received == [] && yielded == [] && !failed
    {
      this.maxMessage := maxMessage;
      pending, head, message, failed := [], 0, [], false;
      received, yielded, consumed, moved := [], [], 0, 0;
    }

    /** Queues input, first retiring a consumed prefix no shorter than what must move. */
    method Push(bytes: seq<u8>)
      requires Valid()
      modifies this
      ensures Valid()
      ensures received == old(received) + bytes && yielded == old(yielded) && failed == old(failed)
      ensures moved <= old(moved) + old(head) && consumed == old(consumed)
    {
      ghost var rest := pending[head..];
      if failed {
        RunExtends(maxMessage, [], received, bytes);
        received := received + bytes;
        return;
      }
      ResumesMore(maxMessage, received, yielded, message, rest, bytes);
      if head == |pending| {
        pending := [];
        head := 0;
      } else if head >= |pending| - head {
        moved := moved + (|pending| - head);
        pending := pending[head..];
        head := 0;
      }
      pending := pending + bytes;
      received := received + bytes;
      assert pending[head..] == rest + bytes;
    }

    /** Steps over an empty chunk, giving up the message it closes, if any. */
    method EndChunk() returns (complete: seq<u8>)
      requires Valid() && !failed && |pending| - head >= 2 && ChunkLength(pending[head..]) == 0
      modifies this
      ensures Valid() && !failed && received == old(received) && moved == old(moved)
      ensures complete == old(message) && yielded == if complete == [] then old(yielded) else old(yielded) + [complete]
      ensures |pending| - head == old(|pending| - head) - 2
    {
      ghost var rest := pending[head..];
      ResumesEnd(maxMessage, received, yielded, message, rest);
      head := head + 2;
      consumed := consumed + 2;
      assert pending[head..] == rest[2..];
      complete := message;
      message := [];
      yielded := if complete == [] then yielded else yielded + [complete];
    }

    /** Moves a whole chunk into the message. */
    method TakeChunk(len: nat)
      requires Valid() && !failed && |pending| - head >= 2 + len
      requires ChunkLength(pending[head..]) == len > 0 && !TooLong(maxMessage, message, len)
      modifies this
      ensures Valid() && !failed && received == old(received) && moved == old(moved) && yielded == old(yielded)
      ensures |pending| - head < old(|pending| - head)
    {
      var rest := pending[head..];
      ResumesChunk(maxMessage, received, yielded, message, rest, len);
      message := message + rest[2..2 + len];
      head := head + (2 + len);
      consumed := consumed + (2 + len);
      assert pending[head..] == rest[2 + len..];
    }

    /** The next message of the stream function, or its failure, or nothing yet. */
    method NextMessage() returns (r: Result<Option<seq<u8>>, MessageTooLarge>)
      requires Valid()
      modifies this
      ensures Valid() && received == old(received) && moved == old(moved)
      ensures Owes(Run(maxMessage, [], received), old(yielded), r, yielded, maxMessage)
      ensures failed <==> r.Err?
      ensures old(failed) ==> failed
    {
      if failed {
        return Err(MessageTooLarge(maxMessage));
      }
      while true
        invariant Valid() && !failed
        invariant received == old(received) && moved == old(moved) && yielded == old(yielded)
        decreases |pending| - head
      {
        var available := pending[head..];
        if |available| < 2 {
          Stalls(maxMessage, received, yielded, message, available);
          if head == |pending| {
            pending := [];
            head := 0;
          }
          return Ok(None);
        }
        var len := ChunkLength(available);
        if len == 0 {
          if message != [] {
            Completes(maxMessage, received, yielded, message, available);
          }
          var complete := EndChunk();
          if complete == [] {
            continue;
          }
          return Ok(Some(complete));
        }
        if TooLong(maxMessage, message, len) {
          Refused(maxMessage, received, yielded, message, available);
          failed := true;
          pending, message, head := [], [], 0;
          return Err(MessageTooLarge(maxMessage));
        }
        if |available| < 2 + len {
          Stalls(maxMessage, received, yielded, message, available);
          return Ok(None);
        }
        TakeChunk(len);
      }
    }
  }

  // ----- framing

  /** `message` in chunks of at most `MAX_CHUNK` bytes, closed by an empty chunk. */
  function Framed(message: seq<u8>): seq<u8>
    decreases |message|
  {
    if message == [] then [0, 0] else
    var len := Min(|message|, MAX_CHUNK);
    ChunkHeader(len) + message[..len] + Framed(message[len..])
  }

  function ChunkHeader(len: nat): (b: seq<u8>)
    requires len <= MAX_CHUNK
    ensures |b| == 2 && ChunkLength(b) == len
  {
    [len / 256, len % 256]
  }

  // ----- the bytes on the wire

  /** Chunks of one to 65535 bytes. */
  ghost predicate Chunks(chunks: seq<seq<u8>>) {
    forall i :: 0 <= i < |chunks| ==> 0 < |chunks[i]| <= 65535
  }

  function Concat(chunks: seq<seq<u8>>): seq<u8> {
    if chunks == [] then [] else chunks[0] + Concat(chunks[1..])
  }

  /** Each chunk behind its length, high byte first, and two zero bytes at the end. */
  ghost function Wire(chunks: seq<seq<u8>>): seq<u8>
    requires Chunks(chunks)
  {
    if chunks == [] then [0, 0]
    else [|chunks[0]| / 256, |chunks[0]| % 256] + chunks[0] + Wire(chunks[1..])
  }

  /** A chunk of the declared length is taken whole, whatever follows. */
  lemma ChunkTaken(max: nat, sofar: seq<u8>, high: u8, low: u8, payload: seq<u8>, rest: seq<u8>)
    requires 256 * high + low == |payload| && payload != [] && |sofar| + |payload| <= max
    ensures Run(max, sofar, [high, low] + payload + rest) == Run(max, sofar + payload, rest)
  {
    var stream := [high, low] + payload + rest;
    assert stream[2..2 + |payload|] == payload && stream[2 + |payload|..] == rest;
  }

  /** A chunk that would carry the message over the limit is refused at its header. */
  lemma ChunkRefused(max: nat, sofar: seq<u8>, high: u8, low: u8, rest: seq<u8>)
    requires |sofar| + (256 * high + low) > max && (high != 0 || low != 0)
    ensures Run(max, sofar, [high, low] + rest) == Outcome([], true)
  {
  }

  /** However a message is cut into chunks, it is read back whole, or refused when it is over the limit. */
  lemma {:induction false} RunWire(max: nat, sofar: seq<u8>, chunks: seq<seq<u8>>, rest: seq<u8>)
    requires |sofar| <= max && Chunks(chunks)
    ensures var whole := sofar + Concat(chunks);
            Run(max, sofar, Wire(chunks) + rest) ==
            if |whole| > max then Outcome([], true)
            else if whole == [] then Run(max, [], rest)
            else Run(max, [], rest).After([whole])
    decreases |chunks|
  {
    if chunks == [] {
      RunEnd(max, sofar, [0, 0], rest);
      assert [0, 0][2..] + rest == rest && sofar + Concat(chunks) == sofar;
    } else {
      var chunk, tail, len := chunks[0], Wire(chunks[1..]) + rest, |chunks[0]|;
      var high, low := len / 256, len % 256;
      assert Wire(chunks) + rest == [high, low] + chunk + tail;
      if |sofar| + len <= max {
        ChunkTaken(max, sofar, high, low, chunk, tail);
        RunWire(max, sofar + chunk, chunks[1..], rest);
        Grouped(sofar, chunk, Concat(chunks[1..]));
      } else {
        Grouped([high, low], chunk, tail);
        ChunkRefused(max, sofar, high, low, chunk + tail);
      }
    }
  }

  /** The pieces of a message: all but the last are as long as a chunk can be. */
  ghost predicate Pieces(message: seq<u8>, chunks: seq<seq<u8>>) {
    && Chunks(chunks) && Concat(chunks) == message
    && forall i :: 0 <= i < |chunks| - 1 ==> |chunks[i]| == 65535
  }

  lemma {:induction false} FramedIsWire(message: seq<u8>) returns (chunks: seq<seq<u8>>)
    ensures Pieces(message, chunks) && Framed(message) == Wire(chunks)
    decreases |message|
  {
    if message == [] {
      chunks := [];
    } else {
      var len := Min(|message|, MAX_CHUNK);
      var rest := FramedIsWire(message[len..]);
      chunks := [message[..len]] + rest;
      assert chunks[1..] == rest && message == message[..len] + message[len..];
      if |message| <= MAX_CHUNK {
        assert Concat(rest) == [];
        ConcatEmpty(rest);
      }
    }
  }

  lemma ConcatEmpty(chunks: seq<seq<u8>>)
    requires Chunks(chunks) && Concat(chunks) == []
    ensures chunks == []
  {
  }

  /** A message of one chunk on the wire. */
  lemma FramedOnce(message: seq<u8>)
    requires 0 < |message| <= 65535
    ensures Framed(message) == [|message| / 256, |message| % 256] + message + [0, 0]
  {
    assert message[..|message|] == message && Framed(message[|message|..]) == [0, 0];
  }

  /** Appends `message` chunk by chunk. */
  method Frame(message: seq<u8>, out: Buffer)
    modifies out
    ensures out.data == old(out.data) + Framed(message)
    ensures exists chunks :: Pieces(message, chunks) && out.data == old(out.data) + Wire(chunks)
    ensures 0 < |message| <= 65535 ==>
              out.data == old(out.data) + ([|message| / 256, |message| % 256] + message + [0, 0])
  {
    ghost var chunks := FramedIsWire(message);
    if 0 < |message| <= MAX_CHUNK {
      FramedOnce(message);
    }
    var rest := message;
    while rest != []
      invariant out.data + Framed(rest) == old(out.data) + Framed(message)
      decreases |rest|
    {
      var len := Min(|rest|, MAX_CHUNK);
      var chunk := rest[..len];
      Regroup(out.data, ChunkHeader(len), chunk, Framed(rest[len..]));
      out.Extend(ChunkHeader(len));
      out.Extend(chunk);
      rest := rest[len..];
    }
    out.Extend([0, 0]);
  }

  lemma Regroup(data: seq<u8>, header: seq<u8>, chunk: seq<u8>, rest: seq<u8>)
    ensures data + (header + chunk + rest) == data + header + chunk + rest
  {
  }

  /** A framed message is read back whole, skipped when empty, and refused exactly when it is over the limit. */
  lemma RunFramed(max: nat, sofar: seq<u8>, message: seq<u8>, rest: seq<u8>)
    requires |sofar| <= max
    ensures var whole := sofar + message;
            Run(max, sofar, Framed(message) + rest) ==
            if |whole| > max then Outcome([], true)
            else if whole == [] then Run(max, [], rest)
            else Run(max, [], rest).After([whole])
  {
    var chunks := FramedIsWire(message);
    RunWire(max, sofar, chunks, rest);
  }

  function FramedAll(messages: seq<seq<u8>>): seq<u8> {
    if messages == [] then [] else Framed(messages[0]) + FramedAll(messages[1..])
  }

  /** The nonempty messages in order, up to the first one over the limit. */
  function Delivered(max: nat, messages: seq<seq<u8>>): Outcome {
    if messages == [] then Outcome([], false)
    else if |messages[0]| > max then Outcome([], true)
    else if messages[0] == [] then Delivered(max, messages[1..])
    else Delivered(max, messages[1..]).After([messages[0]])
  }

  lemma {:induction false} FramesDelivered(max: nat, messages: seq<seq<u8>>)
    ensures Run(max, [], FramedAll(messages)) == Delivered(max, messages)
  {
    if messages != [] {
      RunFramed(max, [], messages[0], FramedAll(messages[1..]));
      assert [] + messages[0] == messages[0];
      FramesDelivered(max, messages[1..]);
    }
  }
}
