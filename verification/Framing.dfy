/** Length-prefixed framing of control messages over a byte stream cut into arbitrary chunks. */
module Framing {
  import opened Wrappers
  import opened Bytes

  const PROTOCOL_VERSION := 1

  datatype ProtocolError =
    | FrameTooShort(actual: nat)
    | FrameTooLarge(actual: nat)
    | LengthMismatch(declared: nat, actual: nat)
    | InvalidJson
    | UnsupportedProtocolVersion(version: nat)

  /** The message library: JSON text, and the protocol version some messages carry. */
  datatype Json<!M> = Json(
    write: M -> seq<byte>,
    parse: seq<byte> -> Option<M>,
    version: M -> Option<nat>)

  function Encode<M>(json: Json<M>, m: M): Result<seq<byte>, ProtocolError> {
    var payload := json.write(m);
    if |payload| >= 0x1_0000_0000 then Err(FrameTooLarge(|payload|)) else Ok(ToBE(|payload|, 4) + payload)
  }

  function DecodePayload<M>(json: Json<M>, payload: seq<byte>): Result<M, ProtocolError> {
    var m := json.parse(payload);
    if m.None? then Err(InvalidJson)
    else
      var version := json.version(m.value);
      if version.Some? && version.value != PROTOCOL_VERSION then Err(UnsupportedProtocolVersion(version.value))
      else Ok(m.value)
  }

  function DecodeFrame<M>(json: Json<M>, frame: seq<byte>): Result<M, ProtocolError> {
    if |frame| < 4 then Err(FrameTooShort(|frame|))
    else if FromBE(frame[..4]) != |frame| - 4 then Err(LengthMismatch(FromBE(frame[..4]), |frame| - 4))
    else DecodePayload(json, frame[4..])
  }

  /** The length of the whole frame at the front of the buffer, if all of it has arrived. */
  function FrameLength(buffer: seq<byte>): (n: Option<nat>)
    ensures n.Some? ==> 4 <= n.value <= |buffer|
  {
    if |buffer| < 4 then None
    else if |buffer| < 4 + FromBE(buffer[..4]) then None
    else Some(4 + FromBE(buffer[..4]))
  }

  /** One call of next_message: the new buffer and the answer. */
  function Next<M>(json: Json<M>, buffer: seq<byte>): (seq<byte>, Result<Option<M>, ProtocolError>) {
    var n := FrameLength(buffer);
    if n.None? then (buffer, Ok(None))
    else
      var m := DecodeFrame(json, buffer[..n.value]);
      (buffer[n.value..], if m.Err? then Err(m.error) else Ok(Some(m.value)))
  }

  class FrameAccumulator<M> {
    const json: Json<M>
    var buffer: seq<byte>

    constructor (j: Json<M>)
      ensures buffer == [] && json == j
    {
      json := j;
      buffer := [];
    }

    method Push(bytes: seq<byte>)
      modifies this
      ensures buffer == old(buffer) + bytes
    {
      buffer := buffer + bytes;
    }

    method NextMessage() returns (r: Result<Option<M>, ProtocolError>)
      modifies this
      ensures (buffer, r) == Next(json, old(buffer))
    {
      if |buffer| < 4 {
        return Ok(None);
      }
      var declared := FromBE(buffer[..4]);
      if |buffer| < 4 + declared {
        return Ok(None);
      }
      var frame := buffer[..4 + declared];
      buffer := buffer[4 + declared..];
      var m := DecodeFrame(json, frame);
      if m.Err? {
        return Err(m.error);
      }
      return Ok(Some(m.value));
    }

    method DrainMessages() returns (r: Result<seq<M>, ProtocolError>)
      modifies this
      ensures (buffer, r) == Drain(json, old(buffer))
    {
      var messages: seq<M> := [];
      ghost var whole := Drain(json, buffer);
      PrependNothing(Drain(json, buffer));
      while true
        invariant Prepend(messages, Drain(json, buffer)) == whole
        decreases |buffer|
      {
        ghost var before := buffer;
        var next := NextMessage();
        if next.Err? {
          return Err(next.error);
        }
        if next.value.None? {
          assert messages + [] == messages;
          return Ok(messages);
        }
        PrependTwice(messages, next.value.value, Drain(json, buffer));
        messages := messages + [next.value.value];
      }
    }
  }

  /** The client's framer drops the frame from its buffer before it decodes it. */
  class ControlMessageFramer<M> {
    const json: Json<M>
    var buffer: seq<byte>

    constructor (j: Json<M>)
      ensures buffer == [] && json == j
    {
      json := j;
      buffer := [];
    }

    method Append(data: seq<byte>)
      modifies this
      ensures buffer == old(buffer) + data
    {
      buffer := buffer + data;
    }

    method NextMessage() returns (r: Result<Option<M>, ProtocolError>)
      modifies this
      ensures (buffer, r) == Next(json, old(buffer))
    {
      if !(|buffer| >= 4) {
        return Ok(None);
      }
      var declared: nat := 0;
      for i := 0 to 4
        invariant declared == FromBE(buffer[..i]) && buffer == old(buffer)
      {
        assert buffer[..i + 1][..i] == buffer[..i];
        declared := declared * 256 + buffer[i];
      }
      if !(|buffer| >= 4 + declared) {
        return Ok(None);
      }
      var frame := buffer[..4 + declared];
      buffer := buffer[4 + declared..];
      var m := DecodeFrame(json, frame);
      r := if m.Err? then Err(m.error) else Ok(Some(m.value));
    }

    method Reset()
      modifies this
      ensures buffer == []
    {
      buffer := [];
    }
  }

  // ----- asking for messages until there are none

  datatype Polled<M> = Polled(results: seq<Result<M, ProtocolError>>, leftover: seq<byte>)

  /** Calling next_message until it answers that no whole frame is left. */
  function Poll<M>(json: Json<M>, buffer: seq<byte>): Polled<M>
    decreases |buffer|
  {
    var n := FrameLength(buffer);
    if n.None? then Polled([], buffer)
    else
      var rest := Poll(json, buffer[n.value..]);
      Polled([DecodeFrame(json, buffer[..n.value])] + rest.results, rest.leftover)
  }

  /** The frames cut off the front of a buffer. */
  function Frames(buffer: seq<byte>): seq<seq<byte>>
    decreases |buffer|
  {
    var n := FrameLength(buffer);
    if n.None? then [] else [buffer[..n.value]] + Frames(buffer[n.value..])
  }

  lemma FrameLengthGrows(a: seq<byte>, b: seq<byte>)
    requires FrameLength(a).Some?
    ensures FrameLength(a + b) == FrameLength(a)
    ensures var n := FrameLength(a).value;
            (a + b)[..n] == a[..n] && (a + b)[n..] == a[n..] + b
  {
    assert (a + b)[..4] == a[..4];
  }

  /** Bytes that arrive later continue where polling the earlier ones stopped. */
  lemma {:induction false} PollContinues<M>(json: Json<M>, a: seq<byte>, b: seq<byte>)
    ensures var first := Poll(json, a);
            var second := Poll(json, first.leftover + b);
            Poll(json, a + b) == Polled(first.results + second.results, second.leftover)
    decreases |a|
  {
    if FrameLength(a).None? {
    } else {
      var n := FrameLength(a).value;
      FrameLengthGrows(a, b);
      PollContinues(json, a[n..], b);
      PollFront(json, a);
      PollFront(json, a + b);
      assert a[n..] + b == (a + b)[n..];
      Associative([DecodeFrame(json, a[..n])], Poll(json, a[n..]).results,
                  Poll(json, Poll(json, a).leftover + b).results);
    }
  }

  lemma PollFront<M>(json: Json<M>, a: seq<byte>)
    requires FrameLength(a).Some?
    ensures var n := FrameLength(a).value;
            var rest := Poll(json, a[n..]);
            Poll(json, a) == Polled([DecodeFrame(json, a[..n])] + rest.results, rest.leftover)
  {}

  /** Pushing the chunks one by one, polling until empty after each. */
  function PollChunks<M>(json: Json<M>, buffer: seq<byte>, chunks: seq<seq<byte>>): Polled<M>
    decreases |chunks|
  {
    if |chunks| == 0 then Polled([], buffer)
    else
      var first := Poll(json, buffer + chunks[0]);
      var rest := PollChunks(json, first.leftover, chunks[1..]);
      Polled(first.results + rest.results, rest.leftover)
  }

  lemma {:induction false} LeftoverIsQuiet<M>(json: Json<M>, buffer: seq<byte>)
    ensures FrameLength(Poll(json, buffer).leftover).None?
    decreases |buffer|
  {
    if FrameLength(buffer).None? {
    } else {
      LeftoverIsQuiet(json, buffer[FrameLength(buffer).value..]);
    }
  }

  lemma ChunkStep<M>(json: Json<M>, a: seq<byte>, b: seq<byte>, rest: Polled<M>)
    requires rest == Poll(json, Poll(json, a).leftover + b)
    ensures Poll(json, a + b) == Polled(Poll(json, a).results + rest.results, rest.leftover)
  {
    PollContinues(json, a, b);
  }

  lemma FlattenChunks(buffer: seq<byte>, chunks: seq<seq<byte>>)
    requires |chunks| > 0
    ensures buffer + Flatten(chunks) == buffer + chunks[0] + Flatten(chunks[1..])
  {}

  /**
   * Chunk independence: however the stream is cut, the results come in the same order and the
   * same bytes are left over as if it had been pushed at once.
   */
  lemma {:induction false} ChunkingIsInvisible<M>(json: Json<M>, buffer: seq<byte>, chunks: seq<seq<byte>>)
    requires FrameLength(buffer).None?
    ensures PollChunks(json, buffer, chunks) == Poll(json, buffer + Flatten(chunks))
    decreases |chunks|
  {
    if |chunks| == 0 {
      assert buffer + [] == buffer;
    } else {
      var a := buffer + chunks[0];
      var left := Poll(json, a).leftover;
      LeftoverIsQuiet(json, a);
      ChunkingIsInvisible(json, left, chunks[1..]);
      ChunkStep(json, a, Flatten(chunks[1..]), PollChunks(json, left, chunks[1..]));
      FlattenChunks(buffer, chunks);
    }
  }

  lemma FlattenHead(front: seq<byte>, rest: seq<seq<byte>>, left: seq<byte>, whole: seq<byte>)
    requires Flatten(rest) + left == whole
    ensures Flatten([front] + rest) + left == front + whole
  {
    assert ([front] + rest)[1..] == rest;
    assert (front + Flatten(rest)) + left == front + (Flatten(rest) + left);
  }

  /** The frames and the leftover are the bytes, and nothing else. */
  lemma {:induction false} FramesTile<M>(json: Json<M>, buffer: seq<byte>)
    ensures Flatten(Frames(buffer)) + Poll(json, buffer).leftover == buffer
    decreases |buffer|
  {
    var n := FrameLength(buffer);
    if n.None? {
    } else {
      FramesTile(json, buffer[n.value..]);
      FlattenHead(buffer[..n.value], Frames(buffer[n.value..]), Poll(json, buffer[n.value..]).leftover, buffer[n.value..]);
      SplitAt(buffer, n.value);
    }
  }

  /** Every cut frame passes the inner decoder's own length checks: only its content can be refused. */
  lemma {:induction false} CutFramesAreWhole<M>(json: Json<M>, buffer: seq<byte>, k: nat)
    requires k < |Frames(buffer)|
    ensures k < |Poll(json, buffer).results| && |Frames(buffer)[k]| >= 4
    ensures Poll(json, buffer).results[k] == DecodePayload(json, Frames(buffer)[k][4..])
    decreases |buffer|
  {
    var n := FrameLength(buffer).value;
    assert buffer[..n][..4] == buffer[..4];
    if k == 0 {
    } else {
      CutFramesAreWhole(json, buffer[n..], k - 1);
    }
  }

  // ----- draining

  function Prepend<M>(done: seq<M>, r: (seq<byte>, Result<seq<M>, ProtocolError>)): (seq<byte>, Result<seq<M>, ProtocolError>) {
    (r.0, if r.1.Err? then r.1 else Ok(done + r.1.value))
  }

  lemma PrependNothing<M>(r: (seq<byte>, Result<seq<M>, ProtocolError>))
    ensures Prepend([], r) == r
  {
    if r.1.Ok? {
      assert [] + r.1.value == r.1.value;
    }
  }

  lemma PrependTwice<M>(done: seq<M>, m: M, r: (seq<byte>, Result<seq<M>, ProtocolError>))
    ensures Prepend(done, Prepend([m], r)) == Prepend(done + [m], r)
  {
    if r.1.Ok? {
      assert done + ([m] + r.1.value) == (done + [m]) + r.1.value;
    }
  }

  /** Draining stops at the first frame that fails, and forgets the messages before it. */
  function Drain<M>(json: Json<M>, buffer: seq<byte>): (seq<byte>, Result<seq<M>, ProtocolError>)
    decreases |buffer|
  {
    var n := FrameLength(buffer);
    if n.None? then (buffer, Ok([]))
    else
      var m := DecodeFrame(json, buffer[..n.value]);
      var rest := buffer[n.value..];
      if m.Err? then (rest, Err(m.error)) else Prepend([m.value], Drain(json, rest))
  }

  /** How the drained answer relates to the results that polling gives. */
  ghost predicate DrainedAs<M>(json: Json<M>, p: Polled<M>, left: seq<byte>, r: Result<seq<M>, ProtocolError>) {
    if r.Ok? then
      left == p.leftover && |r.value| == |p.results|
      && forall k | 0 <= k < |p.results| :: p.results[k] == Ok(r.value[k])
    else
      exists k :: FailsAt(json, p, left, r.error, k)
  }

  /** Result k is the first failure, and polling what is left continues behind it. */
  ghost predicate FailsAt<M>(json: Json<M>, p: Polled<M>, left: seq<byte>, e: ProtocolError, k: int) {
    && 0 <= k < |p.results| && p.results[k] == Err(e)
    && (forall j | 0 <= j < k :: p.results[j].Ok?)
    && Poll(json, left) == Polled(p.results[k + 1..], p.leftover)
  }

  lemma DrainBehind<M>(json: Json<M>, m: M, p: Polled<M>, left: seq<byte>, r: Result<seq<M>, ProtocolError>)
    requires DrainedAs(json, p, left, r)
    ensures DrainedAs(json, Polled([Ok(m)] + p.results, p.leftover), left, Prepend([m], (left, r)).1)
  {
    var q := Polled([Ok(m)] + p.results, p.leftover);
    if r.Err? {
      var k :| FailsAt(json, p, left, r.error, k);
      assert q.results[k + 2..] == p.results[k + 1..];
      assert FailsAt(json, q, left, r.error, k + 1);
    }
  }

  /**
   * Draining answers with all the messages polling would find, when none of them fails;
   * otherwise with the first failure, and only the bytes behind that frame remain.
   */
  lemma {:induction false} DrainExact<M>(json: Json<M>, buffer: seq<byte>)
    ensures DrainedAs(json, Poll(json, buffer), Drain(json, buffer).0, Drain(json, buffer).1)
    decreases |buffer|
  {
    if FrameLength(buffer).None? {
    } else {
      var n := FrameLength(buffer).value;
      var m := DecodeFrame(json, buffer[..n]);
      var rest := buffer[n..];
      if m.Ok? {
        DrainExact(json, rest);
        DrainBehind(json, m.value, Poll(json, rest), Drain(json, rest).0, Drain(json, rest).1);
      } else {
        var p := Poll(json, buffer);
        assert p.results[1..] == Poll(json, rest).results;
        assert FailsAt(json, p, rest, m.error, 0);
      }
    }
  }

  predicate AllOk<M>(results: seq<Result<M, ProtocolError>>) {
    forall k | 0 <= k < |results| :: results[k].Ok?
  }

  lemma OkWhenAllOk<M>(json: Json<M>, p: Polled<M>, left: seq<byte>, r: Result<seq<M>, ProtocolError>)
    requires DrainedAs(json, p, left, r)
    ensures r.Ok? <==> AllOk(p.results)
  {
    if r.Err? {
      var k :| FailsAt(json, p, left, r.error, k);
      assert !p.results[k].Ok?;
    }
  }

  /** Draining succeeds exactly when no whole frame in the buffer fails. */
  lemma DrainSucceeds<M>(json: Json<M>, buffer: seq<byte>)
    ensures Drain(json, buffer).1.Ok? <==> AllOk(Poll(json, buffer).results)
  {
    DrainExact(json, buffer);
    OkWhenAllOk(json, Poll(json, buffer), Drain(json, buffer).0, Drain(json, buffer).1);
  }

  // ----- sender to receiver

  function EncodeAll<M>(json: Json<M>, messages: seq<M>): seq<byte> {
    if |messages| == 0 then []
    else (match Encode(json, messages[0]) case Ok(f) => f case Err(_) => []) + EncodeAll(json, messages[1..])
  }

  /** A message the peer's library reads back, of this protocol version, that fits a frame. */
  predicate Sendable<M(==)>(json: Json<M>, m: M) {
    && |json.write(m)| < 0x1_0000_0000 && json.parse(json.write(m)) == Some(m)
    && (json.version(m).None? || json.version(m).value == PROTOCOL_VERSION)
  }

  function Received<M>(messages: seq<M>): seq<Result<M, ProtocolError>> {
    if |messages| == 0 then [] else [Ok(messages[0])] + Received(messages[1..])
  }

  /** A frame is the payload behind its length, most significant byte first; only longer payloads are refused. */
  lemma FrameLayout<M>(json: Json<M>, m: M)
    ensures var n := |json.write(m)|;
            && (Encode(json, m).Ok? <==> n < 0x1_0000_0000)
            && (n < 0x1_0000_0000 ==>
                  var f := Encode(json, m).value;
                  && |f| == 4 + n && f[4..] == json.write(m)
                  && f[0] as int * 0x100_0000 + f[1] as int * 0x1_0000 + f[2] as int * 0x100 + f[3] == n)
            && (n >= 0x1_0000_0000 ==> Encode(json, m) == Err(FrameTooLarge(n)))
  {
    var n := |json.write(m)|;
    if n < 0x1_0000_0000 {
      FieldWidths();
      FromToBE(n, 4);
      FourByteValue(ToBE(n, 4));
      Parts(ToBE(n, 4), json.write(m), []);
      assert ToBE(n, 4) + json.write(m) + [] == ToBE(n, 4) + json.write(m);
    }
  }

  lemma FourByteValue(f: seq<byte>)
    requires |f| == 4
    ensures FromBE(f) == f[0] as int * 0x100_0000 + f[1] as int * 0x1_0000 + f[2] as int * 0x100 + f[3]
  {
    assert f[..3][..2] == f[..2] && f[..2][..1] == f[..1] && f[..1][..0] == [];
    assert FromBE(f[..1]) == f[0] as int && FromBE(f[..2]) == f[0] as int * 256 + f[1];
    assert FromBE(f[..3]) == (f[0] as int * 256 + f[1]) * 256 + f[2];
  }

  /** A message that is refused for its content, in front of other bytes: its frame is gone, the rest is polled. */
  lemma RefusedFrame<M>(json: Json<M>, m: M, rest: seq<byte>)
    requires |json.write(m)| < 0x1_0000_0000
    ensures var p := Poll(json, Encode(json, m).value + rest);
            var q := Poll(json, rest);
            && |p.results| > 0 && p.results[1..] == q.results && p.leftover == q.leftover
            && (json.parse(json.write(m)) == Some(m) ==>
                  && (json.version(m).Some? && json.version(m).value != 1 ==>
                        p.results[0] == Err(UnsupportedProtocolVersion(json.version(m).value)))
                  && (json.version(m).None? || json.version(m).value == 1 ==> p.results[0] == Ok(m)))
            && (json.parse(json.write(m)).None? ==> p.results[0] == Err(InvalidJson))
  {
    FrameFront(json, m, rest);
    PollFront(json, Encode(json, m).value + rest);
  }

  /** Encoded messages, cut into any chunks, are received as sent, with nothing left over. */
  lemma MessagesArrive<M>(json: Json<M>, messages: seq<M>, chunks: seq<seq<byte>>)
    requires forall i | 0 <= i < |messages| :: Sendable(json, messages[i])
    requires Flatten(chunks) == EncodeAll(json, messages)
    ensures PollChunks(json, [], chunks)
         == Polled(Received(messages), [])
  {
    ChunkingIsInvisible(json, [], chunks);
    assert [] + Flatten(chunks) == Flatten(chunks);
    PollOfEncoded(json, messages);
  }

  lemma {:induction false} PollOfEncoded<M>(json: Json<M>, messages: seq<M>)
    requires forall i | 0 <= i < |messages| :: Sendable(json, messages[i])
    ensures Poll(json, EncodeAll(json, messages))
         == Polled(Received(messages), [])
  {
    if |messages| == 0 {
    } else {
      EncodedFront(json, messages[0], EncodeAll(json, messages[1..]));
      PollOfEncoded(json, messages[1..]);
    }
  }

  /** The frame of a message, in front of other bytes. */
  lemma EncodedFront<M>(json: Json<M>, m: M, rest: seq<byte>)
    requires Sendable(json, m)
    ensures var frame := Encode(json, m).value;
            var all := frame + rest;
            && FrameLength(all) == Some(|frame|) && all[..|frame|] == frame && all[|frame|..] == rest
            && DecodeFrame(json, frame) == Ok(m)
  {
    FrameFront(json, m, rest);
  }

  lemma FrameFront<M>(json: Json<M>, m: M, rest: seq<byte>)
    requires |json.write(m)| < 0x1_0000_0000
    ensures var frame := Encode(json, m).value;
            var all := frame + rest;
            && FrameLength(all) == Some(|frame|) && all[..|frame|] == frame && all[|frame|..] == rest
            && DecodeFrame(json, frame) == DecodePayload(json, json.write(m))
  {
    var payload := json.write(m);
    FieldWidths();
    FromToBE(|payload|, 4);
    Parts(ToBE(|payload|, 4), payload, rest);
    Parts(ToBE(|payload|, 4), payload, []);
    assert ToBE(|payload|, 4) + payload + [] == ToBE(|payload|, 4) + payload;
  }
}
