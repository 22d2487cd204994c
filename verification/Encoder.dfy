/** The hardware encoder's event protocol: pulling output only when the transform announced it. */
module Encoder {
  import opened Wrappers
  import opened Bytes
  import opened SequenceHeader
  import opened AccessUnits

  datatype EncodeError = SizeMismatch | NoTexture | Timeout | Bitstream | Platform

  datatype AccessUnit = AccessUnit(data: seq<byte>, keyframe: bool, pts: i64, duration: i64)

  /** What the transform hands out; absent times read as a default. */
  datatype Sample = Sample(payload: seq<byte>, keyframe: bool, pts: Option<i64>, duration: Option<i64>)

  // ----- what the transform may answer to each call

  datatype EventKind = NeedInput | HaveOutput | DrainComplete | OtherEvent

  datatype EventAnswer =
    | NoEvents(late: bool)
    | Event(kind: EventKind)
    | TypeUnreadable
    | EventFailed

  datatype InputAnswer = Accepted | NotAccepting | InputFailed

  datatype OutputAnswer =
    | NeedMoreInput
    | StreamChange(config: Option<seq<byte>>)
    | OutputFailed
    | NoSample
    | Unreadable
    | Produced(sample: Sample)

  /** One call into the transform. */
  datatype Entry =
    | Received(kind: EventKind)
    | Submitted(pts: i64, accepted: bool)
    | Pulled(answer: OutputAnswer, result: Result<Option<AccessUnit>, EncodeError>)

  /**
   * The answers still to come, one list for each kind of call. A list that has run out answers
   * with failures, so every prefix of an unbounded exchange is covered.
   */
  datatype Script = Script(events: seq<EventAnswer>, inputs: seq<InputAnswer>, outputs: seq<Option<OutputAnswer>>)

  /** A captured frame, and the errors of turning its texture into a sample, if any. */
  datatype Frame = Frame(sizeMatches: bool, hasTexture: bool, conversion: Option<EncodeError>, sampling: Option<EncodeError>)

  const GOOD_FRAME := Frame(true, true, None, None)

  /** What keeps the frame from becoming a sample. */
  function Unprepared(frame: Frame): Option<EncodeError> {
    if !frame.hasTexture then Some(NoTexture)
    else if frame.conversion.Some? then frame.conversion
    else frame.sampling
  }

  datatype State = State(
    generator: bool,
    frameDuration: i64,
    nextPts: i64,
    header: Header,
    outputPending: bool,
    inputNeeded: bool,
    script: Script,
    log: seq<Entry>)

  function Start(generator: bool, frameDuration: i64, header: Header, script: Script): State {
    State(generator, frameDuration, 0, header, false, true, script, [])
  }

  type Units = Result<seq<AccessUnit>, EncodeError>

  function Remaining(s: State): nat {
    |s.script.events| + |s.script.inputs| + |s.script.outputs|
  }

  // ----- single calls

  function GetEvent(s: State): (r: (State, EventAnswer))
    ensures r.1.NoEvents? || r.1.Event? ==> Remaining(r.0) < Remaining(s)
    ensures Remaining(r.0) <= Remaining(s)
  {
    if |s.script.events| == 0 then (s, EventFailed)
    else
      var a := s.script.events[0];
      var t := s.(script := s.script.(events := s.script.events[1..]));
      (if a.Event? then t.(log := t.log + [Received(a.kind)]) else t, a)
  }

  function Submit(s: State, pts: i64): (r: (State, InputAnswer))
    ensures r.1.NotAccepting? ==> Remaining(r.0) < Remaining(s)
    ensures Remaining(r.0) <= Remaining(s)
  {
    var a := if |s.script.inputs| == 0 then InputFailed else s.script.inputs[0];
    var rest := if |s.script.inputs| == 0 then [] else s.script.inputs[1..];
    (s.(script := s.script.(inputs := rest), log := s.log + [Submitted(pts, a.Accepted?)]), a)
  }

  function Outcome(header: Header, frameDuration: i64, a: OutputAnswer): Result<Option<AccessUnit>, EncodeError> {
    match a
    case NeedMoreInput => Ok(None)
    case StreamChange(config) =>
      if config.None? || SequenceHeaderToAnnexB(config.value).Err? then Err(Bitstream) else Ok(None)
    case OutputFailed => Err(Platform)
    case NoSample => Ok(None)
    case Unreadable => Err(Platform)
    case Produced(sample) =>
      if sample.payload == [] then Ok(None)
      else
        var data := AssembleUnit(sample.payload, Some(header.annexB), Some(header.nalLengthSize), sample.keyframe);
        if data.Err? then Err(Bitstream)
        else Ok(Some(AccessUnit(data.value, sample.keyframe,
                                if sample.pts.Some? then sample.pts.value else 0,
                                if sample.duration.Some? then sample.duration.value else frameDuration)))
  }

  function HeaderAfter(header: Header, a: OutputAnswer): Header {
    if a.StreamChange? && a.config.Some? && SequenceHeaderToAnnexB(a.config.value).Ok?
    then SequenceHeaderToAnnexB(a.config.value).value else header
  }

  /** One call of process_output_once; without an output buffer the transform is not asked. */
  function ProcessOutput(s: State): (r: (State, Result<Option<AccessUnit>, EncodeError>))
    ensures r.1.Ok? ==> Remaining(r.0) < Remaining(s)
    ensures Remaining(r.0) <= Remaining(s)
  {
    if |s.script.outputs| == 0 then (s, Err(Platform))
    else
      var t := s.(script := s.script.(outputs := s.script.outputs[1..]));
      if s.script.outputs[0].None? then (t, Err(Platform))
      else
        var a := s.script.outputs[0].value;
        var r := Outcome(s.header, s.frameDuration, a);
        (t.(log := t.log + [Pulled(a, r)],
            inputNeeded := t.inputNeeded || a.NeedMoreInput?,
            header := HeaderAfter(t.header, a)), r)
  }

  // ----- the loops

  function Note(s: State, kind: EventKind): State {
    if kind.NeedInput? then s.(inputNeeded := true)
    else if kind.HaveOutput? then s.(outputPending := true)
    else s
  }

  function PumpEvents(s: State): (r: (State, Option<EncodeError>))
    ensures Remaining(r.0) <= Remaining(s)
    decreases Remaining(s)
  {
    var (t, a) := GetEvent(s);
    match a
    case NoEvents(_) => (t, None)
    case Event(kind) => PumpEvents(Note(t, kind))
    case _ => (t, Some(Platform))
  }

  function Pump(s: State): (r: (State, Option<EncodeError>))
    ensures Remaining(r.0) <= Remaining(s)
  {
    if s.generator then PumpEvents(s) else (s.(inputNeeded := true), None)
  }

  function WaitLoop(s: State): (r: (State, Option<EncodeError>))
    ensures Remaining(r.0) <= Remaining(s)
    decreases Remaining(s)
  {
    var (t, a) := GetEvent(s);
    match a
    case NoEvents(late) => if late then (t, Some(Timeout)) else WaitLoop(t)
    case Event(kind) => if kind.HaveOutput? then (Note(t, kind), None) else WaitLoop(Note(t, kind))
    case _ => (t, Some(Platform))
  }

  function Wait(s: State): (r: (State, Option<EncodeError>))
    ensures Remaining(r.0) <= Remaining(s)
  {
    if !s.generator || s.outputPending then (s, None) else WaitLoop(s)
  }

  function Prepend(units: seq<AccessUnit>, r: (State, Units)): (State, Units) {
    (r.0, if r.1.Err? then r.1 else Ok(units + r.1.value))
  }

  function Drain(s: State): (r: (State, Units))
    ensures Remaining(r.0) <= Remaining(s)
    decreases Remaining(s)
  {
    var (p, e) := Pump(s);
    if e.Some? then (p, Err(e.value))
    else if p.generator && !p.outputPending then (p, Ok([]))
    else
      var (t, r) := ProcessOutput(p);
      match r
      case Err(error) => (t, Err(error))
      case Ok(None) => (t.(outputPending := false), Ok([]))
      case Ok(Some(unit)) => Prepend([unit], Drain(t.(outputPending := false)))
  }

  /** Offering one sample until the transform takes it, draining whenever it does not. */
  function Offer(s: State, pts: i64): (r: (State, Units))
    ensures Remaining(r.0) <= Remaining(s)
    decreases Remaining(s)
  {
    var (t, a) := Submit(s, pts);
    match a
    case Accepted => (t.(inputNeeded := false), Ok([]))
    case InputFailed => (t, Err(Platform))
    case NotAccepting =>
      var (w, e) := Wait(t);
      if e.Some? then (w, Err(e.value))
      else
        var (d, drained) := Drain(w);
        if drained.Err? then (d, drained)
        else if drained.value == [] then (d, Err(Platform))
        else Prepend(drained.value, Offer(d, pts))
  }

  function SaturatingAdd(a: i64, b: i64): i64 {
    var sum := a + b;
    if sum > 0x7FFF_FFFF_FFFF_FFFF then 0x7FFF_FFFF_FFFF_FFFF
    else if sum < -0x8000_0000_0000_0000 then -0x8000_0000_0000_0000
    else sum
  }

  function Encode(s: State, frame: Frame): (State, Units) {
    if !frame.sizeMatches then (s, Err(SizeMismatch))
    else
      var (p, e) := Pump(s);
      if e.Some? then (p, Err(e.value))
      else if Unprepared(frame).Some? then (p, Err(Unprepared(frame).value))
      else
        var (t, offered) := Offer(p.(nextPts := SaturatingAdd(p.nextPts, p.frameDuration)), p.nextPts);
        if offered.Err? then (t, offered) else Prepend(offered.value, Drain(t))
  }

  function FlushAsync(s: State): (r: (State, Units))
    ensures Remaining(r.0) <= Remaining(s)
    decreases Remaining(s)
  {
    var (t, a) := GetEvent(s);
    match a
    case NoEvents(late) => if late then (t, Ok([])) else FlushAsync(t)
    case EventFailed => (t, Ok([]))
    case TypeUnreadable => (t, Err(Platform))
    case Event(kind) =>
      if kind.DrainComplete? then (t, Ok([]))
      else if !kind.HaveOutput? then FlushAsync(t)
      else
        var (p, r) := ProcessOutput(t.(outputPending := true));
        match r
        case Err(error) => (p, Err(error))
        case Ok(None) => FlushAsync(p.(outputPending := false))
        case Ok(Some(unit)) => Prepend([unit], FlushAsync(p.(outputPending := false)))
  }

  function FlushSync(s: State): (r: (State, Units))
    ensures Remaining(r.0) <= Remaining(s)
    decreases Remaining(s)
  {
    var (t, r) := ProcessOutput(s);
    match r
    case Err(error) => (t, Err(error))
    case Ok(None) => (t, Ok([]))
    case Ok(Some(unit)) => Prepend([unit], FlushSync(t))
  }

  function Flush(s: State, notified: bool): (State, Units) {
    if !notified then (s, Err(Platform))
    else if s.generator then FlushAsync(s) else FlushSync(s)
  }

  lemma PrependNothing(r: (State, Units))
    ensures Prepend([], r) == r
  {
    if r.1.Ok? {
      assert [] + r.1.value == r.1.value;
    }
  }

  lemma PrependTwice(a: seq<AccessUnit>, b: seq<AccessUnit>, r: (State, Units))
    ensures Prepend(a, Prepend(b, r)) == Prepend(a + b, r)
  {
    if r.1.Ok? {
      assert a + (b + r.1.value) == (a + b) + r.1.value;
    }
  }

  lemma PrependToNothing(a: seq<AccessUnit>, s: State)
    ensures Prepend(a, (s, Ok([]))) == (s, Ok(a))
  {
    assert a + [] == a;
  }

  // ----- the encoder

  class MfH264Encoder {
    const generator: bool
    const frameDuration: i64
    var nextPts: i64
    var header: Header
    var outputPending: bool
    var inputNeeded: bool
    var script: Script
    var log: seq<Entry>

    function Abstract(): State
      reads this
    {
      State(generator, frameDuration, nextPts, header, outputPending, inputNeeded, script, log)
    }

    constructor (async: bool, duration: i64, h: Header, answers: Script)
      ensures Abstract() == Start(async, duration, h, answers)
    {
      generator, frameDuration, nextPts, header := async, duration, 0, h;
      outputPending, inputNeeded := false, true;
      script, log := answers, [];
    }

    method NextEvent() returns (a: EventAnswer)
      modifies this
      ensures (Abstract(), a) == GetEvent(old(Abstract()))
    {
      if |script.events| == 0 {
        return EventFailed;
      }
      a := script.events[0];
      script := script.(events := script.events[1..]);
      if a.Event? {
        log := log + [Received(a.kind)];
      }
    }

    method SubmitSample(pts: i64) returns (a: InputAnswer)
      modifies this
      ensures (Abstract(), a) == Submit(old(Abstract()), pts)
    {
      a := if |script.inputs| == 0 then InputFailed else script.inputs[0];
      script := script.(inputs := if |script.inputs| == 0 then [] else script.inputs[1..]);
      log := log + [Submitted(pts, a.Accepted?)];
    }

    method PumpAvailableEvents() returns (e: Option<EncodeError>)
      modifies this
      ensures (Abstract(), e) == Pump(old(Abstract()))
    {
      if !generator {
        inputNeeded := true;
        return None;
      }
      while true
        invariant PumpEvents(Abstract()) == PumpEvents(old(Abstract()))
        decreases Remaining(Abstract())
      {
        var a := NextEvent();
        match a
        case NoEvents(_) =>
          return None;
        case Event(kind) =>
          if kind.NeedInput? {
            inputNeeded := true;
          } else if kind.HaveOutput? {
            outputPending := true;
          }
        case _ =>
          return Some(Platform);
      }
    }

    method WaitForOutputEvent() returns (e: Option<EncodeError>)
      modifies this
      ensures (Abstract(), e) == Wait(old(Abstract()))
    {
      if !generator || outputPending {
        return None;
      }
      while true
        invariant WaitLoop(Abstract()) == WaitLoop(old(Abstract()))
        decreases Remaining(Abstract())
      {
        var a := NextEvent();
        match a
        case NoEvents(late) =>
          if late {
            return Some(Timeout);
          }
        case Event(kind) =>
          if kind.HaveOutput? {
            outputPending := true;
            return None;
          } else if kind.NeedInput? {
            inputNeeded := true;
          }
        case _ =>
          return Some(Platform);
      }
    }

    method ProcessOutputOnce() returns (r: Result<Option<AccessUnit>, EncodeError>)
      modifies this
      ensures (Abstract(), r) == ProcessOutput(old(Abstract()))
    {
      if |script.outputs| == 0 {
        return Err(Platform);
      }
      var answer := script.outputs[0];
      script := script.(outputs := script.outputs[1..]);
      if answer.None? {
        return Err(Platform);
      }
      r := Ok(None);
      match answer.value {
        case NeedMoreInput =>
          inputNeeded := true;
        case StreamChange(config) =>
          if config.None? {
            r := Err(Bitstream);
          } else {
            var h := H264SequenceHeaderToAnnexB(config.value);
            if h.Err? {
              r := Err(Bitstream);
            } else {
              header := h.value;
            }
          }
        case OutputFailed =>
          r := Err(Platform);
        case NoSample =>
        case Unreadable =>
          r := Err(Platform);
        case Produced(sample) =>
          if sample.payload != [] {
            var pts := if sample.pts.Some? then sample.pts.value else 0;
            var duration := if sample.duration.Some? then sample.duration.value else frameDuration;
            var data := AssembleAnnexBAccessUnit(
              sample.payload, Some(header.annexB), Some(header.nalLengthSize), sample.keyframe);
            r := if data.Err? then Err(Bitstream)
                 else Ok(Some(AccessUnit(data.value, sample.keyframe, pts, duration)));
          }
      }
      log := log + [Pulled(answer.value, r)];
    }

    method DrainAvailableOutput() returns (r: Units)
      modifies this
      ensures (Abstract(), r) == Drain(old(Abstract()))
    {
      var encoded: seq<AccessUnit> := [];
      PrependNothing(Drain(Abstract()));
      while true
        invariant Prepend(encoded, Drain(Abstract())) == Drain(old(Abstract()))
        decreases Remaining(Abstract())
      {
        var e := PumpAvailableEvents();
        if e.Some? {
          return Err(e.value);
        }
        PrependToNothing(encoded, Abstract());
        if generator && !outputPending {
          return Ok(encoded);
        }
        var next := ProcessOutputOnce();
        if next.Err? {
          return Err(next.error);
        }
        outputPending := false;
        match next.value
        case Some(unit) =>
          PrependTwice(encoded, [unit], Drain(Abstract()));
          encoded := encoded + [unit];
        case None =>
          PrependToNothing(encoded, Abstract());
          return Ok(encoded);
      }
    }

    method EncodeFrame(frame: Frame) returns (r: Units)
      modifies this
      ensures (Abstract(), r) == Encode(old(Abstract()), frame)
    {
      if !frame.sizeMatches {
        return Err(SizeMismatch);
      }
      var e := PumpAvailableEvents();
      if e.Some? {
        return Err(e.value);
      }
      if !frame.hasTexture {
        return Err(NoTexture);
      }
      if frame.conversion.Some? {
        return Err(frame.conversion.value);
      }
      if frame.sampling.Some? {
        return Err(frame.sampling.value);
      }
      var pts := nextPts;
      nextPts := SaturatingAdd(nextPts, frameDuration);
      r := OfferSample(pts);
      if r.Err? {
        return;
      }
      var drained := DrainAvailableOutput();
      r := if drained.Err? then drained else Ok(r.value + drained.value);
    }

    /** The part of encode that submits the sample. */
    method OfferSample(pts: i64) returns (r: Units)
      modifies this
      ensures (Abstract(), r) == Offer(old(Abstract()), pts)
    {
      var encoded: seq<AccessUnit> := [];
      PrependNothing(Offer(Abstract(), pts));
      while true
        invariant Prepend(encoded, Offer(Abstract(), pts)) == Offer(old(Abstract()), pts)
        decreases Remaining(Abstract())
      {
        var a := SubmitSample(pts);
        match a
        case Accepted =>
          inputNeeded := false;
          PrependToNothing(encoded, Abstract());
          return Ok(encoded);
        case NotAccepting =>
          var e := WaitForOutputEvent();
          if e.Some? {
            return Err(e.value);
          }
          var drained := DrainAvailableOutput();
          if drained.Err? {
            return drained;
          }
          if drained.value == [] {
            return Err(Platform);
          }
          PrependTwice(encoded, drained.value, Offer(Abstract(), pts));
          encoded := encoded + drained.value;
        case InputFailed =>
          return Err(Platform);
      }
    }

    method FlushEncoder(notified: bool) returns (r: Units)
      modifies this
      ensures (Abstract(), r) == Flush(old(Abstract()), notified)
    {
      if !notified {
        return Err(Platform);
      }
      if generator {
        r := FlushUntilDrained();
      } else {
        r := FlushUntilEmpty();
      }
    }

    /** flush_async. */
    method FlushUntilDrained() returns (r: Units)
      modifies this
      ensures (Abstract(), r) == FlushAsync(old(Abstract()))
    {
      var encoded: seq<AccessUnit> := [];
      PrependNothing(FlushAsync(Abstract()));
      while true
        invariant Prepend(encoded, FlushAsync(Abstract())) == FlushAsync(old(Abstract()))
        decreases Remaining(Abstract())
      {
        var a := NextEvent();
        PrependToNothing(encoded, Abstract());
        match a
        case NoEvents(late) =>
          if late {
            return Ok(encoded);
          }
        case EventFailed =>
          return Ok(encoded);
        case TypeUnreadable =>
          return Err(Platform);
        case Event(kind) =>
          if kind.HaveOutput? {
            outputPending := true;
            var next := ProcessOutputOnce();
            if next.Err? {
              return Err(next.error);
            }
            outputPending := false;
            if next.value.Some? {
              PrependTwice(encoded, [next.value.value], FlushAsync(Abstract()));
              encoded := encoded + [next.value.value];
            }
          } else if kind.DrainComplete? {
            return Ok(encoded);
          }
      }
    }

    /** flush_sync. */
    method FlushUntilEmpty() returns (r: Units)
      modifies this
      ensures (Abstract(), r) == FlushSync(old(Abstract()))
    {
      var encoded: seq<AccessUnit> := [];
      PrependNothing(FlushSync(Abstract()));
      while true
        invariant Prepend(encoded, FlushSync(Abstract())) == FlushSync(old(Abstract()))
        decreases Remaining(Abstract())
      {
        var next := ProcessOutputOnce();
        if next.Err? {
          return Err(next.error);
        }
        if next.value.None? {
          PrependToNothing(encoded, Abstract());
          return Ok(encoded);
        }
        PrependTwice(encoded, [next.value.value], FlushSync(Abstract()));
        encoded := encoded + [next.value.value];
      }
    }
  }
}
