/** What the encoder keeps over any run of calls, whatever the transform answers. */
module EncoderRuns {
  import opened Wrappers
  import opened Bytes
  import opened SequenceHeader
  import opened Encoder

  const LAST_PTS: i64 := 0x7FFF_FFFF_FFFF_FFFF

  // ----- what the log records

  function Haves(log: seq<Entry>): nat {
    if |log| == 0 then 0
    else Haves(log[..|log| - 1]) + if log[|log| - 1] == Received(HaveOutput) then 1 else 0
  }

  function Pulls(log: seq<Entry>): nat {
    if |log| == 0 then 0
    else Pulls(log[..|log| - 1]) + if log[|log| - 1].Pulled? then 1 else 0
  }

  /** Calls into the transform for output whose answer was an error, or could not be used. */
  function Failures(log: seq<Entry>): nat {
    if |log| == 0 then 0
    else Failures(log[..|log| - 1]) + if log[|log| - 1].Pulled? && log[|log| - 1].result.Err? then 1 else 0
  }

  function UnitOf(e: Entry): seq<AccessUnit> {
    if e.Pulled? && e.result.Ok? && e.result.value.Some? then [e.result.value.value] else []
  }

  /** The access units the transform produced. */
  function UnitsOf(log: seq<Entry>): seq<AccessUnit> {
    if |log| == 0 then [] else UnitsOf(log[..|log| - 1]) + UnitOf(log[|log| - 1])
  }

  predicate IsAccepted(e: Entry) {
    e.Submitted? && e.accepted
  }

  function Accepts(log: seq<Entry>): nat {
    if |log| == 0 then 0
    else Accepts(log[..|log| - 1]) + if IsAccepted(log[|log| - 1]) then 1 else 0
  }

  function LastAccepted(log: seq<Entry>): Option<i64> {
    if |log| == 0 then None
    else if IsAccepted(log[|log| - 1]) then Some(log[|log| - 1].pts)
    else LastAccepted(log[..|log| - 1])
  }

  /** The sequence header in force, after the stream changes so far. */
  function HeaderAt(h: Header, log: seq<Entry>): Header {
    if |log| == 0 then h
    else
      var before := HeaderAt(h, log[..|log| - 1]);
      if log[|log| - 1].Pulled? then HeaderAfter(before, log[|log| - 1].answer) else before
  }

  lemma Appended(log: seq<Entry>, e: Entry)
    ensures (log + [e])[..|log + [e]| - 1] == log
  {}

  // ----- the output credit

  /** Every call for output was announced by an event of its own, or follows a failed one. */
  predicate Covered(log: seq<Entry>) {
    |log| == 0 ||
    (var front := log[..|log| - 1];
     && Covered(front)
     && (log[|log| - 1].Pulled? ==> Pulls(front) < Haves(front) + Failures(front)))
  }

  predicate Sound(s: State) {
    && s.generator && Covered(s.log)
    && Pulls(s.log) + (if s.outputPending then 1 else 0) <= Haves(s.log) + Failures(s.log)
  }

  lemma GetEventSound(s: State)
    requires Sound(s)
    ensures var (t, a) := GetEvent(s);
            Sound(t) && (a.Event? ==> Sound(Note(t, a.kind)))
            && (a.Event? && a.kind.HaveOutput? ==> Sound(t.(outputPending := true)))
  {
    var (t, a) := GetEvent(s);
    if a.Event? {
      Appended(s.log, Received(a.kind));
    }
  }

  lemma {:induction false} PumpSound(s: State)
    requires Sound(s)
    ensures Sound(PumpEvents(s).0)
    decreases Remaining(s)
  {
    GetEventSound(s);
    var (t, a) := GetEvent(s);
    if a.Event? {
      PumpSound(Note(t, a.kind));
    }
  }

  lemma {:induction false} WaitSound(s: State)
    requires Sound(s)
    ensures Sound(WaitLoop(s).0)
    decreases Remaining(s)
  {
    GetEventSound(s);
    var (t, a) := GetEvent(s);
    if a.Event? && !a.kind.HaveOutput? {
      WaitSound(Note(t, a.kind));
    } else if a.NoEvents? && !a.late {
      WaitSound(t);
    }
  }

  lemma SubmitSound(s: State, pts: i64)
    requires Sound(s)
    ensures Sound(Submit(s, pts).0)
  {
    var (t, a) := Submit(s, pts);
    Appended(s.log, Submitted(pts, a.Accepted?));
  }

  lemma PulledSound(s: State, t: State, e: Entry)
    requires Sound(s) && s.outputPending && e.Pulled?
    requires t.generator && t.outputPending && t.log == s.log + [e]
    ensures if e.result.Ok? then Sound(t.(outputPending := false)) else Sound(t)
  {
    Appended(s.log, e);
  }

  lemma ProcessOutputSound(s: State)
    requires Sound(s) && s.outputPending
    ensures var (t, r) := ProcessOutput(s);
            if r.Ok? then Sound(t.(outputPending := false)) else Sound(t)
  {
    var (t, r) := ProcessOutput(s);
    if |t.log| > |s.log| {
      PulledSound(s, t, t.log[|s.log|]);
    }
  }

  lemma {:induction false} DrainSound(s: State)
    requires Sound(s)
    ensures Sound(Drain(s).0) && (Drain(s).1.Ok? ==> !Drain(s).0.outputPending)
    decreases Remaining(s)
  {
    PumpSound(s);
    var (p, e) := Pump(s);
    if e.None? && p.outputPending {
      ProcessOutputSound(p);
      var (t, r) := ProcessOutput(p);
      if r.Ok? && r.value.Some? {
        DrainSound(t.(outputPending := false));
      }
    }
  }

  lemma {:induction false} OfferSound(s: State, pts: i64)
    requires Sound(s)
    ensures Sound(Offer(s, pts).0)
    decreases Remaining(s)
  {
    SubmitSound(s, pts);
    var (t, a) := Submit(s, pts);
    if a.NotAccepting? {
      WaitSound(t);
      var (w, e) := Wait(t);
      if e.None? {
        DrainSound(w);
        var (d, drained) := Drain(w);
        if drained.Ok? && drained.value != [] {
          OfferSound(d, pts);
        }
      }
    }
  }

  lemma EncodeSound(s: State, frame: Frame)
    requires Sound(s)
    ensures Sound(Encode(s, frame).0)
    ensures Encode(s, frame).1.Ok? ==> !Encode(s, frame).0.outputPending
  {
    PumpSound(s);
    var (p, e) := Pump(s);
    if e.None? {
      var q := p.(nextPts := SaturatingAdd(p.nextPts, p.frameDuration));
      OfferSound(q, p.nextPts);
      DrainSound(Offer(q, p.nextPts).0);
    }
  }

  lemma {:induction false} FlushSound(s: State)
    requires Sound(s)
    ensures Sound(FlushAsync(s).0)
    ensures FlushAsync(s).1.Ok? && !s.outputPending ==> !FlushAsync(s).0.outputPending
    decreases Remaining(s)
  {
    GetEventSound(s);
    var (t, a) := GetEvent(s);
    if a.NoEvents? && !a.late {
      FlushSound(t);
    } else if a.Event? && a.kind.HaveOutput? {
      var q := t.(outputPending := true);
      ProcessOutputSound(q);
      var (p, r) := ProcessOutput(q);
      if r.Ok? {
        FlushSound(p.(outputPending := false));
      }
    } else if a.Event? && !a.kind.DrainComplete? {
      FlushSound(t);
    }
  }

  // ----- what a call returns

  /** Every answer was turned into a result with the sequence header in force at that moment. */
  predicate Explained(h: Header, duration: i64, log: seq<Entry>) {
    |log| == 0 ||
    (var front, e := log[..|log| - 1], log[|log| - 1];
     && Explained(h, duration, front)
     && (e.Pulled? ==> e.result == Outcome(HeaderAt(h, front), duration, e.answer)))
  }

  /** The encoder holds the header in force, starting from h. */
  predicate Faithful(h: Header, s: State) {
    s.header == HeaderAt(h, s.log) && Explained(h, s.frameDuration, s.log)
  }

  /**
   * From s to t: a call that succeeded returns, in order, exactly what the transform produced
   * meanwhile, and no call for output failed; a call that failed forgets what it had.
   */
  predicate Accounted(h: Header, s: State, t: State, units: Units) {
    && t.generator == s.generator && t.frameDuration == s.frameDuration && (Faithful(h, s) ==> Faithful(h, t))
    && (units.Ok? ==> UnitsOf(t.log) == UnitsOf(s.log) + units.value && Failures(t.log) == Failures(s.log))
    && UnitsOf(s.log) <= UnitsOf(t.log)
  }

  /** Nothing was produced and no call for output failed. */
  predicate Quiet(h: Header, s: State, t: State) {
    && t.generator == s.generator && t.frameDuration == s.frameDuration && (Faithful(h, s) ==> Faithful(h, t))
    && UnitsOf(t.log) == UnitsOf(s.log) && Failures(t.log) == Failures(s.log)
  }

  lemma QuietQuiet(h: Header, a: State, b: State, c: State)
    requires Quiet(h, a, b) && Quiet(h, b, c)
    ensures Quiet(h, a, c)
  {}

  /** An event leaves what was produced, and why, as it is. */
  lemma EventQuiet(h: Header, s: State, t: State, kind: EventKind)
    requires t == s.(script := t.script, log := s.log + [Received(kind)])
    ensures Quiet(h, s, t)
  {
    Appended(s.log, Received(kind));
  }

  lemma GetEventQuiet(h: Header, s: State)
    ensures var (t, a) := GetEvent(s);
            Quiet(h, s, t) && (a.Event? ==> Quiet(h, s, Note(t, a.kind)))
  {
    var (t, a) := GetEvent(s);
    if a.Event? {
      EventQuiet(h, s, t, a.kind);
    }
  }

  lemma {:induction false} PumpQuiet(h: Header, s: State)
    ensures Quiet(h, s, PumpEvents(s).0)
    decreases Remaining(s)
  {
    GetEventQuiet(h, s);
    var (t, a) := GetEvent(s);
    if a.Event? {
      PumpQuiet(h, Note(t, a.kind));
      QuietQuiet(h, s, Note(t, a.kind), PumpEvents(s).0);
    }
  }

  lemma {:induction false} WaitQuiet(h: Header, s: State)
    ensures Quiet(h, s, WaitLoop(s).0)
    decreases Remaining(s)
  {
    GetEventQuiet(h, s);
    var (t, a) := GetEvent(s);
    if a.Event? && !a.kind.HaveOutput? {
      WaitQuiet(h, Note(t, a.kind));
      QuietQuiet(h, s, Note(t, a.kind), WaitLoop(s).0);
    } else if a.NoEvents? && !a.late {
      WaitQuiet(h, t);
      QuietQuiet(h, s, t, WaitLoop(s).0);
    }
  }

  lemma SubmitQuiet(h: Header, s: State, pts: i64)
    ensures Quiet(h, s, Submit(s, pts).0)
  {
    var (t, a) := Submit(s, pts);
    Appended(s.log, Submitted(pts, a.Accepted?));
  }

  function AsUnits(r: Result<Option<AccessUnit>, EncodeError>): Units {
    if r.Err? then Err(r.error) else if r.value.None? then Ok([]) else Ok([r.value.value])
  }

  lemma ProcessOutputAccounted(h: Header, s: State)
    ensures var (t, r) := ProcessOutput(s); Accounted(h, s, t, AsUnits(r))
  {
    var (t, r) := ProcessOutput(s);
    if |t.log| > |s.log| {
      Appended(s.log, t.log[|s.log|]);
    }
  }

  lemma Composed(h: Header, s: State, t: State, first: seq<AccessUnit>, r: (State, Units))
    requires Accounted(h, s, t, Ok(first)) && Accounted(h, t, r.0, r.1)
    ensures Accounted(h, s, Prepend(first, r).0, Prepend(first, r).1)
  {
    if r.1.Ok? {
      assert UnitsOf(s.log) + (first + r.1.value) == (UnitsOf(s.log) + first) + r.1.value;
    }
  }

  lemma {:induction false} DrainAccounted(h: Header, s: State)
    ensures Accounted(h, s, Drain(s).0, Drain(s).1)
    decreases Remaining(s)
  {
    PumpQuiet(h, s);
    var (p, e) := Pump(s);
    if e.None? && (p.outputPending || !p.generator) {
      ProcessOutputAccounted(h, p);
      var (t, r) := ProcessOutput(p);
      if r.Ok? && r.value.Some? {
        var q := t.(outputPending := false);
        DrainAccounted(h, q);
        Composed(h, s, q, [r.value.value], Drain(q));
      }
    }
  }

  lemma {:induction false} OfferAccounted(h: Header, s: State, pts: i64)
    ensures Accounted(h, s, Offer(s, pts).0, Offer(s, pts).1)
    decreases Remaining(s)
  {
    SubmitQuiet(h, s, pts);
    var (t, a) := Submit(s, pts);
    if a.NotAccepting? {
      WaitQuiet(h, t);
      var (w, e) := Wait(t);
      if e.None? {
        DrainAccounted(h, w);
        var (d, drained) := Drain(w);
        if drained.Ok? && drained.value != [] {
          OfferAccounted(h, d, pts);
          Composed(h, s, d, drained.value, Offer(d, pts));
        }
      }
    }
  }

  lemma EncodeAccounted(h: Header, s: State, frame: Frame)
    ensures Accounted(h, s, Encode(s, frame).0, Encode(s, frame).1)
  {
    PumpQuiet(h, s);
    var (p, e) := Pump(s);
    if frame.sizeMatches && e.None? && Unprepared(frame).None? {
      var q := p.(nextPts := SaturatingAdd(p.nextPts, p.frameDuration));
      OfferAccounted(h, q, p.nextPts);
      var (t, offered) := Offer(q, p.nextPts);
      if offered.Ok? {
        DrainAccounted(h, t);
        Composed(h, s, t, offered.value, Drain(t));
      }
    }
  }

  lemma AfterQuiet(h: Header, s: State, t: State, r: (State, Units))
    requires Quiet(h, s, t) && Accounted(h, t, r.0, r.1)
    ensures Accounted(h, s, r.0, r.1)
  {}

  /** One output pulled while flushing. */
  lemma PullAccounted(h: Header, s: State, t: State)
    requires Quiet(h, s, t)
    ensures var (p, r) := ProcessOutput(t.(outputPending := true));
            Accounted(h, s, p, AsUnits(r)) && Accounted(h, s, p.(outputPending := false), AsUnits(r))
  {
    var q := t.(outputPending := true);
    ProcessOutputAccounted(h, q);
    AfterQuiet(h, s, q, (ProcessOutput(q).0, AsUnits(ProcessOutput(q).1)));
  }

  /** A have-output event while flushing. */
  lemma FlushPulls(s: State)
    requires GetEvent(s).1 == Event(HaveOutput)
    ensures var (p, r) := ProcessOutput(GetEvent(s).0.(outputPending := true));
            FlushAsync(s) == if r.Err? then (p, Err(r.error))
                             else Prepend(AsUnits(r).value, FlushAsync(p.(outputPending := false)))
  {
    var (p, r) := ProcessOutput(GetEvent(s).0.(outputPending := true));
    if r.Ok? && r.value.None? {
      PrependNothing(FlushAsync(p.(outputPending := false)));
    }
  }

  /** The rest of the flush is accounted for, and so is the whole. */
  lemma PullThenFlush(h: Header, s: State)
    requires GetEvent(s).1 == Event(HaveOutput)
    requires var (p, r) := ProcessOutput(GetEvent(s).0.(outputPending := true));
             var next := p.(outputPending := false);
             r.Ok? ==> Accounted(h, next, FlushAsync(next).0, FlushAsync(next).1)
    ensures Accounted(h, s, FlushAsync(s).0, FlushAsync(s).1)
  {
    var t := GetEvent(s).0;
    GetEventQuiet(h, s);
    PullAccounted(h, s, t);
    FlushPulls(s);
    var (p, r) := ProcessOutput(t.(outputPending := true));
    if r.Ok? {
      var next := p.(outputPending := false);
      Composed(h, s, next, AsUnits(r).value, FlushAsync(next));
    }
  }

  lemma {:induction false} FlushAsyncAccounted(h: Header, s: State)
    ensures Accounted(h, s, FlushAsync(s).0, FlushAsync(s).1)
    decreases Remaining(s)
  {
    var (t, a) := GetEvent(s);
    if a == Event(HaveOutput) {
      var (p, r) := ProcessOutput(t.(outputPending := true));
      if r.Ok? {
        FlushAsyncAccounted(h, p.(outputPending := false));
      }
      PullThenFlush(h, s);
    } else {
      GetEventQuiet(h, s);
      if (a.NoEvents? && !a.late) || (a.Event? && !a.kind.DrainComplete?) {
        FlushAsyncAccounted(h, t);
        AfterQuiet(h, s, t, FlushAsync(t));
      }
    }
  }

  lemma {:induction false} FlushSyncAccounted(h: Header, s: State)
    ensures Accounted(h, s, FlushSync(s).0, FlushSync(s).1)
    decreases Remaining(s)
  {
    ProcessOutputAccounted(h, s);
    var (t, r) := ProcessOutput(s);
    if r.Ok? && r.value.Some? {
      FlushSyncAccounted(h, t);
      Composed(h, s, t, [r.value.value], FlushSync(t));
    }
  }

  // ----- the samples handed over

  /** Accepted samples carry increasing timestamps, until the clock saturates. */
  predicate Increasing(log: seq<Entry>) {
    |log| == 0 ||
    (var front, e := log[..|log| - 1], log[|log| - 1];
     && Increasing(front)
     && (IsAccepted(e) ==> LastAccepted(front).None? || LastAccepted(front).value < e.pts || e.pts == LAST_PTS))
  }

  predicate Behind(log: seq<Entry>, pts: i64) {
    Increasing(log) && (LastAccepted(log).None? || LastAccepted(log).value < pts || pts == LAST_PTS)
  }

  /** No sample was handed over between s and t. */
  predicate Untaken(s: State, t: State) {
    && t.nextPts == s.nextPts && t.frameDuration == s.frameDuration
    && LastAccepted(t.log) == LastAccepted(s.log) && Accepts(t.log) == Accepts(s.log)
    && (Increasing(s.log) ==> Increasing(t.log))
  }

  lemma GetEventUntaken(s: State)
    ensures Untaken(s, GetEvent(s).0)
  {
    var (t, a) := GetEvent(s);
    if a.Event? {
      Appended(s.log, Received(a.kind));
    }
  }

  lemma {:induction false} PumpUntaken(s: State)
    ensures Untaken(s, PumpEvents(s).0)
    decreases Remaining(s)
  {
    GetEventUntaken(s);
    var (t, a) := GetEvent(s);
    if a.Event? {
      PumpUntaken(Note(t, a.kind));
    }
  }

  lemma {:induction false} WaitUntaken(s: State)
    ensures Untaken(s, WaitLoop(s).0)
    decreases Remaining(s)
  {
    GetEventUntaken(s);
    var (t, a) := GetEvent(s);
    if a.Event? && !a.kind.HaveOutput? {
      WaitUntaken(Note(t, a.kind));
    } else if a.NoEvents? && !a.late {
      WaitUntaken(t);
    }
  }

  lemma ProcessOutputUntaken(s: State)
    ensures Untaken(s, ProcessOutput(s).0)
  {
    var t := ProcessOutput(s).0;
    if |t.log| > |s.log| {
      Appended(s.log, t.log[|s.log|]);
    }
  }

  lemma {:induction false} DrainUntaken(s: State)
    ensures Untaken(s, Drain(s).0)
    decreases Remaining(s)
  {
    PumpUntaken(s);
    var (p, e) := Pump(s);
    if e.None? && (p.outputPending || !p.generator) {
      ProcessOutputUntaken(p);
      var (t, r) := ProcessOutput(p);
      if r.Ok? && r.value.Some? {
        DrainUntaken(t.(outputPending := false));
      }
    }
  }

  lemma {:induction false} FlushAsyncUntaken(s: State)
    ensures Untaken(s, FlushAsync(s).0)
    decreases Remaining(s)
  {
    GetEventUntaken(s);
    var (t, a) := GetEvent(s);
    if a.NoEvents? && !a.late {
      FlushAsyncUntaken(t);
    } else if a.Event? && a.kind.HaveOutput? {
      var q := t.(outputPending := true);
      ProcessOutputUntaken(q);
      var (p, r) := ProcessOutput(q);
      if r.Ok? {
        FlushAsyncUntaken(p.(outputPending := false));
      }
    } else if a.Event? && !a.kind.DrainComplete? {
      FlushAsyncUntaken(t);
    }
  }

  lemma {:induction false} FlushSyncUntaken(s: State)
    ensures Untaken(s, FlushSync(s).0)
    decreases Remaining(s)
  {
    ProcessOutputUntaken(s);
    var (t, r) := ProcessOutput(s);
    if r.Ok? && r.value.Some? {
      FlushSyncUntaken(t);
    }
  }

  /** Offering a sample hands it over once, or fails and hands over nothing. */
  lemma {:induction false} OfferTakesOne(s: State, pts: i64)
    requires Behind(s.log, pts)
    ensures var (t, r) := Offer(s, pts);
            && t.nextPts == s.nextPts && t.frameDuration == s.frameDuration && Increasing(t.log)
            && Accepts(t.log) == Accepts(s.log) + (if r.Ok? then 1 else 0)
            && LastAccepted(t.log) == (if r.Ok? then Some(pts) else LastAccepted(s.log))
    decreases Remaining(s)
  {
    var (t, a) := Submit(s, pts);
    Appended(s.log, Submitted(pts, a.Accepted?));
    if a.NotAccepting? {
      WaitUntaken(t);
      var (w, e) := Wait(t);
      if e.None? {
        DrainUntaken(w);
        var (d, drained) := Drain(w);
        if drained.Ok? && drained.value != [] {
          OfferTakesOne(d, pts);
        }
      }
    }
  }

  predicate Timed(s: State) {
    s.frameDuration > 0 && Behind(s.log, s.nextPts) && s.nextPts >= 0
  }

  /** A call of encode that succeeds hands over exactly one sample. */
  lemma EncodeTakesOne(s: State, frame: Frame)
    requires Timed(s)
    ensures var (t, r) := Encode(s, frame);
            && Timed(t)
            && (r.Ok? ==> Accepts(t.log) == Accepts(s.log) + 1 && LastAccepted(t.log) == Some(s.nextPts))
            && Accepts(t.log) <= Accepts(s.log) + 1
  {
    PumpUntaken(s);
    var (p, e) := Pump(s);
    if frame.sizeMatches && e.None? && Unprepared(frame).None? {
      var q := p.(nextPts := SaturatingAdd(p.nextPts, p.frameDuration));
      OfferTakesOne(q, p.nextPts);
      var (t, offered) := Offer(q, p.nextPts);
      if offered.Ok? {
        DrainUntaken(t);
      }
    }
  }

  // ----- whole runs

  datatype Request = EncodeRequest(frame: Frame) | FlushRequest(notified: bool)

  function Answer(s: State, c: Request): (State, Units) {
    match c
    case EncodeRequest(frame) => Encode(s, frame)
    case FlushRequest(notified) => Flush(s, notified)
  }

  function Run(start: State, calls: seq<Request>): State {
    if |calls| == 0 then start else Answer(Run(start, calls[..|calls| - 1]), calls[|calls| - 1]).0
  }

  function Reply(start: State, calls: seq<Request>): Units
    requires |calls| > 0
  {
    Answer(Run(start, calls[..|calls| - 1]), calls[|calls| - 1]).1
  }

  predicate AllSucceed(start: State, calls: seq<Request>) {
    |calls| == 0 || (AllSucceed(start, calls[..|calls| - 1]) && Reply(start, calls).Ok?)
  }

  /** The access units the calls that succeeded returned. */
  function Returned(start: State, calls: seq<Request>): seq<AccessUnit> {
    if |calls| == 0 then []
    else Returned(start, calls[..|calls| - 1])
         + if Reply(start, calls).Ok? then Reply(start, calls).value else []
  }

  lemma {:induction false} CoveredAt(log: seq<Entry>, n: nat)
    requires Covered(log) && n <= |log|
    ensures Pulls(log[..n]) <= Haves(log[..n]) + Failures(log[..n])
    ensures Failures(log[..n]) <= Failures(log)
    decreases |log|
  {
    if n < |log| {
      CoveredAt(log[..|log| - 1], n);
      assert log[..|log| - 1][..n] == log[..n];
    } else {
      assert log[..n] == log;
      if n > 0 {
        CoveredAt(log[..n - 1], n - 1);
        assert log[..n - 1][..n - 1] == log[..n - 1];
      }
    }
  }

  lemma {:induction false} RunSound(start: State, calls: seq<Request>)
    requires Sound(start) && !start.outputPending
    ensures Sound(Run(start, calls))
    ensures AllSucceed(start, calls) ==> !Run(start, calls).outputPending
    decreases |calls|
  {
    if |calls| == 0 {
    } else {
      RunSound(start, calls[..|calls| - 1]);
      var s := Run(start, calls[..|calls| - 1]);
      match calls[|calls| - 1]
      case EncodeRequest(frame) => EncodeSound(s, frame);
      case FlushRequest(_) => FlushSound(s);
    }
  }

  lemma {:induction false} RunAccounted(h: Header, start: State, calls: seq<Request>)
    requires start.log == [] && start.header == h
    ensures var t := Run(start, calls);
            && t.generator == start.generator && t.frameDuration == start.frameDuration && Faithful(h, t)
            && (AllSucceed(start, calls) ==> UnitsOf(t.log) == Returned(start, calls) && Failures(t.log) == 0)
    decreases |calls|
  {
    if |calls| == 0 {
    } else {
      RunAccounted(h, start, calls[..|calls| - 1]);
      var s := Run(start, calls[..|calls| - 1]);
      match calls[|calls| - 1]
      case EncodeRequest(frame) => EncodeAccounted(h, s, frame);
      case FlushRequest(_) => FlushAsyncAccounted(h, s); FlushSyncAccounted(h, s);
    }
  }

  /**
   * Output credit: at every moment of every run of an asynchronous transform, the calls for output
   * are at most the have-output events received, plus the calls for output that failed; and with
   * a pending hint there is one event to spare.
   */
  lemma OutputCredit(duration: i64, header: Header, script: Script, calls: seq<Request>, n: nat)
    requires n <= |Run(Start(true, duration, header, script), calls).log|
    ensures var t := Run(Start(true, duration, header, script), calls);
            && Pulls(t.log[..n]) <= Haves(t.log[..n]) + Failures(t.log[..n])
            && Pulls(t.log) + (if t.outputPending then 1 else 0) <= Haves(t.log) + Failures(t.log)
  {
    var start := Start(true, duration, header, script);
    RunSound(start, calls);
    CoveredAt(Run(start, calls).log, n);
  }

  /** Up to the first call that fails, every call for output had its own event, and no hint is left over. */
  lemma OutputCreditUntilFailure(duration: i64, header: Header, script: Script, calls: seq<Request>, n: nat)
    requires AllSucceed(Start(true, duration, header, script), calls)
    requires n <= |Run(Start(true, duration, header, script), calls).log|
    ensures var t := Run(Start(true, duration, header, script), calls);
            !t.outputPending && Pulls(t.log[..n]) <= Haves(t.log[..n])
  {
    var start := Start(true, duration, header, script);
    RunSound(start, calls);
    RunAccounted(header, start, calls);
    CoveredAt(Run(start, calls).log, n);
  }

  // ----- how long a hint lasts

  /** From s to t only a failing call was pulled, and it left its hint; or nothing was. */
  predicate HintLeft(s: State, t: State, units: Units) {
    && t.generator == s.generator && Failures(s.log) <= Failures(t.log)
    && (Failures(t.log) > Failures(s.log) ==> units.Err? && t.outputPending)
  }

  lemma ProcessOutputLeavesHint(s: State)
    requires s.outputPending
    ensures var (t, r) := ProcessOutput(s);
            && t.generator == s.generator && t.outputPending && Failures(s.log) <= Failures(t.log)
            && (Failures(t.log) > Failures(s.log) ==> r.Err?)
  {
    ProcessOutputAccounted(s.header, s);
    var (t, r) := ProcessOutput(s);
    if |t.log| > |s.log| {
      Appended(s.log, t.log[|s.log|]);
    }
  }

  lemma {:induction false} DrainLeavesHint(s: State)
    requires s.generator
    ensures HintLeft(s, Drain(s).0, Drain(s).1)
    ensures Drain(s).1.Ok? ==> !Drain(s).0.outputPending
    decreases Remaining(s)
  {
    PumpQuiet(s.header, s);
    var (p, e) := Pump(s);
    if e.None? && p.outputPending {
      ProcessOutputLeavesHint(p);
      var (t, r) := ProcessOutput(p);
      if r.Ok? && r.value.Some? {
        DrainLeavesHint(t.(outputPending := false));
      }
    }
  }

  lemma {:induction false} OfferLeavesHint(s: State, pts: i64)
    requires s.generator
    ensures HintLeft(s, Offer(s, pts).0, Offer(s, pts).1)
    decreases Remaining(s)
  {
    SubmitQuiet(s.header, s, pts);
    var (t, a) := Submit(s, pts);
    if a.NotAccepting? {
      WaitQuiet(t.header, t);
      var (w, e) := Wait(t);
      if e.None? {
        DrainLeavesHint(w);
        var (d, drained) := Drain(w);
        if drained.Ok? && drained.value != [] {
          OfferLeavesHint(d, pts);
        }
      }
    }
  }

  lemma EncodeLeavesHint(s: State, frame: Frame)
    requires s.generator
    ensures HintLeft(s, Encode(s, frame).0, Encode(s, frame).1)
    ensures Encode(s, frame).1.Ok? ==> !Encode(s, frame).0.outputPending
  {
    PumpQuiet(s.header, s);
    var (p, e) := Pump(s);
    if frame.sizeMatches && e.None? && Unprepared(frame).None? {
      var q := p.(nextPts := SaturatingAdd(p.nextPts, p.frameDuration));
      OfferLeavesHint(q, p.nextPts);
      var (t, offered) := Offer(q, p.nextPts);
      if offered.Ok? {
        DrainLeavesHint(t);
      }
    }
  }

  lemma {:induction false} FlushLeavesHint(s: State)
    requires s.generator
    ensures HintLeft(s, FlushAsync(s).0, FlushAsync(s).1)
    decreases Remaining(s)
  {
    GetEventQuiet(s.header, s);
    var (t, a) := GetEvent(s);
    if a == Event(HaveOutput) {
      var q := t.(outputPending := true);
      ProcessOutputLeavesHint(q);
      FlushPulls(s);
      var (p, r) := ProcessOutput(q);
      if r.Ok? {
        FlushLeavesHint(p.(outputPending := false));
      }
    } else if (a.NoEvents? && !a.late) || (a.Event? && !a.kind.DrainComplete?) {
      FlushLeavesHint(t);
    }
  }

  /**
   * What a failed call for output does to its hint, in any state of any asynchronous encoder: the
   * call of encode or flush it happens in fails, and the hint is left over. An encode that
   * succeeds leaves none.
   */
  lemma FailureLeavesHint(s: State, c: Request)
    requires s.generator
    ensures var (t, r) := Answer(s, c);
            && (Failures(t.log) > Failures(s.log) ==> r.Err? && t.outputPending)
            && (c.EncodeRequest? && r.Ok? ==> !t.outputPending)
  {
    match c
    case EncodeRequest(frame) => EncodeLeavesHint(s, frame);
    case FlushRequest(_) => FlushLeavesHint(s);
  }

  /** Events took no hint away, and nothing was pulled. */
  predicate HintStays(s: State, t: State) {
    && t.generator == s.generator && (s.outputPending ==> t.outputPending)
    && Pulls(t.log) == Pulls(s.log) && t.script.outputs == s.script.outputs
  }

  lemma EventKeepsHint(s: State)
    ensures var (t, a) := GetEvent(s);
            HintStays(s, t) && (a.Event? ==> HintStays(s, Note(t, a.kind)))
  {
    var (t, a) := GetEvent(s);
    if a.Event? {
      Appended(s.log, Received(a.kind));
    }
  }

  lemma HintStaysOn(a: State, b: State, c: State)
    requires HintStays(a, b) && HintStays(b, c)
    ensures HintStays(a, c)
  {}

  lemma {:induction false} PumpKeepsHint(s: State)
    ensures HintStays(s, PumpEvents(s).0)
    decreases Remaining(s)
  {
    EventKeepsHint(s);
    var (t, a) := GetEvent(s);
    if a.Event? {
      PumpKeepsHint(Note(t, a.kind));
      HintStaysOn(s, Note(t, a.kind), PumpEvents(s).0);
    }
  }

  lemma ProcessOutputPulls(s: State)
    ensures Pulls(s.log) <= Pulls(ProcessOutput(s).0.log)
    ensures |s.script.outputs| > 0 && s.script.outputs[0].Some? ==> Pulls(s.log) < Pulls(ProcessOutput(s).0.log)
  {
    var t := ProcessOutput(s).0;
    if |t.log| > |s.log| {
      Appended(s.log, t.log[|s.log|]);
    }
  }

  lemma {:induction false} DrainPulls(s: State)
    ensures Pulls(s.log) <= Pulls(Drain(s).0.log)
    decreases Remaining(s)
  {
    PumpKeepsHint(s);
    var (p, e) := Pump(s);
    if e.None? && (p.outputPending || !p.generator) {
      ProcessOutputPulls(p);
      var (t, r) := ProcessOutput(p);
      if r.Ok? && r.value.Some? {
        DrainPulls(t.(outputPending := false));
      }
    }
  }

  /**
   * What a hint left over does: the next drain whose pumping succeeds asks the transform again,
   * whether or not a new event came, unless it has no buffer to ask with.
   */
  lemma LeftHintAsksAgain(s: State)
    requires s.generator && s.outputPending && Pump(s).1.None?
    requires |s.script.outputs| > 0 && s.script.outputs[0].Some?
    ensures Pulls(Drain(s).0.log) > Pulls(s.log)
  {
    PumpKeepsHint(s);
    var p := Pump(s).0;
    ProcessOutputPulls(p);
    var (t, r) := ProcessOutput(p);
    if r.Ok? && r.value.Some? {
      DrainPulls(t.(outputPending := false));
    }
  }

  lemma PumpNothing(s: State)
    requires s.generator && |s.script.events| > 0 && s.script.events[0].NoEvents?
    ensures Pump(s) == (s.(script := s.script.(events := s.script.events[1..])), None)
  {}

  /** A frame with a hint pending, no news, and a call for output that brings nothing. */
  lemma HintedFrame(s: State, a: OutputAnswer)
    requires s.generator && s.outputPending && (a.OutputFailed? || a.NeedMoreInput?)
    requires |s.script.events| >= 2 && s.script.events[0].NoEvents? && s.script.events[1].NoEvents?
    requires |s.script.inputs| > 0 && s.script.inputs[0].Accepted?
    requires |s.script.outputs| > 0 && s.script.outputs[0] == Some(a)
    ensures var t := Encode(s, GOOD_FRAME).0;
            && t.log == s.log + [Submitted(s.nextPts, true), Pulled(a, Outcome(s.header, s.frameDuration, a))]
            && t.generator && t.outputPending == a.OutputFailed?
            && t.script == Script(s.script.events[2..], s.script.inputs[1..], s.script.outputs[1..])
  {
    PumpNothing(s);
    var p := Pump(s).0;
    var q := p.(nextPts := SaturatingAdd(p.nextPts, p.frameDuration));
    var (t, offered) := Offer(q, p.nextPts);
    assert t.log == s.log + [Submitted(s.nextPts, true)];
    PumpNothing(t);
    var u := Drain(t).0;
    assert u.log == t.log + [Pulled(a, Outcome(s.header, s.frameDuration, a))];
    assert s.script.events[1..][1..] == s.script.events[2..];
  }

  lemma TwoHintedFrames(s: State)
    requires s.generator && s.outputPending && s.log == [Received(HaveOutput)]
    requires s.script == Script([NoEvents(false), NoEvents(false), NoEvents(false), NoEvents(false)],
                                [Accepted, Accepted], [Some(OutputFailed), Some(NeedMoreInput)])
    ensures var t := Encode(Encode(s, GOOD_FRAME).0, GOOD_FRAME).0;
            Haves(t.log) == 1 && Pulls(t.log) == 2
  {
    HintedFrame(s, OutputFailed);
    var t := Encode(s, GOOD_FRAME).0;
    HintedFrame(t, NeedMoreInput);
    var u := Encode(t, GOOD_FRAME).0;
    var l1 := s.log + [u.log[1]];
    var l2 := l1 + [u.log[2]];
    var l3 := l2 + [u.log[3]];
    assert u.log == l3 + [u.log[4]];
    Appended([], s.log[0]);
    Appended(s.log, u.log[1]);
    Appended(l1, u.log[2]);
    Appended(l2, u.log[3]);
    Appended(l3, u.log[4]);
    assert Haves(s.log) == 1 && Pulls(s.log) == 0;
    assert Haves(l1) == 1 && Pulls(l1) == 0;
    assert Haves(l2) == 1 && Pulls(l2) == 1;
    assert Haves(l3) == 1 && Pulls(l3) == 1;
  }

  /**
   * A failed call for output keeps its hint, so the next frame asks again without a new event:
   * two calls for output on one event.
   */
  lemma FailureKeepsHint(duration: i64, header: Header)
    ensures exists script ::
              var frame := EncodeRequest(GOOD_FRAME);
              var t := Run(Start(true, duration, header, script), [frame, frame]);
              Haves(t.log) == 1 && Pulls(t.log) == 2
  {
    var frame := EncodeRequest(GOOD_FRAME);
    var events := [Event(HaveOutput), NoEvents(false), NoEvents(false), NoEvents(false), NoEvents(false)];
    var script := Script(events, [Accepted, Accepted], [Some(OutputFailed), Some(NeedMoreInput)]);
    var s0 := Start(true, duration, header, script);
    var s1 := Note(GetEvent(s0).0, HaveOutput);
    assert PumpEvents(s0) == PumpEvents(s1);
    assert Encode(s0, frame.frame) == Encode(s1, frame.frame);
    TwoHintedFrames(s1);
    TwoCalls(s0, frame, frame);
  }

  lemma TwoCalls(start: State, a: Request, b: Request)
    ensures Run(start, [a, b]) == Answer(Answer(start, a).0, b).0
  {
    assert [a, b][..1] == [a] && [a][..0] == [];
    assert Run(start, []) == start;
    assert Run(start, [a]) == Answer(start, a).0;
  }

  /** As long as no call fails, the calls return exactly what the transform produced, in its order. */
  lemma NothingLost(generator: bool, duration: i64, header: Header, script: Script, calls: seq<Request>)
    requires AllSucceed(Start(generator, duration, header, script), calls)
    ensures var start := Start(generator, duration, header, script);
            Returned(start, calls) == UnitsOf(Run(start, calls).log)
  {
    RunAccounted(header, Start(generator, duration, header, script), calls);
  }

  lemma {:induction false} ExplainedAt(h: Header, duration: i64, log: seq<Entry>, i: nat)
    requires Explained(h, duration, log) && i < |log| && log[i].Pulled?
    ensures log[i].result == Outcome(HeaderAt(h, log[..i]), duration, log[i].answer)
    decreases |log|
  {
    if i == |log| - 1 {
    } else {
      ExplainedAt(h, duration, log[..|log| - 1], i);
      assert log[..|log| - 1][..i] == log[..i];
    }
  }

  /**
   * Every access unit the transform produced was assembled with the sequence header and length
   * size that the last stream change before it announced.
   */
  lemma AssembledWithCurrentHeader(generator: bool, duration: i64, header: Header, script: Script,
                                   calls: seq<Request>, i: nat)
    requires var log := Run(Start(generator, duration, header, script), calls).log;
             i < |log| && log[i].Pulled?
    ensures var log := Run(Start(generator, duration, header, script), calls).log;
            log[i].result == Outcome(HeaderAt(header, log[..i]), duration, log[i].answer)
  {
    var start := Start(generator, duration, header, script);
    RunAccounted(header, start, calls);
    ExplainedAt(header, duration, Run(start, calls).log, i);
  }

  lemma {:induction false} RunTimed(start: State, calls: seq<Request>)
    requires Timed(start)
    ensures Timed(Run(start, calls))
    decreases |calls|
  {
    if |calls| == 0 {
    } else {
      RunTimed(start, calls[..|calls| - 1]);
      var s := Run(start, calls[..|calls| - 1]);
      match calls[|calls| - 1]
      case EncodeRequest(frame) => EncodeTakesOne(s, frame);
      case FlushRequest(_) => FlushAsyncUntaken(s); FlushSyncUntaken(s);
    }
  }

  lemma {:induction false} LastAcceptedIsLargest(log: seq<Entry>, i: nat)
    requires Increasing(log) && i < |log| && IsAccepted(log[i])
    ensures LastAccepted(log).Some? && log[i].pts <= LastAccepted(log).value
    decreases |log|
  {
    if i == |log| - 1 {
    } else {
      LastAcceptedIsLargest(log[..|log| - 1], i);
    }
  }

  lemma {:induction false} IncreasingAt(log: seq<Entry>, i: nat, j: nat)
    requires Increasing(log) && i < j < |log| && IsAccepted(log[i]) && IsAccepted(log[j])
    ensures log[i].pts < log[j].pts || log[j].pts == LAST_PTS
    decreases |log|
  {
    var front := log[..|log| - 1];
    if j < |log| - 1 {
      IncreasingAt(front, i, j);
    } else {
      LastAcceptedIsLargest(front, i);
    }
  }

  /** The transform never takes two samples with the same timestamp, or one out of order. */
  lemma TimestampsIncrease(generator: bool, duration: i64, header: Header, script: Script,
                           calls: seq<Request>, i: nat, j: nat)
    requires duration > 0
    requires var log := Run(Start(generator, duration, header, script), calls).log;
             i < j < |log| && IsAccepted(log[i]) && IsAccepted(log[j])
    ensures var log := Run(Start(generator, duration, header, script), calls).log;
            log[i].pts < log[j].pts || log[j].pts == LAST_PTS
  {
    var start := Start(generator, duration, header, script);
    RunTimed(start, calls);
    IncreasingAt(Run(start, calls).log, i, j);
  }
}
