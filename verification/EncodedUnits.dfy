/** What the encoder's calls give and leave behind, in terms of the transform's answers. */
module EncodedUnits {
  import opened Wrappers
  import opened Bytes
  import opened AnnexB
  import opened AnnexBScanner
  import opened SequenceHeader
  import opened AccessUnits
  import opened Decoder
  import opened Encoder
  import opened EncoderRuns

  // ----- one produced sample

  /** The transform's next answer for output. */
  predicate NextOutput(s: State, a: OutputAnswer) {
    |s.script.outputs| > 0 && s.script.outputs[0] == Some(a)
  }

  /** The unit carries the sample's own flag and times; absent times read as zero and as the frame duration. */
  predicate TimedAs(unit: AccessUnit, sample: Sample, frameDuration: i64) {
    && unit.keyframe == sample.keyframe
    && (sample.pts.Some? ==> unit.pts == sample.pts.value) && (sample.pts.None? ==> unit.pts == 0)
    && (sample.duration.Some? ==> unit.duration == sample.duration.value)
    && (sample.duration.None? ==> unit.duration == frameDuration)
  }

  lemma FramesNotEmpty(payload: seq<byte>, size: nat, nals: seq<Nal>)
    requires nals != [] && Frames(payload, size, nals)
    ensures payload != []
  {
    if payload == LengthPrefixed(nals, size) && payload != AnnexBStream(nals) {
      assert |ToBE(|nals[0]|, size)| == size;
    }
  }

  /** A produced sample that is not empty is assembled with the header in force and the sample's own flag. */
  lemma UnitProduced(s: State, sample: Sample, data: seq<byte>)
    requires NextOutput(s, Produced(sample)) && sample.payload != []
    requires AssembleUnit(sample.payload, Some(s.header.annexB), Some(s.header.nalLengthSize), sample.keyframe) == Ok(data)
    ensures var r := ProcessOutput(s).1;
            r.Ok? && r.value.Some? && TimedAs(r.value.value, sample, s.frameDuration) && r.value.value.data == data
  {}

  /** A produced keyframe scans to the header's units in front of its own, unless it brings its own sets. */
  lemma KeyframeProduced(s: State, sample: Sample, nals: seq<Nal>, header: seq<Nal>)
    requires NextOutput(s, Produced(sample)) && sample.keyframe
    requires GoodNals(nals) && Frames(sample.payload, s.header.nalLengthSize, nals)
    requires s.header.annexB == AnnexBStream(header) && forall i | 0 <= i < |header| :: GoodNal(header[i])
    ensures var r := ProcessOutput(s).1;
            && r.Ok? && r.value.Some? && TimedAs(r.value.value, sample, s.frameDuration)
            && Scan(r.value.value.data) == KeyframeNals(header, nals)
  {
    FramesNotEmpty(sample.payload, s.header.nalLengthSize, nals);
    KeyframeParses(sample.payload, s.header.nalLengthSize, header, nals);
    UnitProduced(s, sample, AnnexBStream(KeyframeNals(header, nals)));
  }

  /** A produced delta frame is the Annex-B framing of its own units, and scans to them. */
  lemma DeltaProduced(s: State, sample: Sample, nals: seq<Nal>)
    requires NextOutput(s, Produced(sample)) && !sample.keyframe
    requires GoodNals(nals) && Frames(sample.payload, s.header.nalLengthSize, nals)
    ensures var r := ProcessOutput(s).1;
            && r.Ok? && r.value.Some? && TimedAs(r.value.value, sample, s.frameDuration)
            && r.value.value.data == AnnexBStream(nals) && Scan(r.value.value.data) == nals
  {
    FramesNotEmpty(sample.payload, s.header.nalLengthSize, nals);
    FramesToAnnexB(sample.payload, s.header.nalLengthSize, nals);
    ScanOfGood(nals);
    UnitProduced(s, sample, AnnexBStream(nals));
  }

  /** A stream change to a record puts that record's sets and length size in force, and yields no unit. */
  lemma StreamChangeRereads(s: State, lead: seq<byte>, sps: seq<Nal>, pps: seq<Nal>, trailing: seq<byte>)
    requires ValidLead(lead, sps) && |pps| < 256 && LengthsFit(sps, 2) && LengthsFit(pps, 2)
    requires NextOutput(s, StreamChange(Some(Record(lead, sps, pps, trailing))))
    ensures var (t, r) := ProcessOutput(s);
            && r == Ok(None) && t.header == Header(lead[4] % 4 + 1, AnnexBStream(sps + pps))
            && t.script.outputs == s.script.outputs[1..] && t.frameDuration == s.frameDuration
  {
    RecordComesOut(lead, sps, pps, trailing);
  }

  /** The first keyframe behind a stream change brings the decoder the new sets. */
  lemma KeyframeAfterStreamChange(s: State, lead: seq<byte>, sps: seq<Nal>, pps: seq<Nal>, trailing: seq<byte>,
                                  sample: Sample, nals: seq<Nal>)
    requires ValidLead(lead, sps) && |pps| < 256 && LengthsFit(sps, 2) && LengthsFit(pps, 2)
    requires forall i | 0 <= i < |sps + pps| :: GoodNal((sps + pps)[i])
    requires NextOutput(s, StreamChange(Some(Record(lead, sps, pps, trailing))))
    requires |s.script.outputs| > 1 && s.script.outputs[1] == Some(Produced(sample)) && sample.keyframe
    requires GoodNals(nals) && Frames(sample.payload, lead[4] % 4 + 1, nals)
    ensures var r := ProcessOutput(ProcessOutput(s).0).1;
            r.Ok? && r.value.Some? && Scan(r.value.value.data) == KeyframeNals(sps + pps, nals)
  {
    StreamChangeRereads(s, lead, sps, pps, trailing);
    KeyframeProduced(ProcessOutput(s).0, sample, nals, sps + pps);
  }

  /** Every other answer: which bring nothing, which fail, and what they leave. */
  lemma OtherAnswers(s: State, a: OutputAnswer)
    requires NextOutput(s, a)
    ensures var (t, r) := ProcessOutput(s);
            && (a.NeedMoreInput? ==> r == Ok(None) && t.inputNeeded && t.header == s.header)
            && (a.NoSample? || (a.Produced? && a.sample.payload == []) ==> r == Ok(None) && t.header == s.header)
            && (a.OutputFailed? || a.Unreadable? || a == StreamChange(None) ==> r.Err? && t.header == s.header)
            && (!a.StreamChange? ==> t.header == s.header)
            && t.log == s.log + [Pulled(a, r)]
  {}

  // ----- events, hints and the clock

  /** After pumping, the hint is set exactly when it was before or a have-output event came. */
  lemma {:induction false} PumpNotes(s: State)
    ensures var t := PumpEvents(s).0;
            && Haves(s.log) <= Haves(t.log)
            && (t.outputPending <==> s.outputPending || Haves(t.log) > Haves(s.log))
    decreases Remaining(s)
  {
    var (t, a) := GetEvent(s);
    if a.Event? {
      EncoderRuns.Appended(s.log, Received(a.kind));
      PumpNotes(Note(t, a.kind));
    }
  }

  /** Waiting succeeds only with a hint, and fails with a timeout when the deadline passes first. */
  lemma {:induction false} WaitEnds(s: State)
    ensures WaitLoop(s).1.None? ==> WaitLoop(s).0.outputPending
    ensures |s.script.events| > 0 && s.script.events[0] == Event(HaveOutput) ==> WaitLoop(s).1.None?
    ensures |s.script.events| > 0 && s.script.events[0] == NoEvents(true) ==> WaitLoop(s).1 == Some(Timeout)
    decreases Remaining(s)
  {
    var (t, a) := GetEvent(s);
    if a.Event? && !a.kind.HaveOutput? {
      WaitEnds(Note(t, a.kind));
    } else if a.NoEvents? && !a.late {
      WaitEnds(t);
    }
  }

  /** The clock moves on by one frame duration, no further than it reaches, for each sample that was made. */
  lemma EncodeClock(s: State, frame: Frame)
    requires s.nextPts >= 0 && s.frameDuration > 0
    ensures var t := Encode(s, frame).0;
            var made := frame.sizeMatches && Pump(s).1.None? && Unprepared(frame).None?;
            && (!made ==> t.nextPts == s.nextPts)
            && (made && s.nextPts + s.frameDuration <= LAST_PTS ==> t.nextPts == s.nextPts + s.frameDuration)
            && (made && s.nextPts + s.frameDuration > LAST_PTS ==> t.nextPts == LAST_PTS)
  {
    PumpUntaken(s);
    var (p, e) := Pump(s);
    if frame.sizeMatches && e.None? && Unprepared(frame).None? {
      var q := p.(nextPts := SaturatingAdd(p.nextPts, p.frameDuration));
      OfferClock(q, p.nextPts);
      DrainUntaken(Offer(q, p.nextPts).0);
    }
  }

  lemma {:induction false} OfferClock(s: State, pts: i64)
    ensures Offer(s, pts).0.nextPts == s.nextPts
    decreases Remaining(s)
  {
    var (t, a) := Submit(s, pts);
    if a.NotAccepting? {
      WaitUntaken(t);
      var (w, e) := Wait(t);
      if e.None? {
        DrainUntaken(w);
        var (d, drained) := Drain(w);
        if drained.Ok? && drained.value != [] {
          OfferClock(d, pts);
        }
      }
    }
  }

  // ----- the transform is busy once, and then takes the sample

  /** No events are waiting, n times over. */
  predicate Silent(s: State, n: nat) {
    |s.script.events| >= n && forall i | 0 <= i < n :: s.script.events[i] == NoEvents(false)
  }

  /** With a hint and no news, a drain pulls once, and stops when no event follows. */
  lemma DrainPullsOne(s: State, sample: Sample, unit: AccessUnit)
    requires s.generator && s.outputPending && Silent(s, 2) && NextOutput(s, Produced(sample))
    requires Outcome(s.header, s.frameDuration, Produced(sample)) == Ok(Some(unit))
    ensures var (t, r) := Drain(s);
            && r == Ok([unit]) && !t.outputPending && t.script.inputs == s.script.inputs
            && t.script.events == s.script.events[2..]
  {
    PumpNothing(s);
    var p := Pump(s).0;
    var (t, r) := ProcessOutput(p);
    var u := t.(outputPending := false);
    assert r == Ok(Some(unit)) && u.script.events == s.script.events[1..];
    PumpNothing(u);
    assert Drain(u).1 == Ok([]) && Drain(u).0 == Pump(u).0;
    assert s.script.events[1..][1..] == s.script.events[2..];
    assert [unit] + [] == [unit];
  }

  /** A sample that is refused once is offered again after a drain, and then handed over. */
  lemma OfferRecovers(s: State, pts: i64, sample: Sample, unit: AccessUnit)
    requires s.generator && s.outputPending && Silent(s, 2) && NextOutput(s, Produced(sample))
    requires Outcome(s.header, s.frameDuration, Produced(sample)) == Ok(Some(unit))
    requires |s.script.inputs| >= 2 && s.script.inputs[0].NotAccepting? && s.script.inputs[1].Accepted?
    ensures Offer(s, pts).1 == Ok([unit])
  {
    var t := Submit(s, pts).0;
    DrainPullsOne(t, sample, unit);
    var d := Drain(t).0;
    assert d.script.inputs == s.script.inputs[1..];
    assert Offer(d, pts).1 == Ok([]);
  }

  /** A flush returns what comes before the end of draining, and stops there. */
  lemma FlushReturns(s: State, sample: Sample, unit: AccessUnit)
    requires s.generator && NextOutput(s, Produced(sample)) && |s.script.events| >= 2
    requires s.script.events[0] == Event(HaveOutput) && s.script.events[1] == Event(DrainComplete)
    requires Outcome(s.header, s.frameDuration, Produced(sample)) == Ok(Some(unit))
    ensures Flush(s, true).1 == Ok([unit])
  {
    var t := GetEvent(s).0;
    var p := ProcessOutput(t.(outputPending := true)).0.(outputPending := false);
    assert p.script.events[0] == Event(DrainComplete);
    assert FlushAsync(p).1 == Ok([]);
    FlushPulls(s);
    assert [unit] + [] == [unit];
  }

  /** Without events a flush returns what comes before the first call that brings nothing. */
  lemma FlushSyncReturns(s: State, sample: Sample, unit: AccessUnit)
    requires !s.generator && NextOutput(s, Produced(sample))
    requires |s.script.outputs| > 1 && s.script.outputs[1] == Some(NeedMoreInput)
    requires Outcome(s.header, s.frameDuration, Produced(sample)) == Ok(Some(unit))
    ensures Flush(s, true).1 == Ok([unit])
  {
    var t := ProcessOutput(s).0;
    OtherAnswers(t, NeedMoreInput);
    assert FlushSync(t).1 == Ok([]);
    assert [unit] + [] == [unit];
  }
}
