/** On exactly which runs the host's and the client's reassemblers agree. */
module ReassemblerAgreement {
  import opened Wrappers
  import opened Bytes
  import opened MediaHeader
  import opened Reassembler
  import opened ReassemblyRuns
  import opened ClientReassembler

  function HostEvent(e: WireEvent): Event {
    match e
    case Datagram(d, now, evicted) => Arrive(Decode(d), now, evicted)
    case Tick(now) => Expire(now)
  }

  predicate BringsPart(e: WireEvent) {
    e.Datagram? && IsPart(Decode(e.bytes))
  }

  // ----- one event

  /** What the host keeps the client keeps too. */
  lemma LiveIsRetained(c: Config, m: map<u64, Entry>, now: nat)
    ensures LiveEntries(c, m, now).Keys <= RetainedBut(c, m, {}, now).Keys
  {}

  /** The two prunings count the same drops if and only if the clock fits the table. */
  lemma PruneCountsAgree(c: Config, s: State, now: nat)
    ensures ClientPrune(c, s, now).dropped == Prune(c, s, now).dropped <==> ClockFits(c, s.incomplete, now)
  {
    var live, retained := LiveEntries(c, s.incomplete, now), RetainedBut(c, s.incomplete, {}, now);
    LiveIsRetained(c, s.incomplete, now);
    SubsetSize(live.Keys, retained.Keys);
    if ClockFits(c, s.incomplete, now) {
      PrunesAgree(c, s, now);
    } else {
      var id :| id in s.incomplete && s.incomplete[id].firstSeenAt > now;
      assert id in retained && id !in live;
    }
  }

  /** After pruning both sides count the same evictions, and storing counts none. */
  lemma HostStepDropped(c: Config, s: State, e: Event)
    requires ValidTable(s.incomplete)
    ensures Step(c, s, e).0.dropped
         == Prune(c, s, e.now).dropped + if e.Arrive? && IsPart(e.packet) then |e.evicted| else 0
  {}

  lemma ClientStepDropped(c: Config, s: State, e: WireEvent)
    requires ValidTable(s.incomplete)
    ensures ClientStep(c, s, e).0.dropped
         == ClientPrune(c, s, e.now).dropped + if e.Datagram? && IsPart(DecodeHeader(e.bytes)) then |e.evicted| else 0
  {}

  lemma StepAgreesWhen(c: Config, s: State, e: WireEvent)
    requires ValidTable(s.incomplete) && (e.Datagram? ==> DecodeHeader(e.bytes) == Decode(e.bytes))
    ensures ClientStep(c, s, e).0 == Step(c, s, HostEvent(e)).0 <==> ClockFits(c, s.incomplete, e.now)
  {
    PruneCountsAgree(c, s, e.now);
    HostStepDropped(c, s, HostEvent(e));
    ClientStepDropped(c, s, e);
    if ClockFits(c, s.incomplete, e.now) {
      match e
      case Datagram(d, now, evicted) => PushesAgree(c, s, DecodeHeader(d), now, evicted);
      case Tick(now) => PrunesAgree(c, s, now);
    }
  }

  // ----- what the host's table holds when nothing outlives an event

  lemma PrunedEmpty(c: Config, s: State, now: nat)
    requires c.incompleteTimeout == 0
    ensures Prune(c, s, now).incomplete == map[]
  {}

  lemma {:induction false} WithoutEmpty(evicted: seq<u64>)
    ensures Without(map[], evicted) == map[]
  {
    if |evicted| == 0 {
    } else {
      WithoutEmpty(evicted[..|evicted| - 1]);
    }
  }

  lemma StoredAlone(s: State, h: Header, payload: seq<byte>, now: nat)
    requires s.incomplete == map[] && h.index < h.count && h.count > 1
    ensures var (t, r) := Store(s, h, payload, now);
            && t.incomplete.Keys == {h.id} && t.incomplete[h.id].firstSeenAt == now && r == Ok(None)
  {}

  /** With a zero timeout the host's table holds the part that just came, and nothing else. */
  lemma OnlyTheLastPart(c: Config, s: State, e: Event)
    requires ValidTable(s.incomplete) && c.incompleteTimeout == 0
    ensures var m := Step(c, s, e).0.incomplete;
            if e.Arrive? && IsPart(e.packet)
            then var id := e.packet.value.header.id; m.Keys == {id} && m[id].firstSeenAt == e.now
            else m == map[]
  {
    PrunedEmpty(c, s, e.now);
    if e.Arrive? && IsPart(e.packet) {
      WithoutEmpty(e.evicted);
      StoredAlone(Evict(Prune(c, s, e.now), e.evicted), e.packet.value.header, e.packet.value.payload, e.now);
    }
  }

  // ----- whole runs

  lemma HostFront(run: seq<WireEvent>)
    requires |run| > 0
    ensures var events := HostEvents(run);
            && events[..|events| - 1] == HostEvents(run[..|run| - 1])
            && events[|events| - 1] == HostEvent(run[|run| - 1])
  {}

  /** The two hold the same table and have counted the same drops. */
  predicate AgreeAt(c: Config, run: seq<WireEvent>) {
    ClientAfter(c, run) == After(c, HostEvents(run))
  }

  /** They do so after every prefix of the run. */
  predicate AgreeThroughout(c: Config, run: seq<WireEvent>) {
    |run| == 0 ||
    (AgreeThroughout(c, run[..|run| - 1]) && AgreeAt(c, run))
  }

  /** The clock does not go back from a part to the event behind it. */
  predicate ForwardFromParts(run: seq<WireEvent>) {
    forall k | 0 < k < |run| && BringsPart(run[k - 1]) :: run[k - 1].now <= run[k].now
  }

  lemma ForwardFront(run: seq<WireEvent>)
    requires |run| > 0
    ensures ForwardFromParts(run) <==>
            && ForwardFromParts(run[..|run| - 1])
            && (|run| > 1 && BringsPart(run[|run| - 2]) ==> run[|run| - 2].now <= run[|run| - 1].now)
  {
    var front := run[..|run| - 1];
    if ForwardFromParts(run) {
      forall k | 0 < k < |front| && BringsPart(front[k - 1]) ensures front[k - 1].now <= front[k].now {
        assert BringsPart(run[k - 1]);
      }
    }
    if ForwardFromParts(front) && (|run| > 1 && BringsPart(run[|run| - 2]) ==> run[|run| - 2].now <= run[|run| - 1].now) {
      forall k | 0 < k < |run| && BringsPart(run[k - 1]) ensures run[k - 1].now <= run[k].now {
        if k < |front| {
          assert BringsPart(front[k - 1]);
        }
      }
    }
  }

  /** With a zero timeout the clock fits the host's table when it did not go back from a part. */
  lemma FitsAfter(c: Config, run: seq<WireEvent>, now: nat)
    requires c.incompleteTimeout == 0
    ensures ClockFits(c, After(c, HostEvents(run)).incomplete, now)
       <==> (|run| > 0 && BringsPart(run[|run| - 1]) ==> run[|run| - 1].now <= now)
  {
    if |run| > 0 {
      HostFront(run);
      OnlyTheLastPart(c, After(c, HostEvents(run[..|run| - 1])), HostEvent(run[|run| - 1]));
    }
  }

  /** Starting alike, the last event keeps the two alike if and only if the clock fits the table before it. */
  lemma LastAgreesWhen(c: Config, run: seq<WireEvent>)
    requires |run| > 0 && VideoRun(run)
    requires AgreeAt(c, run[..|run| - 1])
    ensures AgreeAt(c, run)
       <==> ClockFits(c, After(c, HostEvents(run[..|run| - 1])).incomplete, run[|run| - 1].now)
  {
    HostFront(run);
    StepAgreesWhen(c, ClientAfter(c, run[..|run| - 1]), run[|run| - 1]);
  }

  /**
   * Exactly when the two reassemblers agree: on video datagrams and equal configurations they
   * hold the same table and count the same drops throughout a run if and only if the timeout is
   * positive, or the clock never goes back from a part to the event behind it.
   */
  lemma {:induction false} AgreeExactly(c: Config, run: seq<WireEvent>)
    requires VideoRun(run)
    ensures AgreeThroughout(c, run) <==> c.incompleteTimeout > 0 || ForwardFromParts(run)
  {
    if |run| == 0 {
    } else {
      var front := run[..|run| - 1];
      AgreeExactly(c, front);
      ForwardFront(run);
      if AgreeThroughout(c, front) {
        AgreeAtEnd(c, front);
        LastAgreesWhen(c, run);
        if c.incompleteTimeout == 0 {
          FitsAfter(c, front, run[|run| - 1].now);
        }
      }
    }
  }

  lemma AgreeAtEnd(c: Config, run: seq<WireEvent>)
    requires AgreeThroughout(c, run)
    ensures AgreeAt(c, run)
  {
    if |run| == 0 {
      assert HostEvents(run) == [];
    }
  }

  lemma PrefixOfFront(run: seq<WireEvent>, k: nat)
    requires k < |run|
    ensures run[..|run| - 1][..k] == run[..k]
  {}

  lemma {:induction false} AgreeAtPrefix(c: Config, run: seq<WireEvent>, k: nat)
    requires AgreeThroughout(c, run) && k <= |run|
    ensures AgreeAt(c, run[..k])
    decreases |run|
  {
    if k == |run| {
      assert run[..k] == run;
      AgreeAtEnd(c, run);
    } else {
      AgreeAtPrefix(c, run[..|run| - 1], k);
      PrefixOfFront(run, k);
    }
  }

  lemma {:induction false} AgreeFromPrefixes(c: Config, run: seq<WireEvent>)
    requires forall k | 0 <= k <= |run| :: AgreeAt(c, run[..k])
    ensures AgreeThroughout(c, run)
  {
    if |run| == 0 {
    } else {
      var front := run[..|run| - 1];
      forall k | 0 <= k <= |front| ensures AgreeAt(c, front[..k]) {
        assert front[..k] == run[..k];
      }
      AgreeFromPrefixes(c, front);
      assert run[..|run|] == run;
    }
  }

  /** Agreeing throughout is agreeing after every prefix. */
  lemma AgreeAtEveryPrefix(c: Config, run: seq<WireEvent>)
    ensures AgreeThroughout(c, run) <==> forall k | 0 <= k <= |run| :: AgreeAt(c, run[..k])
  {
    if AgreeThroughout(c, run) {
      forall k | 0 <= k <= |run| ensures AgreeAt(c, run[..k]) {
        AgreeAtPrefix(c, run, k);
      }
    }
    if forall k | 0 <= k <= |run| :: AgreeAt(c, run[..k]) {
      AgreeFromPrefixes(c, run);
    }
  }
}
