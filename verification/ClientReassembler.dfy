/** The client's reassembler, and its agreement with the host's. */
module ClientReassembler {
  import opened Wrappers
  import opened Bytes
  import opened MediaHeader
  import opened Reassembler
  import opened ReassemblyRuns

  // ----- the client's own form

  /** The client's header decoder never looks at the packet kind. */
  function DecodeHeader(d: seq<byte>): (r: Decoded) {
    if |d| < HEADER_LEN then Err(HeaderTooShort(|d|))
    else if d[0] != VERSION then Err(UnsupportedVersion(d[0]))
    else
      var h := Fields(d);
      if h.count == 0 then Err(InvalidFragmentCount(h.count))
      else if !(h.index < h.count) then Err(InvalidFragmentIndex(h.index, h.count))
      else Ok(Packet(h, d[HEADER_LEN..]))
  }

  /** The client's time difference is signed. */
  predicate Retained(c: Config, e: Entry, now: nat) {
    now - e.firstSeenAt < c.incompleteTimeout
  }

  /** The entries retained out of those already looked at. */
  function RetainedBut(c: Config, m: map<u64, Entry>, rest: set<u64>, now: nat): map<u64, Entry> {
    map id | id in m && id !in rest && Retained(c, m[id], now) :: m[id]
  }

  function ClientPrune(c: Config, s: State, now: nat): State {
    var retained := RetainedBut(c, s.incomplete, {}, now);
    assert |retained| <= |s.incomplete| by { SubsetSize(retained.Keys, s.incomplete.Keys); }
    State(retained, s.dropped + |s.incomplete| - |retained|)
  }

  predicate MatchesFragmentMetadata(a: Header, b: Header) {
    a.id == b.id && a.count == b.count && a.pts == b.pts && a.duration == b.duration && a.keyframe == b.keyframe
  }

  /** The fragments present, in slot order. */
  function Present(slots: seq<Option<seq<byte>>>): seq<seq<byte>> {
    if |slots| == 0 then []
    else (if slots[0].Some? then [slots[0].value] else []) + Present(slots[1..])
  }

  function ClientStore(s: State, h: Header, payload: seq<byte>, now: nat): (State, Outcome)
    requires ValidTable(s.incomplete) && h.index < h.count
  {
    var e := EntryFor(s.incomplete, h, now);
    if !MatchesFragmentMetadata(e.header, h) then (s, Err(InconsistentFragmentMetadata(h.id)))
    else
      var filled := Fill(e, h.index, payload);
      if filled.received != |filled.fragments|
      then (s.(incomplete := s.incomplete[h.id := filled]), Ok(None))
      else (s.(incomplete := s.incomplete - {h.id}),
            Ok(Some(AccessUnit(h.id, Flatten(Present(filled.fragments)), h.pts, h.duration, h.keyframe))))
  }

  function ClientPush(c: Config, s: State, r: Decoded, now: nat, evicted: seq<u64>): (State, Outcome)
    requires ValidTable(s.incomplete)
  {
    var pruned := ClientPrune(c, s, now);
    if r.Err? then (pruned, Err(r.error))
    else
      var Packet(h, payload) := r.value;
      if payload == [] then (pruned, Err(EmptyPayload(h.id)))
      else if h.count == 1
      then (pruned, Ok(Some(AccessUnit(h.id, payload, h.pts, h.duration, h.keyframe))))
      else ClientStore(Evict(pruned, evicted), h, payload, now)
  }

  ghost predicate ClientPushAllowed(c: Config, s: State, r: Decoded, now: nat, evicted: seq<u64>) {
    if IsPart(r) then EvictionOrder(c, ClientPrune(c, s, now).incomplete, evicted) else evicted == []
  }

  lemma ClientStoreIsStore(s: State, h: Header, payload: seq<byte>, now: nat)
    requires ValidTable(s.incomplete) && h.index < h.count
    ensures ClientStore(s, h, payload, now) == Store(s, h, payload, now)
  {
    var e := EntryFor(s.incomplete, h, now);
    if SameMetadata(e.header, h) {
      PresentIsAssemble(Fill(e, h.index, payload).fragments);
    }
  }

  lemma {:induction false} PresentIsAssemble(slots: seq<Option<seq<byte>>>)
    ensures Flatten(Present(slots)) == Assemble(slots)
  {
    if |slots| == 0 {
    } else {
      PresentIsAssemble(slots[1..]);
      if slots[0].Some? {
        assert Present(slots)[1..] == Present(slots[1..]);
      } else {
        assert Present(slots) == Present(slots[1..]);
      }
    }
  }

  class H264VideoDatagramReassembler {
    const config: Config
    var droppedIncompleteAccessUnits: u64
    var incompleteAccessUnits: map<u64, Entry>
    ghost var droppedTotal: nat

    ghost predicate Valid()
      reads this
    {
      ValidTable(incompleteAccessUnits) && droppedIncompleteAccessUnits == droppedTotal % U64_MODULUS
    }

    ghost function Abstract(): State
      reads this
    {
      State(incompleteAccessUnits, droppedTotal)
    }

    constructor (c: Config)
      ensures Valid() && Abstract() == EMPTY && config == c
    {
      config := c;
      droppedIncompleteAccessUnits := 0;
      droppedTotal := 0;
      incompleteAccessUnits := map[];
    }

    method Reset()
      modifies this
      ensures Valid() && Abstract() == EMPTY
    {
      incompleteAccessUnits := map[];
      droppedIncompleteAccessUnits := 0;
      droppedTotal := 0;
    }

    method CountDrop()
      requires droppedIncompleteAccessUnits == droppedTotal % U64_MODULUS
      modifies this`droppedIncompleteAccessUnits, this`droppedTotal
      ensures droppedIncompleteAccessUnits == droppedTotal % U64_MODULUS
      ensures droppedTotal == old(droppedTotal) + 1
    {
      droppedIncompleteAccessUnits :=
        if droppedIncompleteAccessUnits == U64_MAX then 0 else droppedIncompleteAccessUnits + 1;
      droppedTotal := droppedTotal + 1;
    }

    /** Builds the table of retained entries beside the old one. */
    method PruneExpired(now: nat)
      requires Valid()
      modifies this
      ensures Valid() && Abstract() == ClientPrune(config, old(Abstract()), now)
    {
      var retained: map<u64, Entry> := map[];
      var rest := incompleteAccessUnits.Keys;
      ghost var m := incompleteAccessUnits;
      while rest != {}
        invariant incompleteAccessUnits == m && rest <= m.Keys
        invariant retained == RetainedBut(config, m, rest, now)
        invariant droppedIncompleteAccessUnits == droppedTotal % U64_MODULUS
        invariant droppedTotal == old(droppedTotal) + |m| - |rest| - |retained|
        decreases rest
      {
        var id :| id in rest;
        RetainOne(config, m, rest, id, now);
        rest := rest - {id};
        if Retained(config, incompleteAccessUnits[id], now) {
          retained := retained[id := incompleteAccessUnits[id]];
        } else {
          CountDrop();
        }
      }
      incompleteAccessUnits := retained;
    }

    method Oldest() returns (id: u64)
      requires incompleteAccessUnits != map[]
      ensures IsOldest(incompleteAccessUnits, id)
    {
      var rest := incompleteAccessUnits.Keys;
      id :| id in rest;
      rest := rest - {id};
      while rest != {}
        invariant id in incompleteAccessUnits && rest <= incompleteAccessUnits.Keys
        invariant forall other | other in incompleteAccessUnits && other !in rest ::
                    incompleteAccessUnits[id].firstSeenAt <= incompleteAccessUnits[other].firstSeenAt
        decreases rest
      {
        var next :| next in rest;
        rest := rest - {next};
        if incompleteAccessUnits[next].firstSeenAt < incompleteAccessUnits[id].firstSeenAt {
          id := next;
        }
      }
    }

    method RemoveOldest() returns (id: u64)
      requires incompleteAccessUnits != map[] && droppedIncompleteAccessUnits == droppedTotal % U64_MODULUS
      modifies this
      ensures IsOldest(old(incompleteAccessUnits), id) && incompleteAccessUnits == old(incompleteAccessUnits) - {id}
      ensures droppedIncompleteAccessUnits == droppedTotal % U64_MODULUS && droppedTotal == old(droppedTotal) + 1
    {
      id := Oldest();
      incompleteAccessUnits := incompleteAccessUnits - {id};
      CountDrop();
    }

    method EvictOldest() returns (ghost evicted: seq<u64>)
      requires Valid()
      modifies this
      ensures Valid() && Abstract() == Evict(old(Abstract()), evicted)
      ensures EvictionOrder(config, old(incompleteAccessUnits), evicted)
    {
      ghost var before := incompleteAccessUnits;
      evicted := [];
      assert Without(before, evicted) == before;
      while |incompleteAccessUnits| >= config.maxInFlight
        invariant incompleteAccessUnits == Without(before, evicted) && EvictionPrefix(config, before, evicted)
        invariant droppedIncompleteAccessUnits == droppedTotal % U64_MODULUS
        invariant droppedTotal == old(droppedTotal) + |evicted|
        decreases |Without(before, evicted)|
      {
        if incompleteAccessUnits == map[] {
          break;
        }
        var oldestId := RemoveOldest();
        EvictOneMore(config, before, evicted, oldestId);
        evicted := evicted + [oldestId];
      }
    }

    method Push(d: seq<byte>, now: nat) returns (r: Outcome, ghost evicted: seq<u64>)
      requires Valid()
      modifies this
      ensures Valid()
      ensures ClientPushAllowed(config, old(Abstract()), DecodeHeader(d), now, evicted)
      ensures (Abstract(), r) == ClientPush(config, old(Abstract()), DecodeHeader(d), now, evicted)
    {
      PruneExpired(now);
      evicted := [];
      var decoded := DecodeHeader(d);
      if decoded.Err? {
        return Err(decoded.error), evicted;
      }
      var Packet(header, payload) := decoded.value;
      if payload == [] {
        return Err(EmptyPayload(header.id)), evicted;
      }
      if header.count == 1 {
        return Ok(Some(AccessUnit(header.id, payload, header.pts, header.duration, header.keyframe))), evicted;
      }
      evicted := EvictOldest();
      StoreKeepsTable(Abstract(), header, payload, now);
      ClientStoreIsStore(Abstract(), header, payload, now);
      r := StoreFragment(header, payload, now);
    }

    method StoreFragment(header: Header, payload: seq<byte>, now: nat) returns (r: Outcome)
      requires Valid() && header.index < header.count
      modifies this`incompleteAccessUnits
      ensures (Abstract(), r) == ClientStore(old(Abstract()), header, payload, now)
    {
      var entry := if header.id in incompleteAccessUnits then incompleteAccessUnits[header.id]
                   else NewEntry(header, now);
      if !MatchesFragmentMetadata(entry.header, header) {
        return Err(InconsistentFragmentMetadata(header.id));
      }
      if entry.fragments[header.index].None? {
        entry := entry.(fragments := entry.fragments[header.index := Some(payload)],
                        received := entry.received + 1);
      }
      if entry.received != |entry.fragments| {
        incompleteAccessUnits := incompleteAccessUnits[header.id := entry];
        return Ok(None);
      }
      incompleteAccessUnits := incompleteAccessUnits - {header.id};
      return Ok(Some(AccessUnit(header.id, Flatten(Present(entry.fragments)),
                                header.pts, header.duration, header.keyframe)));
    }
  }

  lemma RetainOne(c: Config, m: map<u64, Entry>, rest: set<u64>, id: u64, now: nat)
    requires id in m && id in rest
    ensures var before := RetainedBut(c, m, rest, now);
            var after := RetainedBut(c, m, rest - {id}, now);
            && |rest - {id}| == |rest| - 1
            && after == (if Retained(c, m[id], now) then before[id := m[id]] else before)
            && |after| == |before| + if Retained(c, m[id], now) then 1 else 0
  {
    var before := RetainedBut(c, m, rest, now);
    assert before[id := m[id]].Keys == before.Keys + {id};
  }

  // ----- agreement with the host

  /** The two decoders agree on exactly the datagrams that are short, of another version, or video. */
  lemma DecodersAgree(d: seq<byte>)
    ensures DecodeHeader(d) == Decode(d) <==> |d| < HEADER_LEN || d[0] != VERSION || d[2] == KIND_VIDEO
  {
  }

  /**
   * The two expiry tests agree on every entry exactly when the timeout is positive or the clock
   * has not gone back behind the entry.
   */
  lemma ExpiryAgrees(c: Config, e: Entry, now: nat)
    ensures (Retained(c, e, now) <==> Live(c, e, now)) <==> c.incompleteTimeout > 0 || e.firstSeenAt <= now
  {
  }

  ghost predicate ClockFits(c: Config, m: map<u64, Entry>, now: nat) {
    c.incompleteTimeout > 0 || forall id | id in m :: m[id].firstSeenAt <= now
  }

  lemma PrunesAgree(c: Config, s: State, now: nat)
    requires ClockFits(c, s.incomplete, now)
    ensures ClientPrune(c, s, now) == Prune(c, s, now)
  {
    var m := s.incomplete;
    assert RetainedBut(c, m, {}, now) == LiveEntries(c, m, now) by {
      forall id | id in m
        ensures Retained(c, m[id], now) <==> Live(c, m[id], now)
      {
        ExpiryAgrees(c, m[id], now);
      }
    }
  }

  lemma PushesAgree(c: Config, s: State, r: Decoded, now: nat, evicted: seq<u64>)
    requires ValidTable(s.incomplete) && ClockFits(c, s.incomplete, now)
    ensures ClientPush(c, s, r, now, evicted) == Push(c, s, r, now, evicted)
    ensures ClientPushAllowed(c, s, r, now, evicted) <==> PushAllowed(c, s, r, now, evicted)
  {
    PrunesAgree(c, s, now);
    if IsPart(r) {
      ClientStoreIsStore(Evict(Prune(c, s, now), evicted), r.value.header, r.value.payload, now);
    }
  }

  /** What happens on the wire: raw datagrams, before either side decodes them. */
  datatype WireEvent =
    | Datagram(bytes: seq<byte>, now: nat, evicted: seq<u64>)
    | Tick(now: nat)

  function HostEvents(run: seq<WireEvent>): (events: seq<Event>)
    ensures |events| == |run|
  {
    seq(|run|, k requires 0 <= k < |run| =>
      match run[k]
      case Datagram(d, now, evicted) => Arrive(Decode(d), now, evicted)
      case Tick(now) => Expire(now))
  }

  function ClientStep(c: Config, s: State, e: WireEvent): (r: (State, Outcome))
    requires ValidTable(s.incomplete)
    ensures ValidTable(r.0.incomplete)
  {
    match e
    case Datagram(d, now, evicted) =>
      var result := ClientPush(c, s, DecodeHeader(d), now, evicted);
      assert ValidTable(result.0.incomplete) by {
        ClientPushKeepsTable(c, s, DecodeHeader(d), now, evicted);
      }
      result
    case Tick(now) => (ClientPrune(c, s, now), Ok(None))
  }

  lemma ClientPushKeepsTable(c: Config, s: State, r: Decoded, now: nat, evicted: seq<u64>)
    requires ValidTable(s.incomplete)
    ensures ValidTable(ClientPush(c, s, r, now, evicted).0.incomplete)
  {
    if IsPart(r) {
      var room := Evict(ClientPrune(c, s, now), evicted);
      ClientStoreIsStore(room, r.value.header, r.value.payload, now);
      StoreKeepsTable(room, r.value.header, r.value.payload, now);
    }
  }

  function ClientAfter(c: Config, run: seq<WireEvent>): (s: State)
    ensures ValidTable(s.incomplete)
  {
    if |run| == 0 then EMPTY else ClientStep(c, ClientAfter(c, run[..|run| - 1]), run[|run| - 1]).0
  }

  function ClientOutcomeAt(c: Config, run: seq<WireEvent>, k: nat): Outcome
    requires k < |run|
  {
    ClientStep(c, ClientAfter(c, run[..k]), run[k]).1
  }

  ghost predicate ClientAllowed(c: Config, s: State, e: WireEvent) {
    e.Datagram? ==> ClientPushAllowed(c, s, DecodeHeader(e.bytes), e.now, e.evicted)
  }

  /** Every datagram is one on which the two decoders agree. */
  ghost predicate VideoRun(run: seq<WireEvent>) {
    forall k | 0 <= k < |run| && run[k].Datagram? :: DecodeHeader(run[k].bytes) == Decode(run[k].bytes)
  }

  lemma HostEventsPrefix(run: seq<WireEvent>, k: nat)
    requires k <= |run|
    ensures HostEvents(run)[..k] == HostEvents(run[..k])
  {
  }

  lemma StepsAgree(c: Config, s: State, e: WireEvent, host: Event)
    requires ValidTable(s.incomplete) && c.incompleteTimeout > 0
    requires host == match e case Datagram(d, now, evicted) => Arrive(Decode(d), now, evicted) case Tick(now) => Expire(now)
    requires e.Datagram? ==> DecodeHeader(e.bytes) == Decode(e.bytes)
    ensures ClientStep(c, s, e) == Step(c, s, host)
    ensures ClientAllowed(c, s, e) <==> Allowed(c, s, host)
  {
    match e
    case Datagram(d, now, evicted) => PushesAgree(c, s, DecodeHeader(d), now, evicted);
    case Tick(now) => PrunesAgree(c, s, now);
  }

  lemma {:induction false} StatesAgree(c: Config, run: seq<WireEvent>)
    requires c.incompleteTimeout > 0 && VideoRun(run)
    ensures ClientAfter(c, run) == After(c, HostEvents(run))
  {
    if |run| == 0 {
    } else {
      var n := |run| - 1;
      assert VideoRun(run[..n]) by {
        assert forall k | 0 <= k < n :: run[..n][k] == run[k];
      }
      StatesAgree(c, run[..n]);
      HostEventsPrefix(run, n);
      StepsAgree(c, ClientAfter(c, run[..n]), run[n], HostEvents(run)[n]);
    }
  }

  /**
   * Simulation: on the same video datagrams and clock readings, with equal configurations, a
   * positive timeout and ties broken alike, the two reassemblers hold the same table, have
   * counted the same drops, permit the same evictions, and answer every push alike.
   */
  lemma ReassemblersSimulate(c: Config, run: seq<WireEvent>, k: nat)
    requires c.incompleteTimeout > 0 && VideoRun(run) && k < |run|
    ensures ClientAfter(c, run[..k]) == After(c, HostEvents(run)[..k])
    ensures ClientOutcomeAt(c, run, k) == OutcomeAt(c, HostEvents(run), k)
    ensures ClientAllowed(c, ClientAfter(c, run[..k]), run[k])
        <==> Allowed(c, After(c, HostEvents(run)[..k]), HostEvents(run)[k])
  {
    assert VideoRun(run[..k]) by {
      assert forall j | 0 <= j < k :: run[..k][j] == run[j];
    }
    StatesAgree(c, run[..k]);
    HostEventsPrefix(run, k);
    StepsAgree(c, ClientAfter(c, run[..k]), run[k], HostEvents(run)[k]);
  }

  // ----- with a zero timeout

  const NO_PATIENCE := Config(0, 32)

  function FirstOfTwo(): Header {
    Header(1, 0, 2, 0, 0, false)
  }

  /** One push into an empty table. */
  lemma FirstFragmentStored(payload: byte)
    ensures Store(EMPTY, FirstOfTwo(), [payload], 5)
         == (State(map[1 := Entry(FirstOfTwo(), 5, [Some([payload]), None], 1)], 0), Ok(None))
  {
    var e := NewEntry(FirstOfTwo(), 5);
    assert EntryFor(EMPTY.incomplete, FirstOfTwo(), 5) == e && e.fragments == [None, None];
    assert Fill(e, 0, [payload]).fragments == [Some([payload]), None];
  }

  /** A datagram arrives at time 5, and the clock goes back to 3. */
  function BackwardRun(payload: byte): seq<WireEvent> {
    [Datagram(HeaderBytes(FirstOfTwo()) + [payload], 5, [])] + [Tick(3)]
  }

  lemma PushIntoEmpty(payload: byte)
    ensures var r := Ok(Packet(FirstOfTwo(), [payload]));
            && ClientPush(NO_PATIENCE, EMPTY, r, 5, []) == Push(NO_PATIENCE, EMPTY, r, 5, [])
            && Push(NO_PATIENCE, EMPTY, r, 5, []) == Store(EMPTY, FirstOfTwo(), [payload], 5)
            && ClientPushAllowed(NO_PATIENCE, EMPTY, r, 5, [])
  {
    var r := Ok(Packet(FirstOfTwo(), [payload]));
    PushesAgree(NO_PATIENCE, EMPTY, r, 5, []);
    assert Prune(NO_PATIENCE, EMPTY, 5) == EMPTY && Evict(EMPTY, []) == EMPTY;
  }

  lemma BackwardStart(payload: byte)
    ensures var run := BackwardRun(payload)[..1];
            var after := Store(EMPTY, FirstOfTwo(), [payload], 5).0;
            && VideoRun(run) && ClientAllowed(NO_PATIENCE, EMPTY, run[0])
            && ClientAfter(NO_PATIENCE, run) == after && After(NO_PATIENCE, HostEvents(run)) == after
  {
    var run := BackwardRun(payload)[..1];
    var d := HeaderBytes(FirstOfTwo()) + [payload];
    DecodeEncoded(FirstOfTwo(), [payload]);
    HeaderSlices(FirstOfTwo(), [payload]);
    DecodersAgree(d);
    PushIntoEmpty(payload);
    assert run[..0] == [] && HostEvents(run)[..0] == [];
    assert HostEvents(run)[0] == Arrive(Decode(d), 5, []);
  }

  /**
   * With a zero timeout the two differ as soon as the clock goes back: a fragment arrives at
   * time 5, and pruning at time 3 drops its entry on the host and keeps it on the client.
   */
  lemma ZeroTimeoutDiffers(payload: byte)
    ensures var run := BackwardRun(payload);
            && VideoRun(run) && ClientAllowed(NO_PATIENCE, EMPTY, run[0])
            && ClientAfter(NO_PATIENCE, run).incomplete.Keys == {1}
            && After(NO_PATIENCE, HostEvents(run)) == State(map[], 1)
  {
    var run := BackwardRun(payload);
    BackwardStart(payload);
    FirstFragmentStored(payload);
    TickBack(payload);
    assert run[..|run| - 1] == run[..1];
    TickLast(NO_PATIENCE, run, 3);
  }

  lemma TickLast(c: Config, run: seq<WireEvent>, now: nat)
    requires |run| > 0 && run[|run| - 1] == Tick(now)
    ensures var front := run[..|run| - 1];
            && ClientAfter(c, run) == ClientPrune(c, ClientAfter(c, front), now)
            && After(c, HostEvents(run)) == Prune(c, After(c, HostEvents(front)), now)
  {
    HostEventsPrefix(run, |run| - 1);
  }

  lemma TickBack(payload: byte)
    ensures var s := State(map[1 := Entry(FirstOfTwo(), 5, [Some([payload]), None], 1)], 0);
            && ClientPrune(NO_PATIENCE, s, 3).incomplete.Keys == {1}
            && Prune(NO_PATIENCE, s, 3) == State(map[], 1)
  {
    var e := Entry(FirstOfTwo(), 5, [Some([payload]), None], 1);
    var m: map<u64, Entry> := map[1 := e];
    assert Retained(NO_PATIENCE, e, 3) && !Live(NO_PATIENCE, e, 3);
    assert LiveEntries(NO_PATIENCE, m, 3) == map[];
    assert RetainedBut(NO_PATIENCE, m, {}, 3) == m;
  }
}
