/** Conditions on the traffic alone under which the media path delivers. */
module Arrivals {
  import opened Wrappers
  import opened Bytes
  import opened MediaHeader
  import Packetizer
  import opened Reassembler
  import opened ReassemblyRuns
  import opened ClientReassembler
  import opened AnnexB
  import opened AnnexBScanner
  import opened AccessUnits
  import opened MediaPath

  // ----- many units, interleaved, with repetitions and noise

  /** The ids of the units that parts arrived of. */
  function PartIds(run: seq<Event>): set<u64> {
    if |run| == 0 then {}
    else
      var e := run[|run| - 1];
      PartIds(run[..|run| - 1]) + if e.Arrive? && IsPart(e.packet) then {e.packet.value.header.id} else {}
  }

  predicate InWindow(run: seq<Event>, lo: nat, timeout: nat) {
    forall k | 0 <= k < |run| :: lo <= run[k].now < lo + timeout
  }

  predicate NoneEvicted(run: seq<Event>) {
    forall k | 0 <= k < |run| && run[k].Arrive? :: run[k].evicted == []
  }

  lemma StepKeys(c: Config, s: State, e: Event)
    requires ValidTable(s.incomplete)
    ensures Step(c, s, e).0.incomplete.Keys
         <= s.incomplete.Keys + if e.Arrive? && IsPart(e.packet) then {e.packet.value.header.id} else {}
  {
    PruneKeys(c, s, e.now);
    if e.Arrive? && IsPart(e.packet) {
      var room := Evict(Prune(c, s, e.now), e.evicted);
      StoreKeys(room, e.packet.value.header, e.packet.value.payload, e.now);
    }
  }

  lemma PruneKeys(c: Config, s: State, now: nat)
    ensures Prune(c, s, now).incomplete.Keys <= s.incomplete.Keys
  {}

  lemma StoreKeys(s: State, h: Header, payload: seq<byte>, now: nat)
    requires ValidTable(s.incomplete) && h.index < h.count && h.count > 1
    ensures Store(s, h, payload, now).0.incomplete.Keys <= s.incomplete.Keys + {h.id}
  {}

  /** Every entry belongs to a unit that a part arrived of. */
  lemma {:induction false} EntriesHadParts(c: Config, run: seq<Event>)
    ensures After(c, run).incomplete.Keys <= PartIds(run)
  {
    if |run| == 0 {
    } else {
      EntriesHadParts(c, run[..|run| - 1]);
      StepKeys(c, After(c, run[..|run| - 1]), run[|run| - 1]);
    }
  }

  lemma {:induction false} PartIdsPrefix(run: seq<Event>, k: nat)
    requires k <= |run|
    ensures PartIds(run[..k]) <= PartIds(run)
    decreases |run|
  {
    if k == |run| {
      assert run[..k] == run;
    } else {
      PartIdsPrefix(run[..|run| - 1], k);
      assert run[..|run| - 1][..k] == run[..k];
    }
  }

  lemma {:induction false} FirstInWindow(run: seq<Event>, id: u64, lo: nat, timeout: nat)
    requires InWindow(run, lo, timeout) && FirstAt(run, id).Some?
    ensures lo <= FirstAt(run, id).value < lo + timeout
  {
    if FirstAt(run[..|run| - 1], id).None? {
    } else {
      FirstInWindow(run[..|run| - 1], id, lo, timeout);
    }
  }

  lemma RoomBefore(c: Config, run: seq<Event>, k: nat)
    requires k < |run| && |PartIds(run)| < c.maxInFlight
    ensures |Prune(c, After(c, run[..k]), run[k].now).incomplete| < c.maxInFlight
  {
    EntriesHadParts(c, run[..k]);
    PartIdsPrefix(run, k);
    LiveIsSubset(c, After(c, run[..k]).incomplete, run[k].now);
    SubsetSize(After(c, run[..k]).incomplete.Keys, PartIds(run));
  }

  /** Fewer units than the limit, all within one timeout: no unit is disturbed. */
  lemma FewUnitsUndisturbed(c: Config, run: seq<Event>, id: u64, lo: nat)
    requires |PartIds(run)| < c.maxInFlight && InWindow(run, lo, c.incompleteTimeout)
    ensures Undisturbed(c, run, id)
  {
    forall k | 0 <= k < |run| && FirstAt(run[..k], id).Some?
      ensures Elapsed(run[k].now, FirstAt(run[..k], id).value) < c.incompleteTimeout
      ensures |Prune(c, After(c, run[..k]), run[k].now).incomplete| < c.maxInFlight
    {
      FirstInWindow(run[..k], id, lo, c.incompleteTimeout);
      RoomBefore(c, run, k);
    }
  }

  lemma EvictionWithRoom(c: Config, m: map<u64, Entry>, evicted: seq<u64>)
    requires |m| < c.maxInFlight
    ensures EvictionOrder(c, m, evicted) <==> evicted == []
  {
    if EvictionOrder(c, m, evicted) {
      NoEviction(c, m, evicted);
    }
  }

  /** With fewer units than the limit a run is legal if and only if nothing is ever evicted. */
  lemma FewUnitsLegal(c: Config, run: seq<Event>)
    requires |PartIds(run)| < c.maxInFlight
    ensures Legal(c, run) <==> NoneEvicted(run)
  {
    forall k | 0 <= k < |run|
      ensures Allowed(c, After(c, run[..k]), run[k]) <==> (run[k].Arrive? ==> run[k].evicted == [])
    {
      RoomBefore(c, run, k);
      if run[k].Arrive? {
        EvictionWithRoom(c, Prune(c, After(c, run[..k]), run[k].now).incomplete, run[k].evicted);
      }
    }
  }

  lemma {:induction false} PartIdsWereSent(sent: map<u64, Source>, run: seq<Event>)
    requires Traffic(sent) && GenuineRun(sent, run)
    ensures PartIds(run) <= sent.Keys
  {
    if |run| == 0 {
    } else {
      PartIdsWereSent(sent, run[..|run| - 1]);
    }
  }

  /**
   * Interleaved delivery: of fewer units than the limit, sent within one timeout, each is
   * delivered exactly at its last missing part, in whatever order the parts of all of them come,
   * with repetitions, losses of other units and noise in between.
   */
  lemma InterleavedDelivers(c: Config, sent: map<u64, Source>, run: seq<Event>, id: u64, k: nat, lo: nat)
    requires Traffic(sent) && GenuineRun(sent, run) && NoneEvicted(run)
    requires |sent| < c.maxInFlight && InWindow(run, lo, c.incompleteTimeout)
    requires k < |run| && PartOf(run[k], id)
    requires id in sent && !HasAll(sent[id], Got(run[..k], id))
    ensures OutcomeAt(c, run, k) ==
            if HasAll(sent[id], Got(run[..k + 1], id)) then Ok(Some(Original(sent[id], id))) else Ok(None)
  {
    PartIdsWereSent(sent, run);
    SubsetSize(PartIds(run), sent.Keys);
    FewUnitsUndisturbed(c, run, id, lo);
    FewUnitsLegal(c, run);
    DeliveredAtLastFragment(c, sent, run, id, k);
  }

  predicate WireInWindow(run: seq<WireEvent>, lo: nat, timeout: nat) {
    forall k | 0 <= k < |run| :: lo <= run[k].now < lo + timeout && (run[k].Datagram? ==> run[k].evicted == [])
  }

  /**
   * From sample to sample under conditions on the traffic alone: of fewer units than the limit,
   * sent within one timeout, the delta frame whose last missing datagram arrives at event k
   * ends there as the encoder's sample.
   */
  lemma InterleavedEndToEnd(c: Config, sent: map<u64, Sent>, run: seq<WireEvent>, id: u64, k: nat, lo: nat,
                            nals: seq<Nal>, header: Option<seq<byte>>)
    requires c.incompleteTimeout > 0 && Packetized(sent) && Network(sent, run) && k < |run|
    requires |sent| < c.maxInFlight && WireInWindow(run, lo, c.incompleteTimeout)
    requires id in sent && CompletesAt(sent, run, id, k)
    requires WellReadSample(nals) && SentDelta(sent[id], nals, header)
    ensures var r := ClientOutcomeAt(c, run, k);
            r.Ok? && r.value.Some? && DecoderSample(r.value.value) == LengthPrefixed(nals, 4)
  {
    NetworkIsGenuine(sent, run);
    SourcesKeys(sent);
    InterleavedDelivers(c, Sources(sent), HostEvents(run), id, k, lo);
    ReassemblersSimulate(c, run, k);
    SourceIsValid(sent[id]);
    DeltaSampleSurvives(sent[id], id, nals, header);
  }

  lemma SourcesKeys(sent: map<u64, Sent>)
    requires Packetized(sent)
    ensures Sources(sent).Keys == sent.Keys && |Sources(sent)| == |sent|
  {
    assert Sources(sent).Keys == sent.Keys;
  }

  // ----- a window that slides, for runs of any length

  /** The ids of the units that a part arrived of, less than a timeout ago. */
  function RecentIds(c: Config, run: seq<Event>, now: nat): set<u64> {
    if |run| == 0 then {}
    else
      var e := run[|run| - 1];
      RecentIds(c, run[..|run| - 1], now)
      + if e.Arrive? && IsPart(e.packet) && Elapsed(now, e.now) < c.incompleteTimeout
        then {e.packet.value.header.id} else {}
  }

  /** A part of the unit arrived at time t. */
  predicate PartAt(run: seq<Event>, id: u64, t: nat) {
    |run| > 0 &&
    (PartAt(run[..|run| - 1], id, t) || (PartOf(run[|run| - 1], id) && run[|run| - 1].now == t))
  }

  lemma StoreFirstSeen(s: State, h: Header, payload: seq<byte>, now: nat, id: u64)
    requires ValidTable(s.incomplete) && h.index < h.count && h.count > 1
    requires id in Store(s, h, payload, now).0.incomplete
    ensures var e := Store(s, h, payload, now).0.incomplete[id];
            if id in s.incomplete then e.firstSeenAt == s.incomplete[id].firstSeenAt else id == h.id && e.firstSeenAt == now
  {}

  lemma StepFirstSeen(c: Config, s: State, e: Event, id: u64)
    requires ValidTable(s.incomplete) && id in Step(c, s, e).0.incomplete
    ensures var after := Step(c, s, e).0.incomplete[id];
            || (id in s.incomplete && after.firstSeenAt == s.incomplete[id].firstSeenAt)
            || (PartOf(e, id) && after.firstSeenAt == e.now)
  {
    if e.Arrive? && IsPart(e.packet) {
      var room := Evict(Prune(c, s, e.now), e.evicted);
      StoreFirstSeen(room, e.packet.value.header, e.packet.value.payload, e.now, id);
    }
  }

  /** Every entry was first seen when a part of its unit arrived. */
  lemma {:induction false} EntriesSeen(c: Config, run: seq<Event>, id: u64)
    requires id in After(c, run).incomplete
    ensures PartAt(run, id, After(c, run).incomplete[id].firstSeenAt)
  {
    if |run| == 0 {
    } else {
      var front := run[..|run| - 1];
      StepFirstSeen(c, After(c, front), run[|run| - 1], id);
      if id in After(c, front).incomplete {
        EntriesSeen(c, front, id);
      }
    }
  }

  lemma {:induction false} RecentWhen(c: Config, run: seq<Event>, now: nat, id: u64, t: nat)
    requires PartAt(run, id, t) && Elapsed(now, t) < c.incompleteTimeout
    ensures id in RecentIds(c, run, now)
  {
    if PartOf(run[|run| - 1], id) && run[|run| - 1].now == t {
    } else {
      RecentWhen(c, run[..|run| - 1], now, id, t);
    }
  }

  /** What survives pruning has had a part less than a timeout ago. */
  lemma LiveIsRecent(c: Config, run: seq<Event>, now: nat)
    ensures Prune(c, After(c, run), now).incomplete.Keys <= RecentIds(c, run, now)
    ensures |Prune(c, After(c, run), now).incomplete| <= |RecentIds(c, run, now)|
  {
    var m := Prune(c, After(c, run), now).incomplete;
    forall id | id in m ensures id in RecentIds(c, run, now) {
      EntriesSeen(c, run, id);
      RecentWhen(c, run, now, id, m[id].firstSeenAt);
    }
    SubsetSize(m.Keys, RecentIds(c, run, now));
  }

  /**
   * From the first part of the unit on, every clock reading is within the timeout of it, and
   * at each part that comes fewer units than the limit have had a part less than a timeout ago.
   */
  ghost predicate Uncrowded(c: Config, run: seq<Event>, id: u64) {
    forall k | 0 <= k < |run| && FirstAt(run[..k], id).Some? ::
      && Elapsed(run[k].now, FirstAt(run[..k], id).value) < c.incompleteTimeout
      && (run[k].Arrive? && IsPart(run[k].packet) ==> |RecentIds(c, run[..k], run[k].now)| < c.maxInFlight)
  }

  /** A condition on the traffic, at whatever point of a run of any length: the unit is undisturbed. */
  lemma UncrowdedUndisturbed(c: Config, run: seq<Event>, id: u64)
    requires Uncrowded(c, run, id)
    ensures Undisturbed(c, run, id)
  {
    forall k | 0 <= k < |run| && FirstAt(run[..k], id).Some?
      ensures Elapsed(run[k].now, FirstAt(run[..k], id).value) < c.incompleteTimeout
      ensures run[k].Arrive? && IsPart(run[k].packet) ==>
                |Prune(c, After(c, run[..k]), run[k].now).incomplete| < c.maxInFlight
    {
      LiveIsRecent(c, run[..k], run[k].now);
    }
  }

  /**
   * From sample to sample at any point of a long run: while few enough units are on their way at
   * once, a delta frame ends at its last missing datagram as the encoder's sample, whatever was
   * lost, expired or evicted before.
   */
  lemma SlidingEndToEnd(c: Config, sent: map<u64, Sent>, run: seq<WireEvent>, id: u64, k: nat,
                        nals: seq<Nal>, header: Option<seq<byte>>)
    requires c.incompleteTimeout > 0 && Packetized(sent) && Network(sent, run) && k < |run|
    requires forall j | 0 <= j < |run| :: ClientAllowed(c, ClientAfter(c, run[..j]), run[j])
    requires Uncrowded(c, HostEvents(run), id)
    requires id in sent && CompletesAt(sent, run, id, k)
    requires WellReadSample(nals) && SentDelta(sent[id], nals, header)
    ensures var r := ClientOutcomeAt(c, run, k);
            r.Ok? && r.value.Some? && DecoderSample(r.value.value) == LengthPrefixed(nals, 4)
  {
    UncrowdedUndisturbed(c, HostEvents(run), id);
    EndToEndDelta(c, sent, run, id, k, nals, header);
  }

  // ----- one unit alone, with nothing to assume about the run

  /** A part of the unit arrives. */
  datatype Arrival = Arrival(part: nat, now: nat)

  predicate Comes(arrivals: seq<Arrival>, part: nat) {
    exists k :: 0 <= k < |arrivals| && arrivals[k].part == part
  }

  /** All n parts arrive within the window, in any order and with repetitions, the last one completing them. */
  ghost predicate Completing(arrivals: seq<Arrival>, n: nat, lo: nat, timeout: nat) {
    && arrivals != []
    && (forall k | 0 <= k < |arrivals| :: arrivals[k].part < n && lo <= arrivals[k].now < lo + timeout)
    && (forall i | 0 <= i < n :: Comes(arrivals, i))
    && (forall k | 0 <= k < |arrivals| - 1 :: arrivals[k].part != arrivals[|arrivals| - 1].part)
  }

  /** The packetizer's datagrams as they arrive. */
  function WireRun(u: Sent, id: u64, arrivals: seq<Arrival>): (run: seq<WireEvent>)
    requires Packetizer.Packetizable(u) && forall k | 0 <= k < |arrivals| :: arrivals[k].part < Packetizer.Count(u)
    ensures |run| == |arrivals|
  {
    seq(|arrivals|, k requires 0 <= k < |arrivals| =>
      Datagram(Packetizer.Datagram(u, id, arrivals[k].part), arrivals[k].now, []))
  }

  lemma {:induction false} GotWhat(u: Source, id: u64, run: seq<Event>, parts: seq<nat>)
    requires ValidSource(u) && |u.parts| >= 2 && |run| == |parts|
    requires forall k | 0 <= k < |run| ::
               run[k].Arrive? && parts[k] < |u.parts| && run[k].packet == Ok(PacketOf(u, id, parts[k]))
    ensures forall i: int :: i in Got(run, id) <==> i >= 0 && i in parts
  {
    if |run| == 0 {
    } else {
      var n := |run| - 1;
      GotWhat(u, id, run[..n], parts[..n]);
      assert parts == parts[..n] + [parts[n]];
    }
  }

  lemma WireEventFits(u: Sent, id: u64, i: nat)
    requires Packetizer.Packetizable(u) && i < Packetizer.Count(u)
    ensures ValidSource(SourceOf(u)) && i < |SourceOf(u).parts|
    ensures Packetized(map[id := u]) && FromPacketizer(map[id := u], Packetizer.Datagram(u, id, i))
    ensures Decode(Packetizer.Datagram(u, id, i)) == Ok(PacketOf(SourceOf(u), id, i))
  {
    assert map[id := u][id] == u;
    DatagramDecodes(u, id, i);
  }

  lemma WireRunFits(u: Sent, id: u64, arrivals: seq<Arrival>, lo: nat, timeout: nat)
    requires Packetizer.Packetizable(u) && Completing(arrivals, Packetizer.Count(u), lo, timeout)
    ensures Packetized(map[id := u]) && Network(map[id := u], WireRun(u, id, arrivals))
    ensures WireInWindow(WireRun(u, id, arrivals), lo, timeout)
    ensures ValidSource(SourceOf(u)) && |SourceOf(u).parts| == Packetizer.Count(u)
    ensures forall k | 0 <= k < |arrivals| ::
              var e := HostEvents(WireRun(u, id, arrivals))[k];
              e.Arrive? && e.packet == Ok(PacketOf(SourceOf(u), id, arrivals[k].part))
  {
    SourceIsValid(u);
    forall k | 0 <= k < |arrivals|
      ensures FromPacketizer(map[id := u], WireRun(u, id, arrivals)[k].bytes)
      ensures Decode(WireRun(u, id, arrivals)[k].bytes) == Ok(PacketOf(SourceOf(u), id, arrivals[k].part))
    {
      WireEventFits(u, id, arrivals[k].part);
    }
  }

  /** The last of the parts was missing before it came, and no part is missing then. */
  lemma LastPartCompletes(u: Source, id: u64, run: seq<Event>, parts: seq<nat>)
    requires ValidSource(u) && |u.parts| >= 2 && |run| == |parts| > 0
    requires forall k | 0 <= k < |run| ::
               run[k].Arrive? && parts[k] < |u.parts| && run[k].packet == Ok(PacketOf(u, id, parts[k]))
    requires parts[|parts| - 1] !in parts[..|parts| - 1]
    requires forall i: nat | i < |u.parts| :: i in parts
    ensures var n := |run| - 1;
            PartOf(run[n], id) && !HasAll(u, Got(run[..n], id)) && HasAll(u, Got(run[..n + 1], id))
  {
    var n := |run| - 1;
    GotWhat(u, id, run[..n], parts[..n]);
    GotWhat(u, id, run, parts);
    assert run[..n + 1] == run;
    var last := parts[n];
    assert last !in Got(run[..n], id) && last < |u.parts|;
  }

  /**
   * A fresh reassembler that receives every part of a unit, in any order and with repetitions,
   * answers the last one with the unit.
   */
  lemma AnyOrderDelivers(c: Config, u: Source, id: u64, run: seq<Event>, parts: seq<nat>, lo: nat)
    requires ValidSource(u) && |u.parts| >= 2 && c.maxInFlight >= 2 && |run| == |parts| > 0
    requires NoneEvicted(run) && InWindow(run, lo, c.incompleteTimeout)
    requires forall k | 0 <= k < |run| ::
               run[k].Arrive? && parts[k] < |u.parts| && run[k].packet == Ok(PacketOf(u, id, parts[k]))
    requires parts[|parts| - 1] !in parts[..|parts| - 1]
    requires forall i: nat | i < |u.parts| :: i in parts
    ensures OutcomeAt(c, run, |run| - 1) == Ok(Some(Original(u, id)))
  {
    LastPartCompletes(u, id, run, parts);
    InterleavedDelivers(c, map[id := u], run, id, |run| - 1, lo);
  }

  // ----- which configurations can deliver a unit of several parts at all

  /** A part that finds the table empty only opens an entry. */
  lemma PartAloneWaits(c: Config, s: State, e: Event)
    requires ValidTable(s.incomplete) && e.Arrive? && IsPart(e.packet)
    requires Evict(Prune(c, s, e.now), e.evicted).incomplete == map[]
    ensures Step(c, s, e).1 == Ok(None)
  {
    var room := Evict(Prune(c, s, e.now), e.evicted);
    var h := e.packet.value.header;
    assert EntryFor(room.incomplete, h, e.now) == NewEntry(h, e.now);
  }

  lemma NoRoomLeft(c: Config, s: State, e: Event)
    requires ValidTable(s.incomplete) && Allowed(c, s, e) && e.Arrive? && IsPart(e.packet)
    requires c.incompleteTimeout == 0 || c.maxInFlight <= 1
    ensures Evict(Prune(c, s, e.now), e.evicted).incomplete == map[]
  {
    var m := Prune(c, s, e.now).incomplete;
    if c.incompleteTimeout == 0 {
      assert m == map[];
      EvictedSize(c, m, e.evicted);
    }
  }

  /** With a limit of one, or no patience, every part is the only one its unit ever has. */
  lemma NeverDelivered(c: Config, run: seq<Event>, k: nat)
    requires Legal(c, run) && k < |run| && run[k].Arrive? && IsPart(run[k].packet)
    requires c.incompleteTimeout == 0 || c.maxInFlight <= 1
    ensures OutcomeAt(c, run, k) == Ok(None)
  {
    NoRoomLeft(c, After(c, run[..k]), run[k]);
    PartAloneWaits(c, After(c, run[..k]), run[k]);
  }

  /** At event k of a legal run a unit of several parts is delivered. */
  ghost predicate DeliversAt(c: Config, run: seq<Event>, k: nat) {
    && k < |run| && Legal(c, run) && run[k].Arrive? && IsPart(run[k].packet)
    && OutcomeAt(c, run, k).Ok? && OutcomeAt(c, run, k).value.Some?
  }

  const TWO_PARTS := Source([[1], [2]], 0, 0, false)

  function TwoArrivals(): seq<Event> {
    [Arrive(Ok(PacketOf(TWO_PARTS, 1, 0)), 0, []), Arrive(Ok(PacketOf(TWO_PARTS, 1, 1)), 0, [])]
  }

  lemma TwoArrivalsLegal(c: Config)
    requires c.maxInFlight >= 2
    ensures Legal(c, TwoArrivals())
  {
    var sent := map[1 := TWO_PARTS];
    PartIdsWereSent(sent, TwoArrivals());
    SubsetSize(PartIds(TwoArrivals()), sent.Keys);
    FewUnitsLegal(c, TwoArrivals());
  }

  lemma TwoPartsCome()
    ensures var run, parts := TwoArrivals(), [0, 1];
            && ValidSource(TWO_PARTS) && (forall k | 0 <= k < |run| ::
                 run[k].Arrive? && parts[k] < 2 && run[k].packet == Ok(PacketOf(TWO_PARTS, 1, parts[k])))
            && parts[1] !in parts[..1] && (forall i: nat | i < 2 :: i in parts)
            && NoneEvicted(run) && forall timeout: nat | timeout > 0 :: InWindow(run, 0, timeout)
  {
    var parts := [0, 1];
    assert parts[0] == 0 && parts[1] == 1;
  }

  lemma TwoPartsDelivered(c: Config)
    requires c.incompleteTimeout > 0 && c.maxInFlight >= 2
    ensures DeliversAt(c, TwoArrivals(), 1)
  {
    TwoPartsCome();
    TwoArrivalsLegal(c);
    AnyOrderDelivers(c, TWO_PARTS, 1, TwoArrivals(), [0, 1], 0);
  }

  /** A unit of several parts can be delivered if and only if the timeout is positive and the limit at least two. */
  lemma DeliveryNeedsRoom(c: Config)
    ensures (exists run, k :: DeliversAt(c, run, k)) <==> c.incompleteTimeout > 0 && c.maxInFlight >= 2
  {
    if run, k :| DeliversAt(c, run, k) {
      if c.incompleteTimeout == 0 || c.maxInFlight <= 1 {
        NeverDelivered(c, run, k);
      }
    }
    if c.incompleteTimeout > 0 && c.maxInFlight >= 2 {
      TwoPartsDelivered(c);
    }
  }

  function PartsOf(arrivals: seq<Arrival>): (parts: seq<nat>)
    ensures |parts| == |arrivals|
  {
    seq(|arrivals|, k requires 0 <= k < |arrivals| => arrivals[k].part)
  }

  lemma PartsCome(arrivals: seq<Arrival>, n: nat, lo: nat, timeout: nat)
    requires Completing(arrivals, n, lo, timeout)
    ensures var parts := PartsOf(arrivals);
            && parts[|parts| - 1] !in parts[..|parts| - 1]
            && forall i: nat | i < n :: i in parts
  {
    var parts := PartsOf(arrivals);
    forall i: nat | i < n ensures i in parts {
      assert Comes(arrivals, i);
      var k :| 0 <= k < |arrivals| && arrivals[k].part == i;
      assert parts[k] == i;
    }
  }

  lemma LastCompletes(u: Sent, id: u64, arrivals: seq<Arrival>, lo: nat, timeout: nat)
    requires Packetizer.Packetizable(u) && Packetizer.Count(u) >= 2
    requires Completing(arrivals, Packetizer.Count(u), lo, timeout)
    ensures Packetized(map[id := u])
    ensures CompletesAt(map[id := u], WireRun(u, id, arrivals), id, |arrivals| - 1)
  {
    WireRunFits(u, id, arrivals, lo, timeout);
    PartsCome(arrivals, Packetizer.Count(u), lo, timeout);
    LastPartCompletes(SourceOf(u), id, HostEvents(WireRun(u, id, arrivals)), PartsOf(arrivals));
  }

  /**
   * A fresh client that receives the datagrams of one delta frame and nothing else, in any order
   * and with repetitions, ends with the encoder's sample.
   */
  lemma AnyOrderEndToEnd(c: Config, u: Sent, id: u64, arrivals: seq<Arrival>, lo: nat,
                         nals: seq<Nal>, header: Option<seq<byte>>)
    requires c.maxInFlight >= 2 && c.incompleteTimeout > 0
    requires WellReadSample(nals) && SentDelta(u, nals, header)
    requires Packetizer.Packetizable(u) && Packetizer.Count(u) >= 2
    requires Completing(arrivals, Packetizer.Count(u), lo, c.incompleteTimeout)
    ensures var r := ClientOutcomeAt(c, WireRun(u, id, arrivals), |arrivals| - 1);
            r.Ok? && r.value.Some? && DecoderSample(r.value.value) == LengthPrefixed(nals, 4)
  {
    var sent := map[id := u];
    WireRunFits(u, id, arrivals, lo, c.incompleteTimeout);
    LastCompletes(u, id, arrivals, lo, c.incompleteTimeout);
    InterleavedEndToEnd(c, sent, WireRun(u, id, arrivals), id, |arrivals| - 1, lo, nals, header);
  }
}
