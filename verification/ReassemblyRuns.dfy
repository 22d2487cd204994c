/** What the host's reassembler guarantees over whole runs on an unreliable, unordered network. */
module ReassemblyRuns {
  import opened Wrappers
  import opened Bytes
  import opened MediaHeader
  import opened Reassembler

  /** A datagram arrives, or the owner prunes; the clock reading may be anything. */
  datatype Event =
    | Arrive(packet: Decoded, now: nat, evicted: seq<u64>)
    | Expire(now: nat)

  function Step(c: Config, s: State, e: Event): (r: (State, Outcome))
    requires ValidTable(s.incomplete)
    ensures ValidTable(r.0.incomplete)
  {
    match e
    case Arrive(d, now, evicted) =>
      PushKeepsTable(c, s, d, now, evicted);
      Push(c, s, d, now, evicted)
    case Expire(now) => (Prune(c, s, now), Ok(None))
  }

  ghost predicate Allowed(c: Config, s: State, e: Event) {
    e.Arrive? ==> PushAllowed(c, s, e.packet, e.now, e.evicted)
  }

  /** The state after a run that starts with an empty table. */
  function After(c: Config, run: seq<Event>): (s: State)
    ensures ValidTable(s.incomplete)
  {
    if |run| == 0 then EMPTY else Step(c, After(c, run[..|run| - 1]), run[|run| - 1]).0
  }

  function OutcomeAt(c: Config, run: seq<Event>, k: nat): Outcome
    requires k < |run|
  {
    Step(c, After(c, run[..k]), run[k]).1
  }

  ghost predicate Legal(c: Config, run: seq<Event>) {
    forall k | 0 <= k < |run| :: Allowed(c, After(c, run[..k]), run[k])
  }

  lemma LegalPrefix(c: Config, run: seq<Event>, k: nat)
    requires Legal(c, run) && k <= |run|
    ensures Legal(c, run[..k])
  {
    forall j | 0 <= j < k
      ensures Allowed(c, After(c, run[..k][..j]), run[..k][j])
    {
      assert run[..k][..j] == run[..j];
    }
  }

  // ----- soundness

  /** An access unit as the sender cut it. */
  datatype Source = Source(parts: seq<seq<byte>>, pts: i64, duration: i64, keyframe: bool)

  predicate ValidSource(u: Source) {
    0 < |u.parts| <= U16_MAX && forall i | 0 <= i < |u.parts| :: u.parts[i] != []
  }

  /** The packet that carries part i of unit id. */
  function PacketOf(u: Source, id: u64, i: nat): Packet
    requires ValidSource(u) && i < |u.parts|
  {
    Packet(Header(id, i, |u.parts|, u.pts, u.duration, u.keyframe), u.parts[i])
  }

  /** The units sent so far, by id. */
  ghost predicate Traffic(sent: map<u64, Source>) {
    forall id | id in sent :: ValidSource(sent[id])
  }

  /** The network delivers only packets that were sent, or bytes the reassembler rejects. */
  ghost predicate Genuine(sent: map<u64, Source>, r: Decoded)
    requires Traffic(sent)
  {
    r.Ok? && r.value.payload != [] ==>
      var h := r.value.header;
      h.id in sent && h.index < |sent[h.id].parts| && r.value == PacketOf(sent[h.id], h.id, h.index)
  }

  ghost predicate GenuineRun(sent: map<u64, Source>, run: seq<Event>)
    requires Traffic(sent)
  {
    forall k | 0 <= k < |run| && run[k].Arrive? :: Genuine(sent, run[k].packet)
  }

  function Original(u: Source, id: u64): AccessUnit {
    AccessUnit(id, Flatten(u.parts), u.pts, u.duration, u.keyframe)
  }

  ghost predicate FaithfulEntry(u: Source, e: Entry)
  {
    && |e.fragments| == |u.parts|
    && e.header.pts == u.pts && e.header.duration == u.duration && e.header.keyframe == u.keyframe
    && forall i | 0 <= i < |e.fragments| && e.fragments[i].Some? :: e.fragments[i].value == u.parts[i]
  }

  ghost predicate Faithful(sent: map<u64, Source>, m: map<u64, Entry>)
    requires Traffic(sent)
  {
    forall id | id in m :: id in sent && FaithfulEntry(sent[id], m[id])
  }

  lemma {:induction false} AssembleIsFlatten(slots: seq<Option<seq<byte>>>, parts: seq<seq<byte>>)
    requires |slots| == |parts|
    requires forall i | 0 <= i < |slots| :: slots[i] == Some(parts[i])
    ensures Assemble(slots) == Flatten(parts)
  {
    if |slots| == 0 {
    } else {
      AssembleIsFlatten(slots[1..], parts[1..]);
    }
  }

  lemma StoreSound(sent: map<u64, Source>, s: State, h: Header, payload: seq<byte>, now: nat)
    requires Traffic(sent) && ValidTable(s.incomplete) && Faithful(sent, s.incomplete)
    requires h.id in sent && h.index < h.count == |sent[h.id].parts| && h.count > 1
    requires Packet(h, payload) == PacketOf(sent[h.id], h.id, h.index)
    ensures var (s', r) := Store(s, h, payload, now);
            Faithful(sent, s'.incomplete) && (r == Ok(None) || r == Ok(Some(Original(sent[h.id], h.id))))
  {
    var u := sent[h.id];
    var e := EntryFor(s.incomplete, h, now);
    assert FaithfulEntry(u, e);
    var filled := Fill(e, h.index, payload);
    assert FaithfulEntry(u, filled);
    FilledNone(NewEntry(h, now).fragments);
    if e.fragments[h.index].None? {
      FilledUpdate(e.fragments, h.index, payload);
    }
    FilledAll(filled.fragments);
    if filled.received == |filled.fragments| {
      AssembleIsFlatten(filled.fragments, u.parts);
    }
  }

  lemma StepSound(c: Config, sent: map<u64, Source>, s: State, e: Event)
    requires Traffic(sent) && ValidTable(s.incomplete) && Faithful(sent, s.incomplete)
    requires e.Arrive? ==> Genuine(sent, e.packet)
    ensures var (s', r) := Step(c, s, e);
            Faithful(sent, s'.incomplete)
            && (r.Ok? && r.value.Some? ==>
                  r.value.value.id in sent && r.value.value == Original(sent[r.value.value.id], r.value.value.id))
  {
    if e.Arrive? && e.packet.Ok? && e.packet.value.payload != [] {
      var Packet(h, payload) := e.packet.value;
      if h.count == 1 {
        assert Flatten(sent[h.id].parts[1..]) == [];
      } else {
        StoreSound(sent, Evict(Prune(c, s, e.now), e.evicted), h, payload, e.now);
      }
    }
  }

  lemma {:induction false} StaysFaithful(c: Config, sent: map<u64, Source>, run: seq<Event>)
    requires Traffic(sent) && GenuineRun(sent, run)
    ensures Faithful(sent, After(c, run).incomplete)
  {
    if |run| == 0 {
    } else {
      var front := run[..|run| - 1];
      assert forall k | 0 <= k < |front| :: front[k] == run[k];
      StaysFaithful(c, sent, front);
      StepSound(c, sent, After(c, front), run[|run| - 1]);
    }
  }

  /**
   * Soundness: whatever is lost, repeated, reordered, corrupted beyond decoding, expired or
   * evicted, every unit delivered under an id is the unit sent under that id.
   */
  lemma DeliveredUnitsAreOriginal(c: Config, sent: map<u64, Source>, run: seq<Event>, k: nat)
    requires Traffic(sent) && GenuineRun(sent, run) && k < |run|
    ensures var r := OutcomeAt(c, run, k);
            r.Ok? && r.value.Some? ==>
              r.value.value.id in sent && r.value.value == Original(sent[r.value.value.id], r.value.value.id)
  {
    assert forall j | 0 <= j < k :: run[..k][j] == run[j];
    StaysFaithful(c, sent, run[..k]);
    StepSound(c, sent, After(c, run[..k]), run[k]);
  }

  // ----- completeness

  predicate PartOf(e: Event, id: u64) {
    e.Arrive? && IsPart(e.packet) && e.packet.value.header.id == id
  }

  /** The fragments of unit id that have arrived. */
  function Got(run: seq<Event>, id: u64): set<int> {
    if |run| == 0 then {}
    else
      var last := run[|run| - 1];
      Got(run[..|run| - 1], id) + if PartOf(last, id) then {last.packet.value.header.index} else {}
  }

  /** When the first fragment of unit id arrived. */
  function FirstAt(run: seq<Event>, id: u64): Option<nat> {
    if |run| == 0 then None
    else
      var front := FirstAt(run[..|run| - 1], id);
      if front.Some? then front
      else if PartOf(run[|run| - 1], id) then Some(run[|run| - 1].now) else None
  }

  ghost predicate HasAll(u: Source, got: set<int>) {
    forall i | 0 <= i < |u.parts| :: i in got
  }

  /**
   * From the first fragment of the unit on, every clock reading is within the timeout of it, and
   * no fragment finds the table at its limit.
   */
  ghost predicate Undisturbed(c: Config, run: seq<Event>, id: u64) {
    forall k | 0 <= k < |run| && FirstAt(run[..k], id).Some? ::
      && Elapsed(run[k].now, FirstAt(run[..k], id).value) < c.incompleteTimeout
      && (run[k].Arrive? && IsPart(run[k].packet) ==>
            |Prune(c, After(c, run[..k]), run[k].now).incomplete| < c.maxInFlight)
  }

  lemma PrefixConditions(c: Config, sent: map<u64, Source>, run: seq<Event>, id: u64, k: nat)
    requires Traffic(sent) && GenuineRun(sent, run) && Legal(c, run) && Undisturbed(c, run, id)
    requires k <= |run|
    ensures GenuineRun(sent, run[..k]) && Legal(c, run[..k]) && Undisturbed(c, run[..k], id)
  {
    LegalPrefix(c, run, k);
    assert forall j | 0 <= j < k :: run[..k][j] == run[j] && run[..k][..j] == run[..j];
  }

  lemma NoEviction(c: Config, m: map<u64, Entry>, evicted: seq<u64>)
    requires EvictionOrder(c, m, evicted) && |m| < c.maxInFlight
    ensures evicted == []
  {
    EvictedSize(c, m, evicted);
    if |evicted| > 0 {
      EvictedSize(c, m, evicted[..|evicted| - 1]);
      assert false;
    }
  }

  /** The table holds exactly the fragments that have arrived. */
  ghost predicate Holds(s: State, id: u64, got: set<int>, first: Option<nat>) {
    if got == {} then id !in s.incomplete && first.None?
    else
      && id in s.incomplete && first == Some(s.incomplete[id].firstSeenAt)
      && forall i | 0 <= i < |s.incomplete[id].fragments| :: s.incomplete[id].fragments[i].Some? <==> i in got
  }

  /** Pruning and evicting before a part is stored do not touch the entry of the unit. */
  lemma RoomHolds(c: Config, s: State, now: nat, evicted: seq<u64>, id: u64, got: set<int>, first: Option<nat>)
    requires ValidTable(s.incomplete) && Holds(s, id, got, first)
    requires EvictionOrder(c, Prune(c, s, now).incomplete, evicted)
    requires got != {} ==> Elapsed(now, first.value) < c.incompleteTimeout
                           && |Prune(c, s, now).incomplete| < c.maxInFlight
    ensures Holds(Evict(Prune(c, s, now), evicted), id, got, first)
  {
    if got != {} {
      NoEviction(c, Prune(c, s, now).incomplete, evicted);
    }
  }

  lemma StoreOther(s: State, h: Header, payload: seq<byte>, now: nat, id: u64, got: set<int>, first: Option<nat>)
    requires ValidTable(s.incomplete) && h.index < h.count && h.id != id && Holds(s, id, got, first)
    ensures Holds(Store(s, h, payload, now).0, id, got, first)
  {
  }

  /** An event that stores nothing only prunes. */
  lemma PruneHolds(c: Config, s: State, e: Event, id: u64, got: set<int>, first: Option<nat>)
    requires ValidTable(s.incomplete) && !(e.Arrive? && IsPart(e.packet))
    requires Holds(s, id, got, first) && (got != {} ==> Elapsed(e.now, first.value) < c.incompleteTimeout)
    ensures Step(c, s, e).0 == Prune(c, s, e.now) && Holds(Step(c, s, e).0, id, got, first)
  {}

  /** An event that carries no fragment of the unit leaves its entry alone. */
  lemma OtherEvent(c: Config, s: State, e: Event, id: u64, got: set<int>, first: Option<nat>)
    requires ValidTable(s.incomplete) && Allowed(c, s, e) && !PartOf(e, id)
    requires Holds(s, id, got, first)
    requires got != {} ==> Elapsed(e.now, first.value) < c.incompleteTimeout
    requires got != {} && e.Arrive? && IsPart(e.packet) ==> |Prune(c, s, e.now).incomplete| < c.maxInFlight
    ensures Holds(Step(c, s, e).0, id, got, first)
  {
    if !(e.Arrive? && IsPart(e.packet)) {
      PruneHolds(c, s, e, id, got, first);
    } else {
      RoomHolds(c, s, e.now, e.evicted, id, got, first);
      StoreOther(Evict(Prune(c, s, e.now), e.evicted), e.packet.value.header, e.packet.value.payload, e.now, id, got, first);
    }
  }

  /** A fragment of the unit is stored, or completes the unit. */
  lemma StoreOwn(u: Source, s: State, h: Header, payload: seq<byte>, now: nat, got: set<int>, first: Option<nat>)
    requires ValidSource(u) && ValidTable(s.incomplete)
    requires h.id in s.incomplete ==> FaithfulEntry(u, s.incomplete[h.id])
    requires h.index < h.count == |u.parts| && h.count > 1 && Packet(h, payload) == PacketOf(u, h.id, h.index)
    requires Holds(s, h.id, got, first)
    ensures var (s', r) := Store(s, h, payload, now);
            if HasAll(u, got + {h.index}) then r.Ok? && r.value.Some?
            else r == Ok(None) && Holds(s', h.id, got + {h.index}, if first.Some? then first else Some(now))
  {
    var entry := EntryFor(s.incomplete, h, now);
    var filled := Fill(entry, h.index, payload);
    FilledNone(NewEntry(h, now).fragments);
    if entry.fragments[h.index].None? {
      FilledUpdate(entry.fragments, h.index, payload);
    }
    FilledAll(filled.fragments);
    assert forall i | 0 <= i < |filled.fragments| :: filled.fragments[i].Some? <==> i in got + {h.index};
  }

  function Room(c: Config, s: State, e: Event): State
    requires e.Arrive?
  {
    Evict(Prune(c, s, e.now), e.evicted)
  }

  lemma PartIsStored(c: Config, s: State, e: Event)
    requires ValidTable(s.incomplete) && e.Arrive? && IsPart(e.packet)
    ensures Step(c, s, e) == Store(Room(c, s, e), e.packet.value.header, e.packet.value.payload, e.now)
  {
  }

  lemma RoomIsFaithful(c: Config, sent: map<u64, Source>, s: State, e: Event)
    requires Traffic(sent) && ValidTable(s.incomplete) && Faithful(sent, s.incomplete) && e.Arrive?
    ensures ValidTable(Room(c, s, e).incomplete) && Faithful(sent, Room(c, s, e).incomplete)
  {
  }

  /** A fragment of the unit is stored, or completes the unit. */
  lemma StoreGenuine(sent: map<u64, Source>, room: State, r: Decoded, now: nat, got: set<int>, first: Option<nat>)
    requires Traffic(sent) && ValidTable(room.incomplete) && Faithful(sent, room.incomplete)
    requires IsPart(r) && Genuine(sent, r) && Holds(room, r.value.header.id, got, first)
    ensures r.value.header.id in sent
    ensures var Packet(h, payload) := r.value;
            var (s', outcome) := Store(room, h, payload, now);
            if HasAll(sent[h.id], got + {h.index}) then outcome == Ok(Some(Original(sent[h.id], h.id)))
            else outcome == Ok(None) && Holds(s', h.id, got + {h.index}, if first.Some? then first else Some(now))
  {
    var Packet(h, payload) := r.value;
    StoreSound(sent, room, h, payload, now);
    StoreOwn(sent[h.id], room, h, payload, now, got, first);
  }

  lemma OwnFragment(c: Config, sent: map<u64, Source>, s: State, e: Event, id: u64, got: set<int>, first: Option<nat>)
    requires Traffic(sent) && ValidTable(s.incomplete) && Faithful(sent, s.incomplete)
    requires Allowed(c, s, e) && PartOf(e, id) && Genuine(sent, e.packet)
    requires Holds(s, id, got, first)
    requires got != {} ==> Elapsed(e.now, first.value) < c.incompleteTimeout
                           && |Prune(c, s, e.now).incomplete| < c.maxInFlight
    ensures id in sent
    ensures var (s', r) := Step(c, s, e);
            if HasAll(sent[id], got + {e.packet.value.header.index}) then r == Ok(Some(Original(sent[id], id)))
            else r == Ok(None) && Holds(s', id, got + {e.packet.value.header.index}, if first.Some? then first else Some(e.now))
  {
    RoomHolds(c, s, e.now, e.evicted, id, got, first);
    RoomIsFaithful(c, sent, s, e);
    PartIsStored(c, s, e);
    StoreGenuine(sent, Room(c, s, e), e.packet, e.now, got, first);
  }

  lemma {:induction false} FirstOfGot(run: seq<Event>, id: u64)
    ensures FirstAt(run, id).Some? <==> Got(run, id) != {}
  {
    if |run| == 0 {
    } else {
      FirstOfGot(run[..|run| - 1], id);
    }
  }

  /** One more event of an undisturbed run. */
  lemma Advance(c: Config, sent: map<u64, Source>, run: seq<Event>, id: u64)
    requires |run| > 0
    requires Traffic(sent) && GenuineRun(sent, run) && Legal(c, run) && Undisturbed(c, run, id)
    requires var front := run[..|run| - 1];
             Faithful(sent, After(c, front).incomplete) && Holds(After(c, front), id, Got(front, id), FirstAt(front, id))
    requires id in sent
    ensures var last := |run| - 1;
            if PartOf(run[last], id) && HasAll(sent[id], Got(run, id))
            then OutcomeAt(c, run, last) == Ok(Some(Original(sent[id], id)))
            else Holds(After(c, run), id, Got(run, id), FirstAt(run, id))
                 && (PartOf(run[last], id) ==> OutcomeAt(c, run, last) == Ok(None))
  {
    var n := |run| - 1;
    var front, last := run[..n], run[n];
    FirstOfGot(front, id);
    if PartOf(last, id) {
      OwnFragment(c, sent, After(c, front), last, id, Got(front, id), FirstAt(front, id));
    } else {
      OtherEvent(c, After(c, front), last, id, Got(front, id), FirstAt(front, id));
    }
  }

  lemma {:induction false} Progress(c: Config, sent: map<u64, Source>, run: seq<Event>, id: u64)
    requires Traffic(sent) && GenuineRun(sent, run) && Legal(c, run) && Undisturbed(c, run, id)
    requires id in sent && !HasAll(sent[id], Got(run, id))
    ensures Holds(After(c, run), id, Got(run, id), FirstAt(run, id))
  {
    if |run| == 0 {
    } else {
      var n := |run| - 1;
      PrefixConditions(c, sent, run, id, n);
      Progress(c, sent, run[..n], id);
      StaysFaithful(c, sent, run[..n]);
      Advance(c, sent, run, id);
    }
  }

  /**
   * Completeness: in an undisturbed window a unit is delivered at the arrival of its last
   * missing fragment, in whatever order and with whatever repetitions they come, and not before.
   */
  lemma DeliveredAtLastFragment(c: Config, sent: map<u64, Source>, run: seq<Event>, id: u64, k: nat)
    requires Traffic(sent) && GenuineRun(sent, run) && Legal(c, run) && Undisturbed(c, run, id)
    requires k < |run| && PartOf(run[k], id)
    requires id in sent && !HasAll(sent[id], Got(run[..k], id))
    ensures OutcomeAt(c, run, k) ==
            if HasAll(sent[id], Got(run[..k + 1], id)) then Ok(Some(Original(sent[id], id))) else Ok(None)
  {
    var upTo := run[..k + 1];
    PrefixConditions(c, sent, run, id, k + 1);
    PrefixConditions(c, sent, upTo, id, k);
    assert upTo[..k] == run[..k];
    Progress(c, sent, upTo[..k], id);
    StaysFaithful(c, sent, upTo[..k]);
    Advance(c, sent, upTo, id);
  }

  /** A unit sent whole is delivered at every arrival. */
  lemma SinglePartDelivered(c: Config, run: seq<Event>, k: nat, u: Source, id: u64)
    requires k < |run| && run[k].Arrive?
    requires ValidSource(u) && |u.parts| == 1 && run[k].packet == Ok(PacketOf(u, id, 0))
    ensures OutcomeAt(c, run, k) == Ok(Some(Original(u, id)))
  {
    assert u.parts[0] != [] && Flatten(u.parts[1..]) == [];
    assert Flatten(u.parts) == u.parts[0];
  }

  // ----- conservation and bound

  /** Event k opens a table entry. */
  predicate Opens(c: Config, s: State, e: Event)
    requires ValidTable(s.incomplete)
  {
    e.Arrive? && IsPart(e.packet)
    && e.packet.value.header.id !in Evict(Prune(c, s, e.now), e.evicted).incomplete
  }

  /** Event k delivers a unit that had a table entry. */
  predicate Delivers(c: Config, s: State, e: Event)
    requires ValidTable(s.incomplete)
  {
    e.Arrive? && IsPart(e.packet) && Step(c, s, e).1.Ok? && Step(c, s, e).1.value.Some?
  }

  function Opened(c: Config, run: seq<Event>): nat {
    if |run| == 0 then 0
    else
      var front := run[..|run| - 1];
      Opened(c, front) + if Opens(c, After(c, front), run[|run| - 1]) then 1 else 0
  }

  function Delivered(c: Config, run: seq<Event>): nat {
    if |run| == 0 then 0
    else
      var front := run[..|run| - 1];
      Delivered(c, front) + if Delivers(c, After(c, front), run[|run| - 1]) then 1 else 0
  }

  lemma StoreSize(s: State, h: Header, payload: seq<byte>, now: nat)
    requires ValidTable(s.incomplete) && h.index < h.count && h.count > 1
    ensures var (s', r) := Store(s, h, payload, now);
            && s'.dropped == s.dropped
            && |s'.incomplete| + (if r.Ok? && r.value.Some? then 1 else 0)
               == |s.incomplete| + if h.id in s.incomplete then 0 else 1
  {
    var m := s.incomplete;
    var filled := EntryFor(m, h, now);
    if SameMetadata(filled.header, h) {
      filled := Fill(filled, h.index, payload);
      assert m[h.id := filled].Keys == m.Keys + {h.id};
      if h.id in m {
        RemoveOne(m, h.id);
        assert m.Keys + {h.id} == m.Keys;
      } else {
        FilledNone(NewEntry(h, now).fragments);
        FilledUpdate(NewEntry(h, now).fragments, h.index, payload);
      }
    }
  }

  function Limit(c: Config): nat {
    if c.maxInFlight > 1 then c.maxInFlight else 1
  }

  lemma PartConserves(c: Config, s: State, e: Event)
    requires ValidTable(s.incomplete) && Allowed(c, s, e) && e.Arrive? && IsPart(e.packet)
    ensures Balance(Step(c, s, e).0) + (if Delivers(c, s, e) then 1 else 0)
            == Balance(s) + if Opens(c, s, e) then 1 else 0
    ensures |Step(c, s, e).0.incomplete| <= Limit(c)
  {
    var pruned := Prune(c, s, e.now);
    var room := Evict(pruned, e.evicted);
    RoomBalance(c, s, e.now, e.evicted);
    StoreSize(room, e.packet.value.header, e.packet.value.payload, e.now);
    assert Step(c, s, e) == Store(room, e.packet.value.header, e.packet.value.payload, e.now);
  }

  /** Pruning and evicting only move entries to the drop count, and leave room for one. */
  lemma RoomBalance(c: Config, s: State, now: nat, evicted: seq<u64>)
    requires ValidTable(s.incomplete) && EvictionOrder(c, Prune(c, s, now).incomplete, evicted)
    ensures var room := Evict(Prune(c, s, now), evicted);
            Balance(room) == Balance(s) && |room.incomplete| < Limit(c)
  {
    LiveIsSubset(c, s.incomplete, now);
    EvictedSize(c, Prune(c, s, now).incomplete, evicted);
  }

  /** Entries in flight and entries dropped. */
  function Balance(s: State): nat {
    |s.incomplete| + s.dropped
  }

  lemma StepConserves(c: Config, s: State, e: Event)
    requires ValidTable(s.incomplete) && Allowed(c, s, e)
    ensures Balance(Step(c, s, e).0) + (if Delivers(c, s, e) then 1 else 0)
            == Balance(s) + if Opens(c, s, e) then 1 else 0
    ensures |s.incomplete| <= Limit(c) ==> |Step(c, s, e).0.incomplete| <= Limit(c)
  {
    LiveIsSubset(c, s.incomplete, e.now);
    if e.Arrive? && IsPart(e.packet) {
      PartConserves(c, s, e);
    }
  }

  /**
   * Conservation: every entry ever opened has been delivered, is counted as dropped, or is still
   * in flight.
   */
  lemma {:induction false} EntriesConserved(c: Config, run: seq<Event>)
    requires Legal(c, run)
    ensures Opened(c, run) == Delivered(c, run) + After(c, run).dropped + |After(c, run).incomplete|
  {
    if |run| == 0 {
    } else {
      var n := |run| - 1;
      LegalPrefix(c, run, n);
      EntriesConserved(c, run[..n]);
      StepConserves(c, After(c, run[..n]), run[n]);
    }
  }

  /** The table never outgrows its limit, except that one entry is always allowed. */
  lemma {:induction false} TableBounded(c: Config, run: seq<Event>)
    requires Legal(c, run)
    ensures |After(c, run).incomplete| <= Limit(c)
  {
    if |run| == 0 {
    } else {
      var n := |run| - 1;
      LegalPrefix(c, run, n);
      TableBounded(c, run[..n]);
      StepConserves(c, After(c, run[..n]), run[n]);
    }
  }
}
