/** The host's reassembler: datagrams in any order go in, whole access units come out. */
module Reassembler {
  import opened Wrappers
  import opened Bytes
  import opened MediaHeader

  /** Times and the timeout are counted in ticks of one common unit. */
  datatype Config = Config(incompleteTimeout: nat, maxInFlight: nat)

  datatype Entry = Entry(
    header: Header,
    firstSeenAt: nat,
    fragments: seq<Option<seq<byte>>>,
    received: nat)

  /** The table, and how many entries were dropped so far (the class keeps this number modulo 2^64). */
  datatype State = State(incomplete: map<u64, Entry>, dropped: nat)

  datatype AccessUnit = AccessUnit(id: u64, data: seq<byte>, pts: i64, duration: i64, keyframe: bool)

  type Outcome = Result<Option<AccessUnit>, MediaError>

  const EMPTY := State(map[], 0)

  // ----- the representation invariant

  /** How many slots hold a fragment. */
  function Filled(slots: seq<Option<seq<byte>>>): (n: nat)
    ensures n <= |slots|
  {
    if |slots| == 0 then 0
    else Filled(slots[..|slots| - 1]) + if slots[|slots| - 1].Some? then 1 else 0
  }

  ghost predicate ValidEntry(id: u64, e: Entry) {
    && e.header.id == id
    && 2 <= |e.fragments| == e.header.count
    && e.received == Filled(e.fragments) < |e.fragments|
  }

  ghost predicate ValidTable(m: map<u64, Entry>) {
    forall id | id in m :: ValidEntry(id, m[id])
  }

  lemma {:induction false} FilledUpdate(slots: seq<Option<seq<byte>>>, i: nat, payload: seq<byte>)
    requires i < |slots| && slots[i].None?
    ensures Filled(slots[i := Some(payload)]) == Filled(slots) + 1
  {
    var last := |slots| - 1;
    if i < last {
      FilledUpdate(slots[..last], i, payload);
      assert slots[i := Some(payload)][..last] == slots[..last][i := Some(payload)];
    } else {
      assert slots[i := Some(payload)][..last] == slots[..last];
    }
  }

  lemma {:induction false} FilledNone(slots: seq<Option<seq<byte>>>)
    ensures Filled(slots) == 0 <==> forall i | 0 <= i < |slots| :: slots[i].None?
  {
    if |slots| == 0 {
    } else {
      var last := |slots| - 1;
      FilledNone(slots[..last]);
      assert forall i | 0 <= i < last :: slots[..last][i] == slots[i];
      assert forall i | 0 <= i < last && slots[i].Some? :: slots[..last][i].Some?;
    }
  }

  lemma {:induction false} FilledAll(slots: seq<Option<seq<byte>>>)
    ensures Filled(slots) == |slots| <==> forall i | 0 <= i < |slots| :: slots[i].Some?
  {
    if |slots| == 0 {
    } else {
      var last := |slots| - 1;
      FilledAll(slots[..last]);
      assert forall i | 0 <= i < last :: slots[..last][i] == slots[i];
      assert forall i | 0 <= i < last && slots[i].None? :: slots[..last][i].None?;
    }
  }

  // ----- one push, as a function of the state

  function Elapsed(now: nat, since: nat): nat {
    if since <= now then now - since else 0
  }

  predicate Live(c: Config, e: Entry, now: nat) {
    Elapsed(now, e.firstSeenAt) < c.incompleteTimeout
  }

  /** The table half way through pruning: the entries not looked at yet are all still there. */
  function Unpruned(c: Config, m: map<u64, Entry>, unchecked: set<u64>, now: nat): map<u64, Entry> {
    map id | id in m && (id in unchecked || Live(c, m[id], now)) :: m[id]
  }

  function LiveEntries(c: Config, m: map<u64, Entry>, now: nat): map<u64, Entry> {
    Unpruned(c, m, {}, now)
  }

  lemma LiveIsSubset(c: Config, m: map<u64, Entry>, now: nat)
    ensures |LiveEntries(c, m, now)| <= |m|
  {
    SubsetSize(LiveEntries(c, m, now).Keys, m.Keys);
  }

  lemma SubsetSize<T>(a: set<T>, b: set<T>)
    requires a <= b
    ensures |a| <= |b|
    ensures |a| == |b| ==> a == b
  {
    assert b == a + (b - a);
    assert |b| == |a| + |b - a|;
  }

  function Prune(c: Config, s: State, now: nat): State {
    LiveIsSubset(c, s.incomplete, now);
    var live := LiveEntries(c, s.incomplete, now);
    State(live, s.dropped + |s.incomplete| - |live|)
  }

  /** id is one of the entries first seen earliest; the hash map's order decides between ties. */
  ghost predicate IsOldest(m: map<u64, Entry>, id: u64) {
    id in m && forall other | other in m :: m[id].firstSeenAt <= m[other].firstSeenAt
  }

  function Without(m: map<u64, Entry>, ids: seq<u64>): (r: map<u64, Entry>)
    ensures forall id | id in r :: id in m && r[id] == m[id]
  {
    if |ids| == 0 then m else Without(m, ids[..|ids| - 1]) - {ids[|ids| - 1]}
  }

  /**
   * The eviction loop may remove exactly these ids, in this order: each was an oldest entry of
   * a table still at its limit, and the loop stopped as soon as it had to.
   */
  ghost predicate EvictionOrder(c: Config, m: map<u64, Entry>, evicted: seq<u64>) {
    && EvictionPrefix(c, m, evicted)
    && (|Without(m, evicted)| < c.maxInFlight || Without(m, evicted) == map[])
  }

  ghost predicate EvictionPrefix(c: Config, m: map<u64, Entry>, evicted: seq<u64>) {
    |evicted| > 0 ==>
      var front := evicted[..|evicted| - 1];
      && EvictionPrefix(c, m, front)
      && |Without(m, front)| >= c.maxInFlight
      && IsOldest(Without(m, front), evicted[|evicted| - 1])
  }

  lemma EvictOneMore(c: Config, m: map<u64, Entry>, evicted: seq<u64>, id: u64)
    requires EvictionPrefix(c, m, evicted)
    requires |Without(m, evicted)| >= c.maxInFlight && IsOldest(Without(m, evicted), id)
    ensures EvictionPrefix(c, m, evicted + [id])
    ensures Without(m, evicted + [id]) == Without(m, evicted) - {id}
    ensures |Without(m, evicted + [id])| == |Without(m, evicted)| - 1
  {
    assert (evicted + [id])[..|evicted|] == evicted;
    RemoveOne(Without(m, evicted), id);
  }

  lemma {:induction false} EvictedSize(c: Config, m: map<u64, Entry>, evicted: seq<u64>)
    requires EvictionPrefix(c, m, evicted)
    ensures |Without(m, evicted)| + |evicted| == |m|
  {
    if |evicted| == 0 {
    } else {
      var front := evicted[..|evicted| - 1];
      EvictedSize(c, m, front);
      RemoveOne(Without(m, front), evicted[|evicted| - 1]);
    }
  }

  function Evict(s: State, evicted: seq<u64>): State {
    State(Without(s.incomplete, evicted), s.dropped + |evicted|)
  }

  predicate SameMetadata(a: Header, b: Header) {
    a.count == b.count && a.pts == b.pts && a.duration == b.duration && a.keyframe == b.keyframe
  }

  function NewEntry(h: Header, now: nat): Entry {
    Entry(h, now, seq(h.count, _ => None), 0)
  }

  function EntryFor(m: map<u64, Entry>, h: Header, now: nat): Entry {
    if h.id in m then m[h.id] else NewEntry(h, now)
  }

  /** Keep the first copy of a fragment. */
  function Fill(e: Entry, i: nat, payload: seq<byte>): Entry
    requires i < |e.fragments|
  {
    if e.fragments[i].None?
    then e.(fragments := e.fragments[i := Some(payload)], received := e.received + 1)
    else e
  }

  function Assemble(slots: seq<Option<seq<byte>>>): seq<byte> {
    if |slots| == 0 then []
    else (if slots[0].Some? then slots[0].value else []) + Assemble(slots[1..])
  }

  function Store(s: State, h: Header, payload: seq<byte>, now: nat): (State, Outcome)
    requires ValidTable(s.incomplete) && h.index < h.count
  {
    var e := EntryFor(s.incomplete, h, now);
    if !SameMetadata(e.header, h) then (s, Err(InconsistentFragmentMetadata(h.id)))
    else
      var filled := Fill(e, h.index, payload);
      if filled.received != |filled.fragments|
      then (s.(incomplete := s.incomplete[h.id := filled]), Ok(None))
      else (s.(incomplete := s.incomplete - {h.id}),
            Ok(Some(AccessUnit(h.id, Assemble(filled.fragments),
                               e.header.pts, e.header.duration, e.header.keyframe))))
  }

  type Decoded = r: Result<Packet, MediaError>
    | r.Ok? ==> ValidShape(r.value.header.index, r.value.header.count)
    witness Err(AccessUnitPayloadEmpty)

  /** A packet that reaches the table: it decoded, carries bytes, and is not a whole unit. */
  predicate IsPart(r: Decoded) {
    r.Ok? && r.value.payload != [] && r.value.header.count > 1
  }

  /** What a push does with a datagram that decoded to r. */
  function Push(c: Config, s: State, r: Decoded, now: nat, evicted: seq<u64>): (State, Outcome)
    requires ValidTable(s.incomplete)
  {
    var pruned := Prune(c, s, now);
    if r.Err? then (pruned, Err(r.error))
    else
      var Packet(h, payload) := r.value;
      if payload == [] then (pruned, Err(EmptyPayload(h.id)))
      else if h.count == 1
      then (pruned, Ok(Some(AccessUnit(h.id, payload, h.pts, h.duration, h.keyframe))))
      else Store(Evict(pruned, evicted), h, payload, now)
  }

  ghost predicate PushAllowed(c: Config, s: State, r: Decoded, now: nat, evicted: seq<u64>) {
    if IsPart(r) then EvictionOrder(c, Prune(c, s, now).incomplete, evicted) else evicted == []
  }

  lemma StoreKeepsTable(s: State, h: Header, payload: seq<byte>, now: nat)
    requires ValidTable(s.incomplete) && h.index < h.count && h.count > 1
    ensures ValidTable(Store(s, h, payload, now).0.incomplete)
  {
    var e := EntryFor(s.incomplete, h, now);
    FilledNone(NewEntry(h, now).fragments);
    if SameMetadata(e.header, h) && e.fragments[h.index].None? {
      FilledUpdate(e.fragments, h.index, payload);
    }
  }

  /** Pruning and evicting only take entries away. */
  lemma RoomKeepsTable(c: Config, s: State, now: nat, evicted: seq<u64>)
    requires ValidTable(s.incomplete)
    ensures ValidTable(Prune(c, s, now).incomplete) && ValidTable(Evict(Prune(c, s, now), evicted).incomplete)
  {}

  lemma PushKeepsTable(c: Config, s: State, r: Decoded, now: nat, evicted: seq<u64>)
    requires ValidTable(s.incomplete)
    ensures ValidTable(Push(c, s, r, now, evicted).0.incomplete)
  {
    RoomKeepsTable(c, s, now, evicted);
    if IsPart(r) {
      StoreKeepsTable(Evict(Prune(c, s, now), evicted), r.value.header, r.value.payload, now);
    }
  }

  lemma PruneOne(c: Config, m: map<u64, Entry>, unchecked: set<u64>, id: u64, now: nat)
    requires id in unchecked && unchecked <= m.Keys
    ensures var t := Unpruned(c, m, unchecked, now);
            && id in t && t[id] == m[id] && |t - {id}| == |t| - 1 && |t| <= |m|
            && Unpruned(c, m, unchecked - {id}, now) == if Live(c, m[id], now) then t else t - {id}
  {
    var t := Unpruned(c, m, unchecked, now);
    RemoveOne(t, id);
    SubsetSize(t.Keys, m.Keys);
  }

  method Concatenate(slots: seq<Option<seq<byte>>>) returns (data: seq<byte>)
    ensures data == Assemble(slots)
  {
    data := [];
    for i := 0 to |slots|
      invariant Assemble(slots) == data + Assemble(slots[i..])
    {
      if slots[i].Some? {
        data := data + slots[i].value;
      }
    }
  }

  // ----- the class

  class H264DatagramReassembler {
    const config: Config
    var dropped: u64
    var incomplete: map<u64, Entry>
    ghost var droppedTotal: nat

    ghost predicate Valid()
      reads this
    {
      ValidTable(incomplete) && dropped == droppedTotal % U64_MODULUS
    }

    ghost function Abstract(): State
      reads this
    {
      State(incomplete, droppedTotal)
    }

    constructor (c: Config)
      ensures Valid() && Abstract() == EMPTY && config == c
    {
      config := c;
      dropped := 0;
      droppedTotal := 0;
      incomplete := map[];
    }

    /** The drop counter is a wrapping 64-bit counter. */
    method CountDrop()
      requires dropped == droppedTotal % U64_MODULUS
      modifies this`dropped, this`droppedTotal
      ensures dropped == droppedTotal % U64_MODULUS && droppedTotal == old(droppedTotal) + 1
    {
      dropped := if dropped == U64_MAX then 0 else dropped + 1;
      droppedTotal := droppedTotal + 1;
    }

    method PruneExpired(now: nat)
      requires Valid()
      modifies this
      ensures Valid() && Abstract() == Prune(config, old(Abstract()), now)
    {
      ghost var before := incomplete;
      var unchecked := incomplete.Keys;
      assert incomplete == Unpruned(config, before, unchecked, now);
      while unchecked != {}
        invariant unchecked <= before.Keys && incomplete == Unpruned(config, before, unchecked, now)
        invariant dropped == droppedTotal % U64_MODULUS
        invariant droppedTotal == old(droppedTotal) + |before| - |incomplete|
        decreases unchecked
      {
        var id :| id in unchecked;
        PruneOne(config, before, unchecked, id, now);
        unchecked := unchecked - {id};
        if !Live(config, incomplete[id], now) {
          incomplete := incomplete - {id};
          CountDrop();
        }
      }
    }

    method Oldest() returns (id: u64)
      requires incomplete != map[]
      ensures IsOldest(incomplete, id)
    {
      var rest := incomplete.Keys;
      id :| id in rest;
      rest := rest - {id};
      while rest != {}
        invariant id in incomplete && rest <= incomplete.Keys
        invariant forall other | other in incomplete && other !in rest ::
                    incomplete[id].firstSeenAt <= incomplete[other].firstSeenAt
        decreases rest
      {
        var next :| next in rest;
        rest := rest - {next};
        if incomplete[next].firstSeenAt < incomplete[id].firstSeenAt {
          id := next;
        }
      }
    }

    method RemoveOldest() returns (id: u64)
      requires incomplete != map[] && dropped == droppedTotal % U64_MODULUS
      modifies this
      ensures IsOldest(old(incomplete), id) && incomplete == old(incomplete) - {id}
      ensures dropped == droppedTotal % U64_MODULUS && droppedTotal == old(droppedTotal) + 1
    {
      id := Oldest();
      incomplete := incomplete - {id};
      CountDrop();
    }

    method EvictOldest() returns (ghost evicted: seq<u64>)
      requires Valid()
      modifies this
      ensures Valid() && Abstract() == Evict(old(Abstract()), evicted)
      ensures EvictionOrder(config, old(incomplete), evicted)
    {
      ghost var before := incomplete;
      evicted := [];
      assert Without(before, evicted) == before;
      while |incomplete| >= config.maxInFlight
        invariant incomplete == Without(before, evicted) && EvictionPrefix(config, before, evicted)
        invariant dropped == droppedTotal % U64_MODULUS && droppedTotal == old(droppedTotal) + |evicted|
        decreases |Without(before, evicted)|
      {
        if incomplete == map[] {
          break;
        }
        var oldestId := RemoveOldest();
        EvictOneMore(config, before, evicted, oldestId);
        evicted := evicted + [oldestId];
      }
    }

    method PushDatagram(d: seq<byte>, now: nat) returns (r: Outcome, ghost evicted: seq<u64>)
      requires Valid()
      modifies this
      ensures Valid()
      ensures PushAllowed(config, old(Abstract()), Decode(d), now, evicted)
      ensures (Abstract(), r) == Push(config, old(Abstract()), Decode(d), now, evicted)
    {
      PruneExpired(now);
      evicted := [];

      var decoded := Decode(d);
      if decoded.Err? {
        return Err(decoded.error), evicted;
      }
      var Packet(header, payload) := decoded.value;
      if payload == [] {
        return Err(EmptyPayload(header.id)), evicted;
      }
      if header.count == 1 {
        return Ok(Some(AccessUnit(header.id, payload, header.pts, header.duration, header.keyframe))), evicted;
      }

      evicted, r := PushPart(header, payload, now);
    }

    method PushPart(header: Header, payload: seq<byte>, now: nat) returns (ghost evicted: seq<u64>, r: Outcome)
      requires Valid() && header.index < header.count && header.count > 1
      modifies this
      ensures Valid()
      ensures EvictionOrder(config, old(incomplete), evicted)
      ensures (Abstract(), r) == Store(Evict(old(Abstract()), evicted), header, payload, now)
    {
      evicted := EvictOldest();
      StoreKeepsTable(Abstract(), header, payload, now);
      r := StoreFragment(header, payload, now);
    }

    method StoreFragment(header: Header, payload: seq<byte>, now: nat) returns (r: Outcome)
      requires Valid() && header.index < header.count
      modifies this`incomplete
      ensures (Abstract(), r) == Store(old(Abstract()), header, payload, now)
    {
      if header.id !in incomplete {
        incomplete := incomplete[header.id := NewEntry(header, now)];
      }
      var entry := incomplete[header.id];
      if !SameMetadata(entry.header, header) {
        return Err(InconsistentFragmentMetadata(header.id));
      }
      if entry.fragments[header.index].None? {
        entry := entry.(fragments := entry.fragments[header.index := Some(payload)],
                        received := entry.received + 1);
        incomplete := incomplete[header.id := entry];
      }
      if entry.received != |entry.fragments| {
        assert incomplete == old(incomplete)[header.id := entry];
        return Ok(None);
      }
      incomplete := incomplete - {header.id};
      assert incomplete == old(incomplete) - {header.id};
      assert entry == Fill(EntryFor(old(incomplete), header, now), header.index, payload);
      var data := Concatenate(entry.fragments);
      return Ok(Some(AccessUnit(header.id, data,
                                entry.header.pts, entry.header.duration, entry.header.keyframe)));
    }
  }

  lemma RemoveOne<K, V>(m: map<K, V>, k: K)
    requires k in m
    ensures |m - {k}| == |m| - 1
  {
    assert (m - {k}).Keys == m.Keys - {k};
  }
}
