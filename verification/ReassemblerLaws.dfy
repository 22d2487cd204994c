/** What pruning, evicting and storing do to single entries of the reassembler's table. */
module ReassemblerLaws {
  import opened Wrappers
  import opened Bytes
  import opened MediaHeader
  import opened Reassembler
  import opened ReassemblyRuns

  /** An entry survives pruning exactly while it is younger than the timeout; whatever goes is counted. */
  lemma PruneKeeps(c: Config, s: State, now: nat, id: u64)
    ensures var t := Prune(c, s, now);
            && (id in t.incomplete <==>
                  id in s.incomplete && c.incompleteTimeout > 0 && now < s.incomplete[id].firstSeenAt + c.incompleteTimeout)
            && (id in t.incomplete ==> t.incomplete[id] == s.incomplete[id])
            && t.dropped + |t.incomplete| == s.dropped + |s.incomplete|
  {}

  // ----- which entries an eviction takes, and how many

  lemma {:induction false} EvictedWereThere(c: Config, m: map<u64, Entry>, evicted: seq<u64>, i: nat)
    requires EvictionPrefix(c, m, evicted) && i < |evicted|
    ensures evicted[i] in m && evicted[i] !in Without(m, evicted)
  {
    if i == |evicted| - 1 {
    } else {
      EvictedWereThere(c, m, evicted[..|evicted| - 1], i);
    }
  }

  /** Every evicted entry was first seen no later than every entry that stays. */
  lemma {:induction false} EvictedAreOldest(c: Config, m: map<u64, Entry>, evicted: seq<u64>, i: nat, kept: u64)
    requires EvictionPrefix(c, m, evicted) && i < |evicted| && kept in Without(m, evicted)
    ensures evicted[i] in m && kept in m && m[evicted[i]].firstSeenAt <= m[kept].firstSeenAt
  {
    var front := evicted[..|evicted| - 1];
    if i == |evicted| - 1 {
      assert Without(m, front)[evicted[i]].firstSeenAt <= Without(m, front)[kept].firstSeenAt;
    } else {
      EvictedAreOldest(c, m, front, i, kept);
    }
  }

  lemma {:induction false} EvictedNoFurther(c: Config, m: map<u64, Entry>, evicted: seq<u64>)
    requires EvictionPrefix(c, m, evicted) && |evicted| > 0
    ensures |Without(m, evicted)| + 1 >= c.maxInFlight
  {
    RemoveOne(Without(m, evicted[..|evicted| - 1]), evicted[|evicted| - 1]);
  }

  /** An eviction takes as few entries as make room for one more, and stops when there are none left. */
  lemma EvictsAsFewAsNeeded(c: Config, m: map<u64, Entry>, evicted: seq<u64>)
    requires EvictionOrder(c, m, evicted)
    ensures |Without(m, evicted)| == if |m| < c.maxInFlight then |m| else if c.maxInFlight == 0 then 0 else c.maxInFlight - 1
    ensures |evicted| == |m| - |Without(m, evicted)|
  {
    EvictedSize(c, m, evicted);
    if |m| < c.maxInFlight {
      NoEviction(c, m, evicted);
    } else if |evicted| > 0 {
      EvictedNoFurther(c, m, evicted);
    }
  }

  // ----- what storing a part does

  /** A part whose count, times or keyframe flag differ from its entry's is refused, and changes nothing. */
  lemma InconsistentIsRefused(s: State, h: Header, payload: seq<byte>, now: nat)
    requires ValidTable(s.incomplete) && h.index < h.count && h.id in s.incomplete
    requires var e := s.incomplete[h.id].header;
             h.count != e.count || h.pts != e.pts || h.duration != e.duration || h.keyframe != e.keyframe
    ensures Store(s, h, payload, now) == (s, Err(InconsistentFragmentMetadata(h.id)))
  {}

  /** The first part of a unit opens an entry that holds it alone, at the time it came. */
  lemma FirstPartOpens(s: State, h: Header, payload: seq<byte>, now: nat)
    requires ValidTable(s.incomplete) && h.index < h.count && h.count > 1 && h.id !in s.incomplete
    ensures var (t, r) := Store(s, h, payload, now);
            && r == Ok(None) && t.incomplete.Keys == s.incomplete.Keys + {h.id} && t.dropped == s.dropped
            && var e := t.incomplete[h.id];
               && e.header == h && e.firstSeenAt == now && e.received == 1 && |e.fragments| == h.count
               && forall i | 0 <= i < |e.fragments| :: e.fragments[i] == if i == h.index then Some(payload) else None
  {}

  /** A part that is there already is kept as it came first, and nothing changes. */
  lemma FirstCopyIsKept(s: State, h: Header, payload: seq<byte>, now: nat)
    requires ValidTable(s.incomplete) && h.index < h.count && h.id in s.incomplete
    requires SameMetadata(s.incomplete[h.id].header, h) && s.incomplete[h.id].fragments[h.index].Some?
    ensures Store(s, h, payload, now).0.incomplete == s.incomplete && Store(s, h, payload, now).1 == Ok(None)
  {
    assert s.incomplete[h.id := s.incomplete[h.id]] == s.incomplete;
  }

  /** A missing part fills its own slot and no other; other units are left alone. */
  lemma MissingPartFills(s: State, h: Header, payload: seq<byte>, now: nat)
    requires ValidTable(s.incomplete) && h.index < h.count && h.id in s.incomplete
    requires SameMetadata(s.incomplete[h.id].header, h) && s.incomplete[h.id].fragments[h.index].None?
    ensures var e := s.incomplete[h.id];
            var (t, r) := Store(s, h, payload, now);
            && r.Ok? && (r.value.Some? <==> e.received + 1 == |e.fragments|)
            && (r.value.Some? ==> t.incomplete == s.incomplete - {h.id} && r.value.value.id == h.id
                                  && r.value.value.data == Assemble(e.fragments[h.index := Some(payload)]))
            && (r.value.None? ==> t.incomplete == s.incomplete[h.id := e.(fragments := e.fragments[h.index := Some(payload)],
                                                                          received := e.received + 1)])
  {}

  /** Every push prunes first; a datagram that does not decode or is empty does nothing more. */
  lemma RefusedPushOnlyPrunes(c: Config, s: State, r: Decoded, now: nat)
    requires ValidTable(s.incomplete) && (r.Err? || r.value.payload == [])
    ensures Push(c, s, r, now, []).0 == Prune(c, s, now)
    ensures Push(c, s, r, now, []).1 == if r.Err? then Err(r.error) else Err(EmptyPayload(r.value.header.id))
  {}
}
