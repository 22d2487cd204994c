/** The whole media path: from the encoder's sample on the host to the decoder's on the client. */
module MediaPath {
  import opened Wrappers
  import opened Bytes
  import opened MediaHeader
  import Packetizer
  import opened Reassembler
  import opened ReassemblyRuns
  import opened ClientReassembler
  import opened AnnexB
  import opened AnnexBScanner
  import opened AccessUnits
  import opened Decoder

  type Sent = Packetizer.Sent

  /** The units packetized so far, by the id the packetizer gave them. */
  ghost predicate Packetized(sent: map<u64, Sent>) {
    forall id | id in sent :: Packetizer.Packetizable(sent[id])
  }

  function SourceOf(u: Sent): Source
    requires Packetizer.Packetizable(u)
  {
    Source(Packetizer.Fragments(u, Packetizer.Count(u)), u.pts, u.duration, u.keyframe)
  }

  function Sources(sent: map<u64, Sent>): map<u64, Source>
    requires Packetized(sent)
  {
    map id | id in sent :: SourceOf(sent[id])
  }

  lemma SourceIsValid(u: Sent)
    requires Packetizer.Packetizable(u)
    ensures ValidSource(SourceOf(u)) && Flatten(SourceOf(u).parts) == u.data
  {
    assert Packetizer.Count(u) > 0 by {
      assert |u.data| + u.maxPayload - 1 >= u.maxPayload;
    }
    Packetizer.FragmentsTile(u);
  }

  /** A datagram of the packetizer decodes, on either side, to the packet of its fragment. */
  lemma DatagramDecodes(u: Sent, id: u64, i: nat)
    requires Packetizer.Packetizable(u) && i < Packetizer.Count(u)
    ensures ValidSource(SourceOf(u)) && i < |SourceOf(u).parts|
    ensures Decode(Packetizer.Datagram(u, id, i)) == Ok(PacketOf(SourceOf(u), id, i))
    ensures DecodeHeader(Packetizer.Datagram(u, id, i)) == Ok(PacketOf(SourceOf(u), id, i))
  {
    SourceIsValid(u);
    var h := Packetizer.FragmentHeader(u, id, i);
    DecodeEncoded(h, Packetizer.Fragment(u, i));
    HeaderSlices(h, Packetizer.Fragment(u, i));
    DecodersAgree(Packetizer.Datagram(u, id, i));
  }

  /** The network delivers datagrams of the packetizer, or bytes that both decoders reject. */
  ghost predicate FromPacketizer(sent: map<u64, Sent>, d: seq<byte>)
    requires Packetized(sent)
  {
    || (exists id, i :: id in sent && 0 <= i < Packetizer.Count(sent[id]) && d == Packetizer.Datagram(sent[id], id, i))
    || (Decode(d).Err? && DecodeHeader(d) == Decode(d))
  }

  ghost predicate Network(sent: map<u64, Sent>, run: seq<WireEvent>)
    requires Packetized(sent)
  {
    forall k | 0 <= k < |run| && run[k].Datagram? :: FromPacketizer(sent, run[k].bytes)
  }

  lemma TrafficOfSent(sent: map<u64, Sent>)
    requires Packetized(sent)
    ensures Traffic(Sources(sent))
  {
    forall id | id in sent
      ensures ValidSource(SourceOf(sent[id]))
    {
      SourceIsValid(sent[id]);
    }
  }

  lemma DatagramIsGenuine(sent: map<u64, Sent>, d: seq<byte>)
    requires Packetized(sent) && FromPacketizer(sent, d)
    ensures DecodeHeader(d) == Decode(d)
    ensures Traffic(Sources(sent)) && Genuine(Sources(sent), Decode(d))
  {
    TrafficOfSent(sent);
    if Decode(d).Ok? {
      var id, i :| id in sent && 0 <= i < Packetizer.Count(sent[id]) && d == Packetizer.Datagram(sent[id], id, i);
      DatagramDecodes(sent[id], id, i);
    }
  }

  lemma NetworkIsGenuine(sent: map<u64, Sent>, run: seq<WireEvent>)
    requires Packetized(sent) && Network(sent, run)
    ensures VideoRun(run)
    ensures Traffic(Sources(sent)) && GenuineRun(Sources(sent), HostEvents(run))
  {
    TrafficOfSent(sent);
    forall k | 0 <= k < |run| && run[k].Datagram?
      ensures DecodeHeader(run[k].bytes) == Decode(run[k].bytes)
      ensures Genuine(Sources(sent), HostEvents(run)[k].packet)
    {
      DatagramIsGenuine(sent, run[k].bytes);
    }
  }

  lemma LegalOnBothSides(c: Config, run: seq<WireEvent>)
    requires c.incompleteTimeout > 0 && VideoRun(run)
    requires forall k | 0 <= k < |run| :: ClientAllowed(c, ClientAfter(c, run[..k]), run[k])
    ensures Legal(c, HostEvents(run))
  {
    forall k | 0 <= k < |run|
      ensures Allowed(c, After(c, HostEvents(run)[..k]), HostEvents(run)[k])
    {
      ReassemblersSimulate(c, run, k);
    }
  }

  /** The traffic of one packetizer: the n-th unit it cut travels under the n-th id. */
  function TrafficOf(units: seq<Sent>): map<u64, Sent> {
    if |units| == 0 then map[]
    else TrafficOf(units[..|units| - 1])[Packetizer.IdOf(|units| - 1) := units[|units| - 1]]
  }

  /** Until the id counter saturates, no unit overwrites another. */
  lemma {:induction false} PacketizerTraffic(units: seq<Sent>, n: nat)
    requires |units| < U64_MAX && n < |units| && Packetizer.Packetizable(units[n])
    ensures var id := Packetizer.IdOf(n);
            && id in TrafficOf(units) && TrafficOf(units)[id] == units[n]
            && Packetizer.Packetize(units[n], id) == Ok(Packetizer.Datagrams(TrafficOf(units)[id], id))
  {
    var last := |units| - 1;
    if n >= last {
    } else {
      PacketizerTraffic(units[..last], n);
      Packetizer.IdsDistinct(n, last);
    }
  }

  // ----- what the client is handed

  /** The units the packetizer was given, as the client should see them. */
  function Delivery(u: Sent, id: u64): AccessUnit {
    AccessUnit(id, u.data, u.pts, u.duration, u.keyframe)
  }

  /**
   * Soundness on the wire: the client's reassembler never hands on anything but a unit that was
   * packetized, whole and unchanged, under its own id.
   */
  lemma ClientReceivesOriginals(c: Config, sent: map<u64, Sent>, run: seq<WireEvent>, k: nat)
    requires c.incompleteTimeout > 0 && Packetized(sent) && Network(sent, run) && k < |run|
    ensures var r := ClientOutcomeAt(c, run, k);
            r.Ok? && r.value.Some? ==>
              r.value.value.id in sent && r.value.value == Delivery(sent[r.value.value.id], r.value.value.id)
  {
    NetworkIsGenuine(sent, run);
    ReassemblersSimulate(c, run, k);
    DeliveredUnitsAreOriginal(c, Sources(sent), HostEvents(run), k);
    var r := ClientOutcomeAt(c, run, k);
    if r.Ok? && r.value.Some? {
      SourceIsValid(sent[r.value.value.id]);
    }
  }

  /** The run so far has brought every fragment of the unit but event k brings the last one. */
  ghost predicate CompletesAt(sent: map<u64, Sent>, run: seq<WireEvent>, id: u64, k: nat)
    requires Packetized(sent) && id in sent && k < |run|
  {
    var events := HostEvents(run);
    && PartOf(events[k], id)
    && !HasAll(SourceOf(sent[id]), Got(events[..k], id))
    && HasAll(SourceOf(sent[id]), Got(events[..k + 1], id))
  }

  /** Completeness on the wire, for units of several datagrams. */
  lemma ClientReceivesUnit(c: Config, sent: map<u64, Sent>, run: seq<WireEvent>, id: u64, k: nat)
    requires c.incompleteTimeout > 0 && Packetized(sent) && Network(sent, run) && k < |run|
    requires forall j | 0 <= j < |run| :: ClientAllowed(c, ClientAfter(c, run[..j]), run[j])
    requires Undisturbed(c, HostEvents(run), id)
    requires id in sent && CompletesAt(sent, run, id, k)
    ensures ClientOutcomeAt(c, run, k) == Ok(Some(Delivery(sent[id], id)))
  {
    NetworkIsGenuine(sent, run);
    LegalOnBothSides(c, run);
    ReassemblersSimulate(c, run, k);
    DeliveredAtLastFragment(c, Sources(sent), HostEvents(run), id, k);
    SourceIsValid(sent[id]);
  }

  /** Completeness on the wire, for units of a single datagram. */
  lemma ClientReceivesSmallUnit(c: Config, sent: map<u64, Sent>, run: seq<WireEvent>, id: u64, k: nat)
    requires c.incompleteTimeout > 0 && Packetized(sent) && Network(sent, run) && k < |run|
    requires id in sent && Packetizer.Count(sent[id]) == 1
    requires run[k].Datagram? && run[k].bytes == Packetizer.Datagram(sent[id], id, 0)
    ensures ClientOutcomeAt(c, run, k) == Ok(Some(Delivery(sent[id], id)))
  {
    NetworkIsGenuine(sent, run);
    ReassemblersSimulate(c, run, k);
    DatagramDecodes(sent[id], id, 0);
    SourceIsValid(sent[id]);
    SinglePartDelivered(c, HostEvents(run), k, SourceOf(sent[id]), id);
  }

  // ----- from sample to sample

  /** What the client's decoder is given for a delivered unit. */
  function DecoderSample(u: AccessUnit): seq<byte> {
    LengthPrefixed(Scan(u.data), 4)
  }

  /** A delta frame's sample that assembly reads correctly; AssemblyExact says which these are. */
  ghost predicate WellReadSample(nals: seq<Nal>) {
    && GoodNals(nals) && LengthsFit(nals, 4)
    && (!LooksLikeAnnexB(LengthPrefixed(nals, 4)) || AllOneByte(nals))
  }

  /** The unit the host sends for a delta frame with these NAL units. */
  ghost predicate SentDelta(u: Sent, nals: seq<Nal>, header: Option<seq<byte>>) {
    AssembleUnit(LengthPrefixed(nals, 4), header, Some(4), false) == Ok(u.data)
  }

  /** The unit the host sends for a keyframe. */
  ghost predicate SentKeyframe(u: Sent, payload: seq<byte>, size: nat, header: seq<Nal>) {
    u.keyframe && AssembleUnit(payload, Some(AnnexBStream(header)), Some(size), true) == Ok(u.data)
  }

  lemma DeltaSampleSurvives(u: Sent, id: u64, nals: seq<Nal>, header: Option<seq<byte>>)
    requires WellReadSample(nals) && SentDelta(u, nals, header)
    ensures DecoderSample(Delivery(u, id)) == LengthPrefixed(nals, 4)
  {
    LooksLikeAnnexBSpec(nals);
    AssemblyExact(nals, header);
    ScanOfGood(nals);
  }

  /** The decoder's sample is the encoder's if and only if assembly reads it correctly. */
  lemma DeltaSampleExact(u: Sent, id: u64, nals: seq<Nal>, header: Option<seq<byte>>)
    requires GoodNals(nals) && LengthsFit(nals, 4) && HeadersNonZero(nals)
    requires |LengthPrefixed(nals, 4)| < 0x1_0000_0000 && SentDelta(u, nals, header)
    ensures DecoderSample(Delivery(u, id)) == LengthPrefixed(nals, 4) <==> WellReadSample(nals)
  {
    LooksLikeAnnexBSpec(nals);
    SampleIdentity(nals, header);
  }

  /**
   * End to end: assembled on the host, cut into datagrams, delivered in any order with
   * repetitions and noise in an undisturbed window, reassembled, scanned and re-framed, a delta
   * frame's sample comes out byte for byte, with its own timestamps.
   */
  lemma EndToEndDelta(c: Config, sent: map<u64, Sent>, run: seq<WireEvent>, id: u64, k: nat,
                      nals: seq<Nal>, header: Option<seq<byte>>)
    requires c.incompleteTimeout > 0 && Packetized(sent) && Network(sent, run) && k < |run|
    requires forall j | 0 <= j < |run| :: ClientAllowed(c, ClientAfter(c, run[..j]), run[j])
    requires Undisturbed(c, HostEvents(run), id)
    requires id in sent && CompletesAt(sent, run, id, k)
    requires WellReadSample(nals) && SentDelta(sent[id], nals, header)
    ensures var r := ClientOutcomeAt(c, run, k);
            && r.Ok? && r.value.Some?
            && DecoderSample(r.value.value) == LengthPrefixed(nals, 4)
            && r.value.value.pts == sent[id].pts && r.value.value.duration == sent[id].duration
  {
    ClientReceivesUnit(c, sent, run, id, k);
    DeltaSampleSurvives(sent[id], id, nals, header);
  }

  /** End to end, exactly: a delivered delta frame comes out changed if and only if assembly misread it. */
  lemma EndToEndExact(c: Config, sent: map<u64, Sent>, run: seq<WireEvent>, id: u64, k: nat,
                      nals: seq<Nal>, header: Option<seq<byte>>)
    requires c.incompleteTimeout > 0 && Packetized(sent) && Network(sent, run) && k < |run|
    requires GoodNals(nals) && LengthsFit(nals, 4) && HeadersNonZero(nals)
    requires |LengthPrefixed(nals, 4)| < 0x1_0000_0000
    requires id in sent && SentDelta(sent[id], nals, header)
    ensures var r := ClientOutcomeAt(c, run, k);
            r.Ok? && r.value.Some? && r.value.value.id == id ==>
              (DecoderSample(r.value.value) == LengthPrefixed(nals, 4) <==> WellReadSample(nals))
  {
    ClientReceivesOriginals(c, sent, run, k);
    DeltaSampleExact(sent[id], id, nals, header);
  }

  /** The same for a frame small enough for one datagram, at every arrival of it. */
  lemma EndToEndSmallDelta(c: Config, sent: map<u64, Sent>, run: seq<WireEvent>, id: u64, k: nat,
                           nals: seq<Nal>, header: Option<seq<byte>>)
    requires c.incompleteTimeout > 0 && Packetized(sent) && Network(sent, run) && k < |run|
    requires id in sent && Packetizer.Count(sent[id]) == 1
    requires run[k].Datagram? && run[k].bytes == Packetizer.Datagram(sent[id], id, 0)
    requires WellReadSample(nals) && SentDelta(sent[id], nals, header)
    ensures var r := ClientOutcomeAt(c, run, k);
            r.Ok? && r.value.Some? && DecoderSample(r.value.value) == LengthPrefixed(nals, 4)
  {
    ClientReceivesSmallUnit(c, sent, run, id, k);
    DeltaSampleSurvives(sent[id], id, nals, header);
  }

  /**
   * End to end for a keyframe: the decoder's sample is the header's NAL units followed by the
   * frame's own, unless the frame starts with a parameter set and travels alone.
   */
  lemma EndToEndKeyframe(c: Config, sent: map<u64, Sent>, run: seq<WireEvent>, id: u64, k: nat,
                         payload: seq<byte>, size: nat, header: seq<Nal>, nals: seq<Nal>)
    requires c.incompleteTimeout > 0 && Packetized(sent) && Network(sent, run) && k < |run|
    requires forall j | 0 <= j < |run| :: ClientAllowed(c, ClientAfter(c, run[..j]), run[j])
    requires Undisturbed(c, HostEvents(run), id)
    requires id in sent && CompletesAt(sent, run, id, k)
    requires GoodNals(nals) && Frames(payload, size, nals)
    requires forall i | 0 <= i < |header| :: GoodNal(header[i])
    requires SentKeyframe(sent[id], payload, size, header)
    ensures var r := ClientOutcomeAt(c, run, k);
            && r.Ok? && r.value.Some? && r.value.value.keyframe
            && DecoderSample(r.value.value) == LengthPrefixed(KeyframeNals(header, nals), 4)
  {
    ClientReceivesUnit(c, sent, run, id, k);
    KeyframeParses(payload, size, header, nals);
  }
}
