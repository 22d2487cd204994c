# HoloBridge: a verified model of the streaming core

HoloBridge sends a Windows desktop as H.264 over QUIC datagrams to a visionOS client, with a
control stream for authentication, session resume and input. This project models the parts with
logic of their own and proves what they keep. `dafny verify dfyconfig.toml` checks all of it.

- **Media path.** `AnnexB`, `AnnexBScanner`, `NalTypes`, `SequenceHeader`, `AccessUnits` and
  `Decoder` follow a sample through the host's Annex-B conversion and the client's scanner and
  decoder configuration. `MediaHeader`, `Packetizer`, `Reassembler`, `ClientReassembler` and
  `PointerDatagrams` follow it through datagrams. `ReassemblyRuns` speaks about whole runs and
  `MediaPath` puts both halves together: what goes in on the host comes out on the client.
  `Arrivals` shows it under conditions on the traffic alone, and `ReassemblerAgreement` on which
  runs the two reassemblers agree.
- **Sessions.** `Sessions` is the session table, one step for each lock-held region.
  `ResumeTokens` are the signed tokens, `Connections` the server's side of a control connection,
  and `SessionOwnership` many control streams over one table in every interleaving.
  `StreamGates` joins the two: what each stream accepts, and how sessions are left behind.
  `ConnectionLaws`, `StreamEnds` and `SessionTimes` say what each message, each ending stream and
  each second does.
- **Input.** `Input` is the replayer over a backend whose n-th call fails for an arbitrary set of
  n; `InputRuns` speaks about every sequence of events, `ReplayEffects` about each event.
- **Framing.** `Framing` has the host's accumulator and the client's framer, with JSON abstract.
- **Encoder.** `Encoder` is the event loop around the hardware transform, over arbitrary answers;
  `EncoderRuns` speaks about every sequence of calls, `EncodedUnits` about what each gives.
- **Cursor.** `Cursor` decodes captured pointer shapes.

`Bytes` and `Wrappers` hold machine integers, big-endian fields and result types.

Code that changes state is a class or a method with the source's loops. Each is proved equal to a
function from the old state to the new one. What these functions mean is stated beside them in
plain terms of the inputs, and the lemmas about runs are about them.
Runs are sequences of events, read from the back, so every lemma about runs is about every
reachable state.

What comes from outside is a parameter: time and random nonces are arguments, the network is an
arbitrary sequence of datagrams, the backend and the transform answer as an arbitrary schedule or
script says, and the choice between equally old table entries is any legal one.

## What the proofs found

- A delta frame whose first NAL unit has 1 or 256 to 511 bytes is mistaken for Annex-B
  (`AnnexB.LooksLikeAnnexBSpec`), and reaches the decoder changed unless all its units have one
  byte (`AccessUnits.SampleIdentity`). A keyframe's own units change alike, and the sequence header
  may be put in front or left out by mistake (`Decoder.KeyframeExact`).
- A sequence header of bare parameter sets has the same blind spot, and is read as a record when
  its first set has 2^24 to 2^25 - 1 bytes (`SequenceHeader.FourByteHeaderExact`).
- A message refused after the session exists, like any early return, skips the closing hold or
  terminate: the session stays Active with no owner, exactly then, and nothing ever changes it
  again (`StreamGates.StrandedExactly`, `SessionOwnership.StrandedForever`).
- A handshake message is answered if and only if it comes in the batch behind the hello's. In the
  hello's own batch, and in the message loop, it is accepted and its action dropped; the stream
  then never accepts input (`StreamGates.HandshakeAnsweredExactly`).
- When a format description cannot be made for new parameter sets, the old decoding session stays
  and decodes the next keyframe of the new sets (`Decoder.UpdateCoherent`,
  `Decoder.StaleSessionReached`).
- A key or button whose release fails is forgotten while it stays down (`InputRuns.StuckKey`).
- A failed call for output leaves its hint behind (`EncoderRuns.FailureLeavesHint`), so the next
  drain asks again without a new event (`EncoderRuns.LeftHintAsksAgain`).
- Draining the accumulator loses the messages in front of a bad frame (`Framing.DrainExact`).
- With a zero timeout the two reassemblers part as soon as the clock goes back from a part to the
  next event, and on no other run (`ReassemblerAgreement.AgreeExactly`).
- With an in-flight limit of one no unit of several datagrams is ever delivered
  (`Arrivals.DeliveryNeedsRoom`).
- The monochrome cursor decoder looks for the XOR plane below `height` rows, so a shape whose
  `height` already counts both planes shows no inverted pixel (`Cursor.WhiteNeedsSecondPlane`).

## Model

| member | source | states |
|---|---|---|
| MediaPath.EndToEndDelta | client-avp/HoloBridge/Packages/HoloBridgeClient/Sources/HoloBridgeClientCore/H264VideoDatagram.swift:213-276 | a delta frame assembled, packetized, delivered in any order with repeats and noise within its window, reassembled, scanned and re-framed gives the decoder the encoder's sample byte for byte, with its timestamps |
| MediaPath.EndToEndExact | client-avp/HoloBridge/Packages/HoloBridgeClient/Sources/HoloBridgeClientCore/H264VideoDatagram.swift:213-276 | whenever a delta frame is delivered, in any run, the decoder gets the encoder's sample if and only if assembly read it correctly |
| MediaPath.EndToEndSmallDelta | client-avp/HoloBridge/Packages/HoloBridgeClient/Sources/HoloBridgeClientCore/H264VideoDatagram.swift:224-232 | the same for a frame of one datagram, at every arrival, with no condition on the window |
| MediaPath.EndToEndKeyframe | host/encode/src/lib.rs:385-411 | a keyframe reaches the decoder as the header's NAL units followed by its own |
| MediaPath.ClientReceivesOriginals | client-avp/HoloBridge/Packages/HoloBridgeClient/Sources/HoloBridgeClientCore/H264VideoDatagram.swift:213-276 | on the wire, over any loss, reordering, repetition and eviction, the client hands on only units that were packetized, unchanged, under their own id |
| MediaPath.ClientReceivesUnit | client-avp/HoloBridge/Packages/HoloBridgeClient/Sources/HoloBridgeClientCore/H264VideoDatagram.swift:213-276 | on the wire, a unit whose fragments all arrive in an undisturbed window is handed on at its last missing fragment |
| Arrivals.InterleavedEndToEnd | client-avp/HoloBridge/Packages/HoloBridgeClient/Sources/HoloBridgeClientCore/H264VideoDatagram.swift:213-276 | under conditions on the traffic alone: of fewer units than the limit, sent within one timeout, interleaved, repeated and with noise, a delta frame ends at its last missing datagram as the encoder's sample |
| Arrivals.InterleavedDelivers | host/transport/src/media.rs:338-424 | the same for the host's reassembler: each unit is delivered exactly at its last missing part |
| Arrivals.FewUnitsUndisturbed | host/transport/src/media.rs:327-375 | fewer units than the limit, all within one timeout, disturb no unit |
| Arrivals.FewUnitsLegal | host/transport/src/media.rs:362-375 | with fewer units than the limit a run is legal if and only if nothing is evicted |
| Arrivals.UncrowdedUndisturbed | host/transport/src/media.rs:327-375 | at any point of a run of any length, a unit is undisturbed when it is in time and fewer units than the limit had a part less than a timeout ago |
| Arrivals.SlidingEndToEnd | client-avp/HoloBridge/Packages/HoloBridgeClient/Sources/HoloBridgeClientCore/H264VideoDatagram.swift:213-276 | from sample to sample under that condition, whatever was lost, expired or evicted before |
| Arrivals.NeverDelivered | host/transport/src/media.rs:327-375 | with a limit of one or a zero timeout no part ever completes its unit |
| Arrivals.DeliveryNeedsRoom | host/transport/src/media.rs:327-424 | a unit of several parts can be delivered if and only if the timeout is positive and the limit at least two |
| Arrivals.AnyOrderEndToEnd | client-avp/HoloBridge/Packages/HoloBridgeClient/Sources/HoloBridgeClientCore/H264VideoDatagram.swift:213-276 | an instance with nothing left to assume: the datagrams of one delta frame alone, in any order and with repetitions, end at a fresh client as the encoder's sample |
| Arrivals.AnyOrderDelivers | host/transport/src/media.rs:338-424 | an instance: one unit alone, its parts in any order and with repetitions |
| MediaPath.DatagramDecodes | host/transport/src/media.rs:134-163 | every datagram the packetizer makes decodes, on both sides, to its fragment and its unit's metadata |
| MediaPath.PacketizerTraffic | host/transport/src/media.rs:251-309 | until the id counter saturates every unit travels under an id of its own |
| MediaHeader.Encode | host/transport/src/media.rs:119-132 | encoding fills the 32-byte layout, and fails on exactly the invalid shapes |
| MediaHeader.ValidateShape | host/transport/src/media.rs:439-455 | a shape is accepted exactly when the index is below the count |
| MediaHeader.DecodeEncoded | host/transport/src/media.rs:134-163 | decoding an encoded header in front of any payload returns both |
| MediaHeader.EncodeDecoded | host/transport/src/media.rs:119-163 | every accepted datagram is an encoded header and its payload, up to the reserved byte and seven unread flag bits |
| Packetizer.H264DatagramPacketizer.PacketizeBytes | host/transport/src/media.rs:265-309 | the three errors leave the id counter alone; otherwise the datagrams of the unit are returned under the next id, and the counter saturates |
| Packetizer.Cuts | host/transport/src/media.rs:280-305 | each fragment is non-empty, in range, ends where the next begins, and the last ends at the end of the data |
| Packetizer.CutDatagram | host/transport/src/media.rs:293-305 | each turn of the loop makes the next datagram; encoding its header never fails |
| Packetizer.FragmentsTile | host/transport/src/media.rs:293-308 | the fragments concatenate to the data |
| Packetizer.NegotiatedPayloadLimit | host/transport/src/media.rs:427-437 | there is a limit exactly when the peer leaves room behind the header and the cap is positive, and it is the largest that fits both |
| Packetizer.PacketizeExact | host/transport/src/media.rs:265-287 | a unit is cut if and only if it has bytes, the payload size is positive and 65535 fragments hold it |
| Packetizer.DatagramsFitPeer | host/transport/src/media.rs:427-437 | no datagram cut under a negotiated limit is larger than the peer accepts |
| Packetizer.IdsDistinct | host/transport/src/media.rs:286-287 | two units have different ids if and only if the counter had not saturated |
| Packetizer.IdValue | host/transport/src/media.rs:286-287 | ids count from one and stop at the largest 64-bit number |
| Reassembler.H264DatagramReassembler.PushDatagram | host/transport/src/media.rs:338-424 | pruning, decoding, evicting and storing in the source's order, with its errors; the evicted entries are a legal eviction order |
| Reassembler.H264DatagramReassembler.PruneExpired | host/transport/src/media.rs:327-336 | exactly the expired entries leave, and each is counted once |
| Reassembler.H264DatagramReassembler.EvictOldest | host/transport/src/media.rs:362-375 | oldest entries leave one by one, any of several equally old first, until there is room or nothing left |
| Reassembler.H264DatagramReassembler.StoreFragment | host/transport/src/media.rs:377-423 | the lookup, the metadata check, the slot, and the delivery of a unit that became whole |
| Reassembler.PushKeepsTable | host/transport/src/media.rs:385-423 | every stored entry's received count is its number of filled slots, and is below its fragment count |
| ReassemblerLaws.PruneKeeps | host/transport/src/media.rs:327-336 | an entry survives pruning exactly while it is younger than the timeout, and whatever goes is counted |
| ReassemblerLaws.EvictedAreOldest | host/transport/src/media.rs:362-375 | every evicted entry was first seen no later than every entry that stays |
| ReassemblerLaws.EvictsAsFewAsNeeded | host/transport/src/media.rs:362-375 | an eviction leaves one place below the limit, and takes nothing when there is one |
| ReassemblerLaws.InconsistentIsRefused | host/transport/src/media.rs:385-398 | a part whose count, times or flag differ from its entry's is refused and changes nothing |
| ReassemblerLaws.FirstPartOpens | host/transport/src/media.rs:377-384 | the first part opens an entry that holds it alone |
| ReassemblerLaws.FirstCopyIsKept | host/transport/src/media.rs:400-405 | a part that is there already changes nothing |
| ReassemblerLaws.MissingPartFills | host/transport/src/media.rs:400-423 | a missing part fills its own slot, and completes the unit exactly when it was the last |
| ReassemblyRuns.DeliveredUnitsAreOriginal | host/transport/src/media.rs:338-424 | soundness: over any run of packetized units every delivered unit is the original, with its own metadata |
| ReassemblyRuns.DeliveredAtLastFragment | host/transport/src/media.rs:338-424 | completeness: with every fragment in time and fewer than the limit in flight at each arrival, the unit is delivered exactly at its last missing fragment, in any order |
| ReassemblyRuns.SinglePartDelivered | host/transport/src/media.rs:350-360 | a unit of one fragment is delivered at every arrival |
| ReassemblyRuns.EntriesConserved | host/transport/src/media.rs:338-424 | entries opened equal multi-fragment units delivered plus entries dropped plus entries in flight |
| ReassemblyRuns.TableBounded | host/transport/src/media.rs:362-375 | after every event at most max(1, limit) entries are in flight |
| ClientReassembler.H264VideoDatagramReassembler.Push | client-avp/HoloBridge/Packages/HoloBridgeClient/Sources/HoloBridgeClientCore/H264VideoDatagram.swift:213-276 | the client's push, with its own decoding, pruning, eviction and storing |
| ClientReassembler.H264VideoDatagramReassembler.PruneExpired | client-avp/HoloBridge/Packages/HoloBridgeClient/Sources/HoloBridgeClientCore/H264VideoDatagram.swift:278-291 | exactly the entries older than the timeout leave, each counted once |
| ClientReassembler.H264VideoDatagramReassembler.EvictOldest | client-avp/HoloBridge/Packages/HoloBridgeClient/Sources/HoloBridgeClientCore/H264VideoDatagram.swift:234-240 | oldest entries leave until there is room or nothing left |
| ClientReassembler.H264VideoDatagramReassembler.StoreFragment | client-avp/HoloBridge/Packages/HoloBridgeClient/Sources/HoloBridgeClientCore/H264VideoDatagram.swift:242-275 | an entry is written back only when the unit is not whole yet, and not after a metadata error |
| ClientReassembler.H264VideoDatagramReassembler.Reset | client-avp/HoloBridge/Packages/HoloBridgeClient/Sources/HoloBridgeClientCore/H264VideoDatagram.swift:208-211 | the table and the drop count start over |
| ClientReassembler.DecodersAgree | client-avp/HoloBridge/Packages/HoloBridgeClient/Sources/HoloBridgeClientCore/H264VideoDatagram.swift:293-321 | the client's header decoder answers like the host's if and only if the datagram is short, of another version, or video |
| ClientReassembler.ExpiryAgrees | client-avp/HoloBridge/Packages/HoloBridgeClient/Sources/HoloBridgeClientCore/H264VideoDatagram.swift:278-291 | the two expiry tests agree if and only if the timeout is positive or the clock did not go back |
| ClientReassembler.PushesAgree | client-avp/HoloBridge/Packages/HoloBridgeClient/Sources/HoloBridgeClientCore/H264VideoDatagram.swift:213-276 | one push of either reassembler gives the same table, drops and answer |
| ClientReassembler.ReassemblersSimulate | client-avp/HoloBridge/Packages/HoloBridgeClient/Sources/HoloBridgeClientCore/H264VideoDatagram.swift:213-321 | over whole runs the two reassemblers hold the same table, count the same drops, allow the same evictions and answer every push alike |
| ReassemblerAgreement.AgreeExactly | client-avp/HoloBridge/Packages/HoloBridgeClient/Sources/HoloBridgeClientCore/H264VideoDatagram.swift:213-321 | over any run of video datagrams the two reassemblers hold the same table and count the same drops throughout if and only if the timeout is positive or the clock never goes back from a part to the next event |
| ReassemblerAgreement.AgreeAtEveryPrefix | client-avp/HoloBridge/Packages/HoloBridgeClient/Sources/HoloBridgeClientCore/H264VideoDatagram.swift:213-321 | agreeing throughout is agreeing after every prefix of the run |
| ReassemblerAgreement.StepAgreesWhen | client-avp/HoloBridge/Packages/HoloBridgeClient/Sources/HoloBridgeClientCore/H264VideoDatagram.swift:213-291 | one event keeps equal states equal if and only if the clock fits the table |
| ReassemblerAgreement.OnlyTheLastPart | host/transport/src/media.rs:327-424 | with a zero timeout the host's table holds the part that just came and nothing else |
| ClientReassembler.ZeroTimeoutDiffers | client-avp/HoloBridge/Packages/HoloBridgeClient/Sources/HoloBridgeClientCore/H264VideoDatagram.swift:278-291 | a run of two events from the empty table, with a zero timeout and a clock that goes back, on which they differ |
| PointerDatagrams.StateArrives | client-avp/HoloBridge/Packages/HoloBridgeClient/Sources/HoloBridgeClientCore/H264VideoDatagram.swift:12-23 | the pointer state the host encodes is what the client's parser returns |
| PointerDatagrams.MotionArrives | host/transport/src/media.rs:225-246 | the motion the client encodes is what the host decodes, and the client's own parser refuses it |
| PointerDatagrams.EncodePointerState | host/transport/src/media.rs:173-186 | filling the host's pointer datagram field by field gives its layout |
| PointerDatagrams.EncodeInputPointer | client-avp/HoloBridge/Packages/HoloBridgeClient/Sources/HoloBridgeClientCore/H264VideoDatagram.swift:35-43 | filling the client's motion datagram field by field gives its layout |
| PointerDatagrams.PointerAgrees | client-avp/HoloBridge/Packages/HoloBridgeClient/Sources/HoloBridgeClientCore/H264VideoDatagram.swift:96-114 | the client takes a datagram for a pointer exactly when the host's decoder does, with the same fields |
| PointerDatagrams.KindsAreDisjoint | client-avp/HoloBridge/Packages/HoloBridgeClient/Sources/HoloBridgeClientCore/H264VideoDatagram.swift:96-114 | no datagram is accepted as two of video, pointer state and pointer motion |
| AnnexB.LengthPrefixedToAnnexB | host/encode/src/lib.rs:417-472 | the conversion loop returns the Annex-B framing of the sample's non-empty NAL units, or the source's error |
| AnnexB.ConvertUnit | host/encode/src/lib.rs:429-464 | one turn of the loop: the next unit appended, or the source's error |
| AnnexB.ConvertSpec | host/encode/src/lib.rs:417-472 | it succeeds with a stream if and only if the sample is the length-prefixed framing of units of which one is not empty |
| AnnexB.LengthPrefixedSplit | host/encode/src/lib.rs:430-465 | a sample that parses is exactly the framing of the units read from it |
| AnnexB.LooksLikeAnnexBSpec | host/encode/src/lib.rs:413-415 | a sample with four-byte lengths is taken for Annex-B if and only if its first unit has 1 or 256 to 511 bytes |
| AnnexBScanner.ParseAnnexBNalUnits | client-avp/HoloBridge/HoloBridge/Decode/H264VideoDecoder.swift:323-350 | the scanning loop returns the units between start codes, or the missing-units error |
| AnnexBScanner.MakeLengthPrefixedSample | client-avp/HoloBridge/HoloBridge/Decode/H264VideoDecoder.swift:315-321 | the fold gives the four-byte length framing |
| AnnexBScanner.ScannedAreGood | client-avp/HoloBridge/HoloBridge/Decode/H264VideoDecoder.swift:323-369 | whatever the bytes, only non-empty units without a start code inside are returned |
| AnnexBScanner.RoundTrip | client-avp/HoloBridge/HoloBridge/Decode/H264VideoDecoder.swift:323-369 | scanning the Annex-B framing of a list returns the list if and only if every unit is non-empty and holds no start code; trailing zeros survive |
| AnnexBScanner.ScanBehind | client-avp/HoloBridge/HoloBridge/Decode/H264VideoDecoder.swift:323-369 | units that do not end in a zero byte are scanned as themselves in front of any stream, with either start code |
| NalTypes.AnnexBNalTypeIter.MoveNext | host/encode/src/lib.rs:525-546 | the iterator returns the type behind the next start code and moves behind the code |
| NalTypes.CollectTypes | host/encode/src/lib.rs:516-546 | calling the iterator until it ends gives the list of types |
| NalTypes.IteratorAgreesWithScanner | host/encode/src/lib.rs:516-546 | the host's type iterator yields the types of the client's scanned units if and only if no start code is followed directly by another |
| NalTypes.TypesOfGood | host/encode/src/lib.rs:516-546 | on the framing of good units the iterator yields their types in order |
| NalTypes.TypeIsLowBits | host/encode/src/lib.rs:525-546 | the type is the low five bits of the first byte, whatever the bits above |
| SequenceHeader.AvccSequenceHeaderToAnnexB | host/encode/src/lib.rs:322-383 | the two parameter-set loops, with every truncation error of the source |
| SequenceHeader.DecodeOfRecord | host/encode/src/lib.rs:322-383 | every record of up to 31 SPS and 255 PPS decodes to those sets in order and its length size |
| SequenceHeader.RecordOfDecoded | host/encode/src/lib.rs:322-383 | decoding succeeds on nothing but such records |
| SequenceHeader.ContainsOnlyParameterSets | host/encode/src/lib.rs:499-510 | true exactly when there is a type and every type is SPS or PPS |
| SequenceHeader.TryLengthPrefixedParameterSets | host/encode/src/lib.rs:474-490 | the loop over the sizes 4 to 1 |
| SequenceHeader.FallbackIsLargest | host/encode/src/lib.rs:474-490 | the fallback returns the largest size of 4..1 whose parse holds only parameter sets, or nothing when there is none |
| SequenceHeader.FourByteParameterSets | host/encode/src/lib.rs:474-490 | a list of parameter sets behind four-byte lengths comes back with size 4 |
| SequenceHeader.H264SequenceHeaderToAnnexB | host/encode/src/lib.rs:300-320 | the three formats are tried in order |
| SequenceHeader.RecordComesOut | host/encode/src/lib.rs:300-320 | a record always reaches its own decoder and comes out as its sets |
| SequenceHeader.FourByteHeaderExact | host/encode/src/lib.rs:300-320 | parameter sets behind four-byte lengths come out as themselves if and only if the first has not 1, 256 to 511, or 2^24 to 2^25 - 1 bytes, or all have one |
| SequenceHeader.MisreadAsRecord | host/encode/src/lib.rs:309-311 | a list with a very long first set that is read as a record never comes out as itself |
| AccessUnits.AssembleAnnexBAccessUnit | host/encode/src/lib.rs:385-411 | conversion, and the sequence header in front of a keyframe that does not start with a parameter set |
| AccessUnits.AssemblyDefaults | host/encode/src/lib.rs:385-411 | without a length size four bytes are assumed, and without a header none is added |
| AccessUnits.AssemblyExact | host/encode/src/lib.rs:385-415 | a delta frame goes out as the Annex-B framing of its units if and only if it is not mistaken for Annex-B or the two framings coincide |
| AccessUnits.SampleIdentity | host/encode/src/lib.rs:385-472 | for any delta frame, sample to sample is the identity if and only if its first unit has neither 1 nor 256 to 511 bytes, or all its units have one byte |
| AccessUnits.SingleNalIdentity | host/encode/src/lib.rs:385-415 | for one unit, whatever its first byte, sample to sample is the identity if and only if its length is not in 256..511 |
| AccessUnits.MistakenSample | host/encode/src/lib.rs:413-415 | a single unit of 256 to 511 bytes is mistaken for Annex-B and always reaches the decoder changed |
| Decoder.H264VideoDecoder.UpdateDecoderConfiguration | client-avp/HoloBridge/HoloBridge/Decode/H264VideoDecoder.swift:124-192 | the last SPS and last PPS are selected, and format and session rebuilt only when they changed |
| Decoder.LastOfTypeSpec | client-avp/HoloBridge/HoloBridge/Decode/H264VideoDecoder.swift:125-132 | the selected unit is the last of its type, and there is none exactly when no unit has the type |
| Decoder.KeyframeParses | host/encode/src/lib.rs:385-411 | a keyframe parses on the client to the header's units followed by its own, or to its own when it starts with a parameter set |
| Decoder.KeyframeSelfSufficient | client-avp/HoloBridge/HoloBridge/Decode/H264VideoDecoder.swift:124-154 | a keyframe brings the decoder an SPS and a PPS if and only if its payload holds both, or does not start with a parameter set and holds both together with the header; the last of each is used |
| Decoder.HeaderSetsUsed | client-avp/HoloBridge/HoloBridge/Decode/H264VideoDecoder.swift:124-144 | with no parameter set of its own in the payload the decoder uses the header's last SPS and last PPS |
| Decoder.KeyframeExact | host/encode/src/lib.rs:385-415 | a length-prefixed keyframe scans to the header's units, unless the type read off it is a parameter set's, and then its own, which are unchanged if and only if it was not mistaken for Annex-B or all have one byte |
| Decoder.KeyframeComesOut | host/encode/src/lib.rs:385-415 | with its first type read right, a keyframe scans to what it should if and only if its own units do |
| Decoder.UpdateCoherent | client-avp/HoloBridge/HoloBridge/Decode/H264VideoDecoder.swift:138-192 | the session matches the cached sets if and only if no format description failed for new sets beside an older session; then the next such keyframe is decoded by the older session |
| Decoder.UpdateUsesLastSets | client-avp/HoloBridge/HoloBridge/Decode/H264VideoDecoder.swift:124-192 | an update that succeeds leaves a session made from the last SPS and PPS, and one that fails says which step failed |
| Decoder.SameSetsReuse | client-avp/HoloBridge/HoloBridge/Decode/H264VideoDecoder.swift:138-144 | the sets in use create nothing new |
| Decoder.StaleSessionReached | client-avp/HoloBridge/HoloBridge/Decode/H264VideoDecoder.swift:138-154 | from a new decoder, two keyframes reach that state, and a third is decoded by the session of the first |
| Sessions.SessionManager.ResumeLocked | host/session/src/lib.rs:146-200 | the lock-held part of a resume, with its four refusals, the failure to issue, and the inline expiry |
| Sessions.SessionManager.PruneExpired | host/session/src/lib.rs:218-233 | exactly the expired holds are terminated, the rest are untouched |
| Sessions.SessionManager.InsertSession | host/session/src/lib.rs:91-126 | a new record is active with its nonce and no expiry |
| Sessions.SessionManager.HoldLocked | host/session/src/lib.rs:128-144 | a hold sets state and expiry, and leaves a terminated session alone |
| Sessions.SessionManager.TerminateSession | host/session/src/lib.rs:202-216 | termination clears expiry and nonce and records the reason |
| Sessions.ResumeExact | host/session/src/lib.rs:146-200 | a resume is accepted if and only if the session is held, not expired, and the nonce is its own |
| SessionTimes.HoldExact | host/session/src/lib.rs:128-144 | a hold lasts the configured seconds from its own clock reading, and changes nothing else |
| SessionTimes.HoldLasts | host/session/src/lib.rs:128-200 | a hold is resumed with the right nonce exactly until it has lasted that long |
| SessionTimes.PruneEndsHold | host/session/src/lib.rs:218-233 | pruning ends exactly the holds that have lasted that long |
| SessionTimes.PruneExact | host/session/src/lib.rs:218-233 | pruning removes no record and changes exactly the holds that have run out |
| SessionTimes.ResumeGives | host/session/src/lib.rs:172-199 | what an accepted resume hands back and leaves in the record |
| SessionTimes.ResumeRefusal | host/session/src/lib.rs:152-181 | a refused resume changes nothing, unless the hold ran out: then the session ends and keeps its nonce |
| SessionTimes.CreatedSession | host/session/src/lib.rs:91-126 | what a new record holds |
| SessionTimes.IdentityKept | host/session/src/lib.rs:91-233 | owner, name and creation time of a session never change |
| SessionTimes.OthersUntouched | host/session/src/lib.rs:91-216 | no operation touches a session it is not about |
| SessionTimes.HeldUntil | host/session/src/lib.rs:128-144 | in every run a held session expires the configured seconds after it was last put on hold |
| Sessions.RecordsWellShaped | host/session/src/lib.rs:91-233 | in every run Held carries expiry and nonce, Active carries a nonce and no expiry |
| Sessions.AcceptedAtMostOnce | host/session/src/lib.rs:146-200 | with fresh nonces no two accepted resumes use the same one, over every interleaving |
| Sessions.NonceWasIssued | host/session/src/lib.rs:91-233 | a nonce in a record was drawn for it by its creation or its last resume |
| Sessions.AcceptedWasIssued | host/session/src/lib.rs:146-200 | an accepted nonce had been issued for that very session before |
| Sessions.ReconnectsCounted | host/session/src/lib.rs:183-189 | the reconnect counter equals the accepted resumes of the session, modulo 2^32 |
| Sessions.TerminatedIsFinal | host/session/src/lib.rs:202-233 | no step leaves Terminated |
| ResumeTokens.IssuedValidates | host/auth/src/resume_token.rs:65-105 | an issued token validates to its claims until it expires, and from then on is expired |
| ResumeTokens.ValidatedIsSigned | host/auth/src/resume_token.rs:79-105 | whatever validates carries the service's MAC over exactly its claims |
| ResumeTokens.TokenLife | host/auth/src/resume_token.rs:65-105 | over every run of the session table, the token issued with an event's nonce is accepted if and only if it has not expired, its session is on an unexpired hold, and no resume of it was accepted since |
| SessionTimes.TokenLasts | host/auth/src/resume_token.rs:65-105 | an issued token is valid for the service's number of seconds |
| SessionTimes.TokenLifeInSeconds | host/auth/src/resume_token.rs:65-105 | over every run a token is accepted if and only if it is younger than its lifetime, its session was last put on hold less than the hold time ago, and no resume was accepted since |
| ResumeTokens.NonceSince | host/session/src/lib.rs:146-200 | a session keeps a nonce until a resume is accepted or it ends |
| Connections.ControlConnection.OnReceive | host/transport/src/connection.rs:230-312 | every server-role branch: state, transcript, responses, action or error |
| Connections.ControlConnection.RecordAuthResult | host/transport/src/connection.rs:115-136 | an authentication verdict is stored and sent |
| Connections.ControlConnection.RecordResumeResult | host/transport/src/connection.rs:138-159 | a resume verdict is stored and sent |
| Connections.ControlConnection.BypassAuth | host/transport/src/connection.rs:97-100 | a bypass counts as a success |
| Connections.ControlConnection.InitiateGoodbye | host/transport/src/connection.rs:188-193 | a goodbye is recorded as sent |
| Connections.AtMostOneAction | host/transport/src/connection.rs:230-312 | a connection asks for at most one validation, and only after a hello |
| ConnectionLaws.AcceptedExactly | host/transport/src/connection.rs:230-312 | exactly which messages are accepted, by what came before: the first hello, the first handshake message behind it, input under a success, any goodbye |
| ConnectionLaws.AnsweredExactly | host/transport/src/connection.rs:234-312 | a hello is answered with an acknowledgement, a handshake message with the validation of its own token, everything else with nothing |
| ConnectionLaws.RefusedExactly | host/transport/src/connection.rs:234-305 | which error refuses a message, and that it changes no flag |
| ConnectionLaws.FlagsRemember | host/transport/src/connection.rs:230-312 | the flags remember exactly which messages came |
| Connections.InputNeedsVerdict | host/transport/src/connection.rs:285-301 | input is accepted exactly while the last recorded verdict is a success |
| Connections.HandshakeGate | host/transport/src/connection.rs:230-312 | for one connection whose verdicts are recorded only in answer to its validations, input is accepted if and only if the one validation was answered with success before |
| Connections.UnansweredHandshakeIsDead | host/transport/src/connection.rs:230-312 | a connection whose validation was not answered never accepts input |
| SessionOwnership.AtMostOneOwner | host/transport/src/server.rs:1473-1786 | in every interleaving of streams, early exits included, a session has at most one live owner and an owned session is Active |
| SessionOwnership.OthersLeaveItAlone | host/transport/src/server.rs:1770-1786 | no step of another stream and no pruning changes an owned session |
| SessionOwnership.StepKeepsInv | host/transport/src/server.rs:1473-1786 | each step of each stream keeps at most one owner, owned sessions active, and the single request |
| StreamEnds.LoopEndsClose | host/transport/src/server.rs:1728-1786 | a stream that leaves its loop, by the peer's close, a failed read or a goodbye, holds its session for the configured seconds if no goodbye was said, and terminates it otherwise |
| StreamEnds.ClosingStays | host/transport/src/server.rs:1770-1786 | other streams do not change how a stream closes |
| StreamEnds.BatchGoesOn | host/transport/src/server.rs:1737-1750 | a batch without a goodbye leaves the stream in its loop |
| StreamEnds.GoodbyeIsSaid | host/transport/src/server.rs:1717-1748 | reading a goodbye, or a close the server starts, counts as a goodbye |
| StreamEnds.HandshakeGives | host/transport/src/server.rs:1523-1630 | the session a handshake ends with is the one just created or resumed, with its nonce |
| SessionOwnership.VanishingStrands | host/transport/src/server.rs:1497-1724 | a stream that returns early on a failed send or any other error leaves its session active and without an owner |
| StreamGates.StrandedExactly | host/transport/src/server.rs:1482-1786 | a session is active without an owner if and only if a stream that owned it left early, on a message it refused or another early return |
| StreamGates.StrandedByEarlyExit | host/transport/src/server.rs:1741-1786 | one step strands an owned session if and only if it is such an exit of its owner |
| StreamGates.RefusedMessageStrands | host/transport/src/server.rs:1741-1743 | any message refused in the message loop strands the session |
| StreamGates.SecondHelloStrands | host/transport/src/server.rs:1741-1743 | a reachable run: log in, enter the message loop, say hello again |
| StreamGates.InputNeedsOwnedSession | host/transport/src/server.rs:1501-1786 | in every interleaving a live stream accepts an input message if and only if it owns an active session |
| StreamGates.HandshakeAnsweredExactly | host/transport/src/server.rs:1482-1786 | on a live stream that is not in the middle of answering, an accepted handshake message has led to a session, and input is accepted, if and only if it came in the second batch |
| StreamGates.HandshakeFollows | host/transport/src/server.rs:1482-1786 | in every continuation a message of the second batch stays answered, and one of any other batch stays without a session |
| StreamGates.PipelinedLogin | host/transport/src/server.rs:1482-1503 | a reachable run in which a handshake message is accepted in the first batch |
| StreamGates.LateLogin | host/transport/src/server.rs:1741-1743 | a reachable run in which a handshake message is accepted in the message loop |
| StreamGates.StreamsAreDisciplined | host/transport/src/server.rs:1501-1684 | each stream's protocol state is the one its own events produce, and verdicts are recorded only in answer to its validations |
| StreamGates.GateOfEveryStream | host/transport/src/server.rs:1482-1786 | the handshake gate for every stream of every interleaving, with nothing assumed about what the server records |
| SessionOwnership.StrandedForever | host/transport/src/server.rs:1770-1786 | a stranded session is never touched again |
| SessionOwnership.TableRefines | host/session/src/lib.rs:91-233 | the shared table is always one that lock-held regions alone produce |
| SessionOwnership.ResumedAtMostOnce | host/transport/src/server.rs:1600-1630 | over every interleaving of streams no resume nonce is accepted twice |
| Input.DesktopCoordinateSpec | host/input/src/lib.rs:238-247 | every point lands inside the display if and only if its ends are in order or its wrapped extent is at most one |
| Input.DisplayPointsAreExact | host/input/src/lib.rs:238-247 | the display's own points are reached, without overflow, when its extent fits 32 bits |
| Input.InputSession.HandlePointerMotion | host/input/src/lib.rs:105-119 | late or unfocused motions are ignored; the sequence advances only after a successful move |
| Input.InputSession.HandlePointerButton | host/input/src/lib.rs:121-151 | move first; track before pressing and forget before releasing, whatever the call answers |
| Input.InputSession.HandleWheel | host/input/src/lib.rs:153-174 | move first; the wheel only turns for a nonzero delta |
| Input.InputSession.HandleKey | host/input/src/lib.rs:176-195 | track before pressing, forget before releasing |
| Input.InputSession.SetInputFocus | host/input/src/lib.rs:197-207 | losing focus releases everything first, and fails without changing focus when that fails |
| Input.InputSession.ReleaseAll | host/input/src/lib.rs:209-223 | buttons in order, then keys in order, each forgotten after its release, stopping at the first failure |
| Input.InputSession.UpdateDisplayBounds | host/input/src/lib.rs:229-236 | only the bounds change; the answer says whether they did |
| ReplayEffects.MotionMoves | host/input/src/lib.rs:105-119 | a newer motion with focus is one move to its own point, pulled inside the display if it is outside |
| ReplayEffects.ButtonActs | host/input/src/lib.rs:121-151 | a button event moves to its own point, and then presses or releases that very button |
| ReplayEffects.WheelScrolls | host/input/src/lib.rs:153-174 | a wheel event moves to its own point, and then turns by its own deltas |
| ReplayEffects.KeyActs | host/input/src/lib.rs:176-195 | a key event presses or releases that very key |
| ReplayEffects.UnfocusedIgnores | host/input/src/lib.rs:105-195 | without focus none of them does anything |
| ReplayEffects.FocusChanges | host/input/src/lib.rs:197-207 | the focus is gained at once, and lost exactly when everything could be released |
| ReplayEffects.ReleaseEverythingCalls | host/input/src/lib.rs:209-223 | one release for each tracked switch, in order and no other, up to the first that fails |
| ReplayEffects.BoundsPlaceLaterMotions | host/input/src/lib.rs:229-247 | new bounds call nothing and place the motions that follow |
| ReplayEffects.CoordinateClamps | host/input/src/lib.rs:238-247 | a coordinate is moved by the display's edge, and stops at its last point |
| InputRuns.UnfocusedTracksNothing | host/input/src/lib.rs:197-223 | without focus nothing is tracked, in every run and whatever calls fail |
| InputRuns.DownsAreSeparated | host/input/src/lib.rs:121-223 | two presses of one button or key always have a release of it between them |
| InputRuns.TrackedIsHeld | host/input/src/lib.rs:121-223 | while no call has failed, tracked is exactly what the operating system holds down |
| InputRuns.HeldAfterRelease | host/input/src/lib.rs:209-223 | after a successful release an untracked switch whose last press went through is held if and only if its last call was a failed release; with no failure nothing is held |
| InputRuns.HeldAfterFocusLoss | host/input/src/lib.rs:197-207 | the same, with its exact condition, while focus is away |
| InputRuns.StuckKey | host/input/src/lib.rs:176-195 | one failed key release leaves the key down and forgotten |
| InputRuns.MotionReplayedWhen | host/input/src/lib.rs:105-119 | a motion is replayed if and only if the session has focus and its sequence is above every one replayed |
| InputRuns.PointerInOrder | host/input/src/lib.rs:105-174 | over any interleaving of the two channels motions rise strictly above all pointer events replayed before, and every target lies inside the bounds of its moment |
| Framing.FrameAccumulator.NextMessage | host/transport/src/protocol.rs:343-356 | one frame is cut off once it has arrived whole, and removed even when it is refused |
| Framing.FrameAccumulator.DrainMessages | host/transport/src/protocol.rs:335-341 | the loop stops at the first failure |
| Framing.ControlMessageFramer.NextMessage | client-avp/HoloBridge/Packages/HoloBridgeClient/Sources/HoloBridgeClientCore/ControlMessage.swift:370-385 | the client's framer cuts the same frames and leaves the same bytes |
| Framing.ControlMessageFramer.Append | client-avp/HoloBridge/Packages/HoloBridgeClient/Sources/HoloBridgeClientCore/ControlMessage.swift:366-368 | bytes go behind the buffer |
| Framing.ControlMessageFramer.Reset | client-avp/HoloBridge/Packages/HoloBridgeClient/Sources/HoloBridgeClientCore/ControlMessage.swift:387-389 | the buffer is emptied |
| Framing.FrameAccumulator.Push | host/transport/src/protocol.rs:331-333 | bytes go behind the buffer |
| Framing.PollContinues | host/transport/src/protocol.rs:330-356 | polling goes on with later bytes where it stopped with the earlier ones |
| Framing.ChunkingIsInvisible | host/transport/src/protocol.rs:330-356 | any two ways of cutting a stream give the same results in the same order and the same leftover |
| Framing.FramesTile | host/transport/src/protocol.rs:343-356 | the frames and the leftover are the bytes pushed |
| Framing.CutFramesAreWhole | host/transport/src/protocol.rs:306-326 | a cut frame never fails the inner length checks |
| Framing.DrainExact | host/transport/src/protocol.rs:335-341 | draining returns all messages when none fails, else the first failure with only the bytes behind it left; earlier messages are lost |
| Framing.DrainSucceeds | host/transport/src/protocol.rs:335-341 | draining succeeds if and only if no whole frame in the buffer fails |
| Framing.MessagesArrive | host/transport/src/protocol.rs:289-326 | encoded messages, cut anyhow, are received as sent with nothing left over |
| Framing.FrameLayout | host/transport/src/protocol.rs:289-304 | a frame is the payload behind its length in four bytes, most significant first, and only longer payloads are refused |
| Framing.RefusedFrame | host/transport/src/protocol.rs:306-364 | a message of another protocol version, or none, is refused with its frame consumed, and polling goes on behind it |
| Encoder.MfH264Encoder.EncodeFrame | host/encode/src/windows_backend.rs:187-273 | encode, with every early return and its error |
| Encoder.MfH264Encoder.OfferSample | host/encode/src/windows_backend.rs:221-254 | the submit loop: drain on refusal, fail when nothing was drained |
| Encoder.MfH264Encoder.DrainAvailableOutput | host/encode/src/windows_backend.rs:485-515 | pump, then pull only under a hint, clearing it after each successful pull |
| Encoder.MfH264Encoder.WaitForOutputEvent | host/encode/src/windows_backend.rs:371-417 | wait for a have-output event until the deadline |
| Encoder.MfH264Encoder.PumpAvailableEvents | host/encode/src/windows_backend.rs:323-365 | take all events there are; several have-output events become one hint |
| Encoder.MfH264Encoder.FlushUntilDrained | host/encode/src/windows_backend.rs:419-472 | the flush loop, one pull for each have-output event |
| Encoder.MfH264Encoder.FlushEncoder | host/encode/src/windows_backend.rs:275-290 | flush chooses the loop by the kind of transform |
| Encoder.MfH264Encoder.FlushUntilEmpty | host/encode/src/windows_backend.rs:474-483 | the synchronous loop ends at the first call that brings nothing |
| Encoder.MfH264Encoder.ProcessOutputOnce | host/encode/src/windows_backend.rs:517-612 | every answer of the transform, the header reread at a stream change |
| EncodedUnits.KeyframeProduced | host/encode/src/windows_backend.rs:580-612 | a produced keyframe scans to the header's units in front of its own, with its own flag and times |
| EncodedUnits.DeltaProduced | host/encode/src/windows_backend.rs:580-612 | a produced delta frame is the Annex-B framing of its own units, with its own flag and times |
| EncodedUnits.StreamChangeRereads | host/encode/src/windows_backend.rs:553-561 | a stream change puts the sets and length size of its record in force |
| EncodedUnits.KeyframeAfterStreamChange | host/encode/src/windows_backend.rs:553-612 | the first keyframe behind a stream change brings the new sets |
| EncodedUnits.OtherAnswers | host/encode/src/windows_backend.rs:545-592 | which answers bring nothing, which fail, and that they keep the header |
| EncodedUnits.PumpNotes | host/encode/src/windows_backend.rs:323-365 | after pumping the hint is set exactly when it was before or a have-output event came |
| EncodedUnits.WaitEnds | host/encode/src/windows_backend.rs:371-417 | waiting succeeds only with a hint, and times out when the deadline passes first |
| EncodedUnits.EncodeClock | host/encode/src/windows_backend.rs:212-219 | the clock moves by one frame duration for each sample made, and stops at its end |
| EncodedUnits.OfferRecovers | host/encode/src/windows_backend.rs:221-254 | a sample refused once is offered again after a drain, and handed over |
| EncodedUnits.FlushReturns | host/encode/src/windows_backend.rs:419-472 | a flush returns what comes before the end of draining |
| EncodedUnits.FlushSyncReturns | host/encode/src/windows_backend.rs:474-483 | without events, what comes before the first call that brings nothing |
| EncoderRuns.OutputCredit | host/encode/src/windows_backend.rs:323-515 | at every moment of every run, calls for output never exceed have-output events plus failed calls for output, with one to spare under a hint |
| EncoderRuns.OutputCreditUntilFailure | host/encode/src/windows_backend.rs:187-273 | until a call fails, calls for output never exceed have-output events, and no hint is left between calls |
| EncoderRuns.FailureLeavesHint | host/encode/src/windows_backend.rs:485-515 | in any state, a call for output that fails makes its encode or flush fail and leaves the hint; an encode that succeeds leaves none |
| EncoderRuns.LeftHintAsksAgain | host/encode/src/windows_backend.rs:485-515 | with a hint left over, the next drain asks the transform again whether or not an event came |
| EncoderRuns.FailureKeepsHint | host/encode/src/windows_backend.rs:485-515 | a reachable run with two calls for output on one event |
| EncoderRuns.NothingLost | host/encode/src/windows_backend.rs:187-273 | while no call fails, the calls return exactly what the transform produced, in order |
| EncoderRuns.EncodeTakesOne | host/encode/src/windows_backend.rs:187-273 | a successful encode hands over exactly one sample, any other at most one |
| EncoderRuns.TimestampsIncrease | host/encode/src/windows_backend.rs:212-219 | accepted samples carry strictly increasing timestamps until the clock saturates |
| EncoderRuns.AssembledWithCurrentHeader | host/encode/src/windows_backend.rs:553-612 | every unit was assembled with the header of the last stream change before it |
| Cursor.DecodeColorPointerShape | host/capture/src/windows_backend.rs:497-524 | the pixels are the red/blue-swapped source pixels at y*pitch+4x, blank where the shape ends; the length is width*height*4 |
| Cursor.DecodeMonochromePointerShape | host/capture/src/windows_backend.rs:526-582 | each pixel follows its AND and XOR bits, missing bytes as zero; all blank when invisible |
| Cursor.ColorShapeBytes | host/capture/src/windows_backend.rs:497-524 | byte by byte: the four bytes at y*pitch+4x with red and blue exchanged, or zeros where they are not all there |
| Cursor.ColorShapeBytesTight | host/capture/src/windows_backend.rs:497-524 | the same when the pitch is smaller than a row: the rows follow each other without a gap |
| Cursor.MonochromeShapeBytes | host/capture/src/windows_backend.rs:526-582 | byte by byte: AND and XOR bit, most significant first in rows of the fewest whole bytes, decide between black, white and transparent |
| Cursor.BitPosition | host/capture/src/windows_backend.rs:541-551 | column x is bit 7 - x % 8 of byte x / 8 |
| Cursor.PictureAt | host/capture/src/windows_backend.rs:497-582 | the pixel at row y and column x is the one the formula gives for y and x |
| Cursor.WhiteNeedsSecondPlane | host/capture/src/windows_backend.rs:537-577 | a shape can show a white pixel if and only if it is longer than height rows of AND mask |

## Left out

- AccessUnits.SampleIdentity: units whose first byte is zero are excluded (that would be a header of type 0, which H.264 leaves unspecified), and samples of 2^32 bytes or more, whose scanned units may not fit a length field.
- Decoder.KeyframeExact: the same two exclusions, and sequence headers with a unit that ends in a zero byte, which H.264 forbids.
- ReassemblyRuns.DeliveredAtLastFragment: the unit's window must be undisturbed, as the source's eviction, which runs before the lookup, may remove the very entry that a fragment would complete. `Arrivals.UncrowdedUndisturbed` gives a condition on the traffic alone, and `Arrivals.NeverDelivered` the configurations where that always happens.
- Sessions.RecordsWellShaped: does not say that a terminated session has no nonce, because the expiry inside a resume leaves it there.
- EncoderRuns.OutputCredit: an upper bound only, because one flag stands for several have-output events.
- Framing.MessagesArrive: the JSON library is any pair of functions, and only messages it reads back are considered.
- Exactly-once delivery: a late duplicate after completion opens a new entry, so it does not hold.
- Integer overflow that panics in debug builds: the model wraps as release builds do (drop and reconnect counters, cursor row pitch, display extent).
- Bit operations on bytes: masks and shifts are written as remainders, products and quotients.
- Clock values: instants are natural numbers and the client's floating-point seconds are whole ticks.
- Iteration order of hash maps: any legal choice; a real map would fix one.
- Starting indices of Swift data slices: buffers start at index zero.
- Memory limits: buffers may be as large as the arithmetic says.
- QUIC, TLS, sockets, tasks and telemetry in host/transport/src/server.rs: only the control flow of one control stream is modelled, and a failure can end it at any await.
- The no-authentication mode of the server, which makes up a session id of its own and never enters it in the table.
- The client role of `ControlConnection`, and the texts inside messages and errors.
- HMAC, base64 and JSON inside resume tokens: functions with the laws the proofs need.
- Identity tokens: a verdict that arrives from outside.
- Desktop Duplication, Direct3D, Media Foundation and VideoToolbox calls: only the answers the modelled code branches on. The encoder's `input_needed` flag is kept, but nothing reads it.
- A frame's colour conversion and sample creation: only the error they end with, if any.
- Parsing button and phase names, and the table of key codes, in host/input/src/lib.rs: single branches.
- Forwarding a malformed input datagram: it is only logged.
- `convert_pointer_shape`, which chooses between the two cursor decoders.
- client-avp/Transport/ControlMessage.swift: an older copy of the framer that is modelled.
- SessionClient.swift, the SwiftUI views, the renderer and gesture capture: user interface, or scheduling the code does not fix.
- Configuration, logging, user-store files, scripts and smoke binaries.
