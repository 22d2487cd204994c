/** The fixed 32-byte header in front of every video datagram. */
module MediaHeader {
  import opened Wrappers
  import opened Bytes

  const VERSION: byte := 1
  const KIND_VIDEO: byte := 0
  const KIND_POINTER_STATE: byte := 1
  const HEADER_LEN := 32

  datatype Header = Header(
    id: u64,
    index: u16,
    count: u16,
    pts: i64,
    duration: i64,
    keyframe: bool)

  /** A decoded datagram. */
  datatype Packet = Packet(header: Header, payload: seq<byte>)

  datatype MediaError =
    | HeaderTooShort(actual: nat)
    | UnsupportedVersion(version: byte)
    | UnexpectedPacketKind(kind: byte)
    | InvalidFragmentCount(count: u16)
    | InvalidFragmentIndex(index: u16, total: u16)
    | EmptyPayload(id: u64)
    | FragmentCountTooLarge(fragments: nat)
    | AccessUnitPayloadEmpty
    | MaxPayloadTooSmall(limit: nat)
    | InconsistentFragmentMetadata(id: u64)

  predicate ValidShape(index: u16, count: u16) {
    index < count
  }

  /** The shape check shared by encoding and decoding: the count is checked first. */
  function ValidateShape(index: u16, count: u16): (r: Result<(), MediaError>)
    ensures r.Ok? <==> ValidShape(index, count)
  {
    if count == 0 then Err(InvalidFragmentCount(count))
    else if index >= count then Err(InvalidFragmentIndex(index, count))
    else Ok(())
  }

  /** The layout: version, flags, kind, one reserved byte, then five big-endian fields. */
  function HeaderBytes(h: Header): (s: seq<byte>)
    ensures |s| == HEADER_LEN
  {
    [VERSION, if h.keyframe then 1 else 0, KIND_VIDEO, 0]
    + ToBE(h.id, 8) + ToBE(h.index, 2) + ToBE(h.count, 2)
    + ToBE(BitPattern(h.pts), 8) + ToBE(BitPattern(h.duration), 8)
  }

  method CopyInto(buffer: array<byte>, at: nat, bytes: seq<byte>)
    requires at + |bytes| <= buffer.Length
    modifies buffer
    ensures buffer[..] == old(buffer[..at]) + bytes + old(buffer[at + |bytes|..])
  {
    forall k | 0 <= k < |bytes| {
      buffer[at + k] := bytes[k];
    }
  }

  method Encode(h: Header) returns (r: Result<seq<byte>, MediaError>)
    ensures r == if ValidShape(h.index, h.count) then Ok(HeaderBytes(h))
                 else if h.count == 0 then Err(InvalidFragmentCount(0))
                 else Err(InvalidFragmentIndex(h.index, h.count))
  {
    var shape := ValidateShape(h.index, h.count);
    if shape.Err? {
      return Err(shape.error);
    }
    var encoded := new byte[HEADER_LEN](_ => 0);
    encoded[0] := VERSION;
    encoded[1] := if h.keyframe then 1 else 0;
    encoded[2] := KIND_VIDEO;
    assert encoded[..4] == [VERSION, if h.keyframe then 1 else 0, KIND_VIDEO, 0];
    CopyInto(encoded, 4, ToBE(h.id, 8));
    CopyInto(encoded, 12, ToBE(h.index, 2));
    CopyInto(encoded, 14, ToBE(h.count, 2));
    CopyInto(encoded, 16, ToBE(BitPattern(h.pts), 8));
    CopyInto(encoded, 24, ToBE(BitPattern(h.duration), 8));
    assert encoded[..] == HeaderBytes(h);
    return Ok(encoded[..]);
  }

  /** The header fields of a datagram that is long enough, before any check. */
  function Fields(d: seq<byte>): Header
    requires |d| >= HEADER_LEN
  {
    assert Pow256(2) == 0x1_0000 && Pow256(8) == U64_MODULUS by { FieldWidths(); }
    assert FromBE(d[4..12]) < U64_MODULUS by { ToFromBE(d[4..12]); }
    assert FromBE(d[12..14]) < 0x1_0000 by { ToFromBE(d[12..14]); }
    assert FromBE(d[14..16]) < 0x1_0000 by { ToFromBE(d[14..16]); }
    assert FromBE(d[16..24]) < U64_MODULUS by { ToFromBE(d[16..24]); }
    assert FromBE(d[24..32]) < U64_MODULUS by { ToFromBE(d[24..32]); }
    Header(
      FromBE(d[4..12]), FromBE(d[12..14]), FromBE(d[14..16]),
      FromBitPattern(FromBE(d[16..24])), FromBitPattern(FromBE(d[24..32])),
      d[1] % 2 == 1)
  }

  function Decode(d: seq<byte>): (r: Result<Packet, MediaError>)
    ensures r.Ok? ==> ValidShape(r.value.header.index, r.value.header.count)
  {
    if |d| < HEADER_LEN then Err(HeaderTooShort(|d|))
    else if d[0] != VERSION then Err(UnsupportedVersion(d[0]))
    else if d[2] != KIND_VIDEO then Err(UnexpectedPacketKind(d[2]))
    else
      var h := Fields(d);
      var shape := ValidateShape(h.index, h.count);
      if shape.Err? then Err(shape.error) else Ok(Packet(h, d[HEADER_LEN..]))
  }

  /** Where each field of a header sits in a datagram. */
  lemma HeaderSlices(h: Header, payload: seq<byte>)
    ensures var d := HeaderBytes(h) + payload;
            && d[0] == VERSION && d[1] == (if h.keyframe then 1 else 0) && d[2] == KIND_VIDEO
            && d[4..12] == ToBE(h.id, 8)
            && d[12..14] == ToBE(h.index, 2)
            && d[14..16] == ToBE(h.count, 2)
            && d[16..24] == ToBE(BitPattern(h.pts), 8)
            && d[24..32] == ToBE(BitPattern(h.duration), 8)
            && d[HEADER_LEN..] == payload
  {
  }

  /** Decoding what was encoded gives back the header and the payload behind it. */
  lemma DecodeEncoded(h: Header, payload: seq<byte>)
    requires ValidShape(h.index, h.count)
    ensures Decode(HeaderBytes(h) + payload) == Ok(Packet(h, payload))
  {
    HeaderSlices(h, payload);
    FieldWidths();
    FromToBE(h.id, 8);
    FromToBE(h.index, 2);
    FromToBE(h.count, 2);
    FromToBE(BitPattern(h.pts), 8);
    FromToBE(BitPattern(h.duration), 8);
    assert Fields(HeaderBytes(h) + payload) == h;
  }

  /**
   * Every accepted datagram is an encoded header and its payload, up to the reserved byte and
   * the seven flag bits nobody reads.
   */
  lemma EncodeDecoded(d: seq<byte>)
    requires Decode(d).Ok?
    ensures var canonical := HeaderBytes(Decode(d).value.header) + Decode(d).value.payload;
            |canonical| == |d| && canonical[0] == d[0] && canonical[1] == d[1] % 2
            && canonical[2] == d[2] && canonical[4..] == d[4..]
  {
    var h := Fields(d);
    HeaderSlices(h, d[HEADER_LEN..]);
    ToFromBE(d[4..12]);
    ToFromBE(d[12..14]);
    ToFromBE(d[14..16]);
    ToFromBE(d[16..24]);
    ToFromBE(d[24..32]);
    SplitFields(d);
    SplitFields(HeaderBytes(h) + d[HEADER_LEN..]);
  }

  lemma SplitFields(d: seq<byte>)
    requires |d| >= HEADER_LEN
    ensures d[4..] == d[4..12] + d[12..14] + d[14..16] + d[16..24] + d[24..32] + d[HEADER_LEN..]
  {
  }
}
