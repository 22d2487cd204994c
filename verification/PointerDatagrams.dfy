/** Pointer datagrams in both directions, and telling them from video datagrams. */
module PointerDatagrams {
  import opened Wrappers
  import opened Bytes
  import MediaHeader

  const KIND_INPUT_MOTION: byte := 2
  const POINTER_LEN := 24

  datatype PointerState = PointerState(sequence: u64, x: i32, y: i32, visible: bool)
  datatype PointerMotion = PointerMotion(sequence: u64, x: i32, y: i32)

  datatype DatagramError =
    | TooShort(actual: nat)
    | PointerTooShort(actual: nat)
    | BadVersion(version: byte)
    | UnexpectedKind(kind: byte)

  datatype MediaDatagram = Video(datagram: seq<byte>) | Pointer(state: PointerState)

  function Pattern32(x: i32): u32 {
    if x < 0 then x + 0x1_0000_0000 else x
  }

  function FromPattern32(x: u32): i32 {
    if x < 0x8000_0000 then x else x - 0x1_0000_0000
  }

  /** Version, flags, kind and a reserved byte; then sequence, x and y, and four unused bytes. */
  function Layout(flags: byte, kind: byte, sequence: u64, x: i32, y: i32): (s: seq<byte>)
    ensures |s| == POINTER_LEN
  {
    [MediaHeader.VERSION, flags, kind, 0] + ToBE(sequence, 8) + ToBE(Pattern32(x), 4) + ToBE(Pattern32(y), 4) + [0, 0, 0, 0]
  }

  method FillDatagram(flags: byte, kind: byte, sequence: u64, x: i32, y: i32) returns (s: seq<byte>)
    ensures s == Layout(flags, kind, sequence, x, y)
  {
    var encoded := new byte[POINTER_LEN](_ => 0);
    encoded[0] := MediaHeader.VERSION;
    encoded[1] := flags;
    encoded[2] := kind;
    assert encoded[..4] == [MediaHeader.VERSION, flags, kind, 0];
    assert encoded[20..] == [0, 0, 0, 0];
    MediaHeader.CopyInto(encoded, 4, ToBE(sequence, 8));
    assert encoded[..][20..] == [0, 0, 0, 0];
    MediaHeader.CopyInto(encoded, 12, ToBE(Pattern32(x), 4));
    assert encoded[..][20..] == [0, 0, 0, 0];
    MediaHeader.CopyInto(encoded, 16, ToBE(Pattern32(y), 4));
    assert encoded[..] == Layout(flags, kind, sequence, x, y);
    return encoded[..];
  }

  // ----- the host

  function EncodeState(p: PointerState): seq<byte> {
    Layout(if p.visible then 1 else 0, MediaHeader.KIND_POINTER_STATE, p.sequence, p.x, p.y)
  }

  method EncodePointerState(p: PointerState) returns (s: seq<byte>)
    ensures s == EncodeState(p)
  {
    s := FillDatagram(if p.visible then 1 else 0, MediaHeader.KIND_POINTER_STATE, p.sequence, p.x, p.y);
  }

  function Motion(d: seq<byte>): PointerMotion
    requires |d| >= POINTER_LEN
  {
    assert Pow256(4) == 0x1_0000_0000 && Pow256(8) == U64_MODULUS by { FieldWidths(); }
    assert FromBE(d[4..12]) < U64_MODULUS by { ToFromBE(d[4..12]); }
    assert FromBE(d[12..16]) < 0x1_0000_0000 by { ToFromBE(d[12..16]); }
    assert FromBE(d[16..20]) < 0x1_0000_0000 by { ToFromBE(d[16..20]); }
    PointerMotion(FromBE(d[4..12]), FromPattern32(FromBE(d[12..16])), FromPattern32(FromBE(d[16..20])))
  }

  function State(d: seq<byte>): PointerState
    requires |d| >= POINTER_LEN
  {
    var m := Motion(d);
    PointerState(m.sequence, m.x, m.y, d[1] % 2 == 1)
  }

  /** The checks that both host decoders and the client's motion decoder make, in their order. */
  function Check(d: seq<byte>, kind: byte): Option<DatagramError> {
    if |d| < POINTER_LEN then Some(PointerTooShort(|d|))
    else if d[0] != MediaHeader.VERSION then Some(BadVersion(d[0]))
    else if d[2] != kind then Some(UnexpectedKind(d[2]))
    else None
  }

  function DecodeState(d: seq<byte>): Result<PointerState, DatagramError> {
    var e := Check(d, MediaHeader.KIND_POINTER_STATE);
    if e.Some? then Err(e.value) else Ok(State(d))
  }

  function DecodeMotion(d: seq<byte>): Result<PointerMotion, DatagramError> {
    var e := Check(d, KIND_INPUT_MOTION);
    if e.Some? then Err(e.value) else Ok(Motion(d))
  }

  // ----- the client

  function EncodeMotion(m: PointerMotion): seq<byte> {
    Layout(0, KIND_INPUT_MOTION, m.sequence, m.x, m.y)
  }

  method EncodeInputPointer(m: PointerMotion) returns (s: seq<byte>)
    ensures s == EncodeMotion(m)
  {
    s := FillDatagram(0, KIND_INPUT_MOTION, m.sequence, m.x, m.y);
  }

  /** The client's parser looks at version and kind first; its pointer decoder only at the length. */
  function Parse(d: seq<byte>): Result<MediaDatagram, DatagramError> {
    if |d| < 3 then Err(TooShort(|d|))
    else if d[0] != MediaHeader.VERSION then Err(BadVersion(d[0]))
    else if d[2] == MediaHeader.KIND_VIDEO then Ok(Video(d))
    else if d[2] == MediaHeader.KIND_POINTER_STATE then
      if |d| < POINTER_LEN then Err(PointerTooShort(|d|)) else Ok(Pointer(State(d)))
    else Err(UnexpectedKind(d[2]))
  }

  // ----- round trips

  lemma LayoutSlices(flags: byte, kind: byte, sequence: u64, x: i32, y: i32, rest: seq<byte>)
    ensures var d := Layout(flags, kind, sequence, x, y) + rest;
            && d[0] == MediaHeader.VERSION && d[1] == flags && d[2] == kind
            && d[4..12] == ToBE(sequence, 8) && d[12..16] == ToBE(Pattern32(x), 4) && d[16..20] == ToBE(Pattern32(y), 4)
  {}

  lemma MotionOfLayout(flags: byte, kind: byte, sequence: u64, x: i32, y: i32, rest: seq<byte>)
    ensures Motion(Layout(flags, kind, sequence, x, y) + rest) == PointerMotion(sequence, x, y)
  {
    LayoutSlices(flags, kind, sequence, x, y, rest);
    FieldWidths();
    FromToBE(sequence, 8);
    FromToBE(Pattern32(x), 4);
    FromToBE(Pattern32(y), 4);
  }

  /** What the host says about the pointer is what the client reads, whatever follows it. */
  lemma StateArrives(p: PointerState, rest: seq<byte>)
    ensures Parse(EncodeState(p) + rest) == Ok(Pointer(p))
  {
    var flags: byte := if p.visible then 1 else 0;
    LayoutSlices(flags, MediaHeader.KIND_POINTER_STATE, p.sequence, p.x, p.y, rest);
    MotionOfLayout(flags, MediaHeader.KIND_POINTER_STATE, p.sequence, p.x, p.y, rest);
  }

  /** The motion the client sends is the one the host replays, and nothing the client would take back. */
  lemma MotionArrives(m: PointerMotion, rest: seq<byte>)
    ensures DecodeMotion(EncodeMotion(m) + rest) == Ok(m)
    ensures Parse(EncodeMotion(m) + rest) == Err(UnexpectedKind(KIND_INPUT_MOTION))
  {
    LayoutSlices(0, KIND_INPUT_MOTION, m.sequence, m.x, m.y, rest);
    MotionOfLayout(0, KIND_INPUT_MOTION, m.sequence, m.x, m.y, rest);
  }

  // ----- the three kinds

  /** The client takes a datagram for a pointer exactly when the host's own decoder does, with the same fields. */
  lemma PointerAgrees(d: seq<byte>, p: PointerState)
    ensures Parse(d) == Ok(Pointer(p)) <==> DecodeState(d) == Ok(p)
  {}

  /** Whatever one decoder accepts, the decoders of the other kinds refuse. */
  lemma KindsAreDisjoint(d: seq<byte>)
    ensures MediaHeader.Decode(d).Ok? ==> Parse(d) == Ok(Video(d)) && DecodeState(d).Err? && DecodeMotion(d).Err?
    ensures DecodeState(d).Ok? ==> DecodeMotion(d).Err? && MediaHeader.Decode(d).Err?
    ensures DecodeMotion(d).Ok? ==> Parse(d).Err? && MediaHeader.Decode(d).Err?
  {}
}
