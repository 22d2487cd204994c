/** Cutting an access unit into headed datagrams. */
module Packetizer {
  import opened Wrappers
  import opened Bytes
  import opened MediaHeader

  /** An access unit as it is handed to the packetizer. */
  datatype Sent = Sent(data: seq<byte>, keyframe: bool, pts: i64, duration: i64, maxPayload: nat)

  /** Ceiling division. */
  function FragmentCount(len: nat, maxPayload: nat): nat
    requires maxPayload > 0
  {
    (len + maxPayload - 1) / maxPayload
  }

  predicate Packetizable(u: Sent) {
    u.data != [] && u.maxPayload > 0 && FragmentCount(|u.data|, u.maxPayload) <= U16_MAX
  }

  function Count(u: Sent): u16
    requires Packetizable(u)
  {
    FragmentCount(|u.data|, u.maxPayload)
  }

  /** Where fragment i ends, which is also where fragment i + 1 begins. */
  function Cut(u: Sent, i: nat): (p: nat)
    ensures p <= |u.data|
  {
    if i * u.maxPayload <= |u.data| then i * u.maxPayload else |u.data|
  }

  /** Every fragment is cut out of the data, none is empty, and they tile it. */
  lemma Cuts(u: Sent, i: nat)
    requires Packetizable(u) && i < Count(u)
    ensures 0 < Count(u)
    ensures i * u.maxPayload < |u.data|
    ensures Cut(u, i) == i * u.maxPayload
    ensures Cut(u, i) < Cut(u, i + 1) <= |u.data|
    ensures Cut(u, i + 1) == if i * u.maxPayload + u.maxPayload <= |u.data|
                             then i * u.maxPayload + u.maxPayload else |u.data|
    ensures i + 1 == Count(u) <==> Cut(u, i + 1) == |u.data|
  {
    var m, len, n := u.maxPayload, |u.data|, Count(u);
    assert n * m <= len + m - 1 < n * m + m;
    assert (i + 1) * m == i * m + m;
    MulOrder(i + 1, n, m);
    if i + 1 < n {
      MulOrder(i + 2, n, m);
      assert (i + 2) * m == (i + 1) * m + m;
    }
  }

  lemma MulOrder(a: nat, b: nat, m: nat)
    requires a <= b
    ensures a * m <= b * m
  {
    assert b * m == a * m + (b - a) * m;
    assert (b - a) * m >= 0;
  }

  function Fragment(u: Sent, i: nat): (s: seq<byte>)
    requires Packetizable(u) && i < Count(u)
    ensures s != []
  {
    Cuts(u, i);
    u.data[Cut(u, i)..Cut(u, i + 1)]
  }

  function FragmentHeader(u: Sent, id: u64, i: nat): Header
    requires Packetizable(u) && i < Count(u)
  {
    Header(id, i, Count(u), u.pts, u.duration, u.keyframe)
  }

  function Datagram(u: Sent, id: u64, i: nat): seq<byte>
    requires Packetizable(u) && i < Count(u)
  {
    HeaderBytes(FragmentHeader(u, id, i)) + Fragment(u, i)
  }

  function Datagrams(u: Sent, id: u64): (ds: seq<seq<byte>>)
    requires Packetizable(u)
    ensures |ds| == Count(u)
  {
    seq(Count(u), i requires 0 <= i < Count(u) => Datagram(u, id, i))
  }

  function Fragments(u: Sent, n: nat): (fs: seq<seq<byte>>)
    requires Packetizable(u) && n <= Count(u)
    ensures |fs| == n
  {
    seq(n, i requires 0 <= i < n => Fragment(u, i))
  }

  /** The fragments concatenate to the data. */
  lemma FragmentsTile(u: Sent)
    requires Packetizable(u)
    ensures Flatten(Fragments(u, Count(u))) == u.data
  {
    FragmentsTilePrefix(u, Count(u));
    assert Count(u) > 0 by {
      assert |u.data| + u.maxPayload - 1 >= u.maxPayload;
    }
    Cuts(u, Count(u) - 1);
  }

  lemma {:induction false} FragmentsTilePrefix(u: Sent, n: nat)
    requires Packetizable(u) && n <= Count(u)
    ensures Flatten(Fragments(u, n)) == u.data[..Cut(u, n)]
  {
    if n == 0 {
    } else {
      FragmentsTilePrefix(u, n - 1);
      Cuts(u, n - 1);
      assert Fragments(u, n) == Fragments(u, n - 1) + [Fragment(u, n - 1)];
      FlattenAppend(Fragments(u, n - 1), [Fragment(u, n - 1)]);
      assert Flatten([Fragment(u, n - 1)]) == Fragment(u, n - 1);
    }
  }

  /** What packetizing does with an access unit when the next free id is given. */
  function Packetize(u: Sent, id: u64): Result<seq<seq<byte>>, MediaError> {
    if u.data == [] then Err(AccessUnitPayloadEmpty)
    else if u.maxPayload == 0 then Err(MaxPayloadTooSmall(0))
    else if FragmentCount(|u.data|, u.maxPayload) > U16_MAX
      then Err(FragmentCountTooLarge(FragmentCount(|u.data|, u.maxPayload)))
    else Ok(Datagrams(u, id))
  }

  /** Exactly which units are cut, and how the others are refused. */
  lemma PacketizeExact(u: Sent, id: u64)
    ensures Packetize(u, id).Ok? <==> u.data != [] && u.maxPayload > 0 && |u.data| <= 0xFFFF * u.maxPayload
    ensures u.data == [] ==> Packetize(u, id) == Err(AccessUnitPayloadEmpty)
    ensures u.data != [] && u.maxPayload == 0 ==> Packetize(u, id) == Err(MaxPayloadTooSmall(0))
  {
    if u.maxPayload > 0 {
      var m, len := u.maxPayload, |u.data|;
      var n := FragmentCount(len, m);
      assert n * m <= len + m - 1 < n * m + m;
      if n <= 0xFFFF {
        MulOrder(n, 0xFFFF, m);
      } else {
        MulOrder(0x1_0000, n, m);
      }
    }
  }

  /** The id counter saturates instead of wrapping. */
  function NextId(id: u64): u64 {
    if id == U64_MAX then id else id + 1
  }

  /** One turn of the packetizing loop. */
  method CutDatagram(u: Sent, id: u64, fragmentCount: u16, index: nat) returns (r: Result<seq<byte>, MediaError>)
    requires Packetizable(u) && fragmentCount == Count(u) && index < fragmentCount
    ensures r == Ok(Datagram(u, id, index))
  {
    Cuts(u, index);
    var start := index * u.maxPayload;
    var end := if start + u.maxPayload <= |u.data| then start + u.maxPayload else |u.data|;
    var header := Header(id, index, fragmentCount, u.pts, u.duration, u.keyframe);
    var headerBytes := Encode(header);
    // The shape is always valid here, so encoding the header cannot fail.
    return Ok(headerBytes.value + u.data[start..end]);
  }

  class H264DatagramPacketizer {
    var nextAccessUnitId: u64

    constructor ()
      ensures nextAccessUnitId == 1
    {
      nextAccessUnitId := 1;
    }

    method PacketizeBytes(u: Sent) returns (r: Result<seq<seq<byte>>, MediaError>)
      modifies this
      ensures r == Packetize(u, old(nextAccessUnitId))
      ensures nextAccessUnitId == if r.Ok? then NextId(old(nextAccessUnitId)) else old(nextAccessUnitId)
    {
      if |u.data| == 0 {
        return Err(AccessUnitPayloadEmpty);
      }
      if u.maxPayload == 0 {
        return Err(MaxPayloadTooSmall(0));
      }
      var fragmentCount := FragmentCount(|u.data|, u.maxPayload);
      if fragmentCount > U16_MAX {
        return Err(FragmentCountTooLarge(fragmentCount));
      }
      var id := nextAccessUnitId;
      nextAccessUnitId := NextId(id);

      var datagrams: seq<seq<byte>> := [];
      for index := 0 to fragmentCount
        invariant |datagrams| == index && nextAccessUnitId == NextId(id)
        invariant forall k | 0 <= k < index :: datagrams[k] == Datagram(u, id, k)
      {
        var datagram := CutDatagram(u, id, fragmentCount, index);
        datagrams := datagrams + [datagram.value];
      }
      assert datagrams == Datagrams(u, id);
      return Ok(datagrams);
    }
  }

  /** The largest payload a peer accepts behind the header, if any fits. */
  function NegotiatedPayloadLimit(peerMax: Option<nat>, cap: nat): (r: Option<nat>)
    ensures r.None? <==> peerMax.None? || cap == 0 || peerMax.value <= HEADER_LEN
    ensures r.Some? ==> 0 < r.value <= cap && HEADER_LEN + r.value <= peerMax.value
    ensures r.Some? ==> r.value == cap || HEADER_LEN + r.value == peerMax.value
  {
    if peerMax.None? || cap == 0 || peerMax.value <= HEADER_LEN then None
    else if cap <= peerMax.value - HEADER_LEN then Some(cap)
    else Some(peerMax.value - HEADER_LEN)
  }

  /** No datagram cut under a negotiated limit exceeds what the peer accepts. */
  lemma DatagramsFitPeer(u: Sent, id: u64, peerMax: nat, cap: nat, i: nat)
    requires NegotiatedPayloadLimit(Some(peerMax), cap) == Some(u.maxPayload)
    requires Packetizable(u) && i < Count(u)
    ensures HEADER_LEN < |Datagram(u, id, i)| <= peerMax
  {
    Cuts(u, i);
  }

  /** The id given to the n-th unit that is packetized successfully, counting from zero. */
  function IdOf(n: nat): u64 {
    if n == 0 then 1 else NextId(IdOf(n - 1))
  }

  /** Ids are distinct exactly as long as the counter has not saturated. */
  lemma IdsDistinct(m: nat, n: nat)
    requires m < n
    ensures IdOf(m) != IdOf(n) <==> m + 1 < U64_MAX
  {
    IdValue(m);
    IdValue(n);
  }

  lemma {:induction false} IdValue(n: nat)
    ensures IdOf(n) == if n + 1 < U64_MAX then n + 1 else U64_MAX
  {
    if n == 0 {
    } else {
      IdValue(n - 1);
    }
  }
}
