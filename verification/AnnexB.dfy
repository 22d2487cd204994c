/** The host's conversion of length-prefixed samples to Annex-B byte streams. */
module AnnexB {
  import opened Wrappers
  import opened Bytes

  datatype BitstreamError =
    | InvalidLengthSize(size: nat)
    | TruncatedLength
    | TruncatedNal
    | NoNalUnits
    | TruncatedConfig
    | UnexpectedConfigVersion
    | TruncatedField
    | TruncatedSps
    | TruncatedPpsCount
    | TruncatedPps
    | UnsupportedConfig

  type Nal = seq<byte>

  const START_CODE: seq<byte> := [0, 0, 0, 1]

  // ----- the two framings of a list of NAL units

  function AnnexBStream(nals: seq<Nal>): seq<byte> {
    if |nals| == 0 then [] else START_CODE + nals[0] + AnnexBStream(nals[1..])
  }

  function LengthPrefixed(nals: seq<Nal>, size: nat): seq<byte> {
    if |nals| == 0 then [] else ToBE(|nals[0]|, size) + nals[0] + LengthPrefixed(nals[1..], size)
  }

  predicate LengthsFit(nals: seq<Nal>, size: nat) {
    forall i | 0 <= i < |nals| :: |nals[i]| < Pow256(size)
  }

  function NonEmpty(nals: seq<Nal>): seq<Nal> {
    if |nals| == 0 then [] else (if nals[0] == [] then [] else [nals[0]]) + NonEmpty(nals[1..])
  }

  /** Regrouping of one unit followed by two more parts. */
  lemma Regrouped(prefix: seq<byte>, nal: Nal, x: seq<byte>, y: seq<byte>)
    ensures prefix + nal + (x + y) == (prefix + nal + x) + y
  {}

  lemma {:induction false} AnnexBStreamAppend(a: seq<Nal>, b: seq<Nal>)
    ensures AnnexBStream(a + b) == AnnexBStream(a) + AnnexBStream(b)
  {
    if |a| == 0 {
      assert a + b == b;
    } else {
      AnnexBStreamAppend(a[1..], b);
      assert (a + b)[0] == a[0] && (a + b)[1..] == a[1..] + b;
      Regrouped(START_CODE, a[0], AnnexBStream(a[1..]), AnnexBStream(b));
    }
  }

  lemma {:induction false} NonEmptyOfNonEmpty(nals: seq<Nal>)
    requires forall i | 0 <= i < |nals| :: nals[i] != []
    ensures NonEmpty(nals) == nals
  {
    if |nals| == 0 {
    } else {
      NonEmptyOfNonEmpty(nals[1..]);
    }
  }

  // ----- reading a length-prefixed sample

  /** The NAL units of a sample, empty ones included. */
  function Split(p: seq<byte>, size: nat): (r: Result<seq<Nal>, BitstreamError>)
    requires size > 0
    decreases |p|
  {
    if |p| == 0 then Ok([])
    else if |p| < size then Err(TruncatedLength)
    else
      var len := FromBE(p[..size]);
      if |p| < size + len then Err(TruncatedNal)
      else
        var rest := Split(p[size + len..], size);
        if rest.Err? then rest else Ok([p[size..size + len]] + rest.value)
  }

  lemma OneUnit(nal: Nal, rest: seq<byte>, size: nat)
    requires |nal| < Pow256(size)
    ensures var p := ToBE(|nal|, size) + nal + rest;
            && FromBE(p[..size]) == |nal|
            && p[size..size + |nal|] == nal && p[size + |nal|..] == rest
  {
    FromToBE(|nal|, size);
    Parts(ToBE(|nal|, size), nal, rest);
  }

  lemma {:induction false} SplitLengthPrefixed(nals: seq<Nal>, size: nat)
    requires size > 0 && LengthsFit(nals, size)
    ensures Split(LengthPrefixed(nals, size), size) == Ok(nals)
  {
    if |nals| == 0 {
    } else {
      OneUnit(nals[0], LengthPrefixed(nals[1..], size), size);
      SplitLengthPrefixed(nals[1..], size);
      assert [nals[0]] + nals[1..] == nals;
    }
  }

  lemma {:induction false} LengthPrefixedSplit(p: seq<byte>, size: nat)
    requires size > 0 && Split(p, size).Ok?
    ensures LengthsFit(Split(p, size).value, size)
    ensures LengthPrefixed(Split(p, size).value, size) == p
    decreases |p|
  {
    if |p| == 0 {
    } else {
      var len := FromBE(p[..size]);
      ToFromBE(p[..size]);
      LengthPrefixedSplit(p[size + len..], size);
      SplitTwice(p, size, size + len);
    }
  }

  function Convert(p: seq<byte>, size: nat): Result<seq<byte>, BitstreamError> {
    if !(1 <= size <= 4) then Err(InvalidLengthSize(size))
    else
      var nals := Split(p, size);
      if nals.Err? then Err(nals.error)
      else if AnnexBStream(NonEmpty(nals.value)) == [] then Err(NoNalUnits)
      else Ok(AnnexBStream(NonEmpty(nals.value)))
  }

  /** The bytes converted so far, in front of whatever the rest converts to. */
  function Extend(done: seq<byte>, rest: Result<seq<Nal>, BitstreamError>): Result<seq<byte>, BitstreamError> {
    if rest.Err? then Err(rest.error) else Ok(done + AnnexBStream(NonEmpty(rest.value)))
  }

  method ReadLength(p: seq<byte>, start: nat, size: nat) returns (length: nat)
    requires start + size <= |p|
    ensures length == FromBE(p[start..][..size])
  {
    length := 0;
    for k := 0 to size
      invariant length == FromBE(p[start..][..k])
    {
      assert p[start..][..k + 1][..k] == p[start..][..k];
      length := length * 256 + p[start + k];
    }
  }

  /** One turn of the conversion loop. */
  lemma ExtendOne(p: seq<byte>, start: nat, size: nat, done: seq<byte>, length: nat)
    requires size > 0 && start + size + length <= |p| && length == FromBE(p[start..][..size])
    ensures var nal := p[start + size..start + size + length];
            Extend(done, Split(p[start..], size))
            == Extend(if length == 0 then done else done + START_CODE + nal, Split(p[start + size + length..], size))
  {
    assert p[start..][size..size + length] == p[start + size..start + size + length];
    assert p[start..][size + length..] == p[start + size + length..];
    var rest := Split(p[start + size + length..], size);
    if rest.Ok? {
      var all := [p[start + size..start + size + length]] + rest.value;
      assert all[1..] == rest.value;
      var kept := NonEmpty(all);
      if length > 0 {
        assert kept == [all[0]] + NonEmpty(rest.value);
        assert kept[1..] == NonEmpty(rest.value);
        assert AnnexBStream(kept) == START_CODE + all[0] + AnnexBStream(NonEmpty(rest.value));
        assert done + AnnexBStream(kept) == done + START_CODE + all[0] + AnnexBStream(NonEmpty(rest.value));
      } else {
        assert kept == NonEmpty(rest.value);
      }
    }
  }

  /** Where reading the next unit fails. */
  lemma SplitFails(p: seq<byte>, start: nat, size: nat)
    requires start < |p| && size > 0
    ensures |p| - start < size ==> Split(p[start..], size) == Err(TruncatedLength)
    ensures start + size <= |p| < start + size + FromBE(p[start..][..size]) ==> Split(p[start..], size) == Err(TruncatedNal)
  {}

  /** The unit at offset start, appended to what was converted before it. */
  method ConvertUnit(p: seq<byte>, start: nat, size: nat, before: seq<byte>)
    returns (r: Result<seq<byte>, BitstreamError>, offset: nat)
    requires 1 <= size <= 4 && start < |p|
    ensures start < offset
    ensures if r.Err? then Extend(before, Split(p[start..], size)) == r
            else offset <= |p|
                 && Extend(before, Split(p[start..], size)) == Extend(r.value, Split(p[offset..], size))
  {
    offset := start + size;
    SplitFails(p, start, size);
    if |p| - start < size {
      return Err(TruncatedLength), offset;
    }
    var length := ReadLength(p, start, size);
    if length == 0 {
      ExtendOne(p, start, size, before, length);
      return Ok(before), offset;
    }
    if offset + length > |p| {
      return Err(TruncatedNal), offset;
    }
    ExtendOne(p, start, size, before, length);
    r := Ok(before + START_CODE + p[offset..offset + length]);
    offset := offset + length;
  }

  method ConvertUnits(p: seq<byte>, size: nat) returns (r: Result<seq<byte>, BitstreamError>)
    requires 1 <= size <= 4
    ensures r == Extend([], Split(p, size))
  {
    var offset := 0;
    var annexB: seq<byte> := [];
    ghost var whole := Extend([], Split(p, size));
    assert p[0..] == p;
    while offset < |p|
      invariant 0 <= offset <= |p|
      invariant whole == Extend(annexB, Split(p[offset..], size))
    {
      r, offset := ConvertUnit(p, offset, size, annexB);
      if r.Err? {
        return;
      }
      annexB := r.value;
    }
    assert p[offset..] == [] && annexB + [] == annexB;
    return Ok(annexB);
  }

  method LengthPrefixedToAnnexB(p: seq<byte>, size: nat) returns (r: Result<seq<byte>, BitstreamError>)
    ensures r == Convert(p, size)
  {
    if !(1 <= size <= 4) {
      return Err(InvalidLengthSize(size));
    }
    r := ConvertUnits(p, size);
    if r.Ok? {
      assert r.value == AnnexBStream(NonEmpty(Split(p, size).value));
      if |r.value| == 0 {
        return Err(NoNalUnits);
      }
    }
  }

  /**
   * What the conversion does, said without it: it succeeds exactly on the length-prefixed framing
   * of some list of NAL units that are not all empty, and then gives the Annex-B framing of the
   * non-empty ones.
   */
  lemma ConvertSpec(p: seq<byte>, size: nat, out: seq<byte>)
    requires 1 <= size <= 4
    ensures Convert(p, size) == Ok(out) <==>
            exists nals: seq<Nal> :: p == LengthPrefixed(nals, size) && LengthsFit(nals, size)
                                     && NonEmpty(nals) != [] && out == AnnexBStream(NonEmpty(nals))
  {
    if Convert(p, size) == Ok(out) {
      LengthPrefixedSplit(p, size);
    }
    forall nals: seq<Nal> | p == LengthPrefixed(nals, size) && LengthsFit(nals, size) && NonEmpty(nals) != []
      ensures Convert(p, size) == Ok(AnnexBStream(NonEmpty(nals)))
    {
      SplitLengthPrefixed(nals, size);
    }
  }

  // ----- assembling an access unit

  predicate LooksLikeAnnexB(p: seq<byte>) {
    [0, 0, 1] <= p || START_CODE <= p
  }

  /**
   * A sample with four-byte lengths is taken for an Annex-B stream exactly when its first NAL
   * unit has one byte, or 256 to 511 bytes.
   */
  lemma LooksLikeAnnexBSpec(nals: seq<Nal>)
    requires |nals| > 0 && LengthsFit(nals, 4)
    ensures LooksLikeAnnexB(LengthPrefixed(nals, 4)) <==> |nals[0]| == 1 || 256 <= |nals[0]| <= 511
  {
    var len := |nals[0]|;
    FieldWidths();
    var f := FourBytes(len);
    var p := LengthPrefixed(nals, 4);
    Parts(f, nals[0], LengthPrefixed(nals[1..], 4));
    assert p[0] == f[0] && p[1] == f[1] && p[2] == f[2] && p[3] == f[3];
    assert [0, 0, 1] <= p <==> f[0] == 0 && f[1] == 0 && f[2] == 1;
    assert START_CODE <= p <==> f[0] == 0 && f[1] == 0 && f[2] == 0 && f[3] == 1;
  }

  lemma FourBytes(v: nat) returns (f: seq<byte>)
    requires v < 0x1_0000_0000
    ensures |f| == 4 && f == ToBE(v, 4)
    ensures f[0] == v / 0x100_0000 && f[1] == v / 0x1_0000 % 256 && f[2] == v / 0x100 % 256 && f[3] == v % 256
  {
    f := ToBE(v, 4);
    DividedTwice(v);
    LowByte(v, 4);
    LowByte(v / 256, 3);
    LowByte(v / 256 / 256, 2);
    LowByte(v / 256 / 256 / 256, 1);
  }

  lemma DividedTwice(v: nat)
    ensures v / 256 / 256 == v / 0x1_0000 && v / 256 / 256 / 256 == v / 0x100_0000
    ensures v < 0x1_0000_0000 ==> v / 0x100_0000 % 256 == v / 0x100_0000
  {}

  lemma LowByte(v: nat, n: nat)
    requires n > 0
    ensures ToBE(v, n)[n - 1] == v % 256
    ensures forall k | 0 <= k < n - 1 :: ToBE(v, n)[k] == ToBE(v / 256, n - 1)[k]
  {}

  // ----- where the two framings coincide

  predicate AllOneByte(nals: seq<Nal>) {
    forall i | 0 <= i < |nals| :: |nals[i]| == 1
  }

  lemma {:induction false} SameFramings(nals: seq<Nal>)
    requires LengthsFit(nals, 4)
    ensures LengthPrefixed(nals, 4) == AnnexBStream(nals) <==> AllOneByte(nals)
  {
    if |nals| == 0 {
    } else {
      SameFramings(nals[1..]);
      var lp, ab := LengthPrefixed(nals, 4), AnnexBStream(nals);
      FieldWidths();
      FromToBE(|nals[0]|, 4);
      FromToBE(1, 4);
      var one := FourBytes(1);
      assert ToBE(1, 4) == START_CODE;
      assert lp[..4] == ToBE(|nals[0]|, 4) && ab[..4] == START_CODE;
      assert lp[4 + |nals[0]|..] == LengthPrefixed(nals[1..], 4);
      assert ab[4 + |nals[0]|..] == AnnexBStream(nals[1..]);
      if AllOneByte(nals) {
        assert forall i | 0 <= i < |nals| - 1 :: nals[1..][i] == nals[i + 1];
      }
      if lp == ab {
        assert |nals[0]| == FromBE(lp[..4]) == 1;
        assert forall i | 1 <= i < |nals| :: nals[i] == nals[1..][i - 1];
      }
    }
  }
}
