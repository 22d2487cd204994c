/** Assembling an access unit on the host, and which samples survive it. */
module AccessUnits {
  import opened Wrappers
  import opened Bytes
  import opened AnnexB
  import opened AnnexBScanner
  import opened NalTypes
  import opened SequenceHeader

  // ----- the host's assembly

  predicate StartsWithParameterSet(d: seq<byte>) {
    var t := NextType(d).nalType;
    t.Some? && IsParameterSetType(t.value)
  }

  function ToAnnexB(payload: seq<byte>, size: Option<nat>): Result<seq<byte>, BitstreamError> {
    if LooksLikeAnnexB(payload) then Ok(payload)
    else Convert(payload, if size.Some? then size.value else 4)
  }

  function AssembleUnit(payload: seq<byte>, header: Option<seq<byte>>, size: Option<nat>, keyframe: bool)
    : Result<seq<byte>, BitstreamError>
  {
    var annexB := ToAnnexB(payload, size);
    if annexB.Ok? && keyframe && header.Some? && !StartsWithParameterSet(annexB.value)
    then Ok(header.value + annexB.value)
    else annexB
  }

  method AssembleAnnexBAccessUnit(payload: seq<byte>, header: Option<seq<byte>>, size: Option<nat>, keyframe: bool)
    returns (r: Result<seq<byte>, BitstreamError>)
    ensures r == AssembleUnit(payload, header, size, keyframe)
  {
    var annexB: seq<byte>;
    if LooksLikeAnnexB(payload) {
      annexB := payload;
    } else {
      var converted := LengthPrefixedToAnnexB(payload, if size.Some? then size.value else 4);
      if converted.Err? {
        return converted;
      }
      annexB := converted.value;
    }
    if keyframe && header.Some? {
      var iter := new AnnexBNalTypeIter(annexB);
      assert annexB[0..] == annexB;
      var first := iter.MoveNext();
      if first.None? || !IsParameterSetType(first.value) {
        annexB := header.value + annexB;
      }
    }
    return Ok(annexB);
  }

  /** Without a length size four bytes are assumed, and only keyframes with a header at hand get one. */
  lemma AssemblyDefaults(payload: seq<byte>, header: Option<seq<byte>>, size: Option<nat>, keyframe: bool)
    ensures AssembleUnit(payload, header, None, keyframe) == AssembleUnit(payload, header, Some(4), keyframe)
    ensures AssembleUnit(payload, None, size, keyframe) == AssembleUnit(payload, header, size, false)
  {}

  // ----- when a length-prefixed sample is read correctly

  /**
   * A delta frame with four-byte lengths is put on the wire as the Annex-B framing of its NAL
   * units if and only if it is not mistaken for an Annex-B stream, or the two framings coincide.
   */
  lemma AssemblyExact(nals: seq<Nal>, header: Option<seq<byte>>)
    requires GoodNals(nals) && LengthsFit(nals, 4)
    ensures AssembleUnit(LengthPrefixed(nals, 4), header, Some(4), false) == Ok(AnnexBStream(nals))
        <==> !(|nals[0]| == 1 || 256 <= |nals[0]| <= 511) || AllOneByte(nals)
  {
    LooksLikeAnnexBSpec(nals);
    ConvertOfGood(nals, 4);
    SameFramings(nals);
  }

  // ----- from sample to sample

  /** The first byte of every unit is a NAL header, which is never zero in a stream. */
  predicate HeadersNonZero(nals: seq<Nal>) {
    forall i | 0 <= i < |nals| :: nals[i] != [] && nals[i][0] != 0
  }

  /** A unit that equals itself moved by one byte behind x consists of x alone. */
  lemma {:induction false} MovedByOne(nal: Nal, x: byte, k: nat)
    requires k < |nal| && nal[0] == x && forall j | 0 < j < |nal| :: nal[j] == nal[j - 1]
    ensures nal[k] == x
  {
    if k == 0 {
    } else {
      MovedByOne(nal, x, k - 1);
    }
  }

  /** What the scanner makes of a stream that starts with a start code and a unit behind it. */
  lemma FirstScanned(d: seq<byte>, code: nat, nals: seq<Nal>)
    requires code == StartCodeLength(d) > 0 && Scan(d) == nals && nals != []
    requires code < |d| && StartCodeLength(d[code..]) == 0
    ensures var body := d[code..];
            var n := |nals[0]|;
            && 0 < n <= |body| && nals[0] == body[..n] && Scan(body[n..]) == nals[1..]
            && (n == |body| || StartCodeLength(body[n..]) > 0)
  {
    var body := d[code..];
    var n := Span(body);
    assert Scan(d) == [body[..n]] + Scan(body[n..]);
    assert nals[1..] == Scan(body[n..]);
  }

  /** Bytes that equal themselves moved by one are all alike. */
  lemma ShiftedIsConstant(d: seq<byte>, nal: Nal)
    requires nal != [] && |d| >= 4 + |nal|
    requires forall j | 0 <= j < |nal| :: d[3 + j] == nal[j] == d[4 + j]
    ensures d[3 + |nal|] == nal[0]
  {
    forall j | 0 < j < |nal| ensures nal[j] == nal[j - 1] {
      assert d[3 + j] == nal[j] && d[4 + (j - 1)] == nal[j - 1];
    }
    MovedByOne(nal, nal[0], |nal| - 1);
    assert d[4 + (|nal| - 1)] == nal[|nal| - 1];
  }

  /** Read one byte too early, a unit with a header comes out changed. */
  lemma EarlyUnitLost(d: seq<byte>, nal: Nal, nals: seq<Nal>)
    requires StartCodeLength(d) == 3 && |d| >= 4 + |nal| && |nal| >= 2 && nal[0] != 0
    requires forall j | 0 <= j < |nal| :: d[4 + j] == nal[j]
    requires nals != [] && nals[0] == nal
    ensures Scan(d) != nals
  {
    var n := |nal|;
    assert d[3..][1] == d[4] == nal[0];
    assert d[3..][n..] == d[3 + n..];
    if Scan(d) == nals {
      FirstScanned(d, 3, nals);
      assert d[3..][..n] == nal && StartCodeLength(d[3 + n..]) > 0;
      assert forall j | 0 <= j < n :: d[3..][..n][j] == d[3 + j];
      ShiftedIsConstant(d, nal);
      assert false;
    }
  }

  /** A unit read where it starts is kept, and the scanner goes on behind it. */
  lemma UnitKept(d: seq<byte>, nal: Nal, nals: seq<Nal>)
    requires StartCodeLength(d) == 4 && |d| >= 5 && nal == [d[4]] && d[4] != 0
    requires nals != [] && nals[0] == nal && Scan(d) == nals
    ensures Scan(d[5..]) == nals[1..] && (d[5..] == [] || StartCodeLength(d[5..]) > 0)
  {
    assert d[4..][0] == d[4] && d[4..][1..] == d[5..];
    FirstScanned(d, 4, nals);
  }

  /** What a mistaken sample starts with. */
  lemma MistakenFront(nals: seq<Nal>)
    requires nals != [] && LengthsFit(nals, 4) && nals[0] != []
    ensures var d := LengthPrefixed(nals, 4);
            var n := |nals[0]|;
            && |d| >= 4 + n && (forall j | 0 <= j < n :: d[4 + j] == nals[0][j])
            && d[4 + n..] == LengthPrefixed(nals[1..], 4)
            && (n == 1 ==> StartCodeLength(d) == 4)
            && (256 <= n <= 511 ==> StartCodeLength(d) == 3)
  {
    FieldWidths();
    var f := MistakenLength(|nals[0]|);
    UnitBehind(f, nals[0], LengthPrefixed(nals[1..], 4));
  }

  /** The length fields that read as a start code. */
  lemma MistakenLength(n: nat) returns (f: seq<byte>)
    requires n < 0x1_0000_0000
    ensures f == ToBE(n, 4) && |f| == 4
    ensures n == 1 ==> f[0] == 0 && f[1] == 0 && f[2] == 0 && f[3] == 1
    ensures 256 <= n <= 511 ==> f[0] == 0 && f[1] == 0 && f[2] == 1
  {
    f := FourBytes(n);
  }

  lemma UnitBehind(f: seq<byte>, nal: Nal, rest: seq<byte>)
    requires |f| == 4
    ensures var d := f + nal + rest;
            && (forall j | 0 <= j < |nal| :: d[4 + j] == nal[j]) && d[4 + |nal|..] == rest
            && (nal != [] && f[0] == 0 && f[1] == 0 && f[2] == 0 && f[3] == 1 ==> StartCodeLength(d) == 4)
            && (f[0] == 0 && f[1] == 0 && f[2] == 1 ==> StartCodeLength(d) == 3)
  {
    var d := f + nal + rest;
    assert d[0] == f[0] && d[1] == f[1] && d[2] == f[2] && d[3] == f[3];
  }

  lemma MistakenStep(d: seq<byte>, nals: seq<Nal>)
    requires nals != [] && nals[0] != [] && nals[0][0] != 0 && Scan(d) == nals
    requires var n := |nals[0]|;
             && |d| >= 4 + n && (forall j | 0 <= j < n :: d[4 + j] == nals[0][j])
             && (if n == 1 then StartCodeLength(d) == 4 else StartCodeLength(d) == 3)
    ensures |nals[0]| == 1 && Scan(d[5..]) == nals[1..] && (d[5..] == [] || StartCodeLength(d[5..]) > 0)
  {
    if |nals[0]| == 1 {
      assert nals[0] == [d[4]];
      UnitKept(d, nals[0], nals);
    } else {
      EarlyUnitLost(d, nals[0], nals);
    }
  }

  lemma CodeLooksLikeAnnexB(d: seq<byte>)
    ensures StartCodeLength(d) > 0 ==> LooksLikeAnnexB(d)
  {}

  /** A sample that is taken for Annex-B, and scans to its own units all the same. */
  ghost predicate Survives(nals: seq<Nal>) {
    LooksLikeAnnexB(LengthPrefixed(nals, 4)) && Scan(LengthPrefixed(nals, 4)) == nals
  }

  lemma SurvivorsTail(nals: seq<Nal>)
    requires nals != [] && LengthsFit(nals, 4) && nals[0] != [] && nals[0][0] != 0 && Survives(nals)
    ensures |nals[0]| == 1 && (|nals| > 1 ==> Survives(nals[1..]))
  {
    LooksLikeAnnexBSpec(nals);
    MistakenFront(nals);
    MistakenStep(LengthPrefixed(nals, 4), nals);
    CodeLooksLikeAnnexB(LengthPrefixed(nals[1..], 4));
  }

  /** Such a sample has only units of one byte. */
  lemma {:induction false} SurvivorsAreShort(nals: seq<Nal>)
    requires nals != [] && LengthsFit(nals, 4) && HeadersNonZero(nals) && Survives(nals)
    ensures AllOneByte(nals)
  {
    SurvivorsTail(nals);
    TailUnits(nals);
    if |nals| == 1 {
    } else {
      SurvivorsAreShort(nals[1..]);
    }
  }

  lemma TailUnits(nals: seq<Nal>)
    requires nals != [] && LengthsFit(nals, 4) && HeadersNonZero(nals)
    ensures LengthsFit(nals[1..], 4) && HeadersNonZero(nals[1..])
    ensures AllOneByte(nals) <==> |nals[0]| == 1 && AllOneByte(nals[1..])
  {
    assert forall i | 1 <= i < |nals| :: nals[i] == nals[1..][i - 1];
  }

  /** Every scanned unit leaves room for a start code. */
  lemma {:induction false} ScannedShort(d: seq<byte>)
    ensures forall i | 0 <= i < |Scan(d)| :: |Scan(d)[i]| + 3 <= |d|
    decreases |d|
  {
    if |d| == 0 {
    } else if StartCodeLength(d) == 0 {
      ScannedShort(d[1..]);
    } else {
      var body := d[StartCodeLength(d)..];
      ScannedShort(body[Span(body)..]);
    }
  }

  /** Length framing loses nothing: equal framings have equal units. */
  lemma SameUnits(a: seq<Nal>, b: seq<Nal>)
    requires LengthsFit(a, 4) && LengthsFit(b, 4) && LengthPrefixed(a, 4) == LengthPrefixed(b, 4)
    ensures a == b
  {
    SplitLengthPrefixed(a, 4);
    SplitLengthPrefixed(b, 4);
  }

  /**
   * For a delta frame the whole path from sample to sample, through assembly, scanning and
   * re-framing, is the identity if and only if the sample is not mistaken for an Annex-B stream,
   * or all its units have one byte.
   */
  lemma SampleIdentity(nals: seq<Nal>, header: Option<seq<byte>>)
    requires GoodNals(nals) && LengthsFit(nals, 4) && HeadersNonZero(nals)
    requires |LengthPrefixed(nals, 4)| < 0x1_0000_0000
    ensures var s := LengthPrefixed(nals, 4);
            var r := AssembleUnit(s, header, Some(4), false);
            && r.Ok?
            && (LengthPrefixed(Scan(r.value), 4) == s <==>
                !(|nals[0]| == 1 || 256 <= |nals[0]| <= 511) || AllOneByte(nals))
  {
    var s := LengthPrefixed(nals, 4);
    AssemblyExact(nals, header);
    LooksLikeAnnexBSpec(nals);
    ScanOfGood(nals);
    if LooksLikeAnnexB(s) && LengthPrefixed(Scan(s), 4) == s {
      ScannedShort(s);
      FieldWidths();
      SameUnits(Scan(s), nals);
      SurvivorsAreShort(nals);
    }
  }

  /**
   * For a delta frame of a single NAL unit the whole path from sample to sample is the identity
   * if and only if the unit's length is not in 256..511, whatever its first byte.
   */
  lemma SingleNalIdentity(nal: Nal, header: Option<seq<byte>>)
    requires GoodNal(nal) && |nal| < Pow256(4)
    ensures var s := LengthPrefixed([nal], 4);
            var r := AssembleUnit(s, header, Some(4), false);
            r.Ok? && (LengthPrefixed(Scan(r.value), 4) == s <==> !(256 <= |nal| <= 511))
  {
    var nals := [nal];
    var s := LengthPrefixed(nals, 4);
    AssemblyExact(nals, header);
    LooksLikeAnnexBSpec(nals);
    ScanOfGood(nals);
    if 256 <= |nal| <= 511 {
      MistakenSample(nal);
    }
  }

  lemma MistakenSample(nal: Nal)
    requires GoodNal(nal) && 256 <= |nal| <= 511
    ensures var s := LengthPrefixed([nal], 4);
            LooksLikeAnnexB(s) && LengthPrefixed(Scan(s), 4) != s
  {
    var s := LengthPrefixed([nal], 4);
    FieldWidths();
    LooksLikeAnnexBSpec([nal]);
    MistakenFront([nal]);
    LastUnitLost(s, nal);
    if LengthPrefixed(Scan(s), 4) == s {
      ScannedShort(s);
      SameUnits(Scan(s), [nal]);
      assert false;
    }
  }

  /** Read one byte too early, the only unit of a stream comes out changed. */
  lemma LastUnitLost(d: seq<byte>, nal: Nal)
    requires StartCodeLength(d) == 3 && |d| == 4 + |nal|
    ensures Scan(d) != [nal]
  {
    var body := d[3..];
    if StartCodeLength(body) > 0 {
      ScannedShort(body);
      ScanDoubled(d, 3);
      assert Scan(body) != [] ==> |Scan(body)[0]| != |nal|;
    } else if Scan(d) == [nal] {
      FirstScanned(d, 3, [nal]);
    }
  }

  lemma ScanDoubled(d: seq<byte>, code: nat)
    requires code == StartCodeLength(d) > 0 && StartCodeLength(d[code..]) > 0
    ensures Scan(d) == Scan(d[code..])
  {
    var body := d[code..];
    assert Span(body) == 0 && body[0..] == body;
    assert Scan(d) == [] + Scan(body);
  }
}
