/** The client decoder's choice of parameter sets, and what it needs from a keyframe. */
module Decoder {
  import opened Wrappers
  import opened Bytes
  import opened AnnexB
  import opened AnnexBScanner
  import opened NalTypes
  import opened SequenceHeader
  import opened AccessUnits

  function LastOfType(nals: seq<Nal>, t: byte): Option<Nal> {
    if |nals| == 0 then None
    else if nals[|nals| - 1] != [] && NalType(nals[|nals| - 1]) == t then Some(nals[|nals| - 1])
    else LastOfType(nals[..|nals| - 1], t)
  }

  lemma {:induction false} LastOfTypeSpec(nals: seq<Nal>, t: byte)
    ensures LastOfType(nals, t).None? <==> forall i | 0 <= i < |nals| && nals[i] != [] :: NalType(nals[i]) != t
    ensures LastOfType(nals, t).Some? ==>
              exists k :: 0 <= k < |nals| && nals[k] == LastOfType(nals, t).value && NalType(nals[k]) == t
                          && forall i | k < i < |nals| && nals[i] != [] :: NalType(nals[i]) != t
  {
    if |nals| == 0 {
    } else {
      var n := |nals| - 1;
      LastOfTypeSpec(nals[..n], t);
      assert forall i | 0 <= i < n :: nals[..n][i] == nals[i];
      if !(nals[n] != [] && NalType(nals[n]) == t) && LastOfType(nals[..n], t).Some? {
        var k :| 0 <= k < n && nals[..n][k] == LastOfType(nals, t).value && NalType(nals[..n][k]) == t
                 && forall i | k < i < n && nals[..n][i] != [] :: NalType(nals[..n][i]) != t;
        assert nals[k] == LastOfType(nals, t).value;
      }
    }
  }

  predicate HasBothSets(nals: seq<Nal>) {
    LastOfType(nals, 7).Some? && LastOfType(nals, 8).Some?
  }

  datatype ParameterSets = ParameterSets(sps: Nal, pps: Nal)

  datatype DecoderError = MissingParameterSets | FormatDescriptionFailed | DecompressionSessionFailed

  /** The parameter sets remembered, those the format was made from, and those the session was. */
  datatype DecoderState = DecoderState(cached: Option<ParameterSets>, format: Option<ParameterSets>, session: Option<ParameterSets>)

  /** The video toolbox decides whether a format description and a session can be created. */
  function UpdateConfiguration(s: DecoderState, nals: seq<Nal>, formatOk: bool, sessionOk: bool)
    : (DecoderState, Result<(), DecoderError>)
  {
    if !HasBothSets(nals) then (s, Err(MissingParameterSets))
    else
      var sets := ParameterSets(LastOfType(nals, 7).value, LastOfType(nals, 8).value);
      if s.cached == Some(sets) && s.format.Some? && s.session.Some? then (s, Ok(()))
      else if !formatOk then (s.(cached := Some(sets)), Err(FormatDescriptionFailed))
      else if !sessionOk then (DecoderState(Some(sets), Some(sets), None), Err(DecompressionSessionFailed))
      else (DecoderState(Some(sets), Some(sets), Some(sets)), Ok(()))
  }

  class H264VideoDecoder {
    var cachedSps: Option<Nal>
    var cachedPps: Option<Nal>
    var format: Option<ParameterSets>
    var session: Option<ParameterSets>

    /** Both sets are always cached together. */
    ghost predicate Valid()
      reads this
    {
      cachedSps.Some? <==> cachedPps.Some?
    }

    ghost function Abstract(): DecoderState
      requires Valid()
      reads this
    {
      DecoderState(if cachedSps.Some? then Some(ParameterSets(cachedSps.value, cachedPps.value)) else None, format, session)
    }

    constructor ()
      ensures Valid() && Abstract() == DecoderState(None, None, None)
    {
      cachedSps, cachedPps, format, session := None, None, None, None;
    }

    method UpdateDecoderConfiguration(nals: seq<Nal>, formatOk: bool, sessionOk: bool) returns (r: Result<(), DecoderError>)
      requires Valid()
      modifies this
      ensures Valid()
      ensures (Abstract(), r) == UpdateConfiguration(old(Abstract()), nals, formatOk, sessionOk)
    {
      var sps: Option<Nal>, pps: Option<Nal> := None, None;
      for i := 0 to |nals|
        invariant sps == LastOfType(nals[..i], 7) && pps == LastOfType(nals[..i], 8)
      {
        assert nals[..i + 1][..i] == nals[..i];
        if nals[i] == [] {
          continue;
        }
        if nals[i][0] % 32 == 7 {
          sps := Some(nals[i]);
        } else if nals[i][0] % 32 == 8 {
          pps := Some(nals[i]);
        }
      }
      assert nals[..|nals|] == nals;
      if sps.None? || pps.None? {
        return Err(MissingParameterSets);
      }
      if cachedSps == sps && cachedPps == pps && format.Some? && session.Some? {
        return Ok(());
      }
      cachedSps := sps;
      cachedPps := pps;
      if !formatOk {
        return Err(FormatDescriptionFailed);
      }
      format := Some(ParameterSets(sps.value, pps.value));
      session := None;
      if !sessionOk {
        return Err(DecompressionSessionFailed);
      }
      session := format;
      return Ok(());
    }
  }

  // ----- keyframes carry what the decoder needs

  lemma {:induction false} LastOfTypeAppend(a: seq<Nal>, b: seq<Nal>, t: byte)
    ensures LastOfType(a + b, t) == if LastOfType(b, t).Some? then LastOfType(b, t) else LastOfType(a, t)
  {
    if |b| == 0 {
      assert a + b == a;
    } else {
      assert (a + b)[..|a + b| - 1] == a + b[..|b| - 1];
      LastOfTypeAppend(a, b[..|b| - 1], t);
    }
  }

  /** The NAL units of a keyframe after assembly. */
  function KeyframeNals(header: seq<Nal>, nals: seq<Nal>): seq<Nal>
    requires nals != []
  {
    if IsParameterSetType(NalType(nals[0])) then nals else header + nals
  }

  /** The payload of a sample, in either framing, whose NAL units are the given ones. */
  ghost predicate Frames(payload: seq<byte>, size: nat, nals: seq<Nal>) {
    payload == AnnexBStream(nals)
    || (1 <= size <= 4 && LengthsFit(nals, size) && payload == LengthPrefixed(nals, size) && !LooksLikeAnnexB(payload))
  }

  lemma FramesToAnnexB(payload: seq<byte>, size: nat, nals: seq<Nal>)
    requires GoodNals(nals) && Frames(payload, size, nals)
    ensures ToAnnexB(payload, Some(size)) == Ok(AnnexBStream(nals))
  {
    if payload == AnnexBStream(nals) {
      assert START_CODE <= payload;
    } else {
      ConvertOfGood(nals, size);
    }
  }

  lemma FirstTypeOfGood(nals: seq<Nal>)
    requires GoodNals(nals)
    ensures StartsWithParameterSet(AnnexBStream(nals)) <==> IsParameterSetType(NalType(nals[0]))
  {
    TypesOfGood(nals);
    assert Types(AnnexBStream(nals))[0] == NalType(nals[0]);
  }

  /** On the client a keyframe parses to the header's NAL units followed by its own. */
  lemma KeyframeParses(payload: seq<byte>, size: nat, header: seq<Nal>, nals: seq<Nal>)
    requires GoodNals(nals) && Frames(payload, size, nals)
    requires forall i | 0 <= i < |header| :: GoodNal(header[i])
    ensures AssembleUnit(payload, Some(AnnexBStream(header)), Some(size), true)
         == Ok(AnnexBStream(KeyframeNals(header, nals)))
    ensures Scan(AnnexBStream(KeyframeNals(header, nals))) == KeyframeNals(header, nals)
  {
    FramesToAnnexB(payload, size, nals);
    FirstTypeOfGood(nals);
    AnnexBStreamAppend(header, nals);
    ScanOfGood(KeyframeNals(header, nals));
  }

  lemma KeyframeSets(header: seq<Nal>, nals: seq<Nal>)
    requires nals != []
    ensures HasBothSets(KeyframeNals(header, nals)) <==>
            HasBothSets(nals) || (!IsParameterSetType(NalType(nals[0])) && HasBothSets(header + nals))
  {
    LastOfTypeAppend(header, nals, 7);
    LastOfTypeAppend(header, nals, 8);
  }

  lemma FreshUpdate(s: DecoderState, nals: seq<Nal>)
    ensures var (s', r) := UpdateConfiguration(s, nals, true, true);
            && (r.Ok? <==> HasBothSets(nals))
            && (r.Ok? ==> s'.cached.Some?
                          && LastOfType(nals, 7) == Some(s'.cached.value.sps)
                          && LastOfType(nals, 8) == Some(s'.cached.value.pps))
  {
  }

  /**
   * Self-sufficiency: the decoder finds both parameter sets in an assembled keyframe if and only
   * if the payload brings both itself, or the payload does not start with a parameter set and
   * header and payload together bring both. It then uses the last of each.
   */
  lemma KeyframeSelfSufficient(payload: seq<byte>, size: nat, header: seq<Nal>, nals: seq<Nal>, s: DecoderState)
    requires GoodNals(nals) && Frames(payload, size, nals)
    requires forall i | 0 <= i < |header| :: GoodNal(header[i])
    ensures AssembleUnit(payload, Some(AnnexBStream(header)), Some(size), true).Ok?
    ensures var unit := AssembleUnit(payload, Some(AnnexBStream(header)), Some(size), true).value;
            var (s', r) := UpdateConfiguration(s, Scan(unit), true, true);
            && (r.Ok? <==> HasBothSets(nals) || (!IsParameterSetType(NalType(nals[0])) && HasBothSets(header + nals)))
            && (r.Ok? ==> s'.cached.Some?
                          && LastOfType(KeyframeNals(header, nals), 7) == Some(s'.cached.value.sps)
                          && LastOfType(KeyframeNals(header, nals), 8) == Some(s'.cached.value.pps))
  {
    KeyframeParses(payload, size, header, nals);
    KeyframeSets(header, nals);
    FreshUpdate(s, KeyframeNals(header, nals));
  }

  /** With an SPS and a PPS in the header and none in the payload, the header's last ones are used. */
  lemma HeaderSetsUsed(payload: seq<byte>, size: nat, header: seq<Nal>, nals: seq<Nal>, s: DecoderState)
    requires GoodNals(nals) && Frames(payload, size, nals)
    requires forall i | 0 <= i < |header| :: GoodNal(header[i])
    requires HasBothSets(header) && forall i | 0 <= i < |nals| :: !IsParameterSetType(NalType(nals[i]))
    ensures AssembleUnit(payload, Some(AnnexBStream(header)), Some(size), true).Ok?
    ensures var unit := AssembleUnit(payload, Some(AnnexBStream(header)), Some(size), true).value;
            var (s', r) := UpdateConfiguration(s, Scan(unit), true, true);
            r.Ok? && s'.cached == Some(ParameterSets(LastOfType(header, 7).value, LastOfType(header, 8).value))
  {
    KeyframeSelfSufficient(payload, size, header, nals, s);
    LastOfTypeSpec(nals, 7);
    LastOfTypeSpec(nals, 8);
    LastOfTypeAppend(header, nals, 7);
    LastOfTypeAppend(header, nals, 8);
  }

  // ----- keyframes that are mistaken for Annex-B

  /** The type that assembly reads off a sample with four-byte lengths, mistaken or not. */
  function ReadType(nals: seq<Nal>): byte
    requires nals != []
  {
    if 256 <= |nals[0]| <= 511 then |nals[0]| % 256 % 32 else NalType(nals[0])
  }

  /** The units that go in front, by the type that was read. */
  function Lead(header: seq<Nal>, nals: seq<Nal>): seq<Nal>
    requires nals != []
  {
    if IsParameterSetType(ReadType(nals)) then [] else header
  }

  /** The units the client scans out of the sample itself. */
  function OwnUnits(nals: seq<Nal>): seq<Nal> {
    if LooksLikeAnnexB(LengthPrefixed(nals, 4)) then Scan(LengthPrefixed(nals, 4)) else nals
  }

  lemma OwnUnitsExact(nals: seq<Nal>)
    requires GoodNals(nals) && LengthsFit(nals, 4) && HeadersNonZero(nals)
    requires |LengthPrefixed(nals, 4)| < 0x1_0000_0000
    ensures OwnUnits(nals) == nals <==> !(|nals[0]| == 1 || 256 <= |nals[0]| <= 511) || AllOneByte(nals)
  {
    LooksLikeAnnexBSpec(nals);
    SampleIdentity(nals, None);
    SameFramings(nals);
    ScanOfGood(nals);
  }

  /** The first type in a mistaken sample. */
  lemma MistakenType(nals: seq<Nal>)
    requires nals != [] && LengthsFit(nals, 4) && nals[0] != [] && LooksLikeAnnexB(LengthPrefixed(nals, 4))
    ensures var d := LengthPrefixed(nals, 4);
            NextType(d).nalType == Some(ReadType(nals)) && StartCodeLength(d) > 0
  {
    FieldWidths();
    LooksLikeAnnexBSpec(nals);
    MistakenFront(nals);
    var f := FourBytes(|nals[0]|);
    Parts(f, nals[0], LengthPrefixed(nals[1..], 4));
    FirstTypeBehind(LengthPrefixed(nals, 4));
  }

  lemma FirstTypeBehind(d: seq<byte>)
    requires |d| >= 5 && StartCodeLength(d) > 0
    ensures NextType(d).nalType == Some(d[StartCodeLength(d)] % 32)
  {}

  lemma MistakenUnit(nals: seq<Nal>, header: seq<Nal>)
    requires nals != [] && LengthsFit(nals, 4) && nals[0] != [] && LooksLikeAnnexB(LengthPrefixed(nals, 4))
    ensures AssembleUnit(LengthPrefixed(nals, 4), Some(AnnexBStream(header)), Some(4), true)
         == Ok(AnnexBStream(Lead(header, nals)) + LengthPrefixed(nals, 4))
  {
    MistakenType(nals);
    var d := LengthPrefixed(nals, 4);
    assert AnnexBStream([]) + d == d;
  }

  /**
   * What a length-prefixed keyframe scans to, mistaken or not: the header's units, unless the
   * type that was read is a parameter set's, and then the sample's own, which are unchanged if
   * and only if the sample was not mistaken for Annex-B or all its units have one byte.
   */
  lemma KeyframeExact(nals: seq<Nal>, header: seq<Nal>)
    requires GoodNals(nals) && LengthsFit(nals, 4) && HeadersNonZero(nals)
    requires |LengthPrefixed(nals, 4)| < 0x1_0000_0000
    requires forall i | 0 <= i < |header| :: EndedNal(header[i])
    ensures var unit := AssembleUnit(LengthPrefixed(nals, 4), Some(AnnexBStream(header)), Some(4), true);
            unit.Ok? && Scan(unit.value) == Lead(header, nals) + OwnUnits(nals)
    ensures OwnUnits(nals) == nals <==> !(|nals[0]| == 1 || 256 <= |nals[0]| <= 511) || AllOneByte(nals)
  {
    var s := LengthPrefixed(nals, 4);
    LooksLikeAnnexBSpec(nals);
    OwnUnitsExact(nals);
    if LooksLikeAnnexB(s) {
      MistakenUnit(nals, header);
      MistakenType(nals);
      ScanBehind(Lead(header, nals), s);
    } else {
      KeyframeParses(s, 4, header, nals);
      assert KeyframeNals(header, nals) == Lead(header, nals) + nals;
    }
  }

  /** When the type is read right, the keyframe comes out right if and only if its own units do. */
  lemma KeyframeComesOut(nals: seq<Nal>, header: seq<Nal>)
    requires GoodNals(nals) && LengthsFit(nals, 4) && HeadersNonZero(nals)
    requires |LengthPrefixed(nals, 4)| < 0x1_0000_0000
    requires forall i | 0 <= i < |header| :: EndedNal(header[i])
    requires IsParameterSetType(ReadType(nals)) <==> IsParameterSetType(NalType(nals[0]))
    ensures var unit := AssembleUnit(LengthPrefixed(nals, 4), Some(AnnexBStream(header)), Some(4), true);
            && unit.Ok?
            && (Scan(unit.value) == KeyframeNals(header, nals) <==>
                !(|nals[0]| == 1 || 256 <= |nals[0]| <= 511) || AllOneByte(nals))
  {
    KeyframeExact(nals, header);
    var lead := Lead(header, nals);
    assert KeyframeNals(header, nals) == lead + nals;
    assert (lead + OwnUnits(nals))[|lead|..] == OwnUnits(nals) && (lead + nals)[|lead|..] == nals;
  }

  // ----- the session in use was made from the cached sets

  ghost predicate Coherent(s: DecoderState) {
    s.session.Some? ==> s.session == s.cached && s.format == s.cached
  }

  /**
   * An update keeps the session in step with the cached sets, except exactly when making a
   * format description fails for new sets while an older session is still there. The next
   * keyframe with the same sets is then decoded by that older session.
   */
  lemma UpdateCoherent(s: DecoderState, nals: seq<Nal>, formatOk: bool, sessionOk: bool)
    requires Coherent(s)
    ensures Coherent(UpdateConfiguration(s, nals, formatOk, sessionOk).0) <==>
            !(!formatOk && s.session.Some? && HasBothSets(nals)
              && s.cached != Some(ParameterSets(LastOfType(nals, 7).value, LastOfType(nals, 8).value)))
    ensures var (s', r) := UpdateConfiguration(s, nals, formatOk, sessionOk);
            !Coherent(s') ==> r == Err(FormatDescriptionFailed)
                              && UpdateConfiguration(s', nals, true, true) == (s', Ok(()))
                              && s'.session != s'.cached
  {
  }

  /** An update that succeeds leaves a session made from the last SPS and PPS; one that fails says which step failed. */
  lemma UpdateUsesLastSets(s: DecoderState, nals: seq<Nal>, formatOk: bool, sessionOk: bool)
    requires Coherent(s)
    ensures var (s', r) := UpdateConfiguration(s, nals, formatOk, sessionOk);
            var sps, pps := LastOfType(nals, 7), LastOfType(nals, 8);
            && (r.Ok? ==> sps.Some? && pps.Some? && s'.session == Some(ParameterSets(sps.value, pps.value)))
            && (r == Err(MissingParameterSets) <==> sps.None? || pps.None?)
            && (r == Err(MissingParameterSets) ==> s' == s)
            && (r == Err(FormatDescriptionFailed) ==> !formatOk) && (r == Err(DecompressionSessionFailed) ==> !sessionOk)
            && (r == Err(DecompressionSessionFailed) ==> s'.session.None?)
            && (r.Err? ==> sps.None? || pps.None? || !formatOk || !sessionOk)
  {}

  /** A keyframe with the sets in use leaves the session as it is, and asks for nothing to be created. */
  lemma SameSetsReuse(s: DecoderState, nals: seq<Nal>, formatOk: bool, sessionOk: bool)
    requires HasBothSets(nals) && s.format.Some? && s.session.Some?
    requires s.cached == Some(ParameterSets(LastOfType(nals, 7).value, LastOfType(nals, 8).value))
    ensures UpdateConfiguration(s, nals, formatOk, sessionOk) == (s, Ok(()))
  {}

  /**
   * From a new decoder on: a keyframe that configures it, and one with other sets for which no
   * format description can be made, leave the session of the first beside the sets of the second.
   */
  lemma StaleSessionReached(first: seq<Nal>, second: seq<Nal>)
    requires HasBothSets(first) && HasBothSets(second)
    requires LastOfType(first, 7) != LastOfType(second, 7) || LastOfType(first, 8) != LastOfType(second, 8)
    ensures var s1 := UpdateConfiguration(DecoderState(None, None, None), first, true, true).0;
            var s2 := UpdateConfiguration(s1, second, false, true).0;
            && Coherent(s1) && !Coherent(s2)
            && s2.session == Some(ParameterSets(LastOfType(first, 7).value, LastOfType(first, 8).value))
            && UpdateConfiguration(s2, second, true, true) == (s2, Ok(()))
  {}

  /** Two such keyframes, which differ in one byte of the SPS. */
  lemma StaleSessionWitness()
    ensures HasBothSets([[7, 1], [8]]) && HasBothSets([[7, 2], [8]])
    ensures LastOfType([[7, 1], [8]], 7) != LastOfType([[7, 2], [8]], 7)
  {
    SpsThenPps([7, 1], [8]);
    SpsThenPps([7, 2], [8]);
  }

  lemma SpsThenPps(sps: Nal, pps: Nal)
    requires sps != [] && pps != [] && NalType(sps) == 7 && NalType(pps) == 8
    ensures LastOfType([sps, pps], 7) == Some(sps) && LastOfType([sps, pps], 8) == Some(pps)
  {
    assert [sps, pps][..1] == [sps];
  }
}
