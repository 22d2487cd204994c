/** Turning an encoder's H.264 sequence header, in any of three formats, into Annex-B. */
module SequenceHeader {
  import opened Wrappers
  import opened Bytes
  import opened AnnexB
  import opened AnnexBScanner
  import opened NalTypes

  datatype Header = Header(nalLengthSize: nat, annexB: seq<byte>)

  // ----- AVCDecoderConfigurationRecord

  datatype Sets = Sets(nals: seq<Nal>, rest: seq<byte>)

  /** Reads n parameter sets, each behind a 16-bit length. */
  function ReadSets(d: seq<byte>, n: nat, truncated: BitstreamError): Result<Sets, BitstreamError> {
    if n == 0 then Ok(Sets([], d))
    else if |d| < 2 then Err(TruncatedField)
    else
      var len := FromBE(d[..2]);
      if |d| < 2 + len then Err(truncated)
      else
        var r := ReadSets(d[2 + len..], n - 1, truncated);
        if r.Err? then r else Ok(Sets([d[2..2 + len]] + r.value.nals, r.value.rest))
  }

  function DecodeAvcc(config: seq<byte>): Result<Header, BitstreamError> {
    if |config| < 7 then Err(TruncatedConfig)
    else if config[0] != 1 then Err(UnexpectedConfigVersion)
    else
      var sps := ReadSets(config[6..], config[5] % 32, TruncatedSps);
      if sps.Err? then Err(sps.error)
      else if sps.value.rest == [] then Err(TruncatedPpsCount)
      else
        var pps := ReadSets(sps.value.rest[1..], sps.value.rest[0], TruncatedPps);
        if pps.Err? then Err(pps.error)
        else Ok(Header(config[4] % 4 + 1, AnnexBStream(sps.value.nals + pps.value.nals)))
  }

  /** The record as section 5.2.4.1 of ISO/IEC 14496-15 lays it out, with any bytes behind it. */
  function Record(lead: seq<byte>, sps: seq<Nal>, pps: seq<Nal>, trailing: seq<byte>): seq<byte>
    requires |pps| < 256
  {
    lead + (LengthPrefixed(sps, 2) + PpsPart(pps, trailing))
  }

  function PpsPart(pps: seq<Nal>, trailing: seq<byte>): (s: seq<byte>)
    requires |pps| < 256
    ensures |s| > 0
  {
    [|pps|] + (LengthPrefixed(pps, 2) + trailing)
  }

  /** Version, profile, compatibility, level, length size, SPS count. */
  predicate ValidLead(lead: seq<byte>, sps: seq<Nal>) {
    |lead| == 6 && lead[0] == 1 && lead[5] % 32 == |sps|
  }

  lemma {:induction false} ReadSetsOf(nals: seq<Nal>, rest: seq<byte>, truncated: BitstreamError)
    requires LengthsFit(nals, 2)
    ensures ReadSets(LengthPrefixed(nals, 2) + rest, |nals|, truncated) == Ok(Sets(nals, rest))
  {
    if |nals| == 0 {
      assert LengthPrefixed(nals, 2) + rest == rest;
    } else {
      var tail := LengthPrefixed(nals[1..], 2) + rest;
      assert LengthPrefixed(nals, 2) + rest == ToBE(|nals[0]|, 2) + nals[0] + tail;
      OneUnit(nals[0], tail, 2);
      ReadSetsOf(nals[1..], rest, truncated);
      assert [nals[0]] + nals[1..] == nals;
    }
  }

  lemma {:induction false} SetsThatWereRead(d: seq<byte>, n: nat, truncated: BitstreamError)
    requires ReadSets(d, n, truncated).Ok?
    ensures var r := ReadSets(d, n, truncated).value;
            |r.nals| == n && LengthsFit(r.nals, 2) && d == LengthPrefixed(r.nals, 2) + r.rest
    decreases n
  {
    if n == 0 {
      assert LengthPrefixed([], 2) + d == d;
    } else {
      var len := FromBE(d[..2]);
      ToFromBE(d[..2]);
      SetsThatWereRead(d[2 + len..], n - 1, truncated);
      var tail := ReadSets(d[2 + len..], n - 1, truncated).value;
      var all := [d[2..2 + len]] + tail.nals;
      assert all[1..] == tail.nals;
      Regrouped(d[..2], d[2..2 + len], LengthPrefixed(tail.nals, 2), tail.rest);
      SplitTwice(d, 2, 2 + len);
    }
  }

  /** Decoding once both runs of parameter sets have been read. */
  lemma DecodeOfRead(config: seq<byte>, first: Sets, second: Sets)
    requires |config| >= 7 && config[0] == 1
    requires ReadSets(config[6..], config[5] % 32, TruncatedSps) == Ok(first) && first.rest != []
    requires ReadSets(first.rest[1..], first.rest[0], TruncatedPps) == Ok(second)
    ensures DecodeAvcc(config) == Ok(Header(config[4] % 4 + 1, AnnexBStream(first.nals + second.nals)))
  {}

  lemma PpsPartRead(pps: seq<Nal>, trailing: seq<byte>)
    requires |pps| < 256 && LengthsFit(pps, 2)
    ensures var part := PpsPart(pps, trailing);
            part[0] == |pps| && ReadSets(part[1..], part[0], TruncatedPps) == Ok(Sets(pps, trailing))
  {
    assert PpsPart(pps, trailing)[1..] == LengthPrefixed(pps, 2) + trailing;
    ReadSetsOf(pps, trailing, TruncatedPps);
  }

  /** Every well-formed record decodes to its parameter sets, in order, and its length size. */
  lemma DecodeOfRecord(lead: seq<byte>, sps: seq<Nal>, pps: seq<Nal>, trailing: seq<byte>)
    requires ValidLead(lead, sps) && |pps| < 256 && LengthsFit(sps, 2) && LengthsFit(pps, 2)
    ensures DecodeAvcc(Record(lead, sps, pps, trailing)) == Ok(Header(lead[4] % 4 + 1, AnnexBStream(sps + pps)))
  {
    var config := Record(lead, sps, pps, trailing);
    var second := PpsPart(pps, trailing);
    assert config[..6] == lead && config[6..] == LengthPrefixed(sps, 2) + second;
    assert config[0] == lead[0] && config[4] == lead[4] && config[5] == lead[5];
    ReadSetsOf(sps, second, TruncatedSps);
    PpsPartRead(pps, trailing);
    DecodeOfRead(config, Sets(sps, second), Sets(pps, trailing));
  }

  lemma PpsPartThatWasRead(part: seq<byte>, pps: Sets)
    requires part != [] && ReadSets(part[1..], part[0], TruncatedPps) == Ok(pps)
    ensures |pps.nals| == part[0] && LengthsFit(pps.nals, 2) && part == PpsPart(pps.nals, pps.rest)
  {
    SetsThatWereRead(part[1..], part[0], TruncatedPps);
    assert part == [part[0]] + part[1..];
  }

  /** Decoding succeeds on nothing else. */
  lemma RecordOfDecoded(config: seq<byte>) returns (sps: seq<Nal>, pps: seq<Nal>, trailing: seq<byte>)
    requires DecodeAvcc(config).Ok?
    ensures |pps| < 256 && LengthsFit(sps, 2) && LengthsFit(pps, 2) && ValidLead(config[..6], sps)
    ensures config == Record(config[..6], sps, pps, trailing)
    ensures DecodeAvcc(config).value == Header(config[4] % 4 + 1, AnnexBStream(sps + pps))
  {
    var first := ReadSets(config[6..], config[5] % 32, TruncatedSps).value;
    SetsThatWereRead(config[6..], config[5] % 32, TruncatedSps);
    var second := ReadSets(first.rest[1..], first.rest[0], TruncatedPps).value;
    PpsPartThatWasRead(first.rest, second);
    sps, pps, trailing := first.nals, second.nals, second.rest;
    SplitAt(config, 6);
    DecodeOfRead(config, first, second);
  }

  /** One of the two loops over parameter sets. */
  method AppendSets(config: seq<byte>, start: nat, count: nat, truncated: BitstreamError, before: seq<byte>)
    returns (r: Result<seq<byte>, BitstreamError>, end: nat)
    requires start <= |config|
    ensures var sets := ReadSets(config[start..], count, truncated);
            if sets.Err? then r == Err(sets.error)
            else r == Ok(before + AnnexBStream(sets.value.nals)) && end <= |config| && config[end..] == sets.value.rest
  {
    var annexB := before;
    end := start;
    ghost var whole := Appended(before, config[start..], count, truncated);
    for i := 0 to count
      invariant start <= end <= |config|
      invariant whole == Appended(annexB, config[end..], count - i, truncated)
    {
      if end + 2 > |config| {
        return Err(TruncatedField), end;
      }
      assert config[end..][..2] == config[end..end + 2];
      var length := FromBE(config[end..end + 2]);
      if end + 2 + length > |config| {
        return Err(truncated), end;
      }
      AppendOne(annexB, config, end, length, count - i, truncated);
      annexB := annexB + START_CODE + config[end + 2..end + 2 + length];
      end := end + 2 + length;
    }
    assert annexB + AnnexBStream([]) == annexB;
    r := Ok(annexB);
  }

  datatype Appending = Appending(annexB: seq<byte>, rest: seq<byte>)

  function Appended(done: seq<byte>, d: seq<byte>, n: nat, truncated: BitstreamError): Result<Appending, BitstreamError> {
    var sets := ReadSets(d, n, truncated);
    if sets.Err? then Err(sets.error) else Ok(Appending(done + AnnexBStream(sets.value.nals), sets.value.rest))
  }

  lemma AppendOne(done: seq<byte>, config: seq<byte>, at: nat, length: nat, n: nat, truncated: BitstreamError)
    requires n > 0 && at + 2 + length <= |config| && length == FromBE(config[at..at + 2])
    ensures Appended(done, config[at..], n, truncated)
         == Appended(done + START_CODE + config[at + 2..at + 2 + length], config[at + 2 + length..], n - 1, truncated)
  {
    assert config[at..][..2] == config[at..at + 2];
    assert config[at..][2..2 + length] == config[at + 2..at + 2 + length];
    assert config[at..][2 + length..] == config[at + 2 + length..];
    var tail := ReadSets(config[at + 2 + length..], n - 1, truncated);
    if tail.Ok? {
      var nal := config[at + 2..at + 2 + length];
      var all := [nal] + tail.value.nals;
      assert all[1..] == tail.value.nals;
      assert done + (START_CODE + nal + AnnexBStream(tail.value.nals))
          == done + START_CODE + nal + AnnexBStream(tail.value.nals);
    }
  }

  method AvccSequenceHeaderToAnnexB(config: seq<byte>) returns (r: Result<Header, BitstreamError>)
    ensures r == DecodeAvcc(config)
  {
    if |config| < 7 {
      return Err(TruncatedConfig);
    }
    if config[0] != 1 {
      return Err(UnexpectedConfigVersion);
    }
    var nalLengthSize := config[4] % 4 + 1;
    var sps, offset := AppendSets(config, 6, config[5] % 32, TruncatedSps, []);
    if sps.Err? {
      return Err(sps.error);
    }
    if offset == |config| {
      return Err(TruncatedPpsCount);
    }
    ghost var spsSets := ReadSets(config[6..], config[5] % 32, TruncatedSps).value;
    assert spsSets.rest[1..] == config[offset + 1..];
    var all, _ := AppendSets(config, offset + 1, config[offset], TruncatedPps, sps.value);
    if all.Err? {
      return Err(all.error);
    }
    ghost var ppsSets := ReadSets(config[offset + 1..], config[offset], TruncatedPps).value;
    AnnexBStreamAppend(spsSets.nals, ppsSets.nals);
    assert [] + AnnexBStream(spsSets.nals) == AnnexBStream(spsSets.nals);
    return Ok(Header(nalLengthSize, all.value));
  }

  // ----- length-prefixed parameter sets

  predicate IsParameterSetType(t: byte) {
    t == 7 || t == 8
  }

  predicate OnlyParameterSets(d: seq<byte>) {
    Types(d) != [] && AllSets(Types(d))
  }

  predicate AllSets(types: seq<byte>) {
    forall i | 0 <= i < |types| :: IsParameterSetType(types[i])
  }

  lemma AllSetsCons(t: byte, types: seq<byte>)
    ensures AllSets([t] + types) <==> IsParameterSetType(t) && AllSets(types)
  {
    var all := [t] + types;
    assert all[0] == t;
    assert forall i | 0 <= i < |types| :: all[i + 1] == types[i];
  }

  /** The rest of the check, when any type seen so far was a parameter set. */
  predicate RestOnlySets(d: seq<byte>, any: bool)
    decreases |d|
  {
    var next := NextType(d);
    if next.nalType.None? then any
    else IsParameterSetType(next.nalType.value) && RestOnlySets(d[next.consumed..], true)
  }

  lemma {:induction false} RestOnlySetsSpec(d: seq<byte>, any: bool)
    ensures RestOnlySets(d, any) <==>
            (any || Types(d) != []) && AllSets(Types(d))
    decreases |d|
  {
    var next := NextType(d);
    if next.nalType.None? {
    } else {
      RestOnlySetsSpec(d[next.consumed..], true);
      AllSetsCons(next.nalType.value, Types(d[next.consumed..]));
    }
  }

  lemma RestAt(d: seq<byte>, here: nat, any: bool)
    requires here <= |d|
    ensures var next := NextType(d[here..]);
            RestOnlySets(d[here..], any) == if next.nalType.None? then any
              else IsParameterSetType(next.nalType.value) && RestOnlySets(d[here + next.consumed..], true)
  {
    var next := NextType(d[here..]);
    assert d[here..][next.consumed..] == d[here + next.consumed..];
  }

  method ContainsOnlyParameterSets(d: seq<byte>) returns (b: bool)
    ensures b == OnlyParameterSets(d)
  {
    b := false;
    var iter := new AnnexBNalTypeIter(d);
    RestOnlySetsSpec(d, false);
    assert d[0..] == d;
    while true
      invariant iter.payload == d && iter.offset <= |d|
      invariant RestOnlySets(d[iter.offset..], b) == OnlyParameterSets(d)
      decreases |d| - iter.offset
    {
      RestAt(d, iter.offset, b);
      var next := iter.MoveNext();
      if next.None? {
        return;
      }
      if !IsParameterSetType(next.value) {
        return false;
      }
      b := true;
    }
  }

  predicate ParsesAt(config: seq<byte>, size: nat) {
    Convert(config, size).Ok? && OnlyParameterSets(Convert(config, size).value)
  }

  /** The largest of 1..top that satisfies p, or zero. */
  function Largest(p: nat -> bool, top: nat): nat {
    if top == 0 then 0 else if p(top) then top else Largest(p, top - 1)
  }

  lemma {:induction false} LargestSpec(p: nat -> bool, top: nat)
    ensures var k := Largest(p, top);
            && k <= top
            && (k > 0 ==> p(k))
            && forall j | k < j <= top :: !p(j)
  {
    if top == 0 {
    } else {
      LargestSpec(p, top - 1);
    }
  }

  function Parses(config: seq<byte>): nat -> bool {
    (k: nat) => ParsesAt(config, k)
  }

  function ParameterSetParse(config: seq<byte>): Option<Header> {
    var size := Largest(Parses(config), 4);
    if size == 0 then None
    else
      LargestSpec(Parses(config), 4);
      Some(Header(size, Convert(config, size).value))
  }

  /** The fallback finds a parse if there is one, and the one with the longest length field. */
  lemma FallbackIsLargest(config: seq<byte>)
    ensures var r := ParameterSetParse(config);
            && (r.None? <==> forall k | 0 < k <= 4 :: !ParsesAt(config, k))
            && (r.Some? ==>
                  && 0 < r.value.nalLengthSize <= 4 && Convert(config, r.value.nalLengthSize) == Ok(r.value.annexB)
                  && OnlyParameterSets(r.value.annexB)
                  && forall k | r.value.nalLengthSize < k <= 4 :: !ParsesAt(config, k))
  {
    var p := Parses(config);
    LargestSpec(p, 4);
    assert forall k: nat | 0 < k <= 4 :: p(k) <==> ParsesAt(config, k);
  }

  method TryLengthPrefixedParameterSets(config: seq<byte>) returns (r: Option<Header>)
    ensures r == ParameterSetParse(config)
  {
    var size := 4;
    ghost var p := Parses(config);
    while size > 0
      invariant 0 <= size <= 4
      invariant Largest(p, 4) == Largest(p, size)
    {
      assert p(size) <==> ParsesAt(config, size);
      var annexB := LengthPrefixedToAnnexB(config, size);
      if annexB.Ok? {
        var only := ContainsOnlyParameterSets(annexB.value);
        if only {
          return Some(Header(size, annexB.value));
        }
      }
      size := size - 1;
    }
    return None;
  }

  lemma ConvertOfGood(nals: seq<Nal>, size: nat)
    requires GoodNals(nals) && 1 <= size <= 4 && LengthsFit(nals, size)
    ensures Convert(LengthPrefixed(nals, size), size) == Ok(AnnexBStream(nals))
  {
    SplitLengthPrefixed(nals, size);
    NonEmptyOfNonEmpty(nals);
  }

  /** Parameter sets framed with four-byte lengths come out as themselves. */
  lemma FourByteParameterSets(nals: seq<Nal>)
    requires GoodNals(nals) && LengthsFit(nals, 4)
    requires forall i | 0 <= i < |nals| :: IsParameterSetType(NalType(nals[i]))
    ensures ParameterSetParse(LengthPrefixed(nals, 4)) == Some(Header(4, AnnexBStream(nals)))
  {
    ConvertOfGood(nals, 4);
    TypesOfGood(nals);
    assert OnlyParameterSets(AnnexBStream(nals));
    assert Parses(LengthPrefixed(nals, 4))(4);
  }

  // ----- all three formats

  function SequenceHeaderToAnnexB(config: seq<byte>): Result<Header, BitstreamError> {
    if LooksLikeAnnexB(config) then Ok(Header(4, config))
    else if |config| > 0 && config[0] == 1 then DecodeAvcc(config)
    else
      var r := ParameterSetParse(config);
      if r.Some? then Ok(r.value) else Err(UnsupportedConfig)
  }

  method H264SequenceHeaderToAnnexB(config: seq<byte>) returns (r: Result<Header, BitstreamError>)
    ensures r == SequenceHeaderToAnnexB(config)
  {
    if LooksLikeAnnexB(config) {
      return Ok(Header(4, config));
    }
    if |config| > 0 && config[0] == 1 {
      r := AvccSequenceHeaderToAnnexB(config);
      return;
    }
    var parsed := TryLengthPrefixedParameterSets(config);
    if parsed.Some? {
      return Ok(parsed.value);
    }
    return Err(UnsupportedConfig);
  }

  // ----- which headers each format catches, and misreads

  /** A record always reaches its own decoder. */
  lemma RecordComesOut(lead: seq<byte>, sps: seq<Nal>, pps: seq<Nal>, trailing: seq<byte>)
    requires ValidLead(lead, sps) && |pps| < 256 && LengthsFit(sps, 2) && LengthsFit(pps, 2)
    ensures SequenceHeaderToAnnexB(Record(lead, sps, pps, trailing))
         == Ok(Header(lead[4] % 4 + 1, AnnexBStream(sps + pps)))
  {
    var config := Record(lead, sps, pps, trailing);
    assert config[0] == lead[0];
    DecodeOfRecord(lead, sps, pps, trailing);
  }

  /** A stream of short units is never that of a list whose first unit is long. */
  lemma ShortUnitsDiffer(xs: seq<Nal>, nals: seq<Nal>)
    requires nals != [] && GoodNal(nals[0]) && |nals[0]| >= 0x1_0004
    requires LengthsFit(xs, 2)
    ensures AnnexBStream(xs) != AnnexBStream(nals)
  {
    FieldWidths();
    if xs != [] {
      var x, n := xs[0], nals[0];
      var rest := AnnexBStream(xs[1..]);
      assert |x| < 0x1_0000;
      if xs[1..] == [] {
        assert |AnnexBStream(xs)| == 4 + |x|;
      } else {
        StartsWithCode(xs[1..]);
        CodeInside(x, rest, n, AnnexBStream(nals[1..]));
      }
    }
  }

  lemma StartsWithCode(nals: seq<Nal>)
    requires nals != []
    ensures START_CODE <= AnnexBStream(nals)
  {}

  /** A start code behind a short unit would lie inside the long one. */
  lemma CodeInside(x: Nal, rest: seq<byte>, n: Nal, tail: seq<byte>)
    requires START_CODE <= rest && !ContainsStartCode(n) && |x| + 4 <= |n|
    ensures START_CODE + x + rest != START_CODE + n + tail
  {
    var d := START_CODE + x + rest;
    var k := |x| + 1;
    Parts(START_CODE, x, rest);
    assert d[4 + |x|..][..4] == START_CODE;
    assert d[4 + k] == 0 && d[4 + k + 1] == 0 && d[4 + k + 2] == 1;
    var e := START_CODE + n + tail;
    assert e[4 + k] == n[k] && e[4 + k + 1] == n[k + 1] && e[4 + k + 2] == n[k + 2];
    assert !IsShortCode(n, k);
  }

  /** Read as a record, a list with a very long first unit does not come out as itself. */
  lemma MisreadAsRecord(config: seq<byte>, nals: seq<Nal>)
    requires nals != [] && GoodNal(nals[0]) && |nals[0]| >= 0x1_0004
    ensures DecodeAvcc(config) != Ok(Header(4, AnnexBStream(nals)))
  {
    if DecodeAvcc(config).Ok? {
      var sps, pps, trailing := RecordOfDecoded(config);
      ShortUnitsDiffer(sps + pps, nals);
    }
  }

  /** The first length field, and which format its bytes look like. */
  lemma FirstLengthByte(nals: seq<Nal>)
    requires nals != [] && LengthsFit(nals, 4)
    ensures |LengthPrefixed(nals, 4)| >= 4
    ensures LengthPrefixed(nals, 4)[0] == |nals[0]| / 0x100_0000
  {
    FieldWidths();
    var f := FourBytes(|nals[0]|);
    Parts(f, nals[0], LengthPrefixed(nals[1..], 4));
  }

  /**
   * Exactly which parameter sets behind four-byte lengths come out as themselves: all but those
   * whose first set has one byte or 256 to 511 bytes, which are returned raw as an Annex-B
   * stream (the same bytes when all sets have one byte), or 2^24 to 2^25 - 1 bytes, which are
   * read as a record.
   */
  lemma FourByteHeaderExact(nals: seq<Nal>)
    requires GoodNals(nals) && LengthsFit(nals, 4)
    requires forall i | 0 <= i < |nals| :: IsParameterSetType(NalType(nals[i]))
    ensures var n := |nals[0]|;
            SequenceHeaderToAnnexB(LengthPrefixed(nals, 4)) == Ok(Header(4, AnnexBStream(nals)))
            <==> !(n == 1 || 256 <= n <= 511 || 0x100_0000 <= n < 0x200_0000) || AllOneByte(nals)
  {
    var config := LengthPrefixed(nals, 4);
    LooksLikeAnnexBSpec(nals);
    FirstLengthByte(nals);
    SameFramings(nals);
    FourByteParameterSets(nals);
    if 0x100_0000 <= |nals[0]| < 0x200_0000 {
      MisreadAsRecord(config, nals);
    }
  }
}
