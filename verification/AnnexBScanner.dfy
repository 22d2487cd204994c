/** The client's start-code scanner, and its round trip with the host's conversion. */
module AnnexBScanner {
  import opened Wrappers
  import opened Bytes
  import opened AnnexB

  /** The length of the start code at the front of d, or zero when there is none. */
  function StartCodeLength(d: seq<byte>): (n: nat)
    ensures n == 0 || n == 3 || n == 4
    ensures n <= |d|
  {
    if |d| < 3 then 0
    else if d[0] != 0 || d[1] != 0 then 0
    else if d[2] == 1 then 3
    else if |d| < 4 then 0
    else if d[2] == 0 && d[3] == 1 then 4 else 0
  }

  /** How many bytes come before the next start code, or before the end. */
  function Span(d: seq<byte>): (n: nat)
    ensures n <= |d|
    ensures n == |d| || StartCodeLength(d[n..]) > 0
  {
    if |d| == 0 || StartCodeLength(d) > 0 then 0 else 1 + Span(d[1..])
  }

  function Scan(d: seq<byte>): seq<Nal>
    decreases |d|
  {
    if |d| == 0 then []
    else if StartCodeLength(d) == 0 then Scan(d[1..])
    else
      var body := d[StartCodeLength(d)..];
      var n := Span(body);
      (if n > 0 then [body[..n]] else []) + Scan(body[n..])
  }

  datatype ScanError = MissingNalUnits

  method FindNalEnd(d: seq<byte>, nalStart: nat) returns (nalEnd: nat)
    requires nalStart <= |d|
    ensures nalEnd == nalStart + Span(d[nalStart..])
  {
    nalEnd := nalStart;
    while nalEnd < |d| && StartCodeLength(d[nalEnd..]) == 0
      invariant nalStart <= nalEnd <= |d|
      invariant forall k | nalStart <= k < nalEnd :: StartCodeLength(d[k..]) == 0
    {
      nalEnd := nalEnd + 1;
    }
    SpanIsFirst(d, nalStart, nalEnd);
  }

  lemma SpanStep(d: seq<byte>, start: nat)
    requires start < |d| && StartCodeLength(d[start..]) == 0
    ensures Span(d[start..]) == 1 + Span(d[start + 1..])
  {
    assert d[start..][1..] == d[start + 1..];
  }

  lemma {:induction false} SpanIsFirst(d: seq<byte>, start: nat, end: nat)
    requires start <= end <= |d|
    requires forall k | start <= k < end :: StartCodeLength(d[k..]) == 0
    requires end == |d| || StartCodeLength(d[end..]) > 0
    ensures end == start + Span(d[start..])
    decreases end - start
  {
    if start == end {
    } else {
      SpanIsFirst(d, start + 1, end);
      SpanStep(d, start);
    }
  }

  function Unit(d: seq<byte>, nalStart: nat, nalEnd: nat): seq<Nal>
    requires nalStart <= nalEnd <= |d|
  {
    if nalStart < nalEnd then [d[nalStart..nalEnd]] else []
  }

  /** One turn of the scanning loop at a start code. */
  lemma ScanOne(d: seq<byte>, index: nat, nalStart: nat, nalEnd: nat)
    requires index < |d| && StartCodeLength(d[index..]) > 0
    requires nalStart == index + StartCodeLength(d[index..]) && nalEnd == nalStart + Span(d[nalStart..])
    ensures Scan(d[index..]) == Unit(d, nalStart, nalEnd) + Scan(d[nalEnd..])
  {
    var n := Span(d[nalStart..]);
    assert d[index..][StartCodeLength(d[index..])..] == d[nalStart..];
    assert d[nalStart..][..n] == d[nalStart..nalEnd];
    assert d[nalStart..][n..] == d[nalEnd..];
  }

  lemma ScanSkip(d: seq<byte>, index: nat)
    requires index < |d| && StartCodeLength(d[index..]) == 0
    ensures Scan(d[index..]) == Scan(d[index + 1..])
  {
    assert d[index..][1..] == d[index + 1..];
  }

  method ParseAnnexBNalUnits(d: seq<byte>) returns (r: Result<seq<Nal>, ScanError>)
    ensures r == if Scan(d) == [] then Err(MissingNalUnits) else Ok(Scan(d))
  {
    var nals: seq<Nal> := [];
    var index := 0;
    ghost var all := Scan(d);
    assert d[0..] == d;
    while index < |d|
      invariant 0 <= index <= |d|
      invariant all == nals + Scan(d[index..])
    {
      var startCodeLength := StartCodeLength(d[index..]);
      if startCodeLength == 0 {
        ScanSkip(d, index);
        index := index + 1;
        continue;
      }
      var nalStart := index + startCodeLength;
      var nalEnd := FindNalEnd(d, nalStart);
      ScanOne(d, index, nalStart, nalEnd);
      Associative(nals, Unit(d, nalStart, nalEnd), Scan(d[nalEnd..]));
      if nalStart < nalEnd {
        nals := nals + [d[nalStart..nalEnd]];
      } else {
        assert nals + [] == nals;
      }
      index := nalEnd;
    }
    assert d[index..] == [] && nals + [] == nals;
    if |nals| == 0 {
      return Err(MissingNalUnits);
    }
    return Ok(nals);
  }

  /** The client's re-framing for the decoder: four-byte lengths. */
  method MakeLengthPrefixedSample(nals: seq<Nal>) returns (sample: seq<byte>)
    ensures sample == LengthPrefixed(nals, 4)
  {
    sample := [];
    for i := 0 to |nals|
      invariant LengthPrefixed(nals, 4) == sample + LengthPrefixed(nals[i..], 4)
    {
      PrefixedFrom(nals, i, sample);
      sample := sample + ToBE(|nals[i]|, 4) + nals[i];
    }
  }

  lemma PrefixedFrom(nals: seq<Nal>, i: nat, done: seq<byte>)
    requires i < |nals|
    ensures done + LengthPrefixed(nals[i..], 4)
         == done + ToBE(|nals[i]|, 4) + nals[i] + LengthPrefixed(nals[i + 1..], 4)
  {
    assert nals[i..][1..] == nals[i + 1..];
    RegroupBytes(done, ToBE(|nals[i]|, 4), nals[i], LengthPrefixed(nals[i + 1..], 4));
  }

  lemma RegroupBytes(a: seq<byte>, b: seq<byte>, c: seq<byte>, d: seq<byte>)
    ensures a + (b + c + d) == a + b + c + d
  {}

  // ----- the round trip

  ghost predicate ContainsStartCode(d: seq<byte>) {
    exists i :: 0 <= i && i + 3 <= |d| && IsShortCode(d, i)
  }

  predicate IsShortCode(d: seq<byte>, i: nat)
    requires i + 3 <= |d|
  {
    d[i] == 0 && d[i + 1] == 0 && d[i + 2] == 1
  }

  /** A NAL unit as an encoder emits it: not empty, and with start codes escaped. */
  ghost predicate GoodNal(nal: Nal) {
    nal != [] && !ContainsStartCode(nal)
  }

  ghost predicate GoodNals(nals: seq<Nal>) {
    nals != [] && forall i | 0 <= i < |nals| :: GoodNal(nals[i])
  }

  lemma NoCodeInside(nal: Nal, rest: seq<byte>)
    requires nal != [] && !ContainsStartCode(nal) && (rest == [] || START_CODE <= rest)
    ensures StartCodeLength(nal + rest) == 0
  {
    var d := nal + rest;
    if |nal| >= 3 {
      assert !IsShortCode(nal, 0);
    }
    if |nal| >= 4 {
      assert !IsShortCode(nal, 1);
    }
  }

  lemma TailHasNoCode(nal: Nal)
    requires nal != [] && !ContainsStartCode(nal)
    ensures !ContainsStartCode(nal[1..])
  {
    forall i | 0 <= i && i + 3 <= |nal[1..]|
      ensures !IsShortCode(nal[1..], i)
    {
      assert !IsShortCode(nal, i + 1);
    }
  }

  lemma {:induction false} SpanOfNal(nal: Nal, rest: seq<byte>)
    requires !ContainsStartCode(nal) && (rest == [] || START_CODE <= rest)
    ensures Span(nal + rest) == |nal|
  {
    if |nal| == 0 {
      assert nal + rest == rest;
    } else {
      NoCodeInside(nal, rest);
      TailHasNoCode(nal);
      assert (nal + rest)[1..] == nal[1..] + rest;
      SpanOfNal(nal[1..], rest);
    }
  }

  lemma ScanFront(nal: Nal, rest: seq<byte>)
    requires GoodNal(nal) && (rest == [] || START_CODE <= rest)
    ensures Scan(START_CODE + nal + rest) == [nal] + Scan(rest)
  {
    var d := START_CODE + nal + rest;
    Parts(START_CODE, nal, rest);
    Parts(nal, rest, []);
    assert d[4..] == nal + rest && d[..4] == START_CODE;
    assert nal + rest + [] == nal + rest;
    SpanOfNal(nal, rest);
    ScanUnit(d, nal, rest);
  }

  lemma ScanUnit(d: seq<byte>, nal: Nal, rest: seq<byte>)
    requires StartCodeLength(d) == 4 && nal != []
    requires var body := d[4..]; Span(body) == |nal| && body[..|nal|] == nal && body[|nal|..] == rest
    ensures Scan(d) == [nal] + Scan(rest)
  {}

  lemma {:induction false} ScanOfGood(nals: seq<Nal>)
    requires forall i | 0 <= i < |nals| :: GoodNal(nals[i])
    ensures Scan(AnnexBStream(nals)) == nals
  {
    if |nals| == 0 {
    } else {
      ScanFront(nals[0], AnnexBStream(nals[1..]));
      ScanOfGood(nals[1..]);
    }
  }

  // ----- units in front of any stream

  /** A unit that does not end in a zero byte, as the standard demands of every NAL unit. */
  ghost predicate EndedNal(nal: Nal) {
    GoodNal(nal) && nal[|nal| - 1] != 0
  }

  lemma NoCodeAtEnd(nal: Nal, rest: seq<byte>)
    requires EndedNal(nal)
    ensures StartCodeLength(nal + rest) == 0
  {
    if |nal| >= 3 {
      assert !IsShortCode(nal, 0);
    }
    if |nal| >= 4 {
      assert !IsShortCode(nal, 1);
    }
  }

  lemma {:induction false} SpanOfEnded(nal: Nal, rest: seq<byte>)
    requires EndedNal(nal) && StartCodeLength(rest) > 0
    ensures Span(nal + rest) == |nal|
  {
    NoCodeAtEnd(nal, rest);
    assert (nal + rest)[1..] == nal[1..] + rest;
    if |nal| == 1 {
      assert nal[1..] + rest == rest;
    } else {
      TailHasNoCode(nal);
      SpanOfEnded(nal[1..], rest);
    }
  }

  lemma EndedFront(nal: Nal, rest: seq<byte>)
    requires EndedNal(nal) && StartCodeLength(rest) > 0
    ensures Scan(START_CODE + nal + rest) == [nal] + Scan(rest)
    ensures StartCodeLength(START_CODE + nal + rest) == 4
  {
    var d := START_CODE + nal + rest;
    Parts(START_CODE, nal, rest);
    Parts(nal, rest, []);
    assert d[4..] == nal + rest && d[..4] == START_CODE;
    assert nal + rest + [] == nal + rest;
    SpanOfEnded(nal, rest);
    ScanUnit(d, nal, rest);
  }

  /** Units that end properly are scanned as themselves in front of any stream, with either start code. */
  lemma {:induction false} ScanBehind(nals: seq<Nal>, rest: seq<byte>)
    requires (forall i | 0 <= i < |nals| :: EndedNal(nals[i])) && StartCodeLength(rest) > 0
    ensures Scan(AnnexBStream(nals) + rest) == nals + Scan(rest)
    ensures StartCodeLength(AnnexBStream(nals) + rest) > 0
  {
    if |nals| == 0 {
      assert AnnexBStream(nals) + rest == rest;
    } else {
      var tail := AnnexBStream(nals[1..]) + rest;
      ScanBehind(nals[1..], rest);
      EndedFront(nals[0], tail);
      Regrouped(START_CODE, nals[0], AnnexBStream(nals[1..]), rest);
      Associative([nals[0]], nals[1..], Scan(rest));
      assert [nals[0]] + nals[1..] == nals;
    }
  }

  /** Whatever the bytes, the scanner returns only units an encoder could have emitted. */
  lemma {:induction false} ScannedAreGood(d: seq<byte>)
    ensures forall i | 0 <= i < |Scan(d)| :: GoodNal(Scan(d)[i])
    decreases |d|
  {
    if |d| == 0 {
    } else {
      if StartCodeLength(d) == 0 {
        ScannedAreGood(d[1..]);
      } else {
        var body := d[StartCodeLength(d)..];
        SpanHasNoCode(body);
        ScannedAreGood(body[Span(body)..]);
      }
    }
  }

  lemma SpanHasNoCode(d: seq<byte>)
    ensures !ContainsStartCode(d[..Span(d)])
  {
    forall i | 0 <= i && i + 3 <= Span(d)
      ensures !IsShortCode(d[..Span(d)], i)
    {
      NoCodeBefore(d, i);
    }
  }

  lemma {:induction false} NoCodeBefore(d: seq<byte>, i: nat)
    requires i < Span(d)
    ensures StartCodeLength(d[i..]) == 0
  {
    if i == 0 {
    } else {
      NoCodeBefore(d[1..], i - 1);
      assert d[1..][i - 1..] == d[i..];
    }
  }

  /**
   * The round trip: scanning the Annex-B framing of a list of NAL units gives back that list,
   * trailing zero bytes included, exactly when each is non-empty and free of start codes.
   */
  lemma RoundTrip(nals: seq<Nal>)
    ensures Scan(AnnexBStream(nals)) == nals <==> forall i | 0 <= i < |nals| :: GoodNal(nals[i])
  {
    ScannedAreGood(AnnexBStream(nals));
    if forall i | 0 <= i < |nals| :: GoodNal(nals[i]) {
      ScanOfGood(nals);
    }
  }
}
