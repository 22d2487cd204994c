/** The host's NAL type iterator, and where it agrees with the client's scanner. */
module NalTypes {
  import opened Wrappers
  import opened Bytes
  import opened AnnexB
  import opened AnnexBScanner

  /** What one call of the iterator yields, and how far it moves. */
  datatype Next = Next(nalType: Option<byte>, consumed: nat)

  function NextType(d: seq<byte>): (n: Next)
    ensures n.consumed <= |d|
    ensures n.nalType.Some? ==> n.consumed > 0
  {
    if |d| <= 3 then Next(None, 0)
    else if [0, 0, 1] <= d then Next(Some(d[3] % 32), 3)
    else if START_CODE <= d then Next(if |d| > 4 then Some(d[4] % 32) else None, 4)
    else
      var n := NextType(d[1..]);
      Next(n.nalType, n.consumed + 1)
  }

  /** Everything a fresh iterator yields before it first yields nothing. */
  function Types(d: seq<byte>): seq<byte>
    decreases |d|
  {
    var n := NextType(d);
    if n.nalType.None? then [] else [n.nalType.value] + Types(d[n.consumed..])
  }

  class AnnexBNalTypeIter {
    const payload: seq<byte>
    var offset: nat

    constructor (p: seq<byte>)
      ensures payload == p && offset == 0
    {
      payload := p;
      offset := 0;
    }

    method MoveNext() returns (nalType: Option<byte>)
      requires offset <= |payload|
      modifies this
      ensures offset == old(offset) + NextType(payload[old(offset)..]).consumed <= |payload|
      ensures nalType == NextType(payload[old(offset)..]).nalType
    {
      ghost var rest := payload[offset..];
      while offset + 3 < |payload|
        invariant old(offset) <= offset <= |payload|
        invariant NextType(rest).nalType == NextType(payload[offset..]).nalType
        invariant old(offset) + NextType(rest).consumed == offset + NextType(payload[offset..]).consumed
      {
        if [0, 0, 1] <= payload[offset..] {
          nalType := Some(payload[offset + 3] % 32);
          offset := offset + 3;
          return;
        }
        if START_CODE <= payload[offset..] {
          nalType := if offset + 4 < |payload| then Some(payload[offset + 4] % 32) else None;
          offset := offset + 4;
          return;
        }
        assert payload[offset..][1..] == payload[offset + 1..];
        offset := offset + 1;
      }
      nalType := None;
    }
  }

  method CollectTypes(d: seq<byte>) returns (types: seq<byte>)
    ensures types == Types(d)
  {
    types := [];
    var iter := new AnnexBNalTypeIter(d);
    assert d[0..] == d;
    while true
      invariant iter.payload == d && iter.offset <= |d|
      invariant Types(d) == types + Types(d[iter.offset..])
      decreases |d| - iter.offset
    {
      ghost var here := iter.offset;
      var next := iter.MoveNext();
      assert d[here..][NextType(d[here..]).consumed..] == d[iter.offset..];
      if next.None? {
        assert types + [] == types;
        return;
      }
      types := types + [next.value];
    }
  }

  // ----- agreement with the client's scanner

  /** The type in the first byte of a NAL unit. */
  function NalType(nal: Nal): byte {
    if nal == [] then 0 else nal[0] % 32
  }

  /** The type is the low five bits: the reference bits and the forbidden bit above it do not matter. */
  lemma TypeIsLowBits(nal: Nal, high: nat, low: nat)
    requires nal != [] && low < 32 && nal[0] == high * 32 + low
    ensures NalType(nal) == low
    ensures NextType(START_CODE + nal).nalType == Some(low)
  {
    var d := START_CODE + nal;
    assert d[4] == nal[0] && d[2] == 0 && d[..4] == START_CODE && START_CODE <= d;
    LowBits(high, low);
  }

  lemma LowBits(high: nat, low: nat)
    requires low < 32
    ensures (high * 32 + low) % 32 == low
  {}

  function HeaderTypes(nals: seq<Nal>): seq<byte> {
    seq(|nals|, i requires 0 <= i < |nals| => NalType(nals[i]))
  }

  function ScannedTypes(d: seq<byte>): seq<byte> {
    HeaderTypes(Scan(d))
  }

  /** Somewhere a start code is followed directly by another start code. */
  ghost predicate HasDoubledCode(d: seq<byte>) {
    exists i :: 0 <= i <= |d| && DoubledAt(d, i)
  }

  predicate DoubledAt(d: seq<byte>, i: nat)
    requires i <= |d|
  {
    var n := StartCodeLength(d[i..]);
    n > 0 && StartCodeLength(d[i + n..]) > 0
  }

  lemma DoubledTail(d: seq<byte>, k: nat, i: nat)
    requires k <= |d| && i <= |d| - k
    ensures DoubledAt(d[k..], i) <==> DoubledAt(d, k + i)
  {
    assert d[k..][i..] == d[k + i..];
    var n := StartCodeLength(d[k + i..]);
    assert d[k..][i + n..] == d[k + i + n..];
  }

  /** Looking for doubled codes along the scan finds all of them. */
  lemma DoubledAlongScan(d: seq<byte>)
    requires |d| > 0
    ensures StartCodeLength(d) == 0 ==> (HasDoubledCode(d) <==> HasDoubledCode(d[1..]))
    ensures StartCodeLength(d) > 0 ==>
              var body := d[StartCodeLength(d)..];
              HasDoubledCode(d) <==> StartCodeLength(body) > 0 || HasDoubledCode(body[Span(body)..])
  {
    if StartCodeLength(d) == 0 {
      assert d[0..] == d;
      DoubledSuffix(d, 1);
      assert !DoubledAt(d, 0);
    } else {
      DoubledAtCode(d, StartCodeLength(d));
    }
  }

  lemma DoubledAtCode(d: seq<byte>, n: nat)
    requires n == StartCodeLength(d) > 0
    ensures var body := d[n..];
            HasDoubledCode(d) <==> StartCodeLength(body) > 0 || HasDoubledCode(body[Span(body)..])
  {
    var body := d[n..];
    var k := n + Span(body);
    Suffixes(d, n, k);
    DoubledSuffix(d, k);
    assert DoubledAt(d, 0) <==> StartCodeLength(body) > 0;
    forall i | 0 < i < k
      ensures DoubledAt(d, i) ==> StartCodeLength(body) > 0
    {
      DoubledInFront(d, n, i);
    }
  }

  lemma Suffixes(d: seq<byte>, n: nat, k: nat)
    requires n <= k <= |d|
    ensures d[0..] == d && d[n..][k - n..] == d[k..]
  {}

  lemma DoubledInFront(d: seq<byte>, n: nat, i: nat)
    requires n == StartCodeLength(d) && 0 < i < n + Span(d[n..])
    ensures DoubledAt(d, i) ==> StartCodeLength(d[n..]) > 0
  {
    if i < n {
      InsideCode(d, n, i);
    } else {
      NoCodeBefore(d[n..], i - n);
      Suffixes(d, n, i);
    }
  }

  /** The only start code that begins inside another is the short one at the end of a long one. */
  lemma InsideCode(d: seq<byte>, n: nat, i: nat)
    requires n == StartCodeLength(d) && 0 < i < n
    ensures DoubledAt(d, i) ==> StartCodeLength(d[n..]) > 0
  {
    assert d[i..][0] == d[i];
    if StartCodeLength(d[i..]) > 0 {
      assert n == 4 && i == 1;
      assert d[i + 3..] == d[n..];
    }
  }

  /** Doubled codes of d are those in its first k positions and those of its suffix. */
  lemma DoubledSuffix(d: seq<byte>, k: nat)
    requires k <= |d|
    ensures HasDoubledCode(d) <==> HasDoubledCode(d[k..]) || exists i :: 0 <= i < k && DoubledAt(d, i)
  {
    forall i | 0 <= i <= |d| - k
      ensures DoubledAt(d[k..], i) <==> DoubledAt(d, k + i)
    {
      DoubledTail(d, k, i);
    }
    if HasDoubledCode(d) {
      var i :| 0 <= i <= |d| && DoubledAt(d, i);
      if i >= k {
        assert DoubledAt(d[k..], i - k);
      }
    }
  }

  lemma {:induction false} TypesSkipSpan(d: seq<byte>)
    ensures Types(d) == Types(d[Span(d)..])
  {
    if |d| > 0 && StartCodeLength(d) == 0 {
      TypesSkipSpan(d[1..]);
      assert d[1..][Span(d[1..])..] == d[Span(d)..];
      TypesSkipOne(d);
    } else {
      assert d[0..] == d;
    }
  }

  lemma TypesSkipOne(d: seq<byte>)
    requires |d| > 0 && StartCodeLength(d) == 0
    ensures Types(d) == Types(d[1..])
  {
    if |d| > 3 {
      var n := NextType(d[1..]);
      assert d[n.consumed + 1..] == d[1..][n.consumed..];
    }
  }

  lemma TypesAtCode(d: seq<byte>)
    requires StartCodeLength(d) > 0
    ensures var body := d[StartCodeLength(d)..];
            Types(d) == (if body == [] then [] else [body[0] % 32]) + Types(body[Span(body)..])
  {
    var body := d[StartCodeLength(d)..];
    TypesSkipSpan(body);
  }

  lemma HeaderTypesCons(nal: Nal, rest: seq<Nal>)
    ensures HeaderTypes([nal] + rest) == [NalType(nal)] + HeaderTypes(rest)
  {
  }

  lemma ScannedTypesAtCode(d: seq<byte>)
    requires StartCodeLength(d) > 0
    ensures var body := d[StartCodeLength(d)..];
            ScannedTypes(d) == (if Span(body) == 0 then [] else [body[0] % 32]) + ScannedTypes(body[Span(body)..])
  {
    var body := d[StartCodeLength(d)..];
    var rest := Scan(body[Span(body)..]);
    if Span(body) > 0 {
      HeaderTypesCons(body[..Span(body)], rest);
    } else {
      assert Scan(d) == rest;
    }
  }

  lemma {:induction false} CompareTypes(d: seq<byte>)
    ensures !HasDoubledCode(d) ==> Types(d) == ScannedTypes(d)
    ensures |Types(d)| >= |ScannedTypes(d)|
    ensures HasDoubledCode(d) ==> |Types(d)| > |ScannedTypes(d)|
    decreases |d|
  {
    if |d| == 0 {
      assert !DoubledAt(d, 0);
    } else if StartCodeLength(d) == 0 {
      DoubledAlongScan(d);
      TypesSkipOne(d);
      CompareTypes(d[1..]);
    } else {
      var body := d[StartCodeLength(d)..];
      DoubledAlongScan(d);
      TypesAtCode(d);
      ScannedTypesAtCode(d);
      CompareTypes(body[Span(body)..]);
    }
  }

  /**
   * The host's iterator yields exactly the types of the NAL units the client scans if and only
   * if no start code is followed directly by another one.
   */
  lemma IteratorAgreesWithScanner(d: seq<byte>)
    ensures Types(d) == ScannedTypes(d) <==> !HasDoubledCode(d)
  {
    CompareTypes(d);
  }

  lemma TypesFront(nal: Nal, rest: seq<byte>)
    requires GoodNal(nal) && (rest == [] || START_CODE <= rest)
    ensures Types(START_CODE + nal + rest) == [NalType(nal)] + Types(rest)
  {
    var d := START_CODE + nal + rest;
    assert d[4..] == nal + rest;
    SpanOfNal(nal, rest);
    assert (nal + rest)[|nal|..] == rest;
    TypesAtCode(d);
  }

  /** On the framing of well-formed NAL units the iterator yields their types. */
  lemma {:induction false} TypesOfGood(nals: seq<Nal>)
    requires forall i | 0 <= i < |nals| :: GoodNal(nals[i])
    ensures Types(AnnexBStream(nals)) == HeaderTypes(nals)
  {
    if |nals| == 0 {
    } else {
      TypesFront(nals[0], AnnexBStream(nals[1..]));
      TypesOfGood(nals[1..]);
      HeaderTypesCons(nals[0], nals[1..]);
      assert [nals[0]] + nals[1..] == nals;
    }
  }
}
