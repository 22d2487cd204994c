/** Signed resume tokens, over an abstract MAC and abstract serialization. */
module ResumeTokens {
  import opened Wrappers
  import opened Bytes
  import opened Sessions

  /** The libraries: a MAC, a serializer for claims, and the text encoding of bytes. */
  datatype Codec = Codec(
    mac: (seq<byte>, seq<byte>) -> seq<byte>,
    serialize: Claims -> seq<byte>,
    parse: seq<byte> -> Option<Claims>,
    encode: seq<byte> -> string,
    decode: string -> Option<seq<byte>>)

  /** What is needed of them: both encodings can be undone, and the text one never writes a dot. */
  ghost predicate Lawful(c: Codec) {
    && (forall claims: Claims :: c.parse(c.serialize(claims)) == Some(claims))
    && (forall bytes: seq<byte> :: c.decode(c.encode(bytes)) == Some(bytes) && '.' !in c.encode(bytes))
  }

  datatype Service = Service(secret: seq<byte>, ttlSecs: u64)

  datatype TokenError =
    | MissingSeparator
    | BadPayloadEncoding
    | BadSignatureEncoding
    | SignatureMismatch
    | BadPayload
    | Expired

  datatype Issued = Issued(token: string, claims: Claims)

  /** The text before and behind the first dot. */
  function SplitOnce(s: string): (r: Option<(string, string)>)
    ensures r.Some? ==> s == r.value.0 + ['.'] + r.value.1
  {
    if |s| == 0 then None
    else if s[0] == '.' then Some(([], s[1..]))
    else
      var r := SplitOnce(s[1..]);
      if r.None? then None else Some(([s[0]] + r.value.0, r.value.1))
  }

  function Issue(c: Codec, service: Service, id: SessionId, nonce: Nonce, now: u64): Issued {
    var claims := Claims(id, Later(now, service.ttlSecs), nonce);
    var payload := c.serialize(claims);
    Issued(c.encode(payload) + ['.'] + c.encode(c.mac(service.secret, payload)), claims)
  }

  function Validate(c: Codec, service: Service, token: string, now: u64): Result<Claims, TokenError> {
    var parts := SplitOnce(token);
    if parts.None? then Err(MissingSeparator)
    else
      var payload, signature := c.decode(parts.value.0), c.decode(parts.value.1);
      if payload.None? then Err(BadPayloadEncoding)
      else if signature.None? then Err(BadSignatureEncoding)
      else if signature.value != c.mac(service.secret, payload.value) then Err(SignatureMismatch)
      else
        var claims := c.parse(payload.value);
        if claims.None? then Err(BadPayload)
        else if claims.value.expiresAt <= now then Err(Expired)
        else Ok(claims.value)
  }

  lemma {:induction false} SplitAtDot(a: string, b: string)
    requires '.' !in a
    ensures SplitOnce(a + ['.'] + b) == Some((a, b))
  {
    var s := a + ['.'] + b;
    if |a| == 0 {
      assert s[1..] == b;
    } else {
      assert s[0] == a[0] && s[1..] == a[1..] + ['.'] + b;
      SplitAtDot(a[1..], b);
      assert [a[0]] + a[1..] == a;
    }
  }

  /** An issued token validates to its own claims until it expires, and not from then on. */
  lemma IssuedValidates(c: Codec, service: Service, id: SessionId, nonce: Nonce, issuedAt: u64, now: u64)
    requires Lawful(c)
    ensures var issued := Issue(c, service, id, nonce, issuedAt);
            Validate(c, service, issued.token, now)
            == if now < Later(issuedAt, service.ttlSecs) then Ok(issued.claims) else Err(Expired)
  {
    var payload := c.serialize(Issue(c, service, id, nonce, issuedAt).claims);
    SplitAtDot(c.encode(payload), c.encode(c.mac(service.secret, payload)));
  }

  /** Whatever validates carries a MAC under the service's own secret over exactly its claims. */
  lemma ValidatedIsSigned(c: Codec, service: Service, token: string, now: u64)
    requires Validate(c, service, token, now).Ok?
    ensures exists a: string, b: string, payload: seq<byte> ::
              && token == a + ['.'] + b && c.decode(a) == Some(payload)
              && c.decode(b) == Some(c.mac(service.secret, payload))
              && c.parse(payload) == Some(Validate(c, service, token, now).value)
              && now < Validate(c, service, token, now).value.expiresAt
  {
    var parts := SplitOnce(token).value;
    var payload := c.decode(parts.0).value;
    assert token == parts.0 + ['.'] + parts.1 && c.decode(parts.0) == Some(payload);
  }

  // ----- the life of a token, over every run of the session table

  /** Event j is an accepted resume of the session. */
  predicate ResumedAt(ttl: u64, run: seq<Event>, j: nat, id: SessionId) {
    j < |run| && AcceptedAt(ttl, run, j) && run[j].claims.sessionId == id
  }

  /** A resume of the session was accepted after event i. */
  ghost predicate ResumedSince(ttl: u64, run: seq<Event>, i: nat, id: SessionId) {
    exists j :: i < j && ResumedAt(ttl, run, j, id)
  }

  lemma NonceStep(ttl: u64, t: Table, e: Event, id: SessionId, nonce: Nonce)
    requires id in t && !(e.Create? && e.id == id) && Drawn(e) != Some(nonce)
    ensures id in Step(ttl, t, e)
    ensures var before, after := t[id], Step(ttl, t, e)[id];
            var resumed := Accepts(t, e) && e.claims.sessionId == id;
            && (resumed || before.nonce != Some(nonce) ==> after.nonce != Some(nonce))
            && (!resumed && before.nonce == Some(nonce) && after.state != Terminated ==> after.nonce == Some(nonce))
            && (before.state == Terminated ==> after.state == Terminated)
  {}

  lemma GivenBefore(ttl: u64, run: seq<Event>, i: nat, id: SessionId, nonce: Nonce)
    requires Fresh(run) && i < |run| - 1 && GaveNonce(ttl, run, i, id, nonce)
    ensures GaveNonce(ttl, run[..|run| - 1], i, id, nonce)
    ensures Drawn(run[|run| - 1]) != Some(nonce)
  {
    assert run[..|run| - 1][..i] == run[..i];
    assert Drawn(run[i]) == Some(nonce);
  }

  lemma ResumedAtFront(ttl: u64, run: seq<Event>, j: nat, id: SessionId)
    requires j < |run| - 1
    ensures ResumedAt(ttl, run[..|run| - 1], j, id) <==> ResumedAt(ttl, run, j, id)
  {
    assert run[..|run| - 1][..j] == run[..j];
  }

  lemma SinceFront(ttl: u64, run: seq<Event>, i: nat, id: SessionId)
    requires i < |run| - 1
    ensures ResumedSince(ttl, run, i, id) <==>
            ResumedSince(ttl, run[..|run| - 1], i, id) || ResumedAt(ttl, run, |run| - 1, id)
  {
    var front := run[..|run| - 1];
    if j :| i < j && ResumedAt(ttl, front, j, id) {
      ResumedAtFront(ttl, run, j, id);
      assert ResumedSince(ttl, run, i, id);
    }
    if j :| i < j && ResumedAt(ttl, run, j, id) {
      if j < |run| - 1 {
        ResumedAtFront(ttl, run, j, id);
        assert ResumedSince(ttl, front, i, id);
      }
    }
  }

  /** A session keeps the nonce of event i until it is resumed, or ends. */
  lemma {:induction false} NonceSince(ttl: u64, run: seq<Event>, i: nat, id: SessionId, nonce: Nonce)
    requires Fresh(run) && i < |run| && GaveNonce(ttl, run, i, id, nonce)
    ensures id in After(ttl, run)
    ensures var r := After(ttl, run)[id];
            if ResumedSince(ttl, run, i, id) then r.nonce != Some(nonce)
            else r.state != Terminated ==> r.nonce == Some(nonce)
    decreases |run|
  {
    var n := |run| - 1;
    if i == n {
    } else {
      FreshPrefix(run, n);
      GivenBefore(ttl, run, i, id, nonce);
      NonceSince(ttl, run[..n], i, id, nonce);
      SinceFront(ttl, run, i, id);
      if run[n].Create? {
        NewIdIsNew(ttl, run);
      }
      NonceStep(ttl, After(ttl, run[..n]), run[n], id, nonce);
    }
  }

  /**
   * The life of a token, over every run of the session table: the token issued with the nonce of
   * event i is accepted exactly when it has not expired, its session is on an unexpired hold, and
   * no resume of the session was accepted since. In particular it is never accepted twice.
   */
  lemma TokenLife(c: Codec, service: Service, ttl: u64, run: seq<Event>, i: nat, id: SessionId, nonce: Nonce,
                  issuedAt: u64, validatedAt: u64, now: u64, next: Option<Nonce>)
    requires Lawful(c) && Fresh(run) && i < |run| && GaveNonce(ttl, run, i, id, nonce)
    ensures id in After(ttl, run)
    ensures var r := After(ttl, run)[id];
            var issued := Issue(c, service, id, nonce, issuedAt);
            var validated := Validate(c, service, issued.token, validatedAt);
            validated.Ok? && Resume(After(ttl, run), validated.value, now, next).1.Ok? <==>
              && validatedAt < Later(issuedAt, service.ttlSecs)
              && r.state == Held && r.holdExpiresAt.Some? && now < r.holdExpiresAt.value
              && !ResumedSince(ttl, run, i, id) && next.Some?
  {
    IssuedValidates(c, service, id, nonce, issuedAt, validatedAt);
    NonceSince(ttl, run, i, id, nonce);
    ResumeExact(After(ttl, run), Issue(c, service, id, nonce, issuedAt).claims, now, next);
  }
}
