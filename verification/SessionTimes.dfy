/** How long holds and tokens last, and what each operation leaves alone. */
module SessionTimes {
  import opened Wrappers
  import opened Bytes
  import opened Sessions
  import opened ResumeTokens

  // ----- one operation

  /** A hold lasts ttl seconds, changes nothing else of its session, and no other session. */
  lemma HoldExact(t: Table, id: SessionId, at: u64, ttl: u64)
    ensures var (t', r) := Hold(t, id, at, ttl);
            && (id !in t ==> t' == t && r == Err(SessionNotFound(id)))
            && (id in t && t[id].state == Terminated ==> t' == t && r == Ok(()))
            && (id in t && t[id].state != Terminated && at + ttl < U64_MODULUS ==>
                  r == Ok(()) && t'.Keys == t.Keys
                  && t'[id] == t[id].(state := Held, holdExpiresAt := Some(at + ttl), terminationReason := None)
                  && forall other | other in t && other != id :: t'[other] == t[other])
  {}

  /** A hold is resumed with the right nonce exactly until it has lasted ttl seconds. */
  lemma HoldLasts(ttl: u64, t: Table, id: SessionId, at: u64, nonce: Nonce, expiresAt: u64, now: u64, next: Nonce)
    requires id in t && t[id].state == Active && t[id].nonce == Some(nonce) && at + ttl < U64_MODULUS
    ensures var held := Step(ttl, t, HoldAt(id, at));
            Resume(held, Claims(id, expiresAt, nonce), now, Some(next)).1.Ok? <==> now < at + ttl
  {
    HoldExact(t, id, at, ttl);
    ResumeExact(Step(ttl, t, HoldAt(id, at)), Claims(id, expiresAt, nonce), now, Some(next));
  }

  /** Pruning ends exactly the holds that have lasted ttl seconds. */
  lemma PruneEndsHold(ttl: u64, t: Table, id: SessionId, at: u64, now: u64)
    requires id in t && t[id].state == Active && at + ttl < U64_MODULUS
    ensures var held := Step(ttl, t, HoldAt(id, at));
            var pruned := Step(ttl, held, PruneAt(now));
            && id in pruned
            && (if now < at + ttl then pruned[id] == held[id] && pruned[id].state == Held
                else pruned[id].state == Terminated && pruned[id].nonce.None? && pruned[id].holdExpiresAt.None?
                     && pruned[id].terminationReason == Some("hold-expired"))
  {
    HoldExact(t, id, at, ttl);
  }

  /** Pruning removes no record, and touches only holds that have run out. */
  lemma PruneExact(t: Table, now: u64, id: SessionId)
    requires id in t
    ensures Prune(t, now).Keys == t.Keys
    ensures Prune(t, now)[id] != t[id] <==> t[id].state == Held && t[id].holdExpiresAt.Some? && t[id].holdExpiresAt.value <= now
    ensures Prune(t, now)[id] != t[id] ==> Prune(t, now)[id].state == Terminated
  {}

  /** What an accepted resume hands back, and what it leaves in the record. */
  lemma ResumeGives(t: Table, claims: Claims, now: u64, issued: Option<Nonce>)
    requires Resume(t, claims, now, issued).1.Ok?
    ensures var (t', r) := Resume(t, claims, now, issued);
            var id := claims.sessionId;
            && id in t && id in t' && issued.Some?
            && r.value == Resumed(id, issued.value, t'[id].reconnectCount)
            && t'[id].state == Active && t'[id].nonce == issued && t'[id].holdExpiresAt.None?
            && t'[id].terminationReason.None?
            && t'[id].reconnectCount == if t[id].reconnectCount == 0xFFFF_FFFF then 0 else t[id].reconnectCount + 1
  {}

  /** A refused resume changes nothing, unless the hold has run out: then the session ends, and keeps its nonce. */
  lemma ResumeRefusal(t: Table, claims: Claims, now: u64, issued: Option<Nonce>)
    requires Resume(t, claims, now, issued).1.Err?
    ensures var (t', r) := Resume(t, claims, now, issued);
            var id := claims.sessionId;
            var expired := id in t && t[id].state == Held && t[id].holdExpiresAt.Some? && t[id].holdExpiresAt.value <= now;
            && (r == Err(SessionExpired(id)) <==> expired)
            && (!expired ==> t' == t)
            && (expired ==> id in t' && t'[id].state == Terminated && t'[id].nonce == t[id].nonce)
  {}

  /** Who a session belongs to, and when it was created, never changes. */
  lemma IdentityKept(ttl: u64, t: Table, e: Event, id: SessionId)
    requires id in t && !(e.Create? && e.id == id)
    ensures id in Step(ttl, t, e)
    ensures var before, after := t[id], Step(ttl, t, e)[id];
            before.id == after.id && before.userSub == after.userSub && before.displayName == after.displayName
            && before.createdAt == after.createdAt
  {}

  /** The session an event is about; pruning is about all of them. */
  predicate Concerns(e: Event, id: SessionId) {
    match e
    case PruneAt(_) => true
    case Create(created, _, _, _, _) => created == id
    case HoldAt(held, _) => held == id
    case ResumeAt(claims, _, _) => claims.sessionId == id
    case TerminateAt(ended, _) => ended == id
  }

  /** No event touches a session it is not about. */
  lemma OthersUntouched(ttl: u64, t: Table, e: Event, id: SessionId)
    requires !Concerns(e, id)
    ensures id in Step(ttl, t, e) <==> id in t
    ensures id in t ==> Step(ttl, t, e)[id] == t[id]
  {}

  /** A new session is active, with the nonce of its token, no expiry and no resume so far. */
  lemma CreatedSession(ttl: u64, t: Table, e: Event)
    requires e.Create?
    ensures e.id in Step(ttl, t, e)
    ensures var r := Step(ttl, t, e)[e.id];
            && r.id == e.id && r.userSub == e.userSub && r.displayName == e.displayName && r.createdAt == e.now
            && r.state == Active && r.nonce == Some(e.nonce) && r.holdExpiresAt.None? && r.reconnectCount == 0
            && r.terminationReason.None?
  {}

  // ----- whole runs

  /** When the session was last put on hold. */
  function LastHold(run: seq<Event>, id: SessionId): Option<u64> {
    if |run| == 0 then None
    else
      var e := run[|run| - 1];
      if e.HoldAt? && e.id == id then Some(e.now) else LastHold(run[..|run| - 1], id)
  }

  /** No hold of the session runs past the end of the 64-bit clock. */
  predicate HoldsFit(ttl: u64, run: seq<Event>, id: SessionId) {
    forall k | 0 <= k < |run| && run[k].HoldAt? && run[k].id == id :: run[k].now + ttl < U64_MODULUS
  }

  lemma HoldStep(ttl: u64, t: Table, e: Event, id: SessionId)
    requires id in Step(ttl, t, e) && Step(ttl, t, e)[id].state == Held
    requires e.HoldAt? && e.id == id ==> e.now + ttl < U64_MODULUS
    ensures id in t
    ensures Step(ttl, t, e)[id].holdExpiresAt
         == if e.HoldAt? && e.id == id then Some(e.now + ttl) else t[id].holdExpiresAt
    ensures !(e.HoldAt? && e.id == id) ==> t[id].state == Held
  {}

  /** A held session expires ttl seconds after it was last put on hold. */
  lemma {:induction false} HeldUntil(ttl: u64, run: seq<Event>, id: SessionId)
    requires HoldsFit(ttl, run, id) && id in After(ttl, run) && After(ttl, run)[id].state == Held
    ensures LastHold(run, id).Some? && LastHold(run, id).value + ttl < U64_MODULUS
    ensures After(ttl, run)[id].holdExpiresAt == Some(LastHold(run, id).value + ttl)
  {
    var n := |run| - 1;
    HoldStep(ttl, After(ttl, run[..n]), run[n], id);
    if run[n].HoldAt? && run[n].id == id {
    } else {
      HeldUntil(ttl, run[..n], id);
    }
  }

  /** An issued token is valid for the service's number of seconds. */
  lemma TokenLasts(c: Codec, service: Service, id: SessionId, nonce: Nonce, issuedAt: u64, now: u64)
    requires Lawful(c) && issuedAt + service.ttlSecs < U64_MODULUS
    ensures var issued := Issue(c, service, id, nonce, issuedAt);
            && issued.claims == Claims(id, issuedAt + service.ttlSecs, nonce)
            && (Validate(c, service, issued.token, now).Ok? <==> now < issuedAt + service.ttlSecs)
            && (Validate(c, service, issued.token, now).Ok? ==>
                  Validate(c, service, issued.token, now).value == issued.claims)
  {
    IssuedValidates(c, service, id, nonce, issuedAt, now);
  }

  /**
   * The life of a token in seconds, over every run: it is accepted if and only if it is younger
   * than the token lifetime, its session is held and was last put on hold less than the hold time
   * ago, and no resume of the session was accepted since it was issued.
   */
  lemma TokenLifeInSeconds(c: Codec, service: Service, ttl: u64, run: seq<Event>, i: nat, id: SessionId, nonce: Nonce,
                           issuedAt: u64, validatedAt: u64, now: u64, next: Nonce)
    requires Lawful(c) && Fresh(run) && i < |run| && GaveNonce(ttl, run, i, id, nonce)
    requires issuedAt + service.ttlSecs < U64_MODULUS && HoldsFit(ttl, run, id)
    ensures id in After(ttl, run)
    ensures var issued := Issue(c, service, id, nonce, issuedAt);
            var validated := Validate(c, service, issued.token, validatedAt);
            validated.Ok? && Resume(After(ttl, run), validated.value, now, Some(next)).1.Ok? <==>
              && validatedAt < issuedAt + service.ttlSecs
              && After(ttl, run)[id].state == Held
              && LastHold(run, id).Some? && now < LastHold(run, id).value + ttl
              && !ResumedSince(ttl, run, i, id)
  {
    TokenLife(c, service, ttl, run, i, id, nonce, issuedAt, validatedAt, now, Some(next));
    if After(ttl, run)[id].state == Held {
      HeldUntil(ttl, run, id);
    }
  }
}
