/** The host's session table: creating, holding, resuming and terminating sessions. */
module Sessions {
  import opened Wrappers
  import opened Bytes

  type SessionId = string
  type Nonce = string

  datatype SessionState = Active | Held | Terminated

  datatype Record = Record(
    id: SessionId,
    userSub: string,
    displayName: Option<string>,
    state: SessionState,
    createdAt: u64,
    holdExpiresAt: Option<u64>,
    nonce: Option<Nonce>,
    reconnectCount: u32,
    terminationReason: Option<string>)

  type Table = map<SessionId, Record>

  datatype SessionError =
    | SessionNotFound(id: SessionId)
    | SessionNotResumable(id: SessionId)
    | ResumeTokenMismatch(id: SessionId)
    | SessionExpired(id: SessionId)
    | Internal

  datatype Claims = Claims(sessionId: SessionId, expiresAt: u64, nonce: Nonce)

  datatype Resumed = Resumed(id: SessionId, nonce: Nonce, reconnectCount: u32)

  const HOLD_EXPIRED := "hold-expired"

  /** Clock readings and time spans add as unsigned 64-bit seconds. */
  function Later(now: u64, span: u64): u64 {
    (now + span) % U64_MODULUS
  }

  // ----- the lock-held regions, as functions of the table

  predicate HoldHasExpired(r: Record, now: u64) {
    r.state == Held && r.holdExpiresAt.Some? && r.holdExpiresAt.value <= now
  }

  function PruneRecord(r: Record, now: u64): Record {
    if HoldHasExpired(r, now)
    then r.(state := Terminated, nonce := None, holdExpiresAt := None, terminationReason := Some(HOLD_EXPIRED))
    else r
  }

  function Prune(t: Table, now: u64): Table {
    map id | id in t :: PruneRecord(t[id], now)
  }

  function NewRecord(id: SessionId, userSub: string, displayName: Option<string>, nonce: Nonce, now: u64): Record {
    Record(id, userSub, displayName, Active, now, None, Some(nonce), 0, None)
  }

  function Hold(t: Table, id: SessionId, now: u64, ttl: u64): (Table, Result<(), SessionError>) {
    if id !in t then (t, Err(SessionNotFound(id)))
    else if t[id].state == Terminated then (t, Ok(()))
    else
      var r := t[id].(state := Held, holdExpiresAt := Some(Later(now, ttl)), terminationReason := None);
      (t[id := r], Ok(()))
  }

  /** issued is the nonce of the next token, or None when issuing it fails. */
  function Resume(t: Table, claims: Claims, now: u64, issued: Option<Nonce>): (Table, Result<Resumed, SessionError>) {
    var id := claims.sessionId;
    if id !in t then (t, Err(SessionNotFound(id)))
    else
      var r := t[id];
      if r.state != Held || r.holdExpiresAt.None? then (t, Err(SessionNotResumable(id)))
      else if r.holdExpiresAt.value <= now
      then (t[id := r.(state := Terminated, terminationReason := Some(HOLD_EXPIRED))], Err(SessionExpired(id)))
      else if r.nonce.None? || r.nonce.value != claims.nonce then (t, Err(ResumeTokenMismatch(id)))
      else if issued.None? then (t, Err(Internal))
      else
        var count := (r.reconnectCount + 1) % 0x1_0000_0000;
        (t[id := r.(state := Active, holdExpiresAt := None, nonce := issued,
                    reconnectCount := count, terminationReason := None)],
         Ok(Resumed(id, issued.value, count)))
  }

  function Terminate(t: Table, id: SessionId, reason: string): (Table, Result<(), SessionError>) {
    if id !in t then (t, Err(SessionNotFound(id)))
    else (t[id := t[id].(state := Terminated, holdExpiresAt := None, nonce := None, terminationReason := Some(reason))],
          Ok(()))
  }

  /** Exactly which claims resume a session. */
  lemma ResumeExact(t: Table, claims: Claims, now: u64, issued: Option<Nonce>)
    ensures Resume(t, claims, now, issued).1.Ok? <==>
            && claims.sessionId in t && t[claims.sessionId].state == Held
            && t[claims.sessionId].holdExpiresAt.Some? && now < t[claims.sessionId].holdExpiresAt.value
            && t[claims.sessionId].nonce == Some(claims.nonce) && issued.Some?
  {
  }

  // ----- the class

  class SessionManager {
    const holdTtlSecs: u64
    var sessions: Table

    constructor (ttl: u64)
      requires ttl > 0
      ensures sessions == map[] && holdTtlSecs == ttl
    {
      holdTtlSecs := ttl;
      sessions := map[];
    }

    method PruneExpired(now: u64)
      modifies this
      ensures sessions == Prune(old(sessions), now)
    {
      var rest := sessions.Keys;
      while rest != {}
        invariant rest <= old(sessions).Keys && sessions.Keys == old(sessions).Keys
        invariant forall id | id in sessions ::
          sessions[id] == if id in rest then old(sessions)[id] else PruneRecord(old(sessions)[id], now)
        decreases rest
      {
        var id :| id in rest;
        rest := rest - {id};
        var record := sessions[id];
        if record.state == Held && record.holdExpiresAt.Some? && record.holdExpiresAt.value <= now {
          record := record.(state := Terminated);
          record := record.(nonce := None);
          record := record.(holdExpiresAt := None);
          record := record.(terminationReason := Some(HOLD_EXPIRED));
          sessions := sessions[id := record];
        }
      }
    }

    method InsertSession(id: SessionId, userSub: string, displayName: Option<string>, nonce: Nonce, now: u64)
      modifies this
      ensures sessions == old(sessions)[id := NewRecord(id, userSub, displayName, nonce, now)]
    {
      var record := Record(id, userSub, displayName, Active, now, None, Some(nonce), 0, None);
      sessions := sessions[id := record];
    }

    method HoldLocked(id: SessionId, now: u64) returns (r: Result<(), SessionError>)
      modifies this
      ensures (sessions, r) == Hold(old(sessions), id, now, holdTtlSecs)
    {
      if id !in sessions {
        return Err(SessionNotFound(id));
      }
      var record := sessions[id];
      if record.state == Terminated {
        return Ok(());
      }
      record := record.(state := Held);
      record := record.(holdExpiresAt := Some(Later(now, holdTtlSecs)));
      record := record.(terminationReason := None);
      sessions := sessions[id := record];
      return Ok(());
    }

    method ResumeLocked(claims: Claims, now: u64, issued: Option<Nonce>) returns (r: Result<Resumed, SessionError>)
      modifies this
      ensures (sessions, r) == Resume(old(sessions), claims, now, issued)
    {
      var id := claims.sessionId;
      if id !in sessions {
        return Err(SessionNotFound(id));
      }
      var record := sessions[id];
      if record.state != Held {
        return Err(SessionNotResumable(id));
      }
      if record.holdExpiresAt.None? {
        return Err(SessionNotResumable(id));
      }
      if record.holdExpiresAt.value <= now {
        record := record.(state := Terminated);
        record := record.(terminationReason := Some(HOLD_EXPIRED));
        sessions := sessions[id := record];
        return Err(SessionExpired(id));
      }
      if record.nonce.None? || record.nonce.value != claims.nonce {
        return Err(ResumeTokenMismatch(id));
      }
      if issued.None? {
        return Err(Internal);
      }
      record := record.(state := Active);
      record := record.(holdExpiresAt := None);
      record := record.(nonce := Some(issued.value));
      record := record.(reconnectCount := (record.reconnectCount + 1) % 0x1_0000_0000);
      record := record.(terminationReason := None);
      sessions := sessions[id := record];
      return Ok(Resumed(id, issued.value, record.reconnectCount));
    }

    method TerminateSession(id: SessionId, reason: string) returns (r: Result<(), SessionError>)
      modifies this
      ensures (sessions, r) == Terminate(old(sessions), id, reason)
    {
      if id !in sessions {
        return Err(SessionNotFound(id));
      }
      var record := sessions[id];
      record := record.(state := Terminated, holdExpiresAt := None);
      record := record.(nonce := None, terminationReason := Some(reason));
      sessions := sessions[id := record];
      return Ok(());
    }
  }

  // ----- whole runs: any interleaving of lock-held regions, with any clock readings

  datatype Event =
    | PruneAt(now: u64)
    | Create(id: SessionId, userSub: string, displayName: Option<string>, nonce: Nonce, now: u64)
    | HoldAt(id: SessionId, now: u64)
    | ResumeAt(claims: Claims, now: u64, issued: Option<Nonce>)
    | TerminateAt(id: SessionId, reason: string)

  function Step(ttl: u64, t: Table, e: Event): Table {
    match e
    case PruneAt(now) => Prune(t, now)
    case Create(id, userSub, displayName, nonce, now) => t[id := NewRecord(id, userSub, displayName, nonce, now)]
    case HoldAt(id, now) => Hold(t, id, now, ttl).0
    case ResumeAt(claims, now, issued) => Resume(t, claims, now, issued).0
    case TerminateAt(id, reason) => Terminate(t, id, reason).0
  }

  function After(ttl: u64, run: seq<Event>): Table {
    if |run| == 0 then map[] else Step(ttl, After(ttl, run[..|run| - 1]), run[|run| - 1])
  }

  predicate Accepts(t: Table, e: Event) {
    e.ResumeAt? && Resume(t, e.claims, e.now, e.issued).1.Ok?
  }

  predicate AcceptedAt(ttl: u64, run: seq<Event>, k: nat)
    requires k < |run|
  {
    Accepts(After(ttl, run[..k]), run[k])
  }

  /** The nonce drawn at random in an event. */
  function Drawn(e: Event): Option<Nonce> {
    match e
    case Create(_, _, _, nonce, _) => Some(nonce)
    case ResumeAt(_, _, issued) => issued
    case _ => None
  }

  /** Random session ids and nonces never repeat. */
  ghost predicate Fresh(run: seq<Event>) {
    && (forall j, k | 0 <= j < k < |run| && Drawn(run[j]).Some? :: Drawn(run[j]) != Drawn(run[k]))
    && (forall j, k | 0 <= j < k < |run| && run[j].Create? && run[k].Create? :: run[j].id != run[k].id)
  }

  lemma FreshPrefix(run: seq<Event>, k: nat)
    requires Fresh(run) && k <= |run|
    ensures Fresh(run[..k])
  {
  }

  function DrawnIn(run: seq<Event>): set<Nonce> {
    if |run| == 0 then {}
    else DrawnIn(run[..|run| - 1]) + match Drawn(run[|run| - 1]) case Some(n) => {n} case None => {}
  }

  function CreatedIn(run: seq<Event>): set<SessionId> {
    if |run| == 0 then {}
    else CreatedIn(run[..|run| - 1]) + if run[|run| - 1].Create? then {run[|run| - 1].id} else {}
  }

  /** The nonces that have been accepted. */
  function Used(ttl: u64, run: seq<Event>): set<Nonce> {
    if |run| == 0 then {}
    else
      var front, last := run[..|run| - 1], run[|run| - 1];
      Used(ttl, front) + if Accepts(After(ttl, front), last) then {last.claims.nonce} else {}
  }

  function AcceptedCount(ttl: u64, run: seq<Event>, id: SessionId): nat {
    if |run| == 0 then 0
    else
      var front, last := run[..|run| - 1], run[|run| - 1];
      AcceptedCount(ttl, front, id) + Counted(After(ttl, front), last, id)
  }

  // ----- the shape of a record

  predicate WellShaped(r: Record) {
    && (r.state == Held ==> r.holdExpiresAt.Some? && r.nonce.Some?)
    && (r.state == Active ==> r.holdExpiresAt.None? && r.nonce.Some?)
  }

  ghost predicate TableShape(t: Table) {
    forall id | id in t :: t[id].id == id && WellShaped(t[id])
  }

  lemma ShapeStep(ttl: u64, t: Table, e: Event)
    requires TableShape(t)
    ensures TableShape(Step(ttl, t, e))
  {}

  /** Held sessions carry an expiry and a nonce; active ones a nonce and no expiry. */
  lemma {:induction false} RecordsWellShaped(ttl: u64, run: seq<Event>)
    ensures TableShape(After(ttl, run))
  {
    if |run| == 0 {
    } else {
      RecordsWellShaped(ttl, run[..|run| - 1]);
      ShapeStep(ttl, After(ttl, run[..|run| - 1]), run[|run| - 1]);
    }
  }

  // ----- single use

  /** Current nonces were drawn, are unused, and are not shared between sessions. */
  ghost predicate NoncesFit(t: Table, drawn: set<Nonce>, used: set<Nonce>) {
    && (forall id | id in t && t[id].nonce.Some? :: t[id].nonce.value in drawn && t[id].nonce.value !in used)
    && (forall a, b | a in t && b in t && a != b && t[a].nonce.Some? :: t[a].nonce != t[b].nonce)
    && used <= drawn
  }

  lemma DrawnLast(run: seq<Event>)
    requires |run| > 0 && Fresh(run) && Drawn(run[|run| - 1]).Some?
    ensures Drawn(run[|run| - 1]).value !in DrawnIn(run[..|run| - 1])
  {
    NotDrawnBefore(run, |run| - 1);
  }

  lemma {:induction false} NotDrawnBefore(run: seq<Event>, k: nat)
    requires |run| > 0 && Fresh(run) && k < |run| && Drawn(run[|run| - 1]).Some?
    ensures Drawn(run[|run| - 1]).value !in DrawnIn(run[..k])
  {
    if k == 0 {
    } else {
      NotDrawnBefore(run, k - 1);
      assert run[..k][..k - 1] == run[..k - 1];
      assert Drawn(run[k - 1]).Some? ==> Drawn(run[k - 1]) != Drawn(run[|run| - 1]);
    }
  }

  lemma StepNonces(ttl: u64, t: Table, e: Event, drawn: set<Nonce>, used: set<Nonce>)
    requires NoncesFit(t, drawn, used)
    requires Drawn(e).Some? ==> Drawn(e).value !in drawn
    ensures NoncesFit(Step(ttl, t, e),
                      drawn + (match Drawn(e) case Some(n) => {n} case None => {}),
                      used + if Accepts(t, e) then {e.claims.nonce} else {})
  {
  }

  lemma {:induction false} NoncesStayFit(ttl: u64, run: seq<Event>)
    requires Fresh(run)
    ensures NoncesFit(After(ttl, run), DrawnIn(run), Used(ttl, run))
  {
    if |run| == 0 {
    } else {
      var n := |run| - 1;
      FreshPrefix(run, n);
      NoncesStayFit(ttl, run[..n]);
      if Drawn(run[n]).Some? {
        DrawnLast(run);
      }
      StepNonces(ttl, After(ttl, run[..n]), run[n], DrawnIn(run[..n]), Used(ttl, run[..n]));
    }
  }

  lemma {:induction false} UsedHolds(ttl: u64, run: seq<Event>, j: nat)
    requires j < |run| && AcceptedAt(ttl, run, j)
    ensures run[j].claims.nonce in Used(ttl, run)
  {
    var n := |run| - 1;
    if j >= n {
    } else {
      assert run[..n][..j] == run[..j];
      UsedHolds(ttl, run[..n], j);
    }
  }

  /** Single use: over every interleaving, no nonce is ever accepted twice. */
  lemma AcceptedAtMostOnce(ttl: u64, run: seq<Event>, j: nat, k: nat)
    requires Fresh(run) && j < k < |run|
    requires AcceptedAt(ttl, run, j) && AcceptedAt(ttl, run, k)
    ensures run[j].claims.nonce != run[k].claims.nonce
  {
    assert run[..k][..j] == run[..j];
    UsedHolds(ttl, run[..k], j);
    FreshPrefix(run, k);
    NoncesStayFit(ttl, run[..k]);
  }

  /** The event that gave a session its current nonce. */
  ghost predicate GaveNonce(ttl: u64, run: seq<Event>, i: nat, id: SessionId, nonce: Nonce)
    requires i < |run|
  {
    || (run[i].Create? && run[i].id == id && run[i].nonce == nonce)
    || (run[i].ResumeAt? && AcceptedAt(ttl, run, i) && run[i].claims.sessionId == id && run[i].issued == Some(nonce))
  }

  lemma {:induction false} NonceWasIssued(ttl: u64, run: seq<Event>, id: SessionId)
    requires id in After(ttl, run) && After(ttl, run)[id].nonce.Some?
    ensures exists i :: 0 <= i < |run| && GaveNonce(ttl, run, i, id, After(ttl, run)[id].nonce.value)
  {
    var n := |run| - 1;
    var before := After(ttl, run[..n]);
    if id in before && before[id].nonce == After(ttl, run)[id].nonce {
      NonceWasIssued(ttl, run[..n], id);
      var i :| 0 <= i < n && GaveNonce(ttl, run[..n], i, id, before[id].nonce.value);
      assert run[..n][..i] == run[..i];
      assert GaveNonce(ttl, run, i, id, before[id].nonce.value);
    } else {
      assert GaveNonce(ttl, run, n, id, After(ttl, run)[id].nonce.value);
    }
  }

  /** Only what was issued for a session is accepted for it. */
  lemma AcceptedWasIssued(ttl: u64, run: seq<Event>, k: nat)
    requires k < |run| && AcceptedAt(ttl, run, k)
    ensures exists i :: 0 <= i < k && GaveNonce(ttl, run, i, run[k].claims.sessionId, run[k].claims.nonce)
  {
    var id := run[k].claims.sessionId;
    NonceWasIssued(ttl, run[..k], id);
    var i :| 0 <= i < k && GaveNonce(ttl, run[..k], i, id, After(ttl, run[..k])[id].nonce.value);
    assert run[..k][..i] == run[..i];
    assert GaveNonce(ttl, run, i, id, run[k].claims.nonce);
  }

  // ----- counting and termination

  lemma {:induction false} CreatedBefore(ttl: u64, run: seq<Event>)
    ensures After(ttl, run).Keys == CreatedIn(run)
  {
    if |run| == 0 {
    } else {
      CreatedBefore(ttl, run[..|run| - 1]);
    }
  }

  lemma NewIdIsNew(ttl: u64, run: seq<Event>)
    requires |run| > 0 && Fresh(run) && run[|run| - 1].Create?
    ensures run[|run| - 1].id !in After(ttl, run[..|run| - 1])
  {
    CreatedBefore(ttl, run[..|run| - 1]);
    NotCreatedBefore(run, |run| - 1);
  }

  lemma {:induction false} NotCreatedBefore(run: seq<Event>, k: nat)
    requires |run| > 0 && Fresh(run) && k < |run| && run[|run| - 1].Create?
    ensures run[|run| - 1].id !in CreatedIn(run[..k])
  {
    if k == 0 {
    } else {
      NotCreatedBefore(run, k - 1);
      assert run[..k][..k - 1] == run[..k - 1];
    }
  }

  lemma {:induction false} NoCountBeforeCreation(ttl: u64, run: seq<Event>, id: SessionId)
    requires id !in After(ttl, run)
    ensures AcceptedCount(ttl, run, id) == 0
  {
    if |run| == 0 {
    } else {
      NoCountBeforeCreation(ttl, run[..|run| - 1], id);
    }
  }

  function Counted(t: Table, e: Event, id: SessionId): nat {
    if Accepts(t, e) && e.claims.sessionId == id then 1 else 0
  }

  lemma CountStep(ttl: u64, t: Table, e: Event, id: SessionId, n: nat)
    requires id in Step(ttl, t, e)
    requires if e.Create? && e.id == id then n == 0 else id in t && t[id].reconnectCount == n % 0x1_0000_0000
    ensures Step(ttl, t, e)[id].reconnectCount == (n + Counted(t, e, id)) % 0x1_0000_0000
  {
  }

  /** The reconnect counter, a wrapping 32-bit number, counts the accepted resumes of its session. */
  lemma {:induction false} ReconnectsCounted(ttl: u64, run: seq<Event>, id: SessionId)
    requires Fresh(run) && id in After(ttl, run)
    ensures After(ttl, run)[id].reconnectCount == AcceptedCount(ttl, run, id) % 0x1_0000_0000
  {
    var n := |run| - 1;
    FreshPrefix(run, n);
    if run[n].Create? && run[n].id == id {
      NewIdIsNew(ttl, run);
      NoCountBeforeCreation(ttl, run[..n], id);
    } else {
      ReconnectsCounted(ttl, run[..n], id);
    }
    CountStep(ttl, After(ttl, run[..n]), run[n], id, AcceptedCount(ttl, run[..n], id));
  }

  lemma {:induction false} IdsStay(ttl: u64, run: seq<Event>, j: nat, id: SessionId)
    requires j <= |run| && id in After(ttl, run[..j])
    ensures id in After(ttl, run)
  {
    if j == |run| {
      assert run[..j] == run;
    } else {
      assert run[..|run| - 1][..j] == run[..j];
      IdsStay(ttl, run[..|run| - 1], j, id);
    }
  }

  lemma TerminatedStep(ttl: u64, t: Table, e: Event, id: SessionId)
    requires id in t && t[id].state == Terminated && !(e.Create? && e.id == id)
    ensures id in Step(ttl, t, e) && Step(ttl, t, e)[id].state == Terminated
  {}

  /** Once terminated, a session stays terminated. */
  lemma {:induction false} TerminatedIsFinal(ttl: u64, run: seq<Event>, j: nat, id: SessionId)
    requires Fresh(run) && j <= |run|
    requires id in After(ttl, run[..j]) && After(ttl, run[..j])[id].state == Terminated
    ensures id in After(ttl, run) && After(ttl, run)[id].state == Terminated
  {
    if j == |run| {
      assert run[..j] == run;
    } else {
      var n := |run| - 1;
      FreshPrefix(run, n);
      assert run[..n][..j] == run[..j];
      TerminatedIsFinal(ttl, run[..n], j, id);
      if run[n].Create? {
        NewIdIsNew(ttl, run);
      }
      TerminatedStep(ttl, After(ttl, run[..n]), run[n], id);
    }
  }
}
