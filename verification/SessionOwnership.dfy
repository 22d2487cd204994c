/** Many control streams sharing one session table, in every interleaving. */
module SessionOwnership {
  import opened Wrappers
  import opened Bytes
  import S = Sessions
  import C = Connections

  type ConnectionId = nat

  /** Where a control stream stands between two awaits. */
  datatype Phase =
    | HelloPhase                    // reading the first batch; actions are ignored
    | HandshakePhase                // reading the second batch
    | Creating                      // token validated, session not inserted yet
    | Resuming(claims: S.Claims)    // resume token validated, table not asked yet
    | Streaming                     // the message loop
    | ClosingHeld                   // about to hold the session
    | ClosingTerminated             // about to terminate it
    | Gone                          // returned, on whatever path

  datatype Conn = Conn(proto: C.State, phase: Phase, session: Option<S.SessionId>, established: bool)

  datatype System = System(sessions: S.Table, conns: map<ConnectionId, Conn>)

  datatype Event =
    | Pruned(now: u64)
    | Opened(c: ConnectionId)
    | HelloRead(c: ConnectionId, message: C.ControlMessage)
    | HelloDone(c: ConnectionId)
    | HandshakeRead(c: ConnectionId, message: C.ControlMessage, authorized: bool, claims: Option<S.Claims>)
    | SessionCreated(c: ConnectionId, id: S.SessionId, userSub: string, displayName: Option<string>, nonce: S.Nonce, now: u64)
    | SessionResumed(c: ConnectionId, now: u64, issued: Option<S.Nonce>)
    | HandshakeDone(c: ConnectionId, serverInitiatedClose: bool)
    | StreamRead(c: ConnectionId, message: C.ControlMessage)
    | BatchDone(c: ConnectionId)
    | PeerClosed(c: ConnectionId)
    | ReadFailed(c: ConnectionId)
    | Closed(c: ConnectionId, now: u64)
    | Failed(c: ConnectionId)       // an early return or an aborted task

  const FRESH_CONN := Conn(C.START, HelloPhase, None, false)

  // ----- one step of one control stream, without its effect on the table

  predicate Enabled(sys: System, e: Event) {
    match e
    case Pruned(_) => true
    case Opened(c) => c !in sys.conns
    case HelloRead(c, _) => InPhase(sys, c, HelloPhase)
    case HelloDone(c) => InPhase(sys, c, HelloPhase)
    case HandshakeRead(c, _, _, _) => InPhase(sys, c, HandshakePhase)
    case SessionCreated(c, _, _, _, _, _) => InPhase(sys, c, Creating)
    case SessionResumed(c, _, _) => c in sys.conns && sys.conns[c].phase.Resuming?
    case HandshakeDone(c, _) => InPhase(sys, c, HandshakePhase)
    case StreamRead(c, _) => InPhase(sys, c, Streaming)
    case BatchDone(c) => InPhase(sys, c, Streaming)
    case PeerClosed(c) => InPhase(sys, c, Streaming)
    case ReadFailed(c) => InPhase(sys, c, Streaming)
    case Closed(c, _) => InPhase(sys, c, ClosingHeld) || InPhase(sys, c, ClosingTerminated)
    case Failed(c) => c in sys.conns
  }

  predicate InPhase(sys: System, c: ConnectionId, phase: Phase) {
    c in sys.conns && sys.conns[c].phase == phase
  }

  /** A message is handed to the connection; an error ends the stream at once. */
  function AfterMessage(k: Conn, m: C.ControlMessage): Conn {
    var (proto, r) := C.Receive(k.proto, m);
    if r.Err? then k.(proto := proto, phase := Gone) else k.(proto := proto)
  }

  /** In the second batch a handshake action is acted on; a negative verdict ends the stream. */
  function AfterHandshakeMessage(k: Conn, m: C.ControlMessage, authorized: bool, claims: Option<S.Claims>): Conn {
    var (proto, r) := C.Receive(k.proto, m);
    if r.Err? then k.(proto := proto, phase := Gone)
    else match r.value.action
      case None => k.(proto := proto)
      case Some(ValidateToken(_)) =>
        if authorized then k.(proto := proto, phase := Creating)
        else k.(proto := C.Step(proto, C.AuthRecorded(false)), phase := Gone)
      case Some(ValidateResumeToken(_)) =>
        if claims.Some? then k.(proto := proto, phase := Resuming(claims.value))
        else k.(proto := C.Step(proto, C.ResumeRecorded(false)), phase := Gone)
  }

  function AfterLoop(k: Conn, unexpected: bool): Conn {
    k.(phase := if unexpected then ClosingHeld else ClosingTerminated)
  }

  function ConnStep(sys: System, e: Event): map<ConnectionId, Conn>
    requires Enabled(sys, e)
  {
    if e.Pruned? then sys.conns
    else if e.Opened? then sys.conns[e.c := FRESH_CONN]
    else
      var k := sys.conns[e.c];
      var k' := match e
        case HelloRead(_, m) => AfterMessage(k, m)
        case HelloDone(_) => k.(phase := HandshakePhase)
        case HandshakeRead(_, m, authorized, claims) => AfterHandshakeMessage(k, m, authorized, claims)
        case SessionCreated(_, id, _, _, _, _) =>
          k.(proto := C.Step(k.proto, C.AuthRecorded(true)), phase := HandshakePhase,
             session := Some(id), established := true)
        case SessionResumed(_, now, issued) =>
          if S.Resume(sys.sessions, k.phase.claims, now, issued).1.Ok?
          then k.(proto := C.Step(k.proto, C.ResumeRecorded(true)), phase := HandshakePhase,
                  session := Some(k.phase.claims.sessionId), established := true)
          else k.(proto := C.Step(k.proto, C.ResumeRecorded(false)), phase := Gone)
        case HandshakeDone(_, closes) =>
          k.(phase := Streaming,
             proto := if closes && k.proto.helloReceived then C.Step(k.proto, C.GoodbyeInitiated) else k.proto)
        case StreamRead(_, m) => AfterMessage(k, m)
        case BatchDone(_) => if C.OrderlyShutdownComplete(k.proto) then AfterLoop(k, false) else k
        case PeerClosed(_) => AfterLoop(k, k.established && !C.OrderlyShutdownComplete(k.proto))
        case ReadFailed(_) =>
          if C.OrderlyShutdownComplete(k.proto) then AfterLoop(k, false)
          else if k.established then AfterLoop(k, true)
          else k.(phase := Gone)
        case Closed(_, _) => k.(phase := Gone)
        case _ => k.(phase := Gone);
      sys.conns[e.c := k']
  }

  // ----- the effect on the table is at most one lock-held region

  function TableEvent(sys: System, e: Event): Option<S.Event>
    requires Enabled(sys, e)
  {
    match e
    case Pruned(now) => Some(S.PruneAt(now))
    case SessionCreated(_, id, userSub, displayName, nonce, now) => Some(S.Create(id, userSub, displayName, nonce, now))
    case SessionResumed(c, now, issued) => Some(S.ResumeAt(sys.conns[c].phase.claims, now, issued))
    case Closed(c, now) =>
      var k := sys.conns[c];
      if k.session.None? then None
      else if k.phase == ClosingHeld then Some(S.HoldAt(k.session.value, now))
      else Some(S.TerminateAt(k.session.value, "control-stream-closed"))
    case _ => None
  }

  function TableStep(ttl: u64, sys: System, e: Event): S.Table
    requires Enabled(sys, e)
  {
    match TableEvent(sys, e)
    case Some(event) => S.Step(ttl, sys.sessions, event)
    case None => sys.sessions
  }

  function Step(ttl: u64, sys: System, e: Event): System
    requires Enabled(sys, e)
  {
    System(TableStep(ttl, sys, e), ConnStep(sys, e))
  }

  const EMPTY := System(map[], map[])

  /** Every event of the run was enabled when it happened. */
  ghost predicate Possible(ttl: u64, run: seq<Event>)
    decreases |run|, 0
  {
    |run| > 0 ==> Possible(ttl, run[..|run| - 1]) && Enabled(After(ttl, run[..|run| - 1]), run[|run| - 1])
  }

  ghost function After(ttl: u64, run: seq<Event>): System
    requires Possible(ttl, run)
    decreases |run|, 1
  {
    if |run| == 0 then EMPTY else Step(ttl, After(ttl, run[..|run| - 1]), run[|run| - 1])
  }

  /** Session ids drawn for new sessions are new. */
  ghost predicate FreshIds(ttl: u64, run: seq<Event>)
    requires Possible(ttl, run)
  {
    |run| > 0 ==>
      var front := run[..|run| - 1];
      FreshIds(ttl, front) && (run[|run| - 1].SessionCreated? ==> run[|run| - 1].id !in After(ttl, front).sessions)
  }

  // ----- ownership

  /** A live stream that holds a session. */
  predicate Owns(sys: System, c: ConnectionId, id: S.SessionId) {
    c in sys.conns && sys.conns[c].phase != Gone && sys.conns[c].session == Some(id)
  }

  ghost predicate OneOwner(sys: System) {
    forall a, b, id | Owns(sys, a, id) && Owns(sys, b, id) :: a == b
  }

  ghost predicate OwnedIsActive(sys: System) {
    forall c, id | Owns(sys, c, id) :: id in sys.sessions && sys.sessions[id].state == S.Active
  }

  /** A stream asks the table for a session at most once, and only after its handshake message. */
  predicate RequestedOnce(k: Conn) {
    && (k.session.Some? || k.phase == Creating || k.phase.Resuming? ==> k.proto.authReceived || k.proto.resumeReceived)
    && (k.phase == Creating || k.phase.Resuming? ==> k.session.None?)
  }

  ghost predicate Inv(sys: System) {
    OneOwner(sys) && OwnedIsActive(sys) && forall c | c in sys.conns :: RequestedOnce(sys.conns[c])
  }

  predicate ById(e: Event, c: ConnectionId) {
    !e.Pruned? && e.c == c
  }

  lemma MessageRequests(k: Conn, m: C.ControlMessage)
    requires RequestedOnce(k)
    ensures RequestedOnce(AfterMessage(k, m))
  {
  }

  lemma HandshakeRequests(k: Conn, m: C.ControlMessage, authorized: bool, claims: Option<S.Claims>)
    requires RequestedOnce(k) && k.phase == HandshakePhase
    ensures RequestedOnce(AfterHandshakeMessage(k, m, authorized, claims))
  {
  }

  lemma StepRequests(sys: System, e: Event, c: ConnectionId)
    requires Enabled(sys, e) && c in ConnStep(sys, e)
    requires c in sys.conns ==> RequestedOnce(sys.conns[c])
    ensures RequestedOnce(ConnStep(sys, e)[c])
  {
    if ById(e, c) {
      match e
      case HelloRead(_, m) => MessageRequests(sys.conns[c], m);
      case StreamRead(_, m) => MessageRequests(sys.conns[c], m);
      case HandshakeRead(_, m, authorized, claims) => HandshakeRequests(sys.conns[c], m, authorized, claims);
      case _ =>
    }
  }

  /** A stream gains a session only by creating or resuming it. */
  lemma SessionKept(sys: System, e: Event, c: ConnectionId)
    requires Enabled(sys, e) && c in ConnStep(sys, e)
    requires !(ById(e, c) && (e.SessionCreated? || e.SessionResumed?))
    ensures ConnStep(sys, e)[c].session == if c in sys.conns then sys.conns[c].session else None
    ensures ConnStep(sys, e)[c].phase != Gone && c in sys.conns && !ById(e, c) ==> sys.conns[c] == ConnStep(sys, e)[c]
  {
  }

  lemma GoneStaysGone(sys: System, e: Event, c: ConnectionId)
    requires Enabled(sys, e) && c in sys.conns && sys.conns[c].phase == Gone
    ensures c in ConnStep(sys, e) && ConnStep(sys, e)[c].phase == Gone
  {
  }

  /** The record of a session somebody else owns is left as it is. */
  lemma OwnedUntouched(ttl: u64, sys: System, e: Event, c: ConnectionId, id: S.SessionId)
    requires Inv(sys) && Enabled(sys, e) && Owns(sys, c, id) && !ById(e, c)
    requires e.SessionCreated? ==> e.id !in sys.sessions
    ensures id in TableStep(ttl, sys, e) && TableStep(ttl, sys, e)[id] == sys.sessions[id]
  {
    if e.Closed? && sys.conns[e.c].session.Some? {
      assert Owns(sys, e.c, sys.conns[e.c].session.value);
    }
  }

  lemma OwnStepKeepsActive(ttl: u64, sys: System, e: Event, c: ConnectionId, id: S.SessionId)
    requires Inv(sys) && Enabled(sys, e) && ById(e, c) && Owns(sys, c, id)
    ensures Owns(Step(ttl, sys, e), c, id) ==> TableStep(ttl, sys, e) == sys.sessions
  {
  }

  /** What a stream owns after a step it owned before, or has just created or resumed. */
  lemma OwnershipMoves(ttl: u64, sys: System, e: Event, c: ConnectionId, id: S.SessionId)
    requires Inv(sys) && Enabled(sys, e) && Owns(Step(ttl, sys, e), c, id)
    requires e.SessionCreated? ==> e.id !in sys.sessions
    ensures Owns(sys, c, id)
         || (ById(e, c) && (e.SessionCreated? || e.SessionResumed?) && (forall o :: !Owns(sys, o, id))
             && id in TableStep(ttl, sys, e) && TableStep(ttl, sys, e)[id].state == S.Active)
  {
    if ById(e, c) && (e.SessionCreated? || e.SessionResumed?) {
      if o :| Owns(sys, o, id) {
        assert false;
      }
    } else {
      SessionKept(sys, e, c);
      if c in sys.conns && sys.conns[c].phase == Gone {
        GoneStaysGone(sys, e, c);
      }
    }
  }

  lemma StepKeepsInv(ttl: u64, sys: System, e: Event)
    requires Inv(sys) && Enabled(sys, e)
    requires e.SessionCreated? ==> e.id !in sys.sessions
    ensures Inv(Step(ttl, sys, e))
  {
    var next := Step(ttl, sys, e);
    forall a, b, id | Owns(next, a, id) && Owns(next, b, id)
      ensures a == b
    {
      OwnershipMoves(ttl, sys, e, a, id);
      OwnershipMoves(ttl, sys, e, b, id);
    }
    forall c, id | Owns(next, c, id)
      ensures id in next.sessions && next.sessions[id].state == S.Active
    {
      OwnershipMoves(ttl, sys, e, c, id);
      if Owns(sys, c, id) {
        if ById(e, c) {
          OwnStepKeepsActive(ttl, sys, e, c, id);
        } else {
          OwnedUntouched(ttl, sys, e, c, id);
        }
      }
    }
    forall c | c in next.conns
      ensures RequestedOnce(next.conns[c])
    {
      StepRequests(sys, e, c);
    }
  }

  lemma {:induction false} InvHolds(ttl: u64, run: seq<Event>)
    requires Possible(ttl, run) && FreshIds(ttl, run)
    ensures Inv(After(ttl, run))
  {
    if |run| == 0 {
    } else {
      InvHolds(ttl, run[..|run| - 1]);
      StepKeepsInv(ttl, After(ttl, run[..|run| - 1]), run[|run| - 1]);
    }
  }

  /**
   * Ownership: in every interleaving, early exits included, a session has at most one live
   * owner, and an owned session is active.
   */
  lemma AtMostOneOwner(ttl: u64, run: seq<Event>, a: ConnectionId, b: ConnectionId, id: S.SessionId)
    requires Possible(ttl, run) && FreshIds(ttl, run)
    requires Owns(After(ttl, run), a, id) && Owns(After(ttl, run), b, id)
    ensures a == b
    ensures id in After(ttl, run).sessions && After(ttl, run).sessions[id].state == S.Active
  {
    InvHolds(ttl, run);
  }

  /** No step of another stream, and no pruning, changes the record of an owned session. */
  lemma OthersLeaveItAlone(ttl: u64, run: seq<Event>, c: ConnectionId, id: S.SessionId)
    requires |run| > 0 && Possible(ttl, run) && FreshIds(ttl, run)
    requires var front := run[..|run| - 1];
             Owns(After(ttl, front), c, id) && !ById(run[|run| - 1], c)
    ensures var front := run[..|run| - 1];
            && Owns(After(ttl, run), c, id)
            && id in After(ttl, front).sessions && id in After(ttl, run).sessions
            && After(ttl, run).sessions[id] == After(ttl, front).sessions[id]
  {
    var front := run[..|run| - 1];
    InvHolds(ttl, front);
    OwnedUntouched(ttl, After(ttl, front), run[|run| - 1], c, id);
  }

  // ----- sessions stranded by an early exit

  /** An active session that no live stream owns. */
  ghost predicate Stranded(sys: System, id: S.SessionId) {
    id in sys.sessions && sys.sessions[id].state == S.Active && forall c :: !Owns(sys, c, id)
  }

  /** When a stream vanishes, the session it owned is stranded. */
  lemma VanishingStrands(ttl: u64, sys: System, c: ConnectionId, id: S.SessionId)
    requires Inv(sys) && Owns(sys, c, id)
    ensures Stranded(Step(ttl, sys, Failed(c)), id)
  {
    var next := Step(ttl, sys, Failed(c));
    forall o
      ensures !Owns(next, o, id)
    {
      if Owns(next, o, id) {
        OwnershipMoves(ttl, sys, Failed(c), o, id);
      }
    }
  }

  lemma StrandedStep(ttl: u64, sys: System, e: Event, id: S.SessionId)
    requires Inv(sys) && Enabled(sys, e) && Stranded(sys, id)
    requires e.SessionCreated? ==> e.id !in sys.sessions
    ensures Stranded(Step(ttl, sys, e), id) && Step(ttl, sys, e).sessions[id] == sys.sessions[id]
  {
    var next := Step(ttl, sys, e);
    if e.Closed? && sys.conns[e.c].session.Some? {
      assert Owns(sys, e.c, sys.conns[e.c].session.value);
    }
    assert id in next.sessions && next.sessions[id] == sys.sessions[id];
    forall o
      ensures !Owns(next, o, id)
    {
      if Owns(next, o, id) {
        OwnershipMoves(ttl, sys, e, o, id);
      }
    }
  }

  /** A stranded session is never touched again: it cannot be resumed, held, pruned or ended. */
  lemma {:induction false} StrandedForever(ttl: u64, run: seq<Event>, k: nat, id: S.SessionId)
    requires Possible(ttl, run) && FreshIds(ttl, run) && k <= |run|
    requires Possible(ttl, run[..k]) && Stranded(After(ttl, run[..k]), id)
    ensures Stranded(After(ttl, run), id)
    ensures After(ttl, run).sessions[id] == After(ttl, run[..k]).sessions[id]
  {
    if k == |run| {
      assert run[..k] == run;
    } else {
      var front := run[..|run| - 1];
      assert front[..k] == run[..k];
      StrandedForever(ttl, front, k, id);
      InvHolds(ttl, front);
      StrandedStep(ttl, After(ttl, front), run[|run| - 1], id);
    }
  }

  // ----- the table's own guarantees carry over

  /** The lock-held regions that ran, in order. */
  ghost function TableRun(ttl: u64, run: seq<Event>): seq<S.Event>
    requires Possible(ttl, run)
  {
    if |run| == 0 then []
    else
      var front := run[..|run| - 1];
      TableRun(ttl, front) + match TableEvent(After(ttl, front), run[|run| - 1]) case Some(event) => [event] case None => []
  }

  /** The shared table is the one its own runs produce, so what holds of those holds here. */
  lemma {:induction false} TableRefines(ttl: u64, run: seq<Event>)
    requires Possible(ttl, run)
    ensures After(ttl, run).sessions == S.After(ttl, TableRun(ttl, run))
  {
    if |run| == 0 {
    } else {
      var front := run[..|run| - 1];
      TableRefines(ttl, front);
      var all := TableRun(ttl, run);
      if TableEvent(After(ttl, front), run[|run| - 1]).Some? {
        assert all[..|all| - 1] == TableRun(ttl, front);
      } else {
        assert all == TableRun(ttl, front);
      }
    }
  }

  /** Over every interleaving of streams, no resume nonce is accepted twice. */
  lemma ResumedAtMostOnce(ttl: u64, run: seq<Event>, j: nat, k: nat)
    requires Possible(ttl, run) && S.Fresh(TableRun(ttl, run))
    requires j < k < |TableRun(ttl, run)|
    requires S.AcceptedAt(ttl, TableRun(ttl, run), j) && S.AcceptedAt(ttl, TableRun(ttl, run), k)
    ensures TableRun(ttl, run)[j].claims.nonce != TableRun(ttl, run)[k].claims.nonce
  {
    S.AcceptedAtMostOnce(ttl, TableRun(ttl, run), j, k);
  }
}
