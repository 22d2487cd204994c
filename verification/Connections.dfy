/** The server's side of a control connection: the handshake and what it gates. */
module Connections {
  import opened Wrappers

  datatype ControlMessage =
    | Hello
    | HelloAck
    | Authenticate(identityToken: string)
    | ResumeSession(resumeToken: string)
    | AuthResult(authSuccess: bool)
    | ResumeResult(resumeSuccess: bool)
    | PointerShape
    | PointerButton
    | PointerWheel
    | KeyboardKey
    | InputFocus
    | Goodbye

  datatype HandshakeAction =
    | ValidateToken(identityToken: string)
    | ValidateResumeToken(resumeToken: string)

  datatype ConnectionError =
    | DuplicateHello
    | DuplicateAuthenticate
    | DuplicateResumeSession
    | ConflictingHandshakeMessage
    | UnexpectedMessage(message: ControlMessage)
    | AuthNotComplete

  datatype State = State(
    helloReceived: bool,
    goodbyeSent: bool,
    goodbyeReceived: bool,
    authReceived: bool,
    resumeReceived: bool,
    authResultSent: bool,
    resumeResultSent: bool,
    authSuccess: Option<bool>)

  datatype Reply = Reply(responses: seq<ControlMessage>, action: Option<HandshakeAction>)

  const START := State(false, false, false, false, false, false, false, None)

  predicate IsInput(m: ControlMessage) {
    m.PointerButton? || m.PointerWheel? || m.KeyboardKey? || m.InputFocus?
  }

  predicate SessionEstablished(s: State) {
    (s.authResultSent || s.resumeResultSent) && s.authSuccess == Some(true)
  }

  predicate OrderlyShutdownComplete(s: State) {
    s.goodbyeSent || s.goodbyeReceived
  }

  const NOTHING := Reply([], None)

  function Receive(s: State, m: ControlMessage): (State, Result<Reply, ConnectionError>) {
    match m
    case Hello =>
      if s.helloReceived then (s, Err(DuplicateHello))
      else (s.(helloReceived := true), Ok(Reply([HelloAck], None)))
    case Authenticate(token) =>
      if !s.helloReceived then (s, Err(UnexpectedMessage(m)))
      else if s.resumeReceived then (s, Err(ConflictingHandshakeMessage))
      else if s.authReceived then (s, Err(DuplicateAuthenticate))
      else (s.(authReceived := true), Ok(Reply([], Some(ValidateToken(token)))))
    case ResumeSession(token) =>
      if !s.helloReceived then (s, Err(UnexpectedMessage(m)))
      else if s.authReceived then (s, Err(ConflictingHandshakeMessage))
      else if s.resumeReceived then (s, Err(DuplicateResumeSession))
      else (s.(resumeReceived := true), Ok(Reply([], Some(ValidateResumeToken(token)))))
    case PointerButton | PointerWheel | KeyboardKey | InputFocus =>
      if SessionEstablished(s) then (s, Ok(NOTHING)) else (s, Err(AuthNotComplete))
    case Goodbye => (s.(goodbyeReceived := true), Ok(NOTHING))
    case HelloAck | AuthResult(_) | ResumeResult(_) | PointerShape => (s, Err(UnexpectedMessage(m)))
  }

  class ControlConnection {
    var sent: seq<ControlMessage>
    var received: seq<ControlMessage>
    var helloReceived: bool
    var goodbyeSent: bool
    var goodbyeReceived: bool
    var authReceived: bool
    var resumeReceived: bool
    var authResultSent: bool
    var resumeResultSent: bool
    var authSuccess: Option<bool>

    ghost function Abstract(): State
      reads this
    {
      State(helloReceived, goodbyeSent, goodbyeReceived, authReceived, resumeReceived,
            authResultSent, resumeResultSent, authSuccess)
    }

    constructor ()
      ensures Abstract() == START && sent == [] && received == []
    {
      sent, received := [], [];
      helloReceived, goodbyeSent, goodbyeReceived := false, false, false;
      authReceived, resumeReceived, authResultSent, resumeResultSent := false, false, false, false;
      authSuccess := None;
    }

    method BypassAuth()
      modifies this
      ensures Abstract() == old(Abstract()).(authSuccess := Some(true), authResultSent := true)
      ensures sent == old(sent) && received == old(received)
    {
      authSuccess := Some(true);
      authResultSent := true;
    }

    method RecordAuthResult(success: bool) returns (m: ControlMessage)
      modifies this
      ensures Abstract() == old(Abstract()).(authSuccess := Some(success), authResultSent := true)
      ensures m == AuthResult(success) && sent == old(sent) + [m] && received == old(received)
    {
      authSuccess := Some(success);
      authResultSent := true;
      m := AuthResult(success);
      sent := sent + [m];
    }

    method RecordResumeResult(success: bool) returns (m: ControlMessage)
      modifies this
      ensures Abstract() == old(Abstract()).(authSuccess := Some(success), resumeResultSent := true)
      ensures m == ResumeResult(success) && sent == old(sent) + [m] && received == old(received)
    {
      authSuccess := Some(success);
      resumeResultSent := true;
      m := ResumeResult(success);
      sent := sent + [m];
    }

    method InitiateGoodbye() returns (m: ControlMessage)
      modifies this
      ensures Abstract() == old(Abstract()).(goodbyeSent := true)
      ensures m == Goodbye && sent == old(sent) + [m] && received == old(received)
    {
      m := Goodbye;
      goodbyeSent := true;
      sent := sent + [m];
    }

    /** A message enters the transcript even when it is then refused. */
    method OnReceive(m: ControlMessage) returns (r: Result<Reply, ConnectionError>)
      modifies this
      ensures (Abstract(), r) == Receive(old(Abstract()), m)
      ensures received == old(received) + [m]
      ensures sent == old(sent) + if r.Ok? then r.value.responses else []
    {
      received := received + [m];
      match m
      case Hello =>
        if helloReceived {
          return Err(DuplicateHello);
        }
        helloReceived := true;
        sent := sent + [HelloAck];
        return Ok(Reply([HelloAck], None));
      case Authenticate(token) =>
        if !helloReceived {
          return Err(UnexpectedMessage(m));
        }
        if resumeReceived {
          return Err(ConflictingHandshakeMessage);
        }
        if authReceived {
          return Err(DuplicateAuthenticate);
        }
        authReceived := true;
        return Ok(Reply([], Some(ValidateToken(token))));
      case ResumeSession(token) =>
        if !helloReceived {
          return Err(UnexpectedMessage(m));
        }
        if authReceived {
          return Err(ConflictingHandshakeMessage);
        }
        if resumeReceived {
          return Err(DuplicateResumeSession);
        }
        resumeReceived := true;
        return Ok(Reply([], Some(ValidateResumeToken(token))));
      case PointerButton | PointerWheel | KeyboardKey | InputFocus =>
        var established := (authResultSent || resumeResultSent) && authSuccess == Some(true);
        if !established {
          return Err(AuthNotComplete);
        }
        return Ok(NOTHING);
      case Goodbye =>
        goodbyeReceived := true;
        return Ok(NOTHING);
      case HelloAck | AuthResult(_) | ResumeResult(_) | PointerShape =>
        return Err(UnexpectedMessage(m));
    }
  }

  // ----- whole runs of one connection

  datatype Event =
    | Received(message: ControlMessage)
    | Bypassed
    | AuthRecorded(success: bool)
    | ResumeRecorded(success: bool)
    | GoodbyeInitiated

  function Step(s: State, e: Event): State {
    match e
    case Received(m) => Receive(s, m).0
    case Bypassed => s.(authSuccess := Some(true), authResultSent := true)
    case AuthRecorded(success) => s.(authSuccess := Some(success), authResultSent := true)
    case ResumeRecorded(success) => s.(authSuccess := Some(success), resumeResultSent := true)
    case GoodbyeInitiated => s.(goodbyeSent := true)
  }

  function After(run: seq<Event>): State {
    if |run| == 0 then START else Step(After(run[..|run| - 1]), run[|run| - 1])
  }

  predicate Accepted(run: seq<Event>, k: nat)
    requires k < |run|
  {
    run[k].Received? && Receive(After(run[..k]), run[k].message).1.Ok?
  }

  /** Event k asks the server to validate a token. */
  predicate Acts(run: seq<Event>, k: nat)
    requires k < |run|
  {
    Accepted(run, k) && Receive(After(run[..k]), run[k].message).1.value.action.Some?
  }

  predicate IsRecord(e: Event) {
    e.AuthRecorded? || e.ResumeRecorded?
  }

  /**
   * The server records a result only as its very next step after the connection asked for a
   * validation, and of the same kind.
   */
  ghost predicate Disciplined(run: seq<Event>) {
    forall k | 0 <= k < |run| && IsRecord(run[k]) ::
      k > 0 && Acts(run, k - 1) && (run[k].AuthRecorded? <==> run[k - 1].message.Authenticate?)
  }

  lemma {:induction false} HelloCameFirst(run: seq<Event>) returns (h: nat)
    requires After(run).helloReceived
    ensures h < |run| && run[h] == Received(Hello)
  {
    var n := |run| - 1;
    if After(run[..n]).helloReceived {
      h := HelloCameFirst(run[..n]);
    } else {
      h := n;
    }
  }

  lemma StepKeepsRequest(s: State, e: Event)
    requires s.authReceived || s.resumeReceived
    ensures Step(s, e).authReceived || Step(s, e).resumeReceived
  {
  }

  /** Once a validation was asked for, the connection remembers it. */
  lemma {:induction false} RequestRemembered(run: seq<Event>, j: nat)
    requires j < |run| && Acts(run, j)
    ensures After(run).authReceived || After(run).resumeReceived
  {
    var n := |run| - 1;
    if j >= n {
    } else {
      assert run[..n][..j] == run[..j];
      RequestRemembered(run[..n], j);
      StepKeepsRequest(After(run[..n]), run[n]);
    }
  }

  lemma ActsOnce(run: seq<Event>, j: nat, k: nat)
    requires j < k < |run| && Acts(run, j)
    ensures !Acts(run, k)
  {
    assert run[..k][..j] == run[..j];
    RequestRemembered(run[..k], j);
  }

  /** A connection asks for at most one validation, and only after a hello. */
  lemma AtMostOneAction(run: seq<Event>, k: nat)
    requires k < |run| && Acts(run, k)
    ensures exists h :: 0 <= h < k && run[h] == Received(Hello)
    ensures forall j | 0 <= j < |run| && Acts(run, j) :: j == k
  {
    var h := HelloCameFirst(run[..k]);
    assert run[h] == Received(Hello);
    forall j | 0 <= j < |run| && Acts(run, j)
      ensures j == k
    {
      if j < k {
        ActsOnce(run, j, k);
      } else if k < j {
        ActsOnce(run, k, j);
      }
    }
  }

  /** The verdict recorded last, a bypass counting as a success. */
  function Verdict(run: seq<Event>): Option<bool> {
    if |run| == 0 then None else VerdictAfter(Verdict(run[..|run| - 1]), run[|run| - 1])
  }

  function VerdictAfter(before: Option<bool>, e: Event): Option<bool> {
    match e
    case Bypassed => Some(true)
    case AuthRecorded(success) => Some(success)
    case ResumeRecorded(success) => Some(success)
    case _ => before
  }

  lemma ReceiveKeepsVerdict(s: State, m: ControlMessage)
    ensures var s' := Receive(s, m).0;
            s'.authSuccess == s.authSuccess && s'.authResultSent == s.authResultSent
            && s'.resumeResultSent == s.resumeResultSent
  {
  }

  /** A state that shows the verdict still shows it after one more event. */
  lemma VerdictStep(s: State, v: Option<bool>, e: Event)
    requires s.authSuccess == v && (v.Some? ==> s.authResultSent || s.resumeResultSent)
    ensures var s', v' := Step(s, e), VerdictAfter(v, e);
            s'.authSuccess == v' && (v'.Some? ==> s'.authResultSent || s'.resumeResultSent)
  {
    if e.Received? {
      ReceiveKeepsVerdict(s, e.message);
    }
  }

  lemma {:induction false} EstablishedIsVerdict(run: seq<Event>)
    ensures After(run).authSuccess == Verdict(run)
    ensures Verdict(run).Some? ==> After(run).authResultSent || After(run).resumeResultSent
  {
    if |run| == 0 {
    } else {
      var n := |run| - 1;
      EstablishedIsVerdict(run[..n]);
      VerdictStep(After(run[..n]), Verdict(run[..n]), run[n]);
    }
  }

  /** Input is accepted exactly while the last verdict is a success. */
  lemma InputNeedsVerdict(run: seq<Event>, k: nat)
    requires k < |run| && run[k].Received? && IsInput(run[k].message)
    ensures Accepted(run, k) <==> Verdict(run[..k]) == Some(true)
  {
    EstablishedIsVerdict(run[..k]);
  }

  lemma {:induction false} VerdictSource(run: seq<Event>, k: nat)
    requires k <= |run| && Verdict(run[..k]).Some?
    ensures exists i :: 0 <= i < k && Gives(run[i], Verdict(run[..k]).value)
  {
    assert run[..k][..k - 1] == run[..k - 1];
    if run[k - 1].Bypassed? || IsRecord(run[k - 1]) {
      assert Gives(run[k - 1], Verdict(run[..k]).value);
    } else {
      VerdictSource(run, k - 1);
    }
  }

  predicate Gives(e: Event, verdict: bool) {
    (e.Bypassed? && verdict) || e == AuthRecorded(verdict) || e == ResumeRecorded(verdict)
  }

  lemma {:induction false} VerdictStays(run: seq<Event>, i: nat, k: nat, verdict: bool)
    requires i < k <= |run| && Gives(run[i], verdict)
    requires forall j | i < j < k :: !run[j].Bypassed? && !IsRecord(run[j])
    ensures Verdict(run[..k]) == Some(verdict)
  {
    assert run[..k][..k - 1] == run[..k - 1];
    if i == k - 1 {
    } else {
      VerdictStays(run, i, k - 1, verdict);
    }
  }

  /**
   * The handshake gate, without bypass: an input message is accepted if and only if the one
   * validation this connection ever asked for was answered with success before it.
   */
  lemma HandshakeGate(run: seq<Event>, k: nat)
    requires Disciplined(run) && forall j | 0 <= j < |run| :: !run[j].Bypassed?
    requires k < |run| && run[k].Received? && IsInput(run[k].message)
    ensures Accepted(run, k) <==>
            exists a :: 0 <= a && a + 1 < k && Acts(run, a) && Gives(run[a + 1], true)
  {
    InputNeedsVerdict(run, k);
    if Accepted(run, k) {
      VerdictSource(run, k);
      var i :| 0 <= i < k && Gives(run[i], true);
      assert IsRecord(run[i]);
      assert Acts(run, i - 1) && Gives(run[i - 1 + 1], true);
    }
    if a :| 0 <= a && a + 1 < k && Acts(run, a) && Gives(run[a + 1], true) {
      forall j | a + 1 < j < k
        ensures !run[j].Bypassed? && !IsRecord(run[j])
      {
        if IsRecord(run[j]) {
          AtMostOneAction(run, a);
        }
      }
      VerdictStays(run, a + 1, k, true);
    }
  }

  /**
   * A connection whose validation was not answered at once never accepts input.
   */
  lemma UnansweredHandshakeIsDead(run: seq<Event>, a: nat, k: nat)
    requires Disciplined(run) && forall j | 0 <= j < |run| :: !run[j].Bypassed?
    requires a < |run| && Acts(run, a) && (a + 1 < |run| ==> !IsRecord(run[a + 1]))
    requires k < |run| && run[k].Received? && IsInput(run[k].message)
    ensures !Accepted(run, k)
  {
    HandshakeGate(run, k);
    AtMostOneAction(run, a);
  }
}
