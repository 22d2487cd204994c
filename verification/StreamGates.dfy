/** The handshake gate and early exits, for every control stream of the modelled server. */
module StreamGates {
  import opened Wrappers
  import opened Bytes
  import S = Sessions
  import C = Connections
  import opened SessionOwnership

  predicate Live(sys: System, c: ConnectionId) {
    c in sys.conns && sys.conns[c].phase != Gone
  }

  // ----- what a live stream may accept

  /** On a live stream the three ways of knowing that a session exists agree. */
  predicate VerdictFits(k: Conn) {
    k.phase != Gone ==>
      && (C.SessionEstablished(k.proto) <==> k.session.Some?)
      && (k.established <==> k.session.Some?)
  }

  ghost predicate VerdictsFit(sys: System) {
    forall c | c in sys.conns :: VerdictFits(sys.conns[c])
  }

  lemma MessageFits(k: Conn, m: C.ControlMessage)
    requires VerdictFits(k) && k.phase != Gone
    ensures VerdictFits(AfterMessage(k, m))
  {
    C.ReceiveKeepsVerdict(k.proto, m);
  }

  lemma HandshakeFits(k: Conn, m: C.ControlMessage, authorized: bool, claims: Option<S.Claims>)
    requires VerdictFits(k) && k.phase != Gone
    ensures VerdictFits(AfterHandshakeMessage(k, m, authorized, claims))
  {
    C.ReceiveKeepsVerdict(k.proto, m);
  }

  lemma ConnFits(sys: System, e: Event, c: ConnectionId)
    requires Enabled(sys, e) && VerdictsFit(sys) && Inv(sys) && c in ConnStep(sys, e)
    ensures VerdictFits(ConnStep(sys, e)[c])
  {
    if ById(e, c) && c in sys.conns && sys.conns[c].phase != Gone {
      match e
      case HelloRead(_, m) => MessageFits(sys.conns[c], m);
      case StreamRead(_, m) => MessageFits(sys.conns[c], m);
      case HandshakeRead(_, m, authorized, claims) => HandshakeFits(sys.conns[c], m, authorized, claims);
      case _ =>
    }
  }

  lemma {:induction false} VerdictsHold(ttl: u64, run: seq<Event>)
    requires Possible(ttl, run) && FreshIds(ttl, run)
    ensures VerdictsFit(After(ttl, run))
  {
    if |run| == 0 {
    } else {
      var front := run[..|run| - 1];
      var sys, e := After(ttl, front), run[|run| - 1];
      VerdictsHold(ttl, front);
      InvHolds(ttl, front);
      forall c | c in ConnStep(sys, e) ensures VerdictFits(ConnStep(sys, e)[c]) {
        ConnFits(sys, e, c);
      }
    }
  }

  /**
   * The gate and the ownership joined: in every interleaving a live stream accepts an input
   * message if and only if it owns an active session.
   */
  lemma InputNeedsOwnedSession(ttl: u64, run: seq<Event>, c: ConnectionId, input: C.ControlMessage)
    requires Possible(ttl, run) && FreshIds(ttl, run) && C.IsInput(input)
    requires Live(After(ttl, run), c)
    ensures var sys := After(ttl, run);
            C.Receive(sys.conns[c].proto, input).1.Ok?
            <==> exists id :: Owns(sys, c, id) && id in sys.sessions && sys.sessions[id].state == S.Active
  {
    var sys := After(ttl, run);
    VerdictsHold(ttl, run);
    InvHolds(ttl, run);
    if sys.conns[c].session.Some? {
      assert Owns(sys, c, sys.conns[c].session.value);
    }
  }

  // ----- early exits

  /** The stream returns before its closing block: a refused message, or any other early return. */
  predicate EarlyExit(sys: System, e: Event, c: ConnectionId) {
    || e == Failed(c)
    || ((e.HelloRead? || e.HandshakeRead? || e.StreamRead?) && e.c == c && c in sys.conns
        && C.Receive(sys.conns[c].proto, e.message).1.Err?)
  }

  /** A stream that owns a session stays live except at its own closing block or an early exit. */
  lemma OwnerLeaves(sys: System, e: Event, c: ConnectionId, id: S.SessionId)
    requires Inv(sys) && VerdictsFit(sys) && Enabled(sys, e) && Owns(sys, c, id)
    ensures c in ConnStep(sys, e)
    ensures ConnStep(sys, e)[c].phase == Gone <==> EarlyExit(sys, e, c) || (e.Closed? && e.c == c)
    ensures ConnStep(sys, e)[c].session == Some(id)
  {
    assert VerdictFits(sys.conns[c]) && RequestedOnce(sys.conns[c]);
    if ById(e, c) && e.HandshakeRead? {
      OwnerAsksNothing(sys.conns[c], e.message);
    }
  }

  lemma OwnerAsksNothing(k: Conn, m: C.ControlMessage)
    requires RequestedOnce(k) && k.session.Some?
    ensures C.Receive(k.proto, m).1.Ok? ==> C.Receive(k.proto, m).1.value.action.None?
  {}

  lemma LeavingStrands(ttl: u64, sys: System, e: Event, c: ConnectionId, id: S.SessionId)
    requires Inv(sys) && VerdictsFit(sys) && Enabled(sys, e) && Owns(sys, c, id) && EarlyExit(sys, e, c)
    ensures Stranded(Step(ttl, sys, e), id)
  {
    var next := Step(ttl, sys, e);
    OwnerLeaves(sys, e, c, id);
    forall o ensures !Owns(next, o, id) {
      if Owns(next, o, id) {
        OwnershipMoves(ttl, sys, e, o, id);
      }
    }
  }

  lemma ClosingEnds(ttl: u64, sys: System, e: Event, c: ConnectionId, id: S.SessionId)
    requires Inv(sys) && Enabled(sys, e) && Owns(sys, c, id) && e.Closed? && e.c == c
    ensures !Stranded(Step(ttl, sys, e), id)
  {}

  /** One step strands an owned session if and only if it is an early exit of its owner. */
  lemma StrandedByEarlyExit(ttl: u64, sys: System, e: Event, c: ConnectionId, id: S.SessionId)
    requires Inv(sys) && VerdictsFit(sys) && Enabled(sys, e) && Owns(sys, c, id)
    ensures Stranded(Step(ttl, sys, e), id) <==> EarlyExit(sys, e, c)
  {
    OwnerLeaves(sys, e, c, id);
    if EarlyExit(sys, e, c) {
      LeavingStrands(ttl, sys, e, c, id);
    } else if e.Closed? && e.c == c {
      ClosingEnds(ttl, sys, e, c, id);
    } else {
      assert Owns(Step(ttl, sys, e), c, id);
    }
  }

  // ----- how a session comes to be stranded, and when

  lemma {:induction false} PossiblePrefix(ttl: u64, run: seq<Event>, k: nat)
    requires Possible(ttl, run) && FreshIds(ttl, run) && k <= |run|
    ensures Possible(ttl, run[..k]) && FreshIds(ttl, run[..k])
    ensures k < |run| ==> Enabled(After(ttl, run[..k]), run[k])
  {
    if k == |run| {
      assert run[..k] == run;
    } else {
      var front := run[..|run| - 1];
      PossiblePrefix(ttl, front, k);
      assert front[..k] == run[..k];
    }
  }

  /** Event k is the early exit of an owner of the session. */
  ghost predicate AbandonedAt(ttl: u64, run: seq<Event>, k: nat, id: S.SessionId) {
    && k < |run| && Possible(ttl, run[..k])
    && exists c :: Owns(After(ttl, run[..k]), c, id) && EarlyExit(After(ttl, run[..k]), run[k], c)
  }

  /** A session that no stream owned is not stranded by becoming active: it then has an owner. */
  lemma ActivatedIsOwned(ttl: u64, sys: System, e: Event, id: S.SessionId)
    requires Inv(sys) && Enabled(sys, e) && (e.SessionCreated? ==> e.id !in sys.sessions)
    requires !(id in sys.sessions && sys.sessions[id].state == S.Active)
    ensures !Stranded(Step(ttl, sys, e), id)
  {
    var next := Step(ttl, sys, e);
    if id in next.sessions && next.sessions[id].state == S.Active {
      assert Owns(next, e.c, id);
    }
  }

  lemma StrandedSince(ttl: u64, sys: System, e: Event, id: S.SessionId)
    requires Inv(sys) && VerdictsFit(sys) && Enabled(sys, e) && (e.SessionCreated? ==> e.id !in sys.sessions)
    requires Stranded(Step(ttl, sys, e), id) && !Stranded(sys, id)
    ensures exists c :: Owns(sys, c, id) && EarlyExit(sys, e, c)
  {
    if id in sys.sessions && sys.sessions[id].state == S.Active {
      var c :| Owns(sys, c, id);
      StrandedByEarlyExit(ttl, sys, e, c, id);
    } else {
      ActivatedIsOwned(ttl, sys, e, id);
    }
  }

  lemma {:induction false} WhenAbandoned(ttl: u64, run: seq<Event>, id: S.SessionId) returns (k: nat)
    requires Possible(ttl, run) && FreshIds(ttl, run) && Stranded(After(ttl, run), id)
    ensures AbandonedAt(ttl, run, k, id)
  {
    var n := |run| - 1;
    var front := run[..n];
    if Stranded(After(ttl, front), id) {
      k := WhenAbandoned(ttl, front, id);
      assert front[..k] == run[..k];
    } else {
      k := n;
      InvHolds(ttl, front);
      VerdictsHold(ttl, front);
      StrandedSince(ttl, After(ttl, front), run[n], id);
    }
  }

  /**
   * Exactly when a session is stranded: some stream that owned it left early, on a message it
   * refused or on any other early return. From then on it stays stranded.
   */
  lemma StrandedExactly(ttl: u64, run: seq<Event>, id: S.SessionId)
    requires Possible(ttl, run) && FreshIds(ttl, run)
    ensures Stranded(After(ttl, run), id) <==> exists k :: AbandonedAt(ttl, run, k, id)
  {
    if Stranded(After(ttl, run), id) {
      var k := WhenAbandoned(ttl, run, id);
    }
    if k :| AbandonedAt(ttl, run, k, id) {
      AbandonedStays(ttl, run, k, id);
    }
  }

  lemma AbandonedStays(ttl: u64, run: seq<Event>, k: nat, id: S.SessionId)
    requires Possible(ttl, run) && FreshIds(ttl, run) && AbandonedAt(ttl, run, k, id)
    ensures Stranded(After(ttl, run), id)
  {
    var c :| Owns(After(ttl, run[..k]), c, id) && EarlyExit(After(ttl, run[..k]), run[k], c);
    PossiblePrefix(ttl, run, k);
    PossiblePrefix(ttl, run, k + 1);
    InvHolds(ttl, run[..k]);
    VerdictsHold(ttl, run[..k]);
    assert run[..k + 1][..k] == run[..k];
    StrandedByEarlyExit(ttl, After(ttl, run[..k]), run[k], c, id);
    StrandedForever(ttl, run, k + 1, id);
  }

  /** Whatever message a stream that owns a session refuses, that session is stranded by it. */
  lemma RefusedMessageStrands(ttl: u64, run: seq<Event>, c: ConnectionId, m: C.ControlMessage, id: S.SessionId)
    requires Possible(ttl, run) && FreshIds(ttl, run) && Owns(After(ttl, run), c, id)
    requires After(ttl, run).conns[c].phase == Streaming && C.Receive(After(ttl, run).conns[c].proto, m).1.Err?
    ensures Enabled(After(ttl, run), StreamRead(c, m))
    ensures Stranded(Step(ttl, After(ttl, run), StreamRead(c, m)), id)
  {
    InvHolds(ttl, run);
    VerdictsHold(ttl, run);
    StrandedByEarlyExit(ttl, After(ttl, run), StreamRead(c, m), c, id);
  }

  lemma Extend(ttl: u64, run: seq<Event>, e: Event)
    requires Possible(ttl, run) && FreshIds(ttl, run) && Enabled(After(ttl, run), e)
    requires e.SessionCreated? ==> e.id !in After(ttl, run).sessions
    ensures Possible(ttl, run + [e]) && FreshIds(ttl, run + [e])
    ensures After(ttl, run + [e]) == Step(ttl, After(ttl, run), e)
  {
    assert (run + [e])[..|run + [e]| - 1] == run;
  }

  // ----- it happens

  const OPENED: seq<Event> := [Opened(0)]
  const GREETED: seq<Event> := OPENED + [HelloRead(0, C.Hello)]
  const LISTENING: seq<Event> := GREETED + [HelloDone(0)]
  const LOGGING_IN: seq<Event> := LISTENING + [HandshakeRead(0, C.Authenticate(""), true, None)]

  lemma GreetedReached(ttl: u64)
    ensures Possible(ttl, GREETED) && FreshIds(ttl, GREETED)
    ensures After(ttl, GREETED) == System(map[], map[0 := FRESH_CONN.(proto := C.START.(helloReceived := true))])
  {
    assert [] + [Opened(0)] == OPENED;
    Extend(ttl, [], Opened(0));
    Extend(ttl, OPENED, HelloRead(0, C.Hello));
  }

  lemma LoginReached(ttl: u64)
    ensures Possible(ttl, LOGGING_IN) && FreshIds(ttl, LOGGING_IN)
    ensures var sys := After(ttl, LOGGING_IN);
            sys.sessions == map[] && InPhase(sys, 0, Creating) && sys.conns[0].proto.helloReceived
  {
    GreetedReached(ttl);
    Extend(ttl, GREETED, HelloDone(0));
    Extend(ttl, LISTENING, HandshakeRead(0, C.Authenticate(""), true, None));
  }

  lemma StreamingReached(ttl: u64, id: S.SessionId, nonce: S.Nonce) returns (run: seq<Event>)
    ensures run == LOGGING_IN + [SessionCreated(0, id, "", None, nonce, 0)] + [HandshakeDone(0, false)]
    ensures Possible(ttl, run) && FreshIds(ttl, run)
    ensures InPhase(After(ttl, run), 0, Streaming) && Owns(After(ttl, run), 0, id)
    ensures After(ttl, run).conns[0].proto.helloReceived
  {
    LoginReached(ttl);
    var created := LOGGING_IN + [SessionCreated(0, id, "", None, nonce, 0)];
    Extend(ttl, LOGGING_IN, SessionCreated(0, id, "", None, nonce, 0));
    Extend(ttl, created, HandshakeDone(0, false));
    run := created + [HandshakeDone(0, false)];
  }

  /** A client logs in, reaches the message loop, and says hello a second time. */
  lemma SecondHelloStrands(ttl: u64, id: S.SessionId, nonce: S.Nonce) returns (run: seq<Event>)
    ensures |run| > 0 && run[|run| - 1] == StreamRead(0, C.Hello)
    ensures Possible(ttl, run) && FreshIds(ttl, run) && Stranded(After(ttl, run), id)
  {
    var streaming := StreamingReached(ttl, id, nonce);
    RefusedMessageStrands(ttl, streaming, 0, C.Hello, id);
    Extend(ttl, streaming, StreamRead(0, C.Hello));
    run := streaming + [StreamRead(0, C.Hello)];
  }

  // ----- handshake messages in the first batch

  /** The one validation this stream may ask for was asked for and ignored. */
  predicate IgnoredConn(k: Conn) {
    && (k.proto.authReceived || k.proto.resumeReceived)
    && k.session.None? && k.phase != Creating && !k.phase.Resuming?
  }

  predicate Ignored(sys: System, c: ConnectionId) {
    c in sys.conns && IgnoredConn(sys.conns[c])
  }

  lemma IgnoredMessage(k: Conn, m: C.ControlMessage, authorized: bool, claims: Option<S.Claims>)
    requires IgnoredConn(k)
    ensures IgnoredConn(AfterMessage(k, m)) && IgnoredConn(AfterHandshakeMessage(k, m, authorized, claims))
  {}

  lemma IgnoredStays(ttl: u64, sys: System, e: Event, c: ConnectionId)
    requires Enabled(sys, e) && Ignored(sys, c)
    ensures Ignored(Step(ttl, sys, e), c)
  {
    if ById(e, c) {
      match e
      case HelloRead(_, m) => IgnoredMessage(sys.conns[c], m, false, None);
      case StreamRead(_, m) => IgnoredMessage(sys.conns[c], m, false, None);
      case HandshakeRead(_, m, authorized, claims) => IgnoredMessage(sys.conns[c], m, authorized, claims);
      case _ =>
    }
  }

  lemma {:induction false} IgnoredForever(ttl: u64, run: seq<Event>, k: nat, c: ConnectionId)
    requires Possible(ttl, run) && k <= |run| && Possible(ttl, run[..k]) && Ignored(After(ttl, run[..k]), c)
    ensures Ignored(After(ttl, run), c)
  {
    if k == |run| {
      assert run[..k] == run;
    } else {
      var front := run[..|run| - 1];
      assert front[..k] == run[..k];
      IgnoredForever(ttl, front, k, c);
      IgnoredStays(ttl, After(ttl, front), run[|run| - 1], c);
    }
  }

  /** The validation this stream asked for is being answered, or was. */
  predicate AnsweredConn(k: Conn) {
    k.phase == Gone || k.phase == Creating || k.phase.Resuming? || k.session.Some?
  }

  lemma AnsweredStays(ttl: u64, sys: System, e: Event, c: ConnectionId)
    requires Enabled(sys, e) && c in sys.conns && AnsweredConn(sys.conns[c])
    ensures c in ConnStep(sys, e) && AnsweredConn(ConnStep(sys, e)[c])
  {
    if !(ById(e, c) && (e.SessionCreated? || e.SessionResumed?)) {
      SessionKept(sys, e, c);
    }
  }

  lemma {:induction false} AnsweredForever(ttl: u64, run: seq<Event>, k: nat, c: ConnectionId)
    requires Possible(ttl, run) && k <= |run| && Possible(ttl, run[..k])
    requires c in After(ttl, run[..k]).conns && AnsweredConn(After(ttl, run[..k]).conns[c])
    ensures c in After(ttl, run).conns && AnsweredConn(After(ttl, run).conns[c])
  {
    if k == |run| {
      assert run[..k] == run;
    } else {
      var front := run[..|run| - 1];
      assert front[..k] == run[..k];
      AnsweredForever(ttl, front, k, c);
      AnsweredStays(ttl, After(ttl, front), run[|run| - 1], c);
    }
  }

  /** Event k brings stream c a handshake message, which the connection accepts. */
  ghost predicate HandshakeAccepted(ttl: u64, run: seq<Event>, k: nat, c: ConnectionId) {
    && k < |run| && Possible(ttl, run[..k])
    && var e := run[k];
       && (e.HelloRead? || e.HandshakeRead? || e.StreamRead?) && e.c == c
       && (e.message.Authenticate? || e.message.ResumeSession?)
       && c in After(ttl, run[..k]).conns
       && C.Receive(After(ttl, run[..k]).conns[c].proto, e.message).1.Ok?
  }

  /** In the second batch the message is acted on, in any other batch it is ignored. */
  lemma HandshakeStep(ttl: u64, sys: System, e: Event)
    requires Enabled(sys, e) && (e.HelloRead? || e.HandshakeRead? || e.StreamRead?)
    requires RequestedOnce(sys.conns[e.c]) && (e.message.Authenticate? || e.message.ResumeSession?)
    requires C.Receive(sys.conns[e.c].proto, e.message).1.Ok?
    ensures if e.HandshakeRead? then AnsweredConn(ConnStep(sys, e)[e.c]) else Ignored(Step(ttl, sys, e), e.c)
  {}

  lemma HandshakeFollows(ttl: u64, run: seq<Event>, k: nat, c: ConnectionId)
    requires Possible(ttl, run) && FreshIds(ttl, run) && HandshakeAccepted(ttl, run, k, c)
    ensures c in After(ttl, run).conns
    ensures if run[k].HandshakeRead? then AnsweredConn(After(ttl, run).conns[c]) else Ignored(After(ttl, run), c)
  {
    PossiblePrefix(ttl, run, k);
    PossiblePrefix(ttl, run, k + 1);
    InvHolds(ttl, run[..k]);
    assert run[..k + 1][..k] == run[..k];
    HandshakeStep(ttl, After(ttl, run[..k]), run[k]);
    if run[k].HandshakeRead? {
      AnsweredForever(ttl, run, k + 1, c);
    } else {
      IgnoredForever(ttl, run, k + 1, c);
    }
  }

  /**
   * Exactly which handshake messages are answered. On a stream that is still live, and not in the
   * middle of answering, an accepted handshake message has led to a session, and input is
   * accepted, if and only if it came in the second batch; in the first batch and in the message
   * loop its action is dropped.
   */
  lemma HandshakeAnsweredExactly(ttl: u64, run: seq<Event>, k: nat, c: ConnectionId, input: C.ControlMessage)
    requires Possible(ttl, run) && FreshIds(ttl, run) && HandshakeAccepted(ttl, run, k, c)
    requires Live(After(ttl, run), c) && C.IsInput(input)
    requires After(ttl, run).conns[c].phase != Creating && !After(ttl, run).conns[c].phase.Resuming?
    ensures After(ttl, run).conns[c].session.Some? <==> run[k].HandshakeRead?
    ensures C.Receive(After(ttl, run).conns[c].proto, input).1.Ok? <==> run[k].HandshakeRead?
  {
    HandshakeFollows(ttl, run, k, c);
    VerdictsHold(ttl, run);
    assert VerdictFits(After(ttl, run).conns[c]);
  }

  /**
   * In particular a handshake message accepted in the first batch gets its stream no session in
   * any continuation, and no input is accepted as long as the stream lives.
   */
  lemma FirstBatchHandshakeIsDead(ttl: u64, run: seq<Event>, k: nat, c: ConnectionId, m: C.ControlMessage,
                                  input: C.ControlMessage)
    requires Possible(ttl, run) && FreshIds(ttl, run) && C.IsInput(input)
    requires k < |run| && run[k] == HelloRead(c, m) && (m.Authenticate? || m.ResumeSession?)
    requires Possible(ttl, run[..k]) && c in After(ttl, run[..k]).conns
    requires C.Receive(After(ttl, run[..k]).conns[c].proto, m).1.Ok?
    ensures c in After(ttl, run).conns && forall id :: !Owns(After(ttl, run), c, id)
    ensures Live(After(ttl, run), c) ==> C.Receive(After(ttl, run).conns[c].proto, input).1.Err?
  {
    HandshakeFollows(ttl, run, k, c);
    if Live(After(ttl, run), c) {
      HandshakeAnsweredExactly(ttl, run, k, c, input);
    }
  }

  /** It happens: hello and authentication in one batch. */
  lemma PipelinedLogin(ttl: u64)
    ensures Possible(ttl, GREETED) && FreshIds(ttl, GREETED)
    ensures Enabled(After(ttl, GREETED), HelloRead(0, C.Authenticate("")))
    ensures C.Receive(After(ttl, GREETED).conns[0].proto, C.Authenticate("")).1.Ok?
  {
    GreetedReached(ttl);
  }

  const SAID_GOODBYE: seq<Event> := LISTENING + [HandshakeRead(0, C.Goodbye, false, None)]
  const NOT_LOGGED_IN: seq<Event> := SAID_GOODBYE + [HandshakeDone(0, false)]

  lemma GoodbyeReached(ttl: u64)
    ensures Possible(ttl, SAID_GOODBYE) && FreshIds(ttl, SAID_GOODBYE)
    ensures After(ttl, SAID_GOODBYE)
         == System(map[], map[0 := FRESH_CONN.(proto := C.START.(helloReceived := true, goodbyeReceived := true),
                                               phase := HandshakePhase)])
  {
    GreetedReached(ttl);
    Extend(ttl, GREETED, HelloDone(0));
    Extend(ttl, LISTENING, HandshakeRead(0, C.Goodbye, false, None));
  }

  /** It happens in the message loop: hello, goodbye and authentication, each in a batch of its own. */
  lemma LateLogin(ttl: u64)
    ensures Possible(ttl, NOT_LOGGED_IN) && FreshIds(ttl, NOT_LOGGED_IN)
    ensures Enabled(After(ttl, NOT_LOGGED_IN), StreamRead(0, C.Authenticate("")))
    ensures C.Receive(After(ttl, NOT_LOGGED_IN).conns[0].proto, C.Authenticate("")).1.Ok?
  {
    GoodbyeReached(ttl);
    Extend(ttl, SAID_GOODBYE, HandshakeDone(0, false));
  }

  // ----- every stream keeps the discipline the handshake gate needs

  /** What one step does to the protocol state of stream c. */
  function ProtoEvents(sys: System, e: Event, c: ConnectionId): seq<C.Event>
    requires Enabled(sys, e)
  {
    if !ById(e, c) || c !in sys.conns then []
    else
      var k := sys.conns[c];
      match e
      case HelloRead(_, m) => [C.Received(m)]
      case StreamRead(_, m) => [C.Received(m)]
      case HandshakeRead(_, m, authorized, claims) => [C.Received(m)] + Refusal(k.proto, m, authorized, claims)
      case SessionCreated(_, _, _, _, _, _) => [C.AuthRecorded(true)]
      case SessionResumed(_, now, issued) =>
        [C.ResumeRecorded(S.Resume(sys.sessions, k.phase.claims, now, issued).1.Ok?)]
      case HandshakeDone(_, closes) => if closes && k.proto.helloReceived then [C.GoodbyeInitiated] else []
      case _ => []
  }

  /** A validation that fails is answered at once. */
  function Refusal(proto: C.State, m: C.ControlMessage, authorized: bool, claims: Option<S.Claims>): seq<C.Event> {
    var r := C.Receive(proto, m).1;
    if r.Err? || r.value.action.None? then []
    else if m.Authenticate? then (if authorized then [] else [C.AuthRecorded(false)])
    else if claims.Some? then [] else [C.ResumeRecorded(false)]
  }

  /** The protocol events of stream c, in order. */
  ghost function ProtoRun(ttl: u64, run: seq<Event>, c: ConnectionId): seq<C.Event>
    requires Possible(ttl, run)
  {
    if |run| == 0 then []
    else
      var front := run[..|run| - 1];
      ProtoRun(ttl, front, c) + ProtoEvents(After(ttl, front), run[|run| - 1], c)
  }

  lemma AfterAppended(p: seq<C.Event>, e: C.Event)
    ensures C.After(p + [e]) == C.Step(C.After(p), e)
  {
    assert (p + [e])[..|p + [e]| - 1] == p;
  }

  lemma ActsAppended(p: seq<C.Event>, e: C.Event, j: nat)
    requires j <= |p|
    ensures j < |p| ==> (C.Acts(p + [e], j) <==> C.Acts(p, j))
    ensures j == |p| && e.Received? ==>
              (C.Acts(p + [e], j) <==>
               C.Receive(C.After(p), e.message).1.Ok? && C.Receive(C.After(p), e.message).1.value.action.Some?)
  {
    assert (p + [e])[..j] == p[..j];
    assert p[..|p|] == p;
  }

  /** The stream waits for a verdict on its last message. */
  ghost predicate Waiting(p: seq<C.Event>, auth: bool) {
    |p| > 0 && C.Acts(p, |p| - 1) && (auth <==> p[|p| - 1].message.Authenticate?)
  }

  /** Disciplined, and nobody bypassed authentication. */
  ghost predicate Orderly(p: seq<C.Event>) {
    C.Disciplined(p) && forall j | 0 <= j < |p| :: !p[j].Bypassed?
  }

  lemma OrderlyAppended(p: seq<C.Event>, e: C.Event)
    requires Orderly(p) && !e.Bypassed?
    requires C.IsRecord(e) ==> Waiting(p, e.AuthRecorded?)
    ensures Orderly(p + [e])
  {
    forall k | 0 <= k < |p + [e]| && C.IsRecord((p + [e])[k])
      ensures k > 0 && C.Acts(p + [e], k - 1)
              && ((p + [e])[k].AuthRecorded? <==> (p + [e])[k - 1].message.Authenticate?)
    {
      ActsAppended(p, e, k - 1);
    }
  }

  /** The protocol run of a stream fits its state in the system. */
  ghost predicate ProtoFits(p: seq<C.Event>, k: Conn) {
    && C.After(p) == k.proto && Orderly(p)
    && (k.phase == Creating ==> Waiting(p, true))
    && (k.phase.Resuming? ==> Waiting(p, false))
  }

  /** A message is received, and nothing recorded for it yet. */
  lemma ReceivedFits(p: seq<C.Event>, k: Conn, m: C.ControlMessage)
    requires ProtoFits(p, k)
    ensures var q := p + [C.Received(m)];
            var (proto, r) := C.Receive(k.proto, m);
            && Orderly(q) && C.After(q) == proto
            && (r.Ok? && r.value.action.Some? ==> (m.Authenticate? || m.ResumeSession?) && Waiting(q, m.Authenticate?))
  {
    AfterAppended(p, C.Received(m));
    OrderlyAppended(p, C.Received(m));
    ActsAppended(p, C.Received(m), |p|);
  }

  lemma RecordedFits(q: seq<C.Event>, e: C.Event)
    requires Orderly(q) && C.IsRecord(e) && Waiting(q, e.AuthRecorded?)
    ensures Orderly(q + [e]) && C.After(q + [e]) == C.Step(C.After(q), e)
  {
    AfterAppended(q, e);
    OrderlyAppended(q, e);
  }

  lemma HandshakeReadFits(p: seq<C.Event>, k: Conn, m: C.ControlMessage, authorized: bool, claims: Option<S.Claims>)
    requires ProtoFits(p, k) && k.phase == HandshakePhase
    ensures ProtoFits(p + ([C.Received(m)] + Refusal(k.proto, m, authorized, claims)),
                      AfterHandshakeMessage(k, m, authorized, claims))
  {
    var q := p + [C.Received(m)];
    var refusal := Refusal(k.proto, m, authorized, claims);
    ReceivedFits(p, k, m);
    Rejoined(p, C.Received(m), refusal);
    if refusal != [] {
      RecordedFits(q, refusal[0]);
    }
  }

  lemma Rejoined(p: seq<C.Event>, e: C.Event, rest: seq<C.Event>)
    ensures p + ([e] + rest) == (p + [e]) + rest
    ensures rest == [] ==> (p + [e]) + rest == p + [e]
  {}

  lemma ProtoStep(sys: System, e: Event, c: ConnectionId, p: seq<C.Event>)
    requires Enabled(sys, e) && c in sys.conns && ProtoFits(p, sys.conns[c])
    ensures c in ConnStep(sys, e) && ProtoFits(p + ProtoEvents(sys, e, c), ConnStep(sys, e)[c])
  {
    var k := sys.conns[c];
    assert p + [] == p;
    if ById(e, c) {
      match e
      case HelloRead(_, m) => ReceivedFits(p, k, m);
      case StreamRead(_, m) => ReceivedFits(p, k, m);
      case HandshakeRead(_, m, authorized, claims) => HandshakeReadFits(p, k, m, authorized, claims);
      case SessionCreated(_, _, _, _, _, _) => RecordedFits(p, C.AuthRecorded(true));
      case SessionResumed(_, now, issued) =>
        RecordedFits(p, C.ResumeRecorded(S.Resume(sys.sessions, k.phase.claims, now, issued).1.Ok?));
      case HandshakeDone(_, closes) =>
        AfterAppended(p, C.GoodbyeInitiated);
        OrderlyAppended(p, C.GoodbyeInitiated);
      case _ =>
    }
  }

  /** Each stream's protocol state is the one its own events produce, and these are disciplined. */
  lemma {:induction false} StreamsAreDisciplined(ttl: u64, run: seq<Event>, c: ConnectionId)
    requires Possible(ttl, run)
    ensures if c in After(ttl, run).conns then ProtoFits(ProtoRun(ttl, run, c), After(ttl, run).conns[c])
            else ProtoRun(ttl, run, c) == []
  {
    if |run| == 0 {
    } else {
      var front := run[..|run| - 1];
      var sys, e := After(ttl, front), run[|run| - 1];
      StreamsAreDisciplined(ttl, front, c);
      if c in sys.conns {
        ProtoStep(sys, e, c, ProtoRun(ttl, front, c));
      }
    }
  }

  /**
   * The handshake gate of every stream in every interleaving, with nothing assumed about what
   * the server records: an input message is accepted if and only if the one validation the
   * stream asked for was answered with success before it.
   */
  lemma GateOfEveryStream(ttl: u64, run: seq<Event>, c: ConnectionId, k: nat)
    requires Possible(ttl, run) && k < |ProtoRun(ttl, run, c)|
    requires var e := ProtoRun(ttl, run, c)[k]; e.Received? && C.IsInput(e.message)
    ensures var p := ProtoRun(ttl, run, c);
            C.Accepted(p, k) <==> exists a :: 0 <= a && a + 1 < k && C.Acts(p, a) && C.Gives(p[a + 1], true)
  {
    StreamsAreDisciplined(ttl, run, c);
    C.HandshakeGate(ProtoRun(ttl, run, c), k);
  }
}
