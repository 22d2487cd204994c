/** Which messages a server's control connection accepts, and what it answers, by what came before. */
module ConnectionLaws {
  import opened Wrappers
  import opened Connections

  /** The event happened before. */
  predicate Happened(run: seq<Event>, e: Event) {
    exists j :: 0 <= j < |run| && run[j] == e
  }

  /** A handshake message was accepted before. */
  predicate HasActed(run: seq<Event>) {
    exists j :: 0 <= j < |run| && Acts(run, j)
  }

  lemma HappenedLast(run: seq<Event>, e: Event)
    requires |run| > 0
    ensures Happened(run, e) <==> Happened(run[..|run| - 1], e) || run[|run| - 1] == e
  {
    var front := run[..|run| - 1];
    assert forall j | 0 <= j < |front| :: front[j] == run[j];
  }

  lemma ActedLast(run: seq<Event>)
    requires |run| > 0
    ensures HasActed(run) <==> HasActed(run[..|run| - 1]) || Acts(run, |run| - 1)
  {
    var front := run[..|run| - 1];
    forall j | 0 <= j < |front| ensures Acts(front, j) <==> Acts(run, j) {
      assert front[..j] == run[..j];
    }
    if HasActed(run) && !Acts(run, |run| - 1) {
      var j :| 0 <= j < |run| && Acts(run, j);
      assert Acts(front, j);
    }
  }

  /** A message asks for a validation. */
  predicate Requests(s: State, m: ControlMessage) {
    Receive(s, m).1.Ok? && Receive(s, m).1.value.action.Some?
  }

  lemma ReceiveHello(s: State, m: ControlMessage)
    ensures Receive(s, m).0.helloReceived <==> s.helloReceived || m.Hello?
  {}

  lemma ReceiveGoodbye(s: State, m: ControlMessage)
    ensures Receive(s, m).0.goodbyeReceived <==> s.goodbyeReceived || m.Goodbye?
    ensures Receive(s, m).0.goodbyeSent == s.goodbyeSent
  {}

  lemma ReceiveRequests(s: State, m: ControlMessage)
    ensures var s' := Receive(s, m).0;
            s'.authReceived || s'.resumeReceived <==> s.authReceived || s.resumeReceived || Requests(s, m)
  {}

  /** One step, seen by the flags that gate what follows. */
  lemma FlagsStep(s: State, e: Event)
    ensures var s' := Step(s, e);
            && (s'.helloReceived <==> s.helloReceived || e == Received(Hello))
            && (s'.goodbyeReceived <==> s.goodbyeReceived || e == Received(Goodbye))
            && (s'.goodbyeSent <==> s.goodbyeSent || e == GoodbyeInitiated)
  {
    if e.Received? {
      ReceiveHello(s, e.message);
      ReceiveGoodbye(s, e.message);
    }
  }

  lemma RequestStep(s: State, e: Event)
    ensures var s' := Step(s, e);
            s'.authReceived || s'.resumeReceived
            <==> s.authReceived || s.resumeReceived || (e.Received? && Requests(s, e.message))
  {
    if e.Received? {
      ReceiveRequests(s, e.message);
    }
  }

  /** The flags remember exactly what happened. */
  lemma {:induction false} FlagsRemember(run: seq<Event>)
    ensures After(run).helloReceived <==> Happened(run, Received(Hello))
    ensures After(run).goodbyeReceived <==> Happened(run, Received(Goodbye))
    ensures After(run).goodbyeSent <==> Happened(run, GoodbyeInitiated)
    ensures After(run).authReceived || After(run).resumeReceived <==> HasActed(run)
  {
    if |run| == 0 {
    } else {
      var front := run[..|run| - 1];
      FlagsRemember(front);
      FlagsStep(After(front), run[|run| - 1]);
      RequestStep(After(front), run[|run| - 1]);
      HappenedLast(run, Received(Hello));
      HappenedLast(run, Received(Goodbye));
      HappenedLast(run, GoodbyeInitiated);
      ActedLast(run);
    }
  }

  /**
   * Exactly which messages are accepted: the first hello; the first handshake message, behind a
   * hello; input while the last verdict is a success; any goodbye; and nothing that only a server
   * sends.
   */
  lemma AcceptedExactly(run: seq<Event>, k: nat)
    requires k < |run| && run[k].Received?
    ensures var m := run[k].message;
            Accepted(run, k) <==>
            match m
            case Hello => !Happened(run[..k], Received(Hello))
            case Authenticate(_) | ResumeSession(_) => Happened(run[..k], Received(Hello)) && !HasActed(run[..k])
            case PointerButton | PointerWheel | KeyboardKey | InputFocus => Verdict(run[..k]) == Some(true)
            case Goodbye => true
            case HelloAck | AuthResult(_) | ResumeResult(_) | PointerShape => false
  {
    FlagsRemember(run[..k]);
    if IsInput(run[k].message) {
      InputNeedsVerdict(run, k);
    }
  }

  /**
   * What an accepted message is answered with: a hello with an acknowledgement, a handshake
   * message with the validation of its own token, and everything else with nothing.
   */
  lemma AnsweredExactly(run: seq<Event>, k: nat)
    requires k < |run| && run[k].Received? && Accepted(run, k)
    ensures var reply := Receive(After(run[..k]), run[k].message).1.value;
            && reply.responses == (if run[k].message.Hello? then [HelloAck] else [])
            && reply.action == match run[k].message
                               case Authenticate(token) => Some(ValidateToken(token))
                               case ResumeSession(token) => Some(ValidateResumeToken(token))
                               case _ => None
  {}

  /** How a message is refused. */
  lemma RefusedExactly(run: seq<Event>, k: nat)
    requires k < |run| && run[k].Received? && !Accepted(run, k)
    ensures var m := run[k].message;
            var error := Receive(After(run[..k]), m).1.error;
            && (error == DuplicateHello <==> m.Hello?)
            && (error == AuthNotComplete <==> IsInput(m))
            && (error == UnexpectedMessage(m) <==>
                  || m.HelloAck? || m.AuthResult? || m.ResumeResult? || m.PointerShape?
                  || ((m.Authenticate? || m.ResumeSession?) && !Happened(run[..k], Received(Hello))))
            && Receive(After(run[..k]), m).0 == After(run[..k])
  {
    FlagsRemember(run[..k]);
  }
}
