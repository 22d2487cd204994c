/** How a stream that leaves its message loop closes the session it owns. */
module StreamEnds {
  import opened Wrappers
  import opened Bytes
  import S = Sessions
  import C = Connections
  import opened SessionOwnership
  import opened StreamGates

  /** A goodbye was sent or received. */
  predicate SaidGoodbye(k: Conn) {
    k.proto.goodbyeSent || k.proto.goodbyeReceived
  }

  /** The stream is about to run its closing block on the session it owns. */
  ghost predicate AboutToClose(sys: System, c: ConnectionId, id: S.SessionId) {
    && Owns(sys, c, id) && id in sys.sessions && sys.sessions[id].state == S.Active
    && (InPhase(sys, c, ClosingHeld) || InPhase(sys, c, ClosingTerminated))
  }

  /** The closing block takes one of two ways. */
  lemma ClosingBlock(ttl: u64, sys: System, c: ConnectionId, id: S.SessionId, now: u64)
    requires AboutToClose(sys, c, id)
    ensures Enabled(sys, Closed(c, now))
    ensures var t := Step(ttl, sys, Closed(c, now));
            && InPhase(t, c, Gone) && id in t.sessions
            && (if InPhase(sys, c, ClosingHeld)
                then t.sessions[id].state == S.Held && t.sessions[id].nonce == sys.sessions[id].nonce
                     && (now + ttl < U64_MODULUS ==> t.sessions[id].holdExpiresAt == Some(now + ttl))
                else t.sessions[id].state == S.Terminated && t.sessions[id].nonce.None?)
  {}

  /** Closed at time now, the session is held if no goodbye was said, and terminated otherwise. */
  ghost predicate ClosesRightly(ttl: u64, sys: System, c: ConnectionId, id: S.SessionId, goodbye: bool, now: u64) {
    && Enabled(sys, Closed(c, now))
    && var t := Step(ttl, sys, Closed(c, now));
       && id in t.sessions
       && (t.sessions[id].state == S.Held <==> !goodbye)
       && (t.sessions[id].state == S.Terminated <==> goodbye)
       && (!goodbye && now + ttl < U64_MODULUS ==> t.sessions[id].holdExpiresAt == Some(now + ttl))
  }

  /** The three ways out of the message loop, from a stream that owns a session. */
  lemma LoopEnds(ttl: u64, sys: System, e: Event, c: ConnectionId, id: S.SessionId)
    requires Inv(sys) && VerdictsFit(sys) && Owns(sys, c, id) && sys.conns[c].phase == Streaming
    requires e == PeerClosed(c) || e == ReadFailed(c) || (e == BatchDone(c) && SaidGoodbye(sys.conns[c]))
    ensures Enabled(sys, e)
    ensures AboutToClose(Step(ttl, sys, e), c, id)
    ensures InPhase(Step(ttl, sys, e), c, ClosingHeld) <==> !SaidGoodbye(sys.conns[c])
  {
    assert VerdictFits(sys.conns[c]);
  }

  /**
   * A stream that owns a session and leaves its message loop, because the peer closed it, reading
   * failed, or a goodbye was said, closes the session as the source promises: it is held for ttl
   * seconds if no goodbye was sent or received, and terminated otherwise.
   */
  lemma LoopEndsClose(ttl: u64, run: seq<Event>, e: Event, c: ConnectionId, id: S.SessionId, now: u64)
    requires Possible(ttl, run) && FreshIds(ttl, run)
    requires Owns(After(ttl, run), c, id) && After(ttl, run).conns[c].phase == Streaming
    requires e == PeerClosed(c) || e == ReadFailed(c) || (e == BatchDone(c) && SaidGoodbye(After(ttl, run).conns[c]))
    ensures Enabled(After(ttl, run), e)
    ensures ClosesRightly(ttl, Step(ttl, After(ttl, run), e), c, id, SaidGoodbye(After(ttl, run).conns[c]), now)
  {
    InvHolds(ttl, run);
    VerdictsHold(ttl, run);
    LoopEnds(ttl, After(ttl, run), e, c, id);
    ClosingBlock(ttl, Step(ttl, After(ttl, run), e), c, id, now);
  }

  /** A batch without a goodbye leaves the stream in its loop. */
  lemma BatchGoesOn(ttl: u64, sys: System, c: ConnectionId)
    requires InPhase(sys, c, Streaming) && !SaidGoodbye(sys.conns[c])
    ensures Enabled(sys, BatchDone(c)) && Step(ttl, sys, BatchDone(c)) == sys
  {
    assert sys.conns[c := sys.conns[c]] == sys.conns;
  }

  /** Once the loop was left, the way of closing is fixed: other streams do not change it. */
  lemma ClosingStays(ttl: u64, run: seq<Event>, e: Event, c: ConnectionId, id: S.SessionId)
    requires Possible(ttl, run) && FreshIds(ttl, run) && AboutToClose(After(ttl, run), c, id)
    requires Enabled(After(ttl, run), e) && !ById(e, c) && (e.SessionCreated? ==> e.id !in After(ttl, run).sessions)
    ensures AboutToClose(Step(ttl, After(ttl, run), e), c, id)
    ensures Step(ttl, After(ttl, run), e).conns[c] == After(ttl, run).conns[c]
  {
    InvHolds(ttl, run);
    OwnedUntouched(ttl, After(ttl, run), e, c, id);
  }

  /** A stream that reads a goodbye has said goodbye, and so has one whose server starts to close. */
  lemma GoodbyeIsSaid(ttl: u64, sys: System, c: ConnectionId)
    requires c in sys.conns
    ensures InPhase(sys, c, Streaming) ==> SaidGoodbye(Step(ttl, sys, StreamRead(c, C.Goodbye)).conns[c])
    ensures InPhase(sys, c, HandshakePhase) && sys.conns[c].proto.helloReceived ==>
              SaidGoodbye(Step(ttl, sys, HandshakeDone(c, true)).conns[c])
  {}

  /** The session a handshake ends with: the one just created, or the one just resumed. */
  lemma HandshakeGives(ttl: u64, sys: System, e: Event)
    requires Enabled(sys, e) && (e.SessionCreated? || e.SessionResumed?)
    ensures e.SessionCreated? ==>
              && Owns(Step(ttl, sys, e), e.c, e.id) && e.id in Step(ttl, sys, e).sessions
              && Step(ttl, sys, e).sessions[e.id].nonce == Some(e.nonce)
    ensures e.SessionResumed? && Step(ttl, sys, e).conns[e.c].phase != Gone ==>
              var id := sys.conns[e.c].phase.claims.sessionId;
              Owns(Step(ttl, sys, e), e.c, id) && Step(ttl, sys, e).sessions[id].nonce == e.issued
  {}
}
