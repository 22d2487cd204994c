/** What input replay keeps over every run of events, whatever calls the backend fails. */
module InputRuns {
  import opened Wrappers
  import opened Bytes
  import opened Input

  // ----- what the backend's record says about one switch

  datatype Press = Press(phase: Phase, ok: bool)

  predicate About(c: Call, x: Switch) {
    c.request.Turn? && c.request.switch == x
  }

  /** The last call about a switch. */
  function LastTurn(log: seq<Call>, x: Switch): Option<Press> {
    if |log| == 0 then None
    else
      var c := log[|log| - 1];
      if About(c, x) then Some(Press(c.request.phase, c.ok)) else LastTurn(log[..|log| - 1], x)
  }

  /** Whether the operating system holds the switch down: its last successful call pressed it. */
  predicate Held(log: seq<Call>, x: Switch) {
    |log| > 0 &&
    var c := log[|log| - 1];
    if About(c, x) && c.ok then c.request.phase.Down? else Held(log[..|log| - 1], x)
  }

  /** Whether the last attempt to press the switch failed. */
  predicate LastDownFailed(log: seq<Call>, x: Switch) {
    |log| > 0 &&
    var c := log[|log| - 1];
    if About(c, x) && c.request.phase.Down? then !c.ok else LastDownFailed(log[..|log| - 1], x)
  }

  /** No call presses the switch when the last call about it did. */
  predicate Alternates(log: seq<Call>, x: Switch) {
    |log| == 0 ||
    (var front, c := log[..|log| - 1], log[|log| - 1];
     && Alternates(front, x)
     && (About(c, x) && c.request.phase.Down? ==> LastTurn(front, x).None? || LastTurn(front, x).value.phase.Up?))
  }

  predicate Balanced(log: seq<Call>, x: Switch, tracked: bool) {
    var last := LastTurn(log, x);
    && Alternates(log, x)
    && (!tracked ==> last.None? || last.value.phase.Up?)
    && (!tracked && Held(log, x) ==> last == Some(Press(Up, false)))
    && (!tracked && last == Some(Press(Up, false)) && !LastDownFailed(log, x) ==> Held(log, x))
    && (tracked && !Held(log, x) ==> LastDownFailed(log, x))
  }

  // ----- what it says about the pointer

  function Larger(a: u64, b: u64): u64 {
    if a < b then b else a
  }

  /** The largest sequence number of the pointer events replayed. */
  function Newest(log: seq<Call>): u64 {
    if |log| == 0 then 0
    else
      var c := log[|log| - 1];
      if c.ok && c.request.Move? then Larger(Newest(log[..|log| - 1]), c.request.origin.sequence)
      else Newest(log[..|log| - 1])
  }

  predicate Targeted(r: Request) {
    r.Move? ==>
      var b := r.origin.bounds;
      && (b.left <= b.right || Extent(b.left, b.right) <= 1 ==> Inside(b.left, b.right, r.x))
      && (b.top <= b.bottom || Extent(b.top, b.bottom) <= 1 ==> Inside(b.top, b.bottom, r.y))
  }

  predicate PointerSound(log: seq<Call>) {
    |log| == 0 ||
    (var front, r := log[..|log| - 1], log[|log| - 1].request;
     && PointerSound(front)
     && Targeted(r)
     && (r.Move? && r.origin.motion ==> Newest(front) < r.origin.sequence))
  }

  ghost predicate Good(s: State) {
    && (forall x :: Balanced(s.log, x, Tracked(s, x)))
    && PointerSound(s.log)
    && s.lastSequence == Newest(s.log)
  }

  predicate Unfocused(s: State) {
    !s.focus ==> s.buttons == {} && s.keys == {}
  }

  // ----- one call at a time

  lemma Extended(log: seq<Call>, c: Call)
    ensures (log + [c])[..|log + [c]| - 1] == log
  {}

  lemma PerformScroll(s: State, request: Request, fails: nat -> bool)
    requires Good(s) && request.Scroll?
    ensures Good(Perform(s, request, fails).0)
  {
    var t := Perform(s, request, fails).0;
    Extended(s.log, t.log[|s.log|]);
    forall x ensures Balanced(t.log, x, Tracked(t, x)) {
      assert Balanced(s.log, x, Tracked(s, x));
    }
  }

  lemma MoveKeepsBalance(s: State, request: Request, fails: nat -> bool, x: Switch)
    requires request.Move? && Balanced(s.log, x, Tracked(s, x))
    ensures var t := Perform(s, request, fails).0; Balanced(t.log, x, Tracked(t, x))
  {
    Extended(s.log, Perform(s, request, fails).0.log[|s.log|]);
  }

  lemma PointTargeted(s: State, motion: bool, x: i32, y: i32, sequence: u64)
    ensures Targeted(Point(s, motion, x, y, sequence))
  {
    DesktopCoordinateSpec(s.bounds.left, s.bounds.right);
    DesktopCoordinateSpec(s.bounds.top, s.bounds.bottom);
  }

  lemma MoveFirstKeeps(s: State, motion: bool, x: i32, y: i32, sequence: u64, fails: nat -> bool)
    requires Good(s) && (motion ==> s.lastSequence < sequence)
    ensures Good(MoveFirst(s, motion, x, y, sequence, fails).0)
  {
    var request := Point(s, motion, x, y, sequence);
    var t := MoveFirst(s, motion, x, y, sequence, fails).0;
    PointTargeted(s, motion, x, y, sequence);
    Extended(s.log, t.log[|s.log|]);
    forall w ensures Balanced(t.log, w, Tracked(t, w)) {
      assert Balanced(s.log, w, Tracked(s, w));
      MoveKeepsBalance(s, request, fails, w);
    }
  }

  lemma TurnOther(log: seq<Call>, x: Switch, c: Call, tracked: bool)
    requires Balanced(log, x, tracked) && !About(c, x)
    ensures Balanced(log + [c], x, tracked)
  {
    Extended(log, c);
  }

  lemma TurnDown(log: seq<Call>, x: Switch, ok: bool)
    requires Balanced(log, x, false)
    ensures Balanced(log + [Call(Turn(x, Down), ok)], x, true)
  {
    Extended(log, Call(Turn(x, Down), ok));
  }

  /** A switch is forgotten before its release, or only after the release succeeded. */
  lemma TurnUp(log: seq<Call>, x: Switch, ok: bool, tracked: bool)
    requires Balanced(log, x, true) && (tracked ==> !ok)
    ensures Balanced(log + [Call(Turn(x, Up), ok)], x, tracked)
  {
    Extended(log, Call(Turn(x, Up), ok));
  }

  /** From s to t one call about x was made, and only x may have changed its tracking. */
  lemma Turned(s: State, t: State, x: Switch, phase: Phase, ok: bool)
    requires Good(s)
    requires t.log == s.log + [Call(Turn(x, phase), ok)] && t.lastSequence == s.lastSequence
    requires forall w | w != x :: Tracked(t, w) == Tracked(s, w)
    requires if phase.Down? then !Tracked(s, x) && Tracked(t, x) else Tracked(s, x) && (Tracked(t, x) ==> !ok)
    ensures Good(t)
  {
    Extended(s.log, Call(Turn(x, phase), ok));
    forall w ensures Balanced(t.log, w, Tracked(t, w)) {
      assert Balanced(s.log, w, Tracked(s, w));
      TurnAny(s.log, w, x, phase, ok, Tracked(s, w), Tracked(t, w));
    }
  }

  lemma TurnAny(log: seq<Call>, w: Switch, x: Switch, phase: Phase, ok: bool, before: bool, after: bool)
    requires Balanced(log, w, before)
    requires if w != x then after == before
             else if phase.Down? then !before && after else before && (after ==> !ok)
    ensures Balanced(log + [Call(Turn(x, phase), ok)], w, after)
  {
    if w != x {
      TurnOther(log, w, Call(Turn(x, phase), ok), before);
    } else if phase.Down? {
      TurnDown(log, x, ok);
    } else {
      TurnUp(log, x, ok, after);
    }
  }

  lemma TurnSwitchKeeps(s: State, x: Switch, phase: Phase, fails: nat -> bool)
    requires Good(s)
    ensures Good(TurnSwitch(s, x, phase, fails).0)
  {
    var (t, ok) := TurnSwitch(s, x, phase, fails);
    if phase.Down? && !Tracked(s, x) {
      Turned(s, t, x, Down, ok);
    } else if phase.Up? && Tracked(s, x) {
      Turned(s, t, x, Up, ok);
    }
  }

  lemma ReleaseOne(s: State, x: Switch, fails: nat -> bool)
    requires Good(s) && Tracked(s, x)
    ensures var (t, ok) := Perform(s, Turn(x, Up), fails);
            Good(if ok then Untrack(t, x) else t)
  {
    var (t, ok) := Perform(s, Turn(x, Up), fails);
    Turned(s, if ok then Untrack(t, x) else t, x, Up, ok);
  }

  /** Success leaves exactly the buttons that were not in the list. */
  lemma {:induction false} ReleaseButtonsKeeps(s: State, order: seq<PointerButton>, fails: nat -> bool)
    requires Good(s)
    requires forall i | 0 <= i < |order| :: order[i] in s.buttons
    requires forall i, j | 0 <= i < j < |order| :: order[i] != order[j]
    ensures var (t, ok) := ReleaseButtons(s, order, fails);
            && Good(t) && t.focus == s.focus && t.keys == s.keys
            && (ok ==> t.buttons == set b | b in s.buttons && b !in order)
    decreases |order|
  {
    if |order| == 0 {
    } else {
      ReleaseOne(s, Button(order[0]), fails);
      var (t, ok) := Perform(s, Turn(Button(order[0]), Up), fails);
      if ok {
        ReleaseButtonsKeeps(Untrack(t, Button(order[0])), order[1..], fails);
        assert forall b :: b in order <==> b == order[0] || b in order[1..];
      }
    }
  }

  lemma {:induction false} ReleaseKeysKeeps(s: State, order: seq<u16>, fails: nat -> bool)
    requires Good(s)
    requires forall i | 0 <= i < |order| :: order[i] in s.keys
    requires forall i, j | 0 <= i < j < |order| :: order[i] < order[j]
    ensures var (t, ok) := ReleaseKeys(s, order, fails);
            && Good(t) && t.focus == s.focus && t.buttons == s.buttons
            && (ok ==> t.keys == set k | k in s.keys && k !in order)
    decreases |order|
  {
    if |order| == 0 {
    } else {
      ReleaseOne(s, Key(order[0]), fails);
      var (t, ok) := Perform(s, Turn(Key(order[0]), Up), fails);
      if ok {
        ReleaseKeysKeeps(Untrack(t, Key(order[0])), order[1..], fails);
        assert forall k :: k in order <==> k == order[0] || k in order[1..];
      }
    }
  }

  /** Releasing everything, when it succeeds, leaves nothing tracked. */
  lemma ReleaseEverythingKeeps(s: State, fails: nat -> bool)
    requires Good(s)
    ensures var (t, ok) := ReleaseEverything(s, fails);
            && Good(t) && t.focus == s.focus
            && (ok ==> t.buttons == {} && t.keys == {})
            && (s.buttons == {} && s.keys == {} ==> (t, ok) == (s, true))
  {
    var order := ButtonsInOrder(s.buttons);
    forall b | b in s.buttons ensures b in order {
      match b case Left => case Middle => case Right =>
    }
    forall i | 0 <= i < |order| ensures order[i] in s.buttons {
      match order[i] case Left => case Middle => case Right =>
    }
    ReleaseButtonsKeeps(s, order, fails);
    var (t, ok) := ReleaseButtons(s, order, fails);
    if ok {
      var keys := KeysInOrder(t.keys);
      ReleaseKeysKeeps(t, keys, fails);
      assert forall k | k in t.keys :: k in keys;
    }
  }

  lemma ButtonEventKeeps(s: State, b: PointerButton, phase: Phase, x: i32, y: i32, sequence: u64, fails: nat -> bool)
    requires Good(s) && s.focus
    ensures Good(Handle(s, ButtonEvent(b, phase, x, y, sequence), fails).0)
  {
    MoveFirstKeeps(s, false, x, y, sequence, fails);
    var (t, ok) := MoveFirst(s, false, x, y, sequence, fails);
    if ok {
      TurnSwitchKeeps(t, Button(b), phase, fails);
    }
  }

  lemma WheelKeeps(s: State, dx: i32, dy: i32, x: i32, y: i32, sequence: u64, fails: nat -> bool)
    requires Good(s) && s.focus
    ensures Good(Handle(s, Wheel(dx, dy, x, y, sequence), fails).0)
  {
    MoveFirstKeeps(s, false, x, y, sequence, fails);
    var (t, ok) := MoveFirst(s, false, x, y, sequence, fails);
    if ok {
      PerformScroll(t, Scroll(dx, dy), fails);
    }
  }

  lemma FocusKeeps(s: State, active: bool, fails: nat -> bool)
    requires Good(s)
    ensures Good(Handle(s, Focus(active), fails).0)
  {
    ReleaseEverythingKeeps(s, fails);
    SameGood(ReleaseEverything(s, fails).0, Handle(s, Focus(active), fails).0);
    SameGood(s, Handle(s, Focus(active), fails).0);
  }

  lemma HandleKeeps(s: State, e: Event, fails: nat -> bool)
    requires Good(s)
    ensures Good(Handle(s, e, fails).0)
  {
    match e
    case PointerMotion(x, y, sequence) =>
      if s.focus && s.lastSequence < sequence {
        MoveFirstKeeps(s, true, x, y, sequence, fails);
      }
    case ButtonEvent(b, phase, x, y, sequence) =>
      if s.focus {
        ButtonEventKeeps(s, b, phase, x, y, sequence, fails);
      }
    case Wheel(dx, dy, x, y, sequence) =>
      if s.focus {
        WheelKeeps(s, dx, dy, x, y, sequence, fails);
      }
    case KeyEvent(k, phase) =>
      TurnSwitchKeeps(s, Key(k), phase, fails);
    case Focus(active) =>
      FocusKeeps(s, active, fails);
    case ReleaseAll =>
      ReleaseEverythingKeeps(s, fails);
    case Bounds(b) =>
      SameGood(s, Handle(s, e, fails).0);
  }

  lemma SameGood(s: State, t: State)
    requires Good(s)
    ensures t.log == s.log && t.buttons == s.buttons && t.keys == s.keys && t.lastSequence == s.lastSequence ==> Good(t)
  {
    if t.log == s.log && t.buttons == s.buttons && t.keys == s.keys && t.lastSequence == s.lastSequence {
      forall x ensures Balanced(t.log, x, Tracked(t, x)) {
        assert Balanced(s.log, x, Tracked(s, x));
      }
    }
  }

  lemma HandleUnfocused(s: State, e: Event, fails: nat -> bool)
    requires Good(s) && Unfocused(s)
    ensures Unfocused(Handle(s, e, fails).0)
  {
    if e.Focus? || e.ReleaseAll? {
      ReleaseEverythingKeeps(s, fails);
    }
  }

  // ----- whole runs

  function Start(bounds: DesktopBounds): State {
    State(bounds, true, {}, {}, 0, [])
  }

  /** The state after a sequence of events, from both channels, the display and the connection's end. */
  function Run(bounds: DesktopBounds, events: seq<Event>, fails: nat -> bool): State {
    if |events| == 0 then Start(bounds)
    else Handle(Run(bounds, events[..|events| - 1], fails), events[|events| - 1], fails).0
  }

  lemma {:induction false} RunKeeps(bounds: DesktopBounds, events: seq<Event>, fails: nat -> bool)
    ensures Good(Run(bounds, events, fails)) && Unfocused(Run(bounds, events, fails))
    decreases |events|
  {
    if |events| == 0 {
    } else {
      var s := Run(bounds, events[..|events| - 1], fails);
      RunKeeps(bounds, events[..|events| - 1], fails);
      HandleKeeps(s, events[|events| - 1], fails);
      HandleUnfocused(s, events[|events| - 1], fails);
    }
  }

  /** Without focus nothing is tracked as held. */
  lemma UnfocusedTracksNothing(bounds: DesktopBounds, events: seq<Event>, fails: nat -> bool, x: Switch)
    ensures var s := Run(bounds, events, fails); !s.focus ==> !Tracked(s, x)
  {
    RunKeeps(bounds, events, fails);
  }

  lemma {:induction false} UpBetween(log: seq<Call>, x: Switch, i: nat, j: nat)
    requires i < j < |log| && Alternates(log, x)
    requires log[i].request == Turn(x, Down) && log[j].request == Turn(x, Down)
    ensures exists k | i < k < j :: log[k].request == Turn(x, Up)
    decreases |log|
  {
    var front := log[..|log| - 1];
    if j < |log| - 1 {
      UpBetween(front, x, i, j);
      var k :| i < k < j && front[k].request == Turn(x, Up);
      assert log[k].request == Turn(x, Up);
    } else {
      var k := LastTurnAt(front, x, i);
      assert log[k].request == Turn(x, Up);
    }
  }

  /** Where the last call about a switch was made. */
  lemma {:induction false} LastTurnAt(log: seq<Call>, x: Switch, i: nat) returns (k: nat)
    requires i < |log| && About(log[i], x)
    ensures i <= k < |log| && About(log[k], x)
    ensures LastTurn(log, x) == Some(Press(log[k].request.phase, log[k].ok))
    decreases |log|
  {
    if About(log[|log| - 1], x) {
      k := |log| - 1;
    } else {
      k := LastTurnAt(log[..|log| - 1], x, i);
    }
  }

  /** Whatever fails, two presses of the same button or key have a release between them. */
  lemma DownsAreSeparated(bounds: DesktopBounds, events: seq<Event>, fails: nat -> bool, x: Switch, i: nat, j: nat)
    requires var log := Run(bounds, events, fails).log;
             i < j < |log| && log[i].request == Turn(x, Down) && log[j].request == Turn(x, Down)
    ensures var log := Run(bounds, events, fails).log;
            exists k | i < k < j :: log[k].request == Turn(x, Up)
  {
    var s := Run(bounds, events, fails);
    RunKeeps(bounds, events, fails);
    assert Balanced(s.log, x, Tracked(s, x));
    UpBetween(s.log, x, i, j);
  }

  predicate NoFailure(log: seq<Call>) {
    forall i | 0 <= i < |log| :: log[i].ok
  }

  lemma {:induction false} NoFailureSeen(log: seq<Call>, x: Switch)
    requires NoFailure(log)
    ensures !LastDownFailed(log, x) && (LastTurn(log, x).Some? ==> LastTurn(log, x).value.ok)
  {
    if |log| == 0 {
    } else {
      NoFailureSeen(log[..|log| - 1], x);
    }
  }

  /** As long as no call failed, the session tracks exactly what the operating system holds down. */
  lemma TrackedIsHeld(bounds: DesktopBounds, events: seq<Event>, fails: nat -> bool, x: Switch)
    requires NoFailure(Run(bounds, events, fails).log)
    ensures var s := Run(bounds, events, fails); Tracked(s, x) <==> Held(s.log, x)
  {
    var s := Run(bounds, events, fails);
    RunKeeps(bounds, events, fails);
    NoFailureSeen(s.log, x);
    assert Balanced(s.log, x, Tracked(s, x));
  }

  /**
   * What stays down after everything was released. An untracked switch whose last press went
   * through is still held exactly when the last call about it was a release that failed.
   */
  lemma HeldAfterRelease(bounds: DesktopBounds, events: seq<Event>, fails: nat -> bool, x: Switch)
    ensures var (t, ok) := Handle(Run(bounds, events, fails), ReleaseAll, fails);
            ok ==> && !Tracked(t, x)
                   && (Held(t.log, x) ==> LastTurn(t.log, x) == Some(Press(Up, false)))
                   && (!LastDownFailed(t.log, x) ==> (Held(t.log, x) <==> LastTurn(t.log, x) == Some(Press(Up, false))))
                   && (NoFailure(t.log) ==> !Held(t.log, x))
  {
    var s := Run(bounds, events, fails);
    var (t, ok) := Handle(s, ReleaseAll, fails);
    RunKeeps(bounds, events, fails);
    ReleaseEverythingKeeps(s, fails);
    assert Balanced(t.log, x, Tracked(t, x));
    if NoFailure(t.log) {
      NoFailureSeen(t.log, x);
    }
  }

  /** The same when the input focus is lost. */
  lemma HeldAfterFocusLoss(bounds: DesktopBounds, events: seq<Event>, fails: nat -> bool, x: Switch)
    ensures var t := Run(bounds, events, fails);
            !t.focus ==> && (Held(t.log, x) ==> LastTurn(t.log, x) == Some(Press(Up, false)))
                         && (!LastDownFailed(t.log, x) ==>
                               (Held(t.log, x) <==> LastTurn(t.log, x) == Some(Press(Up, false))))
                         && (NoFailure(t.log) ==> !Held(t.log, x))
  {
    var t := Run(bounds, events, fails);
    RunKeeps(bounds, events, fails);
    assert Balanced(t.log, x, Tracked(t, x));
    if NoFailure(t.log) {
      NoFailureSeen(t.log, x);
    }
  }

  /** A key whose release failed is forgotten: releasing everything succeeds, and leaves it down. */
  lemma StuckKey(bounds: DesktopBounds, code: u16)
    ensures var fails := (n: nat) => n == 1;
            var s := Run(bounds, [KeyEvent(code, Down), KeyEvent(code, Up)], fails);
            var (t, ok) := Handle(s, ReleaseAll, fails);
            ok && t == s && Held(t.log, Key(code))
  {
    var fails := (n: nat) => n == 1;
    var pressed := [KeyEvent(code, Down)];
    var events := [KeyEvent(code, Down), KeyEvent(code, Up)];
    assert events[..|events| - 1] == pressed && pressed[..|pressed| - 1] == [];
    var s0 := Start(bounds);
    assert Run(bounds, [], fails) == s0;
    var s1 := Handle(s0, KeyEvent(code, Down), fails).0;
    assert Run(bounds, pressed, fails) == s1;
    var s := Handle(s1, KeyEvent(code, Up), fails).0;
    assert Run(bounds, events, fails) == s;
    assert s.log == s1.log + [Call(Turn(Key(code), Up), false)];
    assert s.log[..1] == s1.log;
    RunKeeps(bounds, events, fails);
    ReleaseEverythingKeeps(s, fails);
  }

  /** The pointer state is the largest sequence number replayed, so it says which motions are late. */
  lemma MotionReplayedWhen(bounds: DesktopBounds, events: seq<Event>, fails: nat -> bool, x: i32, y: i32, sequence: u64)
    ensures var s := Run(bounds, events, fails);
            var (t, ok) := Handle(s, PointerMotion(x, y, sequence), fails);
            if s.focus && Newest(s.log) < sequence
            then t.log == s.log + [Call(Point(s, true, x, y, sequence), ok)]
            else t == s && ok
  {
    RunKeeps(bounds, events, fails);
  }

  lemma {:induction false} NewestIsLargest(log: seq<Call>, i: nat)
    requires i < |log| && log[i].ok && log[i].request.Move?
    ensures log[i].request.origin.sequence <= Newest(log)
    decreases |log|
  {
    if i == |log| - 1 {
    } else {
      NewestIsLargest(log[..|log| - 1], i);
    }
  }

  lemma {:induction false} SoundAt(log: seq<Call>, j: nat)
    requires PointerSound(log) && j < |log|
    ensures Targeted(log[j].request)
    ensures forall i | 0 <= i < j ::
              log[j].request.Move? && log[j].request.origin.motion && log[i].ok && log[i].request.Move?
              ==> log[i].request.origin.sequence < log[j].request.origin.sequence
    decreases |log|
  {
    var front := log[..|log| - 1];
    if j < |log| - 1 {
      SoundAt(front, j);
      assert front[j] == log[j];
      assert forall i | 0 <= i < j :: front[i] == log[i];
    } else {
      forall i | 0 <= i < j && log[i].ok && log[i].request.Move?
        ensures log[i].request.origin.sequence <= Newest(front)
      {
        assert front[i] == log[i];
        NewestIsLargest(front, i);
      }
    }
  }

  /**
   * Over any interleaving of the two channels, a motion is only tried when its sequence number is
   * above that of every pointer event replayed before it, and every pointer event that is tried
   * aims inside the display bounds of that moment.
   */
  lemma PointerInOrder(bounds: DesktopBounds, events: seq<Event>, fails: nat -> bool, j: nat)
    requires j < |Run(bounds, events, fails).log|
    ensures var log := Run(bounds, events, fails).log;
            && Targeted(log[j].request)
            && forall i | 0 <= i < j ::
                 log[j].request.Move? && log[j].request.origin.motion && log[i].ok && log[i].request.Move?
                 ==> log[i].request.origin.sequence < log[j].request.origin.sequence
  {
    RunKeeps(bounds, events, fails);
    SoundAt(Run(bounds, events, fails).log, j);
  }
}
