/** What each event makes the backend do, in the event's own coordinates, buttons, keys and deltas. */
module ReplayEffects {
  import opened Bytes
  import opened Input
  import opened InputRuns

  /** A display whose ends are in order and whose extent fits 32 bits. */
  predicate Representable(near: i32, far: i32) {
    near < far && far - near < 0x8000_0000
  }

  /** The coordinate as far inside the display as it can be without leaving it. */
  lemma CoordinateClamps(near: i32, far: i32, x: i32)
    requires Representable(near, far)
    ensures var d := DesktopCoordinate(near, far, x);
            && (x < 0 ==> d == near)
            && (0 <= x < far - near ==> d == near + x)
            && (x >= far - near ==> d == far - 1)
  {}

  /** Where a pointer event lands on such a display. */
  predicate LandsAt(b: DesktopBounds, x: int, y: int, r: Request) {
    && r.Move?
    && (0 <= x < b.right - b.left ==> r.x == b.left + x)
    && (x < 0 ==> r.x == b.left) && (x >= b.right - b.left ==> r.x == b.right - 1)
    && (0 <= y < b.bottom - b.top ==> r.y == b.top + y)
    && (y < 0 ==> r.y == b.top) && (y >= b.bottom - b.top ==> r.y == b.bottom - 1)
  }

  lemma PointLands(s: State, motion: bool, x: i32, y: i32, sequence: u64)
    requires Representable(s.bounds.left, s.bounds.right) && Representable(s.bounds.top, s.bounds.bottom)
    ensures LandsAt(s.bounds, x, y, Point(s, motion, x, y, sequence))
  {
    CoordinateClamps(s.bounds.left, s.bounds.right, x);
    CoordinateClamps(s.bounds.top, s.bounds.bottom, y);
  }

  /** A motion with focus and a newer sequence number is one move, to where it points. */
  lemma MotionMoves(s: State, x: i32, y: i32, sequence: u64, fails: nat -> bool)
    requires Representable(s.bounds.left, s.bounds.right) && Representable(s.bounds.top, s.bounds.bottom)
    requires s.focus && s.lastSequence < sequence
    ensures var (t, ok) := Handle(s, PointerMotion(x, y, sequence), fails);
            && |t.log| == |s.log| + 1 && t.log[..|s.log|] == s.log
            && LandsAt(s.bounds, x, y, t.log[|s.log|].request)
            && ok == !fails(|s.log|)
            && t.lastSequence == (if ok then sequence else s.lastSequence)
  {
    PointLands(s, true, x, y, sequence);
  }

  /** Nothing else of a motion happens: without focus, or late, it is ignored. */
  lemma MotionIgnored(s: State, x: i32, y: i32, sequence: u64, fails: nat -> bool)
    requires !s.focus || sequence <= s.lastSequence
    ensures Handle(s, PointerMotion(x, y, sequence), fails) == (s, true)
  {}

  /**
   * A button event with focus first moves to where it points. If that succeeds, a press of a button
   * that is not tracked, or a release of one that is, follows for that very button, and its
   * sequence number counts.
   */
  lemma ButtonActs(s: State, b: PointerButton, phase: Phase, x: i32, y: i32, sequence: u64, fails: nat -> bool)
    requires Representable(s.bounds.left, s.bounds.right) && Representable(s.bounds.top, s.bounds.bottom)
    requires s.focus
    ensures var (t, ok) := Handle(s, ButtonEvent(b, phase, x, y, sequence), fails);
            var moved := !fails(|s.log|);
            var turns := moved && (phase.Down? <==> b !in s.buttons);
            && |t.log| == |s.log| + (if turns then 2 else 1) && t.log[..|s.log|] == s.log
            && LandsAt(s.bounds, x, y, t.log[|s.log|].request)
            && (turns ==> t.log[|s.log| + 1].request == Turn(Button(b), phase))
            && t.buttons == (if !turns then s.buttons else if phase.Down? then s.buttons + {b} else s.buttons - {b})
            && t.keys == s.keys && t.focus
            && t.lastSequence == (if moved && s.lastSequence < sequence then sequence else s.lastSequence)
            && ok == (moved && (turns ==> !fails(|s.log| + 1)))
  {
    PointLands(s, false, x, y, sequence);
  }

  /** A wheel event with focus moves first, and then turns by its own deltas, unless both are zero. */
  lemma WheelScrolls(s: State, dx: i32, dy: i32, x: i32, y: i32, sequence: u64, fails: nat -> bool)
    requires Representable(s.bounds.left, s.bounds.right) && Representable(s.bounds.top, s.bounds.bottom)
    requires s.focus
    ensures var (t, ok) := Handle(s, Wheel(dx, dy, x, y, sequence), fails);
            var moved := !fails(|s.log|);
            var scrolls := moved && !(dx == 0 && dy == 0);
            && |t.log| == |s.log| + (if scrolls then 2 else 1) && t.log[..|s.log|] == s.log
            && LandsAt(s.bounds, x, y, t.log[|s.log|].request)
            && (scrolls ==> t.log[|s.log| + 1].request == Scroll(dx, dy))
            && t.buttons == s.buttons && t.keys == s.keys && t.focus
            && t.lastSequence == (if moved && s.lastSequence < sequence then sequence else s.lastSequence)
            && ok == (moved && (scrolls ==> !fails(|s.log| + 1)))
  {
    PointLands(s, false, x, y, sequence);
  }

  /** A key event with focus presses a key that is not tracked, or releases one that is, and no other. */
  lemma KeyActs(s: State, code: u16, phase: Phase, fails: nat -> bool)
    requires s.focus
    ensures var (t, ok) := Handle(s, KeyEvent(code, phase), fails);
            var turns := phase.Down? <==> code !in s.keys;
            && (!turns ==> t == s && ok)
            && (turns ==> t.log == s.log + [Call(Turn(Key(code), phase), ok)] && ok == !fails(|s.log|)
                          && t.keys == (if phase.Down? then s.keys + {code} else s.keys - {code})
                          && t.buttons == s.buttons && t.lastSequence == s.lastSequence)
  {}

  /** New display bounds call nothing, keep everything else, and place the motions that follow. */
  lemma BoundsPlaceLaterMotions(s: State, b: DesktopBounds, x: i32, y: i32, sequence: u64, fails: nat -> bool)
    requires Representable(b.left, b.right) && Representable(b.top, b.bottom)
    requires s.focus && s.lastSequence < sequence
    ensures var (t, ok) := Handle(s, Bounds(b), fails);
            && ok && t.bounds == b && t.log == s.log && t.buttons == s.buttons && t.keys == s.keys
            && t.focus && t.lastSequence == s.lastSequence
            && var u := Handle(t, PointerMotion(x, y, sequence), fails).0;
               |u.log| == |s.log| + 1 && LandsAt(b, x, y, u.log[|s.log|].request)
  {
    MotionMoves(Handle(s, Bounds(b), fails).0, x, y, sequence, fails);
  }

  /** Without focus no pointer, button, wheel or key event does anything. */
  lemma UnfocusedIgnores(s: State, e: Event, fails: nat -> bool)
    requires !s.focus && (e.PointerMotion? || e.ButtonEvent? || e.Wheel? || e.KeyEvent?)
    ensures Handle(s, e, fails) == (s, true)
  {}

  /** How the focus changes: at once when gained, and when lost only after everything was released. */
  lemma FocusChanges(s: State, active: bool, fails: nat -> bool)
    ensures var (t, ok) := Handle(s, Focus(active), fails);
            && (t.focus == active <==> ok)
            && (s.focus == active || active ==> ok && t.log == s.log && t.buttons == s.buttons && t.keys == s.keys)
            && (s.focus && !active ==>
                  && ok == ReleaseEverything(s, fails).1 && t.log == ReleaseEverything(s, fails).0.log)
  {
    ReleaseFocus(s, fails);
  }

  lemma ReleaseFocus(s: State, fails: nat -> bool)
    ensures ReleaseEverything(s, fails).0.focus == s.focus
  {
    ReleaseButtonsFocus(s, ButtonsInOrder(s.buttons), fails);
    var t := ReleaseButtons(s, ButtonsInOrder(s.buttons), fails).0;
    ReleaseKeysFocus(t, KeysInOrder(t.keys), fails);
  }

  lemma {:induction false} ReleaseButtonsFocus(s: State, order: seq<PointerButton>, fails: nat -> bool)
    ensures ReleaseButtons(s, order, fails).0.focus == s.focus
    decreases |order|
  {
    if |order| == 0 {
    } else {
      var (t, ok) := Perform(s, Turn(Button(order[0]), Up), fails);
      ReleaseButtonsFocus(Untrack(t, Button(order[0])), order[1..], fails);
    }
  }

  lemma {:induction false} ReleaseKeysFocus(s: State, order: seq<u16>, fails: nat -> bool)
    ensures ReleaseKeys(s, order, fails).0.focus == s.focus
    decreases |order|
  {
    if |order| == 0 {
    } else {
      var (t, ok) := Perform(s, Turn(Key(order[0]), Up), fails);
      ReleaseKeysFocus(Untrack(t, Key(order[0])), order[1..], fails);
    }
  }

  // ----- releasing everything, call by call

  /** The order of releases: left, middle, right, and then the keys upwards. */
  predicate Before(a: Switch, b: Switch) {
    match (a, b)
    case (Button(Left), Button(c)) => c != Left
    case (Button(Middle), Button(c)) => c == Right
    case (Button(Right), Button(_)) => false
    case (Button(_), Key(_)) => true
    case (Key(_), Button(_)) => false
    case (Key(m), Key(n)) => m < n
  }

  /** The tracked switches, each once, in the order they are released. */
  ghost predicate InReleaseOrder(s: State, switches: seq<Switch>) {
    && (forall x :: x in switches <==> Tracked(s, x))
    && (forall i, j | 0 <= i < j < |switches| :: Before(switches[i], switches[j]))
  }

  function Pressed(buttons: seq<PointerButton>): (r: seq<Switch>)
    ensures |r| == |buttons| && forall i | 0 <= i < |r| :: r[i] == Button(buttons[i])
  {
    seq(|buttons|, i requires 0 <= i < |buttons| => Button(buttons[i]))
  }

  function PressedKeys(keys: seq<u16>): (r: seq<Switch>)
    ensures |r| == |keys| && forall i | 0 <= i < |r| :: r[i] == Key(keys[i])
  {
    seq(|keys|, i requires 0 <= i < |keys| => Key(keys[i]))
  }

  function Switches(s: State): seq<Switch> {
    Pressed(ButtonsInOrder(s.buttons)) + PressedKeys(KeysInOrder(s.keys))
  }

  lemma ButtonOrder(buttons: set<PointerButton>)
    ensures var r := Pressed(ButtonsInOrder(buttons));
            && (forall b :: Button(b) in r <==> b in buttons)
            && forall i, j | 0 <= i < j < |r| :: Before(r[i], r[j])
  {
    var order := ButtonsInOrder(buttons);
    forall b ensures Button(b) in Pressed(order) <==> b in buttons {
      assert b in order <==> b in buttons by { match b case Left => case Middle => case Right => }
      if b in order {
        var i :| 0 <= i < |order| && order[i] == b;
        assert Pressed(order)[i] == Button(b);
      }
    }
  }

  lemma KeyOrder(keys: set<u16>)
    ensures var r := PressedKeys(KeysInOrder(keys));
            && (forall k :: Key(k) in r <==> k in keys)
            && forall i, j | 0 <= i < j < |r| :: Before(r[i], r[j])
  {
    var order := KeysInOrder(keys);
    forall k ensures Key(k) in PressedKeys(order) <==> k in keys {
      if k in order {
        var i :| 0 <= i < |order| && order[i] == k;
        assert PressedKeys(order)[i] == Key(k);
      }
    }
  }

  lemma Concatenated(a: seq<Switch>, b: seq<Switch>)
    requires forall x | x in a :: x.Button?
    requires forall x | x in b :: x.Key?
    requires forall i, j | 0 <= i < j < |a| :: Before(a[i], a[j])
    requires forall i, j | 0 <= i < j < |b| :: Before(b[i], b[j])
    ensures forall i, j | 0 <= i < j < |a + b| :: Before((a + b)[i], (a + b)[j])
  {
    forall i, j | 0 <= i < j < |a + b| ensures Before((a + b)[i], (a + b)[j]) {
      if i < |a| <= j {
        assert (a + b)[i] in a && (a + b)[j] in b;
      }
    }
  }

  /** The lists of both loops together are the tracked switches in order. */
  lemma SwitchesInOrder(s: State)
    ensures InReleaseOrder(s, Switches(s))
  {
    var a, b := Pressed(ButtonsInOrder(s.buttons)), PressedKeys(KeysInOrder(s.keys));
    ButtonOrder(s.buttons);
    KeyOrder(s.keys);
    Concatenated(a, b);
    forall x ensures x in Switches(s) <==> Tracked(s, x) {
      match x case Button(_) => case Key(_) =>
    }
  }

  /** The calls release the given switches in turn; only the last may fail, and then ends them. */
  predicate Release(calls: seq<Call>, switches: seq<Switch>, ok: bool) {
    if |switches| == 0 then calls == [] && ok
    else
      && |calls| > 0 && calls[0].request == Turn(switches[0], Up)
      && if calls[0].ok then Release(calls[1..], switches[1..], ok) else |calls| == 1 && !ok
  }

  lemma {:induction false} ReleaseThen(a: seq<Call>, b: seq<Call>, x: seq<Switch>, y: seq<Switch>, ok: bool)
    requires Release(a, x, true) && Release(b, y, ok)
    ensures Release(a + b, x + y, ok)
    decreases |x|
  {
    if |x| == 0 {
      assert a + b == b && x + y == y;
    } else {
      ReleaseThen(a[1..], b, x[1..], y, ok);
      assert (a + b)[1..] == a[1..] + b && (x + y)[1..] == x[1..] + y;
    }
  }

  lemma {:induction false} ReleaseShort(a: seq<Call>, x: seq<Switch>, y: seq<Switch>)
    requires Release(a, x, false)
    ensures Release(a, x + y, false)
    decreases |x|
  {
    if |x| == 0 {
    } else {
      assert (x + y)[1..] == x[1..] + y;
      if a[0].ok {
        ReleaseShort(a[1..], x[1..], y);
      }
    }
  }

  /** From one log to the next exactly these releases were called. */
  predicate Released(before: seq<Call>, after: seq<Call>, switches: seq<Switch>, ok: bool) {
    before <= after && Release(after[|before|..], switches, ok)
  }

  lemma ReleasedFirst(before: seq<Call>, one: seq<Call>, after: seq<Call>, switches: seq<Switch>, ok: bool)
    requires |switches| > 0 && one == before + [Call(Turn(switches[0], Up), true)]
    requires Released(one, after, switches[1..], ok)
    ensures Released(before, after, switches, ok)
  {
    assert after[|before|..][1..] == after[|one|..];
  }

  lemma ReleasedThen(before: seq<Call>, middle: seq<Call>, after: seq<Call>, x: seq<Switch>, y: seq<Switch>, ok: bool)
    requires Released(before, middle, x, true) && Released(middle, after, y, ok)
    ensures Released(before, after, x + y, ok)
  {
    ReleaseThen(middle[|before|..], after[|middle|..], x, y, ok);
    assert after[|before|..] == middle[|before|..] + after[|middle|..];
  }

  lemma {:induction false} ReleaseButtonsCalls(s: State, order: seq<PointerButton>, fails: nat -> bool)
    ensures var (t, ok) := ReleaseButtons(s, order, fails);
            Released(s.log, t.log, Pressed(order), ok)
    decreases |order|
  {
    if |order| == 0 {
    } else {
      var (t, ok) := Perform(s, Turn(Button(order[0]), Up), fails);
      if ok {
        var u := Untrack(t, Button(order[0]));
        ReleaseButtonsCalls(u, order[1..], fails);
        assert Pressed(order)[1..] == Pressed(order[1..]);
        ReleasedFirst(s.log, u.log, ReleaseButtons(s, order, fails).0.log, Pressed(order), ReleaseButtons(s, order, fails).1);
      }
    }
  }

  lemma {:induction false} ReleaseKeysCalls(s: State, order: seq<u16>, fails: nat -> bool)
    ensures var (t, ok) := ReleaseKeys(s, order, fails);
            Released(s.log, t.log, PressedKeys(order), ok)
    decreases |order|
  {
    if |order| == 0 {
    } else {
      var (t, ok) := Perform(s, Turn(Key(order[0]), Up), fails);
      if ok {
        var u := Untrack(t, Key(order[0]));
        ReleaseKeysCalls(u, order[1..], fails);
        assert PressedKeys(order)[1..] == PressedKeys(order[1..]);
        ReleasedFirst(s.log, u.log, ReleaseKeys(s, order, fails).0.log, PressedKeys(order), ReleaseKeys(s, order, fails).1);
      }
    }
  }

  lemma {:induction false} ReleaseButtonsKeepsKeys(s: State, order: seq<PointerButton>, fails: nat -> bool)
    ensures ReleaseButtons(s, order, fails).0.keys == s.keys
    decreases |order|
  {
    if |order| == 0 {
    } else {
      var (t, ok) := Perform(s, Turn(Button(order[0]), Up), fails);
      ReleaseButtonsKeepsKeys(Untrack(t, Button(order[0])), order[1..], fails);
    }
  }

  /**
   * Releasing everything makes one release call for each tracked switch, in order and no other,
   * and stops behind the first that fails.
   */
  lemma ReleaseEverythingCalls(s: State, fails: nat -> bool)
    ensures var (t, ok) := ReleaseEverything(s, fails);
            InReleaseOrder(s, Switches(s)) && Released(s.log, t.log, Switches(s), ok)
  {
    SwitchesInOrder(s);
    var buttons := ButtonsInOrder(s.buttons);
    var (t, ok) := ReleaseButtons(s, buttons, fails);
    ReleaseButtonsCalls(s, buttons, fails);
    ReleaseButtonsKeepsKeys(s, buttons, fails);
    if ok {
      ReleaseKeysCalls(t, KeysInOrder(t.keys), fails);
      var (u, done) := ReleaseKeys(t, KeysInOrder(t.keys), fails);
      ReleasedThen(s.log, t.log, u.log, Pressed(buttons), PressedKeys(KeysInOrder(s.keys)), done);
    } else {
      ReleaseShort(t.log[|s.log|..], Pressed(buttons), PressedKeys(KeysInOrder(s.keys)));
    }
  }
}
