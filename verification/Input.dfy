/** Replaying a client's pointer and keyboard on the host, over a backend that may fail. */
module Input {
  import opened Bytes

  datatype PointerButton = Left | Middle | Right
  datatype Phase = Down | Up

  /** Something that can be held down. */
  datatype Switch = Button(button: PointerButton) | Key(code: u16)

  datatype DesktopBounds = DesktopBounds(left: i32, top: i32, right: i32, bottom: i32)

  /** The pointer event a move was made for, and the display bounds at that moment. */
  datatype Origin = Origin(motion: bool, x: i32, y: i32, sequence: u64, bounds: DesktopBounds)

  datatype Request =
    | Move(x: i32, y: i32, origin: Origin)
    | Turn(switch: Switch, phase: Phase)
    | Scroll(deltaX: i32, deltaY: i32)

  datatype Call = Call(request: Request, ok: bool)

  datatype Event =
    | PointerMotion(x: i32, y: i32, sequence: u64)
    | ButtonEvent(button: PointerButton, phase: Phase, x: i32, y: i32, sequence: u64)
    | Wheel(deltaX: i32, deltaY: i32, x: i32, y: i32, sequence: u64)
    | KeyEvent(code: u16, phase: Phase)
    | Focus(active: bool)
    | ReleaseAll
    | Bounds(bounds: DesktopBounds)

  datatype State = State(
    bounds: DesktopBounds,
    focus: bool,
    buttons: set<PointerButton>,
    keys: set<u16>,
    lastSequence: u64,
    log: seq<Call>)

  // ----- where a point lands

  /** A 32-bit result of addition or subtraction, wrapped. */
  function Wrap32(x: int): i32
    requires -0x1_0000_0000 <= x < 0x1_0000_0000
  {
    if x < -0x8000_0000 then x + 0x1_0000_0000
    else if x >= 0x8000_0000 then x - 0x1_0000_0000
    else x
  }

  function Clamp(x: i32, lo: i32, hi: i32): i32
    requires lo <= hi
  {
    if x < lo then lo else if x > hi then hi else x
  }

  /** The extent of a display side, zero when its ends are the wrong way round. */
  function Extent(near: i32, far: i32): i32 {
    var w := Wrap32(far - near);
    if w < 0 then 0 else w
  }

  function DesktopCoordinate(near: i32, far: i32, x: i32): i32 {
    var w := Extent(near, far);
    var last := if w == 0 then 0 else w - 1;
    Wrap32(near + Clamp(x, 0, last))
  }

  predicate Inside(near: i32, far: i32, x: i32) {
    near <= x <= if far - 1 < near then near else far - 1
  }

  /**
   * Every coordinate lands on the display exactly when its ends are in order, or so far in the
   * wrong order that the wrapped extent is at most one.
   */
  lemma DesktopCoordinateSpec(near: i32, far: i32)
    ensures (forall x: i32 :: Inside(near, far, DesktopCoordinate(near, far, x)))
       <==> near <= far || Extent(near, far) <= 1
  {
    if near > far && Extent(near, far) > 1 {
      assert !Inside(near, far, DesktopCoordinate(near, far, 1));
    }
  }

  /** On a display no wider than an i32 its own points stay where they are, so all can be reached. */
  lemma DisplayPointsAreExact(near: i32, far: i32, x: i32)
    requires 0 <= x < far - near < 0x8000_0000
    ensures DesktopCoordinate(near, far, x) == near + x
  {}

  // ----- the backend

  /** The operating system: its n-th call fails exactly when the schedule says so. */
  class Backend {
    const fails: nat -> bool
    var log: seq<Call>

    constructor (schedule: nat -> bool)
      ensures fails == schedule && log == []
    {
      fails := schedule;
      log := [];
    }

    method Perform(request: Request) returns (ok: bool)
      modifies this
      ensures ok == !fails(|old(log)|) && log == old(log) + [Call(request, ok)]
    {
      ok := !fails(|log|);
      log := log + [Call(request, ok)];
    }
  }

  // ----- what each handler does to the state

  function Perform(s: State, request: Request, fails: nat -> bool): (r: (State, bool))
    ensures r.0 == s.(log := s.log + [Call(request, r.1)])
  {
    var ok := !fails(|s.log|);
    (s.(log := s.log + [Call(request, ok)]), ok)
  }

  predicate Tracked(s: State, x: Switch) {
    match x
    case Button(b) => b in s.buttons
    case Key(k) => k in s.keys
  }

  function Track(s: State, x: Switch): State {
    match x
    case Button(b) => s.(buttons := s.buttons + {b})
    case Key(k) => s.(keys := s.keys + {k})
  }

  function Untrack(s: State, x: Switch): State {
    match x
    case Button(b) => s.(buttons := s.buttons - {b})
    case Key(k) => s.(keys := s.keys - {k})
  }

  function Point(s: State, motion: bool, x: i32, y: i32, sequence: u64): Request {
    Move(DesktopCoordinate(s.bounds.left, s.bounds.right, x),
         DesktopCoordinate(s.bounds.top, s.bounds.bottom, y),
         Origin(motion, x, y, sequence, s.bounds))
  }

  /** The first half of every pointer handler. */
  function MoveFirst(s: State, motion: bool, x: i32, y: i32, sequence: u64, fails: nat -> bool): (State, bool) {
    var (t, ok) := Perform(s, Point(s, motion, x, y, sequence), fails);
    (if ok && t.lastSequence < sequence then t.(lastSequence := sequence) else t, ok)
  }

  function TurnSwitch(s: State, x: Switch, phase: Phase, fails: nat -> bool): (State, bool) {
    if phase.Down? then
      if Tracked(s, x) then (s, true) else Perform(Track(s, x), Turn(x, Down), fails)
    else
      if Tracked(s, x) then Perform(Untrack(s, x), Turn(x, Up), fails) else (s, true)
  }

  predicate IsLeast(keys: set<u16>, k: u16) {
    k in keys && forall j | j in keys :: k <= j
  }

  function LeastKey(keys: set<u16>): (k: u16)
    requires keys != {}
    ensures IsLeast(keys, k)
  {
    LeastExists(keys);
    var k :| IsLeast(keys, k);
    k
  }

  lemma {:induction false} LeastExists(keys: set<u16>)
    requires keys != {}
    ensures exists k :: IsLeast(keys, k)
    decreases |keys|
  {
    var k :| k in keys;
    var rest := keys - {k};
    if rest == {} {
      assert keys == {k};
      assert IsLeast(keys, k);
    } else {
      LeastExists(rest);
      var m :| IsLeast(rest, m);
      assert keys == rest + {k};
      assert IsLeast(keys, if m < k then m else k);
    }
  }

  function KeysInOrder(keys: set<u16>): (r: seq<u16>)
    ensures forall k :: k in r <==> k in keys
    ensures forall i, j | 0 <= i < j < |r| :: r[i] < r[j]
  {
    if keys == {} then [] else
      var k := LeastKey(keys);
      [k] + KeysInOrder(keys - {k})
  }

  function ButtonsInOrder(buttons: set<PointerButton>): (r: seq<PointerButton>)
    ensures Left in r <==> Left in buttons
    ensures Middle in r <==> Middle in buttons
    ensures Right in r <==> Right in buttons
  {
    var left := if Left in buttons then [Left] else [];
    var middle := if Middle in buttons then [Middle] else [];
    var right := if Right in buttons then [Right] else [];
    left + middle + right
  }

  /** Releasing held switches one by one, forgetting each only after its release succeeded. */
  function ReleaseButtons(s: State, order: seq<PointerButton>, fails: nat -> bool): (State, bool)
    decreases |order|
  {
    if |order| == 0 then (s, true)
    else
      var (t, ok) := Perform(s, Turn(Button(order[0]), Up), fails);
      if !ok then (t, false) else ReleaseButtons(Untrack(t, Button(order[0])), order[1..], fails)
  }

  function ReleaseKeys(s: State, order: seq<u16>, fails: nat -> bool): (State, bool)
    decreases |order|
  {
    if |order| == 0 then (s, true)
    else
      var (t, ok) := Perform(s, Turn(Key(order[0]), Up), fails);
      if !ok then (t, false) else ReleaseKeys(Untrack(t, Key(order[0])), order[1..], fails)
  }

  function ReleaseEverything(s: State, fails: nat -> bool): (State, bool) {
    var (t, ok) := ReleaseButtons(s, ButtonsInOrder(s.buttons), fails);
    if !ok then (t, false) else ReleaseKeys(t, KeysInOrder(t.keys), fails)
  }

  /** What one call does, and whether it succeeds. */
  function Handle(s: State, e: Event, fails: nat -> bool): (State, bool) {
    match e
    case PointerMotion(x, y, sequence) =>
      if !s.focus || sequence <= s.lastSequence then (s, true) else MoveFirst(s, true, x, y, sequence, fails)
    case ButtonEvent(b, phase, x, y, sequence) =>
      if !s.focus then (s, true) else
        var (t, ok) := MoveFirst(s, false, x, y, sequence, fails);
        if !ok then (t, false) else TurnSwitch(t, Button(b), phase, fails)
    case Wheel(dx, dy, x, y, sequence) =>
      if !s.focus then (s, true) else
        var (t, ok) := MoveFirst(s, false, x, y, sequence, fails);
        if !ok || (dx == 0 && dy == 0) then (t, ok) else Perform(t, Scroll(dx, dy), fails)
    case KeyEvent(k, phase) =>
      if !s.focus then (s, true) else TurnSwitch(s, Key(k), phase, fails)
    case Focus(active) =>
      if s.focus == active then (s, true)
      else if active then (s.(focus := true), true)
      else
        var (t, ok) := ReleaseEverything(s, fails);
        (if ok then t.(focus := false) else t, ok)
    case ReleaseAll => ReleaseEverything(s, fails)
    case Bounds(b) => (s.(bounds := b), true)
  }

  class InputSession {
    var displayBounds: DesktopBounds
    var inputFocusActive: bool
    var pressedButtons: set<PointerButton>
    var pressedKeys: set<u16>
    var lastPointerSequence: u64
    const backend: Backend

    function Abstract(): State
      reads this, backend
    {
      State(displayBounds, inputFocusActive, pressedButtons, pressedKeys, lastPointerSequence, backend.log)
    }

    constructor (bounds: DesktopBounds, b: Backend)
      ensures backend == b && Abstract() == State(bounds, true, {}, {}, 0, b.log)
    {
      displayBounds, inputFocusActive := bounds, true;
      pressedButtons, pressedKeys := {}, {};
      lastPointerSequence := 0;
      backend := b;
    }

    /** desktop_point. */
    function DesktopPoint(x: i32, y: i32): (i32, i32)
      reads this
    {
      (DesktopCoordinate(displayBounds.left, displayBounds.right, x),
       DesktopCoordinate(displayBounds.top, displayBounds.bottom, y))
    }

    method HandlePointerMotion(x: i32, y: i32, sequence: u64) returns (ok: bool)
      modifies this, backend
      ensures (Abstract(), ok) == Handle(old(Abstract()), PointerMotion(x, y, sequence), backend.fails)
    {
      if !inputFocusActive || sequence <= lastPointerSequence {
        return true;
      }
      var (desktopX, desktopY) := DesktopPoint(x, y);
      ok := backend.Perform(Move(desktopX, desktopY, Origin(true, x, y, sequence, displayBounds)));
      if !ok {
        return;
      }
      lastPointerSequence := sequence;
    }

    method HandlePointerButton(b: PointerButton, phase: Phase, x: i32, y: i32, sequence: u64) returns (ok: bool)
      modifies this, backend
      ensures (Abstract(), ok) == Handle(old(Abstract()), ButtonEvent(b, phase, x, y, sequence), backend.fails)
    {
      if !inputFocusActive {
        return true;
      }
      var (desktopX, desktopY) := DesktopPoint(x, y);
      ok := backend.Perform(Move(desktopX, desktopY, Origin(false, x, y, sequence, displayBounds)));
      if !ok {
        return;
      }
      lastPointerSequence := if lastPointerSequence < sequence then sequence else lastPointerSequence;
      match phase
      case Down =>
        if b !in pressedButtons {
          pressedButtons := pressedButtons + {b};
          ok := backend.Perform(Turn(Button(b), Down));
        }
      case Up =>
        if b in pressedButtons {
          pressedButtons := pressedButtons - {b};
          ok := backend.Perform(Turn(Button(b), Up));
        }
    }

    method HandleWheel(deltaX: i32, deltaY: i32, x: i32, y: i32, sequence: u64) returns (ok: bool)
      modifies this, backend
      ensures (Abstract(), ok) == Handle(old(Abstract()), Wheel(deltaX, deltaY, x, y, sequence), backend.fails)
    {
      if !inputFocusActive {
        return true;
      }
      var (desktopX, desktopY) := DesktopPoint(x, y);
      ok := backend.Perform(Move(desktopX, desktopY, Origin(false, x, y, sequence, displayBounds)));
      if !ok {
        return;
      }
      lastPointerSequence := if lastPointerSequence < sequence then sequence else lastPointerSequence;
      if deltaX != 0 || deltaY != 0 {
        ok := backend.Perform(Scroll(deltaX, deltaY));
      }
    }

    method HandleKey(code: u16, phase: Phase) returns (ok: bool)
      modifies this, backend
      ensures (Abstract(), ok) == Handle(old(Abstract()), KeyEvent(code, phase), backend.fails)
    {
      if !inputFocusActive {
        return true;
      }
      ok := true;
      match phase
      case Down =>
        if code !in pressedKeys {
          pressedKeys := pressedKeys + {code};
          ok := backend.Perform(Turn(Key(code), Down));
        }
      case Up =>
        if code in pressedKeys {
          pressedKeys := pressedKeys - {code};
          ok := backend.Perform(Turn(Key(code), Up));
        }
    }

    method SetInputFocus(active: bool) returns (ok: bool)
      modifies this, backend
      ensures (Abstract(), ok) == Handle(old(Abstract()), Focus(active), backend.fails)
    {
      if inputFocusActive == active {
        return true;
      }
      if !active {
        ok := ReleaseAll();
        if !ok {
          return;
        }
      }
      inputFocusActive := active;
      ok := true;
    }

    method ReleasePressedButtons() returns (ok: bool)
      modifies this, backend
      ensures var s := old(Abstract());
              (Abstract(), ok) == ReleaseButtons(s, ButtonsInOrder(s.buttons), backend.fails)
    {
      var order := ButtonsInOrder(pressedButtons);
      var i := 0;
      while i < |order|
        invariant 0 <= i <= |order|
        invariant ReleaseButtons(Abstract(), order[i..], backend.fails)
               == ReleaseButtons(old(Abstract()), order, backend.fails)
      {
        ok := backend.Perform(Turn(Button(order[i]), Up));
        if !ok {
          return;
        }
        pressedButtons := pressedButtons - {order[i]};
        i := i + 1;
      }
      ok := true;
    }

    method ReleasePressedKeys() returns (ok: bool)
      modifies this, backend
      ensures var s := old(Abstract());
              (Abstract(), ok) == ReleaseKeys(s, KeysInOrder(s.keys), backend.fails)
    {
      var order := KeysInOrder(pressedKeys);
      var i := 0;
      while i < |order|
        invariant 0 <= i <= |order|
        invariant ReleaseKeys(Abstract(), order[i..], backend.fails)
               == ReleaseKeys(old(Abstract()), order, backend.fails)
      {
        ok := backend.Perform(Turn(Key(order[i]), Up));
        if !ok {
          return;
        }
        pressedKeys := pressedKeys - {order[i]};
        i := i + 1;
      }
      ok := true;
    }

    method ReleaseAll() returns (ok: bool)
      modifies this, backend
      ensures (Abstract(), ok) == ReleaseEverything(old(Abstract()), backend.fails)
    {
      ok := ReleasePressedButtons();
      if ok {
        ok := ReleasePressedKeys();
      }
    }

    method UpdateDisplayBounds(bounds: DesktopBounds) returns (changed: bool)
      modifies this
      ensures Abstract() == Handle(old(Abstract()), Bounds(bounds), backend.fails).0
      ensures changed == (old(displayBounds) != bounds)
    {
      if displayBounds == bounds {
        return false;
      }
      displayBounds := bounds;
      return true;
    }
  }
}
