/** The game's input state and the per-frame update that fills it: window
    messages for keys, mouse and wheel, the gamepad read with dead-zone
    mapping of the thumb sticks, and the latch that remembers last frame's
    buttons so that presses and releases can be told apart. */
module Input {
  import opened Options

  /** A button this frame and last frame. */
  datatype ButtonState = ButtonState(isDown: bool, wasDown: bool)

  const KeyCount: nat := 350
  const JoyButtonCount: nat := 10
  const MouseButtonCount: nat := 3

  /** Mouse button slots, in the order the input structure lays them out. */
  const MouseLeft: nat := 0
  const MouseMiddle: nat := 1
  const MouseRight: nat := 2

  datatype InputState = InputState(
    keys: seq<ButtonState>,
    mouseX: int,
    mouseY: int,
    wheel: int,
    leftStickX: real,
    leftStickY: real,
    rightStickX: real,
    rightStickY: real,
    joyButtons: seq<ButtonState>,
    mouseButtons: seq<ButtonState>)

  predicate WellSized(s: InputState)
  {
    |s.keys| == KeyCount && |s.joyButtons| == JoyButtonCount && |s.mouseButtons| == MouseButtonCount
  }

  // ---------------------------------------------------------------------
  // Queries
  // ---------------------------------------------------------------------

  /** `...GetButtonJustDown`: when the two frames differ, whether the button
      is down now. */
  function JustDown(b: ButtonState): (r: bool)
    ensures r <==> b.isDown && !b.wasDown
  {
    if b.isDown != b.wasDown then b.isDown else false
  }

  /** `...GetButtonJustUp`: when the two frames differ, whether the button
      was down before. */
  function JustUp(b: ButtonState): (r: bool)
    ensures r <==> b.wasDown && !b.isDown
  {
    if b.isDown != b.wasDown then b.wasDown else false
  }

  /** `...GetButtonDown`: the button is down now, either just pressed or
      held since last frame. */
  function Down(b: ButtonState): (r: bool)
    ensures r <==> JustDown(b) || (b.isDown && b.wasDown)
    ensures JustUp(b) ==> !r
  {
    b.isDown
  }

  /** `...GetButtonUp`: the button is up now, either just released or
      still released since last frame. */
  function Up(b: ButtonState): (r: bool)
    ensures r <==> JustUp(b) || (!b.isDown && !b.wasDown)
    ensures JustDown(b) ==> !r
  {
    !b.isDown
  }

  /** A press and a release never happen in the same frame, a button that
      was just pressed is not up, and down and up are complementary. */
  lemma EdgesExclusive(b: ButtonState)
    ensures !(JustDown(b) && JustUp(b))
    ensures JustDown(b) ==> !Up(b)
    ensures JustUp(b) ==> Up(b)
    ensures Down(b) != Up(b)
  {
  }

  /** Every button is in exactly one of four phases: just pressed, held,
      just released, or still released. */
  lemma PhasesPartition(b: ButtonState)
    ensures JustDown(b) || (Down(b) && !JustDown(b)) || JustUp(b) || (Up(b) && !JustUp(b))
    ensures Down(b) && !JustDown(b) ==> b.wasDown
    ensures Up(b) && !JustUp(b) ==> !b.wasDown
  {
  }

  // The keyboard, mouse and joystick queries each read one button of the
  // current state.

  function KeyboardGetKeyDown(s: InputState, key: nat): (r: bool)
    requires key < |s.keys|
    ensures r <==> KeyboardGetKeyJustDown(s, key) || (s.keys[key].isDown && s.keys[key].wasDown)
  {
    Down(s.keys[key])
  }

  function KeyboardGetKeyJustDown(s: InputState, key: nat): (r: bool)
    requires key < |s.keys|
    ensures r <==> s.keys[key].isDown && !s.keys[key].wasDown
  {
    JustDown(s.keys[key])
  }

  function KeyboardGetKeyJustUp(s: InputState, key: nat): (r: bool)
    requires key < |s.keys|
    ensures r <==> s.keys[key].wasDown && !s.keys[key].isDown
  {
    JustUp(s.keys[key])
  }

  function KeyboardGetKeyUp(s: InputState, key: nat): (r: bool)
    requires key < |s.keys|
    ensures r <==> KeyboardGetKeyJustUp(s, key) || (!s.keys[key].isDown && !s.keys[key].wasDown)
  {
    Up(s.keys[key])
  }

  function MouseGetButtonDown(s: InputState, button: nat): (r: bool)
    requires button < |s.mouseButtons|
    ensures r <==> MouseGetButtonJustDown(s, button) || (s.mouseButtons[button].isDown && s.mouseButtons[button].wasDown)
  {
    Down(s.mouseButtons[button])
  }

  function MouseGetButtonJustDown(s: InputState, button: nat): (r: bool)
    requires button < |s.mouseButtons|
    ensures r <==> s.mouseButtons[button].isDown && !s.mouseButtons[button].wasDown
  {
    JustDown(s.mouseButtons[button])
  }

  function MouseGetButtonJustUp(s: InputState, button: nat): (r: bool)
    requires button < |s.mouseButtons|
    ensures r <==> s.mouseButtons[button].wasDown && !s.mouseButtons[button].isDown
  {
    JustUp(s.mouseButtons[button])
  }

  function MouseGetButtonUp(s: InputState, button: nat): (r: bool)
    requires button < |s.mouseButtons|
    ensures r <==> MouseGetButtonJustUp(s, button) || (!s.mouseButtons[button].isDown && !s.mouseButtons[button].wasDown)
  {
    Up(s.mouseButtons[button])
  }

  function JoystickGetButtonDown(s: InputState, button: nat): (r: bool)
    requires button < |s.joyButtons|
    ensures r <==> JoystickGetButtonJustDown(s, button) || (s.joyButtons[button].isDown && s.joyButtons[button].wasDown)
  {
    Down(s.joyButtons[button])
  }

  function JoystickGetButtonJustDown(s: InputState, button: nat): (r: bool)
    requires button < |s.joyButtons|
    ensures r <==> s.joyButtons[button].isDown && !s.joyButtons[button].wasDown
  {
    JustDown(s.joyButtons[button])
  }

  function JoystickGetButtonJustUp(s: InputState, button: nat): (r: bool)
    requires button < |s.joyButtons|
    ensures r <==> s.joyButtons[button].wasDown && !s.joyButtons[button].isDown
  {
    JustUp(s.joyButtons[button])
  }

  function JoystickGetButtonUp(s: InputState, button: nat): (r: bool)
    requires button < |s.joyButtons|
    ensures r <==> JoystickGetButtonJustUp(s, button) || (!s.joyButtons[button].isDown && !s.joyButtons[button].wasDown)
  {
    Up(s.joyButtons[button])
  }

  // ---------------------------------------------------------------------
  // Thumb sticks
  // ---------------------------------------------------------------------

  /** The XInput dead zones of the left and right thumb sticks. */
  const LeftThumbDeadZone: int := 7849
  const RightThumbDeadZone: int := 8689

  /** A signed 16-bit stick reading. */
  predicate IsShort(v: int)
  {
    -32768 <= v <= 32767
  }

  /** `ProcessXInputStick`: 0 inside the dead zone; outside it, the distance
      past the dead zone as a fraction of the room left on that side. */
  function StickValue(value: int, deadZone: int): (r: real)
    requires IsShort(value)
    ensures -deadZone <= value <= deadZone ==> r == 0.0
    ensures -1.0 <= r <= 1.0
    ensures deadZone >= 0 ==> (r > 0.0 <==> value > deadZone)
    ensures deadZone >= 0 ==> (r < 0.0 <==> value < -deadZone)
  {
    if value < -deadZone then
      Quotient((value + deadZone) as real, 32768.0 - deadZone as real)
    else if value > deadZone then
      Quotient((value - deadZone) as real, 32767.0 - deadZone as real)
    else 0.0
  }

  /** A quotient whose numerator does not exceed its positive denominator
      in size. */
  function Quotient(n: real, d: real): (q: real)
    requires d > 0.0 && -d <= n <= d
    ensures -1.0 <= q <= 1.0
    ensures q > 0.0 <==> n > 0.0
    ensures q < 0.0 <==> n < 0.0
    ensures q * d == n
    ensures n == d ==> q == 1.0
    ensures n == -d ==> q == -1.0
  {
    n / d
  }

  /** Full deflection maps to exactly -1 and 1 for any dead zone inside the
      range. */
  lemma StickExtremes(deadZone: int)
    requires 0 <= deadZone < 32767
    ensures StickValue(32767, deadZone) == 1.0
    ensures StickValue(-32768, deadZone) == -1.0
  {
  }

  /** The mapping never reverses the order of two readings. */
  lemma StickMonotone(v1: int, v2: int, deadZone: int)
    requires IsShort(v1) && IsShort(v2) && v1 <= v2 && 0 <= deadZone
    ensures StickValue(v1, deadZone) <= StickValue(v2, deadZone)
  {
    var r1 := StickValue(v1, deadZone);
    var r2 := StickValue(v2, deadZone);
    if v1 < -deadZone && v2 < -deadZone {
      var d := 32768.0 - deadZone as real;
      var n1, n2 := (v1 + deadZone) as real, (v2 + deadZone) as real;
      ScaleOrder(r1, r2, d, n1, n2);
    } else if v1 > deadZone && v2 > deadZone {
      var d := 32767.0 - deadZone as real;
      var n1, n2 := (v1 - deadZone) as real, (v2 - deadZone) as real;
      ScaleOrder(r1, r2, d, n1, n2);
    }
  }

  /** Dividing by the same positive number keeps order. */
  lemma ScaleOrder(a: real, b: real, d: real, na: real, nb: real)
    requires d > 0.0 && a * d == na && b * d == nb && na <= nb
    ensures a <= b
  {
  }

  // ---------------------------------------------------------------------
  // Window messages
  // ---------------------------------------------------------------------

  /** The messages the pump looks at. A key message carries the virtual key
      code and the message's lParam; a mouse-button message the wParam with
      the button flags; a mouse move the decoded cursor position; a wheel
      message the signed wheel delta. */
  datatype Message =
    | Quit
    | KeyMessage(vk: nat, lParam: bv32)
    | MouseMove(x: int, y: int)
    | MouseButtons(wParam: bv32)
    | MouseWheel(delta: int)
    | OtherMessage

  /** The mouse-button flags of the message's wParam (Win32 `MK_LBUTTON`,
      `MK_RBUTTON`, `MK_MBUTTON`). */
  const MkLButton: bv32 := 0x0001
  const MkRButton: bv32 := 0x0002
  const MkMButton: bv32 := 0x0010

  /** Bit 30 of a key message: the key was down before this message. */
  function KeyWasDown(lParam: bv32): bool
  {
    lParam & (1 << 30) != 0
  }

  /** Bit 31 of a key message: clear while the key is down. */
  function KeyIsDown(lParam: bv32): bool
  {
    lParam & (1 << 31) == 0
  }

  /** A key message reports a change of state, and only those are
      recorded. */
  predicate KeyTransition(m: Message)
  {
    m.KeyMessage? && KeyIsDown(m.lParam) != KeyWasDown(m.lParam)
  }

  /** The wheel value the pump leaves after one wheel delta: unchanged for
      no movement, otherwise its direction as -1 or 1. */
  function FlattenWheel(delta: int, current: int): (r: int)
    ensures delta == 0 ==> r == current
    ensures delta < 0 ==> r == -1
    ensures delta > 0 ==> r == 1
  {
    if delta != 0 then (if delta < 0 then -1 else 1) else current
  }

  /** One message handled by the pump. Only a key transition writes a key,
      and only its current state; mouse buttons take their states from the
      message's flags. */
  function Apply(s: InputState, m: Message): (r: InputState)
    requires WellSized(s)
    requires m.KeyMessage? ==> m.vk < KeyCount
    ensures WellSized(r)
    ensures r.joyButtons == s.joyButtons
    ensures r.leftStickX == s.leftStickX && r.leftStickY == s.leftStickY
    ensures r.rightStickX == s.rightStickX && r.rightStickY == s.rightStickY
    ensures forall k :: 0 <= k < KeyCount ==> r.keys[k].wasDown == s.keys[k].wasDown
    ensures forall k :: 0 <= k < KeyCount ==>
              r.keys[k].isDown == if KeyTransition(m) && m.vk == k then KeyIsDown(m.lParam) else s.keys[k].isDown
    ensures forall b :: 0 <= b < MouseButtonCount ==> r.mouseButtons[b].wasDown == s.mouseButtons[b].wasDown
    ensures !m.MouseButtons? ==> r.mouseButtons == s.mouseButtons
    ensures r.wheel == if m.MouseWheel? then FlattenWheel(m.delta, s.wheel) else s.wheel
  {
    match m
    case Quit => s
    case KeyMessage(vk, lParam) =>
      if KeyIsDown(lParam) != KeyWasDown(lParam) then
        s.(keys := s.keys[vk := s.keys[vk].(isDown := KeyIsDown(lParam))])
      else s
    case MouseMove(x, y) => s.(mouseX := x, mouseY := y)
    case MouseButtons(wParam) =>
      var b := s.mouseButtons;
      s.(mouseButtons := [b[MouseLeft].(isDown := wParam & MkLButton != 0),
                          b[MouseMiddle].(isDown := wParam & MkMButton != 0),
                          b[MouseRight].(isDown := wParam & MkRButton != 0)])
    case MouseWheel(delta) => s.(wheel := FlattenWheel(delta, s.wheel))
    case OtherMessage => s
  }

  predicate KeysInRange(msgs: seq<Message>)
  {
    forall i :: 0 <= i < |msgs| && msgs[i].KeyMessage? ==> msgs[i].vk < KeyCount
  }

  /** The message loop: every message in order, and whether a quit message
      was among them. */
  function Pump(s: InputState, msgs: seq<Message>): (r: (InputState, bool))
    requires WellSized(s) && KeysInRange(msgs)
    ensures WellSized(r.0)
    ensures r.1 <==> Quit in msgs
    ensures r.0.joyButtons == s.joyButtons
    ensures r.0.leftStickX == s.leftStickX && r.0.leftStickY == s.leftStickY
    ensures r.0.rightStickX == s.rightStickX && r.0.rightStickY == s.rightStickY
    decreases |msgs|
  {
    if |msgs| == 0 then (s, false)
    else
      var (before, quit) := Pump(s, msgs[..|msgs| - 1]);
      assert msgs == msgs[..|msgs| - 1] + [msgs[|msgs| - 1]];
      (Apply(before, msgs[|msgs| - 1]), quit || msgs[|msgs| - 1] == Quit)
  }

  /** The reference for a key after the pump: the state reported by the
      last transition message for that key, if any. */
  function LastKeyState(msgs: seq<Message>, k: nat): (r: Option<bool>)
    ensures r.Some? <==> exists i :: 0 <= i < |msgs| && KeyTransition(msgs[i]) && msgs[i].vk == k
  {
    if |msgs| == 0 then None
    else
      var m := msgs[|msgs| - 1];
      if KeyTransition(m) && m.vk == k then Some(KeyIsDown(m.lParam))
      else
        var r := LastKeyState(msgs[..|msgs| - 1], k);
        assert forall i :: 0 <= i < |msgs| - 1 ==> msgs[..|msgs| - 1][i] == msgs[i];
        r
  }

  /** The reference for the wheel after the pump: the direction of the last
      nonzero delta, if any. */
  function LastWheel(msgs: seq<Message>): (r: Option<int>)
    ensures r.Some? ==> r.value == -1 || r.value == 1
    ensures r.None? <==> forall i :: 0 <= i < |msgs| && msgs[i].MouseWheel? ==> msgs[i].delta == 0
  {
    if |msgs| == 0 then None
    else
      var m := msgs[|msgs| - 1];
      if m.MouseWheel? && m.delta != 0 then Some(if m.delta < 0 then -1 else 1)
      else
        var r := LastWheel(msgs[..|msgs| - 1]);
        assert forall i :: 0 <= i < |msgs| - 1 ==> msgs[..|msgs| - 1][i] == msgs[i];
        r
  }

  /** After the pump each key is down exactly as its last transition message
      said, and keeps its state when there was none; the wheel is the
      direction of the last nonzero delta, and stays when there was none. */
  lemma {:induction false} PumpMatchesReference(s: InputState, msgs: seq<Message>)
    requires WellSized(s) && KeysInRange(msgs)
    ensures forall k :: 0 <= k < KeyCount ==>
              Pump(s, msgs).0.keys[k].isDown == match LastKeyState(msgs, k) case Some(b) => b case None => s.keys[k].isDown
    ensures forall k :: 0 <= k < KeyCount ==> Pump(s, msgs).0.keys[k].wasDown == s.keys[k].wasDown
    ensures Pump(s, msgs).0.wheel == match LastWheel(msgs) case Some(w) => w case None => s.wheel
    decreases |msgs|
  {
    if |msgs| > 0 {
      var front := msgs[..|msgs| - 1];
      assert KeysInRange(front) by {
        assert forall i :: 0 <= i < |front| ==> front[i] == msgs[i];
      }
      PumpMatchesReference(s, front);
    }
  }

  // ---------------------------------------------------------------------
  // Gamepad and latch
  // ---------------------------------------------------------------------

  /** The controller state: the button bits and the four stick readings. */
  datatype Gamepad = Gamepad(buttons: bv16, leftX: int, leftY: int, rightX: int, rightY: int)

  predicate SticksAreShort(p: Gamepad)
  {
    IsShort(p.leftX) && IsShort(p.leftY) && IsShort(p.rightX) && IsShort(p.rightY)
  }

  /** The XInput button bit of each joystick slot: d-pad up, down, left,
      right, start, back, A, B, X, Y. */
  const JoyMasks: seq<bv16> :=
    [0x0001, 0x0002, 0x0004, 0x0008, 0x0010, 0x0020, 0x1000, 0x2000, 0x4000, 0x8000]

  /** Whether joystick slot i is held: its bit is set on a connected
      controller. */
  predicate PadHolds(pad: Option<Gamepad>, i: nat)
    requires i < JoyButtonCount
  {
    pad.Some? && pad.value.buttons & JoyMasks[i] != 0
  }

  /** The joystick slots after the gamepad read. */
  function PadButtons(prev: seq<ButtonState>, pad: Option<Gamepad>): (r: seq<ButtonState>)
    requires |prev| == JoyButtonCount
    ensures |r| == JoyButtonCount
    ensures forall i :: 0 <= i < JoyButtonCount ==> r[i].wasDown == prev[i].wasDown && r[i].isDown == PadHolds(pad, i)
  {
    seq(JoyButtonCount, i requires 0 <= i < JoyButtonCount => prev[i].(isDown := PadHolds(pad, i)))
  }

  /** The four stick axes, each read with its stick's dead zone. */
  datatype StickAxis = LeftX | LeftY | RightX | RightY

  function Reading(p: Gamepad, axis: StickAxis): int
  {
    match axis
    case LeftX => p.leftX
    case LeftY => p.leftY
    case RightX => p.rightX
    case RightY => p.rightY
  }

  function DeadZone(axis: StickAxis): int
  {
    if axis == LeftX || axis == LeftY then LeftThumbDeadZone else RightThumbDeadZone
  }

  /** A stick axis after the gamepad read: 0 without a controller. */
  function Axis(pad: Option<Gamepad>, axis: StickAxis): (r: real)
    requires pad.Some? ==> SticksAreShort(pad.value)
    ensures pad.None? ==> r == 0.0
    ensures pad.Some? ==> r == StickValue(Reading(pad.value, axis), DeadZone(axis))
  {
    match pad
    case None => 0.0
    case Some(p) => StickValue(Reading(p, axis), DeadZone(axis))
  }

  /** The gamepad read: with a controller, each joystick slot is down
      exactly when its bit is set and the sticks go through the dead-zone
      mapping; without one, every slot is up and every stick is 0. */
  function ReadPad(s: InputState, pad: Option<Gamepad>): (r: InputState)
    requires WellSized(s)
    requires pad.Some? ==> SticksAreShort(pad.value)
    ensures WellSized(r)
    ensures r.keys == s.keys && r.mouseButtons == s.mouseButtons && r.wheel == s.wheel
    ensures forall i :: 0 <= i < JoyButtonCount ==> r.joyButtons[i].wasDown == s.joyButtons[i].wasDown
    ensures pad.None? ==> forall i :: 0 <= i < JoyButtonCount ==> !r.joyButtons[i].isDown
    ensures pad.None? ==> r.leftStickX == 0.0 && r.leftStickY == 0.0 && r.rightStickX == 0.0 && r.rightStickY == 0.0
    ensures forall i :: 0 <= i < JoyButtonCount ==> r.joyButtons[i].isDown == PadHolds(pad, i)
    ensures pad.Some? ==> && r.leftStickX == StickValue(pad.value.leftX, LeftThumbDeadZone)
                          && r.leftStickY == StickValue(pad.value.leftY, LeftThumbDeadZone)
                          && r.rightStickX == StickValue(pad.value.rightX, RightThumbDeadZone)
                          && r.rightStickY == StickValue(pad.value.rightY, RightThumbDeadZone)
  {
    s.(joyButtons := PadButtons(s.joyButtons, pad),
       leftStickX := Axis(pad, LeftX),
       leftStickY := Axis(pad, LeftY),
       rightStickX := Axis(pad, RightX),
       rightStickY := Axis(pad, RightY))
  }

  /** One latch loop: every button's previous state becomes what the last
      frame's input had as its current state. */
  function LatchButtons(now: seq<ButtonState>, last: seq<ButtonState>): (r: seq<ButtonState>)
    requires |now| == |last|
    ensures |r| == |now|
    ensures forall i :: 0 <= i < |r| ==> r[i].isDown == now[i].isDown && r[i].wasDown == last[i].isDown
  {
    seq(|now|, i requires 0 <= i < |now| => now[i].(wasDown := last[i].isDown))
  }

  /** `ProcessInputAndMessages`: reset the wheel, pump the messages, read
      the gamepad, then latch last frame's buttons. Also returns whether a
      quit message arrived. */
  function ProcessInput(s: InputState, last: InputState, msgs: seq<Message>, pad: Option<Gamepad>): (r: (InputState, bool))
    requires WellSized(s) && WellSized(last) && KeysInRange(msgs)
    requires pad.Some? ==> SticksAreShort(pad.value)
    ensures WellSized(r.0)
    ensures r.1 <==> Quit in msgs
    ensures r.0.wheel == -1 || r.0.wheel == 0 || r.0.wheel == 1
    ensures forall k :: 0 <= k < KeyCount ==> r.0.keys[k].wasDown == last.keys[k].isDown
    ensures forall b :: 0 <= b < MouseButtonCount ==> r.0.mouseButtons[b].wasDown == last.mouseButtons[b].isDown
    ensures forall j :: 0 <= j < JoyButtonCount ==> r.0.joyButtons[j].wasDown == last.joyButtons[j].isDown
    ensures pad.None? ==> forall j :: 0 <= j < JoyButtonCount ==> !r.0.joyButtons[j].isDown
  {
    var (pumped, quit) := Pump(s.(wheel := 0), msgs);
    PumpMatchesReference(s.(wheel := 0), msgs);
    var read := ReadPad(pumped, pad);
    (read.(keys := LatchButtons(read.keys, last.keys),
           mouseButtons := LatchButtons(read.mouseButtons, last.mouseButtons),
           joyButtons := LatchButtons(read.joyButtons, last.joyButtons)),
     quit)
  }

  /** The frame's key state: each key is down as its last transition message
      said, or as it was; it is just down exactly when it is down now and was
      up in the last frame, and just up in the mirrored case. */
  lemma ProcessInputKeys(s: InputState, last: InputState, msgs: seq<Message>, pad: Option<Gamepad>, k: nat)
    requires WellSized(s) && WellSized(last) && KeysInRange(msgs)
    requires pad.Some? ==> SticksAreShort(pad.value)
    requires k < KeyCount
    ensures var r := ProcessInput(s, last, msgs, pad).0;
            && r.keys[k].isDown == (match LastKeyState(msgs, k) case Some(b) => b case None => s.keys[k].isDown)
            && (KeyboardGetKeyJustDown(r, k) <==> r.keys[k].isDown && !last.keys[k].isDown)
            && (KeyboardGetKeyJustUp(r, k) <==> !r.keys[k].isDown && last.keys[k].isDown)
  {
    PumpMatchesReference(s.(wheel := 0), msgs);
  }

  /** The frame's joystick state: a slot is just down exactly when its bit
      is set now and it was up last frame, just up exactly when its bit is
      clear now and it was down last frame; the sticks are the dead-zone
      mapping of this frame's readings. */
  lemma ProcessInputJoystick(s: InputState, last: InputState, msgs: seq<Message>, pad: Option<Gamepad>, i: nat)
    requires WellSized(s) && WellSized(last) && KeysInRange(msgs)
    requires pad.Some? ==> SticksAreShort(pad.value)
    requires i < JoyButtonCount
    ensures var r := ProcessInput(s, last, msgs, pad).0;
            && (JoystickGetButtonJustDown(r, i) <==> PadHolds(pad, i) && !last.joyButtons[i].isDown)
            && (JoystickGetButtonJustUp(r, i) <==> !PadHolds(pad, i) && last.joyButtons[i].isDown)
            && r.leftStickX == Axis(pad, LeftX) && r.leftStickY == Axis(pad, LeftY)
            && r.rightStickX == Axis(pad, RightX) && r.rightStickY == Axis(pad, RightY)
  {
  }

  /** The frame's wheel: the direction of the last nonzero delta, 0 when
      there was none. */
  lemma ProcessInputWheel(s: InputState, last: InputState, msgs: seq<Message>, pad: Option<Gamepad>)
    requires WellSized(s) && WellSized(last) && KeysInRange(msgs)
    requires pad.Some? ==> SticksAreShort(pad.value)
    ensures ProcessInput(s, last, msgs, pad).0.wheel == match LastWheel(msgs) case Some(w) => w case None => 0
  {
    PumpMatchesReference(s.(wheel := 0), msgs);
  }
}
