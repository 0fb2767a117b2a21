/** The per-event decoder of `input_task`: how one key or absolute-axis event
    rewrites the pending snapshot. The two Apply functions follow the source's
    `switch` statements case by case; their contracts state the effect through
    the `KeyButton` / `AxisOf` tables and the `Set` / `SetAxis` selectors. */
module Decoder {
  import opened Wrappers
  import opened Gamepad
  import opened Evdev

  /** The divisor that maps a raw axis value to the normalised thumbstick
      position (`VALUE_MAX`). */
  const AxisScale: real := 512.0

  /** A key event's value read as a button state: zero is a release, any
      other value (press, or autorepeat) is a press. */
  function ButtonStateOf(value: i32): ButtonState {
    if value != 0 then Pressed else Released
  }

  /** The normalised position for a raw axis value. Float rounding is not
      modelled: the result is the exact quotient, so scaling it back by
      `AxisScale` recovers the raw value. */
  function Normalize(value: i32): (r: real)
    ensures r * AxisScale == value as real
    ensures value == 0 ==> r == 0.0
    ensures 0 < value ==> 0.0 < r
    ensures value < 0 ==> r < 0.0
  {
    value as real / AxisScale
  }

  /** The pending snapshot after a key event with `code` and `value`. A code
      that drives a button sets exactly that button to the event's state; any
      other code leaves the snapshot as it was. */
  function ApplyKey(p: GamepadState, code: u16, value: i32): (q: GamepadState)
    ensures forall btn :: code == KeyCode(btn) ==> q == Set(p, btn, ButtonStateOf(value))
    ensures KeyButton(code) == None ==> q == p
  {
    var st := ButtonStateOf(value);
    if code == BTN_DPAD_UP then p.(dpad := p.dpad.(up := st))
    else if code == BTN_DPAD_DOWN then p.(dpad := p.dpad.(down := st))
    else if code == BTN_DPAD_LEFT then p.(dpad := p.dpad.(left := st))
    else if code == BTN_DPAD_RIGHT then p.(dpad := p.dpad.(right := st))
    else if code == BTN_EAST then p.(buttons := p.buttons.(a := st))
    else if code == BTN_SOUTH then p.(buttons := p.buttons.(b := st))
    else if code == BTN_NORTH then p.(buttons := p.buttons.(x := st))
    else if code == BTN_WEST then p.(buttons := p.buttons.(y := st))
    else if code == BTN_TL then p.(buttons := p.buttons.(topLeft := st))
    else if code == BTN_TR then p.(buttons := p.buttons.(topRight := st))
    else if code == BTN_TRIGGER_HAPPY1 then p.(buttons := p.buttons.(f1 := st))
    else if code == BTN_TRIGGER_HAPPY2 then p.(buttons := p.buttons.(f2 := st))
    else if code == BTN_TRIGGER_HAPPY3 then p.(buttons := p.buttons.(f3 := st))
    else if code == BTN_TRIGGER_HAPPY4 then p.(buttons := p.buttons.(f4 := st))
    else if code == BTN_TRIGGER_HAPPY5 then p.(buttons := p.buttons.(f5 := st))
    else if code == BTN_TRIGGER_HAPPY6 then p.(buttons := p.buttons.(f6 := st))
    else p
  }

  /** The pending snapshot after an absolute-axis event with `code` and
      `value`. `ABS_X` and `ABS_Y` set their own axis to the normalised value
      and nothing else; any other axis code leaves the snapshot as it was. */
  function ApplyAbs(p: GamepadState, code: u16, value: i32): (q: GamepadState)
    ensures forall axis :: code == AxisCode(axis) ==> q == SetAxis(p, axis, Normalize(value))
    ensures AxisOf(code) == None ==> q == p
  {
    if code == ABS_X then p.(thumb := p.thumb.(x := Normalize(value)))
    else if code == ABS_Y then p.(thumb := p.thumb.(y := Normalize(value)))
    else p
  }
}
