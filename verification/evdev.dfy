/** The raw event vocabulary of the Linux input subsystem that the decoder
    consumes: `struct input_event` without its timestamp, and the event type,
    key and axis codes the decoder recognises. The numeric values are those of
    the kernel's `input-event-codes.h`; that header is not part of this model,
    and nothing below depends on the values beyond their being pairwise
    distinct.

    The two tables `KeyCode` and `AxisCode` say which code drives which
    snapshot field; `KeyButton` and `AxisOf` are their inverses. */
module Evdev {
  import opened Wrappers
  import opened Gamepad

  /** `__u16`, the width of an event's type and code. */
  newtype u16 = x: int | 0 <= x < 0x1_0000

  /** `__s32`, the width of an event's value. */
  newtype i32 = x: int | -0x8000_0000 <= x < 0x8000_0000

  /** One raw event: `type`, `code`, `value` of `struct input_event`. */
  datatype InputEvent = InputEvent(kind: u16, code: u16, value: i32)

  // Event types
  const EV_SYN: u16 := 0x00
  const EV_KEY: u16 := 0x01
  const EV_ABS: u16 := 0x03

  // Absolute axes
  const ABS_X: u16 := 0x00
  const ABS_Y: u16 := 0x01

  // Gamepad keys
  const BTN_SOUTH: u16 := 0x130
  const BTN_EAST: u16 := 0x131
  const BTN_NORTH: u16 := 0x133
  const BTN_WEST: u16 := 0x134
  const BTN_TL: u16 := 0x136
  const BTN_TR: u16 := 0x137
  const BTN_DPAD_UP: u16 := 0x220
  const BTN_DPAD_DOWN: u16 := 0x221
  const BTN_DPAD_LEFT: u16 := 0x222
  const BTN_DPAD_RIGHT: u16 := 0x223
  const BTN_TRIGGER_HAPPY1: u16 := 0x2c0
  const BTN_TRIGGER_HAPPY2: u16 := 0x2c1
  const BTN_TRIGGER_HAPPY3: u16 := 0x2c2
  const BTN_TRIGGER_HAPPY4: u16 := 0x2c3
  const BTN_TRIGGER_HAPPY5: u16 := 0x2c4
  const BTN_TRIGGER_HAPPY6: u16 := 0x2c5

  /** The key code whose events drive button `btn`. Note the face buttons
      follow the device's labels, not the compass: east is `a`, south is `b`. */
  function KeyCode(btn: Button): u16 {
    match btn
    case DpadUp => BTN_DPAD_UP
    case DpadDown => BTN_DPAD_DOWN
    case DpadLeft => BTN_DPAD_LEFT
    case DpadRight => BTN_DPAD_RIGHT
    case A => BTN_EAST
    case B => BTN_SOUTH
    case X => BTN_NORTH
    case Y => BTN_WEST
    case TopLeft => BTN_TL
    case TopRight => BTN_TR
    case F1 => BTN_TRIGGER_HAPPY1
    case F2 => BTN_TRIGGER_HAPPY2
    case F3 => BTN_TRIGGER_HAPPY3
    case F4 => BTN_TRIGGER_HAPPY4
    case F5 => BTN_TRIGGER_HAPPY5
    case F6 => BTN_TRIGGER_HAPPY6
  }

  /** The button a key code drives, if any: exactly the inverse of `KeyCode`,
      so every recognised code drives one button and no two buttons share a
      code. */
  function KeyButton(code: u16): (r: Option<Button>)
    ensures forall btn :: r == Some(btn) <==> code == KeyCode(btn)
  {
    if code == BTN_DPAD_UP then Some(DpadUp)
    else if code == BTN_DPAD_DOWN then Some(DpadDown)
    else if code == BTN_DPAD_LEFT then Some(DpadLeft)
    else if code == BTN_DPAD_RIGHT then Some(DpadRight)
    else if code == BTN_EAST then Some(A)
    else if code == BTN_SOUTH then Some(B)
    else if code == BTN_NORTH then Some(X)
    else if code == BTN_WEST then Some(Y)
    else if code == BTN_TL then Some(TopLeft)
    else if code == BTN_TR then Some(TopRight)
    else if code == BTN_TRIGGER_HAPPY1 then Some(F1)
    else if code == BTN_TRIGGER_HAPPY2 then Some(F2)
    else if code == BTN_TRIGGER_HAPPY3 then Some(F3)
    else if code == BTN_TRIGGER_HAPPY4 then Some(F4)
    else if code == BTN_TRIGGER_HAPPY5 then Some(F5)
    else if code == BTN_TRIGGER_HAPPY6 then Some(F6)
    else None
  }

  /** The absolute-axis code whose events drive thumbstick axis `axis`. */
  function AxisCode(axis: Axis): u16 {
    match axis
    case ThumbX => ABS_X
    case ThumbY => ABS_Y
  }

  /** The thumbstick axis an absolute-axis code drives, if any: exactly the
      inverse of `AxisCode`. */
  function AxisOf(code: u16): (r: Option<Axis>)
    ensures forall axis :: r == Some(axis) <==> code == AxisCode(axis)
  {
    if code == ABS_X then Some(ThumbX)
    else if code == ABS_Y then Some(ThumbY)
    else None
  }

}
