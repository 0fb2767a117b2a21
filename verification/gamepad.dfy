/** The gamepad snapshot (`go2_gamepad_t`): a directional pad, twelve named
    buttons and one analog thumbstick. It is a plain value: it is copied,
    never shared, across the publish boundary.

    Each of the sixteen press/release fields can be named by a `Button`
    selector and each thumbstick axis by an `Axis` selector, so that the
    decoder's frame properties ("this field changed, nothing else did") can be
    stated uniformly. */
module Gamepad {

  /** `go2_button_state_t`; `Released` is the value an all-zero snapshot holds. */
  datatype ButtonState = Released | Pressed

  datatype Dpad = Dpad(up: ButtonState, down: ButtonState, left: ButtonState, right: ButtonState)

  datatype Buttons = Buttons(
    a: ButtonState, b: ButtonState, x: ButtonState, y: ButtonState,
    topLeft: ButtonState, topRight: ButtonState,
    f1: ButtonState, f2: ButtonState, f3: ButtonState,
    f4: ButtonState, f5: ButtonState, f6: ButtonState)

  /** Normalised thumbstick position (raw axis value divided by 512). */
  datatype Thumb = Thumb(x: real, y: real)

  datatype GamepadState = GamepadState(dpad: Dpad, buttons: Buttons, thumb: Thumb)

  /** Selector for one press/release field of a snapshot. */
  datatype Button =
    | DpadUp | DpadDown | DpadLeft | DpadRight
    | A | B | X | Y
    | TopLeft | TopRight
    | F1 | F2 | F3 | F4 | F5 | F6

  /** Selector for one thumbstick axis of a snapshot. */
  datatype Axis = ThumbX | ThumbY

  /** The field of `g` that `btn` selects. */
  function Get(g: GamepadState, btn: Button): ButtonState {
    match btn
    case DpadUp => g.dpad.up
    case DpadDown => g.dpad.down
    case DpadLeft => g.dpad.left
    case DpadRight => g.dpad.right
    case A => g.buttons.a
    case B => g.buttons.b
    case X => g.buttons.x
    case Y => g.buttons.y
    case TopLeft => g.buttons.topLeft
    case TopRight => g.buttons.topRight
    case F1 => g.buttons.f1
    case F2 => g.buttons.f2
    case F3 => g.buttons.f3
    case F4 => g.buttons.f4
    case F5 => g.buttons.f5
    case F6 => g.buttons.f6
  }

  /** The thumbstick axis of `g` that `axis` selects. */
  function AxisValue(g: GamepadState, axis: Axis): real {
    match axis
    case ThumbX => g.thumb.x
    case ThumbY => g.thumb.y
  }

  /** `g` with the field selected by `btn` overwritten by `st`: that field
      reads back `st`, every other button and the thumbstick are unchanged. */
  function Set(g: GamepadState, btn: Button, st: ButtonState): (r: GamepadState)
    ensures Get(r, btn) == st
    ensures forall other :: other != btn ==> Get(r, other) == Get(g, other)
    ensures r.thumb == g.thumb
  {
    match btn
    case DpadUp => g.(dpad := g.dpad.(up := st))
    case DpadDown => g.(dpad := g.dpad.(down := st))
    case DpadLeft => g.(dpad := g.dpad.(left := st))
    case DpadRight => g.(dpad := g.dpad.(right := st))
    case A => g.(buttons := g.buttons.(a := st))
    case B => g.(buttons := g.buttons.(b := st))
    case X => g.(buttons := g.buttons.(x := st))
    case Y => g.(buttons := g.buttons.(y := st))
    case TopLeft => g.(buttons := g.buttons.(topLeft := st))
    case TopRight => g.(buttons := g.buttons.(topRight := st))
    case F1 => g.(buttons := g.buttons.(f1 := st))
    case F2 => g.(buttons := g.buttons.(f2 := st))
    case F3 => g.(buttons := g.buttons.(f3 := st))
    case F4 => g.(buttons := g.buttons.(f4 := st))
    case F5 => g.(buttons := g.buttons.(f5 := st))
    case F6 => g.(buttons := g.buttons.(f6 := st))
  }

  /** `g` with the axis selected by `axis` overwritten by `v`: that axis reads
      back `v`, the other axis and every button are unchanged. */
  function SetAxis(g: GamepadState, axis: Axis, v: real): (r: GamepadState)
    ensures AxisValue(r, axis) == v
    ensures forall other :: other != axis ==> AxisValue(r, other) == AxisValue(g, other)
    ensures forall btn :: Get(r, btn) == Get(g, btn)
  {
    match axis
    case ThumbX => g.(thumb := g.thumb.(x := v))
    case ThumbY => g.(thumb := g.thumb.(y := v))
  }

  /** The all-zero snapshot that `memset(…, 0, …)` produces: every button
      released and the stick centred. */
  function Zero(): (g: GamepadState)
    ensures forall btn :: Get(g, btn) == Released
    ensures forall axis :: AxisValue(g, axis) == 0.0
  {
    var r := Released;
    GamepadState(
      Dpad(r, r, r, r),
      Buttons(r, r, r, r, r, r, r, r, r, r, r, r),
      Thumb(0.0, 0.0))
  }
}
