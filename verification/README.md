# libgo2 gamepad input: event decoder and publish step

This project models the input subsystem of libgo2 (`src/input.c`). A
background loop reads raw Linux input events from the handheld's joypad
device. Each event is a triple (type, code, value):

- key events set one of sixteen press/release fields of a *pending* gamepad
  snapshot;
- `ABS_X` / `ABS_Y` events set the thumbstick axes of the pending snapshot;
- a sync event copies the whole pending snapshot into the *current*
  (published) snapshot, which `go2_input_read` hands out.

The model is sequential and functional:

- `Input.Step(state, event)` is one loop iteration over a
  `(pending, current)` pair.
- `Input.Run` is the loop over a finite event stream, as a fold of `Step`.
- `Input.Poll` is the same loop written as a `while` loop.
- `Input.Read` returns the current snapshot. It is a pure function, so
  reading cannot change the state.

Modules, leaf first:

- `Wrappers` (wrappers.dfy): `Option`.
- `Gamepad` (gamepad.dfy): the snapshot `go2_gamepad_t`. It has `Button` and
  `Axis` selectors with `Get`/`Set` and `AxisValue`/`SetAxis`. The zero
  snapshot is also defined here.
- `Evdev` (evdev.dfy): `struct input_event` without its timestamp, the
  kernel's event-type, key and axis codes, and the code↔field tables.
  `KeyCode`/`AxisCode` give the code for each field. `KeyButton`/`AxisOf`
  are their inverses.
- `Decoder` (decoder.dfy): the two `switch` statements of `input_task`,
  written case by case. Their contracts state the effect through the tables.
- `Input` (input.dfy): the subsystem state, `Create`, `Read`, `Step`, `Run`
  and `Poll`.
- `InputProperties` (properties.dfy): frame lemmas for each kind of event,
  last-write-wins, and "current is a whole copy of the last published
  pending".

The event-code values are those of the Linux kernel's `input-event-codes.h`.
That header is not part of this model. No proof depends on the values beyond
their being pairwise distinct. `src/input.h` (the `go2_gamepad_t` layout and
`go2_button_state_t`) is not part of this model either. The field names
come from their uses in `src/input.c`. `Released` is taken to be the
enumerator that an all-zero `memset` produces.

## Model

| member | source | states |
|---|---|---|
| Gamepad.Set | src/input.c:60-113 | writing one button field: that field reads back the new state; the other fifteen buttons and the thumbstick are unchanged |
| Gamepad.SetAxis | src/input.c:117-125 | writing one thumbstick axis: that axis reads back the new value; the other axis and all sixteen buttons are unchanged |
| Gamepad.Zero | src/input.c:150 | the zeroed snapshot: every button Released and both axes 0 |
| Evdev.KeyButton | src/input.c:60-113 | the key-code table is a bijection between the sixteen recognised codes and the sixteen buttons: each recognised code drives exactly one button, and no two buttons share a code |
| Evdev.AxisOf | src/input.c:117-125 | `ABS_X` drives thumb x, `ABS_Y` drives thumb y, and no other axis code drives anything |
| Decoder.Normalize | src/input.c:119-124 | the stored axis value times the scale 512 is the raw value (exact, no float rounding); 0 maps to 0, and positive/negative values keep their sign |
| Decoder.ApplyKey | src/input.c:58-113 | a key event for a mapped code rewrites exactly its button, with Pressed iff the value is nonzero; an unmapped code leaves the pending snapshot unchanged (the switch has no default) |
| Decoder.ApplyAbs | src/input.c:117-125 | an `ABS_X`/`ABS_Y` event rewrites exactly its axis with the normalised value; any other axis code leaves the pending snapshot unchanged |
| Input.Create | src/input.c:166-167 | a new subsystem has both pending and current snapshots all-released and centred |
| Input.Step | src/input.c:56-134 | key and axis events never change the current snapshot and change the pending one only as the tables say; a sync event of any code and value sets current to pending and leaves pending alone; any other event type changes nothing |
| Input.Run | src/input.c:42-136 | a stream without sync events leaves the current snapshot untouched; after a stream ending in a sync, the current snapshot equals the pending one |
| Input.Poll | src/input.c:42-136 | the `while` loop that applies each event in order computes the fold `Run` |
| InputProperties.KeyEventSetsOnlyItsButton | src/input.c:56-113 | a key event for button b sets b to Pressed when its value is nonzero and to Released when it is 0; the other buttons, the thumbstick and the current snapshot are unchanged |
| InputProperties.UnmappedKeyIsDropped | src/input.c:60-113 | a key event whose code drives no button leaves both snapshots unchanged |
| InputProperties.AxisEventSetsOnlyItsAxis | src/input.c:115-125 | an `ABS_X`/`ABS_Y` event sets only its own axis, to the raw value divided by 512; buttons, the other axis and the current snapshot are unchanged |
| InputProperties.UnmappedAxisIsDropped | src/input.c:117-125 | an absolute-axis event with a code other than `ABS_X`/`ABS_Y` leaves both snapshots unchanged |
| InputProperties.RepeatedSyncIsIdempotent | src/input.c:127-134 | a second sync with no events in between republishes the same snapshot |
| InputProperties.RunAppend | src/input.c:42-136 | handling two streams one after the other is the same as handling their concatenation |
| InputProperties.PendingButtonIsLastWrite | src/input.c:56-113 | after any stream, each pending button holds the state of the last key event for it, or its earlier value if no event wrote it |
| InputProperties.PendingAxisIsLastWrite | src/input.c:115-125 | after any stream, each pending axis holds the normalised value of the last event for it, or its earlier value if no event wrote it |
| InputProperties.CurrentIsLastPublished | src/input.c:127-134 | after any stream, the current snapshot is a whole copy of the pending snapshot as it was when the last sync arrived, or the starting current snapshot if no sync arrived |
| InputProperties.ReadBeforeAnySyncIsZero | src/input.c:206-213 | reading a new subsystem before any sync returns the all-zero snapshot, whatever key and axis events have arrived |
| InputProperties.PacketPublishesLastWrites | src/input.c:56-134 | a packet of key and axis events followed by a sync publishes each field's last write in the packet, or the field's earlier pending value if the packet does not touch it |
| InputProperties.LastKeyWriteIsLastByPosition | src/input.c:56-113 | the last-write reference used above has two cases: none exactly when no event writes the button; otherwise the state of a writing event that no later event overrides |
| InputProperties.ExamplePacket | src/input.c:56-134 | the packet [key `BTN_DPAD_UP` 1, key `BTN_SOUTH` 1, abs `ABS_X` 256, sync] publishes the earlier pending snapshot with d-pad up and `b` pressed and thumb x at 0.5 |

## Left out

- The mutex around publish and read, and the thread running `input_task`. In the sequential model a publish is one whole-value assignment, so readers cannot see a mixed snapshot by construction. The concurrency argument itself is not modelled.
- libevdev: `libevdev_next_event`, its blocking read, the `EAGAIN` and `rc != 0` results, and `libevdev_new_from_fd`. These are foreign calls. `Run` and `Poll` take the stream of successfully delivered events as a parameter, and the loop ends with that stream instead of running forever.
- Opening and closing the device path, `malloc`/`free`, the error and cleanup paths of `go2_input_create`, and the missing thread teardown in `go2_input_destroy`. These are resource plumbing.
- The no-device branch (`src/input.c:39`, `154-157`). With no device no event is ever applied, so the state stays `Create()` and every `Read` returns `Gamepad.Zero()`.
- Decoder.Normalize: the source divides by `512.0f` in single-precision float. The model uses the exact real quotient. So float32 rounding is not modelled; this matters only for raw values beyond 2^24 in magnitude.
- The event timestamp in `struct input_event`, the `printf` diagnostics and the `#if 0` debug block. These have no effect on the snapshots.
- A key event's value is a signed 32-bit integer in the source, not a boolean: any nonzero value, including autorepeat's 2, counts as Pressed. The model follows the code here.
