/** The input subsystem (`go2_input_t`) as a sequential state machine: the
    pending snapshot the polling loop accumulates and the current snapshot
    readers see. `Step` is one iteration of the loop in `input_task` on an
    event the device delivered; `Run` is the loop over a finite stream of such
    events. The mutex around the publish and the read is not modelled: here a
    publish is a single whole-value assignment. */
module Input {
  import opened Wrappers
  import opened Gamepad
  import opened Evdev
  import opened Decoder

  datatype InputState = InputState(pending: GamepadState, current: GamepadState)

  /** The state `go2_input_create` leaves behind: both snapshots zeroed. */
  function Create(): (s: InputState)
    ensures forall btn :: Get(s.pending, btn) == Released && Get(s.current, btn) == Released
    ensures forall axis :: AxisValue(s.pending, axis) == 0.0 && AxisValue(s.current, axis) == 0.0
  {
    InputState(Zero(), Zero())
  }

  /** `go2_input_read`: a copy of the current snapshot. */
  function Read(s: InputState): GamepadState {
    s.current
  }

  /** One iteration of the polling loop on event `ev`. Key and axis events
      rewrite only the pending snapshot, as the decoder tables say; a sync
      event, whatever its code and value, publishes the whole pending
      snapshot; every other event type is dropped. */
  function Step(s: InputState, ev: InputEvent): (t: InputState)
    ensures ev.kind != EV_SYN ==> t.current == s.current
    ensures ev.kind == EV_SYN ==> t.current == s.pending && t.pending == s.pending
    ensures ev.kind == EV_KEY ==>
      t.pending == (match KeyButton(ev.code)
                    case Some(btn) => Set(s.pending, btn, ButtonStateOf(ev.value))
                    case None => s.pending)
    ensures ev.kind == EV_ABS ==>
      t.pending == (match AxisOf(ev.code)
                    case Some(axis) => SetAxis(s.pending, axis, Normalize(ev.value))
                    case None => s.pending)
    ensures ev.kind != EV_KEY && ev.kind != EV_ABS && ev.kind != EV_SYN ==> t == s
  {
    if ev.kind == EV_KEY then
      s.(pending := ApplyKey(s.pending, ev.code, ev.value))
    else if ev.kind == EV_ABS then
      s.(pending := ApplyAbs(s.pending, ev.code, ev.value))
    else if ev.kind == EV_SYN then
      s.(current := s.pending)
    else
      s
  }

  /** True when no event of `evs` is a sync event. */
  predicate NoSync(evs: seq<InputEvent>) {
    forall i :: 0 <= i < |evs| ==> evs[i].kind != EV_SYN
  }

  /** The state after the polling loop has handled `evs` in order, starting
      from `s`. Without a sync among them, the current snapshot is untouched;
      after a sync as the last event, readers see exactly the pending one. */
  function Run(s: InputState, evs: seq<InputEvent>): (t: InputState)
    ensures NoSync(evs) ==> t.current == s.current
    ensures |evs| > 0 && evs[|evs| - 1].kind == EV_SYN ==> t.current == t.pending
    decreases |evs|
  {
    if |evs| == 0 then s
    else Step(Run(s, evs[..|evs| - 1]), evs[|evs| - 1])
  }

  /** The polling loop of `input_task` over the events the device delivers,
      one `Step` per event; it ends with the stream. */
  method Poll(s0: InputState, evs: seq<InputEvent>) returns (s: InputState)
    ensures s == Run(s0, evs)
  {
    s := s0;
    var i := 0;
    while i < |evs|
      invariant 0 <= i <= |evs|
      invariant s == Run(s0, evs[..i])
    {
      assert evs[..i + 1][..i] == evs[..i];
      s := Step(s, evs[i]);
      i := i + 1;
    }
    assert evs[..|evs|] == evs;
  }
}
