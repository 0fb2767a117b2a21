/** Properties of the input state machine: the frame of each kind of event,
    the publish step, and what a run of the polling loop leaves in the pending
    and current snapshots (the last write to each field wins; the current
    snapshot is the pending one as of the last sync). */
module InputProperties {
  import opened Wrappers
  import opened Gamepad
  import opened Evdev
  import opened Decoder
  import opened Input

  /** `ev` is a key event for the code that drives `btn`. */
  predicate WritesKey(ev: InputEvent, btn: Button) {
    ev.kind == EV_KEY && ev.code == KeyCode(btn)
  }

  /** `ev` is an absolute-axis event for the code that drives `axis`. */
  predicate WritesAxis(ev: InputEvent, axis: Axis) {
    ev.kind == EV_ABS && ev.code == AxisCode(axis)
  }

  /** The state carried by the last event of `evs` that writes `btn`, if any. */
  function LastKeyWrite(evs: seq<InputEvent>, btn: Button): Option<ButtonState>
    decreases |evs|
  {
    if |evs| == 0 then None
    else if WritesKey(evs[|evs| - 1], btn) then Some(ButtonStateOf(evs[|evs| - 1].value))
    else LastKeyWrite(evs[..|evs| - 1], btn)
  }

  /** The normalised value carried by the last event of `evs` that writes
      `axis`, if any. */
  function LastAxisWrite(evs: seq<InputEvent>, axis: Axis): Option<real>
    decreases |evs|
  {
    if |evs| == 0 then None
    else if WritesAxis(evs[|evs| - 1], axis) then Some(Normalize(evs[|evs| - 1].value))
    else LastAxisWrite(evs[..|evs| - 1], axis)
  }

  /** The index of the last sync event of `evs`, if any. */
  function LastSync(evs: seq<InputEvent>): (k: Option<nat>)
    ensures k.Some? ==> k.value < |evs| && evs[k.value].kind == EV_SYN
    decreases |evs|
  {
    if |evs| == 0 then None
    else if evs[|evs| - 1].kind == EV_SYN then Some(|evs| - 1)
    else LastSync(evs[..|evs| - 1])
  }

  // ---------------------------------------------------------------------
  // One event

  /** A key event for one of the sixteen mapped codes sets that button to
      Pressed when its value is nonzero and to Released when it is zero; the
      other fifteen buttons, the thumbstick and the current snapshot are
      unchanged. */
  lemma KeyEventSetsOnlyItsButton(s: InputState, ev: InputEvent, btn: Button)
    requires WritesKey(ev, btn)
    ensures Get(Step(s, ev).pending, btn) == (if ev.value != 0 then Pressed else Released)
    ensures forall other :: other != btn ==> Get(Step(s, ev).pending, other) == Get(s.pending, other)
    ensures Step(s, ev).pending.thumb == s.pending.thumb
    ensures Step(s, ev).current == s.current
  {
  }

  /** A key event whose code drives no button changes nothing. */
  lemma UnmappedKeyIsDropped(s: InputState, ev: InputEvent)
    requires ev.kind == EV_KEY
    requires forall btn :: ev.code != KeyCode(btn)
    ensures Step(s, ev) == s
  {
  }

  /** An `ABS_X` (`ABS_Y`) event sets the thumbstick's x (y) position to the
      normalised value; the other axis, every button and the current snapshot
      are unchanged. */
  lemma AxisEventSetsOnlyItsAxis(s: InputState, ev: InputEvent, axis: Axis)
    requires WritesAxis(ev, axis)
    ensures AxisValue(Step(s, ev).pending, axis) * AxisScale == ev.value as real
    ensures forall other :: other != axis ==> AxisValue(Step(s, ev).pending, other) == AxisValue(s.pending, other)
    ensures forall btn :: Get(Step(s, ev).pending, btn) == Get(s.pending, btn)
    ensures Step(s, ev).current == s.current
  {
  }

  /** An absolute-axis event for any code other than `ABS_X` and `ABS_Y`
      changes nothing. */
  lemma UnmappedAxisIsDropped(s: InputState, ev: InputEvent)
    requires ev.kind == EV_ABS
    requires ev.code != ABS_X && ev.code != ABS_Y
    ensures Step(s, ev) == s
  {
  }

  /** Publishing twice in a row is publishing once: a sync with nothing
      pending since the previous one republishes the same snapshot. */
  lemma RepeatedSyncIsIdempotent(s: InputState, sync1: InputEvent, sync2: InputEvent)
    requires sync1.kind == EV_SYN && sync2.kind == EV_SYN
    ensures Step(Step(s, sync1), sync2) == Step(s, sync1)
    ensures Read(Step(Step(s, sync1), sync2)) == s.pending
  {
  }

  // ---------------------------------------------------------------------
  // Runs of the polling loop

  /** Handling `a` and then `b` is handling `a + b`. */
  lemma {:induction false} RunAppend(s: InputState, a: seq<InputEvent>, b: seq<InputEvent>)
    ensures Run(s, a + b) == Run(Run(s, a), b)
    decreases |b|
  {
    if |b| == 0 {
      assert a + b == a;
    } else {
      var b' := b[..|b| - 1];
      assert (a + b)[..|a + b| - 1] == a + b';
      assert (a + b)[|a + b| - 1] == b[|b| - 1];
      RunAppend(s, a, b');
    }
  }

  /** After any run, each button of the pending snapshot holds the state of
      the last key event for it, or its starting state if there was none.
      Sync events, other buttons' events and unknown codes do not disturb it. */
  lemma {:induction false} PendingButtonIsLastWrite(s: InputState, evs: seq<InputEvent>, btn: Button)
    ensures Get(Run(s, evs).pending, btn) == LastKeyWrite(evs, btn).GetOr(Get(s.pending, btn))
    decreases |evs|
  {
    if |evs| > 0 {
      var prefix := evs[..|evs| - 1];
      var ev := evs[|evs| - 1];
      PendingButtonIsLastWrite(s, prefix, btn);
      var before := Run(s, prefix);
      if WritesKey(ev, btn) {
        KeyEventSetsOnlyItsButton(before, ev, btn);
      } else if ev.kind == EV_KEY {
        match KeyButton(ev.code)
        case Some(other) =>
          KeyEventSetsOnlyItsButton(before, ev, other);
        case None =>
      }
    }
  }

  /** After any run, each thumbstick axis of the pending snapshot holds the
      normalised value of the last event for it, or its starting value if
      there was none. */
  lemma {:induction false} PendingAxisIsLastWrite(s: InputState, evs: seq<InputEvent>, axis: Axis)
    ensures AxisValue(Run(s, evs).pending, axis) == LastAxisWrite(evs, axis).GetOr(AxisValue(s.pending, axis))
    decreases |evs|
  {
    if |evs| > 0 {
      var prefix := evs[..|evs| - 1];
      var ev := evs[|evs| - 1];
      PendingAxisIsLastWrite(s, prefix, axis);
      var before := Run(s, prefix);
      if WritesAxis(ev, axis) {
        AxisEventSetsOnlyItsAxis(before, ev, axis);
      } else if ev.kind == EV_ABS {
        match AxisOf(ev.code)
        case Some(other) =>
          AxisEventSetsOnlyItsAxis(before, ev, other);
        case None =>
      }
    }
  }

  /** The current snapshot is always a whole copy of the pending snapshot as
      it stood when the last sync event arrived, or the starting current
      snapshot if no sync has arrived. It never mixes fields of two packets. */
  lemma {:induction false} CurrentIsLastPublished(s: InputState, evs: seq<InputEvent>)
    ensures Run(s, evs).current ==
      (match LastSync(evs)
       case Some(k) => Run(s, evs[..k]).pending
       case None => s.current)
    decreases |evs|
  {
    if |evs| > 0 {
      var prefix := evs[..|evs| - 1];
      if evs[|evs| - 1].kind != EV_SYN {
        CurrentIsLastPublished(s, prefix);
        assert LastSync(evs) == LastSync(prefix);
        match LastSync(prefix)
        case Some(k) =>
          assert evs[..k] == prefix[..k];
        case None =>
      }
    }
  }

  /** A read before any sync returns the all-zero snapshot, however many key
      and axis events have arrived. */
  lemma ReadBeforeAnySyncIsZero(evs: seq<InputEvent>)
    requires NoSync(evs)
    ensures Read(Run(Create(), evs)) == Zero()
  {
  }

  /** One packet (key and axis events, no sync) followed by a sync publishes,
      for every field, the value of the packet's last write to it, and the
      field's earlier pending value where the packet does not touch it. */
  lemma PacketPublishesLastWrites(s: InputState, packet: seq<InputEvent>, sync: InputEvent)
    requires NoSync(packet)
    requires sync.kind == EV_SYN
    ensures forall btn :: Get(Read(Run(s, packet + [sync])), btn) == LastKeyWrite(packet, btn).GetOr(Get(s.pending, btn))
    ensures forall axis :: AxisValue(Read(Run(s, packet + [sync])), axis) == LastAxisWrite(packet, axis).GetOr(AxisValue(s.pending, axis))
    ensures Read(Run(s, packet + [sync])) == Run(s, packet).pending
  {
    var evs := packet + [sync];
    assert evs[..|evs| - 1] == packet;
    forall btn | true
      ensures Get(Read(Run(s, evs)), btn) == LastKeyWrite(packet, btn).GetOr(Get(s.pending, btn))
    {
      PendingButtonIsLastWrite(s, packet, btn);
    }
    forall axis | true
      ensures AxisValue(Read(Run(s, evs)), axis) == LastAxisWrite(packet, axis).GetOr(AxisValue(s.pending, axis))
    {
      PendingAxisIsLastWrite(s, packet, axis);
    }
  }

  /** `LastKeyWrite` is the last write by position: it is None exactly when no
      event writes the button, and otherwise the state of an event that writes
      it with no later event writing it. */
  lemma {:induction false} LastKeyWriteIsLastByPosition(evs: seq<InputEvent>, btn: Button)
    ensures LastKeyWrite(evs, btn) == None <==> forall i :: 0 <= i < |evs| ==> !WritesKey(evs[i], btn)
    ensures LastKeyWrite(evs, btn).Some? ==>
      exists i :: 0 <= i < |evs| && WritesKey(evs[i], btn)
        && LastKeyWrite(evs, btn) == Some(ButtonStateOf(evs[i].value))
        && forall j :: i < j < |evs| ==> !WritesKey(evs[j], btn)
    decreases |evs|
  {
    if |evs| > 0 {
      var prefix := evs[..|evs| - 1];
      LastKeyWriteIsLastByPosition(prefix, btn);
      if !WritesKey(evs[|evs| - 1], btn) {
        assert forall i :: 0 <= i < |prefix| ==> prefix[i] == evs[i];
        if LastKeyWrite(evs, btn).Some? {
          var i :| 0 <= i < |prefix| && WritesKey(prefix[i], btn)
            && LastKeyWrite(prefix, btn) == Some(ButtonStateOf(prefix[i].value))
            && forall j :: i < j < |prefix| ==> !WritesKey(prefix[j], btn);
          assert forall j :: i < j < |evs| ==> !WritesKey(evs[j], btn);
        }
      }
    }
  }

  /** The example packet: d-pad up pressed, south pressed, stick pushed
      halfway right, then a sync. The published snapshot has up and `b`
      pressed and x at 0.5, every other field as it was pending. */
  lemma ExamplePacket(s: InputState)
    ensures var evs := [InputEvent(EV_KEY, BTN_DPAD_UP, 1), InputEvent(EV_KEY, BTN_SOUTH, 1),
                        InputEvent(EV_ABS, ABS_X, 256), InputEvent(EV_SYN, 0, 0)];
      Read(Run(s, evs)) == SetAxis(Set(Set(s.pending, DpadUp, Pressed), B, Pressed), ThumbX, 0.5)
  {
    var evs := [InputEvent(EV_KEY, BTN_DPAD_UP, 1), InputEvent(EV_KEY, BTN_SOUTH, 1),
                InputEvent(EV_ABS, ABS_X, 256), InputEvent(EV_SYN, 0, 0)];
    assert evs[..3][..2] == evs[..2] && evs[..2][..1] == evs[..1] && evs[..1][..0] == [];
    var p1 := Set(s.pending, DpadUp, Pressed);
    var p2 := Set(p1, B, Pressed);
    var p3 := SetAxis(p2, ThumbX, 0.5);
    assert Run(s, evs[..1]).pending == p1 by {
      assert KeyButton(BTN_DPAD_UP) == Some(DpadUp);
    }
    assert Run(s, evs[..2]).pending == p2 by {
      assert KeyButton(BTN_SOUTH) == Some(B);
    }
    assert Run(s, evs[..3]).pending == p3 by {
      assert AxisOf(ABS_X) == Some(ThumbX);
      assert Normalize(256) == 0.5;
    }
  }
}
