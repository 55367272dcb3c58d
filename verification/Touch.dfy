/** `create_touch_events` of linux.rs, and what its events mean to a device with multitouch slots. */
module Touch {
  import opened Reports
  import opened Evdev

  type TrackingId = u8

  const TOUCHPAD: Capabilities := Capabilities(
    {ButtonTouch, ButtonToolFinger, ButtonLeft},
    {X, Y, MultitouchPositionX, MultitouchPositionY, MultitouchTrackingId, MultitouchSlot, MultitouchPressure})

  // ---------- The events, as a function of the report and the remembered state ----------

  /** Events for the first `n` slots whose touch has ended. */
  function EndedEvents(reports: seq<TouchReport>, previous: seq<Option<TrackingId>>, n: nat): seq<InputEvent>
    requires n <= |previous|
  {
    if n == 0 then []
    else EndedEvents(reports, previous, n - 1) + EndedSlot(reports, previous, n - 1)
  }

  function EndedSlot(reports: seq<TouchReport>, previous: seq<Option<TrackingId>>, slot: nat): seq<InputEvent>
    requires slot < |previous|
  {
    if previous[slot].Some? && slot >= |reports| then
      [AbsoluteEvent(MultitouchSlot, slot), AbsoluteEvent(MultitouchTrackingId, -1)]
    else []
  }

  /** Events that describe the first `n` touches. */
  function UpdatedEvents(reports: seq<TouchReport>, n: nat): seq<InputEvent>
    requires n <= |reports|
  {
    if n == 0 then [] else UpdatedEvents(reports, n - 1) + UpdatedSlot(reports[n - 1], n - 1)
  }

  function UpdatedSlot(touch: TouchReport, slot: nat): seq<InputEvent> {
    [AbsoluteEvent(MultitouchSlot, slot), AbsoluteEvent(MultitouchTrackingId, touch.id),
     AbsoluteEvent(MultitouchPositionX, touch.x), AbsoluteEvent(MultitouchPositionY, touch.y),
     AbsoluteEvent(MultitouchPressure, touch.force)]
  }

  function Used(reports: seq<TouchReport>, maxSlots: nat): nat {
    if |reports| < maxSlots then |reports| else maxSlots
  }

  /** One of the touches that get a slot presses the pad. */
  predicate AnyActive(reports: seq<TouchReport>, n: nat)
    requires n <= |reports|
  {
    exists i :: 0 <= i < n && reports[i].force > 0
  }

  function TouchKeyEvents(active: bool, touchState: bool): seq<InputEvent> {
    if active && !touchState then [KeyEvent(ButtonTouch, true), KeyEvent(ButtonToolFinger, true)]
    else if !active && touchState then [KeyEvent(ButtonTouch, false), KeyEvent(ButtonToolFinger, false)]
    else []
  }

  function TouchEvents(reports: seq<TouchReport>, previous: seq<Option<TrackingId>>, maxSlots: nat, touchState: bool)
    : seq<InputEvent>
    requires maxSlots <= |previous|
  {
    EndedEvents(reports, previous, maxSlots) + UpdatedEvents(reports, Used(reports, maxSlots))
    + TouchKeyEvents(AnyActive(reports, Used(reports, maxSlots)), touchState)
  }

  /** What is remembered afterwards: the tracking ids of this report's touches, slot by slot. */
  function Remembered(reports: seq<TouchReport>, previous: seq<Option<TrackingId>>, maxSlots: nat)
    : seq<Option<TrackingId>>
  {
    seq(|previous|, s requires 0 <= s < |previous| =>
      if s >= maxSlots then previous[s] else if s < |reports| then Some(reports[s].id) else None)
  }

  method CreateTouchEvents(reports: seq<TouchReport>, previous: array<Option<TrackingId>>, maxSlots: nat, touchState: bool)
    returns (events: seq<InputEvent>, touchState': bool)
    requires maxSlots <= previous.Length
    modifies previous
    ensures events == TouchEvents(reports, old(previous[..]), maxSlots, touchState)
    ensures previous[..] == Remembered(reports, old(previous[..]), maxSlots)
    ensures touchState' == AnyActive(reports, Used(reports, maxSlots))
  {
    ghost var was := previous[..];
    events := [];
    for slot := 0 to maxSlots
      invariant events == EndedEvents(reports, was, slot)
      invariant forall s :: 0 <= s < slot ==> previous[s] == if s < |reports| then was[s] else None
      invariant forall s :: slot <= s < previous.Length ==> previous[s] == was[s]
    {
      var oldId := previous[slot];
      if oldId.Some? && slot >= |reports| {
        events := events + [AbsoluteEvent(MultitouchSlot, slot), AbsoluteEvent(MultitouchTrackingId, -1)];
        previous[slot] := None;
      }
    }

    var anyTouchActive := false;
    ghost var ended := events;
    for slot := 0 to |reports|
      invariant events == ended + UpdatedEvents(reports, Used(reports[..slot], maxSlots))
      invariant anyTouchActive == AnyActive(reports, Used(reports[..slot], maxSlots))
      invariant forall s :: 0 <= s < maxSlots ==>
                  previous[s] == if s < slot then Some(reports[s].id) else if s < |reports| then was[s] else None
      invariant forall s :: maxSlots <= s < previous.Length ==> previous[s] == was[s]
    {
      if slot >= maxSlots {
        break;
      }
      var touch := reports[slot];
      events := events + [AbsoluteEvent(MultitouchSlot, slot), AbsoluteEvent(MultitouchTrackingId, touch.id),
                          AbsoluteEvent(MultitouchPositionX, touch.x), AbsoluteEvent(MultitouchPositionY, touch.y),
                          AbsoluteEvent(MultitouchPressure, touch.force)];
      if touch.force > 0 {
        anyTouchActive := true;
      }
      previous[slot] := Some(touch.id);
      assert Used(reports[..slot + 1], maxSlots) == slot + 1;
    }

    touchState' := touchState;
    if anyTouchActive && !touchState {
      events := events + [KeyEvent(ButtonTouch, true), KeyEvent(ButtonToolFinger, true)];
      touchState' := true;
    } else if !anyTouchActive && touchState {
      events := events + [KeyEvent(ButtonTouch, false), KeyEvent(ButtonToolFinger, false)];
      touchState' := false;
    }
  }

  // ---------- The slots after the events ----------

  function SlotOf(touch: TouchReport): Slot {
    Slot(touch.id, touch.x, touch.y, touch.force)
  }

  /** The remembered ids agree with the slots of the device. */
  predicate IdsAgree(dev: Device, previous: seq<Option<TrackingId>>) {
    && |previous| == |dev.slots|
    && forall s :: 0 <= s < |previous| ==> dev.slots[s].id == if previous[s].Some? then previous[s].value else -1
  }

  lemma ReplayEndedSlot(dev: Device, slot: nat)
    requires slot < |dev.slots|
    ensures Replay(TOUCHPAD, dev, [AbsoluteEvent(MultitouchSlot, slot), AbsoluteEvent(MultitouchTrackingId, -1)])
         == dev.(current := slot, slots := dev.slots[slot := dev.slots[slot].(id := -1)])
  {
    var e1 := AbsoluteEvent(MultitouchTrackingId, -1);
    ReplaySnoc(TOUCHPAD, dev, [AbsoluteEvent(MultitouchSlot, slot)], e1);
    ReplaySnoc(TOUCHPAD, dev, [], AbsoluteEvent(MultitouchSlot, slot));
    assert [] + [AbsoluteEvent(MultitouchSlot, slot)] == [AbsoluteEvent(MultitouchSlot, slot)];
    assert [AbsoluteEvent(MultitouchSlot, slot)] + [e1] == [AbsoluteEvent(MultitouchSlot, slot), e1];
  }

  lemma ReplayUpdatedSlot(dev: Device, touch: TouchReport, slot: nat)
    requires slot < |dev.slots|
    ensures Replay(TOUCHPAD, dev, UpdatedSlot(touch, slot))
         == dev.(current := slot, slots := dev.slots[slot := SlotOf(touch)])
  {
    ReplayFive(TOUCHPAD, dev, UpdatedSlot(touch, slot));
    hide Replay, Apply, ApplyAxis;
    BeginSlot(dev, slot);
    var d1 := dev.(current := slot);
    var s1 := dev.slots[slot];
    assert dev.slots[slot := s1] == dev.slots;
    WriteSlot(d1, s1, MultitouchTrackingId, touch.id);
    var s2 := s1.(id := touch.id);
    WriteSlot(d1, s2, MultitouchPositionX, touch.x);
    WriteSlot(d1, s2.(x := touch.x), MultitouchPositionY, touch.y);
    WriteSlot(d1, s2.(x := touch.x, y := touch.y), MultitouchPressure, touch.force);
  }

  lemma BeginSlot(dev: Device, slot: nat)
    requires slot < |dev.slots|
    ensures Apply(TOUCHPAD, dev, AbsoluteEvent(MultitouchSlot, slot)) == dev.(current := slot)
  {
  }

  function WithField(s: Slot, axis: Axis, value: int): Slot
    requires Multitouch(axis) && axis != MultitouchSlot
  {
    match axis
    case MultitouchTrackingId => s.(id := value)
    case MultitouchPositionX => s.(x := value)
    case MultitouchPositionY => s.(y := value)
    case MultitouchPressure => s.(pressure := value)
  }

  /** Writing one field of the current slot after an earlier write to it. */
  lemma WriteSlot(dev: Device, s: Slot, axis: Axis, value: int)
    requires 0 <= dev.current < |dev.slots|
    requires Multitouch(axis) && axis != MultitouchSlot
    ensures Apply(TOUCHPAD, dev.(slots := dev.slots[dev.current := s]), AbsoluteEvent(axis, value))
         == dev.(slots := dev.slots[dev.current := WithField(s, axis, value)])
  {
    var d := dev.(slots := dev.slots[dev.current := s]);
    ApplyMultitouch(d, axis, value);
    hide Apply;
    assert d.slots[dev.current := WithField(s, axis, value)] == dev.slots[dev.current := WithField(s, axis, value)];
  }

  lemma ApplyMultitouch(dev: Device, axis: Axis, value: int)
    requires Multitouch(axis)
    ensures Apply(TOUCHPAD, dev, AbsoluteEvent(axis, value)) == ApplyAxis(dev, axis, value)
  {
  }

  lemma {:induction false} ReplayEnded(
    dev: Device, reports: seq<TouchReport>, previous: seq<Option<TrackingId>>, n: nat)
    requires n <= |previous| <= |dev.slots|
    ensures var d := Replay(TOUCHPAD, dev, EndedEvents(reports, previous, n));
      && |d.slots| == |dev.slots| && d.axes == dev.axes
      && forall s :: 0 <= s < |d.slots| ==>
           d.slots[s] == if s < n && previous[s].Some? && s >= |reports| then dev.slots[s].(id := -1) else dev.slots[s]
  {
    hide Apply, Replay;
    if n == 0 {
      ReplayNone(TOUCHPAD, dev);
    } else {
      ReplayEnded(dev, reports, previous, n - 1);
      var before := EndedEvents(reports, previous, n - 1);
      ReplayAppend(TOUCHPAD, dev, before, EndedSlot(reports, previous, n - 1));
      ReplayNone(TOUCHPAD, Replay(TOUCHPAD, dev, before));
      ReplayEndedSlot(Replay(TOUCHPAD, dev, before), n - 1);
    }
  }

  lemma {:induction false} ReplayUpdated(dev: Device, reports: seq<TouchReport>, n: nat)
    requires n <= |reports| && n <= |dev.slots|
    ensures var d := Replay(TOUCHPAD, dev, UpdatedEvents(reports, n));
      && |d.slots| == |dev.slots| && d.axes == dev.axes
      && forall s :: 0 <= s < |d.slots| ==> d.slots[s] == if s < n then SlotOf(reports[s]) else dev.slots[s]
  {
    hide Apply, Replay, UpdatedSlot;
    if n == 0 {
      ReplayNone(TOUCHPAD, dev);
    } else {
      ReplayUpdated(dev, reports, n - 1);
      var before := UpdatedEvents(reports, n - 1);
      ReplayAppend(TOUCHPAD, dev, before, UpdatedSlot(reports[n - 1], n - 1));
      ReplayUpdatedSlot(Replay(TOUCHPAD, dev, before), reports[n - 1], n - 1);
    }
  }

  /** The slot table a report describes: its touches in order, every other slot unused. */
  predicate ShowsTouches(dev: Device, reports: seq<TouchReport>) {
    forall s :: 0 <= s < |dev.slots| ==>
      if s < |reports| then dev.slots[s] == SlotOf(reports[s]) else dev.slots[s].id == -1
  }

  /** Whatever the slots held, if the remembered ids agree with them, replaying the events leaves exactly
      this report's touches, and the remembered ids agree again. */
  lemma SlotsRefine(dev: Device, reports: seq<TouchReport>, previous: seq<Option<TrackingId>>, touchState: bool)
    requires IdsAgree(dev, previous)
    ensures var d := Replay(TOUCHPAD, dev, TouchEvents(reports, previous, |previous|, touchState));
      && |d.slots| == |dev.slots| && d.axes == dev.axes
      && ShowsTouches(d, reports)
      && IdsAgree(d, Remembered(reports, previous, |previous|))
  {
    hide Apply, Replay, EndedEvents, UpdatedEvents;
    var n := |previous|;
    var ended, updated := EndedEvents(reports, previous, n), UpdatedEvents(reports, Used(reports, n));
    var keys := TouchKeyEvents(AnyActive(reports, Used(reports, n)), touchState);
    ReplayAppend(TOUCHPAD, dev, ended + updated, keys);
    ReplayAppend(TOUCHPAD, dev, ended, updated);
    ReplayEnded(dev, reports, previous, n);
    ReplayUpdated(Replay(TOUCHPAD, dev, ended), reports, Used(reports, n));
    SlotsUntouched(TOUCHPAD, Replay(TOUCHPAD, dev, ended + updated), keys);
  }

  // ---------- The touch keys ----------

  function TouchKeys(touching: bool): set<Key> {
    if touching then {ButtonTouch, ButtonToolFinger} else {}
  }

  lemma {:induction false} NoKeyEvents(keys: set<Key>, events: seq<InputEvent>)
    requires AllAbsolute(events)
    ensures KeysAfter(keys, events) == keys && Clean(keys, events)
    decreases |events|
  {
    if events != [] {
      assert events[0].AbsoluteEvent?;
      NoKeyEvents(keys, events[1..]);
    }
  }

  lemma {:induction false} EndedIsAbsolute(reports: seq<TouchReport>, previous: seq<Option<TrackingId>>, n: nat)
    requires n <= |previous|
    ensures AllAbsolute(EndedEvents(reports, previous, n))
  {
    if n > 0 {
      EndedIsAbsolute(reports, previous, n - 1);
      assert AllAbsolute(EndedSlot(reports, previous, n - 1));
    }
  }

  lemma {:induction false} UpdatedIsAbsolute(reports: seq<TouchReport>, n: nat)
    requires n <= |reports|
    ensures AllAbsolute(UpdatedEvents(reports, n))
  {
    if n > 0 {
      UpdatedIsAbsolute(reports, n - 1);
      assert AllAbsolute(UpdatedSlot(reports[n - 1], n - 1));
    }
  }

  lemma TouchKeyChange(active: bool, touchState: bool)
    ensures KeysAfter(TouchKeys(touchState), TouchKeyEvents(active, touchState)) == TouchKeys(active)
    ensures Clean(TouchKeys(touchState), TouchKeyEvents(active, touchState))
  {
    var e := TouchKeyEvents(active, touchState);
    if active != touchState {
      var after := AfterEvent(TouchKeys(touchState), e[0]);
      assert e[1..] == [e[1]] && e[1..][1..] == [];
      assert KeysAfter(after, e[1..]) == AfterEvent(after, e[1]) == TouchKeys(active);
      assert Clean(after, e[1..]);
    }
  }

  /** The touch keys are held after the events exactly when some touch with a slot presses the pad, and no
      event repeats a press or a release. */
  lemma TouchKeysRefine(reports: seq<TouchReport>, previous: seq<Option<TrackingId>>, touchState: bool)
    ensures var e := TouchEvents(reports, previous, |previous|, touchState);
      && KeysAfter(TouchKeys(touchState), e) == TouchKeys(AnyActive(reports, Used(reports, |previous|)))
      && Clean(TouchKeys(touchState), e)
  {
    var n, held := |previous|, TouchKeys(touchState);
    var ended, updated := EndedEvents(reports, previous, n), UpdatedEvents(reports, Used(reports, n));
    var keys := TouchKeyEvents(AnyActive(reports, Used(reports, n)), touchState);
    EndedIsAbsolute(reports, previous, n);
    UpdatedIsAbsolute(reports, Used(reports, n));
    NoKeyEvents(held, ended + updated);
    TouchKeyChange(AnyActive(reports, Used(reports, n)), touchState);
    KeysAfterAppend(held, ended + updated, keys);
    CleanAppend(held, ended + updated, keys);
  }
}
