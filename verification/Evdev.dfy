/** An input device as the kernel's evdev layer sees it: keys held, axis values, and multitouch slots
    behind a current-slot register (the slotted "type B" protocol of the kernel's "Multi-touch (MT)
    Protocol" document, section "Protocol Example B"). It interprets events and knows nothing of reports. */
module Evdev {

  datatype Key =
    | ButtonThumbr | ButtonThumbl | ButtonStart | ButtonSelect | ButtonTR | ButtonTL | ButtonTR2 | ButtonTL2
    | ButtonNorth | ButtonEast | ButtonSouth | ButtonWest | ButtonMode
    | VolumeUp | VolumeDown
    | ButtonTouch | ButtonToolFinger | ButtonLeft

  datatype Axis =
    | X | Y | Z | RX | RY | RZ | Hat0X | Hat0Y
    | MultitouchSlot | MultitouchTrackingId | MultitouchPositionX | MultitouchPositionY | MultitouchPressure

  datatype InputEvent = KeyEvent(key: Key, pressed: bool) | AbsoluteEvent(axis: Axis, value: int)

  /** What a device declared when it was created; other codes are dropped. */
  datatype Capabilities = Capabilities(keys: set<Key>, axes: set<Axis>)

  /** A tracking id of -1 marks an unused slot. */
  datatype Slot = Slot(id: int, x: int, y: int, pressure: int)

  const UNUSED: Slot := Slot(-1, 0, 0, 0)

  datatype Device = Device(keys: set<Key>, axes: map<Axis, int>, current: int, slots: seq<Slot>)

  function NewDevice(caps: Capabilities, slotCount: nat): Device {
    Device({}, map a | a in caps.axes :: 0, 0, seq(slotCount, _ => UNUSED))
  }

  function ApplyKey(keys: set<Key>, key: Key, pressed: bool): set<Key> {
    if pressed then keys + {key} else keys - {key}
  }

  function ApplyAxis(dev: Device, axis: Axis, value: int): Device {
    var touched := 0 <= dev.current < |dev.slots|;
    match axis
    case MultitouchSlot => if 0 <= value < |dev.slots| then dev.(current := value) else dev
    case MultitouchTrackingId =>
      if touched then dev.(slots := dev.slots[dev.current := dev.slots[dev.current].(id := value)]) else dev
    case MultitouchPositionX =>
      if touched then dev.(slots := dev.slots[dev.current := dev.slots[dev.current].(x := value)]) else dev
    case MultitouchPositionY =>
      if touched then dev.(slots := dev.slots[dev.current := dev.slots[dev.current].(y := value)]) else dev
    case MultitouchPressure =>
      if touched then dev.(slots := dev.slots[dev.current := dev.slots[dev.current].(pressure := value)]) else dev
    case _ => dev.(axes := dev.axes[axis := value])
  }

  function Apply(caps: Capabilities, dev: Device, ev: InputEvent): Device {
    match ev
    case KeyEvent(key, pressed) => if key in caps.keys then dev.(keys := ApplyKey(dev.keys, key, pressed)) else dev
    case AbsoluteEvent(axis, value) => if axis in caps.axes then ApplyAxis(dev, axis, value) else dev
  }

  function Replay(caps: Capabilities, dev: Device, events: seq<InputEvent>): Device
    decreases |events|
  {
    if events == [] then dev else Replay(caps, Apply(caps, dev, events[0]), events[1..])
  }

  lemma {:induction false} ReplayAppend(caps: Capabilities, dev: Device, a: seq<InputEvent>, b: seq<InputEvent>)
    ensures Replay(caps, dev, a + b) == Replay(caps, Replay(caps, dev, a), b)
    decreases |a|
  {
    hide Apply;
    if a == [] {
      assert a + b == b;
    } else {
      assert (a + b)[1..] == a[1..] + b;
      ReplayAppend(caps, Apply(caps, dev, a[0]), a[1..], b);
    }
  }

  lemma ReplaySnoc(caps: Capabilities, dev: Device, a: seq<InputEvent>, ev: InputEvent)
    ensures Replay(caps, dev, a + [ev]) == Apply(caps, Replay(caps, dev, a), ev)
  {
    hide Apply;
    ReplayAppend(caps, dev, a, [ev]);
    var d := Replay(caps, dev, a);
    assert Replay(caps, d, [ev]) == Replay(caps, Apply(caps, d, ev), [ev][1..]);
  }

  lemma ReplayFive(caps: Capabilities, dev: Device, e: seq<InputEvent>)
    requires |e| == 5
    ensures Replay(caps, dev, e) ==
              Apply(caps, Apply(caps, Apply(caps, Apply(caps, Apply(caps, dev, e[0]), e[1]), e[2]), e[3]), e[4])
  {
    hide Replay, Apply;
    ReplayNone(caps, dev);
    assert e[..1] == [] + [e[0]] && e[..2] == e[..1] + [e[1]] && e[..3] == e[..2] + [e[2]];
    assert e[..4] == e[..3] + [e[3]] && e == e[..4] + [e[4]];
    ReplaySnoc(caps, dev, [], e[0]);
    ReplaySnoc(caps, dev, e[..1], e[1]);
    ReplaySnoc(caps, dev, e[..2], e[2]);
    ReplaySnoc(caps, dev, e[..3], e[3]);
    ReplaySnoc(caps, dev, e[..4], e[4]);
  }

  lemma ReplayNone(caps: Capabilities, dev: Device)
    ensures Replay(caps, dev, []) == dev
  {
  }

  predicate AllAbsolute(events: seq<InputEvent>) {
    forall i :: 0 <= i < |events| ==> events[i].AbsoluteEvent?
  }

  // ---------- Keys ----------

  function AfterEvent(keys: set<Key>, ev: InputEvent): set<Key> {
    if ev.KeyEvent? then ApplyKey(keys, ev.key, ev.pressed) else keys
  }

  /** The keys held after some events, on a device that declares every key. */
  function KeysAfter(keys: set<Key>, events: seq<InputEvent>): set<Key>
    decreases |events|
  {
    if events == [] then keys else KeysAfter(AfterEvent(keys, events[0]), events[1..])
  }

  lemma {:induction false} KeysAfterAppend(keys: set<Key>, a: seq<InputEvent>, b: seq<InputEvent>)
    ensures KeysAfter(keys, a + b) == KeysAfter(KeysAfter(keys, a), b)
    decreases |a|
  {
    if a == [] {
      assert a + b == b;
    } else {
      assert (a + b)[1..] == a[1..] + b;
      KeysAfterAppend(AfterEvent(keys, a[0]), a[1..], b);
    }
  }

  lemma {:induction false} ReplayKeys(caps: Capabilities, dev: Device, keys: set<Key>, events: seq<InputEvent>)
    requires dev.keys == keys * caps.keys
    ensures Replay(caps, dev, events).keys == KeysAfter(keys, events) * caps.keys
    decreases |events|
  {
    if events != [] {
      ReplayKeys(caps, Apply(caps, dev, events[0]), AfterEvent(keys, events[0]), events[1..]);
    }
  }

  /** Every press is of a key that is up, every release of one that is down. */
  predicate Clean(keys: set<Key>, events: seq<InputEvent>)
    decreases |events|
  {
    events == [] ||
    (&& (events[0].KeyEvent? ==> events[0].pressed == (events[0].key !in keys))
     && Clean(AfterEvent(keys, events[0]), events[1..]))
  }

  lemma {:induction false} CleanAppend(keys: set<Key>, a: seq<InputEvent>, b: seq<InputEvent>)
    requires Clean(keys, a) && Clean(KeysAfter(keys, a), b)
    ensures Clean(keys, a + b)
    decreases |a|
  {
    if a == [] {
      assert a + b == b;
    } else {
      assert (a + b)[1..] == a[1..] + b;
      CleanAppend(AfterEvent(keys, a[0]), a[1..], b);
    }
  }

  /** The presses (true) and releases (false) of one key, in order. */
  function KeyTrace(events: seq<InputEvent>, key: Key): seq<bool> {
    if events == [] then []
    else
      (if events[0].KeyEvent? && events[0].key == key then [events[0].pressed] else []) + KeyTrace(events[1..], key)
  }

  /** Strict alternation that starts with `first`. */
  predicate Alternates(trace: seq<bool>, first: bool) {
    forall i :: 0 <= i < |trace| ==> (trace[i] <==> (if i % 2 == 0 then first else !first))
  }

  lemma {:induction false} CleanAlternates(keys: set<Key>, events: seq<InputEvent>, key: Key)
    requires Clean(keys, events)
    ensures Alternates(KeyTrace(events, key), key !in keys)
    decreases |events|
  {
    if events != [] {
      var keys' := AfterEvent(keys, events[0]);
      CleanAlternates(keys', events[1..], key);
      var rest := KeyTrace(events[1..], key);
      if events[0].KeyEvent? && events[0].key == key {
        var trace := KeyTrace(events, key);
        assert trace == [events[0].pressed] + rest;
        forall i | 0 <= i < |trace|
          ensures trace[i] <==> (if i % 2 == 0 then key !in keys else key in keys)
        {
          if i > 0 { assert trace[i] == rest[i - 1]; }
        }
      }
    }
  }

  // ---------- Plain axes ----------

  predicate Multitouch(axis: Axis) {
    axis in {MultitouchSlot, MultitouchTrackingId, MultitouchPositionX, MultitouchPositionY, MultitouchPressure}
  }

  predicate Sets(ev: InputEvent, axis: Axis) {
    ev.AbsoluteEvent? && ev.axis == axis
  }

  lemma {:induction false} AxisUntouched(caps: Capabilities, dev: Device, events: seq<InputEvent>, axis: Axis)
    requires axis in dev.axes && forall i :: 0 <= i < |events| ==> !Sets(events[i], axis)
    ensures var d := Replay(caps, dev, events); axis in d.axes && d.axes[axis] == dev.axes[axis]
    decreases |events|
  {
    if events != [] {
      assert !Sets(events[0], axis);
      AxisUntouched(caps, Apply(caps, dev, events[0]), events[1..], axis);
    }
  }

  lemma AxisSet(caps: Capabilities, dev: Device, events: seq<InputEvent>, i: nat)
    requires i < |events| && events[i].AbsoluteEvent?
    requires events[i].axis in caps.axes && !Multitouch(events[i].axis)
    requires forall j :: i < j < |events| ==> !Sets(events[j], events[i].axis)
    ensures var d := Replay(caps, dev, events);
      events[i].axis in d.axes && d.axes[events[i].axis] == events[i].value
  {
    var before, after := events[..i], events[i + 1..];
    assert events == before + [events[i]] + after;
    ReplayAppend(caps, dev, before + [events[i]], after);
    ReplaySnoc(caps, dev, before, events[i]);
    forall j | 0 <= j < |after| ensures !Sets(after[j], events[i].axis) {
      assert after[j] == events[i + 1 + j];
    }
    AxisUntouched(caps, Apply(caps, Replay(caps, dev, before), events[i]), after, events[i].axis);
  }

  lemma {:induction false} AxesKept(caps: Capabilities, dev: Device, events: seq<InputEvent>)
    requires forall a :: a in caps.axes && !Multitouch(a) ==> a in dev.axes
    ensures Replay(caps, dev, events).axes.Keys == dev.axes.Keys
    ensures |Replay(caps, dev, events).slots| == |dev.slots|
    decreases |events|
  {
    if events != [] {
      AxesKept(caps, Apply(caps, dev, events[0]), events[1..]);
    }
  }

  /** Events that set no multitouch axis leave the slots alone. */
  lemma {:induction false} SlotsUntouched(caps: Capabilities, dev: Device, events: seq<InputEvent>)
    requires forall i :: 0 <= i < |events| ==> events[i].KeyEvent?
    ensures var d := Replay(caps, dev, events); d.slots == dev.slots && d.current == dev.current && d.axes == dev.axes
    decreases |events|
  {
    if events != [] {
      assert events[0].KeyEvent?;
      SlotsUntouched(caps, Apply(caps, dev, events[0]), events[1..]);
    }
  }
}
