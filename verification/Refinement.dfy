/** The virtual device refined: what the kernel's devices show after any run of reports is a function of the
    last report alone. */
module Refinement {
  import opened Reports
  import opened Evdev
  import opened Buttons
  import opened Touch
  import opened VirtualDevice

  // ---------- What can be observed ----------

  /** The four uinput devices. The main events go to the pad and to the keyboard alike. */
  datatype Kernel = Kernel(pad: Device, keyboard: Device, touchpad: Device, sensors: Device)

  function NewKernel(source: Option<TouchpadSource>): Kernel {
    Kernel(NewDevice(PAD, 0), NewDevice(KEYBOARD, 0), NewDevice(TOUCHPAD, SlotCount(source)), NewDevice(SENSORS, 0))
  }

  function Deliver(k: Kernel, out: Output): Kernel {
    Kernel(Replay(PAD, k.pad, out.main), Replay(KEYBOARD, k.keyboard, out.main),
           Replay(TOUCHPAD, k.touchpad, out.touchpad), Replay(SENSORS, k.sensors, out.sensor))
  }

  datatype Observation = Observation(
    keys: set<Key>, sticksAndHat: map<Axis, int>, keyboardKeys: set<Key>,
    touchKeys: set<Key>, contacts: seq<Option<Slot>>, motion: map<Axis, int>)

  /** A slot shows a contact while its tracking id is not -1. */
  function Contacts(dev: Device): seq<Option<Slot>> {
    seq(|dev.slots|, s requires 0 <= s < |dev.slots| => if dev.slots[s].id == -1 then None else Some(dev.slots[s]))
  }

  function Observe(k: Kernel): Observation {
    Observation(k.pad.keys, k.pad.axes, k.keyboard.keys, k.touchpad.keys, Contacts(k.touchpad), k.sensors.axes)
  }

  /** What one report should show, without reference to any history. */
  function Expected(config: Config, r: MainReport): Observation {
    var touches, slots := TouchesOf(config.touchpadSource, r), SlotCount(config.touchpadSource);
    var a, g := r.motion.accelerometer, r.motion.gyro;
    Observation(
      Image(PressedSet(config, r)),
      map[X := r.lx, Y := r.ly, RX := r.rx, RY := r.ry, Hat0X := HatOf(config, r).x, Hat0Y := HatOf(config, r).y],
      {},
      TouchKeys(AnyActive(touches, Used(touches, slots))),
      seq(slots, s requires 0 <= s < slots => if s < |touches| then Some(SlotOf(touches[s])) else None),
      map[X := Accel(-a.x), Y := Accel(-a.z), Z := Accel(a.y), RX := Gyro(g.x), RY := Gyro(g.z), RZ := Gyro(-g.y)])
  }

  // ---------- The invariant between memory and kernel ----------

  predicate PadAgrees(m: Memory, pad: Device) {
    && pad.keys == Image(m.buttons)
    && pad.axes.Keys == PAD.axes
    && pad.axes[Hat0X] == m.hat.x && pad.axes[Hat0Y] == m.hat.y
  }

  predicate TouchpadAgrees(source: Option<TouchpadSource>, m: Memory, touchpad: Device)
    requires WellFormed(m)
  {
    && touchpad.keys == TouchKeys(m.touching)
    && IdsAgree(touchpad, IdsOf(source, m))
    && (source.None? ==> !m.touching && forall s :: 0 <= s < |m.front| ==> m.front[s].None?)
  }

  predicate Agrees(source: Option<TouchpadSource>, m: Memory, k: Kernel) {
    && WellFormed(m)
    && PadAgrees(m, k.pad)
    && k.keyboard.keys == {}
    && TouchpadAgrees(source, m, k.touchpad)
    && k.sensors.axes.Keys == SENSORS.axes
  }

  lemma InitiallyAgrees(source: Option<TouchpadSource>)
    ensures Agrees(source, NewMemory(), NewKernel(source))
  {
  }

  // ---------- Keys of the pad and the keyboard ----------

  lemma EveryButtonDeclared(b: Button)
    ensures b in ALL_BUTTONS
  {
  }

  lemma ImageIsDeclared(buttons: set<Button>)
    ensures VolumeUp !in Image(buttons) && VolumeDown !in Image(buttons)
    ensures Image(buttons) * PAD.keys == Image(buttons)
    ensures Image(buttons) * KEYBOARD.keys == {}
  {
    forall b | b in buttons ensures MapButtonToDs4(b) in Image(ALL_BUTTONS) {
      EveryButtonDeclared(b);
    }
    assert Image(buttons) <= Image(ALL_BUTTONS);
  }

  lemma {:induction false} Presses(keys: set<Key>, order: seq<Button>)
    requires forall i, j :: 0 <= i < j < |order| ==> order[i] != order[j]
    requires forall b :: b in order ==> MapButtonToDs4(b) !in keys
    ensures var e := KeyEvents(order, true);
      KeysAfter(keys, e) == keys + Image(set b | b in order) && Clean(keys, e)
    decreases |order|
  {
    if order != [] {
      var keys' := keys + {MapButtonToDs4(order[0])};
      assert KeyEvents(order, true)[1..] == KeyEvents(order[1..], true);
      forall b | b in order[1..] ensures MapButtonToDs4(b) !in keys' {
        var i :| 0 <= i < |order[1..]| && order[1..][i] == b;
        assert order[i + 1] == b != order[0];
        if MapButtonToDs4(b) == MapButtonToDs4(order[0]) { MapButtonInjective(b, order[0]); }
      }
      Presses(keys', order[1..]);
      ImageFirst(order);
    }
  }

  lemma {:induction false} Releases(keys: set<Key>, order: seq<Button>)
    requires forall i, j :: 0 <= i < j < |order| ==> order[i] != order[j]
    requires forall b :: b in order ==> MapButtonToDs4(b) in keys
    ensures var e := KeyEvents(order, false);
      KeysAfter(keys, e) == keys - Image(set b | b in order) && Clean(keys, e)
    decreases |order|
  {
    if order != [] {
      var keys' := keys - {MapButtonToDs4(order[0])};
      assert KeyEvents(order, false)[1..] == KeyEvents(order[1..], false);
      forall b | b in order[1..] ensures MapButtonToDs4(b) in keys' {
        var i :| 0 <= i < |order[1..]| && order[1..][i] == b;
        assert order[i + 1] == b != order[0];
        if MapButtonToDs4(b) == MapButtonToDs4(order[0]) { MapButtonInjective(b, order[0]); }
      }
      Releases(keys', order[1..]);
      ImageFirst(order);
    }
  }

  lemma ImageFirst(order: seq<Button>)
    requires order != []
    ensures Image(set b | b in order) == {MapButtonToDs4(order[0])} + Image(set b | b in order[1..])
  {
  }

  lemma VolumeTaps(keys: set<Key>, b: ButtonsData)
    requires VolumeUp !in keys && VolumeDown !in keys
    ensures KeysAfter(keys, VolumeEvents(b)) == keys && Clean(keys, VolumeEvents(b))
  {
    Tap(keys, VolumeUp);
    Tap(keys, VolumeDown);
    var up := if b.volUp then [KeyEvent(VolumeUp, true), KeyEvent(VolumeUp, false)] else [];
    var down := if b.volDown then [KeyEvent(VolumeDown, true), KeyEvent(VolumeDown, false)] else [];
    KeysAfterAppend(keys, up, down);
    CleanAppend(keys, up, down);
  }

  lemma Tap(keys: set<Key>, key: Key)
    requires key !in keys
    ensures var e := [KeyEvent(key, true), KeyEvent(key, false)]; KeysAfter(keys, e) == keys && Clean(keys, e)
  {
    var e := [KeyEvent(key, true), KeyEvent(key, false)];
    assert e[1..] == [e[1]] && e[1..][1..] == [];
    assert KeysAfter(keys + {key}, e[1..]) == keys + {key} - {key} == keys;
    assert Clean(keys + {key}, e[1..]);
  }

  lemma ButtonKeysRefine(before: set<Button>, after: set<Button>, press: seq<Button>, release: seq<Button>)
    requires IsEnumeration(press, after - before) && IsEnumeration(release, before - after)
    ensures var p, q := KeyEvents(press, true), KeyEvents(release, false);
      && Clean(Image(before), p) && Clean(KeysAfter(Image(before), p), q)
      && KeysAfter(KeysAfter(Image(before), p), q) == Image(after)
  {
    hide Clean, KeysAfter, KeyEvents;
    var keys := Image(before);
    forall b | b in press ensures MapButtonToDs4(b) !in keys {
      if MapButtonToDs4(b) in keys {
        var c :| c in before && MapButtonToDs4(c) == MapButtonToDs4(b);
        MapButtonInjective(b, c);
      }
    }
    Presses(keys, press);
    assert (set b | b in press) == after - before && (set b | b in release) == before - after;
    Releases(keys + Image(after - before), release);
    ImageDifference(before, after);
  }

  /** For every order the set differences may come out in, the events turn the keys of the old button set
      into the keys of the new one, and no event repeats a press or a release. */
  lemma KeysRefine(before: set<Button>, after: set<Button>, press: seq<Button>, release: seq<Button>,
                   hat: Hat, previous: Hat, r: MainReport)
    requires IsEnumeration(press, after - before) && IsEnumeration(release, before - after)
    ensures var e := MainEvents(press, release, hat, previous, r);
      KeysAfter(Image(before), e) == Image(after) && Clean(Image(before), e)
  {
    ButtonKeysRefine(before, after, press, release);
    var still := DpadEvents(hat, previous) + StickEvents(r);
    NoKeyEvents(Image(after), still);
    ImageIsDeclared(after);
    VolumeTaps(Image(after), r.buttons);
    hide Clean, KeysAfter, KeyEvents, DpadEvents, StickEvents, VolumeEvents, Image, IsEnumeration;
    var p, q, v := KeyEvents(press, true), KeyEvents(release, false), VolumeEvents(r.buttons);
    KeysOfFour(Image(before), p, q, still, v);
    assert p + q + DpadEvents(hat, previous) + StickEvents(r) == p + q + still;
  }

  lemma KeysOfFour(keys: set<Key>, a: seq<InputEvent>, b: seq<InputEvent>, c: seq<InputEvent>, d: seq<InputEvent>)
    requires Clean(keys, a) && Clean(KeysAfter(keys, a), b)
    requires Clean(KeysAfter(KeysAfter(keys, a), b), c)
    requires Clean(KeysAfter(KeysAfter(KeysAfter(keys, a), b), c), d)
    ensures KeysAfter(keys, a + b + c + d) == KeysAfter(KeysAfter(KeysAfter(KeysAfter(keys, a), b), c), d)
    ensures Clean(keys, a + b + c + d)
  {
    hide Clean, KeysAfter;
    KeysAfterAppend(keys, a, b);
    CleanAppend(keys, a, b);
    KeysAfterAppend(keys, a + b, c);
    CleanAppend(keys, a + b, c);
    KeysAfterAppend(keys, a + b + c, d);
    CleanAppend(keys, a + b + c, d);
  }

  lemma ImageDifference(before: set<Button>, after: set<Button>)
    ensures Image(before) + Image(after - before) - Image(before - after) == Image(after)
  {
    forall b | b in after ensures MapButtonToDs4(b) !in Image(before - after) {
      if MapButtonToDs4(b) in Image(before - after) {
        var c :| c in before - after && MapButtonToDs4(c) == MapButtonToDs4(b);
        MapButtonInjective(b, c);
      }
    }
    forall b | b in after ensures MapButtonToDs4(b) in Image(before) + Image(after - before) {
      if b in before { assert MapButtonToDs4(b) in Image(before); } else { assert b in after - before; }
    }
    forall b | b in before && b !in after ensures MapButtonToDs4(b) in Image(before - after) {
      assert b in before - after;
    }
  }

  // ---------- Axes of the pad and the motion sensors ----------

  function PadAxes(hat: Hat, r: MainReport): map<Axis, int> {
    map[X := r.lx, Y := r.ly, RX := r.rx, RY := r.ry, Hat0X := hat.x, Hat0Y := hat.y]
  }

  lemma DpadAxes(pad: Device, hat: Hat, previous: Hat)
    requires pad.axes.Keys == PAD.axes && pad.axes[Hat0X] == previous.x && pad.axes[Hat0Y] == previous.y
    ensures var d := Replay(PAD, pad, DpadEvents(hat, previous));
      d.axes.Keys == PAD.axes && d.axes[Hat0X] == hat.x && d.axes[Hat0Y] == hat.y
  {
    var e := DpadEvents(hat, previous);
    AxesKept(PAD, pad, e);
    if hat.x != previous.x { AxisSet(PAD, pad, e, 0); } else { AxisUntouched(PAD, pad, e, Hat0X); }
    if hat.y != previous.y { AxisSet(PAD, pad, e, |e| - 1); } else { AxisUntouched(PAD, pad, e, Hat0Y); }
  }

  lemma StickAxes(pad: Device, hat: Hat, r: MainReport)
    requires pad.axes.Keys == PAD.axes && pad.axes[Hat0X] == hat.x && pad.axes[Hat0Y] == hat.y
    ensures Replay(PAD, pad, StickEvents(r)).axes == PadAxes(hat, r)
  {
    hide Replay, Apply;
    var e := StickEvents(r);
    AxesKept(PAD, pad, e);
    AxisSet(PAD, pad, e, 0);
    AxisSet(PAD, pad, e, 1);
    AxisSet(PAD, pad, e, 2);
    AxisSet(PAD, pad, e, 3);
    AxisUntouched(PAD, pad, e, Hat0X);
    AxisUntouched(PAD, pad, e, Hat0Y);
  }

  lemma MainAxes(pad: Device, press: seq<Button>, release: seq<Button>, hat: Hat, previous: Hat, r: MainReport)
    requires pad.axes.Keys == PAD.axes && pad.axes[Hat0X] == previous.x && pad.axes[Hat0Y] == previous.y
    ensures Replay(PAD, pad, MainEvents(press, release, hat, previous, r)).axes == PadAxes(hat, r)
  {
    hide Replay, Apply, DpadEvents, StickEvents;
    var keys, dpad, sticks := KeyEvents(press, true) + KeyEvents(release, false), DpadEvents(hat, previous), StickEvents(r);
    var volume := VolumeEvents(r.buttons);
    var d1 := Replay(PAD, pad, keys);
    SlotsUntouched(PAD, pad, keys);
    ReplayAppend(PAD, pad, keys, dpad);
    var d2 := Replay(PAD, d1, dpad);
    DpadAxes(d1, hat, previous);
    ReplayAppend(PAD, pad, keys + dpad, sticks);
    var d3 := Replay(PAD, d2, sticks);
    StickAxes(d2, hat, r);
    ReplayAppend(PAD, pad, keys + dpad + sticks, volume);
    SlotsUntouched(PAD, d3, volume);
  }

  lemma MotionAxes(sensors: Device, r: MainReport)
    requires sensors.axes.Keys == SENSORS.axes
    ensures var a, g := r.motion.accelerometer, r.motion.gyro;
      Replay(SENSORS, sensors, MotionEvents(r)).axes ==
        map[X := Accel(-a.x), Y := Accel(-a.z), Z := Accel(a.y), RX := Gyro(g.x), RY := Gyro(g.z), RZ := Gyro(-g.y)]
  {
    hide Replay, Apply, Accel, Gyro;
    var e := MotionEvents(r);
    AxesKept(SENSORS, sensors, e);
    AxisSet(SENSORS, sensors, e, 0);
    AxisSet(SENSORS, sensors, e, 1);
    AxisSet(SENSORS, sensors, e, 2);
    AxisSet(SENSORS, sensors, e, 3);
    AxisSet(SENSORS, sensors, e, 4);
    AxisSet(SENSORS, sensors, e, 5);
  }

  // ---------- One report ----------

  lemma PadRefines(config: Config, m: Memory, r: MainReport, k: Kernel, events: seq<InputEvent>)
    requires PadAgrees(m, k.pad) && k.keyboard.keys == {} && EmitsMain(config, m, r, events)
    ensures var pad := Replay(PAD, k.pad, events);
      && pad.keys == Image(PressedSet(config, r))
      && pad.axes == PadAxes(HatOf(config, r), r)
      && Replay(KEYBOARD, k.keyboard, events).keys == {}
    ensures Clean(Image(m.buttons), events)
  {
    hide Replay, KeysAfter, Clean, MainEvents, PressedSet, HatOf, Image;
    var pressed, hat := PressedSet(config, r), HatOf(config, r);
    var press, release :|
      && IsEnumeration(press, pressed - m.buttons) && IsEnumeration(release, m.buttons - pressed)
      && events == MainEvents(press, release, hat, m.hat, r);
    KeysRefine(m.buttons, pressed, press, release, hat, m.hat, r);
    ImageIsDeclared(m.buttons);
    ImageIsDeclared(pressed);
    ReplayKeys(PAD, k.pad, Image(m.buttons), events);
    ReplayKeys(KEYBOARD, k.keyboard, Image(m.buttons), events);
    MainAxes(k.pad, press, release, hat, m.hat, r);
  }

  lemma TouchpadRefines(source: Option<TouchpadSource>, config: Config, m: Memory, r: MainReport, touchpad: Device)
    requires source == config.touchpadSource && WellFormed(m) && TouchpadAgrees(source, m, touchpad)
    ensures var d, m', touches :=
      Replay(TOUCHPAD, touchpad, TouchOutput(source, m, r)), Remember(config, m, r), TouchesOf(source, r);
      && TouchpadAgrees(source, m', d)
      && d.keys == TouchKeys(AnyActive(touches, Used(touches, SlotCount(source))))
      && |d.slots| == SlotCount(source) && ShowsTouches(d, touches)
    ensures Clean(TouchKeys(m.touching), TouchOutput(source, m, r))
  {
    hide Replay, KeysAfter, Clean, TouchEvents, PressedSet, HatOf;
    var touches := TouchesOf(source, r);
    if source.None? {
      ReplayNone(TOUCHPAD, touchpad);
      NoKeyEvents({}, []);
    } else {
      SlotsRefine(touchpad, touches, IdsOf(source, m), m.touching);
      TouchKeysRefine(touches, IdsOf(source, m), m.touching);
      AllTouchKeysDeclared(m.touching);
      ReplayKeys(TOUCHPAD, touchpad, TouchKeys(m.touching), TouchOutput(source, m, r));
      AllTouchKeysDeclared(AnyActive(touches, Used(touches, SlotCount(source))));
    }
  }

  lemma AllTouchKeysDeclared(touching: bool)
    ensures TouchKeys(touching) * TOUCHPAD.keys == TouchKeys(touching)
  {
  }

  lemma ContactsOfTouches(dev: Device, touches: seq<TouchReport>)
    requires ShowsTouches(dev, touches)
    ensures Contacts(dev) == seq(|dev.slots|, s requires 0 <= s < |dev.slots| =>
      if s < |touches| then Some(SlotOf(touches[s])) else None)
  {
  }

  /** One report, from any agreeing state and in any emission order: afterwards the kernel's devices show
      exactly what this report asks for, the memory agrees again, and no key event was redundant. */
  lemma ReportRefines(config: Config, m: Memory, r: MainReport, out: Output, k: Kernel)
    requires Agrees(config.touchpadSource, m, k) && Emits(config, m, r, out)
    ensures Agrees(config.touchpadSource, Remember(config, m, r), Deliver(k, out))
    ensures Observe(Deliver(k, out)) == Expected(config, r)
    ensures Clean(Image(m.buttons), out.main) && Clean(TouchKeys(m.touching), out.touchpad)
  {
    hide Replay, Clean, EmitsMain, PressedSet, HatOf, Image, TouchKeys, TouchOutput, MotionEvents, Accel, Gyro;
    PadRefines(config, m, r, k, out.main);
    TouchpadRefines(config.touchpadSource, config, m, r, k.touchpad);
    ContactsOfTouches(Replay(TOUCHPAD, k.touchpad, out.touchpad), TouchesOf(config.touchpadSource, r));
    MotionAxes(k.sensors, r);
  }
}
