/** What the devices show, in terms of a report's own fields: which control holds which key, where a zone is
    looked up, which panel feeds which slot. */
module Shown {
  import opened Reports
  import opened Evdev
  import opened Buttons
  import opened Touch
  import opened VirtualDevice
  import opened Refinement
  import opened Framing
  import opened Filtering
  import opened Receiving
  import opened EndToEnd
  import Quantise

  // ---------- Keys ----------

  /** The physical control behind a kernel key. */
  predicate Pressed(b: ButtonsData, trigger: TriggerConfig, key: Key) {
    match key
    case ButtonEast => b.circle
    case ButtonSouth => b.cross
    case ButtonWest => b.square
    case ButtonNorth => b.triangle
    case ButtonStart => b.start
    case ButtonSelect => b.select
    case ButtonMode => b.ps
    case ButtonTL2 => b.lt && trigger == Shoulder
    case ButtonTR2 => b.rt && trigger == Shoulder
    case ButtonTL => b.lt && trigger == Trigger
    case ButtonTR => b.rt && trigger == Trigger
    case _ => false
  }

  /** The virtual button a kernel key belongs to. */
  function ButtonOf(key: Key): Option<Button> {
    match key
    case ButtonEast => Some(Circle)
    case ButtonSouth => Some(Cross)
    case ButtonWest => Some(Square)
    case ButtonNorth => Some(Triangle)
    case ButtonStart => Some(Options)
    case ButtonSelect => Some(Share)
    case ButtonMode => Some(PSButton)
    case ButtonTL2 => Some(ShoulderLeft)
    case ButtonTR2 => Some(ShoulderRight)
    case ButtonTL => Some(TriggerLeft)
    case ButtonTR => Some(TriggerRight)
    case ButtonThumbl => Some(ThumbLeft)
    case ButtonThumbr => Some(ThumbRight)
    case _ => None
  }

  /** Every button has its key, and every key of the pad its button. */
  lemma KeyOfButton(button: Button, key: Key)
    ensures MapButtonToDs4(button) == key <==> ButtonOf(key) == Some(button)
  {
  }

  /** The zone under a touch holds an action. */
  predicate ZoneSays(zones: Option<TouchConfig>, t: TouchReport, a: TouchAction) {
    zones.Some? && zones.value.Zones? && zones.value.locate(t.x, t.y) == Some(a)
  }

  predicate TouchPresses(touches: seq<TouchReport>, zones: Option<TouchConfig>, button: Button) {
    exists i :: 0 <= i < |touches| && ZoneSays(zones, touches[i], ButtonAction(button))
  }

  lemma {:induction false} ActionsOfZones(touches: seq<TouchReport>, zones: Option<TouchConfig>, a: TouchAction)
    ensures a in TouchActions(touches, zones) <==> exists i :: 0 <= i < |touches| && ZoneSays(zones, touches[i], a)
  {
    if touches != [] {
      var n := |touches| - 1;
      ActionsOfZones(touches[..n], zones, a);
      if zones.Some? && zones.value.Zones? {
        var found := zones.value.locate(touches[n].x, touches[n].y);
        assert TouchActions(touches, zones) == TouchActions(touches[..n], zones) + if found.Some? then [found.value] else [];
      }
    }
  }

  /** A key is held exactly if its control is, or a touch in a zone with its button. */
  predicate KeysOk(config: Config, r: MainReport, keys: set<Key>) {
    forall key :: key in keys <==>
      || Pressed(r.buttons, config.trigger, key)
      || (ButtonOf(key).Some? &&
          (TouchPresses(r.frontTouch, config.frontTouch, ButtonOf(key).value)
           || TouchPresses(r.backTouch, config.rearTouch, ButtonOf(key).value)))
  }

  lemma ButtonPressed(config: Config, r: MainReport, button: Button)
    ensures button in PressedSet(config, r) <==>
              || Holds(r.buttons, config.trigger, button)
              || TouchPresses(r.frontTouch, config.frontTouch, button)
              || TouchPresses(r.backTouch, config.rearTouch, button)
  {
    PressedAreHeld(r.buttons, config.trigger, button);
    ActionsOfZones(r.frontTouch, config.frontTouch, ButtonAction(button));
    ActionsOfZones(r.backTouch, config.rearTouch, ButtonAction(button));
    hide TouchActions, GetPressedButtons, Holds, ZoneSays;
    var actions := ActionsOf(config, r);
    assert button in ActionButtons(actions) <==> ButtonAction(button) in actions;
  }

  lemma ImageHas(buttons: set<Button>, key: Key)
    ensures key in Image(buttons) <==> ButtonOf(key).Some? && ButtonOf(key).value in buttons
  {
    forall b ensures MapButtonToDs4(b) == key <==> ButtonOf(key) == Some(b) { KeyOfButton(b, key); }
    hide ButtonOf, MapButtonToDs4;
    if ButtonOf(key).Some? { assert MapButtonToDs4(ButtonOf(key).value) == key; }
  }

  lemma PressedKey(b: ButtonsData, trigger: TriggerConfig, key: Key)
    ensures Pressed(b, trigger, key) <==> ButtonOf(key).Some? && Holds(b, trigger, ButtonOf(key).value)
  {
  }

  lemma KeysShown(config: Config, r: MainReport)
    ensures KeysOk(config, r, Image(PressedSet(config, r)))
  {
    forall key
      ensures key in Image(PressedSet(config, r)) <==>
        || Pressed(r.buttons, config.trigger, key)
        || (ButtonOf(key).Some? &&
            (TouchPresses(r.frontTouch, config.frontTouch, ButtonOf(key).value)
             || TouchPresses(r.backTouch, config.rearTouch, ButtonOf(key).value)))
    {
      hide *;
      ImageHas(PressedSet(config, r), key);
      PressedKey(r.buttons, config.trigger, key);
      if ButtonOf(key).Some? { ButtonPressed(config, r, ButtonOf(key).value); }
    }
    hide Pressed, PressedSet, Image, TouchPresses, ButtonOf;
  }

  // ---------- Hat and sticks ----------

  /** A direction on the hat: right and down are positive. */
  predicate Toward(d: DpadDirection, x: int, y: int) {
    && x == Level(d in {East, NorthEast, SouthEast}) - Level(d in {West, NorthWest, SouthWest})
    && y == Level(d in {South, SouthEast, SouthWest}) - Level(d in {North, NorthEast, NorthWest})
  }

  ghost predicate NoDpad(touches: seq<TouchReport>, zones: Option<TouchConfig>) {
    forall i, d :: 0 <= i < |touches| ==> !ZoneSays(zones, touches[i], DpadAction(d))
  }

  /** Touch i is the last one in a zone with a D-pad action. */
  ghost predicate LastDpad(touches: seq<TouchReport>, zones: Option<TouchConfig>, i: nat, d: DpadDirection) {
    i < |touches| && ZoneSays(zones, touches[i], DpadAction(d)) && NoDpad(touches[i + 1..], zones)
  }

  lemma NotDpad(zones: Option<TouchConfig>, t: TouchReport)
    requires zones.Some? && zones.value.Zones? && forall d :: !ZoneSays(zones, t, DpadAction(d))
    ensures var found := zones.value.locate(t.x, t.y); found.Some? ==> found.value.ButtonAction?
  {
    var found := zones.value.locate(t.x, t.y);
    if found.Some? && found.value.DpadAction? {
      assert ZoneSays(zones, t, DpadAction(found.value.direction));
    }
  }

  lemma {:induction false} HatOfNoDpad(touches: seq<TouchReport>, zones: Option<TouchConfig>, base: Hat)
    requires NoDpad(touches, zones)
    ensures ActionHat(TouchActions(touches, zones), base) == base
  {
    if touches != [] && zones.Some? && zones.value.Zones? {
      var n := |touches| - 1;
      HatOfNoDpad(touches[..n], zones, base);
      HatSnoc(touches, zones, base);
      NotDpad(zones, touches[n]);
    }
  }

  lemma HatSnoc(touches: seq<TouchReport>, zones: Option<TouchConfig>, base: Hat)
    requires touches != [] && zones.Some? && zones.value.Zones?
    ensures var last := touches[|touches| - 1];
      var found := zones.value.locate(last.x, last.y);
      ActionHat(TouchActions(touches, zones), base) ==
        if found.Some? && found.value.DpadAction? then DpadDirectionToAxisValues(found.value.direction)
        else ActionHat(TouchActions(touches[..|touches| - 1], zones), base)
  {
    var last := touches[|touches| - 1];
    var found := zones.value.locate(last.x, last.y);
    var init := TouchActions(touches[..|touches| - 1], zones);
    if found.Some? {
      assert (init + [found.value])[..|init|] == init;
    } else {
      assert init + [] == init;
    }
  }

  lemma {:induction false} HatOfLastDpad(touches: seq<TouchReport>, zones: Option<TouchConfig>, i: nat, d: DpadDirection, base: Hat)
    requires LastDpad(touches, zones, i, d)
    ensures var hat := ActionHat(TouchActions(touches, zones), base); Toward(d, hat.x, hat.y)
  {
    var n := |touches| - 1;
    HatSnoc(touches, zones, base);
    if i < n {
      assert touches[i + 1..][n - i - 1] == touches[n] && touches[..n][i + 1..] == touches[i + 1..][..n - i - 1];
      NotDpad(zones, touches[n]);
      HatOfLastDpad(touches[..n], zones, i, d, base);
    }
  }

  lemma {:induction false} HatAppend(a: seq<TouchAction>, b: seq<TouchAction>, base: Hat)
    ensures ActionHat(a + b, base) == ActionHat(b, ActionHat(a, base))
  {
    if b == [] {
      assert a + b == a;
    } else {
      var n := |b| - 1;
      assert (a + b)[..|a + b| - 1] == a + b[..n];
      HatAppend(a, b[..n], base);
    }
  }

  /** The last rear touch in a D-pad zone decides, else the last front one, else the keys: each axis is the
      difference of its two, and opposite keys centre both. */
  ghost predicate HatOk(config: Config, r: MainReport, x: int, y: int) {
    var b, front, rear := r.buttons, r.frontTouch, r.backTouch;
    && (forall i, d :: LastDpad(rear, config.rearTouch, i, d) ==> Toward(d, x, y))
    && (NoDpad(rear, config.rearTouch) ==>
          forall i, d :: LastDpad(front, config.frontTouch, i, d) ==> Toward(d, x, y))
    && (NoDpad(rear, config.rearTouch) && NoDpad(front, config.frontTouch) ==>
          if (b.up && b.down) || (b.left && b.right) then x == 0 && y == 0
          else x == Level(b.right) - Level(b.left) && y == Level(b.down) - Level(b.up))
  }

  lemma HatShown(config: Config, r: MainReport)
    ensures var hat := HatOf(config, r); HatOk(config, r, hat.x, hat.y)
  {
    var base := DpadDirectionToAxisValues(ComputeDpadDirection(r.buttons));
    DpadIsDifference(r.buttons);
    hide ActionHat, TouchActions, ComputeDpadDirection, DpadDirectionToAxisValues, LastDpad, NoDpad, Toward;
    var rear, front := TouchActions(r.backTouch, config.rearTouch), TouchActions(r.frontTouch, config.frontTouch);
    HatAppend(front, rear, base);
    forall i, d | LastDpad(r.backTouch, config.rearTouch, i, d) ensures Toward(d, HatOf(config, r).x, HatOf(config, r).y) {
      HatOfLastDpad(r.backTouch, config.rearTouch, i, d, ActionHat(front, base));
    }
    if NoDpad(r.backTouch, config.rearTouch) {
      HatOfNoDpad(r.backTouch, config.rearTouch, ActionHat(front, base));
      forall i, d | LastDpad(r.frontTouch, config.frontTouch, i, d) ensures Toward(d, HatOf(config, r).x, HatOf(config, r).y) {
        HatOfLastDpad(r.frontTouch, config.frontTouch, i, d, base);
      }
      if NoDpad(r.frontTouch, config.frontTouch) {
        HatOfNoDpad(r.frontTouch, config.frontTouch, base);
      }
    }
  }

  // ---------- Touches ----------

  /** The first touches of a panel fill the slots in order, and the touch keys are held while one of them
      presses. */
  predicate PanelOk(touches: seq<TouchReport>, slots: nat, keys: set<Key>, contacts: seq<Option<Slot>>) {
    && |contacts| == slots
    && (forall s :: 0 <= s < slots ==>
          if s < |touches| then
            && contacts[s].Some?
            && contacts[s].value.id == touches[s].id && contacts[s].value.pressure == touches[s].force
            && contacts[s].value.x == touches[s].x && contacts[s].value.y == touches[s].y
          else contacts[s].None?)
    && (keys == if exists s :: 0 <= s < slots && s < |touches| && touches[s].force > 0
                then {ButtonTouch, ButtonToolFinger} else {})
  }

  predicate TouchesOk(config: Config, r: MainReport, keys: set<Key>, contacts: seq<Option<Slot>>) {
    match config.touchpadSource
    case Some(FrontSource) => PanelOk(r.frontTouch, 6, keys, contacts)
    case Some(RearSource) => PanelOk(r.backTouch, 4, keys, contacts)
    case None => PanelOk([], 6, keys, contacts)
  }

  lemma TouchesShown(config: Config, r: MainReport)
    ensures TouchesOk(config, r, Expected(config, r).touchKeys, Expected(config, r).contacts)
  {
    var touches, slots := TouchesOf(config.touchpadSource, r), SlotCount(config.touchpadSource);
    assert AnyActive(touches, Used(touches, slots)) <==>
             exists s :: 0 <= s < slots && s < |touches| && touches[s].force > 0;
    hide PressedSet, HatOf, Image, Accel, Gyro;
  }

  // ---------- Motion ----------

  lemma ScaleInside(v: real, m: real)
    requires 0.0 < m && -m <= v <= m
    ensures -m <= Quantise.ToI16(v, -m, m) as real * m - 32768.0 * v <= 0.5 * m
  {
    assert Quantise.Clamp(v, -m, m) == v;
    hide *;
    Quantise.Accuracy(v, -m, m);
    Quantise.SymmetricScale(v, m);
    InSteps(Quantise.ToI16(v, -m, m) as real, Quantise.Scaled(v, -m, m), v / m, v, m);
  }

  lemma ScaleOutside(v: real, m: real)
    requires 0.0 < m && !(-m <= v <= m)
    ensures Quantise.ToI16(v, -m, m) == if v > m then 32767 else -32768
  {
    Quantise.SymmetricScale(v, m);
    assert m / m == 1.0 && (-m) / m == -1.0;
    assert Quantise.Clamp(v, -m, m) == if v > m then m else -m;
    assert Quantise.Scaled(v, -m, m) == if v > m then 32768.0 else -32768.0;
    hide Quantise.Scaled;
  }

  lemma InSteps(n: real, s: real, q: real, v: real, m: real)
    requires 0.0 < m && q * m == v && s == q * 32768.0 && -1.0 <= n - s <= 0.5
    ensures -m <= n * m - 32768.0 * v <= 0.5 * m
  {
    var e := n - s;
    Scaling(e, m);
    assert n * m == s * m + e * m;
    assert s * m == 32768.0 * (q * m);
  }

  lemma Scaling(e: real, m: real)
    requires 0.0 < m && -1.0 <= e <= 0.5
    ensures -m <= e * m <= 0.5 * m
  {
  }

  /** A motion value in an axis: 32768 steps for `range`, within a step, saturated outside. */
  predicate Measures(n: int, v: real, range: real) {
    if v > range then n == 32767 else if v < -range then n == -32768
    else -range <= n as real * range - 32768.0 * v <= 0.5 * range
  }

  predicate MotionOk(r: MainReport, axes: map<Axis, int>) {
    var a, g := r.motion.accelerometer, r.motion.gyro;
    && axes.Keys == {X, Y, Z, RX, RY, RZ}
    && Measures(axes[X], -a.x, 4.0) && Measures(axes[Y], -a.z, 4.0) && Measures(axes[Z], a.y, 4.0)
    && Measures(axes[RX], g.x, 35.0) && Measures(axes[RY], g.z, 35.0) && Measures(axes[RZ], -g.y, 35.0)
  }

  lemma AccelMeasures(v: real)
    ensures Measures(Accel(v), v, 4.0)
  {
    hide Quantise.ToI16;
    if -4.0 <= v <= 4.0 { ScaleInside(v, 4.0); } else { ScaleOutside(v, 4.0); }
  }

  lemma GyroMeasures(v: real)
    ensures Measures(Gyro(v), v, 35.0)
  {
    hide Quantise.ToI16;
    if -35.0 <= v <= 35.0 { ScaleInside(v, 35.0); } else { ScaleOutside(v, 35.0); }
  }

  lemma MotionShown(config: Config, r: MainReport)
    ensures MotionOk(r, Expected(config, r).motion)
  {
    var a, g := r.motion.accelerometer, r.motion.gyro;
    AccelMeasures(-a.x);
    AccelMeasures(-a.z);
    AccelMeasures(a.y);
    GyroMeasures(g.x);
    GyroMeasures(g.z);
    GyroMeasures(-g.y);
    hide Measures, Accel, Gyro, PressedSet, HatOf, Image, TouchesOf, AnyActive;
  }

  // ---------- All of it ----------

  ghost predicate ShowsReport(config: Config, r: MainReport, o: Observation) {
    && KeysOk(config, r, o.keys)
    && o.sticksAndHat.Keys == {X, Y, RX, RY, Hat0X, Hat0Y}
    && o.sticksAndHat[X] == r.lx && o.sticksAndHat[Y] == r.ly && o.sticksAndHat[RX] == r.rx && o.sticksAndHat[RY] == r.ry
    && HatOk(config, r, o.sticksAndHat[Hat0X], o.sticksAndHat[Hat0Y])
    && o.keyboardKeys == {}
    && TouchesOk(config, r, o.touchKeys, o.contacts)
    && MotionOk(r, o.motion)
  }

  lemma ExpectedShows(config: Config, r: MainReport)
    ensures ShowsReport(config, r, Expected(config, r))
  {
    KeysShown(config, r);
    HatShown(config, r);
    TouchesShown(config, r);
    MotionShown(config, r);
    hide KeysOk, HatOk, TouchesOk, MotionOk, Image, PressedSet, HatOf, Accel, Gyro, AnyActive, TouchesOf;
  }

  /** One report, from any agreeing state and in any emission order: the kernel's devices show the report,
      field by field. */
  lemma ReportShows(config: Config, m: Memory, r: MainReport, out: Output, k: Kernel)
    requires Agrees(config.touchpadSource, m, k) && Emits(config, m, r, out)
    ensures ShowsReport(config, r, Observe(Deliver(k, out)))
  {
    hide *;
    ReportRefines(config, m, r, out, k);
    ExpectedShows(config, r);
  }

  /** After every run of datagrams, however lost, repeated or reordered, the devices show the newest report,
      field by field. */
  lemma NewestReportShowsFields(
    codec: Codec, config: Config, ms: seq<Message>, views: seq<View>, effects: seq<Effect>, r: MainReport)
    requires Trace(codec, config, ms, views, effects) && IsNewest(PadsOf(codec, ms), r)
    ensures ShowsReport(config, r, EndToEnd.Shown(config, effects))
  {
    hide *;
    NewestReportShows(codec, config, ms, views, effects, r);
    ExpectedShows(config, r);
  }

  // ---------- Volume keys ----------

  lemma {:induction false} TraceAppend(a: seq<InputEvent>, b: seq<InputEvent>, key: Key)
    ensures KeyTrace(a + b, key) == KeyTrace(a, key) + KeyTrace(b, key)
  {
    if a == [] {
      assert a + b == b;
    } else {
      assert (a + b)[1..] == a[1..] + b;
      TraceAppend(a[1..], b, key);
    }
  }

  lemma {:induction false} NoTrace(events: seq<InputEvent>, key: Key)
    requires forall i :: 0 <= i < |events| && events[i].KeyEvent? ==> events[i].key != key
    ensures KeyTrace(events, key) == []
  {
    if events != [] {
      NoTrace(events[1..], key);
    }
  }

  lemma TraceOfTaps(b: ButtonsData)
    ensures KeyTrace(VolumeEvents(b), VolumeUp) == if b.volUp then [true, false] else []
    ensures KeyTrace(VolumeEvents(b), VolumeDown) == if b.volDown then [true, false] else []
  {
    TraceOfTap(VolumeUp, VolumeUp);
    TraceOfTap(VolumeUp, VolumeDown);
    TraceOfTap(VolumeDown, VolumeUp);
    TraceOfTap(VolumeDown, VolumeDown);
    var up := if b.volUp then [KeyEvent(VolumeUp, true), KeyEvent(VolumeUp, false)] else [];
    var down := if b.volDown then [KeyEvent(VolumeDown, true), KeyEvent(VolumeDown, false)] else [];
    hide KeyTrace;
    NoTrace([], VolumeUp);
    NoTrace([], VolumeDown);
    TraceAppend(up, down, VolumeUp);
    TraceAppend(up, down, VolumeDown);
  }

  lemma TraceOfTap(tapped: Key, key: Key)
    ensures KeyTrace([KeyEvent(tapped, true), KeyEvent(tapped, false)], key) == if tapped == key then [true, false] else []
  {
    var e := [KeyEvent(tapped, true), KeyEvent(tapped, false)];
    assert e[1..] == [e[1]] && e[1..][1..] == [];
    assert KeyTrace(e[1..], key) == (if tapped == key then [false] else []) + KeyTrace(e[1..][1..], key);
  }

  lemma BeforeVolume(press: seq<Button>, release: seq<Button>, hat: Hat, previous: Hat, r: MainReport)
    ensures var before := KeyEvents(press, true) + KeyEvents(release, false) + DpadEvents(hat, previous) + StickEvents(r);
      KeyTrace(before, VolumeUp) == [] && KeyTrace(before, VolumeDown) == []
  {
    var before := KeyEvents(press, true) + KeyEvents(release, false) + DpadEvents(hat, previous) + StickEvents(r);
    hide KeyTrace;
    NoTrace(before, VolumeUp);
    NoTrace(before, VolumeDown);
  }

  /** A report taps the volume keys whose buttons it holds: one press and one release each. */
  lemma VolumeShown(config: Config, m: Memory, r: MainReport, events: seq<InputEvent>)
    requires EmitsMain(config, m, r, events)
    ensures KeyTrace(events, VolumeUp) == if r.buttons.volUp then [true, false] else []
    ensures KeyTrace(events, VolumeDown) == if r.buttons.volDown then [true, false] else []
  {
    hide PressedSet, HatOf, VolumeEvents, KeyEvents, DpadEvents, StickEvents, KeyTrace, IsEnumeration;
    var press, release :|
      && IsEnumeration(press, PressedSet(config, r) - m.buttons) && IsEnumeration(release, m.buttons - PressedSet(config, r))
      && events == MainEvents(press, release, HatOf(config, r), m.hat, r);
    var before := KeyEvents(press, true) + KeyEvents(release, false) + DpadEvents(HatOf(config, r), m.hat) + StickEvents(r);
    BeforeVolume(press, release, HatOf(config, r), m.hat, r);
    TraceAppend(before, VolumeEvents(r.buttons), VolumeUp);
    TraceAppend(before, VolumeEvents(r.buttons), VolumeDown);
    TraceOfTaps(r.buttons);
  }

  // ---------- Nothing more than needed ----------

  lemma HatEvents(press: seq<Button>, release: seq<Button>, hat: Hat, previous: Hat, r: MainReport, v: int)
    ensures var events := MainEvents(press, release, hat, previous, r);
      && (AbsoluteEvent(Hat0X, v) in events <==> v == hat.x != previous.x)
      && (AbsoluteEvent(Hat0Y, v) in events <==> v == hat.y != previous.y)
  {
    var keys, rest := KeyEvents(press, true) + KeyEvents(release, false), StickEvents(r) + VolumeEvents(r.buttons);
    var dpad := DpadEvents(hat, previous);
    assert MainEvents(press, release, hat, previous, r) == keys + dpad + rest;
    OtherEvents(press, release, r, v);
    DpadEventsOnChange(hat, previous, v);
    hide *;
  }

  lemma OtherEvents(press: seq<Button>, release: seq<Button>, r: MainReport, v: int)
    ensures var keys, rest := KeyEvents(press, true) + KeyEvents(release, false), StickEvents(r) + VolumeEvents(r.buttons);
      && AbsoluteEvent(Hat0X, v) !in keys && AbsoluteEvent(Hat0Y, v) !in keys
      && AbsoluteEvent(Hat0X, v) !in rest && AbsoluteEvent(Hat0Y, v) !in rest
  {
  }

  lemma DpadEventsOnChange(hat: Hat, previous: Hat, v: int)
    ensures AbsoluteEvent(Hat0X, v) in DpadEvents(hat, previous) <==> v == hat.x != previous.x
    ensures AbsoluteEvent(Hat0Y, v) in DpadEvents(hat, previous) <==> v == hat.y != previous.y
  {
  }

  /** A report writes a hat axis exactly if it differs from the report before. */
  lemma HatOnlyOnChange(config: Config, m: Memory, r: MainReport, events: seq<InputEvent>, v: int)
    requires EmitsMain(config, m, r, events)
    ensures AbsoluteEvent(Hat0X, v) in events <==> v == HatOf(config, r).x != m.hat.x
    ensures AbsoluteEvent(Hat0Y, v) in events <==> v == HatOf(config, r).y != m.hat.y
  {
    hide PressedSet, HatOf, IsEnumeration, MainEvents;
    var press, release :|
      && IsEnumeration(press, PressedSet(config, r) - m.buttons) && IsEnumeration(release, m.buttons - PressedSet(config, r))
      && events == MainEvents(press, release, HatOf(config, r), m.hat, r);
    HatEvents(press, release, HatOf(config, r), m.hat, r, v);
  }

  lemma {:induction false} EndsIn(touches: seq<TouchReport>, previous: seq<Option<TrackingId>>, n: nat, s: int)
    requires n <= |previous|
    ensures AbsoluteEvent(MultitouchSlot, s) in EndedEvents(touches, previous, n) <==>
              |touches| <= s < n && 0 <= s && previous[s].Some?
  {
    if n > 0 {
      EndsIn(touches, previous, n - 1, s);
    }
  }

  lemma {:induction false} UpdatesIn(touches: seq<TouchReport>, n: nat, s: int)
    requires n <= |touches|
    ensures AbsoluteEvent(MultitouchSlot, s) in UpdatedEvents(touches, n) <==> 0 <= s < n
  {
    if n > 0 {
      UpdatesIn(touches, n - 1, s);
    }
  }

  /** A report addresses a slot exactly if one of its touches fills it or it ends the touch that did. */
  lemma SlotsAddressed(touches: seq<TouchReport>, previous: seq<Option<TrackingId>>, touching: bool, s: nat)
    requires s < |previous|
    ensures AbsoluteEvent(MultitouchSlot, s) in TouchEvents(touches, previous, |previous|, touching) <==>
              s < |touches| || previous[s].Some?
  {
    EndsIn(touches, previous, |previous|, s);
    UpdatesIn(touches, Used(touches, |previous|), s);
    hide EndedEvents, UpdatedEvents;
  }
}
