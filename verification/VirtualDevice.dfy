/** `VitaDevice` of linux.rs: every report becomes incremental events computed against remembered state.
    Replaying all of them through the kernel's interpretation shows the last report alone. */
module VirtualDevice {
  import opened Reports
  import opened Evdev
  import opened Buttons
  import opened Touch
  import Quantise

  const FRONT_TOUCHPAD_MAX_SLOTS: nat := 6
  const REAR_TOUCHPAD_MAX_SLOTS: nat := 4

  // ---------- The devices that were declared ----------

  const ALL_BUTTONS: set<Button> := {ThumbRight, ThumbLeft, Options, Share, TriggerRight, TriggerLeft,
    ShoulderRight, ShoulderLeft, Triangle, Circle, Cross, Square, PSButton}

  const PAD: Capabilities := Capabilities(Image(ALL_BUTTONS), {X, Y, RX, RY, Hat0X, Hat0Y})
  const KEYBOARD: Capabilities := Capabilities({VolumeUp, VolumeDown}, {})
  const SENSORS: Capabilities := Capabilities({}, {X, Y, Z, RX, RY, RZ})

  function SlotCount(source: Option<TouchpadSource>): nat {
    if source == Some(RearSource) then REAR_TOUCHPAD_MAX_SLOTS else FRONT_TOUCHPAD_MAX_SLOTS
  }

  // ---------- The parts of a report's events ----------

  function KeyEvents(buttons: seq<Button>, pressed: bool): seq<InputEvent> {
    seq(|buttons|, i requires 0 <= i < |buttons| => KeyEvent(MapButtonToDs4(buttons[i]), pressed))
  }

  function DpadEvents(hat: Hat, previous: Hat): seq<InputEvent> {
    (if hat.x != previous.x then [AbsoluteEvent(Hat0X, hat.x)] else [])
    + (if hat.y != previous.y then [AbsoluteEvent(Hat0Y, hat.y)] else [])
  }

  function StickEvents(r: MainReport): seq<InputEvent> {
    [AbsoluteEvent(X, r.lx), AbsoluteEvent(Y, r.ly), AbsoluteEvent(RX, r.rx), AbsoluteEvent(RY, r.ry)]
  }

  function VolumeEvents(b: ButtonsData): seq<InputEvent> {
    (if b.volUp then [KeyEvent(VolumeUp, true), KeyEvent(VolumeUp, false)] else [])
    + (if b.volDown then [KeyEvent(VolumeDown, true), KeyEvent(VolumeDown, false)] else [])
  }

  function Accel(v: real): int { Quantise.ToI16(v, -4.0, 4.0) }

  function Gyro(v: real): int { Quantise.ToI16(v, -35.0, 35.0) }

  function MotionEvents(r: MainReport): seq<InputEvent> {
    var a, g := r.motion.accelerometer, r.motion.gyro;
    [AbsoluteEvent(X, Accel(-a.x)), AbsoluteEvent(Y, Accel(-a.z)), AbsoluteEvent(Z, Accel(a.y)),
     AbsoluteEvent(RX, Gyro(g.x)), AbsoluteEvent(RY, Gyro(g.z)), AbsoluteEvent(RZ, Gyro(-g.y))]
  }

  /** The inverted motion axes are the exact negations of the plain ones precisely below saturation. */
  lemma InvertedAxes(v: real)
    ensures Accel(-v) == -Accel(v) <==> -131070.0 < 32768.0 * v < 131070.0
    ensures Gyro(-v) == -Gyro(v) <==> -1146862.5 < 32768.0 * v < 1146862.5
  {
    hide Quantise.ToI16;
    Quantise.Odd(v, 4.0);
    Quantise.Odd(v, 35.0);
  }

  // ---------- Memory and output ----------

  datatype Memory = Memory(
    buttons: set<Button>, hat: Hat, front: seq<Option<TrackingId>>, rear: seq<Option<TrackingId>>, touching: bool)

  datatype Output = Output(main: seq<InputEvent>, touchpad: seq<InputEvent>, sensor: seq<InputEvent>)

  predicate WellFormed(m: Memory) {
    |m.front| == FRONT_TOUCHPAD_MAX_SLOTS && |m.rear| == REAR_TOUCHPAD_MAX_SLOTS
  }

  function NewMemory(): Memory {
    Memory({}, Hat(0, 0), seq(FRONT_TOUCHPAD_MAX_SLOTS, _ => None), seq(REAR_TOUCHPAD_MAX_SLOTS, _ => None), false)
  }

  /** The touches that go to the touchpad device; none without a source. */
  function TouchesOf(source: Option<TouchpadSource>, r: MainReport): seq<TouchReport> {
    match source
    case None => []
    case Some(FrontSource) => r.frontTouch
    case Some(RearSource) => r.backTouch
  }

  function IdsOf(source: Option<TouchpadSource>, m: Memory): seq<Option<TrackingId>> {
    if source == Some(RearSource) then m.rear else m.front
  }

  function Remember(config: Config, m: Memory, r: MainReport): (m': Memory)
    requires WellFormed(m)
    ensures WellFormed(m')
  {
    var touches, slots := TouchesOf(config.touchpadSource, r), SlotCount(config.touchpadSource);
    Memory(
      PressedSet(config, r),
      HatOf(config, r),
      if config.touchpadSource == Some(FrontSource) then Remembered(touches, m.front, slots) else m.front,
      if config.touchpadSource == Some(RearSource) then Remembered(touches, m.rear, slots) else m.rear,
      if config.touchpadSource.None? then m.touching else AnyActive(touches, Used(touches, slots)))
  }

  /** Any order in which the elements of a hash set may come out. */
  predicate IsEnumeration(order: seq<Button>, buttons: set<Button>) {
    && (forall b :: b in order <==> b in buttons)
    && (forall i, j :: 0 <= i < j < |order| ==> order[i] != order[j])
  }

  function MainEvents(press: seq<Button>, release: seq<Button>, hat: Hat, previous: Hat, r: MainReport): seq<InputEvent> {
    KeyEvents(press, true) + KeyEvents(release, false) + DpadEvents(hat, previous) + StickEvents(r)
    + VolumeEvents(r.buttons)
  }

  /** The press and release events come out in some order of the two set differences. */
  ghost predicate EmitsMain(config: Config, m: Memory, r: MainReport, events: seq<InputEvent>) {
    exists press, release ::
      && IsEnumeration(press, PressedSet(config, r) - m.buttons)
      && IsEnumeration(release, m.buttons - PressedSet(config, r))
      && events == MainEvents(press, release, HatOf(config, r), m.hat, r)
  }

  function TouchOutput(source: Option<TouchpadSource>, m: Memory, r: MainReport): seq<InputEvent>
    requires WellFormed(m)
  {
    if source.None? then []
    else TouchEvents(TouchesOf(source, r), IdsOf(source, m), SlotCount(source), m.touching)
  }

  ghost predicate Emits(config: Config, m: Memory, r: MainReport, out: Output)
    requires WellFormed(m)
  {
    && EmitsMain(config, m, r, out.main)
    && out.touchpad == TouchOutput(config.touchpadSource, m, r)
    && out.sensor == MotionEvents(r)
  }

  // ---------- The device ----------

  /** A setting that is absent keeps its value. */
  datatype ConfigUpdate = ConfigUpdate(
    frontTouch: Option<Option<TouchConfig>>, rearTouch: Option<Option<TouchConfig>>, trigger: Option<TriggerConfig>)

  function Updated(config: Config, u: ConfigUpdate): Config {
    config.(
      frontTouch := if u.frontTouch.Some? then u.frontTouch.value else config.frontTouch,
      rearTouch := if u.rearTouch.Some? then u.rearTouch.value else config.rearTouch,
      trigger := if u.trigger.Some? then u.trigger.value else config.trigger)
  }

  /** A setting changes its own part of the configuration and no other; settings given together act like one
      after the other. */
  lemma UpdatesItsOwn(config: Config, u: ConfigUpdate)
    ensures forall z :: u == ConfigUpdate(Some(z), None, None) ==> Updated(config, u) == config.(frontTouch := z)
    ensures forall z :: u == ConfigUpdate(None, Some(z), None) ==> Updated(config, u) == config.(rearTouch := z)
    ensures forall t :: u == ConfigUpdate(None, None, Some(t)) ==> Updated(config, u) == config.(trigger := t)
    ensures Updated(config, u) ==
              Updated(Updated(Updated(config, ConfigUpdate(u.frontTouch, None, None)), ConfigUpdate(None, u.rearTouch, None)),
                      ConfigUpdate(None, None, u.trigger))
    ensures u == ConfigUpdate(None, None, None) ==> Updated(config, u) == config
  {
  }

  method Enumerate(buttons: set<Button>) returns (order: seq<Button>)
    ensures IsEnumeration(order, buttons)
  {
    order := [];
    var left := buttons;
    while left != {}
      invariant left <= buttons
      invariant IsEnumeration(order, buttons - left)
      decreases left
    {
      var b :| b in left;
      order := order + [b];
      left := left - {b};
    }
  }

  class VitaDevice {
    var config: Config
    var previousButtons: set<Button>
    var previousHatX: int
    var previousHatY: int
    var touchState: bool
    const previousFrontTouches: array<Option<TrackingId>>
    const previousRearTouches: array<Option<TrackingId>>

    ghost predicate Valid()
    {
      && previousFrontTouches.Length == FRONT_TOUCHPAD_MAX_SLOTS
      && previousRearTouches.Length == REAR_TOUCHPAD_MAX_SLOTS
    }

    ghost function State(): (m: Memory)
      reads this, previousFrontTouches, previousRearTouches
      requires Valid()
      ensures WellFormed(m)
    {
      Memory(previousButtons, Hat(previousHatX, previousHatY),
             previousFrontTouches[..], previousRearTouches[..], touchState)
    }

    constructor (config: Config)
      ensures Valid() && State() == NewMemory() && this.config == config
      ensures fresh(previousFrontTouches) && fresh(previousRearTouches)
    {
      this.config := config;
      previousButtons, previousHatX, previousHatY, touchState := {}, 0, 0, false;
      previousFrontTouches := new Option<TrackingId>[FRONT_TOUCHPAD_MAX_SLOTS](_ => None);
      previousRearTouches := new Option<TrackingId>[REAR_TOUCHPAD_MAX_SLOTS](_ => None);
    }

    method SetConfig(update: ConfigUpdate)
      modifies this`config
      ensures config == Updated(old(config), update)
    {
      if update.frontTouch.Some? {
        config := config.(frontTouch := update.frontTouch.value);
      }
      if update.rearTouch.Some? {
        config := config.(rearTouch := update.rearTouch.value);
      }
      if update.trigger.Some? {
        config := config.(trigger := update.trigger.value);
      }
    }

    /** `send_report`, with the events written to each handle as its result. */
    method SendReport(r: MainReport) returns (out: Output)
      requires Valid()
      modifies this, previousFrontTouches, previousRearTouches
      ensures Valid() && config == old(config)
      ensures State() == Remember(config, old(State()), r)
      ensures Emits(config, old(State()), r, out)
    {
      hide ComputeDpadDirection, DpadDirectionToAxisValues, GetPressedButtons, TouchActions, ActionHat, ActionButtons;
      hide TouchEvents, Remembered, AnyActive, KeyEvents, StickEvents, VolumeEvents, MotionEvents;
      ghost var m := State();
      var hat := DpadDirectionToAxisValues(ComputeDpadDirection(r.buttons));
      var buttons := GetPressedButtons(r.buttons, config.trigger);
      var pressed := set b | b in buttons;
      var frontActions := ProcessTouchReports(r.frontTouch, config.frontTouch);
      var rearActions := ProcessTouchReports(r.backTouch, config.rearTouch);
      pressed, hat := ApplyActions(frontActions + rearActions, pressed, hat);

      var press := Enumerate(pressed - previousButtons);
      var release := Enumerate(previousButtons - pressed);
      previousButtons := pressed;

      var dpad := [];
      if hat.x != previousHatX {
        dpad := dpad + [AbsoluteEvent(Hat0X, hat.x)];
        previousHatX := hat.x;
      }
      if hat.y != previousHatY {
        dpad := dpad + [AbsoluteEvent(Hat0Y, hat.y)];
        previousHatY := hat.y;
      }

      var main := KeyEvents(press, true) + KeyEvents(release, false) + dpad + StickEvents(r) + VolumeEvents(r.buttons);
      assert main == MainEvents(press, release, hat, m.hat, r);

      var touchpad := [];
      match config.touchpadSource {
        case Some(FrontSource) =>
          touchpad, touchState := CreateTouchEvents(r.frontTouch, previousFrontTouches, 6, touchState);
        case Some(RearSource) =>
          touchpad, touchState := CreateTouchEvents(r.backTouch, previousRearTouches, 4, touchState);
        case None =>
      }
      out := Output(main, touchpad, MotionEvents(r));
    }
  }
}
