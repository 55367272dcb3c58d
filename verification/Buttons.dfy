/** What a report presses, without memory: the buttons, the D-pad and the actions of touch zones. */
module Buttons {
  import opened Reports
  import opened Evdev

  datatype Button =
    | ThumbRight | ThumbLeft | Options | Share | TriggerRight | TriggerLeft | ShoulderRight | ShoulderLeft
    | Triangle | Circle | Cross | Square | PSButton

  datatype DpadDirection =
    | North | NorthEast | East | SouthEast | South | SouthWest | West | NorthWest | NoDirection

  datatype TouchAction = DpadAction(direction: DpadDirection) | ButtonAction(button: Button)

  /** Zone lookup belongs to the R-tree; here it is any function from a point to the action found there. */
  datatype TouchConfig = Zones(locate: (int, int) -> Option<TouchAction>) | Touchpad

  datatype TriggerConfig = Shoulder | Trigger

  datatype TouchpadSource = FrontSource | RearSource

  datatype Config = Config(
    frontTouch: Option<TouchConfig>, rearTouch: Option<TouchConfig>,
    trigger: TriggerConfig, touchpadSource: Option<TouchpadSource>)

  // ---------- D-pad ----------

  function ComputeDpadDirection(b: ButtonsData): DpadDirection {
    match (b.up, b.down, b.left, b.right)
    case (true, false, false, false) => North
    case (true, false, true, false) => NorthWest
    case (true, false, false, true) => NorthEast
    case (false, true, false, false) => South
    case (false, true, true, false) => SouthWest
    case (false, true, false, true) => SouthEast
    case (false, false, true, false) => West
    case (false, false, false, true) => East
    case _ => NoDirection
  }

  datatype Hat = Hat(x: int, y: int)

  function DpadDirectionToAxisValues(direction: DpadDirection): Hat {
    match direction
    case North => Hat(0, -1)
    case NorthEast => Hat(1, -1)
    case East => Hat(1, 0)
    case SouthEast => Hat(1, 1)
    case South => Hat(0, 1)
    case SouthWest => Hat(-1, 1)
    case West => Hat(-1, 0)
    case NorthWest => Hat(-1, -1)
    case NoDirection => Hat(0, 0)
  }

  function Level(pressed: bool): int {
    if pressed then 1 else 0
  }

  /** Through direction and axis values, each hat axis is the difference of its two keys, and a pad with
      both keys of one axis held reads as centred on both. */
  lemma DpadIsDifference(b: ButtonsData)
    ensures DpadDirectionToAxisValues(ComputeDpadDirection(b)) ==
              if (b.up && b.down) || (b.left && b.right) then Hat(0, 0)
              else Hat(Level(b.right) - Level(b.left), Level(b.down) - Level(b.up))
  {
  }

  // ---------- Buttons ----------

  function PressedTable(b: ButtonsData, trigger: TriggerConfig): seq<(bool, Button)> {
    [(b.circle, Circle), (b.square, Square), (b.cross, Cross), (b.triangle, Triangle),
     (b.start, Options), (b.select, Share), (b.ps, PSButton)]
    + match trigger
      case Shoulder => [(b.lt, ShoulderLeft), (b.rt, ShoulderRight)]
      case Trigger => [(b.lt, TriggerLeft), (b.rt, TriggerRight)]
  }

  function FilterPressed(table: seq<(bool, Button)>): seq<Button> {
    if table == [] then []
    else (if table[0].0 then [table[0].1] else []) + FilterPressed(table[1..])
  }

  function GetPressedButtons(b: ButtonsData, trigger: TriggerConfig): seq<Button> {
    FilterPressed(PressedTable(b, trigger))
  }

  /** Whether the physical control behind a virtual button is held. */
  predicate Holds(b: ButtonsData, trigger: TriggerConfig, button: Button) {
    match button
    case Circle => b.circle
    case Square => b.square
    case Cross => b.cross
    case Triangle => b.triangle
    case Options => b.start
    case Share => b.select
    case PSButton => b.ps
    case ShoulderLeft => b.lt && trigger.Shoulder?
    case ShoulderRight => b.rt && trigger.Shoulder?
    case TriggerLeft => b.lt && trigger.Trigger?
    case TriggerRight => b.rt && trigger.Trigger?
    case ThumbLeft => false
    case ThumbRight => false
  }

  lemma {:induction false} FilterKeepsPressed(table: seq<(bool, Button)>, button: Button)
    ensures button in FilterPressed(table) <==> (true, button) in table
  {
    if table != [] {
      FilterKeepsPressed(table[1..], button);
    }
  }

  lemma PressedAreHeld(b: ButtonsData, trigger: TriggerConfig, button: Button)
    ensures button in GetPressedButtons(b, trigger) <==> Holds(b, trigger, button)
  {
    FilterKeepsPressed(PressedTable(b, trigger), button);
    var table := PressedTable(b, trigger);
    hide FilterPressed;
    assert forall e :: e in table <==> exists i :: 0 <= i < 9 && table[i] == e;
    assert table[7] == (b.lt, if trigger.Shoulder? then ShoulderLeft else TriggerLeft);
    assert table[8] == (b.rt, if trigger.Shoulder? then ShoulderRight else TriggerRight);
  }

  function MapButtonToDs4(button: Button): Key {
    match button
    case ThumbRight => ButtonThumbr
    case ThumbLeft => ButtonThumbl
    case Options => ButtonStart
    case Share => ButtonSelect
    case TriggerRight => ButtonTR
    case TriggerLeft => ButtonTL
    case ShoulderRight => ButtonTR2
    case ShoulderLeft => ButtonTL2
    case Triangle => ButtonNorth
    case Circle => ButtonEast
    case Cross => ButtonSouth
    case Square => ButtonWest
    case PSButton => ButtonMode
  }

  lemma MapButtonInjective(a: Button, b: Button)
    requires MapButtonToDs4(a) == MapButtonToDs4(b)
    ensures a == b
  {
  }

  /** The keys of a set of buttons. */
  function Image(buttons: set<Button>): set<Key> {
    set b | b in buttons :: MapButtonToDs4(b)
  }

  // ---------- Touch zones ----------

  function TouchActions(reports: seq<TouchReport>, config: Option<TouchConfig>): seq<TouchAction> {
    if config.None? || config.value.Touchpad? || reports == [] then []
    else
      var last := reports[|reports| - 1];
      var found := config.value.locate(last.x, last.y);
      TouchActions(reports[..|reports| - 1], config) + if found.Some? then [found.value] else []
  }

  method ProcessTouchReports(reports: seq<TouchReport>, config: Option<TouchConfig>) returns (actions: seq<TouchAction>)
    ensures actions == TouchActions(reports, config)
  {
    actions := [];
    if config.Some? && config.value.Zones? {
      for i := 0 to |reports|
        invariant actions == TouchActions(reports[..i], config)
      {
        assert reports[..i + 1][..i] == reports[..i];
        var found := config.value.locate(reports[i].x, reports[i].y);
        if found.Some? {
          actions := actions + [found.value];
        }
      }
      assert reports[..|reports|] == reports;
    }
  }

  /** The actions of a report in the order they are applied: front touches, then rear ones. */
  function ActionsOf(config: Config, r: MainReport): seq<TouchAction> {
    TouchActions(r.frontTouch, config.frontTouch) + TouchActions(r.backTouch, config.rearTouch)
  }

  function ActionButtons(actions: seq<TouchAction>): set<Button> {
    set a | a in actions && a.ButtonAction? :: a.button
  }

  /** The last D-pad action decides both axes. */
  function ActionHat(actions: seq<TouchAction>, base: Hat): Hat {
    if actions == [] then base
    else
      var last := actions[|actions| - 1];
      if last.DpadAction? then DpadDirectionToAxisValues(last.direction)
      else ActionHat(actions[..|actions| - 1], base)
  }

  // ---------- What a report asks for ----------

  function PressedSet(config: Config, r: MainReport): set<Button> {
    (set b | b in GetPressedButtons(r.buttons, config.trigger)) + ActionButtons(ActionsOf(config, r))
  }

  function HatOf(config: Config, r: MainReport): Hat {
    ActionHat(ActionsOf(config, r), DpadDirectionToAxisValues(ComputeDpadDirection(r.buttons)))
  }

  /** The merging loop of `send_report`: touch buttons join the set, a touch D-pad overrides the hat. */
  method ApplyActions(actions: seq<TouchAction>, pressed: set<Button>, hat: Hat)
    returns (pressed': set<Button>, hat': Hat)
    ensures pressed' == pressed + ActionButtons(actions)
    ensures hat' == ActionHat(actions, hat)
  {
    pressed', hat' := pressed, hat;
    for i := 0 to |actions|
      invariant pressed' == pressed + ActionButtons(actions[..i])
      invariant hat' == ActionHat(actions[..i], hat)
    {
      assert actions[..i + 1] == actions[..i] + [actions[i]];
      match actions[i] {
        case ButtonAction(button) => pressed' := pressed' + {button};
        case DpadAction(direction) => hat' := DpadDirectionToAxisValues(direction);
      }
      ActionButtonsSnoc(actions[..i], actions[i]);
    }
    assert actions[..|actions|] == actions;
  }

  lemma ActionButtonsSnoc(actions: seq<TouchAction>, a: TouchAction)
    ensures ActionButtons(actions + [a]) == ActionButtons(actions) + if a.ButtonAction? then {a.button} else {}
  {
  }
}
