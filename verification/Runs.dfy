/** The virtual device over whole runs: reports and configuration changes in any order. */
module Runs {
  import opened Reports
  import opened Evdev
  import opened Buttons
  import opened Touch
  import opened VirtualDevice
  import opened Refinement

  datatype Action = Report(report: MainReport) | Configure(update: ConfigUpdate)

  const NOTHING_WRITTEN: Output := Output([], [], [])

  function ConfigAfter(config: Config, a: Action): Config {
    if a.Configure? then Updated(config, a.update) else config
  }

  function MemoryAfter(config: Config, m: Memory, a: Action): Memory
    requires WellFormed(m)
  {
    if a.Report? then Remember(config, m, a.report) else m
  }

  /** The outputs a run may produce; hash set order makes them one of many. */
  ghost predicate Produces(config: Config, m: Memory, acts: seq<Action>, outs: seq<Output>)
    requires WellFormed(m)
    decreases |acts|
  {
    && |outs| == |acts|
    && (acts != [] ==>
          && (if acts[0].Report? then Emits(config, m, acts[0].report, outs[0]) else outs[0] == NOTHING_WRITTEN)
          && Produces(ConfigAfter(config, acts[0]), MemoryAfter(config, m, acts[0]), acts[1..], outs[1..]))
  }

  function DeliverAll(k: Kernel, outs: seq<Output>): Kernel
    decreases |outs|
  {
    if outs == [] then k else DeliverAll(Deliver(k, outs[0]), outs[1..])
  }

  /** What the last report of a run asks for, under the configuration in force when it arrived. */
  function LastAsked(config: Config, acts: seq<Action>): Option<Observation>
    decreases |acts|
  {
    if acts == [] then None
    else
      var later := LastAsked(ConfigAfter(config, acts[0]), acts[1..]);
      if later.Some? then later
      else if acts[0].Report? then Some(Expected(config, acts[0].report)) else None
  }

  function MainOf(outs: seq<Output>): seq<InputEvent> {
    if outs == [] then [] else outs[0].main + MainOf(outs[1..])
  }

  function TouchOf(outs: seq<Output>): seq<InputEvent> {
    if outs == [] then [] else outs[0].touchpad + TouchOf(outs[1..])
  }

  lemma DeliverNothing(k: Kernel)
    ensures Deliver(k, NOTHING_WRITTEN) == k
  {
  }

  /** From any agreeing state, over any run: the kernel's devices show what the last report asks for, and
      what they showed before if there was none. */
  lemma {:induction false} RunRefines(config: Config, m: Memory, k: Kernel, acts: seq<Action>, outs: seq<Output>)
    requires Agrees(config.touchpadSource, m, k) && Produces(config, m, acts, outs)
    ensures Observe(DeliverAll(k, outs)) ==
              var asked := LastAsked(config, acts); if asked.Some? then asked.value else Observe(k)
    decreases |acts|
  {
    assert WellFormed(m);
    hide Agrees, Emits, Deliver, Observe, Expected, Remember, Updated;
    if acts != [] {
      StepRefines(config, m, k, acts[0], outs[0]);
      RunRefines(ConfigAfter(config, acts[0]), MemoryAfter(config, m, acts[0]), Deliver(k, outs[0]), acts[1..], outs[1..]);
    }
  }

  lemma StepRefines(config: Config, m: Memory, k: Kernel, a: Action, out: Output)
    requires Agrees(config.touchpadSource, m, k)
    requires if a.Report? then Emits(config, m, a.report, out) else out == NOTHING_WRITTEN
    ensures Agrees(ConfigAfter(config, a).touchpadSource, MemoryAfter(config, m, a), Deliver(k, out))
    ensures WellFormed(MemoryAfter(config, m, a))
    ensures Observe(Deliver(k, out)) == if a.Report? then Expected(config, a.report) else Observe(k)
    ensures ConfigAfter(config, a).touchpadSource == config.touchpadSource
  {
    if a.Report? {
      hide Emits, Deliver, Observe, Expected, Remember, PadAgrees, TouchpadAgrees;
      ReportRefines(config, m, a.report, out, k);
    } else {
      DeliverNothing(k);
    }
  }

  /** History independence: whatever came before and in whatever order the events were emitted, two runs
      whose last reports ask for the same observation leave the same observable state. */
  lemma HistoryIndependence(
    config1: Config, acts1: seq<Action>, outs1: seq<Output>,
    config2: Config, acts2: seq<Action>, outs2: seq<Output>)
    requires Produces(config1, NewMemory(), acts1, outs1) && Produces(config2, NewMemory(), acts2, outs2)
    requires LastAsked(config1, acts1).Some? && LastAsked(config1, acts1) == LastAsked(config2, acts2)
    ensures Observe(DeliverAll(NewKernel(config1.touchpadSource), outs1))
         == Observe(DeliverAll(NewKernel(config2.touchpadSource), outs2))
  {
    hide Agrees, Observe;
    InitiallyAgrees(config1.touchpadSource);
    InitiallyAgrees(config2.touchpadSource);
    RunRefines(config1, NewMemory(), NewKernel(config1.touchpadSource), acts1, outs1);
    RunRefines(config2, NewMemory(), NewKernel(config2.touchpadSource), acts2, outs2);
  }

  // ---------- Alternation ----------

  /** The event streams of a run are clean from the keys held at its start. */
  lemma {:induction false} RunIsClean(config: Config, m: Memory, k: Kernel, acts: seq<Action>, outs: seq<Output>)
    requires Agrees(config.touchpadSource, m, k) && Produces(config, m, acts, outs)
    ensures Clean(Image(m.buttons), MainOf(outs)) && Clean(TouchKeys(m.touching), TouchOf(outs))
    decreases |acts|
  {
    assert WellFormed(m);
    hide Agrees, Emits, Deliver, Clean, KeysAfter, Image, TouchKeys, Remember, Updated;
    if acts == [] {
      EmptyIsClean(Image(m.buttons));
      EmptyIsClean(TouchKeys(m.touching));
    } else {
      var config', m' := ConfigAfter(config, acts[0]), MemoryAfter(config, m, acts[0]);
      StepRefines(config, m, k, acts[0], outs[0]);
      StepIsClean(config, m, k, acts[0], outs[0]);
      RunIsClean(config', m', Deliver(k, outs[0]), acts[1..], outs[1..]);
      CleanAppend(Image(m.buttons), outs[0].main, MainOf(outs[1..]));
      CleanAppend(TouchKeys(m.touching), outs[0].touchpad, TouchOf(outs[1..]));
    }
  }

  lemma EmptyIsClean(keys: set<Key>)
    ensures Clean(keys, []) && KeysAfter(keys, []) == keys
  {
  }

  lemma StepIsClean(config: Config, m: Memory, k: Kernel, a: Action, out: Output)
    requires Agrees(config.touchpadSource, m, k)
    requires if a.Report? then Emits(config, m, a.report, out) else out == NOTHING_WRITTEN
    ensures var m' := MemoryAfter(config, m, a);
      && Clean(Image(m.buttons), out.main) && KeysAfter(Image(m.buttons), out.main) == Image(m'.buttons)
      && Clean(TouchKeys(m.touching), out.touchpad) && KeysAfter(TouchKeys(m.touching), out.touchpad) == TouchKeys(m'.touching)
  {
    if a.Report? {
      var r := a.report;
      MainKeysAfter(config, m, r, out.main);
      TouchKeysAfter(config.touchpadSource, config, m, r);
      hide KeysAfter, Clean, Image, TouchKeys, EmitsMain, TouchOutput, PadAgrees, TouchpadAgrees, PressedSet, HatOf;
    }
  }

  lemma MainKeysAfter(config: Config, m: Memory, r: MainReport, events: seq<InputEvent>)
    requires EmitsMain(config, m, r, events)
    ensures Clean(Image(m.buttons), events) && KeysAfter(Image(m.buttons), events) == Image(PressedSet(config, r))
  {
    hide KeysAfter, Clean, Image, PressedSet, HatOf, MainEvents;
    var press, release :|
      && IsEnumeration(press, PressedSet(config, r) - m.buttons) && IsEnumeration(release, m.buttons - PressedSet(config, r))
      && events == MainEvents(press, release, HatOf(config, r), m.hat, r);
    KeysRefine(m.buttons, PressedSet(config, r), press, release, HatOf(config, r), m.hat, r);
  }

  lemma TouchKeysAfter(source: Option<TouchpadSource>, config: Config, m: Memory, r: MainReport)
    requires WellFormed(m) && source == config.touchpadSource
    ensures Clean(TouchKeys(m.touching), TouchOutput(source, m, r))
    ensures KeysAfter(TouchKeys(m.touching), TouchOutput(source, m, r)) == TouchKeys(Remember(config, m, r).touching)
  {
    hide KeysAfter, Clean, TouchKeys, TouchEvents, PressedSet, HatOf;
    if source.None? {
      EmptyIsClean(TouchKeys(m.touching));
    } else {
      TouchKeysRefine(TouchesOf(source, r), IdsOf(source, m), m.touching);
    }
  }

  /** Over any run of a new device the presses and releases of every single key strictly alternate,
      starting with a press, on the main handle and on the touchpad alike. */
  lemma KeysAlternate(config: Config, acts: seq<Action>, outs: seq<Output>, key: Key)
    requires Produces(config, NewMemory(), acts, outs)
    ensures Alternates(KeyTrace(MainOf(outs), key), true)
    ensures Alternates(KeyTrace(TouchOf(outs), key), true)
  {
    var m := NewMemory();
    InitiallyAgrees(config.touchpadSource);
    hide Agrees;
    RunIsClean(config, m, NewKernel(config.touchpadSource), acts, outs);
    CleanAlternates(Image(m.buttons), MainOf(outs), key);
    CleanAlternates(TouchKeys(m.touching), TouchOf(outs), key);
  }
}
