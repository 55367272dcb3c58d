/** From datagrams to the kernel's devices: loss, duplication and reordering on the way do not show. */
module EndToEnd {
  import opened Bytes
  import opened Reports
  import opened Framing
  import opened Filtering
  import opened VirtualDevice
  import opened Refinement
  import opened Runs
  import opened Receiving
  import Buttons

  /** A run of the client: one whole message a datagram, in any order and any number. */
  ghost predicate Trace(codec: Codec, config: Buttons.Config, ms: seq<Message>, views: seq<View>, effects: seq<Effect>) {
    && AllDecodable(ms)
    && |effects| == |ms| && |views| == |ms| + 1
    && views[0] == View([], 0, NewMemory())
    && forall i :: 0 <= i < |ms| ==>
         WellFormed(views[i].memory) && Step(codec, config, views[i], Encode(ms[i]), views[i + 1], effects[i])
  }

  function AllOuts(effects: seq<Effect>): seq<Output> {
    if effects == [] then [] else AllOuts(effects[..|effects| - 1]) + effects[|effects| - 1].outs
  }

  /** The pad reports among some messages, in order of arrival. */
  function PadsOf(codec: Codec, ms: seq<Message>): seq<MainReport> {
    PadReports(Items(codec, ms))
  }

  lemma DrainOne(codec: Codec, m: Message)
    requires Decodable(m)
    ensures Drain(codec, Encode(m)) == Drained(Items(codec, [m]), [], false)
  {
    SplitEncode(m, []);
    assert Encode(m) + [] == Encode(m);
    ShippedGuard(codec, Encode(m));
    assert [m][1..] == [];
    assert Items(codec, [m]) == (if IsSilent(codec, m) then [] else [OutcomeOf(codec, m).item]) + Items(codec, [m][1..]);
    assert Drain(codec, []) == Drained([], [], false);
  }

  /** Between datagrams the buffer is empty, nothing has crashed, and exactly the messages received so far
      have been handled. */
  lemma {:induction false} TraceMeans(
    codec: Codec, config: Buttons.Config, ms: seq<Message>, views: seq<View>, effects: seq<Effect>, n: nat)
    requires Trace(codec, config, ms, views, effects) && n <= |ms|
    ensures views[n].incoming == [] && WellFormed(views[n].memory)
    ensures Handled(config, 0, NewMemory(), Items(codec, ms[..n]), views[n].last, views[n].memory, AllOuts(effects[..n]))
    ensures n > 0 ==> !effects[n - 1].crashed
  {
    hide Handled, Step, Items, Encode, Decodable, AllOuts;
    if n == 0 {
      NothingYet(codec, config, ms, effects);
    } else {
      TraceMeans(codec, config, ms, views, effects, n - 1);
      var v, v', e, m := views[n - 1], views[(n - 1) + 1], effects[n - 1], ms[n - 1];
      hide Trace;
      OneDatagram(codec, config, m, v, v', e);
      MessagesSnoc(codec, ms, effects, n);
      HandledAppend(config, 0, NewMemory(), Items(codec, ms[..n - 1]), v.last, v.memory, AllOuts(effects[..n - 1]),
                    Items(codec, [m]), v'.last, v'.memory, e.outs);
    }
  }

  lemma NothingYet(codec: Codec, config: Buttons.Config, ms: seq<Message>, effects: seq<Effect>)
    ensures Handled(config, 0, NewMemory(), Items(codec, ms[..0]), 0, NewMemory(), AllOuts(effects[..0]))
  {
  }

  lemma MessagesSnoc(codec: Codec, ms: seq<Message>, effects: seq<Effect>, n: nat)
    requires 0 < n <= |ms| && |effects| == |ms|
    ensures Items(codec, ms[..n]) == Items(codec, ms[..n - 1]) + Items(codec, [ms[n - 1]])
    ensures AllOuts(effects[..n]) == AllOuts(effects[..n - 1]) + effects[n - 1].outs
  {
    ItemsAppend(codec, ms[..n - 1], [ms[n - 1]]);
    assert ms[..n] == ms[..n - 1] + [ms[n - 1]] && effects[..n][..n - 1] == effects[..n - 1];
  }

  lemma OneDatagram(codec: Codec, config: Buttons.Config, m: Message, v: View, v': View, e: Effect)
    requires Decodable(m) && WellFormed(v.memory) && v.incoming == [] && Step(codec, config, v, Encode(m), v', e)
    ensures v'.incoming == [] && !e.crashed && WellFormed(v'.memory)
    ensures Handled(config, v.last, v.memory, Items(codec, [m]), v'.last, v'.memory, e.outs)
  {
    hide Handled, Drain, Items;
    DrainOne(codec, m);
    assert [] + Encode(m) == Encode(m) && |Encode(m)| > 0;
    HandledIsWellFormed(config, v.last, v.memory, Items(codec, [m]), v'.last, v'.memory, e.outs);
  }

  lemma HandledIsWellFormed(
    config: Buttons.Config, last0: u64, m0: Memory, items: seq<Item>, last: u64, m: Memory, outs: seq<Output>)
    requires WellFormed(m0) && Handled(config, last0, m0, items, last, m, outs)
    ensures WellFormed(m)
  {
  }

  lemma {:induction false} LastAskedOfReports(config: Buttons.Config, reports: seq<MainReport>)
    ensures LastAsked(config, AsActions(reports)) ==
              if reports == [] then None else Some(Expected(config, reports[|reports| - 1]))
  {
    hide Expected;
    if reports != [] {
      assert AsActions(reports)[1..] == AsActions(reports[1..]);
      LastAskedOfReports(config, reports[1..]);
    }
  }

  function Shown(config: Buttons.Config, effects: seq<Effect>): Observation {
    Observe(DeliverAll(NewKernel(config.touchpadSource), AllOuts(effects)))
  }

  lemma TraceHandled(codec: Codec, config: Buttons.Config, ms: seq<Message>, views: seq<View>, effects: seq<Effect>)
    requires Trace(codec, config, ms, views, effects)
    ensures |views| == |ms| + 1
    ensures Handled(config, 0, NewMemory(), Items(codec, ms), views[|ms|].last, views[|ms|].memory, AllOuts(effects))
  {
    assert |effects| == |ms| && |views| == |ms| + 1;
    assert ms[..|ms|] == ms && effects[..|effects|] == effects;
    hide *;
    TraceMeans(codec, config, ms, views, effects, |ms|);
  }

  lemma HandledProduces(config: Buttons.Config, items: seq<Item>, last: u64, m: Memory, outs: seq<Output>)
    requires Handled(config, 0, NewMemory(), items, last, m, outs)
    ensures Produces(config, NewMemory(), AsActions(Forwarded(0, PadReports(items))), outs)
  {
  }

  lemma ShownAfter(codec: Codec, config: Buttons.Config, ms: seq<Message>, views: seq<View>, effects: seq<Effect>)
    requires Trace(codec, config, ms, views, effects)
    ensures var f := Forwarded(0, PadsOf(codec, ms));
      Shown(config, effects) ==
        if f == [] then Observe(NewKernel(config.touchpadSource)) else Expected(config, f[|f| - 1])
  {
    hide Agrees, Trace, Handled, Produces, Observe, Expected, DeliverAll, AllOuts, Items, PadReports, Forwarded, AsActions;
    TraceHandled(codec, config, ms, views, effects);
    HandledProduces(config, Items(codec, ms), views[|ms|].last, views[|ms|].memory, AllOuts(effects));
    InitiallyAgrees(config.touchpadSource);
    var f := Forwarded(0, PadsOf(codec, ms));
    RunRefines(config, NewMemory(), NewKernel(config.touchpadSource), AsActions(f), AllOuts(effects));
    LastAskedOfReports(config, f);
  }

  /** After every processed datagram the devices show what the newest report received so far asks for, and
      nothing else, whatever was lost, repeated or overtaken on the way. */
  lemma NewestReportShows(
    codec: Codec, config: Buttons.Config, ms: seq<Message>, views: seq<View>, effects: seq<Effect>, r: MainReport)
    requires Trace(codec, config, ms, views, effects) && IsNewest(PadsOf(codec, ms), r)
    ensures Shown(config, effects) == Expected(config, r)
  {
    hide Expected, Shown, Trace;
    ShownAfter(codec, config, ms, views, effects);
    NewestIsLast(PadsOf(codec, ms), r);
  }

  // ---------- Two histories ----------

  function PadIn(codec: Codec, m: Message): Option<MainReport> {
    match OutcomeOf(codec, m)
    case Item(Ok(PadDataReceived(data))) => Some(data)
    case _ => None
  }

  lemma {:induction false} PadsComeFromMessages(codec: Codec, ms: seq<Message>, r: MainReport)
    ensures r in PadsOf(codec, ms) <==> exists m :: m in ms && PadIn(codec, m) == Some(r)
  {
    if ms != [] {
      PadsComeFromMessages(codec, ms[1..], r);
      var first := if IsSilent(codec, ms[0]) then [] else [OutcomeOf(codec, ms[0]).item];
      PadReportsAppend(first, Items(codec, ms[1..]));
      if !IsSilent(codec, ms[0]) && OutcomeOf(codec, ms[0]).Item? { PadReportsOne(OutcomeOf(codec, ms[0]).item); }
      assert r in PadReports(first) <==> PadIn(codec, ms[0]) == Some(r);
    }
  }

  /** The sender never stamps two different reports alike. */
  predicate TimestampsIdentify(codec: Codec, sent: seq<Message>) {
    forall a, b :: a in sent && b in sent && PadIn(codec, a).Some? && PadIn(codec, b).Some?
                   && PadIn(codec, a).value.timestamp == PadIn(codec, b).value.timestamp
                   ==> PadIn(codec, a) == PadIn(codec, b)
  }

  /** The greatest timestamp received, or 0. */
  function NewestStamp(codec: Codec, ms: seq<Message>): u64 {
    LastSeen(0, PadsOf(codec, ms))
  }

  lemma ForwardedLastWasSent(codec: Codec, ms: seq<Message>)
    ensures var f := Forwarded(0, PadsOf(codec, ms));
      if NewestStamp(codec, ms) == 0 then f == []
      else f != [] && f[|f| - 1].timestamp == NewestStamp(codec, ms)
           && exists m :: m in ms && PadIn(codec, m) == Some(f[|f| - 1])
  {
    hide Items, PadReports;
    var reports := PadsOf(codec, ms);
    var f := Forwarded(0, reports);
    LastForwarded(0, reports);
    ForwardsRecords(reports, |reports|);
    assert reports[..|reports|] == reports;
    RecordsAreReports(reports, |reports|);
    if f != [] {
      PadsComeFromMessages(codec, ms, f[|f| - 1]);
    }
  }

  lemma {:induction false} RecordsAreReports(reports: seq<MainReport>, n: nat)
    requires n <= |reports|
    ensures forall r :: r in Records(reports, n) ==> r in reports && r.timestamp > 0
  {
    if n > 0 {
      RecordsAreReports(reports, n - 1);
    }
  }

  /** Two clients that received some of the same sent messages, each with its own losses, repetitions and
      order, show the same devices as soon as the greatest timestamp they received is the same. */
  lemma OrderAndLossDoNotShow(
    codec: Codec, config: Buttons.Config, sent: seq<Message>,
    ms1: seq<Message>, views1: seq<View>, effects1: seq<Effect>,
    ms2: seq<Message>, views2: seq<View>, effects2: seq<Effect>)
    requires Trace(codec, config, ms1, views1, effects1) && Trace(codec, config, ms2, views2, effects2)
    requires TimestampsIdentify(codec, sent)
    requires (forall m :: m in ms1 ==> m in sent) && (forall m :: m in ms2 ==> m in sent)
    requires NewestStamp(codec, ms1) == NewestStamp(codec, ms2)
    ensures Shown(config, effects1) == Shown(config, effects2)
  {
    hide Expected, Shown, Trace, PadsOf, PadIn, NewestStamp, Forwarded;
    ShownAfter(codec, config, ms1, views1, effects1);
    ShownAfter(codec, config, ms2, views2, effects2);
    ForwardedLastWasSent(codec, ms1);
    ForwardedLastWasSent(codec, ms2);
  }
}
