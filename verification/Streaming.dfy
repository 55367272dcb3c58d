/** Sampler, pushes and client together: the reports the server samples are the ones that reach the device. */
module Streaming {
  import opened Bytes
  import opened Reports
  import opened Framing
  import opened Filtering
  import opened VirtualDevice
  import opened Runs
  import opened Receiving
  import opened EndToEnd
  import Buttons
  import Peers
  import Net

  // ---------- From samples to pushes ----------

  /** What each iteration of a server run sampled. */
  function Samples(steps: seq<Net.Step>): seq<MainReport> {
    if steps == [] then []
    else
      var last := steps[|steps| - 1];
      Samples(steps[..|steps| - 1]) + if last.End? then [last.pad] else []
  }

  function Stamps(reports: seq<MainReport>): seq<u64> {
    seq(|reports|, i requires 0 <= i < |reports| => reports[i].timestamp)
  }

  /** No sampling fails: each sample is newer than the one before, as `get_ctrl` ensures. */
  predicate NoSamplingFails(steps: seq<Net.Step>) {
    Sampled(1024, Stamps(Samples(steps)))
  }

  function PushedReports(pushes: seq<Net.Push>): seq<MainReport> {
    seq(|pushes|, i requires 0 <= i < |pushes| => pushes[i].report)
  }

  predicate Selects(picks: seq<nat>, some: seq<MainReport>, all: seq<MainReport>) {
    && |picks| == |some|
    && (forall i, j :: 0 <= i < j < |picks| ==> picks[i] < picks[j])
    && (forall i :: 0 <= i < |picks| ==> picks[i] < |all| && some[i] == all[picks[i]])
  }

  lemma SelectsMore(picks: seq<nat>, some: seq<MainReport>, all: seq<MainReport>, r: MainReport)
    requires Selects(picks, some, all)
    ensures Selects(picks, some, all + [r]) && Selects(picks + [|all|], some + [r], all + [r])
  {
  }

  /** Over every run of the server the reports pushed are some of the samples, each at most once, in order. */
  lemma {:induction false} PushesSelect(parse: Peers.Parser, steps: seq<Net.Step>) returns (picks: seq<nat>)
    requires Peers.Sound(parse)
    ensures Selects(picks, PushedReports(Net.RunAll(parse, steps).pushes), Samples(steps))
  {
    if steps == [] {
      picks := [];
    } else {
      var init, last := steps[..|steps| - 1], steps[|steps| - 1];
      picks := PushesSelect(parse, init);
      var before := Net.RunAll(parse, init);
      var e := Net.Advance(parse, before.server, last);
      PushCarriesSample(parse, before.server, last);
      assert before.pushes + [] == before.pushes;
      assert Samples(init) + [] == Samples(init);
      if last.End? {
        SelectsMore(picks, PushedReports(before.pushes), Samples(init), last.pad);
      }
      hide Net.Advance, Selects;
      if e.push.Some? {
        picks := picks + [|Samples(init)|];
        assert PushedReports(before.pushes + [e.push.value]) == PushedReports(before.pushes) + [last.pad];
      }
    }
  }

  lemma PushCarriesSample(parse: Peers.Parser, s: Net.Server, step: Net.Step)
    requires Peers.Sound(parse)
    ensures var push := Net.Advance(parse, s, step).push; push.Some? ==> step.End? && push.value.report == step.pad
  {
    hide Net.OnEvent, Net.Expired, Peers.RemainingPollingTime, Peers.IsPollingTimeElapsed;
  }

  /** Stamped in strictly increasing time, after 0. */
  predicate Increasing(reports: seq<MainReport>) {
    && (forall i :: 0 <= i < |reports| ==> reports[i].timestamp > 0)
    && (forall i, j :: 0 <= i < j < |reports| ==> reports[i].timestamp < reports[j].timestamp)
  }

  /** If no sampling fails, pushed reports are stamped in strictly increasing time. */
  lemma PushesIncrease(parse: Peers.Parser, steps: seq<Net.Step>)
    requires Peers.Sound(parse) && NoSamplingFails(steps)
    ensures Increasing(PushedReports(Net.RunAll(parse, steps).pushes))
  {
    var picks := PushesSelect(parse, steps);
    var samples := Samples(steps);
    SamplesIncrease(1024, Stamps(samples));
    assert forall i :: 0 <= i < |samples| ==> samples[i].timestamp == Stamps(samples)[i];
    hide Net.RunAll, Samples, Sampled, PushedReports;
  }

  // ---------- From pushes to devices ----------

  type PadEncoder = MainReport -> seq<byte>

  /** The client's codec reads these reports as the server writes them. */
  predicate ReadsPads(codec: Codec, encode: PadEncoder, reports: seq<MainReport>) {
    forall i :: 0 <= i < |reports| ==>
      0 < |encode(reports[i])| < U32_MAX && codec(encode(reports[i])) == Content(PadDataReceived(reports[i]))
  }

  /** One datagram a report. */
  function Datagrams(encode: PadEncoder, reports: seq<MainReport>): seq<Message> {
    seq(|reports|, i requires 0 <= i < |reports| => Frame(encode(reports[i])))
  }

  lemma {:induction false} PadsOfDatagrams(codec: Codec, encode: PadEncoder, reports: seq<MainReport>)
    requires ReadsPads(codec, encode, reports)
    ensures PadsOf(codec, Datagrams(encode, reports)) == reports
  {
    if reports != [] {
      var ms, item := Datagrams(encode, reports), Ok(PadDataReceived(reports[0]));
      assert ms[0] == Frame(encode(reports[0])) && ms[1..] == Datagrams(encode, reports[1..]);
      assert OutcomeOf(codec, ms[0]) == Item(item);
      assert ReadsPads(codec, encode, reports[1..]);
      assert Items(codec, ms) == [item] + Items(codec, ms[1..]);
      hide ReadsPads, Items, OutcomeOf, Datagrams;
      PadsOfDatagrams(codec, encode, reports[1..]);
      PadReportsAppend([item], Items(codec, ms[1..]));
      PadReportsOne(item);
    }
  }

  lemma LosslessTrace(codec: Codec, encode: PadEncoder, config: Buttons.Config, reports: seq<MainReport>,
                      views: seq<View>, effects: seq<Effect>)
    requires ReadsPads(codec, encode, reports) && Increasing(reports)
    requires Trace(codec, config, Datagrams(encode, reports), views, effects)
    ensures Produces(config, NewMemory(), AsActions(reports), AllOuts(effects))
  {
    var ms := Datagrams(encode, reports);
    assert PadsOf(codec, ms) == PadReports(Items(codec, ms));
    LosslessInOrder(0, reports);
    hide *;
    TraceHandled(codec, config, ms, views, effects);
    PadsOfDatagrams(codec, encode, reports);
    HandledProduces(config, Items(codec, ms), views[|ms|].last, views[|ms|].memory, AllOuts(effects));
  }

  /** Over a channel that neither loses nor reorders, every report the server pushed is written to the
      device, exactly once and in order. */
  lemma EveryPushReachesDevice(
    parse: Peers.Parser, steps: seq<Net.Step>, codec: Codec, encode: PadEncoder, config: Buttons.Config,
    views: seq<View>, effects: seq<Effect>)
    requires Peers.Sound(parse) && NoSamplingFails(steps)
    requires ReadsPads(codec, encode, PushedReports(Net.RunAll(parse, steps).pushes))
    requires Trace(codec, config, Datagrams(encode, PushedReports(Net.RunAll(parse, steps).pushes)), views, effects)
    ensures Produces(config, NewMemory(), AsActions(PushedReports(Net.RunAll(parse, steps).pushes)), AllOuts(effects))
  {
    hide *;
    PushesIncrease(parse, steps);
    LosslessTrace(codec, encode, config, PushedReports(Net.RunAll(parse, steps).pushes), views, effects);
  }

  /** The server never stamps two pushed reports alike. */
  lemma PushesAreIdentified(parse: Peers.Parser, steps: seq<Net.Step>, codec: Codec, encode: PadEncoder)
    requires Peers.Sound(parse) && NoSamplingFails(steps)
    requires ReadsPads(codec, encode, PushedReports(Net.RunAll(parse, steps).pushes))
    ensures TimestampsIdentify(codec, Datagrams(encode, PushedReports(Net.RunAll(parse, steps).pushes)))
  {
    hide *;
    PushesIncrease(parse, steps);
    DatagramsAreIdentified(codec, encode, PushedReports(Net.RunAll(parse, steps).pushes));
  }

  lemma DatagramsAreIdentified(codec: Codec, encode: PadEncoder, reports: seq<MainReport>)
    requires ReadsPads(codec, encode, reports) && Increasing(reports)
    ensures TimestampsIdentify(codec, Datagrams(encode, reports))
  {
    var sent := Datagrams(encode, reports);
    forall i | 0 <= i < |sent| ensures PadIn(codec, sent[i]) == Some(reports[i]) {
      assert sent[i] == Frame(encode(reports[i]));
    }
    hide PadIn, ReadsPads;
    forall a, b | a in sent && b in sent && PadIn(codec, a).Some? && PadIn(codec, b).Some?
                  && PadIn(codec, a).value.timestamp == PadIn(codec, b).value.timestamp
      ensures PadIn(codec, a) == PadIn(codec, b)
    {
      var i :| 0 <= i < |sent| && sent[i] == a;
      var j :| 0 <= j < |sent| && sent[j] == b;
    }
  }

  /** From the controls to the devices: two clients that received some of the pads one server run pushed, each
      with its own losses, repetitions and order, show the same devices as soon as the greatest timestamp
      they received is the same. */
  lemma ChannelDoesNotShow(
    parse: Peers.Parser, steps: seq<Net.Step>, codec: Codec, encode: PadEncoder, config: Buttons.Config,
    ms1: seq<Message>, views1: seq<View>, effects1: seq<Effect>,
    ms2: seq<Message>, views2: seq<View>, effects2: seq<Effect>)
    requires Peers.Sound(parse) && NoSamplingFails(steps)
    requires ReadsPads(codec, encode, PushedReports(Net.RunAll(parse, steps).pushes))
    requires var sent := Datagrams(encode, PushedReports(Net.RunAll(parse, steps).pushes));
      (forall m :: m in ms1 ==> m in sent) && (forall m :: m in ms2 ==> m in sent)
    requires Trace(codec, config, ms1, views1, effects1) && Trace(codec, config, ms2, views2, effects2)
    requires NewestStamp(codec, ms1) == NewestStamp(codec, ms2)
    ensures Shown(config, effects1) == Shown(config, effects2)
  {
    hide *;
    PushesAreIdentified(parse, steps, codec, encode);
    var sent := Datagrams(encode, PushedReports(Net.RunAll(parse, steps).pushes));
    OrderAndLossDoNotShow(codec, config, sent, ms1, views1, effects1, ms2, views2, effects2);
  }
}
