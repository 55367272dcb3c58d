/** The client's main loop on pad data: datagram in, decoder, timestamp filter, virtual device. */
module Receiving {
  import opened Bytes
  import opened Reports
  import opened Framing
  import opened Connections
  import opened Filtering
  import opened VirtualDevice
  import opened Runs
  import Buttons

  function AsActions(reports: seq<MainReport>): (acts: seq<Action>)
    ensures |acts| == |reports|
  {
    seq(|reports|, i requires 0 <= i < |reports| => Report(reports[i]))
  }

  lemma FirstAction(reports: seq<MainReport>)
    requires reports != []
    ensures AsActions(reports)[0] == Report(reports[0]) && AsActions(reports)[1..] == AsActions(reports[1..])
  {
  }

  function MemoryAfterAll(config: Buttons.Config, m: Memory, reports: seq<MainReport>): (m': Memory)
    requires WellFormed(m)
    ensures WellFormed(m')
    decreases |reports|
  {
    if reports == [] then m else MemoryAfterAll(config, Remember(config, m, reports[0]), reports[1..])
  }

  lemma {:induction false} MemoryAppend(config: Buttons.Config, m: Memory, a: seq<MainReport>, b: seq<MainReport>)
    requires WellFormed(m)
    ensures MemoryAfterAll(config, m, a + b) == MemoryAfterAll(config, MemoryAfterAll(config, m, a), b)
    decreases |a|
  {
    hide Remember;
    if a == [] {
      assert a + b == b;
    } else {
      assert (a + b)[1..] == a[1..] + b;
      MemoryAppend(config, Remember(config, m, a[0]), a[1..], b);
    }
  }

  lemma {:induction false} ProducesAppend(
    config: Buttons.Config, m: Memory, a: seq<MainReport>, outsA: seq<Output>, b: seq<MainReport>, outsB: seq<Output>)
    requires WellFormed(m) && Produces(config, m, AsActions(a), outsA)
    requires Produces(config, MemoryAfterAll(config, m, a), AsActions(b), outsB)
    ensures Produces(config, m, AsActions(a + b), outsA + outsB)
    decreases |a|
  {
    hide Emits, Remember, AsActions;
    if a == [] {
      assert a + b == b && outsA + outsB == outsB;
    } else {
      assert (a + b)[1..] == a[1..] + b && (outsA + outsB)[1..] == outsA[1..] + outsB;
      FirstAction(a);
      FirstAction(a + b);
      ProducesAppend(config, Remember(config, m, a[0]), a[1..], outsA[1..], b, outsB);
    }
  }

  /** Some items have been handled: the filter's clock, the device's memory and its outputs are those of the
      reports it let through. */
  ghost predicate Handled(config: Buttons.Config, last0: u64, m0: Memory, items: seq<Item>,
                          last: u64, m: Memory, outs: seq<Output>)
    requires WellFormed(m0)
  {
    var forwarded := Forwarded(last0, PadReports(items));
    && last == LastSeen(last0, PadReports(items))
    && m == MemoryAfterAll(config, m0, forwarded)
    && Produces(config, m0, AsActions(forwarded), outs)
  }

  lemma NothingHandled(config: Buttons.Config, last: u64, m: Memory)
    requires WellFormed(m)
    ensures Handled(config, last, m, [], last, m, [])
  {
  }

  /** What handling one item does to the filter's clock and the device. */
  ghost predicate HandlesItem(config: Buttons.Config, last: u64, m: Memory, item: Item,
                              last': u64, m': Memory, out: Option<Output>)
    requires WellFormed(m)
  {
    if item.Ok? && item.event.PadDataReceived? && item.event.data.timestamp > last then
      && last' == item.event.data.timestamp
      && m' == Remember(config, m, item.event.data)
      && out.Some? && Emits(config, m, item.event.data, out.value)
    else
      last' == last && m' == m && out.None?
  }

  function Written(out: Option<Output>): seq<Output> {
    if out.Some? then [out.value] else []
  }

  lemma HandlesOne(config: Buttons.Config, last: u64, m: Memory, item: Item, last': u64, m': Memory, out: Option<Output>)
    requires WellFormed(m) && HandlesItem(config, last, m, item, last', m', out)
    ensures Handled(config, last, m, [item], last', m', Written(out))
  {
    hide Remember, Emits;
    PadReportsOne(item);
    assert AsActions([]) == [];
    if item.Ok? && item.event.PadDataReceived? {
      var r := item.event.data;
      ForwardedOne(last, r);
      assert [r][1..] == [];
      assert MemoryAfterAll(config, m, [r]) == MemoryAfterAll(config, Remember(config, m, r), [r][1..]);
      if out.Some? {
        var acts := AsActions([r]);
        assert acts[0] == Report(r) && acts[1..] == [] && Written(out)[1..] == [];
        assert Produces(config, Remember(config, m, r), acts[1..], Written(out)[1..]);
      }
    }
  }

  lemma HandledAppend(config: Buttons.Config, last0: u64, m0: Memory, a: seq<Item>, last1: u64, m1: Memory, outs1: seq<Output>,
                      b: seq<Item>, last2: u64, m2: Memory, outs2: seq<Output>)
    requires WellFormed(m0) && Handled(config, last0, m0, a, last1, m1, outs1)
    requires WellFormed(m1) && Handled(config, last1, m1, b, last2, m2, outs2)
    ensures Handled(config, last0, m0, a + b, last2, m2, outs1 + outs2)
  {
    hide Produces, MemoryAfterAll, PadReports, Forwarded, LastSeen, AsActions;
    PadReportsAppend(a, b);
    ForwardedAppend(last0, PadReports(a), PadReports(b));
    var forwarded1, forwarded2 := Forwarded(last0, PadReports(a)), Forwarded(last1, PadReports(b));
    MemoryAppend(config, m0, forwarded1, forwarded2);
    ProducesAppend(config, m0, forwarded1, outs1, forwarded2, outs2);
  }

  /** The receiver between two datagrams. */
  datatype View = View(incoming: seq<byte>, last: u64, memory: Memory)

  datatype Effect = Effect(outs: seq<Output>, crashed: bool)

  /** One iteration of the main loop on what `recv_from` returned; an empty datagram changes nothing. */
  ghost predicate Step(codec: Codec, config: Buttons.Config, v: View, data: seq<byte>, v': View, e: Effect)
    requires WellFormed(v.memory)
  {
    if data == [] then v' == v && e == Effect([], false)
    else
      var d := Drain(codec, v.incoming + data);
      && e.crashed == d.panicked
      && v'.incoming == d.rest
      && Handled(config, v.last, v.memory, d.items, v'.last, v'.memory, e.outs)
  }

  class Receiver {
    const connection: Connection
    const device: VitaDevice
    var lastTimestamp: u64

    ghost function Now(): View
      reads this, connection, device, device.previousFrontTouches, device.previousRearTouches
      requires device.Valid()
    {
      View(connection.incoming, lastTimestamp, device.State())
    }

    constructor (connection: Connection, device: VitaDevice)
      ensures this.connection == connection && this.device == device && lastTimestamp == 0
    {
      this.connection, this.device, this.lastTimestamp := connection, device, 0;
    }

    /** The body of the event loop: a pad report newer than all before it goes to the device. */
    method HandleItem(item: Item) returns (out: Option<Output>)
      requires device.Valid()
      modifies this, device, device.previousFrontTouches, device.previousRearTouches
      ensures device.Valid() && device.config == old(device.config)
      ensures HandlesItem(device.config, old(lastTimestamp), old(device.State()), item, lastTimestamp, device.State(), out)
    {
      out := None;
      if item.Ok? && item.event.PadDataReceived? {
        var report := item.event.data;
        if report.timestamp <= lastTimestamp {
          return;
        }
        lastTimestamp := report.timestamp;
        hide Remember, Emits;
        var written := device.SendReport(report);
        out := Some(written);
      }
    }

    /** The loop `for event in conn.events()`. `crashed` is a panic of the decoder. */
    method HandleEvents() returns (outs: seq<Output>, crashed: bool)
      requires device.Valid()
      modifies this, connection`incoming, device, device.previousFrontTouches, device.previousRearTouches
      ensures device.Valid() && device.config == old(device.config)
      ensures var d := Drain(connection.codec, old(connection.incoming));
        && crashed == d.panicked
        && connection.incoming == d.rest
        && Handled(device.config, old(lastTimestamp), old(device.State()), d.items, lastTimestamp, device.State(), outs)
    {
      ghost var m, config, last0 := device.State(), device.config, lastTimestamp;
      ghost var whole := Drain(connection.codec, connection.incoming);
      ghost var items: seq<Item> := [];
      NothingHandled(config, last0, m);
      DrainUnfolds(connection.codec, connection.incoming, items);
      hide *;
      outs, crashed := [], false;
      while true
        invariant device.Valid() && device.config == config && !crashed
        invariant whole == After(items, Drain(connection.codec, connection.incoming))
        invariant Handled(config, last0, m, items, lastTimestamp, device.State(), outs)
        decreases |connection.incoming|
      {
        DrainUnfolds(connection.codec, connection.incoming, items);
        var outcome := connection.Next();
        if !outcome.Item? {
          crashed := outcome.Panic?;
          return;
        }
        ghost var last, memory := lastTimestamp, device.State();
        var out := HandleItem(outcome.item);
        HandlesOne(config, last, memory, outcome.item, lastTimestamp, device.State(), out);
        HandledAppend(config, last0, m, items, last, memory, outs, [outcome.item], lastTimestamp, device.State(), Written(out));
        items := items + [outcome.item];
        outs := outs + Written(out);
      }
    }

    /** One iteration of the main loop, for what `recv_from` returned. */
    method OnDatagram(data: seq<byte>) returns (outs: seq<Output>, crashed: bool)
      requires device.Valid()
      modifies this, connection`incoming, device, device.previousFrontTouches, device.previousRearTouches
      ensures device.Valid() && device.config == old(device.config)
      ensures Step(connection.codec, device.config, old(Now()), data, Now(), Effect(outs, crashed))
    {
      if data == [] {
        return [], false;
      }
      hide Drain, Handled;
      connection.ReceiveData(data);
      outs, crashed := HandleEvents();
    }
  }

  /** A drain that has already yielded some items. */
  function After(items: seq<Item>, d: Drained): Drained {
    d.(items := items + d.items)
  }

  lemma DrainUnfolds(codec: Codec, buf: seq<byte>, items: seq<Item>)
    ensures var t, d := Framing.Next(codec, buf), Drain(codec, buf);
      if t.outcome.Item? then
        && |t.rest| < |buf|
        && After(items, d) == After(items + [t.outcome.item], Drain(codec, t.rest))
      else After(items, d) == Drained(items, t.rest, t.outcome.Panic?)
    ensures After([], Drain(codec, buf)) == Drain(codec, buf)
  {
  }
}
