/** `net_thread` and its helpers, statement by statement against the functions of `Net`. */
module NetServer {
  import opened Bytes
  import opened Reports
  import opened Peers
  import opened Net
  import opened ServerClient

  /** `sceNetSend`: a negative error, or how many of the remaining bytes it took; `call` numbers the calls. */
  type Socket = (nat, nat) -> int

  /** Partial sends make progress and take no more than they are given. */
  ghost predicate Progresses(send: Socket) {
    forall call, size :: size > 0 ==> send(call, size) != 0 && send(call, size) <= size
  }

  /** `send_all`: a positive result means that the whole buffer went out, in order; a result that is not
      positive, for a buffer that is not empty, means that only a proper prefix did. */
  method SendAll(send: Socket, buf: seq<byte>) returns (result: int, sent: seq<byte>)
    requires Progresses(send)
    ensures result > 0 ==> sent == buf
    ensures result <= 0 && buf != [] ==> |sent| < |buf| && sent == buf[..|sent|]
    ensures buf == [] ==> result == 0 && sent == []
  {
    var pointer, call := 0, 0;
    result := 0;
    while |buf| - pointer > 0
      invariant 0 <= pointer <= |buf|
      invariant if pointer == 0 then result == 0 else result > 0
    {
      result := send(call, |buf| - pointer);
      if result < 0 {
        return result, buf[..pointer];
      }
      pointer := pointer + result;
      call := call + 1;
    }
    sent := buf[..pointer];
  }

  /** The TCP events of a batch, in order. */
  function OnEvents(parse: Parser, s: Server, batch: seq<NetEvent>): Server
    requires Sound(parse)
  {
    if batch == [] then s else OnEvent(parse, OnEvents(parse, s, batch[..|batch| - 1]), batch[|batch| - 1])
  }

  /** `accept` hands out sockets that were never in use before. */
  predicate FreshSockets(used: set<nat>, batch: seq<NetEvent>) {
    && (forall i :: 0 <= i < |batch| && batch[i].ServerReadable? && batch[i].accepted.Some? ==>
          batch[i].accepted.value !in used)
    && (forall i, j :: (0 <= i < j < |batch| && batch[i].ServerReadable? && batch[j].ServerReadable?
                        && batch[i].accepted.Some?) ==> batch[i].accepted != batch[j].accepted)
  }

  class NetThread {
    var client: Client?
    var connection: nat
    ghost var used: set<nat>
    var writeInterest: Option<bool>
    var timeout: u32

    ghost function Model(): Server
      reads this, client
    {
      Server(if client == null then None else Some(client.Model()), connection, used, writeInterest, timeout)
    }

    constructor ()
      ensures Model() == INITIAL
    {
      client, connection, used, writeInterest, timeout := null, 0, {}, None, MIN_POLLING_INTERVAL_MICROS;
    }

    /** `disconnect_client`; destroying the socket takes it out of epoll. */
    method DisconnectClient()
      modifies this
      ensures Model() == Disconnect(old(Model()))
      ensures client == null && used == old(used)
    {
      client := null;
      writeInterest := None;
    }

    method AddClient(accepted: Option<nat>, now: u64)
      requires client == null
      requires accepted.Some? ==> accepted.value !in used
      modifies this
      ensures if accepted.None? then Model() == old(Model())
              else Model() == old(Model()).(client := Some(NewPeer(now)), connection := accepted.value,
                                            used := old(used) + {accepted.value}, writeInterest := Some(true))
      ensures client == null || fresh(client)
    {
      if accepted.Some? {
        client := new Client(now);
        connection := accepted.value;
        used := used + {accepted.value};
        writeInterest := Some(true);
      }
    }

    /** `send_handshake_response` and its handlers: a reset disconnects, other errors leave all as it was. */
    method Respond(result: SendResult)
      requires client != null
      modifies this, client
      ensures Model() == OnEvent(_ => Unhandled, old(Model()), ClientWritable(result))
      ensures client == null || client == old(client)
      ensures used == old(used)
    {
      if client.state == WaitingForServerConfirm {
        match result {
          case Sent =>
            client.state := Connected;
            writeInterest := Some(false);
          case SendReset => DisconnectClient();
          case SendError =>
        }
      }
    }

    method HandleEvent(parse: Parser, ev: NetEvent)
      requires Sound(parse)
      requires ev.ServerReadable? && ev.accepted.Some? ==> ev.accepted.value !in used
      modifies this, client
      ensures Model() == OnEvent(parse, old(Model()), ev)
      ensures client == null || client == old(client) || fresh(client)
    {
      hide HandleIngoing;
      match ev {
        case ClientHangup => DisconnectClient();
        case ServerReadable(accepted, now) =>
          if client == null {
            AddClient(accepted, now);
          }
        case ClientReadable(chunks, end, now) =>
          if client != null {
            var disconnect := client.HandleIngoingData(parse, chunks, end, now);
            if disconnect {
              DisconnectClient();
            }
          }
        case ClientWritable(result) =>
          if client != null {
            Respond(result);
          }
        case NothingToDo =>
      }
    }

    method HandleBatch(parse: Parser, batch: seq<NetEvent>)
      requires Sound(parse) && FreshSockets(used, batch)
      modifies this, client
      ensures Model() == OnEvents(parse, old(Model()), batch)
      ensures client == null || client == old(client) || fresh(client)
    {
      hide OnEvent;
      ghost var s := Model();
      for i := 0 to |batch|
        invariant Model() == OnEvents(parse, s, batch[..i])
        invariant FreshSockets(used, batch[i..])
        invariant client == null || client == old(client) || fresh(client)
      {
        UsedAfter(parse, Model(), batch[i]);
        assert batch[i..][0] == batch[i] && batch[i..][1..] == batch[i + 1..];
        StillFresh(used, batch[i..]);
        HandleEvent(parse, batch[i]);
        assert batch[..i + 1][..i] == batch[..i];
      }
      assert batch[..|batch|] == batch;
    }

    /** The end of an iteration. The source's log line after a timeout uses the client that was just reset;
        here the iteration ends there. */
    method FinishIteration(t: Times, padMode: bool, udp: Udp, pad: MainReport) returns (push: Option<Push>)
      modifies this, client
      ensures Ended(Model(), push) == EndIteration(old(Model()), t, padMode, udp, pad)
      ensures client == null || client == old(client)
    {
      push := None;
      if client == null {
        return;
      }
      if ElapsedSecs(client.heartbeatTime, t.expiry) > MAX_HEARTBEAT_INTERVAL {
        DisconnectClient();
        return;
      }
      var elapsed := client.IsPollingTimeElapsed(t.poll);
      if client.state == Connected && elapsed && padMode {
        match udp {
          case NoSocket => return;
          case SendTo(ok) =>
            client.sentDataTime := t.send;
            var port := if client.dataConnInfo.Some? then client.dataConnInfo.value else 0;
            push := Some(Push(connection, port, client.pollingTime, t.send, pad));
            if !ok {
              return;
            }
        }
      }
      timeout := Clamp(Minus(client.pollingTime, Minus(t.left, client.sentDataTime)), 0, client.pollingTime) % U32;
    }

    /** One turn of the main loop. */
    method Iterate(parse: Parser, networkDown: bool, batch: seq<NetEvent>, t: Times, padMode: bool, udp: Udp, pad: MainReport)
      returns (push: Option<Push>)
      requires Sound(parse) && FreshSockets(used, batch)
      modifies this, client
      ensures var s := if networkDown then NetworkDown(old(Model())) else old(Model());
        Ended(Model(), push) == EndIteration(OnEvents(parse, s, batch), t, padMode, udp, pad)
    {
      hide OnEvents, EndIteration;
      if networkDown {
        DisconnectClient();
        timeout := SECOND_IN_MICROS;
      }
      HandleBatch(parse, batch);
      push := FinishIteration(t, padMode, udp, pad);
    }
  }

  lemma UsedAfter(parse: Parser, s: Server, ev: NetEvent)
    requires Sound(parse)
    ensures s.used <= OnEvent(parse, s, ev).used <=
              s.used + if ev.ServerReadable? && ev.accepted.Some? then {ev.accepted.value} else {}
  {
  }

  lemma StillFresh(used: set<nat>, batch: seq<NetEvent>)
    requires batch != [] && FreshSockets(used, batch)
    ensures FreshSockets(used + (if batch[0].ServerReadable? && batch[0].accepted.Some? then {batch[0].accepted.value} else {}),
                         batch[1..])
  {
  }

  // ---------- Turns of the loop as runs ----------

  function TurnSteps(networkDown: bool, batch: seq<NetEvent>, t: Times, padMode: bool, udp: Udp, pad: MainReport): seq<Step> {
    (if networkDown then [Down] else []) + seq(|batch|, i requires 0 <= i < |batch| => Event(batch[i]))
    + [End(t, padMode, udp, pad)]
  }

  lemma RunSnoc(parse: Parser, steps: seq<Step>, step: Step)
    requires Sound(parse)
    ensures var r, e := RunAll(parse, steps), Advance(parse, RunAll(parse, steps).server, step);
      RunAll(parse, steps + [step]) == Run(e.server, r.pushes + if e.push.Some? then [e.push.value] else [])
  {
  }

  lemma {:induction false} RunEvents(parse: Parser, steps: seq<Step>, batch: seq<NetEvent>)
    requires Sound(parse)
    ensures var r := RunAll(parse, steps);
      RunAll(parse, steps + seq(|batch|, i requires 0 <= i < |batch| => Event(batch[i])))
        == Run(OnEvents(parse, r.server, batch), r.pushes)
  {
    hide RunAll, OnEvent;
    var events := seq(|batch|, i requires 0 <= i < |batch| => Event(batch[i]));
    if batch == [] {
      assert steps + events == steps;
    } else {
      var init := batch[..|batch| - 1];
      var firsts := seq(|init|, i requires 0 <= i < |init| => Event(init[i]));
      RunEvents(parse, steps, init);
      RunSnoc(parse, steps + firsts, Event(batch[|batch| - 1]));
      assert steps + events == steps + firsts + [Event(batch[|batch| - 1])];
      assert RunAll(parse, steps).pushes + [] == RunAll(parse, steps).pushes;
    }
  }

  /** One turn of the loop, as `Iterate` computes it, is a stretch of a run of `Net`: what holds of every run
      holds of every sequence of turns. */
  lemma TurnIsRun(parse: Parser, steps: seq<Step>, networkDown: bool, batch: seq<NetEvent>, t: Times, padMode: bool, udp: Udp,
                  pad: MainReport)
    requires Sound(parse)
    ensures var r := RunAll(parse, steps);
      var s := if networkDown then NetworkDown(r.server) else r.server;
      var e := EndIteration(OnEvents(parse, s, batch), t, padMode, udp, pad);
      RunAll(parse, steps + TurnSteps(networkDown, batch, t, padMode, udp, pad))
        == Run(e.server, r.pushes + if e.push.Some? then [e.push.value] else [])
  {
    var down := if networkDown then [Down] else [];
    var events := seq(|batch|, i requires 0 <= i < |batch| => Event(batch[i]));
    var last := End(t, padMode, udp, pad);
    assert steps + TurnSteps(networkDown, batch, t, padMode, udp, pad) == steps + down + events + [last];
    hide RunAll, EndIteration, OnEvents, TurnSteps;
    if networkDown {
      RunSnoc(parse, steps, Down);
      assert RunAll(parse, steps).pushes + [] == RunAll(parse, steps).pushes;
    } else {
      assert steps + down == steps;
    }
    RunEvents(parse, steps + down, batch);
    RunSnoc(parse, steps + down + events, last);
  }
}
