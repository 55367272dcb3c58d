/** When the server pushes, drops and accepts: the exact conditions, in terms of readings, bytes and results. */
module Serving {
  import opened Bytes
  import opened Reports
  import opened Peers
  import opened Net

  const LIMIT: nat := 1024 * 1024
  const SECOND: nat := 1000000

  // ---------- Receiving ----------

  lemma {:induction false} ReceiveFits(p: Peer, chunks: seq<seq<byte>>)
    requires |p.buffer| <= LIMIT
    ensures Receive(p, chunks).done <==> |p.buffer| + |Concat(chunks)| <= LIMIT
    decreases |chunks|
  {
    if chunks != [] && AddToBuffer(p, chunks[0]).done {
      ReceiveFits(AddToBuffer(p, chunks[0]).peer, chunks[1..]);
    }
  }

  /** Bytes are kept exactly if they fit; bytes that do not cost the whole buffer. */
  lemma AddedExactly(p: Peer, data: seq<byte>)
    ensures var r := AddToBuffer(p, data);
      && (r.done <==> |p.buffer| + |data| <= LIMIT)
      && r.peer == p.(buffer := r.peer.buffer)
      && |r.peer.buffer| == (if r.done then |p.buffer| + |data| else 0)
      && (r.done ==> p.buffer <= r.peer.buffer && r.peer.buffer[|p.buffer|..] == data)
  {
  }

  /** A receive disconnects exactly if the peer closed or reset the connection or the bytes do not fit. */
  lemma DisconnectsExactly(parse: Parser, p: Peer, chunks: seq<seq<byte>>, end: RecvEnd, now: u64)
    requires Sound(parse) && |p.buffer| <= LIMIT
    ensures HandleIngoing(parse, p, chunks, end, now).Disconnected? <==>
              end.Closed? || end.ConnectionReset? || |p.buffer| + |Concat(chunks)| > LIMIT
  {
    ReceiveFits(p, chunks);
    hide Receive, Drain, Concat;
  }

  /** A packet that fails verification costs the whole buffer, one of an unhandled kind nothing; both stop
      the drain loop. */
  lemma BadPacketStops(parse: Parser, p: Peer, now: u64)
    requires Sound(parse) && p.buffer != [] && !HandleHeartbeat(p, now).done
    ensures parse(p.buffer).Malformed? ==> Drain(parse, p, now).peer == p.(buffer := [])
    ensures parse(p.buffer).Unhandled? ==> Drain(parse, p, now).peer == p
  {
    hide HandleHeartbeat;
  }

  lemma {:induction false} ReceivesAll(p: Peer, chunks: seq<seq<byte>>)
    ensures var r := Receive(p, chunks); r.done ==> r.peer == p.(buffer := p.buffer + Concat(chunks))
    decreases |chunks|
  {
    if chunks == [] {
      assert p.buffer + [] == p.buffer;
    } else if AddToBuffer(p, chunks[0]).done {
      ReceivesAll(AddToBuffer(p, chunks[0]).peer, chunks[1..]);
      ConcatAssociative(p.buffer, chunks[0], Concat(chunks[1..]));
    }
  }

  /** What a receive leaves in the buffer is the end of what was there and arrived, none of it if a packet
      failed verification, and no handler can go on with it. */
  lemma LeavesTheEnd(parse: Parser, p: Peer, chunks: seq<seq<byte>>, end: RecvEnd, now: u64)
    requires Sound(parse) && HandleIngoing(parse, p, chunks, end, now).Kept?
    ensures var p', all := HandleIngoing(parse, p, chunks, end, now).peer, p.buffer + Concat(chunks);
      && |p'.buffer| <= |all| && p'.buffer == all[|all| - |p'.buffer|..]
      && !HandleHeartbeat(p', now).done && !HandleData(parse, p').done
  {
    ReceivesAll(p, chunks);
    DrainConserves(parse, Receive(p, chunks).peer, now);
    hide Receive, Drain, Concat, HandleHeartbeat, HandleData;
  }

  /** The same for the client the server keeps; the event throws away nothing that the handlers left. */
  lemma EventLeavesTheEnd(parse: Parser, s: Server, chunks: seq<seq<byte>>, end: RecvEnd, now: u64)
    requires Sound(parse) && s.client.Some?
    ensures var s', all := OnEvent(parse, s, ClientReadable(chunks, end, now)), s.client.value.buffer + Concat(chunks);
      s'.client.Some? ==>
        var p' := s'.client.value;
        && |p'.buffer| <= |all| && p'.buffer == all[|all| - |p'.buffer|..]
        && !HandleHeartbeat(p', now).done && !HandleData(parse, p').done
        && (HandleIngoing(parse, s.client.value, chunks, end, now).peer.buffer == [] <==> p'.buffer == [])
  {
    if HandleIngoing(parse, s.client.value, chunks, end, now).Kept? {
      LeavesTheEnd(parse, s.client.value, chunks, end, now);
    }
    hide HandleIngoing, HandleHeartbeat, HandleData, Concat;
  }

  // ---------- Clocks ----------

  lemma {:induction false} DrainRecord(parse: Parser, p: Peer, now: u64)
    requires Sound(parse)
    ensures var at := Drain(parse, p, now).peer.heartbeatAt; at == p.heartbeatAt || at == now
    decreases |p.buffer|
  {
    var beat := HandleHeartbeat(p, now);
    var step := if beat.done then beat else HandleData(parse, p);
    if step.done {
      DrainRecord(parse, step.peer, now);
    }
  }

  predicate NotAhead(s: Server, clock: u64) {
    s.client.Some? ==> s.client.value.heartbeatAt <= clock && s.client.value.sentAt <= clock
  }

  lemma StepNotAhead(parse: Parser, s: Server, step: Step, clock: u64)
    requires Sound(parse) && Consistent(s) && NotAhead(s, clock) && NotBefore(step, clock)
    ensures NotAhead(Advance(parse, s, step).server, ClockAfter(step, clock))
  {
    if step.Event? && step.event.ClientReadable? && s.client.Some? {
      var ev, p := step.event, s.client.value;
      hide Receive, Drain;
      ReceiveKeeps(p, ev.chunks);
      DrainRecord(parse, Receive(p, ev.chunks).peer, ev.now);
      IngoingKeeps(parse, p, ev.chunks, ev.end, ev.now);
    } else {
      hide HandleIngoing, RemainingPollingTime, Expired, IsPollingTimeElapsed;
    }
  }

  /** In every run with a clock that does not go back, the client's records are not ahead of it. */
  lemma {:induction false} AlwaysNotAhead(parse: Parser, steps: seq<Step>)
    requires Sound(parse) && Monotone(steps)
    ensures NotAhead(RunAll(parse, steps).server, Clock(steps))
  {
    if steps != [] {
      var init, last := steps[..|steps| - 1], steps[|steps| - 1];
      hide Advance, Consistent, NotBefore, ClockAfter, NotAhead;
      AlwaysNotAhead(parse, init);
      AlwaysConsistent(parse, init);
      StepNotAhead(parse, RunAll(parse, init).server, last, Clock(init));
    }
  }

  // ---------- Pushing ----------

  /** A connected client, heard from within 26 seconds and not pushed to for longer than its interval, while
      pad mode is on and the datagram socket is open. */
  predicate Due(p: Peer, t: Times, padMode: bool, udp: Udp) {
    && t.expiry - p.heartbeatAt < 26 * SECOND
    && p.state.Connected?
    && t.poll - p.sentAt > p.pollingTime
    && padMode
    && udp.SendTo?
  }

  /** An iteration pushes exactly if its client is due, and then its own sample to the client's port. */
  lemma PushedExactly(s: Server, t: Times, padMode: bool, udp: Udp, pad: MainReport)
    requires s.client.Some? && s.client.value.heartbeatAt <= t.expiry && s.client.value.sentAt <= t.poll
    ensures var push, p := EndIteration(s, t, padMode, udp, pad).push, s.client.value;
      && (push.Some? <==> Due(p, t, padMode, udp))
      && (push.Some? && p.dataPort.Some? ==> push.value == Push(s.connection, p.dataPort.value, p.pollingTime, t.send, pad))
  {
    hide RemainingPollingTime;
  }

  /** Over every run with a clock that does not go back: the end of an iteration adds a push of its sample
      exactly if there is a client and it is due. */
  lemma DueIsPushed(parse: Parser, steps: seq<Step>, t: Times, padMode: bool, udp: Udp, pad: MainReport)
    requires Sound(parse) && Monotone(steps + [End(t, padMode, udp, pad)])
    ensures var r, r' := RunAll(parse, steps), RunAll(parse, steps + [End(t, padMode, udp, pad)]);
      if r.server.client.Some? && Due(r.server.client.value, t, padMode, udp) then
        && r.server.client.value.dataPort.Some?
        && r'.pushes == r.pushes + [Push(r.server.connection, r.server.client.value.dataPort.value,
                                         r.server.client.value.pollingTime, t.send, pad)]
      else r'.pushes == r.pushes
  {
    var step := End(t, padMode, udp, pad);
    assert (steps + [step])[..|steps|] == steps && (steps + [step])[|steps|] == step;
    var r := RunAll(parse, steps);
    assert Clock(steps) <= t.expiry <= t.poll;
    AlwaysNotAhead(parse, steps);
    AlwaysConsistent(parse, steps);
    if r.server.client.Some? {
      PushedExactly(r.server, t, padMode, udp, pad);
    }
    assert r.pushes + [] == r.pushes;
    hide Clock, Monotone, EndIteration, Due;
  }

  lemma WaitLeft(p: Peer, left: u64)
    requires p.pollingTime > 0 && p.sentAt <= left
    ensures RemainingPollingTime(p, left) ==
              if left - p.sentAt <= p.pollingTime then p.pollingTime - (left - p.sentAt) else p.pollingTime
  {
    RemainingTime(p, left);
    hide RemainingPollingTime;
  }

  lemma TimeoutOf(s: Server, t: Times, padMode: bool, udp: Udp, pad: MainReport)
    requires s.client.Some? && !Expired(s.client.value, t.expiry)
    ensures var e, p := EndIteration(s, t, padMode, udp, pad), s.client.value;
      e.server.timeout ==
        if !ShouldPush(p, padMode, t.poll) then RemainingPollingTime(p, t.left) % U32
        else if udp == SendTo(true) then RemainingPollingTime(p.(sentAt := t.send), t.left) % U32
        else s.timeout
  {
    hide RemainingPollingTime, Expired, ShouldPush;
  }

  /** How long the next wait may take: what is left of the interval, all of it if that has passed, in 32
      bits; as long as before if the client is dropped or a due push fails. */
  lemma NextTimeout(s: Server, t: Times, padMode: bool, udp: Udp, pad: MainReport)
    requires s.client.Some? && s.client.value.heartbeatAt <= t.expiry && s.client.value.sentAt <= t.poll
    requires t.expiry <= t.poll <= t.send <= t.left && s.client.value.pollingTime > 0
    ensures var e, p := EndIteration(s, t, padMode, udp, pad), s.client.value;
      var elapsed: int := t.left - if e.push.Some? then t.send else p.sentAt;
      e.server.timeout ==
        if t.expiry - p.heartbeatAt >= 26 * SECOND || (Due(p, t, padMode, SendTo(true)) && udp != SendTo(true)) then s.timeout
        else (if elapsed <= p.pollingTime then p.pollingTime - elapsed else p.pollingTime) % 0x1_0000_0000
  {
    var p := s.client.value;
    PushedExactly(s, t, padMode, udp, pad);
    assert Expired(p, t.expiry) <==> t.expiry - p.heartbeatAt >= 26 * SECOND;
    assert ShouldPush(p, padMode, t.poll) <==> p.state.Connected? && t.poll - p.sentAt > p.pollingTime && padMode;
    WaitLeft(p, t.left);
    WaitLeft(p.(sentAt := t.send), t.left);
    if Expired(p, t.expiry) {
    } else {
      TimeoutOf(s, t, padMode, udp, pad);
      hide EndIteration, RemainingPollingTime, Expired, ShouldPush;
    }
  }

  // ---------- Dropping and accepting ----------

  /** What ends a client's connection. */
  predicate Drops(p: Peer, step: Step) {
    match step
    case Down => true
    case Event(ClientHangup) => true
    case Event(ClientReadable(chunks, end, _)) =>
      end.Closed? || end.ConnectionReset? || |p.buffer| + |Concat(chunks)| > LIMIT
    case Event(ClientWritable(result)) => p.state.WaitingForServerConfirm? && result.SendReset?
    case End(t, _, _, _) => t.expiry - p.heartbeatAt >= 26 * SECOND
    case _ => false
  }

  /** A step drops the client exactly for one of these reasons. */
  lemma DroppedExactly(parse: Parser, s: Server, step: Step, clock: u64)
    requires Sound(parse) && Consistent(s) && s.client.Some? && NotAhead(s, clock) && NotBefore(step, clock)
    ensures Advance(parse, s, step).server.client.None? <==> Drops(s.client.value, step)
  {
    if step.Event? && step.event.ClientReadable? {
      DisconnectsExactly(parse, s.client.value, step.event.chunks, step.event.end, step.event.now);
    }
    hide HandleIngoing, RemainingPollingTime, IsPollingTimeElapsed, Concat;
  }

  /** When the network goes down the client is gone, and the next wait takes a second. */
  lemma DownMeans(parse: Parser, s: Server)
    requires Sound(parse)
    ensures var s' := Advance(parse, s, Down).server;
      s'.client.None? && s'.writeInterest.None? && s'.timeout == 1000000 && s'.used == s.used
  {
  }

  /** Over every run with a clock that does not go back. */
  lemma AlwaysDroppedExactly(parse: Parser, steps: seq<Step>, step: Step)
    requires Sound(parse) && Monotone(steps + [step]) && RunAll(parse, steps).server.client.Some?
    ensures RunAll(parse, steps + [step]).server.client.None? <==> Drops(RunAll(parse, steps).server.client.value, step)
  {
    assert (steps + [step])[..|steps|] == steps;
    assert NotBefore(step, Clock(steps));
    hide Advance, Drops, NotBefore, Clock, NotAhead, Consistent;
    AlwaysNotAhead(parse, steps);
    AlwaysConsistent(parse, steps);
    DroppedExactly(parse, RunAll(parse, steps).server, step, Clock(steps));
  }

  /** Any step but a receive leaves a client it keeps as it was, but for two things: the whole answer sent to a
      waiting client connects it, and a push is recorded. */
  lemma ChangesExactly(parse: Parser, s: Server, step: Step)
    requires Sound(parse) && s.client.Some? && !(step.Event? && step.event.ClientReadable?)
    ensures var e, p := Advance(parse, s, step), s.client.value;
      e.server.client.Some? ==>
        && e.server.connection == s.connection
        && e.server.client.value == p.(
             state := if step == Event(ClientWritable(Sent)) && p.state.WaitingForServerConfirm? then Connected else p.state,
             sentAt := if e.push.Some? then e.push.value.at else p.sentAt)
  {
    hide Expired, RemainingPollingTime, IsPollingTimeElapsed;
  }

  /** A newcomer becomes the client exactly if there is none, and then waits for its handshake with the
      minimal interval, an empty buffer and write interest; one that is refused changes nothing. */
  lemma AcceptedExactly(parse: Parser, s: Server, id: nat, now: u64)
    requires Sound(parse) && id !in s.used
    ensures var s' := OnEvent(parse, s, ServerReadable(Some(id), now));
      if s.client.Some? then s' == s
      else
        && s'.client.Some? && s'.connection == id && s'.writeInterest == Some(true) && id in s'.used
        && var p := s'.client.value;
        && p.state.WaitingForHandshake? && p.buffer == [] && p.dataPort.None? && p.pollingTime == 6000
        && p.heartbeatAt == now && p.sentAt == now
  {
  }
}
