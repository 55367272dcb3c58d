/** The event loop of net.cpp on values: one client at most, its epoll entry, and the pad datagrams pushed. */
module Net {
  import opened Bytes
  import opened Reports
  import opened Peers

  const MAX_HEARTBEAT_INTERVAL: nat := 25
  const SECOND_IN_MICROS: nat := 1000 * 1000
  const U32: int := 0x1_0000_0000

  /** `connection` names the accepted socket of the client, `used` every socket accepted so far, and
      `writeInterest` is the CLIENT entry of epoll, if there is one. */
  datatype Server = Server(
    client: Option<Peer>, connection: nat, used: set<nat>, writeInterest: Option<bool>, timeout: u32)

  const INITIAL: Server := Server(None, 0, {}, None, MIN_POLLING_INTERVAL_MICROS)

  /** Outcome of `send_all` on the handshake response. */
  datatype SendResult = Sent | SendReset | SendError

  /** One element of an epoll batch, as the branches of the loop tell them apart. */
  datatype NetEvent =
    | ClientHangup
    | ServerReadable(accepted: Option<nat>, now: u64)
    | ClientReadable(chunks: seq<seq<byte>>, end: RecvEnd, now: u64)
    | ClientWritable(result: SendResult)
    | NothingToDo

  function Disconnect(s: Server): Server {
    s.(client := None, writeInterest := None)
  }

  function OnEvent(parse: Parser, s: Server, ev: NetEvent): Server
    requires Sound(parse)
  {
    match ev
    case ClientHangup => Disconnect(s)
    case ServerReadable(accepted, now) =>
      if s.client.Some? || accepted.None? || accepted.value in s.used then s
      else s.(client := Some(NewPeer(now)), connection := accepted.value, used := s.used + {accepted.value},
              writeInterest := Some(true))
    case ClientReadable(chunks, end, now) =>
      if s.client.None? then s
      else
        var result := HandleIngoing(parse, s.client.value, chunks, end, now);
        if result.Disconnected? then Disconnect(s) else s.(client := Some(result.peer))
    case ClientWritable(result) =>
      if s.client.None? || s.client.value.state != WaitingForServerConfirm then s
      else
        (match result
         case Sent => s.(client := Some(s.client.value.(state := Connected)), writeInterest := Some(false))
         case SendReset => Disconnect(s)
         case SendError => s)
    case NothingToDo => s
  }

  function NetworkDown(s: Server): Server {
    Disconnect(s).(timeout := SECOND_IN_MICROS)
  }

  // ---------- The end of an iteration ----------

  /** The clock readings of one iteration's end, in the order they are taken. */
  datatype Times = Times(expiry: u64, poll: u64, send: u64, left: u64)

  /** Outcome of the datagram socket: not open, or `sceNetSendto` tried and its result. */
  datatype Udp = NoSocket | SendTo(ok: bool)

  /** A pad datagram: where it went, the polling interval in force, when, and the report in it. */
  datatype Push = Push(connection: nat, port: u16, interval: u64, at: u64, report: MainReport)

  datatype Ended = Ended(server: Server, push: Option<Push>)

  predicate Expired(p: Peer, now: u64) {
    ElapsedSecs(p.heartbeatAt, now) > MAX_HEARTBEAT_INTERVAL
  }

  predicate ShouldPush(p: Peer, padMode: bool, now: u64) {
    p.state == Connected && IsPollingTimeElapsed(p, now) && padMode
  }

  /** `pad` is what `get_ctrl` left at the start of the iteration. */
  function EndIteration(s: Server, t: Times, padMode: bool, udp: Udp, pad: MainReport): Ended {
    if s.client.None? then Ended(s, None)
    else
      var p := s.client.value;
      if Expired(p, t.expiry) then Ended(Disconnect(s), None)
      else if ShouldPush(p, padMode, t.poll) then
        match udp
        case NoSocket => Ended(s, None)
        case SendTo(ok) =>
          var p' := p.(sentAt := t.send);
          var port := if p.dataPort.Some? then p.dataPort.value else 0;
          var timeout := if ok then RemainingPollingTime(p', t.left) % U32 else s.timeout;
          Ended(s.(client := Some(p'), timeout := timeout), Some(Push(s.connection, port, p.pollingTime, t.send, pad)))
      else
        Ended(s.(timeout := RemainingPollingTime(p, t.left) % U32), None)
  }

  // ---------- Whole runs ----------

  datatype Step = Event(event: NetEvent) | Down | End(times: Times, padMode: bool, udp: Udp, pad: MainReport)

  function Advance(parse: Parser, s: Server, step: Step): Ended
    requires Sound(parse)
  {
    match step
    case Event(ev) => Ended(OnEvent(parse, s, ev), None)
    case Down => Ended(NetworkDown(s), None)
    case End(t, padMode, udp, pad) => EndIteration(s, t, padMode, udp, pad)
  }

  datatype Run = Run(server: Server, pushes: seq<Push>)

  function RunAll(parse: Parser, steps: seq<Step>): Run
    requires Sound(parse)
  {
    if steps == [] then Run(INITIAL, [])
    else
      var before := RunAll(parse, steps[..|steps| - 1]);
      var e := Advance(parse, before.server, steps[|steps| - 1]);
      Run(e.server, before.pushes + if e.push.Some? then [e.push.value] else [])
  }

  // ---------- The single-client invariant ----------

  predicate Consistent(s: Server) {
    && (s.client.Some? <==> s.writeInterest.Some?)
    && (s.client.Some? ==>
          var p := s.client.value;
          && s.connection in s.used
          && p.pollingTime >= MIN_POLLING_INTERVAL_MICROS
          && |p.buffer| <= MAX_BUFFER_ACCEPTABLE_SIZE
          && (p.state == WaitingForHandshake ==> s.writeInterest == Some(true) && p.dataPort.None?)
          && (p.state == WaitingForServerConfirm ==> p.dataPort.Some?)
          && (p.state == Connected ==> s.writeInterest == Some(false) && p.dataPort.Some?))
  }

  /** What handlers keep: the polling minimum, the buffer limit, and that a client past its handshake has a
      data port. */
  predicate PeerKept(p: Peer, p': Peer) {
    && (p.pollingTime >= MIN_POLLING_INTERVAL_MICROS ==> p'.pollingTime >= MIN_POLLING_INTERVAL_MICROS)
    && (|p.buffer| <= MAX_BUFFER_ACCEPTABLE_SIZE ==> |p'.buffer| <= MAX_BUFFER_ACCEPTABLE_SIZE)
    && ((p'.state == p.state && p'.dataPort == p.dataPort) || (p'.state == WaitingForServerConfirm && p'.dataPort.Some?))
    && p'.sentAt == p.sentAt
  }

  lemma {:induction false} DrainKeeps(parse: Parser, p: Peer, now: u64)
    requires Sound(parse)
    ensures PeerKept(p, Drain(parse, p, now).peer)
    decreases |p.buffer|
  {
    var beat := HandleHeartbeat(p, now);
    var step := if beat.done then beat else HandleData(parse, p);
    if step.done {
      DrainKeeps(parse, step.peer, now);
    }
  }

  lemma {:induction false} ReceiveKeeps(p: Peer, chunks: seq<seq<byte>>)
    requires |p.buffer| <= MAX_BUFFER_ACCEPTABLE_SIZE
    ensures var r := Receive(p, chunks);
      r.peer == p.(buffer := r.peer.buffer) && |r.peer.buffer| <= MAX_BUFFER_ACCEPTABLE_SIZE
    decreases |chunks|
  {
    if chunks != [] && AddToBuffer(p, chunks[0]).done {
      ReceiveKeeps(AddToBuffer(p, chunks[0]).peer, chunks[1..]);
    }
  }

  lemma IngoingKeeps(parse: Parser, p: Peer, chunks: seq<seq<byte>>, end: RecvEnd, now: u64)
    requires Sound(parse) && |p.buffer| <= MAX_BUFFER_ACCEPTABLE_SIZE
    ensures var r := HandleIngoing(parse, p, chunks, end, now); r.Kept? ==> PeerKept(p, r.peer)
  {
    hide Drain, Receive;
    ReceiveKeeps(p, chunks);
    DrainKeeps(parse, Receive(p, chunks).peer, now);
  }

  lemma StepConsistent(parse: Parser, s: Server, step: Step)
    requires Sound(parse) && Consistent(s)
    ensures Consistent(Advance(parse, s, step).server)
  {
    hide HandleIngoing;
    if step.Event? && step.event.ClientReadable? && s.client.Some? {
      IngoingKeeps(parse, s.client.value, step.event.chunks, step.event.end, step.event.now);
    }
  }

  /** In every reachable state there is an epoll entry exactly when there is a client, a connected client has
      a data port and no write interest left, and the limits hold. */
  lemma {:induction false} AlwaysConsistent(parse: Parser, steps: seq<Step>)
    requires Sound(parse)
    ensures Consistent(RunAll(parse, steps).server)
  {
    if steps != [] {
      AlwaysConsistent(parse, steps[..|steps| - 1]);
      StepConsistent(parse, RunAll(parse, steps[..|steps| - 1]).server, steps[|steps| - 1]);
    }
  }

  /** Write interest is dropped, and a client becomes connected, only in the step that sent the whole
      response to its handshake. */
  lemma InterestDroppedByResponse(parse: Parser, s: Server, step: Step)
    requires Sound(parse) && Consistent(s) && s.client.Some?
    ensures var s' := Advance(parse, s, step).server;
      s'.client.Some? &&
      ((s.writeInterest == Some(true) && s'.writeInterest == Some(false))
       || (s.client.value.state != Connected && s'.client.value.state == Connected))
      ==> step == Event(ClientWritable(Sent)) && s.client.value.state == WaitingForServerConfirm
  {
    hide HandleIngoing;
    if step.Event? && step.event.ClientReadable? {
      IngoingKeeps(parse, s.client.value, step.event.chunks, step.event.end, step.event.now);
    }
  }

  // ---------- A second handshake ----------

  /** A connected client that sends another handshake: it waits for a confirmation, but epoll no longer
      reports its socket writable. */
  predicate Stranded(s: Server) {
    s.client.Some? && s.client.value.state == WaitingForServerConfirm && s.writeInterest == Some(false)
  }

  /** Events epoll can report, given its CLIENT entry. */
  predicate Possible(s: Server, step: Step) {
    step.Event? && step.event.ClientWritable? ==> s.writeInterest == Some(true)
  }

  /** From then on the connection is stuck: no step connects it again or pushes a pad to it; it stays
      stranded until it is dropped. */
  lemma StrandedForGood(parse: Parser, s: Server, step: Step)
    requires Sound(parse) && Consistent(s) && Stranded(s) && Possible(s, step)
    ensures var e := Advance(parse, s, step);
      && e.push.None?
      && (e.server.client.Some? ==> e.server.connection == s.connection && Stranded(e.server))
  {
    hide HandleIngoing;
    if step.Event? && step.event.ClientReadable? {
      IngoingKeeps(parse, s.client.value, step.event.chunks, step.event.end, step.event.now);
    }
  }

  /** A connected client is stranded by a batch exactly when the batch brings a handshake. */
  lemma StrandedExactly(parse: Parser, s: Server, chunks: seq<seq<byte>>, end: RecvEnd, now: u64)
    requires Sound(parse) && Consistent(s) && s.client.Some? && s.client.value.state == Connected
    ensures var s' := OnEvent(parse, s, ClientReadable(chunks, end, now));
      Stranded(s') <==> s'.client.Some? && BringsHandshake(parse, Receive(s.client.value, chunks).peer, now)
  {
    ReceiveKeeps(s.client.value, chunks);
    DrainState(parse, Receive(s.client.value, chunks).peer, now);
    hide Drain, Receive, BringsHandshake;
  }

  /** The drain loop meets a handshake packet. */
  predicate BringsHandshake(parse: Parser, p: Peer, now: u64)
    requires Sound(parse)
    decreases |p.buffer|
  {
    var beat := HandleHeartbeat(p, now);
    if beat.done then BringsHandshake(parse, beat.peer, now)
    else
      var data := HandleData(parse, p);
      data.done && (parse(p.buffer).content.HandshakeContent? || BringsHandshake(parse, data.peer, now))
  }

  lemma {:induction false} DrainState(parse: Parser, p: Peer, now: u64)
    requires Sound(parse)
    ensures var p' := Drain(parse, p, now).peer;
      p'.state == if BringsHandshake(parse, p, now) then WaitingForServerConfirm else p.state
    decreases |p.buffer|
  {
    var beat := HandleHeartbeat(p, now);
    var step := if beat.done then beat else HandleData(parse, p);
    if step.done {
      DrainState(parse, step.peer, now);
    }
  }

  // ---------- The rate limit ----------

  /** The pads pushed to one connection. */
  function PushesTo(pushes: seq<Push>, connection: nat): seq<Push> {
    if pushes == [] then []
    else
      var last := pushes[|pushes| - 1];
      PushesTo(pushes[..|pushes| - 1], connection) + if last.connection == connection then [last] else []
  }

  /** Each push comes later after the one before it than the polling interval then in force. */
  predicate Spaced(ps: seq<Push>) {
    && (forall i :: 0 <= i < |ps| ==> ps[i].interval >= MIN_POLLING_INTERVAL_MICROS)
    && (forall i :: 0 <= i < |ps| - 1 ==> ps[i + 1].at - ps[i].at > ps[i + 1].interval)
  }

  /** The readings of a step, none before `clock`, in order. */
  predicate NotBefore(step: Step, clock: u64) {
    match step
    case Event(ServerReadable(_, now)) => clock <= now
    case Event(ClientReadable(_, _, now)) => clock <= now
    case Event(_) => true
    case Down => true
    case End(t, _, _, _) => clock <= t.expiry <= t.poll <= t.send <= t.left
  }

  function ClockAfter(step: Step, clock: u64): u64 {
    match step
    case Event(ServerReadable(_, now)) => now
    case Event(ClientReadable(_, _, now)) => now
    case End(t, _, _, _) => t.left
    case _ => clock
  }

  /** The clock of a run; the system clock never goes back. */
  function Clock(steps: seq<Step>): u64 {
    if steps == [] then 0 else ClockAfter(steps[|steps| - 1], Clock(steps[..|steps| - 1]))
  }

  predicate Monotone(steps: seq<Step>) {
    steps == [] ||
    (Monotone(steps[..|steps| - 1]) && NotBefore(steps[|steps| - 1], Clock(steps[..|steps| - 1])))
  }

  /** What the rate limit needs between steps. */
  predicate RateInvariant(s: Server, pushes: seq<Push>, clock: u64, connection: nat) {
    var ps := PushesTo(pushes, connection);
    && Spaced(ps)
    && (ps != [] ==> connection in s.used)
    && (s.client.Some? ==> s.client.value.sentAt <= clock)
    && (s.client.Some? && s.connection == connection && ps != [] ==> ps[|ps| - 1].at == s.client.value.sentAt)
  }

  /** A push reports the sample of its iteration, after more than the interval in force. */
  lemma PushAt(parse: Parser, s: Server, step: Step, clock: u64)
    requires Sound(parse) && NotBefore(step, clock) && (s.client.Some? ==> s.client.value.sentAt <= clock)
    requires Advance(parse, s, step).push.Some?
    ensures var push := Advance(parse, s, step).push.value;
      && s.client.Some? && step.End? && push.report == step.pad
      && push.connection == s.connection && push.interval == s.client.value.pollingTime
      && push.at - s.client.value.sentAt > s.client.value.pollingTime
      && push.at <= ClockAfter(step, clock)
    ensures var s' := Advance(parse, s, step).server;
      s' == s.(client := Some(s.client.value.(sentAt := Advance(parse, s, step).push.value.at)), timeout := s'.timeout)
  {
    hide HandleIngoing, RemainingPollingTime, Expired;
  }

  lemma PushesToSnoc(pushes: seq<Push>, push: Push, connection: nat)
    ensures PushesTo(pushes + [push], connection)
         == PushesTo(pushes, connection) + if push.connection == connection then [push] else []
  {
    assert (pushes + [push])[..|pushes|] == pushes;
  }

  lemma SpacedSnoc(ps: seq<Push>, push: Push)
    requires Spaced(ps) && push.interval >= MIN_POLLING_INTERVAL_MICROS
    requires ps != [] ==> push.at - ps[|ps| - 1].at > push.interval
    ensures Spaced(ps + [push])
  {
  }

  lemma RateStep(parse: Parser, s: Server, step: Step, pushes: seq<Push>, clock: u64, connection: nat)
    requires Sound(parse) && Consistent(s) && RateInvariant(s, pushes, clock, connection) && NotBefore(step, clock)
    ensures var e := Advance(parse, s, step);
      RateInvariant(e.server, pushes + (if e.push.Some? then [e.push.value] else []), ClockAfter(step, clock), connection)
  {
    hide PushesTo, Spaced;
    var e := Advance(parse, s, step);
    if e.push.Some? {
      PushAt(parse, s, step, clock);
      hide Advance;
      PushesToSnoc(pushes, e.push.value, connection);
      if s.connection == connection {
        SpacedSnoc(PushesTo(pushes, connection), e.push.value);
      } else {
        assert PushesTo(pushes, connection) + [] == PushesTo(pushes, connection);
      }
    } else {
      hide HandleIngoing;
      assert pushes + [] == pushes;
      if step.Event? && step.event.ClientReadable? && s.client.Some? {
        IngoingKeeps(parse, s.client.value, step.event.chunks, step.event.end, step.event.now);
      }
    }
  }

  /** Over every run and for every connection: a pad is pushed only after more than the polling interval in
      force has passed since the one before it. */
  lemma {:induction false} RateAlways(parse: Parser, steps: seq<Step>, connection: nat)
    requires Sound(parse) && Monotone(steps)
    ensures RateInvariant(RunAll(parse, steps).server, RunAll(parse, steps).pushes, Clock(steps), connection)
  {
    if steps != [] {
      hide Advance, RateInvariant, Consistent;
      var init, last := steps[..|steps| - 1], steps[|steps| - 1];
      RateAlways(parse, init, connection);
      AlwaysConsistent(parse, init);
      RateStep(parse, RunAll(parse, init).server, last, RunAll(parse, init).pushes, Clock(init), connection);
    } else {
      assert RateInvariant(INITIAL, [], 0, connection);
    }
  }

  /** The next push of a run waits for the interval its client has been given by then. */
  lemma NextPushWaits(parse: Parser, steps: seq<Step>, step: Step)
    requires Sound(parse) && Monotone(steps + [step])
    requires Advance(parse, RunAll(parse, steps).server, step).push.Some?
    ensures var r, push := RunAll(parse, steps), Advance(parse, RunAll(parse, steps).server, step).push.value;
      var ps := PushesTo(r.pushes, push.connection);
      && r.server.client.Some? && push.connection == r.server.connection
      && (ps != [] ==> push.at - ps[|ps| - 1].at > r.server.client.value.pollingTime)
  {
    var r, push := RunAll(parse, steps), Advance(parse, RunAll(parse, steps).server, step).push.value;
    assert (steps + [step])[..|steps|] == steps;
    hide Advance, RunAll, NotBefore, PushesTo, Spaced;
    RateAlways(parse, steps, push.connection);
    PushAt(parse, r.server, step, Clock(steps));
  }

  lemma {:induction false} SpacedSpan(ps: seq<Push>, i: nat, j: nat, least: nat)
    requires Spaced(ps) && i <= j < |ps| && forall k :: i < k <= j ==> ps[k].interval >= least
    ensures ps[j].at - ps[i].at >= (j - i) * (least + 1)
    decreases j
  {
    if i < j {
      SpacedSpan(ps, i, j - 1, least);
      assert ps[(j - 1) + 1].at - ps[j - 1].at > ps[j].interval;
      assert (j - i) * (least + 1) == (j - 1 - i) * (least + 1) + (least + 1);
    }
  }

  lemma SpacedAlways(parse: Parser, steps: seq<Step>, connection: nat)
    requires Sound(parse) && Monotone(steps)
    ensures Spaced(PushesTo(RunAll(parse, steps).pushes, connection))
    ensures forall push :: push in PushesTo(RunAll(parse, steps).pushes, connection) ==>
              push.interval >= MIN_POLLING_INTERVAL_MICROS
  {
    hide RunAll, PushesTo;
    RateAlways(parse, steps, connection);
  }

  lemma InsideWindow(n: nat, least: nat, window: nat)
    requires n > 0 && n * (least + 1) <= window
    ensures n * least < window
  {
    assert n * (least + 1) == n * least + n;
  }

  /** Over any run, if the interval in force is never below `least` for the pads numbered i + 1 to j of one
      connection, n of them inside a window of W microseconds imply (n - 1) * least < W; and whatever the
      client asked for, (n - 1) * 6000 < W. */
  lemma RateLimit(parse: Parser, steps: seq<Step>, connection: nat, i: nat, j: nat, start: u64, window: nat, least: nat)
    requires Sound(parse) && Monotone(steps)
    requires var ps := PushesTo(RunAll(parse, steps).pushes, connection);
      && i < j < |ps| && start <= ps[i].at && ps[j].at <= start + window
      && forall k :: i < k <= j ==> ps[k].interval >= least
    ensures (j - i) * least < window && (j - i) * 6000 < window
  {
    var ps := PushesTo(RunAll(parse, steps).pushes, connection);
    SpacedAlways(parse, steps, connection);
    hide *;
    SpacedSpan(ps, i, j, least);
    SpacedSpan(ps, i, j, 6000);
    assert ps[j].at - ps[i].at <= window;
    InsideWindow(j - i, least, window);
    InsideWindow(j - i, 6000, window);
  }
}
