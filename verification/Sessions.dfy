/** Server, clients and their TCP connections together: the handshake, and where and how often pads go. */
module Sessions {
  import opened Bytes
  import opened Reports
  import Framing
  import opened Peers
  import opened Net
  import opened Wires
  import opened Mixtures

  // ---------- The system ----------

  /** A client process and its TCP connection: everything it sent, how much of it the server received, every
      byte the server wrote back, how many of them each failed attempt wrote, and when heartbeats were sent. */
  datatype Proc = Proc(
    port: u16, phase: Phase, sent: seq<Sent>, taken: nat, response: seq<byte>, cuts: seq<nat>, beats: seq<nat>)

  function NewProc(port: u16): Proc {
    Proc(port, AwaitingResponse, [Shake(port)], 0, [], [], [])
  }

  /** `connected` and `pushes` record the past. */
  datatype System = System(server: Server, procs: map<nat, Proc>, connected: set<nat>, pushes: seq<Push>)

  const START: System := System(INITIAL, map[], {}, [])

  datatype SysStep =
    // The client connects and writes its handshake.
    | Connect(id: nat, port: u16)
    // The client's only read of the response, and its first `next`.
    | ReadResponse(id: nat, n: nat)
    | SendSettings(id: nat, interval: u64)
    | SendPulse(id: nat, at: nat)
    | Accept(id: nat, now: u64)
    | Batch(k: nat, chunks: seq<seq<byte>>, end: RecvEnd, now: u64)
    // `partial` bytes of the response went out before a failed send gave up.
    | Respond(result: SendResult, partial: nat)
    | Hangup
    | NetDown
    | Finish(times: Times, padMode: bool, udp: Udp, pad: MainReport)

  predicate CanBatch(w: Wiring, sys: System, k: nat, chunks: seq<seq<byte>>) {
    && sys.server.client.Some? && sys.server.connection in sys.procs
    && var proc := sys.procs[sys.server.connection];
    && proc.taken + k <= |proc.sent|
    && Concat(chunks) == AsBytes(w.encoder, proc.sent[proc.taken..proc.taken + k])
  }

  predicate CanRespond(w: Wiring, sys: System, partial: nat) {
    && sys.server.client.Some? && sys.server.connection in sys.procs && sys.server.writeInterest == Some(true)
    && partial < |ResponseFrame(w)|
  }

  /** When a step can happen. Batches end on message boundaries, and epoll reports the socket writable only
      while it has write interest. */
  predicate Enabled(w: Wiring, sys: System, step: SysStep) {
    match step
    case Connect(id, port) => id !in sys.procs
    case ReadResponse(id, n) =>
      id in sys.procs && sys.procs[id].phase.AwaitingResponse? && n <= |sys.procs[id].response| && n <= READ_SIZE
    case SendSettings(id, interval) => id in sys.procs && sys.procs[id].phase.Ready?
    case SendPulse(id, at) => id in sys.procs && sys.procs[id].phase.Ready?
    case Accept(id, now) => id in sys.procs
    case Batch(k, chunks, end, now) => CanBatch(w, sys, k, chunks)
    case Respond(result, partial) => CanRespond(w, sys, partial)
    case Hangup => true
    case NetDown => true
    case Finish(t, padMode, udp, pad) => true
  }

  /** What an attempt to send the response does to the connection. */
  function Answered(proc: Proc, frame: seq<byte>, sent: bool, partial: nat): Proc
    requires partial < |frame|
  {
    if sent then proc.(response := proc.response + frame)
    else if partial == 0 then proc
    else proc.(response := proc.response + frame[..partial], cuts := proc.cuts + [partial])
  }

  ghost function Batched(w: Wiring, sys: System, k: nat, chunks: seq<seq<byte>>, end: RecvEnd, now: u64): System
    requires Sound(w.parse) && CanBatch(w, sys, k, chunks)
  {
    var id := sys.server.connection;
    sys.(server := OnEvent(w.parse, sys.server, ClientReadable(chunks, end, now)),
         procs := sys.procs[id := sys.procs[id].(taken := sys.procs[id].taken + k)])
  }

  ghost function Responded(w: Wiring, sys: System, result: SendResult, partial: nat): System
    requires Sound(w.parse) && CanRespond(w, sys, partial)
  {
    var id, sent := sys.server.connection, result == SendResult.Sent;
    var server := OnEvent(w.parse, sys.server, ClientWritable(result));
    if sys.server.client.value.state != WaitingForServerConfirm then sys.(server := server)
    else
      sys.(server := server,
           procs := sys.procs[id := Answered(sys.procs[id], ResponseFrame(w), sent, partial)],
           connected := if sent then sys.connected + {id} else sys.connected)
  }

  function Finished(sys: System, t: Times, padMode: bool, udp: Udp, pad: MainReport): System {
    var e := EndIteration(sys.server, t, padMode, udp, pad);
    sys.(server := e.server, pushes := sys.pushes + if e.push.Some? then [e.push.value] else [])
  }

  ghost function Do(w: Wiring, sys: System, step: SysStep): System
    requires Sound(w.parse) && Enabled(w, sys, step)
  {
    match step
    case Connect(id, port) => sys.(procs := sys.procs[id := NewProc(port)])
    case ReadResponse(id, n) =>
      var proc := sys.procs[id];
      sys.(procs := sys.procs[id := proc.(phase := AfterRead(w, proc.response[..n]))])
    case SendSettings(id, interval) =>
      sys.(procs := sys.procs[id := sys.procs[id].(sent := sys.procs[id].sent + [Settings(interval)])])
    case SendPulse(id, at) =>
      var proc := sys.procs[id];
      sys.(procs := sys.procs[id := proc.(sent := proc.sent + [Pulse], beats := proc.beats + [at])])
    case Accept(id, now) => sys.(server := OnEvent(w.parse, sys.server, ServerReadable(Some(id), now)))
    case Batch(k, chunks, end, now) => Batched(w, sys, k, chunks, end, now)
    case Respond(result, partial) => Responded(w, sys, result, partial)
    case Hangup => sys.(server := OnEvent(w.parse, sys.server, ClientHangup))
    case NetDown => sys.(server := NetworkDown(sys.server))
    case Finish(t, padMode, udp, pad) => Finished(sys, t, padMode, udp, pad)
  }

  // ---------- The invariant ----------

  /** A client that is past its wait without being connected has read a mixture of failed attempts. */
  predicate ProcOk(w: Wiring, proc: Proc, used: bool, connected: bool) {
    && proc.sent != [] && proc.sent[0] == Shake(proc.port)
    && (forall i :: 0 < i < |proc.sent| ==> !proc.sent[i].Shake?)
    && proc.taken <= |proc.sent|
    && (!used ==> proc.taken == 0 && proc.response == [] && !connected)
    && PartWay(ResponseFrame(w), proc.cuts)
    && (!connected ==> proc.response == Wreckage(ResponseFrame(w), proc.cuts))
    && (proc.phase.Ready? ==> connected || Mixes(w, proc.cuts))
  }

  /** The server's view of its client agrees with the client's own history. */
  predicate ViewOk(p: Peer, proc: Proc, writeInterest: Option<bool>, connected: bool) {
    && p.buffer == []
    && (p.state == WaitingForHandshake <==> proc.taken == 0)
    && (proc.taken > 0 ==> p.dataPort == Some(proc.port))
    && (p.state == Connected <==> connected)
    && (p.state != Connected ==> writeInterest == Some(true))
    && proc.taken <= |proc.sent| && p.pollingTime == Interval(proc.sent[..proc.taken])
  }

  predicate ClientOk(sys: System) {
    sys.server.client.Some? ==>
      && sys.server.connection in sys.procs
      && ViewOk(sys.server.client.value, sys.procs[sys.server.connection], sys.server.writeInterest,
                sys.server.connection in sys.connected)
  }

  predicate PushesOk(sys: System) {
    forall i :: 0 <= i < |sys.pushes| ==>
      var id := sys.pushes[i].connection;
      id in sys.procs && id in sys.connected && sys.pushes[i].port == sys.procs[id].port
  }

  ghost predicate Invariant(w: Wiring, sys: System) {
    && Consistent(sys.server)
    && sys.connected <= sys.server.used <= sys.procs.Keys
    && (forall id :: id in sys.procs ==>
          ProcOk(w, sys.procs[id], id in sys.server.used, id in sys.connected))
    && ClientOk(sys)
    && PushesOk(sys)
  }

  lemma StartOk(w: Wiring)
    ensures Invariant(w, START)
  {
  }

  /** One connection's record, and perhaps the server, changed; the rest of the system did not. */
  lemma Reassemble(w: Wiring, sys: System, sys': System, id: nat)
    requires Invariant(w, sys) && id in sys.procs && id in sys'.procs
    requires sys'.procs == sys.procs[id := sys'.procs[id]] && sys'.procs[id].port == sys.procs[id].port
    requires sys'.server.used == sys.server.used && sys'.pushes == sys.pushes
    requires sys.connected <= sys'.connected <= sys.connected + {id} && sys'.connected <= sys.server.used
    requires Consistent(sys'.server) && ClientOk(sys')
    requires ProcOk(w, sys'.procs[id], id in sys'.server.used, id in sys'.connected)
    ensures Invariant(w, sys')
  {
    hide Consistent, ProcOk, ResponseFrame, ClientOk;
    forall other | other in sys'.procs
      ensures ProcOk(w, sys'.procs[other], other in sys'.server.used, other in sys'.connected)
    {
      if other != id { assert other in sys.procs && sys'.procs[other] == sys.procs[other]; }
    }
  }

  /** A client changed its own record, and kept its port and what the server took. */
  lemma ReplaceProc(w: Wiring, sys: System, id: nat, proc: Proc)
    requires Invariant(w, sys) && id in sys.procs
    requires proc.port == sys.procs[id].port && proc.taken == sys.procs[id].taken && sys.procs[id].sent <= proc.sent
    requires ProcOk(w, proc, id in sys.server.used, id in sys.connected)
    ensures Invariant(w, sys.(procs := sys.procs[id := proc]))
  {
    hide Consistent, ProcOk, ResponseFrame, PushesOk;
    if sys.server.client.Some? && sys.server.connection == id {
      assert proc.sent[..proc.taken] == sys.procs[id].sent[..proc.taken];
    }
    hide Interval;
    Reassemble(w, sys, sys.(procs := sys.procs[id := proc]), id);
  }

  lemma Arrives(w: Wiring, sys: System, id: nat, port: u16)
    requires Invariant(w, sys) && id !in sys.procs
    ensures Invariant(w, sys.(procs := sys.procs[id := NewProc(port)]))
  {
    assert ProcOk(w, NewProc(port), id in sys.server.used, id in sys.connected);
    hide Consistent, ProcOk, ResponseFrame;
  }

  lemma ReadOk(w: Wiring, proc: Proc, used: bool, connected: bool, n: nat)
    requires ProcOk(w, proc, used, connected) && n <= |proc.response| && n <= READ_SIZE
    ensures ProcOk(w, proc.(phase := AfterRead(w, proc.response[..n])), used, connected)
  {
    hide AfterRead, Mixes, ResponseFrame, Wreckage, PartWay;
    if !connected && AfterRead(w, proc.response[..n]).Ready? {
      ReadMixes(w, proc.cuts, n);
    }
  }

  lemma ClientStepOk(w: Wiring, sys: System, step: SysStep)
    requires Sound(w.parse) && Invariant(w, sys) && Enabled(w, sys, step)
    requires step.Connect? || step.ReadResponse? || step.SendSettings? || step.SendPulse?
    ensures Invariant(w, Do(w, sys, step))
  {
    hide Consistent, AsBytes, ClientOk, PushesOk, ResponseFrame, WellWired, AfterRead, Mixes, Wreckage, PartWay;
    match step
    case Connect(id, port) =>
      Arrives(w, sys, id, port);
    case ReadResponse(id, n) =>
      var proc := sys.procs[id];
      ReadOk(w, proc, id in sys.server.used, id in sys.connected, n);
      ReplaceProc(w, sys, id, proc.(phase := AfterRead(w, proc.response[..n])));
    case SendSettings(id, interval) =>
      var proc := sys.procs[id];
      ReplaceProc(w, sys, id, proc.(sent := proc.sent + [Settings(interval)]));
    case SendPulse(id, at) =>
      var proc := sys.procs[id];
      ReplaceProc(w, sys, id, proc.(sent := proc.sent + [Pulse], beats := proc.beats + [at]));
  }

  // ---------- The server's steps ----------

  lemma EventOk(parse: Parser, s: Server, ev: NetEvent)
    requires Sound(parse) && Consistent(s)
    ensures var s' := OnEvent(parse, s, ev); Consistent(s') && (!ev.ServerReadable? ==> s'.used == s.used)
  {
    StepConsistent(parse, s, Event(ev));
    hide Consistent, HandleIngoing;
  }

  lemma Accepted(w: Wiring, proc: Proc, connected: bool, now: u64)
    requires ProcOk(w, proc, false, connected)
    ensures ProcOk(w, proc, true, connected) && ViewOk(NewPeer(now), proc, Some(true), connected)
  {
    assert proc.sent[..0] == [];
    hide Mixes, Wreckage, PartWay;
  }

  function WithClient(s: Server, id: nat, now: u64): Server {
    s.(client := Some(NewPeer(now)), connection := id, used := s.used + {id}, writeInterest := Some(true))
  }

  lemma NewClientOk(w: Wiring, sys: System, id: nat, now: u64)
    requires Invariant(w, sys) && id in sys.procs && id !in sys.server.used && Consistent(WithClient(sys.server, id, now))
    ensures Invariant(w, sys.(server := WithClient(sys.server, id, now)))
  {
    Accepted(w, sys.procs[id], id in sys.connected, now);
    hide Consistent, ResponseFrame, PushesOk, ProcOk, ViewOk;
    forall other | other in sys.procs
      ensures ProcOk(w, sys.procs[other], other in sys.server.used + {id}, other in sys.connected)
    {
      if other != id { assert other in sys.server.used + {id} <==> other in sys.server.used; }
    }
  }

  lemma AcceptOk(w: Wiring, sys: System, id: nat, now: u64)
    requires Sound(w.parse) && Invariant(w, sys) && id in sys.procs
    ensures Invariant(w, sys.(server := OnEvent(w.parse, sys.server, ServerReadable(Some(id), now))))
  {
    EventOk(w.parse, sys.server, ServerReadable(Some(id), now));
    var server := OnEvent(w.parse, sys.server, ServerReadable(Some(id), now));
    assert server == sys.server || (id !in sys.server.used && server == WithClient(sys.server, id, now));
    hide OnEvent, Consistent, ClientOk, PushesOk, ProcOk, ResponseFrame, WithClient;
    if server == sys.server {
      assert sys.(server := server) == sys;
    } else {
      NewClientOk(w, sys, id, now);
    }
  }

  lemma DropOk(w: Wiring, sys: System, server: Server)
    requires Invariant(w, sys) && Consistent(server) && server.client.None? && server.used == sys.server.used
    ensures Invariant(w, sys.(server := server))
  {
    hide Consistent, ProcOk, ResponseFrame, ViewOk;
  }

  /** A batch of whole messages: the first brings the handshake, the others leave the session alone. */
  lemma BatchEffect(proc: Proc, p: Peer, k: nat, now: u64)
    requires proc.sent != [] && proc.sent[0] == Shake(proc.port) && proc.taken + k <= |proc.sent|
    requires forall i :: 0 < i < |proc.sent| ==> !proc.sent[i].Shake?
    ensures var p' := AbsorbAll(p, proc.sent[proc.taken..proc.taken + k], now);
      && p'.buffer == p.buffer
      && (if proc.taken == 0 < k then p'.state == WaitingForServerConfirm && p'.dataPort == Some(proc.port)
          else p'.state == p.state && p'.dataPort == p.dataPort)
  {
    var ms := proc.sent[proc.taken..proc.taken + k];
    if proc.taken == 0 && k > 0 {
      assert ms[0] == proc.sent[0] && ms[1..] == proc.sent[1..k];
      AbsorbQuiet(Absorb(p, ms[0], now), ms[1..], now);
    } else {
      AbsorbQuiet(p, ms, now);
    }
  }

  lemma BatchView(p: Peer, proc: Proc, writeInterest: Option<bool>, connected: bool, k: nat, now: u64)
    requires ViewOk(p, proc, writeInterest, connected)
    requires proc.sent != [] && proc.sent[0] == Shake(proc.port) && proc.taken + k <= |proc.sent|
    requires forall i :: 0 < i < |proc.sent| ==> !proc.sent[i].Shake?
    ensures ViewOk(AbsorbAll(p, proc.sent[proc.taken..proc.taken + k], now), proc.(taken := proc.taken + k),
                   writeInterest, connected)
  {
    hide AbsorbAll, Interval;
    BatchEffect(proc, p, k, now);
    AbsorbInterval(p, proc.sent[..proc.taken], proc.sent[proc.taken..proc.taken + k], now);
    TakenFurther(proc.sent, proc.taken, k);
  }

  lemma TakenFurther(sent: seq<Sent>, taken: nat, k: nat)
    requires taken + k <= |sent|
    ensures sent[..taken] + sent[taken..taken + k] == sent[..taken + k]
  {
  }

  lemma BatchClientOk(w: Wiring, sys: System, k: nat, chunks: seq<seq<byte>>, end: RecvEnd, now: u64)
    requires WellWired(w) && Invariant(w, sys) && CanBatch(w, sys, k, chunks)
    ensures ClientOk(Batched(w, sys, k, chunks, end, now))
  {
    hide AsBytes, ResponseFrame, WellWired, HandleIngoing, AbsorbAll, PushesOk, ViewOk;
    var proc, p := sys.procs[sys.server.connection], sys.server.client.value;
    BatchView(p, proc, sys.server.writeInterest, sys.server.connection in sys.connected, k, now);
    ViewBuffer(p, proc, sys.server.writeInterest, sys.server.connection in sys.connected);
    IngoingAligned(w, p, chunks, proc.sent[proc.taken..proc.taken + k], end, now);
  }

  lemma ViewBuffer(p: Peer, proc: Proc, writeInterest: Option<bool>, connected: bool)
    requires ViewOk(p, proc, writeInterest, connected)
    ensures p.buffer == []
  {
  }

  lemma TakenOk(w: Wiring, proc: Proc, k: nat, connected: bool)
    requires ProcOk(w, proc, true, connected) && proc.taken + k <= |proc.sent|
    ensures ProcOk(w, proc.(taken := proc.taken + k), true, connected)
  {
    hide Mixes, Wreckage, PartWay;
  }

  lemma BatchOk(w: Wiring, sys: System, k: nat, chunks: seq<seq<byte>>, end: RecvEnd, now: u64)
    requires Sound(w.parse) && Invariant(w, sys) && CanBatch(w, sys, k, chunks)
    requires ClientOk(Batched(w, sys, k, chunks, end, now))
    ensures Invariant(w, Batched(w, sys, k, chunks, end, now))
  {
    EventOk(w.parse, sys.server, ClientReadable(chunks, end, now));
    var id := sys.server.connection;
    assert id in sys.server.used;
    TakenOk(w, sys.procs[id], k, id in sys.connected);
    hide AsBytes, ResponseFrame, Sound, OnEvent, PushesOk, ClientOk, Consistent, ProcOk;
    Reassemble(w, sys, Batched(w, sys, k, chunks, end, now), id);
  }

  lemma RespondClientOk(w: Wiring, sys: System, result: SendResult, partial: nat)
    requires Sound(w.parse) && Invariant(w, sys) && CanRespond(w, sys, partial)
    ensures ClientOk(Responded(w, sys, result, partial))
  {
    hide ResponseFrame, WellWired, PushesOk, ProcOk, Interval;
  }

  lemma RespondProcOk(w: Wiring, proc: Proc, sent: bool, partial: nat, used: bool, connected: bool)
    requires ProcOk(w, proc, used, connected) && used && partial < |ResponseFrame(w)|
    ensures var proc' := Answered(proc, ResponseFrame(w), sent, partial);
      ProcOk(w, proc', used, connected || sent) && proc'.port == proc.port
  {
    hide Mixes, ResponseFrame, Wreckage;
    if !sent && partial > 0 {
      WreckageSnoc(ResponseFrame(w), proc.cuts, partial);
      if Mixes(w, proc.cuts) {
        MixesStays(w, proc.cuts, partial);
      }
    }
  }

  lemma RespondOk(w: Wiring, sys: System, result: SendResult, partial: nat)
    requires Sound(w.parse) && Invariant(w, sys) && CanRespond(w, sys, partial)
    ensures Invariant(w, Responded(w, sys, result, partial))
  {
    EventOk(w.parse, sys.server, ClientWritable(result));
    RespondClientOk(w, sys, result, partial);
    var id := sys.server.connection;
    var sys' := Responded(w, sys, result, partial);
    if sys.server.client.value.state != WaitingForServerConfirm {
      assert sys' == sys;
    } else {
      RespondProcOk(w, sys.procs[id], result == SendResult.Sent, partial, true, id in sys.connected);
      assert id in sys.server.used;
      hide AsBytes, ResponseFrame, PushesOk, Consistent, ProcOk, ClientOk, Answered, Sound, OnEvent;
      Reassemble(w, sys, sys', id);
    }
  }

  lemma EndEffect(s: Server, t: Times, padMode: bool, udp: Udp, pad: MainReport)
    ensures var e := EndIteration(s, t, padMode, udp, pad);
      && e.server.used == s.used
      && (e.server.client.Some? ==>
            && s.client.Some? && e.server.connection == s.connection && e.server.writeInterest == s.writeInterest
            && e.server.client.value == s.client.value.(sentAt := e.server.client.value.sentAt))
      && (e.push.Some? ==>
            && s.client.Some? && s.client.value.state == Connected && e.push.value.connection == s.connection
            && e.push.value.interval == s.client.value.pollingTime && e.push.value.report == pad
            && (s.client.value.dataPort == Some(e.push.value.port) || s.client.value.dataPort.None?))
  {
    hide Expired, RemainingPollingTime, IsPollingTimeElapsed;
  }

  lemma PushOk(w: Wiring, sys: System, push: Push)
    requires Invariant(w, sys) && push.connection in sys.procs && push.connection in sys.connected
    requires push.port == sys.procs[push.connection].port
    ensures Invariant(w, sys.(pushes := sys.pushes + [push]))
  {
    hide Consistent, ProcOk, ResponseFrame;
  }

  lemma FinishClientOk(sys: System, t: Times, padMode: bool, udp: Udp, pad: MainReport)
    requires ClientOk(sys)
    ensures ClientOk(sys.(server := EndIteration(sys.server, t, padMode, udp, pad).server))
  {
    EndEffect(sys.server, t, padMode, udp, pad);
    hide EndIteration, Interval;
  }

  lemma FinishOk(w: Wiring, sys: System, t: Times, padMode: bool, udp: Udp, pad: MainReport)
    requires Sound(w.parse) && Invariant(w, sys)
    ensures Invariant(w, Finished(sys, t, padMode, udp, pad))
  {
    var e := EndIteration(sys.server, t, padMode, udp, pad);
    StepConsistent(w.parse, sys.server, End(t, padMode, udp, pad));
    EndEffect(sys.server, t, padMode, udp, pad);
    FinishClientOk(sys, t, padMode, udp, pad);
    if sys.server.client.Some? { PushTarget(w, sys); }
    hide EndIteration, ResponseFrame, WellWired, ProcOk, PushesOk, ClientOk, Consistent;
    var sys' := sys.(server := e.server);
    if e.server.client.None? {
      DropOk(w, sys, e.server);
    } else {
      var id := sys.server.connection;
      assert sys.procs[id := sys.procs[id]] == sys.procs;
      Reassemble(w, sys, sys', id);
    }
    if e.push.Some? {
      PushOk(w, sys', e.push.value);
    } else {
      assert sys.pushes + [] == sys.pushes;
    }
  }

  /** Where a connected client's pads go. */
  lemma PushTarget(w: Wiring, sys: System)
    requires Invariant(w, sys) && sys.server.client.Some?
    ensures var id := sys.server.connection;
      && id in sys.procs
      && (sys.server.client.value.state == Connected ==>
            id in sys.connected && sys.server.client.value.dataPort == Some(sys.procs[id].port))
  {
    hide ProcOk, PushesOk, ResponseFrame, Interval;
  }

  // ---------- Safety of every run ----------

  /** A run from the start: its states and the steps between them. */
  ghost predicate IsRun(w: Wiring, states: seq<System>, steps: seq<SysStep>)
    requires Sound(w.parse)
  {
    && |states| == |steps| + 1 && states[0] == START
    && forall i :: 0 <= i < |steps| ==> Enabled(w, states[i], steps[i]) && states[i + 1] == Do(w, states[i], steps[i])
  }

  lemma StepOk(w: Wiring, sys: System, step: SysStep)
    requires WellWired(w) && Invariant(w, sys) && Enabled(w, sys, step)
    ensures Invariant(w, Do(w, sys, step))
  {
    assert Sound(w.parse);
    hide WellWired, ClientOk, Consistent, PushesOk, ProcOk, AsBytes, ResponseFrame, HandleIngoing, EndIteration;
    match step
    case Accept(id, now) => AcceptOk(w, sys, id, now);
    case Batch(k, chunks, end, now) =>
      BatchClientOk(w, sys, k, chunks, end, now);
      BatchOk(w, sys, k, chunks, end, now);
    case Respond(result, partial) => RespondOk(w, sys, result, partial);
    case Hangup => DropOk(w, sys, Disconnect(sys.server));
    case NetDown => DropOk(w, sys, NetworkDown(sys.server));
    case Finish(t, padMode, udp, pad) => FinishOk(w, sys, t, padMode, udp, pad);
    case _ => ClientStepOk(w, sys, step);
  }

  lemma {:induction false} AlwaysOk(w: Wiring, states: seq<System>, steps: seq<SysStep>, n: nat)
    requires WellWired(w) && IsRun(w, states, steps) && n < |states|
    ensures Invariant(w, states[n])
  {
    hide Invariant, Do, Enabled;
    if n == 0 {
      StartOk(w);
    } else {
      AlwaysOk(w, states, steps, n - 1);
      StepOk(w, states[n - 1], steps[n - 1]);
      assert states[(n - 1) + 1] == Do(w, states[n - 1], steps[n - 1]);
    }
  }

  /** In every run of any number of clients: a client is past its handshake wait only if the server reached
      Connected for that very connection, or failed attempts to answer it mixed to a handshake; attempts that
      together wrote less than a response cannot. And every pad pushed to a connection went to the port its
      client announced, after the connection was established. */
  lemma SessionSafety(w: Wiring, states: seq<System>, steps: seq<SysStep>, n: nat)
    requires WellWired(w) && IsRun(w, states, steps) && n < |states|
    ensures forall id :: id in states[n].procs && states[n].procs[id].phase.Ready? && id !in states[n].connected ==>
              var frame, cuts := ResponseFrame(w), states[n].procs[id].cuts;
              PartWay(frame, cuts) && Mixes(w, cuts) && (|frame| <= READ_SIZE ==> |Wreckage(frame, cuts)| >= |frame|)
    ensures forall push :: push in states[n].pushes ==>
              && push.connection in states[n].procs && push.connection in states[n].connected
              && push.port == states[n].procs[push.connection].port
  {
    hide IsRun, Mixes, Wreckage, PartWay;
    AlwaysOk(w, states, steps, n);
    hide Consistent, ClientOk;
    forall id | id in states[n].procs && states[n].procs[id].phase.Ready? && id !in states[n].connected
      ensures var frame, cuts := ResponseFrame(w), states[n].procs[id].cuts;
        PartWay(frame, cuts) && Mixes(w, cuts) && (|frame| <= READ_SIZE ==> |Wreckage(frame, cuts)| >= |frame|)
    {
      var frame, cuts := ResponseFrame(w), states[n].procs[id].cuts;
      assert ProcOk(w, states[n].procs[id], id in states[n].server.used, id in states[n].connected);
      if |frame| <= READ_SIZE && |Wreckage(frame, cuts)| < |frame| {
        LittleDoesNotMix(w, cuts);
      }
    }
  }

  function Rank(state: State): nat {
    match state
    case WaitingForHandshake => 0
    case WaitingForServerConfirm => 1
    case Connected => 2
  }

  lemma BatchForward(w: Wiring, sys: System, k: nat, chunks: seq<seq<byte>>, end: RecvEnd, now: u64)
    requires WellWired(w) && Invariant(w, sys) && CanBatch(w, sys, k, chunks)
    ensures var s, s' := sys.server, Batched(w, sys, k, chunks, end, now).server;
      s'.client.Some? ==> Rank(s.client.value.state) <= Rank(s'.client.value.state)
  {
    hide HandleIngoing, Consistent, PushesOk, WellWired, ResponseFrame, AsBytes, AbsorbAll;
    var proc, p := sys.procs[sys.server.connection], sys.server.client.value;
    IngoingAligned(w, p, chunks, proc.sent[proc.taken..proc.taken + k], end, now);
    BatchEffect(proc, p, k, now);
  }

  // ---------- The server's part of a run, and the pace of pads ----------

  function ServerStep(step: SysStep): Option<Step> {
    match step
    case Accept(id, now) => Some(Event(ServerReadable(Some(id), now)))
    case Batch(k, chunks, end, now) => Some(Event(ClientReadable(chunks, end, now)))
    case Respond(result, partial) => Some(Event(ClientWritable(result)))
    case Hangup => Some(Event(ClientHangup))
    case NetDown => Some(Down)
    case Finish(t, padMode, udp, pad) => Some(End(t, padMode, udp, pad))
    case _ => None
  }

  function ServerSteps(steps: seq<SysStep>): seq<Step> {
    if steps == [] then []
    else
      ServerSteps(steps[..|steps| - 1]) +
      match ServerStep(steps[|steps| - 1])
      case None => []
      case Some(s) => [s]
  }

  lemma StepIsServerStep(w: Wiring, sys: System, step: SysStep)
    requires Sound(w.parse) && Enabled(w, sys, step)
    ensures var sys', s := Do(w, sys, step), ServerStep(step);
      if s.None? then sys'.server == sys.server && sys'.pushes == sys.pushes
      else
        var e := Advance(w.parse, sys.server, s.value);
        sys'.server == e.server && sys'.pushes == sys.pushes + if e.push.Some? then [e.push.value] else []
  {
    hide OnEvent, EndIteration, Sound, Answered;
    assert sys.pushes + [] == sys.pushes;
  }

  /** Of the server's own steps only a batch can bring a message that changes the state. */
  lemma AdvanceForward(parse: Parser, s: Server, step: Step)
    requires Sound(parse) && !(step.Event? && step.event.ClientReadable?)
    ensures var s' := Advance(parse, s, step).server;
      s.client.Some? && s'.client.Some? && s'.connection == s.connection ==>
        Rank(s.client.value.state) <= Rank(s'.client.value.state)
  {
    if step.End? {
      EndEffect(s, step.times, step.padMode, step.udp, step.pad);
    }
    hide EndIteration, HandleIngoing;
  }

  lemma StepForward(w: Wiring, sys: System, step: SysStep)
    requires WellWired(w) && Invariant(w, sys) && Enabled(w, sys, step)
    ensures var s, s' := sys.server, Do(w, sys, step).server;
      s.client.Some? && s'.client.Some? && s'.connection == s.connection ==>
        Rank(s.client.value.state) <= Rank(s'.client.value.state)
  {
    if step.Batch? {
      BatchForward(w, sys, step.k, step.chunks, step.end, step.now);
    } else {
      assert Sound(w.parse);
      StepIsServerStep(w, sys, step);
      hide Do, Enabled, Advance, Invariant, Sound, WellWired;
      if ServerStep(step).Some? {
        AdvanceForward(w.parse, sys.server, ServerStep(step).value);
      }
    }
  }

  /** While a connection lasts, its state never goes back. */
  lemma NeverRegresses(w: Wiring, states: seq<System>, steps: seq<SysStep>, n: nat)
    requires WellWired(w) && IsRun(w, states, steps) && n < |steps|
    ensures var s, s' := states[n].server, states[n + 1].server;
      s.client.Some? && s'.client.Some? && s'.connection == s.connection ==>
        Rank(s.client.value.state) <= Rank(s'.client.value.state)
  {
    AlwaysOk(w, states, steps, n);
    StepForward(w, states[n], steps[n]);
  }

  /** Seen from the server, a run of the system is a run of its loop. */
  lemma {:induction false} ServerRuns(w: Wiring, states: seq<System>, steps: seq<SysStep>, n: nat)
    requires Sound(w.parse) && IsRun(w, states, steps) && n < |states|
    ensures RunAll(w.parse, ServerSteps(steps[..n])) == Run(states[n].server, states[n].pushes)
  {
    if n > 0 {
      ServerRuns(w, states, steps, n - 1);
      var sys, step, before := states[n - 1], steps[n - 1], ServerSteps(steps[..n - 1]);
      assert states[(n - 1) + 1] == Do(w, sys, step) && Enabled(w, sys, step);
      assert steps[..n][..n - 1] == steps[..n - 1];
      StepIsServerStep(w, sys, step);
      hide Do, Enabled, Advance, Sound;
      if ServerStep(step).None? {
        assert before + [] == before;
      } else {
        assert (before + [ServerStep(step).value])[..|before|] == before;
      }
    }
  }

  /** The interval the server has in force for its client is the one the client asked for. */
  lemma IntervalInForce(w: Wiring, sys: System)
    requires Invariant(w, sys) && sys.server.client.Some?
    ensures sys.server.connection in sys.procs
    ensures var proc := sys.procs[sys.server.connection];
      proc.taken <= |proc.sent| && sys.server.client.value.pollingTime == Interval(proc.sent[..proc.taken])
  {
    hide Consistent, ProcOk, PushesOk, Interval;
  }

  lemma ParserIsSound(w: Wiring)
    requires WellWired(w)
    ensures Sound(w.parse)
  {
  }

  lemma RunStep(w: Wiring, states: seq<System>, steps: seq<SysStep>, n: nat)
    requires Sound(w.parse) && IsRun(w, states, steps) && n < |steps|
    ensures |states| == |steps| + 1
    ensures Enabled(w, states[n], steps[n]) && states[n + 1] == Do(w, states[n], steps[n])
  {
  }

  lemma ServerStepsSnoc(steps: seq<SysStep>, n: nat)
    requires n < |steps|
    ensures var s := ServerStep(steps[n]);
      ServerSteps(steps[..n + 1]) == ServerSteps(steps[..n]) + if s.Some? then [s.value] else []
  {
    assert steps[..n + 1][..n] == steps[..n] && steps[..n + 1][n] == steps[n];
  }

  lemma Pushes(w: Wiring, sys: System, step: SysStep) returns (push: Push)
    requires Sound(w.parse) && Enabled(w, sys, step) && Do(w, sys, step).pushes != sys.pushes
    ensures Do(w, sys, step).pushes == sys.pushes + [push]
    ensures ServerStep(step).Some? && Advance(w.parse, sys.server, ServerStep(step).value).push == Some(push)
  {
    StepIsServerStep(w, sys, step);
    assert sys.pushes + [] == sys.pushes;
    hide Sound, Enabled, Do, Advance, ServerStep;
    push := Advance(w.parse, sys.server, ServerStep(step).value).push.value;
  }

  lemma PushPaced(w: Wiring, sys: System, earlier: seq<Step>, s: Step, push: Push)
    requires Sound(w.parse) && Invariant(w, sys) && RunAll(w.parse, earlier) == Run(sys.server, sys.pushes)
    requires Monotone(earlier + [s]) && Advance(w.parse, sys.server, s).push == Some(push)
    ensures push.connection in sys.procs
    ensures var proc, before := sys.procs[push.connection], PushesTo(sys.pushes, push.connection);
      && proc.taken <= |proc.sent|
      && (before != [] ==> push.at - before[|before| - 1].at > Interval(proc.sent[..proc.taken]))
  {
    hide *;
    NextPushWaits(w.parse, earlier, s);
    IntervalInForce(w, sys);
  }

  /** Settings take effect: in every run with a clock that does not go back, a pad is pushed to a client only
      after more than the interval of the last settings the server took from it, or of 6000 microseconds if
      it took none above that, has passed since the pad before. */
  lemma SettingsSlowPads(w: Wiring, states: seq<System>, steps: seq<SysStep>, n: nat) returns (push: Push)
    requires WellWired(w) && IsRun(w, states, steps) && n < |steps| && Monotone(ServerSteps(steps[..n + 1]))
    requires states[n + 1].pushes != states[n].pushes
    ensures states[n + 1].pushes == states[n].pushes + [push]
    ensures push.connection in states[n].procs
    ensures var proc, before := states[n].procs[push.connection], PushesTo(states[n].pushes, push.connection);
      && proc.taken <= |proc.sent|
      && (before != [] ==> push.at - before[|before| - 1].at > Interval(proc.sent[..proc.taken]))
  {
    hide *;
    ParserIsSound(w);
    RunStep(w, states, steps, n);
    var sys, step := states[n], steps[n];
    ServerStepsSnoc(steps, n);
    push := Pushes(w, sys, step);
    AlwaysOk(w, states, steps, n);
    ServerRuns(w, states, steps, n);
    PushPaced(w, sys, ServerSteps(steps[..n]), ServerStep(step).value, push);
  }
}
