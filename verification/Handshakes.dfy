/** Runs that set up a session: one that completes, and the ones in which failed answers mislead a client. */
module Handshakes {
  import opened Bytes
  import opened Reports
  import Framing
  import opened Peers
  import opened Net
  import opened Wires
  import opened Mixtures
  import opened Sessions

  function HandshakeStep(w: Wiring, id: nat, port: u16, now: u64, i: nat): SysStep {
    if i == 0 then Connect(id, port)
    else if i == 1 then Accept(id, now)
    else if i == 2 then Batch(1, [AsBytes(w.encoder, [Shake(port)])], WouldBlock, now)
    else if i == 3 then Respond(SendResult.Sent, 0)
    else ReadResponse(id, |ResponseFrame(w)|)
  }

  /** The system after the first i steps of a handshake. */
  function HandshakeState(w: Wiring, id: nat, port: u16, now: u64, freq: u32, i: nat): System {
    var p := NewPeer(now).(
      state := if i < 3 then WaitingForHandshake else if i == 3 then WaitingForServerConfirm else Connected,
      dataPort := if i < 3 then None else Some(port));
    var server := INITIAL.(client := Some(p), connection := id, used := {id}, writeInterest := Some(i < 4));
    var proc := Proc(port, if i < 5 then AwaitingResponse else Ready(freq), [Shake(port)],
                     if i < 3 then 0 else 1, if i < 4 then [] else ResponseFrame(w), [], []);
    if i == 0 then START
    else System(if i == 1 then INITIAL else server, map[id := proc], if i < 4 then {} else {id}, [])
  }

  function HandshakeStates(w: Wiring, id: nat, port: u16, now: u64, freq: u32): (states: seq<System>)
    ensures |states| == 6
  {
    seq(6, i requires 0 <= i => HandshakeState(w, id, port, now, freq, i))
  }

  function HandshakeSteps(w: Wiring, id: nat, port: u16, now: u64): (steps: seq<SysStep>)
    ensures |steps| == 5
  {
    seq(5, i requires 0 <= i => HandshakeStep(w, id, port, now, i))
  }

  /** Step i is possible and leads to the next state. */
  ghost predicate Advances(w: Wiring, id: nat, port: u16, now: u64, freq: u32, i: nat)
    requires Sound(w.parse)
  {
    var sys, step := HandshakeState(w, id, port, now, freq, i), HandshakeStep(w, id, port, now, i);
    Enabled(w, sys, step) && Do(w, sys, step) == HandshakeState(w, id, port, now, freq, i + 1)
  }

  lemma ClientArrives(w: Wiring, id: nat, port: u16, now: u64, freq: u32)
    requires WellWired(w)
    ensures Advances(w, id, port, now, freq, 0) && Advances(w, id, port, now, freq, 1)
  {
    hide WellWired, AsBytes, ResponseFrame;
  }

  lemma ServerHears(w: Wiring, id: nat, port: u16, now: u64, freq: u32)
    requires WellWired(w) && |AsBytes(w.encoder, [Shake(port)])| <= MAX_BUFFER_ACCEPTABLE_SIZE
    ensures Advances(w, id, port, now, freq, 2)
  {
    FirstBatch(w, port, now);
    OneChunk(AsBytes(w.encoder, [Shake(port)]));
    assert [Shake(port)][0..1] == [Shake(port)];
    hide WellWired, HandleIngoing, AsBytes, ResponseFrame;
  }

  lemma ServerAnswers(w: Wiring, id: nat, port: u16, now: u64, freq: u32)
    requires WellWired(w)
    ensures Advances(w, id, port, now, freq, 3)
  {
    var F := ResponseFrame(w);
    assert [] + F == F && |F| > 0;
    hide WellWired, AsBytes, ResponseFrame;
  }

  lemma ClientReads(w: Wiring, id: nat, port: u16, now: u64, h: Handshake)
    requires WellWired(w) && w.codec(w.response) == Framing.Content(HandshakeResponseReceived(h))
    requires |ResponseFrame(w)| <= READ_SIZE
    ensures Advances(w, id, port, now, h.heartbeatFreq, 4)
  {
    ResponsePasses(w, h);
    var F := ResponseFrame(w);
    assert F[..|F|] == F;
    hide WellWired, AfterRead, AsBytes, ResponseFrame;
  }

  lemma HandshakeEnds(w: Wiring, id: nat, port: u16, now: u64, freq: u32)
    ensures HandshakeState(w, id, port, now, freq, 0) == START
    ensures var last := HandshakeState(w, id, port, now, freq, 5);
      && id in last.procs && last.procs[id].phase == Ready(freq)
      && last.server.client.Some? && last.server.connection == id
      && last.server.client.value.state == Connected && last.server.client.value.dataPort == Some(port)
  {
  }

  /** The handshake completes: from the start, five steps bring any client with any port to its main loop,
      with the server connected and the client's port as the target of its pads. */
  lemma HandshakeCompletes(w: Wiring, id: nat, port: u16, now: u64, h: Handshake)
    requires WellWired(w) && w.codec(w.response) == Framing.Content(HandshakeResponseReceived(h))
    requires |ResponseFrame(w)| <= READ_SIZE && |AsBytes(w.encoder, [Shake(port)])| <= MAX_BUFFER_ACCEPTABLE_SIZE
    ensures IsRun(w, HandshakeStates(w, id, port, now, h.heartbeatFreq), HandshakeSteps(w, id, port, now))
    ensures var last := HandshakeState(w, id, port, now, h.heartbeatFreq, 5);
      && id in last.procs && last.procs[id].phase == Ready(h.heartbeatFreq)
      && last.server.client.Some? && last.server.connection == id
      && last.server.client.value.state == Connected && last.server.client.value.dataPort == Some(port)
  {
    assert Sound(w.parse);
    hide WellWired, HandshakeState, HandshakeStep, Enabled, Do, AsBytes, ResponseFrame;
    ClientArrives(w, id, port, now, h.heartbeatFreq);
    ServerHears(w, id, port, now, h.heartbeatFreq);
    ServerAnswers(w, id, port, now, h.heartbeatFreq);
    ClientReads(w, id, port, now, h);
    HandshakeEnds(w, id, port, now, h.heartbeatFreq);
    var states, steps := HandshakeStates(w, id, port, now, h.heartbeatFreq), HandshakeSteps(w, id, port, now);
    forall i | 0 <= i < |steps|
      ensures Enabled(w, states[i], steps[i]) && states[i + 1] == Do(w, states[i], steps[i])
    {
      assert Advances(w, id, port, now, h.heartbeatFreq, i);
    }
  }

  lemma OneChunk(bytes: seq<byte>)
    ensures Concat([bytes]) == bytes
  {
  }

  lemma FirstBatch(w: Wiring, port: u16, now: u64)
    requires WellWired(w) && |AsBytes(w.encoder, [Shake(port)])| <= MAX_BUFFER_ACCEPTABLE_SIZE
    ensures HandleIngoing(w.parse, NewPeer(now), [AsBytes(w.encoder, [Shake(port)])], WouldBlock, now)
         == Kept(NewPeer(now).(state := WaitingForServerConfirm, dataPort := Some(port)))
  {
    var bytes := AsBytes(w.encoder, [Shake(port)]);
    var one: seq<seq<byte>> := [bytes];
    OneChunk(bytes);
    IngoingAligned(w, NewPeer(now), one, [Shake(port)], WouldBlock, now);
    hide WellWired, AsBytes, Drain;
    assert one[1..] == [];
    assert Receive(AddToBuffer(NewPeer(now), bytes).peer, one[1..]).done;
    var ms := [Shake(port)];
    assert ms[1..] == [];
    assert AbsorbAll(NewPeer(now), ms, now) == AbsorbAll(Absorb(NewPeer(now), ms[0], now), ms[1..], now);
  }

  // ---------- Runs that fail ----------

  lemma RunExtends(w: Wiring, states: seq<System>, steps: seq<SysStep>, step: SysStep)
    requires Sound(w.parse) && IsRun(w, states, steps) && Enabled(w, states[|steps|], step)
    ensures IsRun(w, states + [Do(w, states[|steps|], step)], steps + [step])
  {
    hide Do, Enabled, Sound;
    var all, done := states + [Do(w, states[|steps|], step)], steps + [step];
    forall i | 0 <= i < |done| ensures Enabled(w, all[i], done[i]) && all[i + 1] == Do(w, all[i], done[i]) {
      if i < |steps| { assert states[i + 1] == Do(w, states[i], steps[i]); }
    }
  }

  /** The client waits, the server holds its handshake, and some attempts to answer were cut off. */
  function Unanswered(w: Wiring, id: nat, port: u16, now: u64, cuts: seq<nat>): System
    requires PartWay(ResponseFrame(w), cuts)
  {
    var sys := HandshakeState(w, id, port, now, 0, 3);
    sys.(procs := map[id := NewProc(port).(taken := 1, response := Wreckage(ResponseFrame(w), cuts), cuts := cuts)])
  }

  lemma Reaches(w: Wiring, id: nat, port: u16, now: u64) returns (states: seq<System>, steps: seq<SysStep>)
    requires WellWired(w) && |AsBytes(w.encoder, [Shake(port)])| <= MAX_BUFFER_ACCEPTABLE_SIZE
    ensures IsRun(w, states, steps) && states[|steps|] == Unanswered(w, id, port, now, [])
  {
    assert Sound(w.parse);
    ClientArrives(w, id, port, now, 0);
    ServerHears(w, id, port, now, 0);
    HandshakeEnds(w, id, port, now, 0);
    assert Unanswered(w, id, port, now, []) == HandshakeState(w, id, port, now, 0, 3);
    hide HandshakeState, HandshakeStep, Do, Enabled, WellWired, Unanswered, AsBytes, ResponseFrame, Sound;
    states, steps := [START], [];
    assert Advances(w, id, port, now, 0, 0) && Advances(w, id, port, now, 0, 1) && Advances(w, id, port, now, 0, 2);
    hide *;
    states, steps := OneMore(w, states, steps, HandshakeStep(w, id, port, now, 0));
    states, steps := OneMore(w, states, steps, HandshakeStep(w, id, port, now, 1));
    states, steps := OneMore(w, states, steps, HandshakeStep(w, id, port, now, 2));
  }

  lemma AttemptFails(w: Wiring, id: nat, port: u16, now: u64, cuts: seq<nat>, c: nat)
    requires Sound(w.parse) && PartWay(ResponseFrame(w), cuts) && 0 < c < |ResponseFrame(w)|
    ensures PartWay(ResponseFrame(w), cuts + [c])
    ensures var sys, step := Unanswered(w, id, port, now, cuts), Respond(SendResult.SendError, c);
      Enabled(w, sys, step) && Do(w, sys, step) == Unanswered(w, id, port, now, cuts + [c])
  {
    WreckageSnoc(ResponseFrame(w), cuts, c);
    hide Wreckage, ResponseFrame, Sound;
  }

  /** However often answers are cut off, and wherever, there is a run in which that happens. */
  lemma {:induction false} AttemptsFail(w: Wiring, id: nat, port: u16, now: u64, cuts: seq<nat>)
    returns (states: seq<System>, steps: seq<SysStep>)
    requires WellWired(w) && PartWay(ResponseFrame(w), cuts)
    requires |AsBytes(w.encoder, [Shake(port)])| <= MAX_BUFFER_ACCEPTABLE_SIZE
    ensures IsRun(w, states, steps) && states[|steps|] == Unanswered(w, id, port, now, cuts)
    decreases |cuts|
  {
    hide *;
    ParserIsSound(w);
    if cuts == [] {
      states, steps := Reaches(w, id, port, now);
    } else {
      var init, c := cuts[..|cuts| - 1], cuts[|cuts| - 1];
      PartWayInit(ResponseFrame(w), cuts);
      states, steps := AttemptsFail(w, id, port, now, init);
      AttemptFails(w, id, port, now, init, c);
      states, steps := OneMore(w, states, steps, Respond(SendResult.SendError, c));
    }
  }

  lemma PartWayInit(frame: seq<byte>, cuts: seq<nat>)
    requires PartWay(frame, cuts) && cuts != []
    ensures PartWay(frame, cuts[..|cuts| - 1]) && 0 < cuts[|cuts| - 1] < |frame|
    ensures cuts[..|cuts| - 1] + [cuts[|cuts| - 1]] == cuts
  {
  }

  lemma OneMore(w: Wiring, states: seq<System>, steps: seq<SysStep>, step: SysStep)
    returns (states': seq<System>, steps': seq<SysStep>)
    requires Sound(w.parse) && IsRun(w, states, steps) && Enabled(w, states[|steps|], step)
    ensures IsRun(w, states', steps') && states'[|steps'|] == Do(w, states[|steps|], step)
  {
    assert |states| == |steps| + 1;
    hide *;
    RunExtends(w, states, steps, step);
    states', steps' := states + [Do(w, states[|steps|], step)], steps + [step];
  }

  lemma ReadsMixture(w: Wiring, id: nat, port: u16, now: u64, cuts: seq<nat>, n: nat)
    requires Sound(w.parse) && PartWay(ResponseFrame(w), cuts) && PassesOn(w, Wreckage(ResponseFrame(w), cuts), n)
    ensures var sys := Unanswered(w, id, port, now, cuts);
      Enabled(w, sys, ReadResponse(id, n)) && !PassedAreConnected(Do(w, sys, ReadResponse(id, n)))
  {
    hide AfterRead, Wreckage, ResponseFrame, Sound;
    var sys' := Do(w, Unanswered(w, id, port, now, cuts), ReadResponse(id, n));
    assert id in sys'.procs && sys'.procs[id].phase.Ready? && id !in sys'.connected;
  }

  /** Every client that is past its handshake wait is connected. */
  predicate PassedAreConnected(sys: System) {
    forall id :: id in sys.procs && sys.procs[id].phase.Ready? ==> id in sys.connected
  }

  ghost predicate SafeRuns(w: Wiring)
    requires Sound(w.parse)
  {
    forall states, steps, n :: IsRun(w, states, steps) && 0 <= n < |states| ==> PassedAreConnected(states[n])
  }

  ghost predicate NothingMixes(w: Wiring) {
    forall cuts :: PartWay(ResponseFrame(w), cuts) ==> !Mixes(w, cuts)
  }

  /** For any cuts that mix to a handshake, a run in which a client passes its wait although the server never
      connected it. */
  lemma MixtureMisleads(w: Wiring, id: nat, port: u16, now: u64, cuts: seq<nat>)
    returns (states: seq<System>, steps: seq<SysStep>)
    requires WellWired(w) && |AsBytes(w.encoder, [Shake(port)])| <= MAX_BUFFER_ACCEPTABLE_SIZE
    requires PartWay(ResponseFrame(w), cuts) && Mixes(w, cuts)
    ensures IsRun(w, states, steps) && !PassedAreConnected(states[|steps|])
  {
    states, steps := AttemptsFail(w, id, port, now, cuts);
    var n := ReadOfMixture(w, cuts);
    assert Sound(w.parse);
    hide WellWired, Sound, Mixes, Wreckage, Unanswered, Enabled, Do, PassedAreConnected, ResponseFrame, PassesOn, IsRun, AsBytes;
    ReadsMixture(w, id, port, now, cuts, n);
    states, steps := OneMore(w, states, steps, ReadResponse(id, n));
  }

  /** All runs of any number of clients are safe exactly if no attempts cut off part-way mix to a handshake. */
  lemma SafetyExactly(w: Wiring, port: u16)
    requires WellWired(w) && |AsBytes(w.encoder, [Shake(port)])| <= MAX_BUFFER_ACCEPTABLE_SIZE
    ensures SafeRuns(w) <==> NothingMixes(w)
  {
    assert Sound(w.parse);
    hide WellWired, Sound, IsRun, Mixes, PartWay, ResponseFrame, AsBytes;
    if !NothingMixes(w) {
      var cuts :| PartWay(ResponseFrame(w), cuts) && Mixes(w, cuts);
      var states, steps := MixtureMisleads(w, 0, port, 0, cuts);
      assert !PassedAreConnected(states[|steps|]);
    } else {
      forall states, steps, n: int | IsRun(w, states, steps) && 0 <= n < |states|
        ensures PassedAreConnected(states[n])
      {
        SessionSafety(w, states, steps, n);
      }
    }
  }

  // ---------- A second handshake ----------

  /** In messages: a batch strands a connected client exactly when there is a handshake in it. */
  lemma StrandedByHandshake(w: Wiring, s: Server, chunks: seq<seq<byte>>, ms: seq<Sent>, end: RecvEnd, now: u64)
    requires WellWired(w) && s.client.Some? && s.client.value.state == Connected && s.client.value.buffer == []
    requires s.writeInterest == Some(false) && Concat(chunks) == AsBytes(w.encoder, ms)
    ensures var s' := OnEvent(w.parse, s, ClientReadable(chunks, end, now));
      Stranded(s') <==> s'.client.Some? && exists i :: 0 <= i < |ms| && ms[i].Shake?
  {
    assert Sound(w.parse);
    IngoingAligned(w, s.client.value, chunks, ms, end, now);
    AbsorbShakes(s.client.value, ms, now);
    hide *;
    StrandedMeans(w.parse, s, chunks, end, now);
  }

  lemma StrandedMeans(parse: Parser, s: Server, chunks: seq<seq<byte>>, end: RecvEnd, now: u64)
    requires Sound(parse) && s.client.Some? && s.writeInterest == Some(false)
    ensures var s', r :=
        OnEvent(parse, s, ClientReadable(chunks, end, now)), HandleIngoing(parse, s.client.value, chunks, end, now);
      && (s'.client.Some? <==> r.Kept?)
      && (Stranded(s') <==> r.Kept? && r.peer.state == WaitingForServerConfirm)
  {
    hide HandleIngoing;
  }

  /** A client that has just completed its handshake and sends another one is stranded by it. */
  lemma SecondHandshakeStrands(w: Wiring, id: nat, port: u16, port': u16, now: u64, now': u64)
    requires WellWired(w) && |AsBytes(w.encoder, [Shake(port')])| <= MAX_BUFFER_ACCEPTABLE_SIZE
    ensures Stranded(OnEvent(w.parse, HandshakeState(w, id, port, now, 0, 5).server,
                             ClientReadable([AsBytes(w.encoder, [Shake(port')])], WouldBlock, now')))
  {
    var s, ms := HandshakeState(w, id, port, now, 0, 5).server, [Shake(port')];
    var bytes := AsBytes(w.encoder, ms);
    OneChunk(bytes);
    StrandedByHandshake(w, s, [bytes], ms, WouldBlock, now');
    assert ms[0].Shake?;
    var one: seq<seq<byte>> := [bytes];
    assert one[1..] == [];
    hide Drain, AsBytes, WellWired;
    assert Receive(s.client.value, one) == Receive(AddToBuffer(s.client.value, bytes).peer, one[1..]);
  }
}
