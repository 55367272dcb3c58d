/** The assumptions about FlatBuffers that sessions make can be met: a small wire format that does, in which
    sessions complete, and in which answers cut off part-way can mislead a client. */
module Wirings {
  import opened Bytes
  import opened Reports
  import Framing
  import opened Connections
  import opened Peers
  import opened Net
  import opened Wires
  import opened Mixtures
  import opened Sessions
  import opened Handshakes
  import opened Timing

  const HANDSHAKE_TAG: byte := 1
  const CONFIG_TAG: byte := 2
  const HALF: int := 0x1_0000_0000

  function EncodePacket(p: Packet): seq<byte> {
    match p
    case HandshakePacket(h) => [HANDSHAKE_TAG] + ToLE(h.port)
    case ConfigPacket(interval) => [CONFIG_TAG] + ToLE(interval % HALF) + ToLE(interval / HALF)
  }

  function ParsePacket(buf: seq<byte>): Verdict {
    if |buf| >= 9 && buf[4] == HANDSHAKE_TAG && FromLE(buf[5..]) < 0x1_0000 then
      Valid(HandshakeContent(FromLE(buf[5..])), 9)
    else if |buf| >= 13 && buf[4] == CONFIG_TAG then
      Valid(ConfigContent(FromLE(buf[5..]) + HALF * FromLE(buf[9..])), 13)
    else Unhandled
  }

  const NET_PORT: u16 := 5000

  /** The server's answer: tag, port and heartbeat interval. */
  const RESPONSE: seq<byte> := [HANDSHAKE_TAG] + ToLE(NET_PORT) + ToLE(MAX_HEARTBEAT_INTERVAL)

  function ReadPayload(payload: seq<byte>): Framing.Parsed {
    if |payload| == 9 && payload[0] == HANDSHAKE_TAG && FromLE(payload[1..]) < 0x1_0000 then
      Framing.Content(HandshakeResponseReceived(Handshake(ServerEnd, FromLE(payload[1..]), FromLE(payload[5..]))))
    else Framing.Silent
  }

  const SMALL: Wiring := Wiring(ParsePacket, ReadPayload, EncodePacket, RESPONSE)

  lemma ReadsBack(head: seq<byte>, n: u32, rest: seq<byte>)
    ensures FromLE((head + ToLE(n) + rest)[|head|..]) == n
  {
    LERoundTrip(n);
    assert (head + ToLE(n) + rest)[|head|..][..OFFSET_SIZE] == ToLE(n);
  }

  lemma ParsesHandshake(port: u16, rest: seq<byte>)
    ensures ParsePacket(ToLE(5) + ([HANDSHAKE_TAG] + ToLE(port)) + rest) == Valid(HandshakeContent(port), 9)
  {
    ReadsBack(ToLE(5) + [HANDSHAKE_TAG], port, rest);
    assert ToLE(5) + ([HANDSHAKE_TAG] + ToLE(port)) + rest == ToLE(5) + [HANDSHAKE_TAG] + ToLE(port) + rest;
  }

  lemma ParsesConfig(interval: u64, rest: seq<byte>)
    ensures ParsePacket(ToLE(9) + ([CONFIG_TAG] + ToLE(interval % HALF) + ToLE(interval / HALF)) + rest)
         == Valid(ConfigContent(interval), 13)
  {
    var low, high := ToLE(interval % HALF), ToLE(interval / HALF);
    var buf := ToLE(9) + ([CONFIG_TAG] + low + high) + rest;
    ReadsBack(ToLE(9) + [CONFIG_TAG], interval % HALF, high + rest);
    ReadsBack(ToLE(9) + [CONFIG_TAG] + low, interval / HALF, rest);
    assert buf == ToLE(9) + [CONFIG_TAG] + low + (high + rest) == ToLE(9) + [CONFIG_TAG] + low + high + rest;
  }

  lemma ReadsResponse()
    ensures ReadPayload(RESPONSE) ==
              Framing.Content(HandshakeResponseReceived(Handshake(ServerEnd, NET_PORT, 25)))
  {
    ReadsBack([HANDSHAKE_TAG], NET_PORT, ToLE(MAX_HEARTBEAT_INTERVAL));
    ReadsBack([HANDSHAKE_TAG] + ToLE(NET_PORT), MAX_HEARTBEAT_INTERVAL, []);
    assert RESPONSE + [] == RESPONSE;
  }

  lemma WiringExists()
    ensures WellWired(SMALL)
    ensures SMALL.codec(SMALL.response) ==
              Framing.Content(HandshakeResponseReceived(Handshake(ServerEnd, NET_PORT, 25)))
  {
    ReadsResponse();
    forall m: Sent, rest: seq<Sent> | !m.Pulse?
      ensures SMALL.parse(AsBytes(SMALL.encoder, [m] + rest)) ==
                Valid(ContentOf(m), |Framing.Encode(AsMessage(SMALL.encoder, m))|)
    {
      var more := AsBytes(SMALL.encoder, rest);
      assert ([m] + rest)[1..] == rest;
      hide ParsePacket, ToLE;
      match m
      case Shake(port) => ParsesHandshake(port, more);
      case Settings(interval) => ParsesConfig(interval, more);
    }
  }

  lemma SmallHandshake(port: u16)
    ensures |AsBytes(SMALL.encoder, [Shake(port)])| <= MAX_BUFFER_ACCEPTABLE_SIZE
    ensures |ResponseFrame(SMALL)| == 13 <= READ_SIZE && 0 < |SMALL.response| < U32_MAX
  {
    var ms := [Shake(port)];
    assert ms[1..] == [];
  }

  /** In this format sessions complete, and clients learn the server's interval. */
  lemma SmallSessionsComplete(id: nat, port: u16, now: u64)
    ensures WellWired(SMALL)
    ensures var last := HandshakeState(SMALL, id, port, now, 25, 5);
      && IsRun(SMALL, HandshakeStates(SMALL, id, port, now, 25), HandshakeSteps(SMALL, id, port, now))
      && id in last.procs && last.procs[id].phase == Ready(25) && last.server.client.Some?
  {
    hide *;
    WiringExists();
    SmallHandshake(port);
    HandshakeCompletes(SMALL, id, port, now, Handshake(ServerEnd, NET_PORT, 25));
  }

  /** An answer cut off before its last byte and then one cut off after its first mix: the codec reads a
      handshake with another interval. */
  lemma SmallMixture()
    ensures PartWay(ResponseFrame(SMALL), [12, 1]) && Mixes(SMALL, [12, 1])
  {
    hide *;
    var frame := ResponseFrame(SMALL);
    SmallHandshake(0);
    WiringExists();
    MixedPayload();
    WreckageOfTwo(frame, 12, 1);
    TwoPartialSends(SMALL, 12, 1);
    assert PassesOn(SMALL, Wreckage(frame, [12, 1]), 13) by { PassesNow(frame[..12] + frame[..1]); }
    MixesExactly(SMALL, [12, 1]);
  }

  lemma PassesNow(bytes: seq<byte>)
    requires |bytes| == 13 && AfterRead(SMALL, bytes).Ready?
    ensures PassesOn(SMALL, bytes, 13)
  {
    assert bytes[..13] == bytes;
    hide AfterRead;
  }

  lemma MixedPayload()
    ensures var frame := ResponseFrame(SMALL);
      |frame| == 13 && OFFSET_SIZE == 4 && |SMALL.response| == 9
      && IsHandshake(SMALL, SMALL.response[..12 - OFFSET_SIZE] + frame[..|frame| - 12])
  {
    var payload := SMALL.response[..8] + ResponseFrame(SMALL)[..1];
    ReadsBack([HANDSHAKE_TAG], NET_PORT, payload[5..]);
    assert payload == [HANDSHAKE_TAG] + ToLE(NET_PORT) + payload[5..];
  }

  /** So the condition of safe runs is not idle: here is a format, well wired, with runs in which a client
      passes its wait although the server never connected it. */
  lemma SafetyCanFail()
    ensures WellWired(SMALL) && !SafeRuns(SMALL)
  {
    WiringExists();
    SmallHandshake(0);
    SmallMixture();
    hide *;
    SafetyExactly(SMALL, 0);
    assert !NothingMixes(SMALL) by { SomethingMixes([12, 1]); }
  }

  lemma SomethingMixes(cuts: seq<nat>)
    requires PartWay(ResponseFrame(SMALL), cuts) && Mixes(SMALL, cuts)
    ensures !NothingMixes(SMALL)
  {
    hide PartWay, Mixes;
  }

  // ---------- A client on schedule ----------

  lemma InTimeSnoc(steps: seq<SysStep>, step: SysStep)
    requires InTime(steps) && StepNotBefore(step, RunClock(steps))
    ensures InTime(steps + [step]) && RunClock(steps + [step]) == StepClock(step, RunClock(steps))
  {
    assert (steps + [step])[..|steps|] == steps;
  }

  lemma {:induction false} HandshakeInTime(w: Wiring, id: nat, port: u16, now: u64, n: nat)
    requires n <= 5
    ensures var steps := HandshakeSteps(w, id, port, now)[..n]; InTime(steps) && RunClock(steps) <= now
  {
    if n > 0 {
      var steps := HandshakeSteps(w, id, port, now);
      HandshakeInTime(w, id, port, now, n - 1);
      InTimeSnoc(steps[..n - 1], steps[n - 1]);
      assert steps[..n - 1] + [steps[n - 1]] == steps[..n];
    }
  }

  /** The assumptions of `NeverCutOff` can be met: a client that has just completed its handshake, at the end
      of the iteration in which it did. */
  lemma SmallClientIsPunctual(id: nat, port: u16, now: u64, pad: MainReport)
    returns (states: seq<System>, steps: seq<SysStep>, turns: seq<Turn>)
    ensures WellWired(SMALL) && IsRun(SMALL, states, steps) && InTime(steps) && |steps| == 6
    ensures steps[5] == Finish(Times(now, now, now, now), true, NoSocket, pad)
    ensures states[5].server.client.Some? && states[5].server.connection == id
    ensures forall i :: 0 <= i < |steps| && steps[i].Accept? && steps[i].id == id ==> now <= steps[i].now + SECOND
    ensures Paced(25, now, turns, Pace(0, 0)) && |turns| == 1 && now <= turns[0].wake
    ensures Punctual(states[5], steps[5].times, id, Timing.Beat(25, now, turns).written, turns[0].wake, SECOND)
    ensures states[6].server.client.Some?
  {
    hide *;
    turns := [Turn(now, now, now, now)];
    OneTurn(now);
    states, steps := SmallRun(id, port, now, pad);
    QuietClient(id, port, now);
    SlackAtTwentyFive(Pace(0, 0), SECOND, SECOND);
    NeverCutOff(SMALL, states, steps, id, 25, now, turns, Pace(0, 0), SECOND, SECOND, 5);
  }

  lemma SmallRun(id: nat, port: u16, now: u64, pad: MainReport) returns (states: seq<System>, steps: seq<SysStep>)
    ensures WellWired(SMALL) && IsRun(SMALL, states, steps) && InTime(steps) && |steps| == 6 && |states| == 7
    ensures steps[5] == Finish(Times(now, now, now, now), true, NoSocket, pad)
    ensures states[5] == HandshakeState(SMALL, id, port, now, 25, 5)
    ensures forall i :: 0 <= i < |steps| && steps[i].Accept? && steps[i].id == id ==> now <= steps[i].now + SECOND
  {
    hide *;
    states, steps := HandshakeStates(SMALL, id, port, now, 25), HandshakeSteps(SMALL, id, port, now);
    var last := Finish(Times(now, now, now, now), true, NoSocket, pad);
    SmallSessionsComplete(id, port, now);
    LastState(id, port, now);
    AcceptsNow(id, port, now);
    HandshakeInTime(SMALL, id, port, now, 5);
    assert steps[..5] == steps;
    EndIsInTime(RunClock(steps), now, pad);
    InTimeSnoc(steps, last);
    ParserIsSound(SMALL);
    EndIsEnabled(SMALL, states[5], last);
    RunExtends(SMALL, states, steps, last);
    states, steps := states + [Do(SMALL, states[5], last)], steps + [last];
  }

  lemma LastState(id: nat, port: u16, now: u64)
    ensures HandshakeStates(SMALL, id, port, now, 25)[5] == HandshakeState(SMALL, id, port, now, 25, 5)
  {
    hide HandshakeState;
  }

  lemma EndIsInTime(clock: nat, now: u64, pad: MainReport)
    ensures clock <= now ==> StepNotBefore(Finish(Times(now, now, now, now), true, NoSocket, pad), clock)
  {
  }

  lemma EndIsEnabled(w: Wiring, sys: System, step: SysStep)
    requires step.Finish?
    ensures Enabled(w, sys, step)
  {
  }

  lemma OneTurn(now: nat)
    ensures var turns := [Turn(now, now, now, now)];
      SECOND == 1000000 && Paced(25, now, turns, Pace(0, 0)) && Timing.Beat(25, now, turns) == Beats(now, [])
  {
    var turns := [Turn(now, now, now, now)];
    assert turns[..0] == [] && Timing.Beat(25, now, []) == Beats(now, []);
  }

  lemma QuietClient(id: nat, port: u16, now: u64)
    ensures var sys := HandshakeState(SMALL, id, port, now, 25, 5);
      Punctual(sys, Times(now, now, now, now), id, [], now, SECOND) && sys.server.client.Some? && sys.server.connection == id
  {
  }

  lemma AcceptsNow(id: nat, port: u16, now: u64)
    ensures var steps := HandshakeSteps(SMALL, id, port, now);
      forall i :: 0 <= i < |steps| && steps[i].Accept? ==> steps[i].now == now
  {
  }
}
