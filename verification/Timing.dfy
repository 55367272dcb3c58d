/** Heartbeat timing: the client's scheduling loop against the server's cut-off, with floored seconds on both
    sides. Clock readings are in microseconds. */
module Timing {
  import opened Bytes
  import opened Peers
  import opened Net
  import opened Reports
  import opened Wires
  import opened Mixtures
  import opened Sessions

  const SECOND: nat := 1000000

  // ---------- The client's loop ----------

  function SaturatingSub(a: nat, b: nat): nat {
    if a < b then 0 else a - b
  }

  /** Whole seconds the client lets pass before it sends. */
  function Wait(freq: u32): nat {
    SaturatingSub(freq, 5)
  }

  /** The poller's timeout, in seconds. */
  function Timeout(freq: u32, last: nat, start: nat): nat
    requires last <= start
  {
    SaturatingSub(Wait(freq), (start - last) / SECOND)
  }

  predicate Sends(freq: u32, last: nat, wake: nat)
    requires last <= wake
  {
    (wake - last) / SECOND >= Wait(freq)
  }

  /** The clock in one turn of the loop: when the timeout is computed, when the wait returns, and, for a turn
      that sends a heartbeat, when it is written and when `last_time` is read anew. */
  datatype Turn = Turn(start: nat, wake: nat, written: nat, stamped: nat)

  /** `last_time` and the heartbeats written so far. */
  datatype Beats = Beats(last: nat, written: seq<nat>)

  function AfterTurn(freq: u32, b: Beats, t: Turn): Beats {
    if b.last <= t.wake && Sends(freq, b.last, t.wake) then Beats(t.stamped, b.written + [t.written]) else b
  }

  function Beat(freq: u32, begin: nat, turns: seq<Turn>): Beats {
    if turns == [] then Beats(begin, []) else AfterTurn(freq, Beat(freq, begin, turns[..|turns| - 1]), turns[|turns| - 1])
  }

  /** The heartbeat part of the client's loop; `written` records the past. */
  class HeartbeatTimer {
    const freq: u32
    var lastTime: nat
    ghost var written: seq<nat>

    constructor (freq: u32, now: nat)
      ensures this.freq == freq && State() == Beats(now, [])
    {
      this.freq, lastTime, written := freq, now, [];
    }

    ghost function State(): Beats
      reads this
    {
      Beats(lastTime, written)
    }

    /** One turn: the timeout it asks the poller for, and whether it sends after the wait. */
    method Turn(t: Turn) returns (timeout: nat, sent: bool)
      requires lastTime <= t.start <= t.wake
      modifies this
      ensures timeout == Timeout(freq, old(lastTime), t.start) && sent == Sends(freq, old(lastTime), t.wake)
      ensures State() == AfterTurn(freq, old(State()), t)
    {
      timeout := SaturatingSub(SaturatingSub(freq, 5), (t.start - lastTime) / SECOND);
      sent := (t.wake - lastTime) / SECOND >= SaturatingSub(freq, 5);
      if sent {
        written := written + [t.written];
        lastTime := t.stamped;
      }
    }
  }

  /** Bounds on the machine the client runs on: `work` for what a turn does after its wait (and for what comes
      before the first turn), `jitter` for a wait that returns late. A wait may return early at any time. */
  datatype Pace = Pace(work: nat, jitter: nat)

  predicate StartsOnTime(freq: u32, begin: nat, turns: seq<Turn>, start: nat, pace: Pace) {
    if turns == [] then begin <= start <= begin + pace.work
    else
      var prev := turns[|turns| - 1];
      prev.wake <= start <= prev.wake + pace.work && Beat(freq, begin, turns).last <= start
  }

  predicate TurnOnTime(freq: u32, b: Beats, t: Turn, pace: Pace) {
    && b.last <= t.start <= t.wake <= t.start + Timeout(freq, b.last, t.start) * SECOND + pace.jitter
    && (Sends(freq, b.last, t.wake) ==> t.wake <= t.written <= t.stamped <= t.wake + pace.work)
  }

  predicate Paced(freq: u32, begin: nat, turns: seq<Turn>, pace: Pace) {
    turns == [] ||
    (var init, t := turns[..|turns| - 1], turns[|turns| - 1];
     && Paced(freq, begin, init, pace)
     && StartsOnTime(freq, begin, init, t.start, pace)
     && TurnOnTime(freq, Beat(freq, begin, init), t, pace))
  }

  /** max(f - 4 seconds, f - 5 seconds + work) + jitter, the first bound never reached. */
  function Bound(freq: u32, pace: Pace): nat {
    var floored, busy := (Wait(freq) + 1) * SECOND - 1, Wait(freq) * SECOND + pace.work;
    (if floored > busy then floored else busy) + pace.jitter
  }

  // ---------- Send gaps ----------

  predicate GapsOk(freq: u32, written: seq<nat>, pace: Pace) {
    forall i :: 0 <= i < |written| - 1 ==>
      Wait(freq) * SECOND <= written[i + 1] - written[i] <= Bound(freq, pace) + 2 * pace.work
  }

  /** Heartbeats are regular, and `last_time` is a little after the last one. */
  predicate Regular(freq: u32, begin: nat, b: Beats, pace: Pace) {
    && GapsOk(freq, b.written, pace)
    && (if b.written == [] then b.last == begin
        else
          && b.written[0] <= begin + Bound(freq, pace) + pace.work
          && b.written[|b.written| - 1] <= b.last <= b.written[|b.written| - 1] + pace.work)
  }

  /** One turn wakes within the bound, whatever the remainder of a second at its start. */
  lemma WakesInTime(freq: u32, last: nat, start: nat, wake: nat, pace: Pace)
    requires last <= start <= wake <= start + Timeout(freq, last, start) * SECOND + pace.jitter
    requires start - last <= Wait(freq) * SECOND + pace.work
    ensures wake - last <= Bound(freq, pace)
  {
  }

  lemma WithoutSending(freq: u32, last: nat, wake: nat)
    requires last <= wake && !Sends(freq, last, wake)
    ensures wake - last < Wait(freq) * SECOND
  {
  }

  lemma RegularStep(freq: u32, begin: nat, b: Beats, t: Turn, pace: Pace)
    requires Regular(freq, begin, b, pace) && TurnOnTime(freq, b, t, pace) && t.wake - b.last <= Bound(freq, pace)
    ensures Regular(freq, begin, AfterTurn(freq, b, t), pace)
  {
  }

  /** Over any run of the client, whatever wakes it early: when a wait returns, the last heartbeat was written
      at most max(f - 4, f - 5 + work) seconds and the jitter ago; two heartbeats in a row are at least f - 5
      seconds apart, and at most that bound and the work around the two writes. */
  lemma {:induction false} SendGaps(freq: u32, begin: nat, turns: seq<Turn>, pace: Pace)
    requires Paced(freq, begin, turns, pace)
    ensures Regular(freq, begin, Beat(freq, begin, turns), pace)
    ensures turns != [] ==>
              && turns[|turns| - 1].wake <= Beat(freq, begin, turns[..|turns| - 1]).last + Bound(freq, pace)
              && turns[|turns| - 1].wake <= Beat(freq, begin, turns).last + Bound(freq, pace)
    ensures forall start: nat :: StartsOnTime(freq, begin, turns, start, pace) ==>
              start - Beat(freq, begin, turns).last <= Wait(freq) * SECOND + pace.work
  {
    if turns != [] {
      var init, t := turns[..|turns| - 1], turns[|turns| - 1];
      SendGaps(freq, begin, init, pace);
      var b := Beat(freq, begin, init);
      WakesInTime(freq, b.last, t.start, t.wake, pace);
      RegularStep(freq, begin, b, t, pace);
      if !Sends(freq, b.last, t.wake) {
        WithoutSending(freq, b.last, t.wake);
      }
      hide Bound, Timeout, Regular, GapsOk;
    }
  }

  /** The seconds are counted from the reading taken after a heartbeat was written, not from the write itself. */
  lemma {:induction false} CountsFromStamp(freq: u32, begin: nat, turns: seq<Turn>)
    ensures var b := Beat(freq, begin, turns);
      if b.written == [] then b.last == begin
      else exists i :: 0 <= i < |turns| && turns[i].written == b.written[|b.written| - 1] && turns[i].stamped == b.last
  {
    if turns != [] {
      var n := |turns| - 1;
      var b, init := Beat(freq, begin, turns), turns[..n];
      CountsFromStamp(freq, begin, init);
      if Beat(freq, begin, init) != b {
        assert turns[n].stamped == b.last && turns[n].written == b.written[|b.written| - 1];
      } else if b.written != [] {
        var i :| 0 <= i < n && init[i].written == b.written[|b.written| - 1] && init[i].stamped == b.last;
        assert turns[i] == init[i];
      }
    }
  }

  /** The floored seconds really cost one: a client woken a microsecond before a full second is up, and never
      again before its timeout, reaches the bound. */
  lemma BoundReached(freq: u32, begin: nat, pace: Pace)
    requires Wait(freq) > 0 && pace.work == SECOND - 1
    ensures var at := begin + Bound(freq, pace);
      var turns := [Turn(begin + SECOND - 1, at, at, at)];
      Paced(freq, begin, turns, pace) && Beat(freq, begin, turns).written == [at]
  {
    var at := begin + Bound(freq, pace);
    var t := Turn(begin + SECOND - 1, at, at, at);
    assert [t][..0] == [];
    assert (SECOND - 1) / SECOND == 0;
    assert Paced(freq, begin, [], pace);
  }

  // ---------- The server's cut-off ----------

  /** The server drops a client at the end of an iteration exactly when its last heartbeat was handled 26
      seconds ago or more: the floored 25 are not enough. */
  lemma CutOff(s: Server, t: Times, padMode: bool, udp: Udp, pad: MainReport)
    requires s.client.Some? && s.client.value.heartbeatAt <= t.expiry
    ensures EndIteration(s, t, padMode, udp, pad).server.client.None?
       <==> t.expiry - s.client.value.heartbeatAt >= 26 * SECOND
  {
    hide IsPollingTimeElapsed, RemainingPollingTime;
  }

  /** A batch of whole messages renews the client's time exactly when a heartbeat is among them. */
  lemma BatchBeats(w: Wiring, p: Peer, chunks: seq<seq<byte>>, ms: seq<Sent>, end: RecvEnd, now: u64)
    requires WellWired(w) && p.buffer == [] && Concat(chunks) == AsBytes(w.encoder, ms)
    ensures var r := HandleIngoing(w.parse, p, chunks, end, now);
      r.Kept? ==> r.peer.heartbeatAt == if Pulses(ms) > 0 then now else p.heartbeatAt
  {
    IngoingAligned(w, p, chunks, ms, end, now);
    AbsorbBeats(p, ms, now);
    hide HandleIngoing, WellWired;
  }

  // ---------- Both sides, over runs of the system ----------

  /** The readings of a step, none before `clock`, in order. Client and server share a clock. */
  predicate StepNotBefore(step: SysStep, clock: nat) {
    match step
    case SendPulse(_, at) => clock <= at
    case Accept(_, now) => clock <= now
    case Batch(_, _, _, now) => clock <= now
    case Finish(t, _, _, _) => clock <= t.expiry <= t.poll <= t.send <= t.left
    case _ => true
  }

  function StepClock(step: SysStep, clock: nat): nat {
    match step
    case SendPulse(_, at) => at
    case Accept(_, now) => now
    case Batch(_, _, _, now) => now
    case Finish(t, _, _, _) => t.left
    case _ => clock
  }

  function RunClock(steps: seq<SysStep>): nat {
    if steps == [] then 0 else StepClock(steps[|steps| - 1], RunClock(steps[..|steps| - 1]))
  }

  predicate InTime(steps: seq<SysStep>) {
    steps == [] ||
    (InTime(steps[..|steps| - 1]) && StepNotBefore(steps[|steps| - 1], RunClock(steps[..|steps| - 1])))
  }

  /** The heartbeats of a client that the server has handled. */
  function HandledBeats(proc: Proc): nat {
    if proc.taken <= |proc.sent| then Pulses(proc.sent[..proc.taken]) else 0
  }

  /** No heartbeat of the client is handled before it was sent, and its record on the server is no older
      than the last one handled, or than `accepted` before the first. */
  predicate TimeOk(sys: System, id: nat, accepted: int, clock: nat) {
    id in sys.procs ==>
      var proc := sys.procs[id];
      && |proc.beats| == Pulses(proc.sent)
      && (forall i :: 0 <= i < |proc.beats| ==> proc.beats[i] <= clock)
      && (sys.server.client.Some? && sys.server.connection == id ==>
            RecordOk(proc, sys.server.client.value.heartbeatAt, accepted, clock))
  }

  predicate RecordOk(proc: Proc, record: nat, accepted: int, clock: nat) {
    && record <= clock
    && HandledBeats(proc) <= |proc.beats|
    && (if HandledBeats(proc) == 0 then accepted <= record else proc.beats[HandledBeats(proc) - 1] <= record)
  }

  lemma PulseSent(proc: Proc, record: nat, accepted: int, clock: nat, at: nat)
    requires |proc.beats| == Pulses(proc.sent) && proc.taken <= |proc.sent|
    ensures var proc' := proc.(sent := proc.sent + [Pulse], beats := proc.beats + [at]);
      && |proc'.beats| == Pulses(proc'.sent)
      && (clock <= at && RecordOk(proc, record, accepted, clock) ==> RecordOk(proc', record, accepted, at))
  {
    var one := [Pulse];
    assert one[1..] == [] && Pulses(one) == 1;
    PulsesAppend(proc.sent, one);
    assert (proc.sent + one)[..proc.taken] == proc.sent[..proc.taken];
    hide Pulses;
  }

  lemma SettingsSent(proc: Proc, interval: u64)
    requires proc.taken <= |proc.sent|
    ensures var proc' := proc.(sent := proc.sent + [Settings(interval)]);
      Pulses(proc'.sent) == Pulses(proc.sent) && HandledBeats(proc') == HandledBeats(proc)
  {
    var one := [Settings(interval)];
    assert one[1..] == [] && Pulses(one) == 0;
    PulsesAppend(proc.sent, one);
    assert (proc.sent + one)[..proc.taken] == proc.sent[..proc.taken];
    hide Pulses;
  }

  lemma PulsesTaken(sent: seq<Sent>, taken: nat, k: nat)
    requires taken + k <= |sent|
    ensures Pulses(sent[..taken + k]) == Pulses(sent[..taken]) + Pulses(sent[taken..taken + k])
    ensures Pulses(sent[..taken + k]) <= Pulses(sent)
  {
    hide Pulses;
    TakenFurther(sent, taken, k);
    PulsesAppend(sent[..taken], sent[taken..taken + k]);
    TakenFurther(sent, taken + k, |sent| - taken - k);
    PulsesAppend(sent[..taken + k], sent[taken + k..]);
    assert sent[..|sent|] == sent;
  }

  lemma MessagesTaken(p: Peer, proc: Proc, k: nat, accepted: int, clock: nat, now: u64)
    requires |proc.beats| == Pulses(proc.sent) && proc.taken + k <= |proc.sent|
    requires RecordOk(proc, p.heartbeatAt, accepted, clock) && clock <= now
    requires forall i :: 0 <= i < |proc.beats| ==> proc.beats[i] <= clock
    ensures var ms := proc.sent[proc.taken..proc.taken + k];
      RecordOk(proc.(taken := proc.taken + k), AbsorbAll(p, ms, now).heartbeatAt, accepted, now)
  {
    hide Pulses, AbsorbAll;
    AbsorbBeats(p, proc.sent[proc.taken..proc.taken + k], now);
    PulsesTaken(proc.sent, proc.taken, k);
  }

  /** A step that leaves this client's messages alone and does not renew its record. */
  predicate LeavesAlone(sys: System, sys': System, id: nat) {
    && (id in sys'.procs ==>
          && id in sys.procs
          && var proc, proc' := sys.procs[id], sys'.procs[id];
          && proc'.sent == proc.sent && proc'.taken == proc.taken && proc'.beats == proc.beats)
    && (sys'.server.client.Some? && sys'.server.connection == id ==>
          && sys.server.client.Some? && sys.server.connection == id
          && sys'.server.client.value.heartbeatAt == sys.server.client.value.heartbeatAt)
  }

  lemma TimeKept(sys: System, sys': System, id: nat, accepted: int, clock: nat, clock': nat)
    requires TimeOk(sys, id, accepted, clock) && LeavesAlone(sys, sys', id) && clock <= clock'
    ensures TimeOk(sys', id, accepted, clock')
  {
    hide Pulses;
  }

  lemma TimeOfProc(sys: System, id: nat, proc: Proc, accepted: int, clock: nat)
    requires |proc.beats| == Pulses(proc.sent) && forall i :: 0 <= i < |proc.beats| ==> proc.beats[i] <= clock
    requires sys.server.client.Some? && sys.server.connection == id ==>
               RecordOk(proc, sys.server.client.value.heartbeatAt, accepted, clock)
    ensures TimeOk(sys.(procs := sys.procs[id := proc]), id, accepted, clock)
  {
    hide Pulses, RecordOk;
  }

  lemma TimeOfConnect(w: Wiring, sys: System, id: nat, port: u16, accepted: int, clock: nat)
    requires ClientOk(sys) && id !in sys.procs
    ensures TimeOk(sys.(procs := sys.procs[id := NewProc(port)]), id, accepted, clock)
  {
    NoPulseYet(port);
    hide Pulses, ViewOk, RecordOk;
    TimeOfProc(sys, id, NewProc(port), accepted, clock);
  }

  lemma TimeOfSettings(sys: System, id: nat, interval: u64, accepted: int, clock: nat)
    requires id in sys.procs && sys.procs[id].taken <= |sys.procs[id].sent| && TimeOk(sys, id, accepted, clock)
    ensures var proc := sys.procs[id];
      TimeOk(sys.(procs := sys.procs[id := proc.(sent := proc.sent + [Settings(interval)])]), id, accepted, clock)
  {
    var proc := sys.procs[id];
    SettingsSent(proc, interval);
    hide Pulses, HandledBeats;
    TimeOfProc(sys, id, proc.(sent := proc.sent + [Settings(interval)]), accepted, clock);
  }

  lemma TimeOfPulse(sys: System, id: nat, at: nat, accepted: int, clock: nat)
    requires id in sys.procs && sys.procs[id].taken <= |sys.procs[id].sent| && TimeOk(sys, id, accepted, clock) && clock <= at
    ensures var proc := sys.procs[id];
      TimeOk(sys.(procs := sys.procs[id := proc.(sent := proc.sent + [Pulse], beats := proc.beats + [at])]), id, accepted, at)
  {
    var proc := sys.procs[id];
    PulseSent(proc, if sys.server.client.Some? then sys.server.client.value.heartbeatAt else 0, accepted, clock, at);
    hide Pulses, RecordOk;
    TimeOfProc(sys, id, proc.(sent := proc.sent + [Pulse], beats := proc.beats + [at]), accepted, at);
  }

  lemma NoPulseYet(port: u16)
    ensures Pulses(NewProc(port).sent) == 0
  {
    var ms := [Shake(port)];
    assert ms[1..] == [];
  }

  lemma TakenWasSent(w: Wiring, sys: System, id: nat)
    requires Invariant(w, sys) && id in sys.procs
    ensures sys.procs[id].taken <= |sys.procs[id].sent|
    ensures id !in sys.server.used ==> sys.procs[id].taken == 0
  {
    hide PushesOk, Consistent, ClientOk, Mixes, Wreckage, PartWay;
  }

  lemma TimeOfAccept(w: Wiring, sys: System, id: nat, now: u64, accepted: int, clock: nat)
    requires Sound(w.parse) && Invariant(w, sys) && id in sys.procs && accepted <= now && clock <= now
    requires TimeOk(sys, id, accepted, clock)
    ensures TimeOk(sys.(server := OnEvent(w.parse, sys.server, ServerReadable(Some(id), now))), id, accepted, now)
  {
    TakenWasSent(w, sys, id);
    assert sys.procs[id].sent[..0] == [];
    hide ProcOk, PushesOk, Consistent, ClientOk, ResponseFrame, Sound;
  }

  lemma BatchRecord(w: Wiring, s: Server, chunks: seq<seq<byte>>, ms: seq<Sent>, end: RecvEnd, now: u64)
    requires WellWired(w) && s.client.Some? && s.client.value.buffer == [] && Concat(chunks) == AsBytes(w.encoder, ms)
    ensures var s' := OnEvent(w.parse, s, ClientReadable(chunks, end, now));
      && s'.connection == s.connection
      && (s'.client.Some? ==> s'.client.value.heartbeatAt == AbsorbAll(s.client.value, ms, now).heartbeatAt)
  {
    IngoingAligned(w, s.client.value, chunks, ms, end, now);
    hide HandleIngoing, WellWired, AsBytes, AbsorbAll;
  }

  lemma TimeOfTaken(sys: System, server: Server, k: nat, now: u64, accepted: int, clock: nat)
    requires sys.server.client.Some? && sys.server.connection in sys.procs && clock <= now
    requires server.connection == sys.server.connection && TimeOk(sys, server.connection, accepted, clock)
    requires var proc := sys.procs[server.connection];
      && proc.taken + k <= |proc.sent|
      && (server.client.Some? ==>
            server.client.value.heartbeatAt
              == AbsorbAll(sys.server.client.value, proc.sent[proc.taken..proc.taken + k], now).heartbeatAt)
    ensures var id := server.connection;
      TimeOk(sys.(server := server, procs := sys.procs[id := sys.procs[id].(taken := sys.procs[id].taken + k)]),
             id, accepted, now)
  {
    var id, p := server.connection, sys.server.client.value;
    var proc := sys.procs[id];
    MessagesTaken(p, proc, k, accepted, clock, now);
    hide AbsorbAll, RecordOk, Pulses;
    TimeOfProc(sys.(server := server), id, proc.(taken := proc.taken + k), accepted, now);
  }

  lemma BatchedMeans(w: Wiring, sys: System, k: nat, chunks: seq<seq<byte>>, end: RecvEnd, now: u64)
    requires Sound(w.parse) && CanBatch(w, sys, k, chunks)
    ensures sys.server.client.Some? && sys.server.connection in sys.procs
    ensures var id, proc := sys.server.connection, sys.procs[sys.server.connection];
      && proc.taken + k <= |proc.sent| && Concat(chunks) == AsBytes(w.encoder, proc.sent[proc.taken..proc.taken + k])
      && Batched(w, sys, k, chunks, end, now) ==
           sys.(server := OnEvent(w.parse, sys.server, ClientReadable(chunks, end, now)),
                procs := sys.procs[id := proc.(taken := proc.taken + k)])
  {
    hide Sound, OnEvent, Concat, AsBytes;
  }

  lemma TimeOfBatch(w: Wiring, sys: System, k: nat, chunks: seq<seq<byte>>, end: RecvEnd, now: u64, accepted: int, clock: nat)
    requires WellWired(w) && CanBatch(w, sys, k, chunks) && clock <= now && sys.server.client.value.buffer == []
    requires TimeOk(sys, sys.server.connection, accepted, clock)
    ensures TimeOk(Batched(w, sys, k, chunks, end, now), sys.server.connection, accepted, now)
  {
    hide *;
    ParserIsSound(w);
    BatchedMeans(w, sys, k, chunks, end, now);
    var proc := sys.procs[sys.server.connection];
    BatchRecord(w, sys.server, chunks, proc.sent[proc.taken..proc.taken + k], end, now);
    TimeOfTaken(sys, OnEvent(w.parse, sys.server, ClientReadable(chunks, end, now)), k, now, accepted, clock);
  }

  lemma ClientBuffer(w: Wiring, sys: System)
    requires Invariant(w, sys) && sys.server.client.Some?
    ensures sys.server.client.value.buffer == []
  {
    hide PushesOk, Consistent, ProcOk;
  }

  lemma AdvanceLeavesAlone(parse: Parser, s: Server, step: Step, id: nat)
    requires Sound(parse)
    requires step.Event? && step.event.ClientReadable? ==> s.connection != id
    requires step.Event? && step.event.ServerReadable? ==> step.event.accepted != Some(id)
    ensures var s' := Advance(parse, s, step).server;
      s'.client.Some? && s'.connection == id ==>
        s.client.Some? && s.connection == id && s'.client.value.heartbeatAt == s.client.value.heartbeatAt
  {
    if step.End? {
      EndEffect(s, step.times, step.padMode, step.udp, step.pad);
    }
    hide EndIteration, HandleIngoing, Sound;
  }

  /** Whose messages a step adds or takes. */
  predicate Concerns(sys: System, step: SysStep, id: nat) {
    match step
    case Connect(other, _) => other == id
    case SendSettings(other, _) => other == id
    case SendPulse(other, _) => other == id
    case Accept(other, _) => other == id
    case Batch(_, _, _, _) => sys.server.connection == id
    case _ => false
  }

  lemma ProcLeftAlone(w: Wiring, sys: System, step: SysStep, id: nat)
    requires Sound(w.parse) && Enabled(w, sys, step) && !Concerns(sys, step, id)
    ensures var sys' := Do(w, sys, step);
      id in sys'.procs ==>
        && id in sys.procs
        && var proc, proc' := sys.procs[id], sys'.procs[id];
        && proc'.sent == proc.sent && proc'.taken == proc.taken && proc'.beats == proc.beats
  {
    hide OnEvent, EndIteration, Sound, AfterRead, ResponseFrame;
  }

  lemma OthersLeaveAlone(w: Wiring, sys: System, step: SysStep, id: nat)
    requires Sound(w.parse) && Enabled(w, sys, step) && !Concerns(sys, step, id)
    ensures LeavesAlone(sys, Do(w, sys, step), id)
  {
    ProcLeftAlone(w, sys, step, id);
    StepIsServerStep(w, sys, step);
    hide Do, Enabled, Advance, Sound;
    if ServerStep(step).Some? {
      AdvanceLeavesAlone(w.parse, sys.server, ServerStep(step).value, id);
    }
  }

  lemma TimeStep(w: Wiring, sys: System, step: SysStep, id: nat, accepted: int, clock: nat)
    requires WellWired(w) && Invariant(w, sys) && Enabled(w, sys, step)
    requires TimeOk(sys, id, accepted, clock) && StepNotBefore(step, clock)
    requires step.Accept? && step.id == id ==> accepted <= step.now
    ensures TimeOk(Do(w, sys, step), id, accepted, StepClock(step, clock))
  {
    assert Sound(w.parse) && clock <= StepClock(step, clock);
    hide WellWired, TimeOk, Sound, LeavesAlone, Batched, OnEvent, ProcOk, Consistent, PushesOk, ResponseFrame;
    if !Concerns(sys, step, id) {
      OthersLeaveAlone(w, sys, step, id);
      hide Do, Enabled, Invariant;
      TimeKept(sys, Do(w, sys, step), id, accepted, clock, StepClock(step, clock));
    } else {
      if !step.Connect? { TakenWasSent(w, sys, id); }
      match step
      case Connect(_, port) => TimeOfConnect(w, sys, id, port, accepted, clock);
      case SendSettings(_, interval) => TimeOfSettings(sys, id, interval, accepted, clock);
      case SendPulse(_, at) => TimeOfPulse(sys, id, at, accepted, clock);
      case Accept(_, now) => TimeOfAccept(w, sys, id, now, accepted, clock);
      case Batch(k, chunks, end, now) =>
        ClientBuffer(w, sys);
        TimeOfBatch(w, sys, k, chunks, end, now, accepted, clock);
    }
  }

  /** In every run in which the server accepts the client's connection at `accepted` or later. */
  lemma {:induction false} TimeAlways(w: Wiring, states: seq<System>, steps: seq<SysStep>, id: nat, accepted: int, n: nat)
    requires WellWired(w) && IsRun(w, states, steps) && InTime(steps) && n <= |steps|
    requires forall i :: 0 <= i < |steps| && steps[i].Accept? && steps[i].id == id ==> accepted <= steps[i].now
    ensures InTime(steps[..n]) && TimeOk(states[n], id, accepted, RunClock(steps[..n]))
    decreases n
  {
    InTimePrefix(steps, n);
    if n > 0 {
      TimeAlways(w, states, steps, id, accepted, n - 1);
      AlwaysOk(w, states, steps, n - 1);
      assert states[(n - 1) + 1] == Do(w, states[n - 1], steps[n - 1]) && Enabled(w, states[n - 1], steps[n - 1]);
      assert steps[..n][..n - 1] == steps[..n - 1];
      hide Do, Enabled, WellWired, Invariant, TimeOk, StepNotBefore, StepClock, IsRun;
      TimeStep(w, states[n - 1], steps[n - 1], id, accepted, RunClock(steps[..n - 1]));
    }
  }

  lemma {:induction false} InTimePrefix(steps: seq<SysStep>, n: nat)
    requires InTime(steps) && n <= |steps|
    ensures InTime(steps[..n])
    decreases |steps|
  {
    if n < |steps| {
      InTimePrefix(steps[..|steps| - 1], n);
      assert steps[..|steps| - 1][..n] == steps[..n];
    } else {
      assert steps[..n] == steps;
    }
  }

  /** The record is younger than 26 seconds if every heartbeat that is not handled yet is recent. `handled`
      counts the others. */
  lemma RecordIsFresh(freq: u32, begin: nat, b: Beats, pace: Pace, record: nat, handled: nat, setup: nat, delay: nat, now: nat)
    requires Regular(freq, begin, b, pace) && handled <= |b.written|
    requires if handled == 0 then begin <= record + setup else b.written[handled - 1] <= record
    requires if handled < |b.written| then now <= b.written[handled] + delay else now <= b.last + Bound(freq, pace)
    requires pace.work <= setup
    ensures now <= record + Bound(freq, pace) + pace.work + setup + delay
  {
    hide Bound;
    if 0 < handled < |b.written| {
      var i := handled - 1;
      assert b.written[i + 1] - b.written[i] <= Bound(freq, pace) + 2 * pace.work;
    }
  }

  /** What is assumed of a client and its connection when the server ends an iteration: so far the client
      has sent its heartbeats on schedule, it is still running, and those written more than `delay` ago have
      been handled. */
  predicate Punctual(sys: System, t: Times, id: nat, written: seq<nat>, running: nat, delay: nat) {
    && id in sys.procs && sys.procs[id].beats <= written
    && t.expiry <= running
    && (forall k :: 0 <= k < |written| && written[k] + delay < t.expiry ==> k < HandledBeats(sys.procs[id]))
  }

  /** In every run of the system whose client sends its heartbeats on a paced schedule, as long as setup,
      work, jitter and delivery stay within the slack, the server never drops the client for its silence: no
      end of an iteration does. */
  lemma NeverCutOff(w: Wiring, states: seq<System>, steps: seq<SysStep>, id: nat,
                    freq: u32, begin: nat, turns: seq<Turn>, pace: Pace, setup: nat, delay: nat, n: nat)
    requires WellWired(w) && IsRun(w, states, steps) && InTime(steps) && n < |steps| && steps[n].Finish?
    requires states[n].server.client.Some? && states[n].server.connection == id
    requires forall i :: 0 <= i < |steps| && steps[i].Accept? && steps[i].id == id ==> begin <= steps[i].now + setup
    requires Paced(freq, begin, turns, pace) && turns != []
    requires Punctual(states[n], steps[n].times, id, Beat(freq, begin, turns).written, turns[|turns| - 1].wake, delay)
    requires pace.work <= setup && Bound(freq, pace) + pace.work + setup + delay < 26 * SECOND
    ensures states[n + 1].server.client.Some? && states[n + 1].server.connection == id
  {
    var sys, step, b := states[n], steps[n], Beat(freq, begin, turns);
    var record, handled := sys.server.client.value.heartbeatAt, HandledBeats(sys.procs[id]);
    TimeAlways(w, states, steps, id, begin - setup, n);
    CheckTime(steps, n);
    RecordAt(sys, id, begin - setup, RunClock(steps[..n]), b.written);
    assert handled < |b.written| ==> step.times.expiry <= b.written[handled] + delay;
    assert states[n + 1] == Do(w, sys, step) && Enabled(w, sys, step) && Sound(w.parse);
    SendGaps(freq, begin, turns, pace);
    hide *;
    RecordIsFresh(freq, begin, b, pace, record, handled, setup, delay, step.times.expiry);
    FinishKeeps(w, sys, step);
  }

  lemma FinishKeeps(w: Wiring, sys: System, step: SysStep)
    requires Sound(w.parse) && Enabled(w, sys, step) && step.Finish? && sys.server.client.Some?
    requires sys.server.client.value.heartbeatAt <= step.times.expiry < sys.server.client.value.heartbeatAt + 26 * SECOND
    ensures var s := Do(w, sys, step).server; s.client.Some? && s.connection == sys.server.connection
  {
    CutOff(sys.server, step.times, step.padMode, step.udp, step.pad);
    EndEffect(sys.server, step.times, step.padMode, step.udp, step.pad);
    hide EndIteration, Sound;
  }

  lemma CheckTime(steps: seq<SysStep>, n: nat)
    requires InTime(steps) && n < |steps| && steps[n].Finish?
    ensures RunClock(steps[..n]) <= steps[n].times.expiry
  {
    InTimePrefix(steps, n + 1);
    assert steps[..n + 1][..n] == steps[..n];
  }

  lemma RecordAt(sys: System, id: nat, accepted: int, clock: nat, written: seq<nat>)
    requires TimeOk(sys, id, accepted, clock) && id in sys.procs && sys.procs[id].beats <= written
    requires sys.server.client.Some? && sys.server.connection == id
    ensures var record, handled := sys.server.client.value.heartbeatAt, HandledBeats(sys.procs[id]);
      && record <= clock && handled <= |written|
      && (if handled == 0 then accepted <= record else written[handled - 1] <= record)
  {
    hide Pulses, HandledBeats;
  }

  /** For the 25 seconds the server announces, and turns that work for less than a second, five seconds of
      slack are left to jitter, work, setup and delivery together. */
  lemma SlackAtTwentyFive(pace: Pace, setup: nat, delay: nat)
    requires pace.work < SECOND
    ensures Bound(25, pace) + pace.work + setup + delay < 26 * SECOND
       <==> pace.jitter + pace.work + setup + delay <= 5 * SECOND
  {
  }
}
