/** The server's view of its client in client.hpp, on values: the receive buffer, the session state and the
    timers. Clock readings are parameters, in microseconds. */
module Peers {
  import opened Bytes
  import opened Reports
  import Framing

  const MIN_POLLING_INTERVAL_MICROS: u64 := (1 * 1000 / 144) * 1000
  const MAX_BUFFER_ACCEPTABLE_SIZE: nat := 1024 * 1024
  const U64: int := 0x1_0000_0000_0000_0000

  datatype State = WaitingForHandshake | WaitingForServerConfirm | Connected

  datatype Content = HandshakeContent(port: u16) | ConfigContent(pollingInterval: u64)

  /** What FlatBuffers makes of the head of a buffer: a content type without a handler, one that has a
      handler but fails verification, or a packet and the size the verifier computed for it. */
  datatype Verdict = Unhandled | Malformed | Valid(content: Content, size: nat)

  type Parser = seq<byte> -> Verdict

  /** The computed size is positive and no larger than the buffer. */
  ghost predicate Sound(parse: Parser) {
    forall b :: parse(b).Valid? ==> 0 < parse(b).size <= |b|
  }

  datatype Peer = Peer(
    state: State, buffer: seq<byte>, pollingTime: u64, dataPort: Option<u16>, heartbeatAt: u64, sentAt: u64)

  function NewPeer(now: u64): Peer {
    Peer(WaitingForHandshake, [], MIN_POLLING_INTERVAL_MICROS, None, now, now)
  }

  // ---------- Handlers, on values ----------

  /** The result of a buffer operation: whether it did its work, the bytes it consumed from the front, and
      whether it threw the whole buffer away. */
  datatype Result = Result(done: bool, peer: Peer, consumed: seq<byte>, cleared: bool)

  function HandleHandshake(p: Peer, port: u16): Peer {
    p.(dataPort := Some(port), state := WaitingForServerConfirm)
  }

  function HandleConfig(p: Peer, interval: u64): Peer {
    if interval > MIN_POLLING_INTERVAL_MICROS then p.(pollingTime := interval) else p
  }

  function Handle(p: Peer, content: Content): Peer {
    match content
    case HandshakeContent(port) => HandleHandshake(p, port)
    case ConfigContent(interval) => HandleConfig(p, interval)
  }

  function HandleHeartbeat(p: Peer, now: u64): Result {
    if !Framing.StartsWithMagic(p.buffer) then Result(false, p, [], false)
    else
      Result(true, p.(heartbeatAt := now, buffer := p.buffer[HEARTBEAT_SIZE..]), p.buffer[..HEARTBEAT_SIZE], false)
  }

  function HandleData(parse: Parser, p: Peer): Result {
    if p.buffer == [] then Result(false, p, [], false)
    else
      match parse(p.buffer)
      case Unhandled => Result(false, p, [], false)
      case Malformed => Result(false, p.(buffer := []), [], true)
      case Valid(content, size) =>
        if size > |p.buffer| then Result(false, p, [], false)
        else Result(true, Handle(p, content).(buffer := p.buffer[size..]), p.buffer[..size], false)
  }

  function AddToBuffer(p: Peer, data: seq<byte>): Result {
    if |p.buffer| + |data| > MAX_BUFFER_ACCEPTABLE_SIZE then Result(false, p.(buffer := []), [], true)
    else Result(true, p.(buffer := p.buffer + data), [], false)
  }

  /** The loop `while (handle_heartbeat() || handle_data())`. */
  function Drain(parse: Parser, p: Peer, now: u64): Result
    requires Sound(parse)
    decreases |p.buffer|
  {
    var beat := HandleHeartbeat(p, now);
    var step := if beat.done then beat else HandleData(parse, p);
    if !step.done then step
    else
      var rest := Drain(parse, step.peer, now);
      Result(rest.done, rest.peer, step.consumed + rest.consumed, rest.cleared)
  }

  /** The receive loop; it stops at the first chunk that overflows the buffer. */
  function Receive(p: Peer, chunks: seq<seq<byte>>): Result
    decreases |chunks|
  {
    if chunks == [] then Result(true, p, [], false)
    else
      var added := AddToBuffer(p, chunks[0]);
      if !added.done then added else Receive(added.peer, chunks[1..])
  }

  /** How the last `sceNetRecv` of a batch ended. */
  datatype RecvEnd = WouldBlock | Closed | ConnectionReset | OtherError

  datatype Ingoing = Kept(peer: Peer) | Disconnected

  /** `handle_ingoing_data` and the handlers around it: an overflow, a closed connection and a reset
      disconnect, any other network error is ignored. */
  function HandleIngoing(parse: Parser, p: Peer, chunks: seq<seq<byte>>, end: RecvEnd, now: u64): Ingoing
    requires Sound(parse)
  {
    var received := Receive(p, chunks);
    if !received.done then Disconnected
    else if end == Closed || end == ConnectionReset then Disconnected
    else Kept(Drain(parse, received.peer, now).peer)
  }

  // ---------- Timers ----------

  /** Unsigned 64-bit subtraction. */
  function Minus(a: u64, b: u64): u64 {
    (a - b) % U64
  }

  function ElapsedSecs(since: u64, now: u64): u64 {
    Minus(now, since) / 1000000
  }

  predicate IsPollingTimeElapsed(p: Peer, now: u64) {
    Minus(now, p.sentAt) > p.pollingTime
  }

  /** `std::clamp`. */
  function Clamp(v: int, lo: int, hi: int): (r: int)
    requires lo <= hi
    ensures lo <= r <= hi
  {
    if v < lo then lo else if v > hi then hi else v
  }

  function RemainingPollingTime(p: Peer, now: u64): u64 {
    Clamp(Minus(p.pollingTime, Minus(now, p.sentAt)), 0, p.pollingTime)
  }

  /** The clamp against zero never acts on an unsigned difference: an overdue client is waited for a whole
      polling interval again. The remaining time is the intended one exactly when it is not overdue. */
  lemma RemainingTime(p: Peer, now: u64)
    requires p.pollingTime > 0
    ensures var elapsed := Minus(now, p.sentAt);
      && RemainingPollingTime(p, now) == (if elapsed <= p.pollingTime then p.pollingTime - elapsed else p.pollingTime)
      && (RemainingPollingTime(p, now) == (if elapsed < p.pollingTime then p.pollingTime - elapsed else 0)
          <==> !IsPollingTimeElapsed(p, now))
  {
  }

  // ---------- Conservation ----------

  /** A handler that did its work removed the bytes it consumed, at least one; one that did not leaves the
      buffer alone or clears it. */
  lemma HandlersConsume(parse: Parser, p: Peer, now: u64)
    requires Sound(parse)
    ensures var r := HandleHeartbeat(p, now);
      if r.done then p.buffer == r.consumed + r.peer.buffer && r.consumed != [] && !r.cleared else r.peer == p && !r.cleared
    ensures var r := HandleData(parse, p);
      if r.done then p.buffer == r.consumed + r.peer.buffer && r.consumed != [] && !r.cleared
      else r.consumed == [] && r.peer == if r.cleared then p.(buffer := []) else p
  {
  }

  /** The drain loop conserves bytes too, and stops only where neither handler can go on. */
  lemma {:induction false} DrainConserves(parse: Parser, p: Peer, now: u64)
    requires Sound(parse)
    ensures var r := Drain(parse, p, now);
      && (if r.cleared then r.consumed <= p.buffer && r.peer.buffer == [] else p.buffer == r.consumed + r.peer.buffer)
      && !HandleHeartbeat(r.peer, now).done && !HandleData(parse, r.peer).done
    decreases |p.buffer|
  {
    HandlersConsume(parse, p, now);
    var beat := HandleHeartbeat(p, now);
    var step := if beat.done then beat else HandleData(parse, p);
    if step.done {
      hide HandleData, HandleHeartbeat;
      DrainConserves(parse, step.peer, now);
      var rest := Drain(parse, step.peer, now);
      if !rest.cleared {
        ConcatAssociative(step.consumed, rest.consumed, rest.peer.buffer);
      }
    }
  }

  datatype Op = Added(data: seq<byte>) | Beat(now: u64) | Data

  function Perform(parse: Parser, p: Peer, op: Op): Result {
    match op
    case Added(data) => AddToBuffer(p, data)
    case Beat(now) => HandleHeartbeat(p, now)
    case Data => HandleData(parse, p)
  }

  datatype Ledger = Ledger(peer: Peer, accepted: seq<byte>, consumed: seq<byte>, cleared: bool)

  /** Any interleaving of receives and handlers, with the bytes accepted and consumed so far. */
  function Account(parse: Parser, p: Peer, ops: seq<Op>): Ledger {
    if ops == [] then Ledger(p, [], [], false)
    else
      var before := Account(parse, p, ops[..|ops| - 1]);
      var op := ops[|ops| - 1];
      var r := Perform(parse, before.peer, op);
      Ledger(r.peer, before.accepted + (if op.Added? && r.done then op.data else []), before.consumed + r.consumed,
             before.cleared || r.cleared)
  }

  lemma PerformConserves(parse: Parser, p: Peer, op: Op)
    requires Sound(parse) && |p.buffer| <= MAX_BUFFER_ACCEPTABLE_SIZE
    ensures var r := Perform(parse, p, op);
      && |r.peer.buffer| <= MAX_BUFFER_ACCEPTABLE_SIZE
      && (!r.cleared ==> p.buffer + (if op.Added? && r.done then op.data else []) == r.consumed + r.peer.buffer)
  {
  }

  /** Until the buffer is cleared, the bytes accepted are the bytes consumed followed by the bytes still
      buffered; and the buffer never outgrows its limit, cleared or not. */
  lemma {:induction false} BufferConserved(parse: Parser, p: Peer, ops: seq<Op>)
    requires Sound(parse) && p.buffer == []
    ensures var l := Account(parse, p, ops);
      && (!l.cleared ==> l.accepted == l.consumed + l.peer.buffer)
      && |l.peer.buffer| <= MAX_BUFFER_ACCEPTABLE_SIZE
  {
    if ops != [] {
      hide Perform;
      var before, op := Account(parse, p, ops[..|ops| - 1]), ops[|ops| - 1];
      BufferConserved(parse, p, ops[..|ops| - 1]);
      PerformConserves(parse, before.peer, op);
      var r := Perform(parse, before.peer, op);
      var added := if op.Added? && r.done then op.data else [];
      ConcatAssociative(before.consumed, before.peer.buffer, added);
      ConcatAssociative(before.consumed, r.consumed, r.peer.buffer);
    }
  }

  /** The polling interval never falls below its minimum. */
  lemma {:induction false} PollingTimeKept(parse: Parser, p: Peer, ops: seq<Op>)
    requires p.pollingTime >= MIN_POLLING_INTERVAL_MICROS
    ensures Account(parse, p, ops).peer.pollingTime >= MIN_POLLING_INTERVAL_MICROS
  {
    if ops != [] {
      PollingTimeKept(parse, p, ops[..|ops| - 1]);
    }
  }
}
