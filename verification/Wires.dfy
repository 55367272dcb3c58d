/** What the repository's clients write to their TCP connections, and what the server makes of it. */
module Wires {
  import opened Bytes
  import opened Reports
  import Framing
  import opened Connections
  import opened Peers

  // ---------- What clients send ----------

  /** The repository's client sends its handshake first and only once, then settings and heartbeats. */
  datatype Sent = Shake(port: u16) | Settings(interval: u64) | Pulse

  /** The parts of FlatBuffers both sides rely on, and the payload of the server's response. */
  datatype Wiring = Wiring(parse: Parser, codec: Framing.Codec, encoder: Encoder, response: seq<byte>)

  function AsMessage(encoder: Encoder, m: Sent): Framing.Message {
    match m
    case Shake(port) => Framing.Frame(encoder(HandshakePacket(Handshake(ClientEnd, port, 0))))
    case Settings(interval) => Framing.Frame(encoder(ConfigPacket(interval)))
    case Pulse => Framing.Heartbeat
  }

  function AsBytes(encoder: Encoder, ms: seq<Sent>): seq<byte> {
    if ms == [] then [] else Framing.Encode(AsMessage(encoder, ms[0])) + AsBytes(encoder, ms[1..])
  }

  /** The call of the client's connection behind a message. */
  function CallOf(m: Sent): Call {
    match m
    case Shake(port) => Send(HandshakePacket(Handshake(ClientEnd, port, 0)))
    case Settings(interval) => Send(ConfigPacket(interval))
    case Pulse => Call.SendHeartbeat
  }

  /** The bytes of a client's messages are those its connection hands out for the calls that send them. */
  lemma {:induction false} ConnectionWrites(encoder: Encoder, ms: seq<Sent>)
    ensures AddedByAll(encoder, seq(|ms|, i requires 0 <= i < |ms| => CallOf(ms[i]))) == AsBytes(encoder, ms)
  {
    var calls := seq(|ms|, i requires 0 <= i < |ms| => CallOf(ms[i]));
    if ms != [] {
      ConnectionWrites(encoder, ms[1..]);
      assert calls[1..] == seq(|ms[1..]|, i requires 0 <= i < |ms[1..]| => CallOf(ms[1..][i]));
      assert calls[0] == CallOf(ms[0]);
      hide Framing.Encode;
    }
  }

  function ContentOf(m: Sent): Content
    requires !m.Pulse?
  {
    match m
    case Shake(port) => HandshakeContent(port)
    case Settings(interval) => ConfigContent(interval)
  }

  function ResponseFrame(w: Wiring): seq<byte> {
    Framing.Encode(Framing.Frame(w.response))
  }

  /** The server's parser recognises a client's packet at the head of whole packets, and frames have
      sizes that cannot be mistaken for the magic. */
  ghost predicate WellWired(w: Wiring) {
    && Sound(w.parse)
    && (forall p :: 0 < |w.encoder(p)| < U32_MAX)
    && (forall m: Sent, rest: seq<Sent> :: !m.Pulse? ==>
          w.parse(AsBytes(w.encoder, [m] + rest)) ==
            Valid(ContentOf(m), |Framing.Encode(AsMessage(w.encoder, m))|))
    && 0 < |w.response| < U32_MAX
  }

  // ---------- The server's drain loop on whole messages ----------

  function Absorb(p: Peer, m: Sent, now: u64): Peer {
    match m
    case Shake(port) => HandleHandshake(p, port)
    case Settings(interval) => HandleConfig(p, interval)
    case Pulse => p.(heartbeatAt := now)
  }

  function AbsorbAll(p: Peer, ms: seq<Sent>, now: u64): Peer
    decreases |ms|
  {
    if ms == [] then p else AbsorbAll(Absorb(p, ms[0], now), ms[1..], now)
  }

  lemma PulseFirst(w: Wiring, p: Peer, rest: seq<byte>, now: u64)
    ensures var r := HandleHeartbeat(p.(buffer := Framing.Encode(Framing.Heartbeat) + rest), now);
      r.done && r.peer == p.(heartbeatAt := now, buffer := rest)
  {
    var buf := Framing.Encode(Framing.Heartbeat) + rest;
    assert buf[..HEARTBEAT_SIZE] == HEARTBEAT_MAGIC && buf[HEARTBEAT_SIZE..] == rest;
  }

  lemma PacketFirst(w: Wiring, m: Sent, rest: seq<Sent>)
    requires WellWired(w) && !m.Pulse?
    ensures var buf := AsBytes(w.encoder, [m] + rest);
      && !Framing.StartsWithMagic(buf)
      && w.parse(buf) == Valid(ContentOf(m), |Framing.Encode(AsMessage(w.encoder, m))|)
  {
    var payload := AsMessage(w.encoder, m).payload;
    Framing.MagicHead(payload, AsBytes(w.encoder, rest));
    assert ([m] + rest)[1..] == rest;
  }

  lemma PacketHandled(parse: Parser, p: Peer, m: Sent, e: seq<byte>, rest: seq<byte>, now: u64)
    requires !m.Pulse? && e != []
    requires !Framing.StartsWithMagic(e + rest) && parse(e + rest) == Valid(ContentOf(m), |e|)
    ensures var full := p.(buffer := e + rest);
      && !HandleHeartbeat(full, now).done
      && HandleData(parse, full).done && HandleData(parse, full).peer == Absorb(p, m, now).(buffer := rest)
  {
    hide Framing.StartsWithMagic;
    assert (e + rest)[|e|..] == rest;
  }

  lemma FirstMessage(w: Wiring, p: Peer, ms: seq<Sent>, now: u64)
    requires WellWired(w) && ms != []
    ensures var full, rest := p.(buffer := AsBytes(w.encoder, ms)), AsBytes(w.encoder, ms[1..]);
      var beat := HandleHeartbeat(full, now);
      var step := if beat.done then beat else HandleData(w.parse, full);
      step.done && step.peer == Absorb(p, ms[0], now).(buffer := rest)
  {
    var e, rest := Framing.Encode(AsMessage(w.encoder, ms[0])), AsBytes(w.encoder, ms[1..]);
    assert AsBytes(w.encoder, ms) == e + rest;
    if ms[0].Pulse? {
      hide HandleHeartbeat;
      PulseFirst(w, p, rest, now);
    } else {
      PacketFirst(w, ms[0], ms[1..]);
      assert [ms[0]] + ms[1..] == ms && |e| > 0;
      hide *;
      PacketHandled(w.parse, p, ms[0], e, rest, now);
    }
  }

  /** On a batch that ends on a message boundary the drain loop handles exactly the messages sent, in order,
      and empties the buffer. */
  lemma {:induction false} DrainAligned(w: Wiring, p: Peer, ms: seq<Sent>, now: u64)
    requires WellWired(w) && p.buffer == []
    ensures Drain(w.parse, p.(buffer := AsBytes(w.encoder, ms)), now).peer == AbsorbAll(p, ms, now)
    decreases |ms|
  {
    if ms == [] {
      assert p.(buffer := []) == p;
    } else {
      FirstMessage(w, p, ms, now);
      hide HandleHeartbeat, HandleData, Framing.Encode, AsMessage, WellWired;
      var p' := Absorb(p, ms[0], now);
      DrainAligned(w, p', ms[1..], now);
      assert p'.(buffer := AsBytes(w.encoder, ms[1..])).buffer == AsBytes(w.encoder, ms[1..]);
    }
  }

  lemma {:induction false} ReceiveAll(p: Peer, chunks: seq<seq<byte>>)
    ensures var r := Receive(p, chunks); r.done ==> r.peer == p.(buffer := p.buffer + Concat(chunks))
    decreases |chunks|
  {
    if chunks == [] {
      assert p.buffer + [] == p.buffer;
    } else if AddToBuffer(p, chunks[0]).done {
      ReceiveAll(AddToBuffer(p, chunks[0]).peer, chunks[1..]);
      assert p.buffer + chunks[0] + Concat(chunks[1..]) == p.buffer + (chunks[0] + Concat(chunks[1..]));
    }
  }

  lemma IngoingAligned(w: Wiring, p: Peer, chunks: seq<seq<byte>>, ms: seq<Sent>, end: RecvEnd, now: u64)
    requires WellWired(w) && p.buffer == [] && Concat(chunks) == AsBytes(w.encoder, ms)
    ensures var r := HandleIngoing(w.parse, p, chunks, end, now); r.Kept? ==> r.peer == AbsorbAll(p, ms, now)
  {
    hide Receive, Drain, WellWired;
    ReceiveAll(p, chunks);
    DrainAligned(w, p, ms, now);
    assert [] + Concat(chunks) == Concat(chunks);
  }

  /** Handshakes wait for a confirmation, and nothing else changes the state. */
  lemma {:induction false} AbsorbShakes(p: Peer, ms: seq<Sent>, now: u64)
    ensures var p' := AbsorbAll(p, ms, now);
      p'.state == if exists i :: 0 <= i < |ms| && ms[i].Shake? then WaitingForServerConfirm else p.state
    decreases |ms|
  {
    if ms != [] {
      var rest := ms[1..];
      AbsorbShakes(Absorb(p, ms[0], now), rest, now);
      hide AbsorbAll;
      assert forall i :: 0 < i < |ms| ==> ms[i] == rest[i - 1];
      if i :| 0 <= i < |rest| && rest[i].Shake? { assert ms[i + 1].Shake?; }
    }
  }

  /** The polling interval in force after some messages: that of the last settings above the minimum. */
  function Interval(ms: seq<Sent>): u64 {
    if ms == [] then MIN_POLLING_INTERVAL_MICROS
    else
      var last := ms[|ms| - 1];
      if last.Settings? && last.interval > MIN_POLLING_INTERVAL_MICROS then last.interval
      else Interval(ms[..|ms| - 1])
  }

  lemma {:induction false} AbsorbInterval(p: Peer, earlier: seq<Sent>, ms: seq<Sent>, now: u64)
    requires p.pollingTime == Interval(earlier)
    ensures AbsorbAll(p, ms, now).pollingTime == Interval(earlier + ms)
    decreases |ms|
  {
    if ms == [] {
      assert earlier + ms == earlier;
    } else {
      var more := earlier + [ms[0]];
      assert more[..|more| - 1] == earlier;
      AbsorbInterval(Absorb(p, ms[0], now), more, ms[1..], now);
      assert more + ms[1..] == earlier + ms;
    }
  }

  function Pulses(ms: seq<Sent>): nat {
    if ms == [] then 0 else (if ms[0].Pulse? then 1 else 0) + Pulses(ms[1..])
  }

  lemma {:induction false} PulsesAppend(a: seq<Sent>, b: seq<Sent>)
    ensures Pulses(a + b) == Pulses(a) + Pulses(b)
  {
    if a == [] {
      assert a + b == b;
    } else {
      assert (a + b)[1..] == a[1..] + b;
      PulsesAppend(a[1..], b);
    }
  }

  lemma {:induction false} AbsorbBeats(p: Peer, ms: seq<Sent>, now: u64)
    ensures AbsorbAll(p, ms, now).heartbeatAt == if Pulses(ms) > 0 then now else p.heartbeatAt
    decreases |ms|
  {
    if ms != [] {
      AbsorbBeats(Absorb(p, ms[0], now), ms[1..], now);
    }
  }

  /** Without a handshake among them, messages leave state and data port alone. */
  lemma {:induction false} AbsorbQuiet(p: Peer, ms: seq<Sent>, now: u64)
    requires forall i :: 0 <= i < |ms| ==> !ms[i].Shake?
    ensures var p' := AbsorbAll(p, ms, now); p'.state == p.state && p'.dataPort == p.dataPort && p'.buffer == p.buffer
    decreases |ms|
  {
    if ms != [] {
      assert !ms[0].Shake?;
      AbsorbQuiet(Absorb(p, ms[0], now), ms[1..], now);
    }
  }
}
