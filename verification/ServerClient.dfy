/** The `Client` class of client.hpp, method by method against the functions of `Peers`. */
module ServerClient {
  import opened Bytes
  import opened Reports
  import opened Peers

  class Client {
    var buffer: seq<byte>
    var state: State
    var pollingTime: u64
    var dataConnInfo: Option<u16>
    var heartbeatTime: u64
    var sentDataTime: u64

    ghost function Model(): Peer
      reads this
    {
      Peer(state, buffer, pollingTime, dataConnInfo, heartbeatTime, sentDataTime)
    }

    constructor (now: u64)
      ensures Model() == NewPeer(now)
    {
      buffer, state, pollingTime, dataConnInfo := [], WaitingForHandshake, MIN_POLLING_INTERVAL_MICROS, None;
      heartbeatTime, sentDataTime := now, now;
    }

    /** `ok` is false where the source throws. */
    method AddToBuffer(data: seq<byte>) returns (ok: bool)
      modifies this
      ensures ok == Peers.AddToBuffer(old(Model()), data).done
      ensures Model() == Peers.AddToBuffer(old(Model()), data).peer
    {
      if |buffer| + |data| > MAX_BUFFER_ACCEPTABLE_SIZE {
        buffer := [];
        return false;
      }
      buffer := buffer + data;
      return true;
    }

    method HandleHeartbeat(now: u64) returns (done: bool)
      modifies this
      ensures done == Peers.HandleHeartbeat(old(Model()), now).done
      ensures Model() == Peers.HandleHeartbeat(old(Model()), now).peer
    {
      if |buffer| < |HEARTBEAT_MAGIC| || buffer[..|HEARTBEAT_MAGIC|] != HEARTBEAT_MAGIC {
        return false;
      }
      heartbeatTime := now;
      buffer := buffer[|HEARTBEAT_MAGIC|..];
      return true;
    }

    method HandleData(parse: Parser) returns (done: bool)
      requires Sound(parse)
      modifies this
      ensures done == Peers.HandleData(parse, old(Model())).done
      ensures Model() == Peers.HandleData(parse, old(Model())).peer
    {
      if buffer == [] {
        return false;
      }
      var verdict := parse(buffer);
      match verdict {
        case Unhandled => return false;
        case Malformed =>
          buffer := [];
          return false;
        case Valid(content, size) =>
          match content {
            case HandshakeContent(port) =>
              dataConnInfo := Some(port);
              state := WaitingForServerConfirm;
            case ConfigContent(interval) =>
              if interval > MIN_POLLING_INTERVAL_MICROS {
                pollingTime := interval;
              }
          }
          buffer := buffer[size..];
          return true;
      }
    }

    /** `handle_ingoing_data`: receive until the socket has no more, then drain the buffer. */
    method HandleIngoingData(parse: Parser, chunks: seq<seq<byte>>, end: RecvEnd, now: u64) returns (disconnect: bool)
      requires Sound(parse)
      modifies this
      ensures disconnect <==> HandleIngoing(parse, old(Model()), chunks, end, now).Disconnected?
      ensures !disconnect ==> HandleIngoing(parse, old(Model()), chunks, end, now) == Kept(Model())
    {
      hide Peers.AddToBuffer, Peers.HandleHeartbeat, Peers.HandleData;
      ghost var p := Model();
      for i := 0 to |chunks|
        invariant Receive(p, chunks) == Receive(Model(), chunks[i..])
      {
        var ok := AddToBuffer(chunks[i]);
        if !ok {
          return true;
        }
        assert chunks[i..][1..] == chunks[i + 1..];
      }
      ghost var full := Model();
      var more := true;
      while more
        invariant if more then Drain(parse, full, now).peer == Drain(parse, Model(), now).peer
                  else Drain(parse, full, now).peer == Model()
        decreases more, |buffer|
      {
        HandlersConsume(parse, Model(), now);
        more := HandleHeartbeat(now);
        if !more {
          more := HandleData(parse);
        }
      }
      return end == Closed || end == ConnectionReset;
    }

    method IsPollingTimeElapsed(now: u64) returns (elapsed: bool)
      ensures elapsed <==> Peers.IsPollingTimeElapsed(Model(), now)
    {
      elapsed := Minus(now, sentDataTime) > pollingTime;
    }
  }
}
