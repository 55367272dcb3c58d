/** `Connection` of the protocol crate: the two byte buffers and the calls that fill and drain them. */
module Connections {
  import opened Bytes
  import opened Reports
  import opened Framing

  datatype Packet = HandshakePacket(handshake: Handshake) | ConfigPacket(pollingInterval: u64)

  /** The FlatBuffers builder: the payload of a packet, without the size prefix. */
  type Encoder = Packet -> seq<byte>

  class Connection {
    const codec: Codec
    const encoder: Encoder
    var incoming: seq<byte>
    var outgoing: seq<byte>

    constructor (codec: Codec, encoder: Encoder)
      ensures this.codec == codec && this.encoder == encoder
      ensures incoming == [] && outgoing == []
    {
      this.codec, this.encoder := codec, encoder;
      incoming, outgoing := [], [];
    }

    method SendHandshake(handshake: Handshake)
      modifies this`outgoing
      ensures outgoing == AfterCall(encoder, old(outgoing), Send(HandshakePacket(handshake)))
    {
      var payload := encoder(HandshakePacket(handshake));
      outgoing := outgoing + ToLE(|payload|) + payload;
    }

    method SendConfig(pollingInterval: u64)
      modifies this`outgoing
      ensures outgoing == AfterCall(encoder, old(outgoing), Send(ConfigPacket(pollingInterval)))
    {
      var payload := encoder(ConfigPacket(pollingInterval));
      outgoing := outgoing + ToLE(|payload|) + payload;
    }

    method SendHeartbeat()
      modifies this`outgoing
      ensures outgoing == AfterCall(encoder, old(outgoing), Call.SendHeartbeat)
    {
      outgoing := outgoing + HEARTBEAT_MAGIC;
    }

    method ReceiveData(data: seq<byte>)
      modifies this`incoming
      ensures incoming == old(incoming) + data
    {
      incoming := incoming + data;
    }

    method RetrieveOutData() returns (data: seq<byte>)
      modifies this`outgoing
      ensures data == Yield(old(outgoing), Retrieve)
      ensures outgoing == AfterCall(encoder, old(outgoing), Retrieve)
    {
      data := outgoing;
      outgoing := [];
    }

    /** `ConnectionEvents::next`. An out-of-range `drain` panics before it removes anything. */
    method Next() returns (outcome: Outcome)
      modifies this`incoming
      ensures Taken(outcome, incoming) == Framing.Next(codec, old(incoming))
    {
      if |incoming| < if OFFSET_SIZE < HEARTBEAT_SIZE then OFFSET_SIZE else HEARTBEAT_SIZE {
        return Nothing;
      }
      if |incoming| >= HEARTBEAT_SIZE && incoming[..HEARTBEAT_SIZE] == HEARTBEAT_MAGIC {
        incoming := incoming[HEARTBEAT_SIZE..];
        return Item(Ok(HeartbeatReceived));
      }
      var size := FromLE(incoming);
      if size == 0 || |incoming[OFFSET_SIZE - 1..]| < size {
        return Nothing;
      }
      if |incoming| < OFFSET_SIZE + size {
        return Panic;
      }
      var payload := incoming[OFFSET_SIZE..OFFSET_SIZE + size];
      incoming := incoming[OFFSET_SIZE + size..];
      match codec(payload) {
        case Invalid => outcome := Item(InvalidPacket);
        case Content(event) => outcome := Item(Ok(event));
        case Silent => outcome := Nothing;
      }
    }
  }

  // ---------- Conservation of the outgoing buffer ----------

  datatype Call = Send(packet: Packet) | SendHeartbeat | Retrieve

  /** The bytes a call adds to the stream. */
  function Added(encoder: Encoder, call: Call): seq<byte> {
    match call
    case Send(packet) => Encode(Frame(encoder(packet)))
    case SendHeartbeat() => Encode(Heartbeat)
    case Retrieve => []
  }

  function AfterCall(encoder: Encoder, outgoing: seq<byte>, call: Call): seq<byte> {
    if call.Retrieve? then [] else outgoing + Added(encoder, call)
  }

  /** The bytes a call hands to the caller. */
  function Yield(outgoing: seq<byte>, call: Call): seq<byte> {
    if call.Retrieve? then outgoing else []
  }

  function Buffered(encoder: Encoder, outgoing: seq<byte>, calls: seq<Call>): seq<byte>
    decreases |calls|
  {
    if calls == [] then outgoing
    else Buffered(encoder, AfterCall(encoder, outgoing, calls[0]), calls[1..])
  }

  function Drains(encoder: Encoder, outgoing: seq<byte>, calls: seq<Call>): seq<byte>
    decreases |calls|
  {
    if calls == [] then []
    else Yield(outgoing, calls[0]) + Drains(encoder, AfterCall(encoder, outgoing, calls[0]), calls[1..])
  }

  function AddedByAll(encoder: Encoder, calls: seq<Call>): seq<byte> {
    if calls == [] then [] else Added(encoder, calls[0]) + AddedByAll(encoder, calls[1..])
  }

  /** Over any interleaving of sends and retrievals nothing is lost, repeated or reordered: the chunks
      handed out, followed by what is still buffered, are the encodings in call order. */
  lemma {:induction false} OutgoingConserved(encoder: Encoder, outgoing: seq<byte>, calls: seq<Call>)
    ensures Drains(encoder, outgoing, calls) + Buffered(encoder, outgoing, calls)
         == outgoing + AddedByAll(encoder, calls)
    decreases |calls|
  {
    if calls != [] {
      OneCallConserves(encoder, outgoing, calls[0]);
      hide Added, AfterCall, Yield;
      var after, rest := AfterCall(encoder, outgoing, calls[0]), calls[1..];
      OutgoingConserved(encoder, after, rest);
      var given, added := Yield(outgoing, calls[0]), Added(encoder, calls[0]);
      ConcatAssociative(given, Drains(encoder, after, rest), Buffered(encoder, after, rest));
      ConcatAssociative(given, after, AddedByAll(encoder, rest));
      ConcatAssociative(outgoing, added, AddedByAll(encoder, rest));
    }
  }

  lemma OneCallConserves(encoder: Encoder, outgoing: seq<byte>, call: Call)
    ensures Yield(outgoing, call) + AfterCall(encoder, outgoing, call) == outgoing + Added(encoder, call)
  {
    hide Encode;
  }

  // ---------- What arrives at the other end ----------

  /** The messages some calls send, in order. */
  function MessagesOf(encoder: Encoder, calls: seq<Call>): seq<Message> {
    if calls == [] then []
    else
      (match calls[0]
       case Send(packet) => [Frame(encoder(packet))]
       case SendHeartbeat() => [Heartbeat]
       case Retrieve => []) + MessagesOf(encoder, calls[1..])
  }

  lemma {:induction false} AddedIsEncoded(encoder: Encoder, calls: seq<Call>)
    ensures AddedByAll(encoder, calls) == EncodeAll(MessagesOf(encoder, calls))
  {
    if calls != [] {
      hide Encode;
      var rest := MessagesOf(encoder, calls[1..]);
      AddedIsEncoded(encoder, calls[1..]);
      if !calls[0].Retrieve? {
        var m := if calls[0].Send? then Frame(encoder(calls[0].packet)) else Heartbeat;
        assert ([m] + rest)[1..] == rest;
      } else {
        assert [] + rest == rest && [] + EncodeAll(rest) == EncodeAll(rest);
      }
    }
  }

  /** Everything a connection hands out and still holds parses to the messages of its calls, in call order
      with nothing left over, exactly if each of them can be decoded. */
  lemma SentIsParsed(encoder: Encoder, calls: seq<Call>)
    ensures ParseStream(Drains(encoder, [], calls) + Buffered(encoder, [], calls)) == Parse(MessagesOf(encoder, calls), [])
       <==> AllDecodable(MessagesOf(encoder, calls))
  {
    var ms := MessagesOf(encoder, calls);
    hide MessagesOf, Drains, Buffered, AddedByAll, EncodeAll, AllDecodable, Decodable;
    assert Split([]) == NoMessage;
    hide Split;
    OutgoingConserved(encoder, [], calls);
    AddedIsEncoded(encoder, calls);
    assert [] + EncodeAll(ms) == EncodeAll(ms) == EncodeAll(ms) + [];
    ParseSound(EncodeAll(ms));
    if AllDecodable(ms) {
      ParseEncodeAll(ms, []);
    }
  }

  /** In particular for all packets whose encodings fit a frame. */
  lemma PacketsAreParsed(encoder: Encoder, calls: seq<Call>)
    requires forall i :: 0 <= i < |calls| && calls[i].Send? ==> 0 < |encoder(calls[i].packet)| < U32_MAX
    ensures ParseStream(Drains(encoder, [], calls) + Buffered(encoder, [], calls)) == Parse(MessagesOf(encoder, calls), [])
  {
    FittingIsDecodable(encoder, calls);
    hide *;
    SentIsParsed(encoder, calls);
  }

  lemma {:induction false} FittingIsDecodable(encoder: Encoder, calls: seq<Call>)
    requires forall i :: 0 <= i < |calls| && calls[i].Send? ==> 0 < |encoder(calls[i].packet)| < U32_MAX
    ensures AllDecodable(MessagesOf(encoder, calls))
  {
    if calls != [] {
      FittingIsDecodable(encoder, calls[1..]);
    }
  }
}
