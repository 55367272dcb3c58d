/** The client's single read of the handshake response, when the server's earlier attempts were cut off
    part-way: what the mixture of their bytes can be taken for. */
module Mixtures {
  import opened Bytes
  import opened Reports
  import Framing
  import opened Wires

  datatype Phase = AwaitingResponse | Ready(heartbeatFreq: u32) | Failed

  const READ_SIZE: nat := 2048

  /** What the client makes of the bytes its read returned. */
  function AfterRead(w: Wiring, received: seq<byte>): Phase {
    match Framing.Next(w.codec, received).outcome
    case Item(Ok(HandshakeResponseReceived(h))) => Ready(h.heartbeatFreq)
    case _ => Failed
  }

  predicate IsHandshake(w: Wiring, payload: seq<byte>) {
    w.codec(payload).Content? && w.codec(payload).event.HandshakeResponseReceived?
  }

  /** A client passes its wait exactly if a whole frame stands at the front of what it read and the codec
      reads the payload as a handshake. */
  lemma PassesExactly(w: Wiring, received: seq<byte>)
    ensures AfterRead(w, received).Ready? <==>
              var head := Framing.Split(received);
              head.Head? && head.message.Frame? && IsHandshake(w, head.message.payload)
  {
    Framing.ShippedGuard(w.codec, received);
    hide Framing.Next, Framing.Split, Framing.OneByteShort;
  }

  /** A client that reads the whole response passes its wait and learns the server's heartbeat interval. */
  lemma ResponsePasses(w: Wiring, h: Handshake)
    requires WellWired(w) && w.codec(w.response) == Framing.Content(HandshakeResponseReceived(h))
    ensures AfterRead(w, ResponseFrame(w)) == Ready(h.heartbeatFreq)
  {
    var m := Framing.Frame(w.response);
    Framing.SplitEncode(m, []);
    assert Framing.Encode(m) + [] == Framing.Encode(m);
    Framing.ShippedGuard(w.codec, Framing.Encode(m));
  }

  /** The server's handshake response, cut short anywhere, does not let a client pass. */
  lemma PartialResponseFails(w: Wiring, received: seq<byte>)
    requires 0 < |w.response| < U32_MAX && received <= ResponseFrame(w) && |received| < |ResponseFrame(w)|
    ensures AfterRead(w, received) == Failed
  {
    var m := Framing.Frame(w.response);
    assert received == Framing.Encode(m)[..|received|];
    Framing.ProperPrefix(m, |received|);
    PassesExactly(w, received);
  }

  // ---------- Attempts cut off part-way ----------

  /** How many bytes of the frame each of some attempts wrote: some, but not all. */
  predicate PartWay(frame: seq<byte>, cuts: seq<nat>) {
    forall i :: 0 <= i < |cuts| ==> 0 < cuts[i] < |frame|
  }

  /** The bytes the attempts left in the connection. */
  function Wreckage(frame: seq<byte>, cuts: seq<nat>): seq<byte>
    requires PartWay(frame, cuts)
  {
    if cuts == [] then [] else frame[..cuts[0]] + Wreckage(frame, cuts[1..])
  }

  lemma {:induction false} WreckageSnoc(frame: seq<byte>, cuts: seq<nat>, c: nat)
    requires PartWay(frame, cuts) && 0 < c < |frame|
    ensures PartWay(frame, cuts + [c]) && Wreckage(frame, cuts + [c]) == Wreckage(frame, cuts) + frame[..c]
  {
    var all := cuts + [c];
    if cuts == [] {
      assert all[1..] == [] && Wreckage(frame, all) == frame[..c] + Wreckage(frame, all[1..]);
    } else {
      assert all[1..] == cuts[1..] + [c];
      WreckageSnoc(frame, cuts[1..], c);
      ConcatAssociative(frame[..cuts[0]], Wreckage(frame, cuts[1..]), frame[..c]);
    }
  }

  /** The attempts add up to a frame that fits one read and that the codec takes for a handshake. */
  predicate Mixes(w: Wiring, cuts: seq<nat>)
    requires PartWay(ResponseFrame(w), cuts)
  {
    var head := Framing.Split(Wreckage(ResponseFrame(w), cuts));
    head.Head? && head.message.Frame? && IsHandshake(w, head.message.payload)
    && OFFSET_SIZE + |head.message.payload| <= READ_SIZE
  }

  /** A read may return the first n bytes of what arrived, and then the client passes. */
  predicate PassesOn(w: Wiring, bytes: seq<byte>, n: nat) {
    n <= |bytes| && n <= READ_SIZE && AfterRead(w, bytes[..n]).Ready?
  }

  lemma ReadMixes(w: Wiring, cuts: seq<nat>, n: nat)
    requires PartWay(ResponseFrame(w), cuts) && PassesOn(w, Wreckage(ResponseFrame(w), cuts), n)
    ensures Mixes(w, cuts)
  {
    var bytes := Wreckage(ResponseFrame(w), cuts);
    PassesExactly(w, bytes[..n]);
    Framing.SplitSound(bytes[..n]);
    Framing.SplitStable(bytes[..n], bytes[n..]);
    assert bytes[..n] + bytes[n..] == bytes;
    hide Framing.Split, IsHandshake, Wreckage;
  }

  /** How much a read must return to see the frame at the front. */
  lemma ReadOfMixture(w: Wiring, cuts: seq<nat>) returns (n: nat)
    requires PartWay(ResponseFrame(w), cuts) && Mixes(w, cuts)
    ensures PassesOn(w, Wreckage(ResponseFrame(w), cuts), n)
  {
    var bytes := Wreckage(ResponseFrame(w), cuts);
    var e := Framing.Encode(Framing.Split(bytes).message);
    n := |e|;
    Framing.SplitSound(bytes);
    Framing.SplitEncode(Framing.Split(bytes).message, []);
    hide Framing.Split, Wreckage;
    assert bytes[..n] == e + [];
    PassesExactly(w, bytes[..n]);
  }

  /** A client can pass on the bytes of failed attempts, whatever one read returns of them, exactly if they
      mix to a handshake. */
  lemma MixesExactly(w: Wiring, cuts: seq<nat>)
    requires PartWay(ResponseFrame(w), cuts)
    ensures Mixes(w, cuts) <==> exists n :: PassesOn(w, Wreckage(ResponseFrame(w), cuts), n)
  {
    hide *;
    if Mixes(w, cuts) {
      var n := ReadOfMixture(w, cuts);
    }
    if n :| PassesOn(w, Wreckage(ResponseFrame(w), cuts), n) {
      ReadMixes(w, cuts, n);
    }
  }

  /** Later attempts do not undo a mixture. */
  lemma MixesStays(w: Wiring, cuts: seq<nat>, c: nat)
    requires PartWay(ResponseFrame(w), cuts) && 0 < c < |ResponseFrame(w)| && Mixes(w, cuts)
    ensures PartWay(ResponseFrame(w), cuts + [c]) && Mixes(w, cuts + [c])
  {
    var frame := ResponseFrame(w);
    WreckageSnoc(frame, cuts, c);
    hide Framing.Split, IsHandshake, Wreckage;
    Framing.SplitStable(Wreckage(frame, cuts), frame[..c]);
  }

  // ---------- In terms of the cuts ----------

  lemma Complete(prefix: seq<byte>, payload: seq<byte>, a: nat, later: seq<byte>)
    requires |prefix| <= a <= |prefix + payload| <= a + |later|
    ensures var k := |prefix + payload| - a;
      (prefix + payload)[..a] + later == prefix + (payload[..a - |prefix|] + later[..k]) + later[k..]
  {
    assert (prefix + payload)[..a] == prefix + payload[..a - |prefix|];
  }

  lemma SplitPayload(payload: seq<byte>, rest: seq<byte>)
    requires 0 < |payload| < U32_MAX
    ensures Framing.Split(ToLE(|payload|) + payload + rest) == Framing.Head(Framing.Frame(payload), rest)
  {
    Framing.SplitEncode(Framing.Frame(payload), rest);
    hide Framing.Split;
  }

  lemma FrameOfResponse(w: Wiring)
    ensures ResponseFrame(w) == ToLE(|w.response|) + w.response && |ToLE(|w.response|)| == OFFSET_SIZE
    ensures |ResponseFrame(w)| == OFFSET_SIZE + |w.response|
  {
  }

  lemma MixedFrame(w: Wiring, a: nat, later: seq<byte>)
    requires 0 < |w.response| < U32_MAX && OFFSET_SIZE <= a < |ResponseFrame(w)| && a + |later| >= |ResponseFrame(w)|
    ensures var frame := ResponseFrame(w);
      Framing.Split(frame[..a] + later) ==
        Framing.Head(Framing.Frame(w.response[..a - OFFSET_SIZE] + later[..|frame| - a]), later[|frame| - a..])
  {
    hide *;
    var prefix, k := ToLE(|w.response|), |ResponseFrame(w)| - a;
    FrameOfResponse(w);
    var payload := w.response[..a - OFFSET_SIZE] + later[..k];
    SplitPayload(payload, later[k..]);
    Complete(prefix, w.response, a, later);
  }

  lemma UnfinishedFrame(w: Wiring, a: nat, later: seq<byte>)
    requires 0 < |w.response| < U32_MAX && OFFSET_SIZE <= a < |ResponseFrame(w)| && a + |later| < |ResponseFrame(w)|
    ensures Framing.Split(ResponseFrame(w)[..a] + later) == Framing.NoMessage
  {
    var bytes := ResponseFrame(w)[..a] + later;
    LERoundTrip(|w.response|);
    assert bytes[..OFFSET_SIZE] == ToLE(|w.response|);
    assert FromLE(bytes) == |w.response|;
  }

  /** After a first attempt that wrote the size prefix, the client passes exactly if a whole frame's worth
      of bytes was written and the codec accepts the payload completed with bytes of later attempts. */
  lemma AfterSizePrefix(w: Wiring, a: nat, later: seq<byte>)
    requires 0 < |w.response| < U32_MAX && OFFSET_SIZE <= a < |ResponseFrame(w)|
    ensures var frame := ResponseFrame(w);
      AfterRead(w, frame[..a] + later).Ready? <==>
        a + |later| >= |frame| && IsHandshake(w, w.response[..a - OFFSET_SIZE] + later[..|frame| - a])
  {
    PassesExactly(w, ResponseFrame(w)[..a] + later);
    if a + |later| >= |ResponseFrame(w)| {
      MixedFrame(w, a, later);
    } else {
      UnfinishedFrame(w, a, later);
    }
    hide IsHandshake, AfterRead, Framing.Split;
  }

  /** After a first attempt that wrote only part of the size prefix, later bytes complete the prefix, and the
      client passes exactly if they go on with as many bytes as it then says and the codec accepts those. */
  lemma BeforeSizePrefix(w: Wiring, a: nat, later: seq<byte>)
    requires a < OFFSET_SIZE && a < |ResponseFrame(w)|
    ensures var bytes := ResponseFrame(w)[..a] + later;
      AfterRead(w, bytes).Ready? <==>
        && |bytes| >= OFFSET_SIZE && !Framing.StartsWithMagic(bytes)
        && 0 < FromLE(bytes) <= |bytes| - OFFSET_SIZE
        && IsHandshake(w, bytes[OFFSET_SIZE..OFFSET_SIZE + FromLE(bytes)])
  {
    PassesExactly(w, ResponseFrame(w)[..a] + later);
    hide IsHandshake, Framing.StartsWithMagic;
  }

  lemma WreckageOfTwo(frame: seq<byte>, a: nat, b: nat)
    requires 0 < a < |frame| && 0 < b < |frame|
    ensures PartWay(frame, [a, b]) && Wreckage(frame, [a, b]) == frame[..a] + frame[..b]
  {
    WreckageSnoc(frame, [], a);
    assert [] + [a] == [a] && [] + frame[..a] == frame[..a];
    WreckageSnoc(frame, [a], b);
    assert [a] + [b] == [a, b];
  }

  /** Two attempts cut off after the size prefix and anywhere: the exact condition. */
  lemma TwoPartialSends(w: Wiring, a: nat, b: nat)
    requires 0 < |w.response| < U32_MAX && OFFSET_SIZE <= a < |ResponseFrame(w)| && b < |ResponseFrame(w)|
    ensures var frame := ResponseFrame(w);
      AfterRead(w, frame[..a] + frame[..b]).Ready? <==>
        a + b >= |frame| && IsHandshake(w, w.response[..a - OFFSET_SIZE] + frame[..|frame| - a])
  {
    var frame := ResponseFrame(w);
    hide *;
    AfterSizePrefix(w, a, frame[..b]);
    if a + b >= |frame| {
      assert frame[..b][..|frame| - a] == frame[..|frame| - a];
    }
  }

  // ---------- A condition without the codec ----------

  /** The first two bytes of wreckage. */
  lemma FirstBytes(frame: seq<byte>, cuts: seq<nat>)
    requires PartWay(frame, cuts) && cuts != []
    ensures var bytes := Wreckage(frame, cuts);
      && |bytes| > 0 && bytes[0] == frame[0]
      && (|bytes| > 1 && cuts[0] > 1 ==> bytes[1] == frame[1])
      && (|bytes| > 1 && cuts[0] == 1 ==> cuts[1..] != [] && bytes[1..] == Wreckage(frame, cuts[1..]) && bytes[1] == frame[0])
  {
    if cuts[1..] != [] {
      assert Wreckage(frame, cuts[1..]) == frame[..cuts[1..][0]] + Wreckage(frame, cuts[1..][1..]);
    }
  }

  /** However the first attempts scramble a small size prefix, the size it says does not shrink, unless it
      becomes zero. */
  lemma ScrambledSize(w: Wiring, cuts: seq<nat>)
    requires 0 < |w.response| < 0x1_0000 && PartWay(ResponseFrame(w), cuts)
    requires |Wreckage(ResponseFrame(w), cuts)| >= OFFSET_SIZE
    ensures var size := FromLE(Wreckage(ResponseFrame(w), cuts)); size == 0 || size >= |w.response|
  {
    var frame := ResponseFrame(w);
    var bytes := Wreckage(frame, cuts);
    assert frame[0] as int + 0x100 * frame[1] as int == |w.response|;
    FirstBytes(frame, cuts);
    if cuts[0] == 1 {
      FirstBytes(frame, cuts[1..]);
      assert bytes[2] == bytes[1..][1];
      if cuts[1] == 1 {
        FirstBytes(frame, cuts[1..][1..]);
        assert bytes[3] == bytes[1..][1..][1];
      }
    }
    hide Wreckage;
  }

  /** Whatever the codec accepts: as long as the failed attempts together wrote less than the frame, nothing
      mixes. */
  lemma LittleDoesNotMix(w: Wiring, cuts: seq<nat>)
    requires 0 < |w.response| < 0x1_0000 && PartWay(ResponseFrame(w), cuts)
    requires |Wreckage(ResponseFrame(w), cuts)| < |ResponseFrame(w)|
    ensures !Mixes(w, cuts)
  {
    if |Wreckage(ResponseFrame(w), cuts)| >= OFFSET_SIZE {
      ScrambledSize(w, cuts);
    }
    hide Wreckage, IsHandshake;
  }
}
