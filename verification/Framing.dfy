/** The frame format of the stream and the incremental decoder of `ConnectionEvents::next`, on values. */
module Framing {
  import opened Bytes
  import opened Reports

  // ---------- Messages and their encoding ----------

  datatype Message = Heartbeat | Frame(payload: seq<byte>)

  /** What FlatBuffers makes of one payload: not a valid packet, a packet that becomes an event, or a
      valid packet for which `next` has no event (a Config packet, or a union or field that is missing). */
  datatype Parsed = Invalid | Content(event: Event) | Silent

  type Codec = seq<byte> -> Parsed

  function Encode(m: Message): seq<byte> {
    match m
    case Heartbeat => HEARTBEAT_MAGIC
    case Frame(payload) => ToLE(|payload|) + payload
  }

  /** The messages the decoder can recognise: a size of zero stalls it, and only a frame of the greatest
      size can begin with the six bytes of the magic. */
  predicate Decodable(m: Message) {
    m.Frame? ==>
      && 0 < |m.payload| <= U32_MAX
      && !(|m.payload| == U32_MAX && m.payload[..2] == HEARTBEAT_MAGIC[4..])
  }

  predicate AllDecodable(ms: seq<Message>) {
    forall k :: 0 <= k < |ms| ==> Decodable(ms[k])
  }

  function EncodeAll(ms: seq<Message>): seq<byte> {
    if ms == [] then [] else Encode(ms[0]) + EncodeAll(ms[1..])
  }

  predicate StartsWithMagic(buf: seq<byte>) {
    |buf| >= HEARTBEAT_SIZE && buf[..HEARTBEAT_SIZE] == HEARTBEAT_MAGIC
  }

  // ---------- One call of `next` ----------

  datatype Item = Ok(event: Event) | InvalidPacket

  /** `Panic` is Rust's out-of-range panic in `Vec::drain`. */
  datatype Outcome = Nothing | Item(item: Item) | Panic

  datatype Taken = Taken(outcome: Outcome, rest: seq<byte>)

  function OutcomeOf(codec: Codec, m: Message): Outcome {
    match m
    case Heartbeat => Item(Ok(HeartbeatReceived))
    case Frame(payload) =>
      match codec(payload)
      case Invalid => Item(InvalidPacket)
      case Content(event) => Item(Ok(event))
      case Silent => Nothing
  }

  /** `next` as shipped: its guard measures the buffer from the last byte of the size prefix. */
  function Next(codec: Codec, buf: seq<byte>): Taken {
    if |buf| < OFFSET_SIZE then
      Taken(Nothing, buf)
    else if StartsWithMagic(buf) then
      Taken(Item(Ok(HeartbeatReceived)), buf[HEARTBEAT_SIZE..])
    else
      var size := FromLE(buf);
      if size == 0 || |buf[OFFSET_SIZE - 1..]| < size then
        Taken(Nothing, buf)
      else if |buf| < OFFSET_SIZE + size then
        Taken(Panic, buf)
      else
        Taken(OutcomeOf(codec, Frame(buf[OFFSET_SIZE..OFFSET_SIZE + size])), buf[OFFSET_SIZE + size..])
  }

  /** The first whole message of a buffer and what follows it: the decoder with the guard `len < 4 + size`. */
  datatype Head = NoMessage | Head(message: Message, rest: seq<byte>)

  function Split(buf: seq<byte>): Head {
    if |buf| < OFFSET_SIZE then NoMessage
    else if StartsWithMagic(buf) then Head(Heartbeat, buf[HEARTBEAT_SIZE..])
    else
      var size := FromLE(buf);
      if size == 0 || |buf| < OFFSET_SIZE + size then NoMessage
      else Head(Frame(buf[OFFSET_SIZE..OFFSET_SIZE + size]), buf[OFFSET_SIZE + size..])
  }

  function ExactNext(codec: Codec, buf: seq<byte>): Taken {
    match Split(buf)
    case NoMessage => Taken(Nothing, buf)
    case Head(m, rest) => Taken(OutcomeOf(codec, m), rest)
  }

  /** A frame whose very last byte has not arrived. */
  predicate OneByteShort(buf: seq<byte>) {
    && |buf| >= OFFSET_SIZE
    && !StartsWithMagic(buf)
    && FromLE(buf) > 0
    && |buf| + 1 == OFFSET_SIZE + FromLE(buf)
  }

  /** The shipped guard differs from the exact one on the one-byte-short buffers and on no others, and
      there the call panics. */
  lemma ShippedGuard(codec: Codec, buf: seq<byte>)
    ensures Next(codec, buf).outcome == Panic <==> OneByteShort(buf)
    ensures Next(codec, buf) == ExactNext(codec, buf) <==> !OneByteShort(buf)
    ensures OneByteShort(buf) ==> Next(codec, buf) == Taken(Panic, buf) && ExactNext(codec, buf) == Taken(Nothing, buf)
  {
  }

  /** Progress and conservation: a call either leaves the buffer alone and yields no item, or removes
      exactly one whole leading message. */
  lemma NextConserves(codec: Codec, buf: seq<byte>)
    ensures var t := Next(codec, buf);
      || (t.rest == buf && !t.outcome.Item?)
      || exists m :: Decodable(m) && buf == Encode(m) + t.rest && t.outcome == OutcomeOf(codec, m)
                     && |Encode(m)| >= OFFSET_SIZE + 1
  {
    if Split(buf).Head? && Next(codec, buf).rest != buf {
      SplitSound(buf);
      var m := Split(buf).message;
      assert Decodable(m) && buf == Encode(m) + Split(buf).rest;
    }
  }

  /** A whole frame at the front is consumed whatever is in it: an invalid packet is reported, a packet with an
      event yields it, any other yields nothing; what follows stays. */
  lemma NextOfFrame(codec: Codec, payload: seq<byte>, rest: seq<byte>)
    requires 0 < |payload| < U32_MAX
    ensures var t := Next(codec, ToLE(|payload|) + payload + rest);
      && t.rest == rest
      && (t.outcome == Item(InvalidPacket) <==> codec(payload).Invalid?)
      && (forall event :: t.outcome == Item(Ok(event)) <==> codec(payload) == Content(event))
      && (t.outcome == Nothing <==> codec(payload).Silent?)
  {
    SplitEncode(Frame(payload), rest);
    ShippedGuard(codec, ToLE(|payload|) + payload + rest);
    hide Next, Split, ToLE;
  }

  // ---------- Prefix-freeness ----------

  lemma SplitSound(buf: seq<byte>)
    requires Split(buf).Head?
    ensures Decodable(Split(buf).message)
    ensures buf == Encode(Split(buf).message) + Split(buf).rest
    ensures |Encode(Split(buf).message)| >= OFFSET_SIZE + 1
  {
    var m := Split(buf).message;
    if m.Frame? {
      LEInverse(buf);
      var size := FromLE(buf);
      assert buf == buf[..OFFSET_SIZE] + m.payload + Split(buf).rest;
      if size == U32_MAX {
        assert buf[..OFFSET_SIZE] == ToLE(U32_MAX) == HEARTBEAT_MAGIC[..OFFSET_SIZE];
        assert m.payload[..2] == buf[OFFSET_SIZE..HEARTBEAT_SIZE];
        assert buf[..HEARTBEAT_SIZE] == buf[..OFFSET_SIZE] + m.payload[..2];
        assert HEARTBEAT_MAGIC == HEARTBEAT_MAGIC[..OFFSET_SIZE] + HEARTBEAT_MAGIC[OFFSET_SIZE..];
      }
    }
  }

  lemma MagicHead(payload: seq<byte>, rest: seq<byte>)
    requires 0 < |payload| <= U32_MAX
    ensures StartsWithMagic(ToLE(|payload|) + payload + rest) ==>
              |payload| == U32_MAX && payload[..2] == HEARTBEAT_MAGIC[4..]
  {
    var buf := ToLE(|payload|) + payload + rest;
    if StartsWithMagic(buf) {
      assert buf[..OFFSET_SIZE] == ToLE(|payload|);
      assert buf[..OFFSET_SIZE] == HEARTBEAT_MAGIC[..OFFSET_SIZE];
      LERoundTrip(|payload|);
      assert payload[..2] == buf[4..6] == HEARTBEAT_MAGIC[4..6];
    }
  }

  /** Round trip for one message, and exactly for the decodable ones. */
  lemma SplitEncode(m: Message, rest: seq<byte>)
    ensures Split(Encode(m) + rest) == Head(m, rest) <==> Decodable(m)
  {
    var buf := Encode(m) + rest;
    match m
    case Heartbeat =>
      assert buf[..HEARTBEAT_SIZE] == HEARTBEAT_MAGIC;
      assert buf[HEARTBEAT_SIZE..] == rest;
    case Frame(payload) =>
      assert buf[..OFFSET_SIZE] == ToLE(|payload|);
      if 0 < |payload| <= U32_MAX {
        LERoundTrip(|payload|);
        assert FromLE(buf) == |payload|;
        MagicHead(payload, rest);
        assert buf[OFFSET_SIZE..OFFSET_SIZE + |payload|] == payload;
        assert buf[OFFSET_SIZE + |payload|..] == rest;
        if !Decodable(m) {
          assert buf[4..6] == payload[..2];
          assert buf[..6] == buf[..4] + buf[4..6] == HEARTBEAT_MAGIC;
        }
      }
  }

  lemma SplitStable(buf: seq<byte>, more: seq<byte>)
    requires Split(buf).Head?
    ensures Split(buf + more) == Head(Split(buf).message, Split(buf).rest + more)
  {
    SplitSound(buf);
    var m := Split(buf).message;
    SplitEncode(m, Split(buf).rest + more);
    assert buf + more == Encode(m) + (Split(buf).rest + more);
  }

  lemma NoMessageInPrefix(m: Message, k: nat)
    requires Decodable(m) && k < |Encode(m)|
    ensures Split(Encode(m)[..k]) == NoMessage
  {
    var e := Encode(m);
    SplitEncode(m, []);
    hide Split, Encode, Decodable;
    assert e + [] == e && e[..k] + e[k..] == e && |e[k..]| > 0;
    if Split(e[..k]).Head? {
      SplitStable(e[..k], e[k..]);
    }
  }

  lemma SizeInPrefix(m: Message, k: nat)
    requires Decodable(m) && OFFSET_SIZE <= k < |Encode(m)|
    ensures FromLE(Encode(m)[..k]) == if m.Frame? then |m.payload| else U32_MAX
  {
    var e := Encode(m);
    assert e[..k][..OFFSET_SIZE] == e[..OFFSET_SIZE];
    if m.Frame? {
      LERoundTrip(|m.payload|);
      assert e[..OFFSET_SIZE] == ToLE(|m.payload|);
    }
  }

  /** No proper prefix of a message is itself a message, and the prefix of a frame that lacks its last byte is
      the only one that is one byte short. */
  lemma ProperPrefix(m: Message, k: nat)
    requires Decodable(m) && k < |Encode(m)|
    ensures Split(Encode(m)[..k]) == NoMessage
    ensures OneByteShort(Encode(m)[..k]) <==> m.Frame? && k + 1 == |Encode(m)|
  {
    NoMessageInPrefix(m, k);
    if k >= OFFSET_SIZE {
      SizeInPrefix(m, k);
      WithoutMagic(Encode(m)[..k]);
      assert m.Frame? ==> |Encode(m)| == OFFSET_SIZE + |m.payload|;
    }
    hide Split, Encode, StartsWithMagic, FromLE;
  }

  lemma WithoutMagic(buf: seq<byte>)
    requires Split(buf) == NoMessage
    ensures !StartsWithMagic(buf)
  {
  }

  predicate ZeroSize(buf: seq<byte>) {
    |buf| >= OFFSET_SIZE && FromLE(buf) == 0
  }

  lemma ZeroSizeStays(codec: Codec, buf: seq<byte>, more: seq<byte>)
    requires ZeroSize(buf)
    ensures Next(codec, buf + more) == Taken(Nothing, buf + more)
  {
    LEInverse(buf);
    var all := buf + more;
    assert all[..OFFSET_SIZE] == buf[..OFFSET_SIZE] && all[..OFFSET_SIZE][0] == 0;
    assert |all| >= HEARTBEAT_SIZE ==> all[..HEARTBEAT_SIZE][0] == 0;
  }

  /** With any other prefix, enough bytes make a whole message. */
  lemma Unstalled(codec: Codec, buf: seq<byte>) returns (more: seq<byte>)
    requires !ZeroSize(buf)
    ensures Next(codec, buf + more).rest != buf + more
  {
    var pad := if |buf| < OFFSET_SIZE then OFFSET_SIZE - |buf| else 0;
    var head := buf + seq(pad, _ => 1);
    assert pad > 0 ==> head[OFFSET_SIZE - 1] == 1;
    var zeros := seq(FromLE(head) + HEARTBEAT_SIZE, _ => 0);
    more := seq(pad, _ => 1) + zeros;
    assert buf + more == head + zeros;
    assert (head + zeros)[..OFFSET_SIZE] == head[..OFFSET_SIZE];
    hide Encode;
  }

  /** A buffer stalls the decoder for good, so that whatever arrives later no call yields or removes anything,
      exactly when it begins with a size prefix of zero. */
  lemma ZeroSizeStalls(codec: Codec, buf: seq<byte>)
    ensures (forall more :: Next(codec, buf + more) == Taken(Nothing, buf + more)) <==> ZeroSize(buf)
  {
    hide Next, ZeroSize;
    if ZeroSize(buf) {
      forall more ensures Next(codec, buf + more) == Taken(Nothing, buf + more) {
        ZeroSizeStays(codec, buf, more);
      }
    } else {
      var more := Unstalled(codec, buf);
      assert Next(codec, buf + more) != Taken(Nothing, buf + more);
    }
  }

  // ---------- Whole streams ----------

  /** Every whole message at the front of a stream, and the unfinished rest. */
  datatype Parse = Parse(messages: seq<Message>, tail: seq<byte>)

  function ParseStream(buf: seq<byte>): Parse
    decreases |buf|
  {
    match Split(buf)
    case NoMessage => Parse([], buf)
    case Head(m, rest) =>
      SplitSound(buf);
      var p := ParseStream(rest);
      Parse([m] + p.messages, p.tail)
  }

  lemma {:induction false} ParseSound(buf: seq<byte>)
    ensures var p := ParseStream(buf);
      AllDecodable(p.messages) && buf == EncodeAll(p.messages) + p.tail && Split(p.tail) == NoMessage
    decreases |buf|
  {
    hide Split, Encode;
    match Split(buf)
    case NoMessage =>
    case Head(m, rest) =>
      SplitSound(buf);
      ParseSound(rest);
      assert ([m] + ParseStream(rest).messages)[1..] == ParseStream(rest).messages;
  }

  lemma {:induction false} ParseEncodeAll(ms: seq<Message>, tail: seq<byte>)
    requires AllDecodable(ms) && Split(tail) == NoMessage
    ensures ParseStream(EncodeAll(ms) + tail) == Parse(ms, tail)
  {
    if ms == [] {
      assert EncodeAll(ms) + tail == tail;
    } else {
      HeadOfEncodeAll(ms, tail);
      ParseEncodeAll(ms[1..], tail);
    }
  }

  lemma ParseAppend(buf: seq<byte>, more: seq<byte>)
    ensures var p := ParseStream(buf); var q := ParseStream(p.tail + more);
      ParseStream(buf + more) == Parse(p.messages + q.messages, q.tail)
  {
    hide *;
    var p := ParseStream(buf);
    var q := ParseStream(p.tail + more);
    ParseSound(buf);
    ParseSound(p.tail + more);
    AllDecodableAppend(p.messages, q.messages);
    EncodeAllAppend(p.messages, q.messages);
    ParseEncodeAll(p.messages + q.messages, q.tail);
    var first, second := EncodeAll(p.messages), EncodeAll(q.messages);
    ConcatAssociative(first, p.tail, more);
    ConcatAssociative(first, second, q.tail);
  }

  lemma AllDecodableAppend(a: seq<Message>, b: seq<Message>)
    requires AllDecodable(a) && AllDecodable(b)
    ensures AllDecodable(a + b)
  {
  }

  // ---------- The event loop `for event in conn.events()` ----------

  datatype Drained = Drained(items: seq<Item>, rest: seq<byte>, panicked: bool)

  /** The loop over `next` as shipped; it stops at the first call that yields no item. */
  function Drain(codec: Codec, buf: seq<byte>): Drained
    decreases |buf|
  {
    var t := Next(codec, buf);
    match t.outcome
    case Nothing => Drained([], t.rest, false)
    case Panic => Drained([], t.rest, true)
    case Item(item) =>
      var d := Drain(codec, t.rest);
      Drained([item] + d.items, d.rest, d.panicked)
  }

  function ExactDrain(codec: Codec, buf: seq<byte>): (d: Drained)
    ensures !d.panicked
    decreases |buf|
  {
    var t := ExactNext(codec, buf);
    if t.outcome.Item? then
      var d := ExactDrain(codec, t.rest);
      Drained([t.outcome.item] + d.items, d.rest, d.panicked)
    else
      Drained([], t.rest, false)
  }

  /** Deliver the chunks one after the other, running the loop after each. */
  function Session(codec: Codec, buf: seq<byte>, chunks: seq<seq<byte>>): Drained
    decreases |chunks|
  {
    if chunks == [] then Drained([], buf, false)
    else
      var d := Drain(codec, buf + chunks[0]);
      if d.panicked then d
      else
        var s := Session(codec, d.rest, chunks[1..]);
        Drained(d.items + s.items, s.rest, s.panicked)
  }

  function ExactSession(codec: Codec, buf: seq<byte>, chunks: seq<seq<byte>>): Drained
    decreases |chunks|
  {
    if chunks == [] then Drained([], buf, false)
    else
      var d := ExactDrain(codec, buf + chunks[0]);
      var s := ExactSession(codec, d.rest, chunks[1..]);
      Drained(d.items + s.items, s.rest, s.panicked)
  }

  // ---------- What a stream means ----------

  predicate IsSilent(codec: Codec, m: Message) {
    OutcomeOf(codec, m) == Nothing
  }

  /** The items of a list of messages; silent ones contribute none. */
  function Items(codec: Codec, ms: seq<Message>): seq<Item> {
    if ms == [] then []
    else (if IsSilent(codec, ms[0]) then [] else [OutcomeOf(codec, ms[0]).item]) + Items(codec, ms[1..])
  }

  lemma {:induction false} ItemsAppend(codec: Codec, a: seq<Message>, b: seq<Message>)
    ensures Items(codec, a + b) == Items(codec, a) + Items(codec, b)
  {
    if a == [] {
      assert a + b == b;
    } else {
      assert (a + b)[1..] == a[1..] + b;
      ItemsAppend(codec, a[1..], b);
    }
  }

  /** No silent message is followed by another whole message. */
  predicate SilentOnlyLast(codec: Codec, ms: seq<Message>) {
    forall k :: 0 <= k < |ms| - 1 ==> !IsSilent(codec, ms[k])
  }

  predicate NoneSilent(codec: Codec, ms: seq<Message>) {
    forall k :: 0 <= k < |ms| ==> !IsSilent(codec, ms[k])
  }

  lemma {:induction false} DrainMeans(codec: Codec, buf: seq<byte>)
    requires SilentOnlyLast(codec, ParseStream(buf).messages)
    ensures var p := ParseStream(buf); ExactDrain(codec, buf) == Drained(Items(codec, p.messages), p.tail, false)
    decreases |buf|
  {
    match Split(buf)
    case NoMessage =>
    case Head(m, rest) =>
      SplitSound(buf);
      var ms := ParseStream(rest).messages;
      assert ([m] + ms)[1..] == ms;
      if IsSilent(codec, m) {
        assert ([m] + ms)[0] == m;
        assert ms == [];
      } else {
        forall k | 0 <= k < |ms| - 1 ensures !IsSilent(codec, ms[k]) {
          assert ms[k] == ([m] + ms)[k + 1];
        }
        DrainMeans(codec, rest);
      }
  }

  /** A silent message that is not the last stops the loop with whole messages left behind. */
  lemma {:induction false} DrainStopsAtSilence(codec: Codec, ms: seq<Message>, tail: seq<byte>, k: nat)
    requires AllDecodable(ms) && Split(tail) == NoMessage
    requires k < |ms| && IsSilent(codec, ms[k]) && forall i :: 0 <= i < k ==> !IsSilent(codec, ms[i])
    ensures ExactDrain(codec, EncodeAll(ms) + tail).rest == EncodeAll(ms[k + 1..]) + tail
  {
    hide Split, Encode;
    var buf := EncodeAll(ms) + tail;
    HeadOfEncodeAll(ms, tail);
    if k > 0 {
      DrainStopsAtSilence(codec, ms[1..], tail, k - 1);
      assert ms[1..][k..] == ms[k + 1..];
    }
  }

  // ---------- Split invariance ----------

  lemma SilentParts(codec: Codec, a: seq<Message>, b: seq<Message>)
    requires SilentOnlyLast(codec, a + b)
    ensures SilentOnlyLast(codec, a) && SilentOnlyLast(codec, b)
  {
    forall k | 0 <= k < |a| - 1 ensures !IsSilent(codec, a[k]) { assert a[k] == (a + b)[k]; }
    forall k | 0 <= k < |b| - 1 ensures !IsSilent(codec, b[k]) { assert b[k] == (a + b)[|a| + k]; }
  }

  lemma DrainTwice(codec: Codec, now: seq<byte>, later: seq<byte>)
    requires SilentOnlyLast(codec, ParseStream(now + later).messages)
    ensures var d := ExactDrain(codec, now); var e := ExactDrain(codec, d.rest + later);
      ExactDrain(codec, now + later) == Drained(d.items + e.items, e.rest, false)
  {
    ParseAppend(now, later);
    var p := ParseStream(now);
    var q := ParseStream(p.tail + later);
    SilentParts(codec, p.messages, q.messages);
    DrainMeans(codec, now);
    DrainMeans(codec, p.tail + later);
    DrainMeans(codec, now + later);
    ItemsAppend(codec, p.messages, q.messages);
  }

  lemma {:induction false} SessionMeans(codec: Codec, buf: seq<byte>, chunks: seq<seq<byte>>)
    requires Split(buf) == NoMessage
    requires SilentOnlyLast(codec, ParseStream(buf + Concat(chunks)).messages)
    ensures ExactSession(codec, buf, chunks) == ExactDrain(codec, buf + Concat(chunks))
    decreases |chunks|
  {
    hide Split;
    var stream := buf + Concat(chunks);
    if chunks == [] {
      assert stream == buf;
    } else {
      var now, later := buf + chunks[0], Concat(chunks[1..]);
      assert stream == now + later;
      ParseAppend(now, later);
      ParseSound(now);
      var p := ParseStream(now);
      SilentParts(codec, p.messages, ParseStream(p.tail + later).messages);
      SessionMeans(codec, p.tail, chunks[1..]);
      DrainMeans(codec, now);
      DrainTwice(codec, now, later);
    }
  }

  ghost predicate SplitInvariant(codec: Codec, stream: seq<byte>) {
    forall chunks :: Concat(chunks) == stream ==> ExactSession(codec, [], chunks) == ExactDrain(codec, stream)
  }

  /** Every way of cutting a stream into deliveries gives the same items and the same rest as a single
      delivery, exactly when no silent message is followed by another whole message. */
  lemma SplitInvariance(codec: Codec, stream: seq<byte>)
    ensures SplitInvariant(codec, stream) <==> SilentOnlyLast(codec, ParseStream(stream).messages)
  {
    ParseSound(stream);
    var p := ParseStream(stream);
    if SilentOnlyLast(codec, p.messages) {
      forall chunks | Concat(chunks) == stream
        ensures ExactSession(codec, [], chunks) == ExactDrain(codec, stream)
      {
        assert [] + Concat(chunks) == stream;
        SessionMeans(codec, [], chunks);
      }
    } else {
      SilenceBreaksSplitting(codec, p.messages, p.tail);
    }
  }

  /** Cutting right after a silent message lets the loop go on where a single delivery stops. */
  lemma SilenceBreaksSplitting(codec: Codec, ms: seq<Message>, tail: seq<byte>)
    requires AllDecodable(ms) && Split(tail) == NoMessage && !SilentOnlyLast(codec, ms)
    ensures !SplitInvariant(codec, EncodeAll(ms) + tail)
  {
    hide Split, Encode, EncodeAll, Decodable, ExactDrain;
    var k := FirstSilent(codec, ms);
    var first, second := SilentCut(codec, ms, tail, k);
    TwoDeliveries(codec, first, second);
  }

  lemma SilentCut(codec: Codec, ms: seq<Message>, tail: seq<byte>, k: nat) returns (first: seq<byte>, second: seq<byte>)
    requires AllDecodable(ms) && Split(tail) == NoMessage
    requires k < |ms| - 1 && IsSilent(codec, ms[k]) && forall i :: 0 <= i < k ==> !IsSilent(codec, ms[i])
    ensures EncodeAll(ms) + tail == first + second
    ensures ExactDrain(codec, first).rest == []
    ensures |ExactDrain(codec, second).rest| < |second|
    ensures ExactDrain(codec, EncodeAll(ms) + tail).rest == second
  {
    hide Split, Encode, Decodable, ExactDrain, IsSilent;
    var done, left := ms[..k + 1], ms[k + 1..];
    first, second := EncodeAll(done), EncodeAll(left) + tail;
    EncodeAllAppend(done, left);
    assert ms == done + left;
    DrainStopsAtSilence(codec, ms, tail, k);
    DrainsToSilence(codec, ms, k);
    HeadOfEncodeAll(left, tail);
    DrainShrinks(codec, second);
  }

  lemma DrainsToSilence(codec: Codec, ms: seq<Message>, k: nat)
    requires AllDecodable(ms)
    requires k < |ms| && IsSilent(codec, ms[k]) && forall i :: 0 <= i < k ==> !IsSilent(codec, ms[i])
    ensures ExactDrain(codec, EncodeAll(ms[..k + 1])).rest == []
  {
    DrainStopsAtSilence(codec, ms[..k + 1], [], k);
    assert ms[..k + 1][k + 1..] == [];
    assert EncodeAll(ms[..k + 1]) + [] == EncodeAll(ms[..k + 1]);
  }

  lemma HeadOfEncodeAll(ms: seq<Message>, tail: seq<byte>)
    requires AllDecodable(ms) && ms != []
    ensures Split(EncodeAll(ms) + tail) == Head(ms[0], EncodeAll(ms[1..]) + tail)
  {
    hide Split, Encode;
    SplitEncode(ms[0], EncodeAll(ms[1..]) + tail);
    assert EncodeAll(ms) + tail == Encode(ms[0]) + (EncodeAll(ms[1..]) + tail);
  }

  lemma TwoDeliveries(codec: Codec, first: seq<byte>, second: seq<byte>)
    requires ExactDrain(codec, first).rest == []
    ensures ExactSession(codec, [], [first, second]).rest == ExactDrain(codec, second).rest
    ensures Concat([first, second]) == first + second
  {
    var both: seq<seq<byte>> := [first, second];
    var tail := both[1..];
    assert tail == [second] && tail[1..] == [];
    assert [] + first == first && [] + second == second && second + [] == second;
    assert Concat(tail) == second;
    assert ExactSession(codec, [], tail).rest == ExactDrain(codec, second).rest;
  }

  lemma {:induction false} DrainShrinks(codec: Codec, buf: seq<byte>)
    ensures |ExactDrain(codec, buf).rest| <= |buf|
    ensures Split(buf).Head? ==> |ExactDrain(codec, buf).rest| < |buf|
    decreases |buf|
  {
    if Split(buf).Head? {
      SplitSound(buf);
      DrainShrinks(codec, Split(buf).rest);
    }
  }

  lemma FirstSilent(codec: Codec, ms: seq<Message>) returns (k: nat)
    requires !SilentOnlyLast(codec, ms)
    ensures k < |ms| - 1 && IsSilent(codec, ms[k]) && forall i :: 0 <= i < k ==> !IsSilent(codec, ms[i])
  {
    k := 0;
    while !IsSilent(codec, ms[k])
      invariant k < |ms| - 1
      invariant forall i :: 0 <= i < k ==> !IsSilent(codec, ms[i])
      decreases |ms| - k
    {
      k := k + 1;
    }
  }

  lemma {:induction false} EncodeAllAppend(a: seq<Message>, b: seq<Message>)
    ensures EncodeAll(a + b) == EncodeAll(a) + EncodeAll(b)
  {
    hide Encode, Decodable;
    if a == [] {
      assert a + b == b;
    } else {
      assert (a + b)[1..] == a[1..] + b;
      EncodeAllAppend(a[1..], b);
    }
  }

  // ---------- Round trip ----------

  /** Encoding any decodable messages that carry events and running the shipped loop over the
      concatenation yields exactly their items, in order, and empties the buffer. */
  lemma {:induction false} RoundTrip(codec: Codec, ms: seq<Message>)
    requires AllDecodable(ms) && NoneSilent(codec, ms)
    ensures Drain(codec, EncodeAll(ms)) == Drained(Items(codec, ms), [], false)
    ensures |Items(codec, ms)| == |ms|
  {
    if ms != [] {
      SplitEncode(ms[0], EncodeAll(ms[1..]));
      ShippedGuard(codec, EncodeAll(ms));
      RoundTrip(codec, ms[1..]);
    }
  }

  /** The same from the events' side: an encoder the codec inverts. */
  lemma {:induction false} EventRoundTrip(codec: Codec, encoder: Event -> seq<byte>, events: seq<Event>)
    requires forall e :: e in events && !e.HeartbeatReceived? ==>
               0 < |encoder(e)| < U32_MAX && codec(encoder(e)) == Content(e)
    ensures var ms := MessagesFor(encoder, events);
      && AllDecodable(ms)
      && Drain(codec, EncodeAll(ms)) == Drained(seq(|events|, i requires 0 <= i < |events| => Ok(events[i])), [], false)
  {
    var ms := MessagesFor(encoder, events);
    forall k | 0 <= k < |ms| ensures Decodable(ms[k]) && OutcomeOf(codec, ms[k]) == Item(Ok(events[k])) {
      assert events[k] in events;
    }
    RoundTrip(codec, ms);
    ItemsPointwise(codec, ms);
  }

  function MessagesFor(encoder: Event -> seq<byte>, events: seq<Event>): seq<Message> {
    seq(|events|, i requires 0 <= i < |events| =>
      if events[i].HeartbeatReceived? then Heartbeat else Frame(encoder(events[i])))
  }

  lemma {:induction false} ItemsPointwise(codec: Codec, ms: seq<Message>)
    requires NoneSilent(codec, ms)
    ensures |Items(codec, ms)| == |ms|
    ensures forall k :: 0 <= k < |ms| ==> OutcomeOf(codec, ms[k]) == Item(Items(codec, ms)[k])
  {
    if ms != [] {
      ItemsPointwise(codec, ms[1..]);
      forall k | 0 < k < |ms| ensures OutcomeOf(codec, ms[k]) == Item(Items(codec, ms)[k]) {
        assert ms[k] == ms[1..][k - 1];
      }
    }
  }
}
