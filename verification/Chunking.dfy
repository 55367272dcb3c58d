/** What the shipped size guard costs: which ways of cutting a stream into deliveries make the decoder panic. */
module Chunking {
  import opened Bytes
  import opened Framing

  lemma {:induction false} ShippedDrainMeans(codec: Codec, buf: seq<byte>)
    requires NoneSilent(codec, ParseStream(buf).messages)
    ensures var p := ParseStream(buf);
      Drain(codec, buf) == Drained(Items(codec, p.messages), p.tail, OneByteShort(p.tail))
    decreases |buf|
  {
    ShippedGuard(codec, buf);
    hide Next, OneByteShort, Encode;
    match Split(buf)
    case NoMessage =>
    case Head(m, rest) =>
      SplitSound(buf);
      var ms := ParseStream(rest).messages;
      assert ([m] + ms)[0] == m && ([m] + ms)[1..] == ms;
      forall k | 0 <= k < |ms| ensures !IsSilent(codec, ms[k]) {
        assert ms[k] == ([m] + ms)[k + 1];
      }
      ShippedDrainMeans(codec, rest);
  }

  /** The unfinished rest after the first `i` deliveries. */
  function TailAfter(buf: seq<byte>, chunks: seq<seq<byte>>, i: nat): seq<byte>
    requires i <= |chunks|
  {
    ParseStream(buf + Concat(chunks[..i])).tail
  }

  lemma NoneSilentParts(codec: Codec, a: seq<Message>, b: seq<Message>)
    requires NoneSilent(codec, a + b)
    ensures NoneSilent(codec, a) && NoneSilent(codec, b)
  {
    forall k | 0 <= k < |a| ensures !IsSilent(codec, a[k]) { assert a[k] == (a + b)[k]; }
    forall k | 0 <= k < |b| ensures !IsSilent(codec, b[k]) { assert b[k] == (a + b)[|a| + k]; }
  }

  /** The tail after `i + 1` deliveries is the tail after `i` deliveries of the tail after the first. */
  lemma TailAfterFirst(buf: seq<byte>, chunks: seq<seq<byte>>, i: nat)
    requires i < |chunks|
    ensures TailAfter(buf, chunks, i + 1) == TailAfter(ParseStream(buf + chunks[0]).tail, chunks[1..], i)
  {
    hide ParseStream;
    var later := Concat(chunks[1..][..i]);
    assert chunks[..i + 1][1..] == chunks[1..][..i];
    assert buf + Concat(chunks[..i + 1]) == (buf + chunks[0]) + later;
    ParseAppend(buf + chunks[0], later);
  }

  /** For a stream in which every message yields an item, the shipped loop panics exactly when some
      delivery ends one byte before the end of a frame; otherwise it does what the exact loop does. */
  lemma {:induction false} SessionPanics(codec: Codec, buf: seq<byte>, chunks: seq<seq<byte>>)
    requires NoneSilent(codec, ParseStream(buf + Concat(chunks)).messages)
    ensures Session(codec, buf, chunks).panicked <==>
              exists i :: 0 < i <= |chunks| && OneByteShort(TailAfter(buf, chunks, i))
    ensures !Session(codec, buf, chunks).panicked ==>
              Session(codec, buf, chunks) == ExactSession(codec, buf, chunks)
    decreases |chunks|
  {
    hide OneByteShort, Split, Drain, ExactDrain, ParseStream;
    if chunks != [] {
      var now, later := buf + chunks[0], Concat(chunks[1..]);
      assert buf + Concat(chunks) == now + later;
      ParseAppend(now, later);
      var p := ParseStream(now);
      NoneSilentParts(codec, p.messages, ParseStream(p.tail + later).messages);
      ShippedDrainMeans(codec, now);
      DrainMeans(codec, now);
      SessionPanics(codec, p.tail, chunks[1..]);
      FirstTail(buf, chunks);
      if OneByteShort(p.tail) {
        assert OneByteShort(TailAfter(buf, chunks, 1));
      } else {
        LaterTails(buf, chunks);
      }
    }
  }

  lemma FirstTail(buf: seq<byte>, chunks: seq<seq<byte>>)
    requires chunks != []
    ensures TailAfter(buf, chunks, 1) == ParseStream(buf + chunks[0]).tail
  {
    assert chunks[..1] == [chunks[0]] && chunks[..1][1..] == [];
    assert Concat(chunks[..1]) == chunks[0] + Concat(chunks[..1][1..]) == chunks[0];
  }

  lemma LaterTails(buf: seq<byte>, chunks: seq<seq<byte>>)
    requires chunks != [] && !OneByteShort(TailAfter(buf, chunks, 1))
    ensures var rest := ParseStream(buf + chunks[0]).tail;
      (exists i :: 0 < i <= |chunks| && OneByteShort(TailAfter(buf, chunks, i))) <==>
      (exists i :: 0 < i <= |chunks[1..]| && OneByteShort(TailAfter(rest, chunks[1..], i)))
  {
    hide OneByteShort, ParseStream, TailAfter;
    var rest := ParseStream(buf + chunks[0]).tail;
    if i :| 0 < i <= |chunks| && OneByteShort(TailAfter(buf, chunks, i)) {
      TailAfterFirst(buf, chunks, i - 1);
      assert OneByteShort(TailAfter(rest, chunks[1..], i - 1));
    }
    if i :| 0 < i <= |chunks[1..]| && OneByteShort(TailAfter(rest, chunks[1..], i)) {
      TailAfterFirst(buf, chunks, i);
      assert OneByteShort(TailAfter(buf, chunks, i + 1));
    }
  }

  // ---------- In terms of the messages sent ----------

  /** Position `n` of the encoding of `ms` lies one byte before the end of a frame. */
  predicate JustBeforeFrameEnd(ms: seq<Message>, n: nat) {
    exists k :: 0 <= k < |ms| && ms[k].Frame? && n + 1 == |EncodeAll(ms[..k + 1])|
  }

  lemma {:induction false} TailAt(ms: seq<Message>, n: nat)
    requires AllDecodable(ms) && n <= |EncodeAll(ms)|
    ensures OneByteShort(ParseStream(EncodeAll(ms)[..n]).tail) <==> JustBeforeFrameEnd(ms, n)
  {
    assert Split([]) == NoMessage;
    hide Split, Encode;
    if ms != [] {
      var e, es := Encode(ms[0]), EncodeAll(ms[1..]);
      if n < |e| {
        FirstFrameEnd(ms, n);
        assert (e + es)[..n] == e[..n];
        ProperPrefix(ms[0], n);
      } else {
        FrameEndsBeyond(ms, n);
        assert (e + es)[..n] == e + es[..n - |e|];
        SplitEncode(ms[0], es[..n - |e|]);
        TailAt(ms[1..], n - |e|);
      }
    }
  }

  lemma EncodeAllFirst(ms: seq<Message>, k: nat)
    requires k < |ms|
    ensures |EncodeAll(ms[..k + 1])| == |Encode(ms[0])| + |EncodeAll(ms[1..][..k])|
    ensures EncodeAll(ms[1..][..k]) == [] <==> k == 0
  {
    assert ms[..k + 1][1..] == ms[1..][..k];
  }

  lemma FirstFrameEnd(ms: seq<Message>, n: nat)
    requires ms != [] && n < |Encode(ms[0])|
    ensures JustBeforeFrameEnd(ms, n) <==> ms[0].Frame? && n + 1 == |Encode(ms[0])|
  {
    hide Encode, EncodeAll;
    EncodeAllFirst(ms, 0);
    if JustBeforeFrameEnd(ms, n) {
      var k :| 0 <= k < |ms| && ms[k].Frame? && n + 1 == |EncodeAll(ms[..k + 1])|;
      EncodeAllFirst(ms, k);
      EncodesSomething(ms[1..][..k]);
    } else {
      assert !(ms[0].Frame? && n + 1 == |EncodeAll(ms[..0 + 1])|);
    }
  }

  lemma EncodesSomething(ms: seq<Message>)
    ensures EncodeAll(ms) == [] <==> ms == []
  {
  }

  lemma LaterFrameEnd(ms: seq<Message>, n: nat, k: nat)
    requires k < |ms| && k > 0 && n >= |Encode(ms[0])|
    ensures n + 1 == |EncodeAll(ms[..k + 1])| <==> n - |Encode(ms[0])| + 1 == |EncodeAll(ms[1..][..(k - 1) + 1])|
  {
    hide Encode, EncodeAll;
    EncodeAllFirst(ms, k);
  }

  lemma FrameEndsBeyond(ms: seq<Message>, n: nat)
    requires ms != [] && n >= |Encode(ms[0])|
    ensures JustBeforeFrameEnd(ms, n) <==> JustBeforeFrameEnd(ms[1..], n - |Encode(ms[0])|)
  {
    hide Encode, EncodeAll;
    var e, rest := Encode(ms[0]), ms[1..];
    if JustBeforeFrameEnd(ms, n) {
      var k :| 0 <= k < |ms| && ms[k].Frame? && n + 1 == |EncodeAll(ms[..k + 1])|;
      EncodeAllFirst(ms, k);
      LaterFrameEnd(ms, n, k);
      assert rest[k - 1] == ms[k];
    }
    if JustBeforeFrameEnd(rest, n - |e|) {
      var k :| 0 <= k < |rest| && rest[k].Frame? && n - |e| + 1 == |EncodeAll(rest[..k + 1])|;
      LaterFrameEnd(ms, n, k + 1);
      assert ms[k + 1] == rest[k];
    }
  }

  /** Split invariance of the decoder as shipped: for any messages and any deliveries of their encoding,
      it yields every item in order and ends empty, unless and only unless some delivery ends one byte
      before the end of a frame, and then it panics. */
  lemma ShippedSplitInvariance(codec: Codec, ms: seq<Message>, chunks: seq<seq<byte>>)
    requires AllDecodable(ms) && NoneSilent(codec, ms) && Concat(chunks) == EncodeAll(ms)
    ensures Session(codec, [], chunks).panicked <==>
              exists i :: 0 < i <= |chunks| && JustBeforeFrameEnd(ms, |Concat(chunks[..i])|)
    ensures Session(codec, [], chunks) == Drained(Items(codec, ms), [], false) <==>
              !exists i :: 0 < i <= |chunks| && JustBeforeFrameEnd(ms, |Concat(chunks[..i])|)
  {
    hide Session, ExactSession, Items, JustBeforeFrameEnd, Encode, Split, OneByteShort;
    ParseWhole(ms, chunks);
    SessionPanics(codec, [], chunks);
    SessionMeans(codec, [], chunks);
    DrainMeans(codec, [] + Concat(chunks));
    forall i | 0 < i <= |chunks|
      ensures OneByteShort(TailAfter([], chunks, i)) <==> JustBeforeFrameEnd(ms, |Concat(chunks[..i])|)
    {
      ConcatPrefix(chunks, i);
      assert [] + Concat(chunks[..i]) == Concat(chunks[..i]);
      TailAt(ms, |Concat(chunks[..i])|);
    }
  }

  lemma ParseWhole(ms: seq<Message>, chunks: seq<seq<byte>>)
    requires AllDecodable(ms) && Concat(chunks) == EncodeAll(ms)
    ensures ParseStream([] + Concat(chunks)) == Parse(ms, [])
    ensures Split([]) == NoMessage
  {
    ParseEncodeAll(ms, []);
    assert EncodeAll(ms) + [] == EncodeAll(ms) && [] + Concat(chunks) == Concat(chunks);
  }
}
