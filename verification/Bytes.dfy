/** Byte strings as they cross the sockets: the heartbeat magic and little-endian `u32` size prefixes. */
module Bytes {

  type byte = b: int | 0 <= b < 0x100
  type u16 = n: int | 0 <= n < 0x1_0000
  type u32 = n: int | 0 <= n < 0x1_0000_0000
  type u64 = n: int | 0 <= n < 0x1_0000_0000_0000_0000

  const U32_MAX: u32 := 0xffff_ffff

  /** Size of a FlatBuffers `UOffsetT`, the prefix of every frame. */
  const OFFSET_SIZE: nat := 4

  const HEARTBEAT_SIZE: nat := 6
  const HEARTBEAT_MAGIC: seq<byte> := [0xff, 0xff, 0xff, 0xff, 0x42, 0x54]

  /** A `u32` prefix; a length that does not fit is truncated, as the cast in the builder does. */
  function ToLE(n: nat): (s: seq<byte>)
    ensures |s| == OFFSET_SIZE
  {
    var n1 := n / 0x100;
    var n2 := n1 / 0x100;
    [n % 0x100, n1 % 0x100, n2 % 0x100, n2 / 0x100 % 0x100]
  }

  function FromLE(s: seq<byte>): u32
    requires |s| >= OFFSET_SIZE
  {
    var b0: int, b1: int, b2: int, b3: int := s[0], s[1], s[2], s[3];
    b0 + 0x100 * (b1 + 0x100 * (b2 + 0x100 * b3))
  }

  lemma LERoundTrip(n: u32)
    ensures FromLE(ToLE(n)) == n
  {
  }

  lemma LEInverse(s: seq<byte>)
    requires |s| >= OFFSET_SIZE
    ensures ToLE(FromLE(s)) == s[..OFFSET_SIZE]
  {
    var n: int := FromLE(s);
    var b1: int, b2: int, b3: int := s[1], s[2], s[3];
    assert n / 0x100 == b1 + 0x100 * (b2 + 0x100 * b3);
    assert n / 0x100 / 0x100 == b2 + 0x100 * b3;
  }

  /** All chunks of a delivery, in order. */
  function Concat(chunks: seq<seq<byte>>): seq<byte> {
    if chunks == [] then [] else chunks[0] + Concat(chunks[1..])
  }

  lemma ConcatAssociative(a: seq<byte>, b: seq<byte>, c: seq<byte>)
    ensures (a + b) + c == a + (b + c)
  {
  }

  lemma {:induction false} ConcatSnoc(chunks: seq<seq<byte>>, c: seq<byte>)
    ensures Concat(chunks + [c]) == Concat(chunks) + c
  {
    if chunks == [] {
      assert (chunks + [c])[1..] == [];
    } else {
      assert (chunks + [c])[1..] == chunks[1..] + [c];
      ConcatSnoc(chunks[1..], c);
    }
  }

  lemma {:induction false} ConcatPrefix(chunks: seq<seq<byte>>, i: nat)
    requires i <= |chunks|
    ensures |Concat(chunks[..i])| <= |Concat(chunks)|
    ensures Concat(chunks[..i]) == Concat(chunks)[..|Concat(chunks[..i])|]
  {
    if i > 0 {
      ConcatPrefix(chunks[1..], i - 1);
      assert chunks[..i][1..] == chunks[1..][..i - 1];
    }
  }

  // ---------- Byte order ----------

  /** The first byte is the least significant one. */
  lemma SmallFirst(n: nat)
    requires n < 0x100
    ensures ToLE(n) == [n, 0, 0, 0]
  {
  }

  /** Sizes are ordered by their last byte, then by the one before, and so on. */
  lemma OrderFromLast(s: seq<byte>, t: seq<byte>)
    requires |s| == |t| == OFFSET_SIZE
    ensures FromLE(s) < FromLE(t) <==>
              || s[3] < t[3]
              || (s[3] == t[3] && s[2] < t[2])
              || (s[3] == t[3] && s[2] == t[2] && s[1] < t[1])
              || (s[3] == t[3] && s[2] == t[2] && s[1] == t[1] && s[0] < t[0])
  {
  }

  /** The magic is the greatest size, which no frame of the program has, and two letters. */
  lemma MagicIsNoSize()
    ensures |HEARTBEAT_MAGIC| == HEARTBEAT_SIZE && FromLE(HEARTBEAT_MAGIC) == U32_MAX
    ensures HEARTBEAT_MAGIC[4] == 'B' as int && HEARTBEAT_MAGIC[5] == 'T' as int
  {
  }
}
