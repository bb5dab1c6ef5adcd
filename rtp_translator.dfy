/**
 * RTPTranslatorImpl: the big-endian `readInt`, the payload-type rewrite
 * done while translating an RTP packet, the ring-buffer write queue of
 * OutputDataStreamImpl, the start/stop reference counting of shared send
 * streams, and the set of SSRCs a StreamRTPManager receives.
 */
module RtpTranslator {
  import opened JavaBase
  import opened JavaBits

  // ------------------------------------------------------------ readInt

  /** The unsigned big-endian value of a byte sequence. */
  function BigEndian(bs: seq<Byte>): nat
  {
    if bs == [] then 0 else BigEndian(bs[..|bs| - 1]) * 256 + bs[|bs| - 1]
  }

  /** `buffer[i] & 0xff` on a Java byte. */
  function UnsignedAt(buffer: seq<Byte>, i: nat): int
    requires i < |buffer|
  {
    IntAnd(SignedByte(buffer[i]), 0xff)
  }

  /** readInt(buffer, offset), operator for operator. */
  function ReadInt(buffer: seq<Byte>, offset: nat): int
    requires offset + 4 <= |buffer|
  {
    IntOr(IntOr(IntOr(Shl(UnsignedAt(buffer, offset), 24), Shl(UnsignedAt(buffer, offset + 1), 16)),
                Shl(UnsignedAt(buffer, offset + 2), 8)),
          UnsignedAt(buffer, offset + 3))
  }

  /** `b & 0xff` undoes the sign extension of a Java byte. */
  lemma {:induction false} ByteMask(b: Byte)
    ensures IntAnd(SignedByte(b), 0xff) == b
  {
    var u := UInt32(SignedByte(b));
    var q := if b >= 128 then TWO32 / 256 - 1 else 0;
    assert u == 256 * q + b;
    DivModUnique(u, 256, q, b);
    Pow2Values();
    BitAndLowMask(u, 8);
  }

  /** A byte shifted left by at most 24 bits lands in the pattern unchanged. */
  lemma {:induction false} ShlByte(b: Byte, k: nat, p: int)
    requires k <= 24 && p == Pow2(k)
    ensures UInt32(Shl(b, k)) == b as int * p
  {
    ShlPattern(b, k);
    DivModUnique(b, TWO32, 0, b);
    assert UInt32(b) == b;
    Pow2Monotone(k, 24);
    Pow2Values();
    assert p <= 0x100_0000;
    var bp := b as int * p;
    MulMonotone(b, 255, p);
    MulMonotone(0, b, p);
    assert 0 <= bp <= 255 * p;
    assert bp < TWO32;
    DivModUnique(bp, TWO32, 0, bp);
  }

  lemma {:induction false} MulRegroup(a: int, b: int, c: int)
    ensures a * (b * c) == (a * c) * b
  {
  }

  /**
   * Or-ing a byte shifted by k (p = 2^k) in below the bits already set
   * (a multiple of p8 = 2^(k+8)) appends it in base 256.
   */
  lemma {:induction false} OrStep(x: int, y: int, v: nat, b: Byte, k: nat, p: int, p8: int)
    requires p == Pow2(k) && p8 == Pow2(k + 8)
    requires UInt32(x) == v * p8 && UInt32(y) == b as int * p
    requires (v * 256 + b) * p < TWO32
    ensures UInt32(IntOr(x, y)) == (v * 256 + b) * p
  {
    Pow2Add(k, 8);
    assert Pow2(8) == 256 by { Pow2Values(); }
    PlaceValue(v, b, p, p8);
    var s := v * p8 + b as int * p;
    BitOrDisjoint(v, b as int * p, k + 8);
    UInt32OfWrap(s);
    DivModUnique(s, TWO32, 0, s);
  }

  lemma {:induction false} PlaceValue(v: nat, b: Byte, p: int, p8: int)
    requires p >= 1 && p8 == p * 256
    ensures 0 <= b as int * p < p8
    ensures v * p8 + b as int * p == (v * 256 + b) * p
  {
    MulMonotone(b, 255, p);
    MulMonotone(0, b, p);
    MulRegroup(v, p, 256);
  }

  /** The big-endian value of four bytes, in positional form. */
  lemma {:induction false} BigEndian4(w: seq<Byte>)
    requires |w| == 4
    ensures BigEndian(w) == w[0] as int * 0x100_0000 + w[1] as int * 0x1_0000 + w[2] as int * 0x100 + w[3] as int
  {
    var a, b, c := w[0] as int, w[1] as int, w[2] as int;
    assert w[..3][..2] == w[..2] && w[..2][..1] == w[..1] && w[..1][..0] == [];
    assert BigEndian(w[..1]) == a;
    assert BigEndian(w[..2]) == a * 256 + b;
    assert BigEndian(w[..3]) == (a * 256 + b) * 256 + c;
  }

  /** The or of four shifted bytes, as readInt forms it, is their positional sum. */
  lemma {:induction false} ShiftedBytesOr(b0: Byte, b1: Byte, b2: Byte, b3: Byte)
    ensures UInt32(IntOr(IntOr(IntOr(Shl(b0, 24), Shl(b1, 16)), Shl(b2, 8)), b3)) ==
      b0 as int * 0x100_0000 + b1 as int * 0x1_0000 + b2 as int * 0x100 + b3 as int
  {
    var c0, c1, c2, c3 := b0 as int, b1 as int, b2 as int, b3 as int;
    Pow2Values();
    assert Pow2(0) == 1;
    ShlByte(b0, 24, 0x100_0000); ShlByte(b1, 16, 0x1_0000); ShlByte(b2, 8, 0x100);
    var x1 := Shl(b0, 24);
    OrStep(x1, Shl(b1, 16), c0, b1, 16, 0x1_0000, 0x100_0000);
    var x2 := IntOr(x1, Shl(b1, 16));
    var v1 := c0 * 256 + c1;
    OrStep(x2, Shl(b2, 8), v1, b2, 8, 0x100, 0x1_0000);
    var x3 := IntOr(x2, Shl(b2, 8));
    var v2 := v1 * 256 + c2;
    DivModUnique(c3, TWO32, 0, c3);
    OrStep(x3, b3, v2, b3, 0, 1, 0x100);
  }

  /** readInt reads the four bytes at `offset` as a big-endian two's-complement int. */
  lemma {:induction false} ReadIntBigEndian(buffer: seq<Byte>, offset: nat)
    requires offset + 4 <= |buffer|
    ensures UInt32(ReadInt(buffer, offset)) == BigEndian(buffer[offset..offset + 4])
    ensures ReadInt(buffer, offset) == WrapInt(BigEndian(buffer[offset..offset + 4]))
  {
    var w := buffer[offset..offset + 4];
    assert w[0] == buffer[offset] && w[1] == buffer[offset + 1];
    assert w[2] == buffer[offset + 2] && w[3] == buffer[offset + 3];
    ByteMask(w[0]); ByteMask(w[1]); ByteMask(w[2]); ByteMask(w[3]);
    BigEndian4(w);
    ShiftedBytesOr(w[0], w[1], w[2], w[3]);
    WrapOfUInt32(ReadInt(buffer, offset));
  }

  // ------------------------------------------------ payload-type rewrite

  /**
   * The second byte of an RTP header after doWrite sets the payload type:
   * `(byte) ((b & 0x80) | (payloadType & 0x7f))`, as an unsigned byte.
   */
  function PayloadTypeByte(b: Byte, payloadType: int): Byte
  {
    UInt32(IntOr(IntAnd(SignedByte(b), 0x80), IntAnd(payloadType, 0x7f))) % 256
  }

  /**
   * The rewrite keeps the marker bit (the top bit) and puts the low seven
   * bits of the payload type below it.
   */
  lemma {:induction false} PayloadTypeKeepsMarker(b: Byte, payloadType: int)
    ensures PayloadTypeByte(b, payloadType) == (b / 128) * 128 + payloadType % 128
  {
    MarkerBit(b);
    LowSevenBits(payloadType);
    OrMarkerLow(b / 128, payloadType % 128);
  }

  /** Or-ing a top bit with seven low bits adds them, and the sum is a byte. */
  lemma {:induction false} OrMarkerLow(m: nat, low: nat)
    requires m <= 1 && low < 128
    ensures UInt32(IntOr(m * 128, low)) % 256 == m * 128 + low
  {
    var r := m * 128 + low;
    DivModUnique(m * 128, TWO32, 0, m * 128);
    DivModUnique(low, TWO32, 0, low);
    assert Pow2(7) == 128;
    BitOrDisjoint(m, low, 7);
    assert BitOr(UInt32(m * 128), UInt32(low)) == r;
    DivModUnique(r, TWO32, 0, r);
    DivModUnique(r, 256, 0, r);
  }

  /** `b & 0x80` on a Java byte is its top bit. */
  lemma {:induction false} MarkerBit(b: Byte)
    ensures IntAnd(SignedByte(b), 0x80) == (b / 128) * 128
  {
    Pow2Values();
    var u := UInt32(SignedByte(b));
    var q := if b >= 128 then TWO32 / 256 - 1 else 0;
    assert u == 256 * q + b;
    DivModUnique(u, 128, 2 * q + b / 128, b % 128);
    BitAndSingleBit(u, 7);
    DivModUnique(u / 128, 2, q, b / 128);
  }

  /** `x & 0x7f` is the Euclidean remainder modulo 128, also for a negative x. */
  lemma {:induction false} LowSevenBits(x: int)
    ensures IntAnd(x, 0x7f) == x % 128
  {
    var p := UInt32(x);
    assert Pow2(7) == 128;
    BitAndLowMask(p, 7);
    assert BitAnd(p, UInt32(0x7f)) == p % 128;
    SameResidue128(x, p);
  }

  /** Numbers that agree modulo 2^32 agree modulo 128. */
  lemma {:induction false} SameResidue128(x: int, p: int)
    requires (x - p) % TWO32 == 0
    ensures x % 128 == p % 128
  {
    var k := (x - p) / TWO32;
    assert x - p == k * TWO32;
    assert p - x == (-k * 0x200_0000) * 128;
    DivModUnique(p - x, 128, -k * 0x200_0000, 0);
    ModCongruent(p, x, 128);
  }

  /**
   * doWrite's rewrite of the payload-type byte of the RTP packet at
   * `offset`: made only for a packet of positive length whose format has a
   * payload type on the target (or on the excluded stream). A byte index
   * outside the buffer throws ArrayIndexOutOfBoundsException
   * (`outOfBounds`) and changes nothing.
   */
  method RewritePayloadType(buffer: array<Byte>, offset: int, length: int, payloadType: Option<int>)
    returns (outOfBounds: bool)
    modifies buffer
    ensures outOfBounds <==> length > 0 && payloadType.Some? && !(0 <= offset + 1 < buffer.Length)
    ensures length > 0 && payloadType.Some? && !outOfBounds ==>
      buffer[..] == old(buffer[..])[offset + 1 := PayloadTypeByte(old(buffer[offset + 1]), payloadType.value)]
    ensures !(length > 0 && payloadType.Some?) || outOfBounds ==> buffer[..] == old(buffer[..])
  {
    if length > 0 && payloadType.Some? {
      var payloadTypeByteIndex := offset + 1;
      if !(0 <= payloadTypeByteIndex < buffer.Length) {
        return true;
      }
      buffer[payloadTypeByteIndex] := PayloadTypeByte(buffer[payloadTypeByteIndex], payloadType.value);
    }
    return false;
  }

  // ------------------------------------------------- the write queue

  /** RTPConnectorOutputStream.MAX_PACKETS_PER_MILLIS_POLICY_PACKET_QUEUE_CAPACITY. */
  const WRITE_QUEUE_CAPACITY: int := 256

  /**
   * An RTPTranslatorBuffer: a reusable byte buffer, the length of the
   * packet in it, and the packet's format and excluded stream (null or an
   * identity).
   */
  datatype TranslatorBuffer = TranslatorBuffer(
    data: Option<seq<Byte>>, length: int, format: Option<nat>, exclusion: Option<nat>)

  /** A packet waiting to be translated. */
  datatype Pending = Pending(bytes: seq<Byte>, format: Option<nat>, exclusion: Option<nat>)

  /**
   * The buffer a packet is copied into: the slot's old buffer when it is
   * long enough (its bytes past the packet stay), else a new one.
   */
  function CopyInto(data: Option<seq<Byte>>, packet: seq<Byte>): (r: seq<Byte>)
    ensures |r| == if data.Some? && |data.value| >= |packet| then |data.value| else |packet|
    ensures r[..|packet|] == packet
  {
    if data.Some? && |data.value| >= |packet| then packet + data.value[|packet|..]
    else packet
  }

  /** The array index `i` places after `head`, wrapping once around the ring. */
  function Slot(head: int, i: int): int
  {
    if head + i < WRITE_QUEUE_CAPACITY then head + i else head + i - WRITE_QUEUE_CAPACITY
  }

  /** A slot that holds a packet: a buffer at least as long as the packet. */
  predicate Holds(slot: Option<TranslatorBuffer>)
  {
    slot.Some? && slot.value.data.Some? && 0 <= slot.value.length <= |slot.value.data.value|
  }

  /** The packet a holding slot stands for. */
  function PendingOf(slot: Option<TranslatorBuffer>): Pending
    requires Holds(slot)
  {
    Pending(slot.value.data.value[..slot.value.length], slot.value.format, slot.value.exclusion)
  }

  /** The `len` slots from `head` on, around the ring, each hold a packet. */
  predicate Ring(slots: seq<Option<TranslatorBuffer>>, head: int, len: int)
  {
    |slots| == WRITE_QUEUE_CAPACITY && 0 <= head < WRITE_QUEUE_CAPACITY && 0 <= len <= WRITE_QUEUE_CAPACITY &&
    forall i :: 0 <= i < len ==> Holds(slots[Slot(head, i)])
  }

  /** The packets of a ring, oldest first. */
  function QueueOf(slots: seq<Option<TranslatorBuffer>>, head: int, len: int): (q: seq<Pending>)
    requires Ring(slots, head, len)
    ensures |q| == len
  {
    seq(len, i requires 0 <= i < len && Ring(slots, head, len) => PendingOf(slots[Slot(head, i)]))
  }

  /** The queue after a write: the new packet last, the oldest dropped when it was full. */
  function Enqueued(q: seq<Pending>, p: Pending): (r: seq<Pending>)
    ensures |r| == if |q| < WRITE_QUEUE_CAPACITY then |q| + 1 else |q|
  {
    (if |q| < WRITE_QUEUE_CAPACITY then q else q[1..]) + [p]
  }

  /** The slot write() fills: after the last packet, or the oldest one's when full. */
  function WriteIndex(head: int, len: int): int
  {
    if len < WRITE_QUEUE_CAPACITY then Slot(head, len) else head
  }

  /** Distinct positions of the ring are distinct slots. */
  lemma {:induction false} SlotInjective(head: int, i: int, j: int)
    requires 0 <= head < WRITE_QUEUE_CAPACITY && 0 <= i < WRITE_QUEUE_CAPACITY && 0 <= j < WRITE_QUEUE_CAPACITY
    requires i != j
    ensures Slot(head, i) != Slot(head, j)
  {
  }

  /**
   * Filling the write index with the new packet and advancing the head past
   * a dropped packet leaves a ring whose queue is the old one with the
   * packet enqueued.
   */
  lemma {:induction false} WriteEnqueues(slots: seq<Option<TranslatorBuffer>>, head: int, len: int, slot: Option<TranslatorBuffer>)
    requires Ring(slots, head, len) && Holds(slot)
    ensures var full := len == WRITE_QUEUE_CAPACITY;
      var head' := if full then Slot(head, 1) else head;
      var len' := if full then len else len + 1;
      var slots' := slots[WriteIndex(head, len) := slot];
      Ring(slots', head', len') &&
      QueueOf(slots', head', len') == Enqueued(QueueOf(slots, head, len), PendingOf(slot))
  {
    var full := len == WRITE_QUEUE_CAPACITY;
    var head' := if full then Slot(head, 1) else head;
    var len' := if full then len else len + 1;
    var w := WriteIndex(head, len);
    var slots' := slots[w := slot];
    var shift := if full then 1 else 0;
    forall i | 0 <= i < len'
      ensures Holds(slots'[Slot(head', i)])
      ensures PendingOf(slots'[Slot(head', i)]) == Enqueued(QueueOf(slots, head, len), PendingOf(slot))[i]
    {
      if i == len' - 1 {
        assert Slot(head', i) == w;
      } else {
        assert Slot(head', i) == Slot(head, i + shift);
        SlotInjective(head, i + shift, if full then 0 else len);
      }
    }
    assert Ring(slots', head', len');
  }

  /**
   * The slot the write thread takes is emptied for reuse and the head moves
   * on: the queue loses its oldest packet.
   */
  lemma {:induction false} TakeDequeues(slots: seq<Option<TranslatorBuffer>>, head: int, len: int, slot: Option<TranslatorBuffer>)
    requires Ring(slots, head, len) && len >= 1
    ensures Ring(slots[head := slot], Slot(head, 1), len - 1) &&
      QueueOf(slots[head := slot], Slot(head, 1), len - 1) == QueueOf(slots, head, len)[1..]
  {
    var slots' := slots[head := slot];
    forall i | 0 <= i < len - 1
      ensures Holds(slots'[Slot(Slot(head, 1), i)])
      ensures PendingOf(slots'[Slot(Slot(head, 1), i)]) == QueueOf(slots, head, len)[i + 1]
    {
      assert Slot(Slot(head, 1), i) == Slot(head, i + 1);
      SlotInjective(head, i + 1, 0);
    }
    assert Ring(slots', Slot(head, 1), len - 1);
  }

  /** Changing a slot that holds no packet leaves the queue as it was. */
  lemma {:induction false} RecycleKeeps(slots: seq<Option<TranslatorBuffer>>, head: int, len: int, w: int, slot: Option<TranslatorBuffer>)
    requires Ring(slots, head, len) && 0 <= w < |slots| && !Holds(slots[w])
    ensures Ring(slots[w := slot], head, len) && QueueOf(slots[w := slot], head, len) == QueueOf(slots, head, len)
  {
    var slots' := slots[w := slot];
    forall i | 0 <= i < len
      ensures Slot(head, i) != w && slots'[Slot(head, i)] == slots[Slot(head, i)]
    {
    }
    assert Ring(slots', head, len);
  }

  /** OutputDataStreamImpl's queue of packets waiting for the write thread. */
  class OutputDataStream {
    var closed: bool
    const writeQueue: array<Option<TranslatorBuffer>>
    var writeQueueHead: int
    var writeQueueLength: int

    ghost predicate Valid()
      reads this, writeQueue
    {
      Ring(writeQueue[..], writeQueueHead, writeQueueLength)
    }

    /** The waiting packets, oldest first. */
    ghost function Queue(): seq<Pending>
      reads this, writeQueue
      requires Valid()
    {
      QueueOf(writeQueue[..], writeQueueHead, writeQueueLength)
    }

    constructor()
      ensures Valid() && !closed && Queue() == []
    {
      closed := false;
      writeQueue := new Option<TranslatorBuffer>[WRITE_QUEUE_CAPACITY](_ => None);
      writeQueueHead := 0;
      writeQueueLength := 0;
    }

    /**
     * write(buffer, offset, length, format, exclusion): a closed stream
     * ignores the packet; otherwise it is copied into the slot after the
     * last waiting packet, and when the queue is full that slot is the
     * oldest packet's, which is dropped.
     */
    method Write(buffer: seq<Byte>, offset: int, length: int, format: Option<nat>, exclusion: Option<nat>)
      requires Valid() && 0 <= offset && 0 <= length && offset + length <= |buffer|
      modifies this, writeQueue
      ensures Valid() && closed == old(closed)
      ensures old(closed) ==>
        writeQueue[..] == old(writeQueue[..]) &&
        writeQueueHead == old(writeQueueHead) && writeQueueLength == old(writeQueueLength)
      ensures !old(closed) ==>
        var full := old(writeQueueLength) == WRITE_QUEUE_CAPACITY;
        var writeIndex := WriteIndex(old(writeQueueHead), old(writeQueueLength));
        var slot := old(writeQueue[writeIndex]);
        var data := if slot.Some? then slot.value.data else None;
        writeQueue[..] == old(writeQueue[..])[writeIndex :=
          Some(TranslatorBuffer(Some(CopyInto(data, buffer[offset..offset + length])), length, format, exclusion))] &&
        writeQueueLength == (if full then old(writeQueueLength) else old(writeQueueLength) + 1) &&
        writeQueueHead == (if full then Slot(old(writeQueueHead), 1) else old(writeQueueHead))
      ensures !old(closed) ==>
        Queue() == Enqueued(old(Queue()), Pending(buffer[offset..offset + length], format, exclusion))
    {
      if closed {
        return;
      }
      ghost var head0, len0, slots0 := writeQueueHead, writeQueueLength, writeQueue[..];
      var writeIndex := NextWriteIndex();
      var write := writeQueue[writeIndex];
      if write.None? {
        write := Some(TranslatorBuffer(None, 0, None, None));
      }
      var data := write.value.data;
      var packet := buffer[offset..offset + length];
      var filled := Some(TranslatorBuffer(Some(CopyInto(data, packet)), length, format, exclusion));
      writeQueue[writeIndex] := filled;
      writeQueueLength := writeQueueLength + 1;
      WriteEnqueues(slots0, head0, len0, filled);
      assert writeQueue[..] == slots0[writeIndex := filled];
    }

    /**
     * The slot write fills: the one after the last waiting packet, or, when
     * the queue is full, the oldest packet's, which leaves the queue.
     */
    method NextWriteIndex() returns (writeIndex: int)
      requires Valid()
      modifies this`writeQueueHead, this`writeQueueLength
      ensures writeIndex == WriteIndex(old(writeQueueHead), old(writeQueueLength)) && 0 <= writeIndex < WRITE_QUEUE_CAPACITY
      ensures old(writeQueueLength) < WRITE_QUEUE_CAPACITY ==>
        writeQueueHead == old(writeQueueHead) && writeQueueLength == old(writeQueueLength)
      ensures old(writeQueueLength) == WRITE_QUEUE_CAPACITY ==>
        writeQueueHead == Slot(old(writeQueueHead), 1) && writeQueueLength == old(writeQueueLength) - 1
    {
      if writeQueueLength < writeQueue.Length {
        writeIndex := (writeQueueHead + writeQueueLength) % writeQueue.Length;
      } else {
        writeIndex := writeQueueHead;
        writeQueueHead := writeQueueHead + 1;
        if writeQueueHead >= writeQueue.Length {
          writeQueueHead := 0;
        }
        writeQueueLength := writeQueueLength - 1;
      }
    }

    /**
     * The write thread's dequeue in run(): takes the head packet's buffer
     * and fields, empties the slot and moves the head on.
     */
    method Take() returns (writeIndex: int, buffer: seq<Byte>, length: int, format: Option<nat>, exclusion: Option<nat>)
      requires Valid() && writeQueueLength >= 1
      modifies this, writeQueue
      ensures Valid() && closed == old(closed)
      ensures 0 <= length <= |buffer| && Pending(buffer[..length], format, exclusion) == old(Queue())[0]
      ensures Queue() == old(Queue())[1..]
      ensures writeIndex == old(writeQueueHead) && old(writeQueue[writeIndex]).Some? &&
        buffer == old(writeQueue[writeIndex]).value.data.value
      ensures writeQueue[..] == old(writeQueue[..])[writeIndex := Some(TranslatorBuffer(None, 0, None, None))]
      ensures writeQueueHead == Slot(old(writeQueueHead), 1) && writeQueueLength == old(writeQueueLength) - 1
    {
      ghost var head0, len0, slots0 := writeQueueHead, writeQueueLength, writeQueue[..];
      assert Slot(head0, 0) == head0;
      writeIndex := writeQueueHead;
      var write := writeQueue[writeIndex].value;
      buffer := write.data.value;
      exclusion := write.exclusion;
      format := write.format;
      length := write.length;
      var emptied := Some(TranslatorBuffer(None, 0, None, None));
      writeQueue[writeIndex] := emptied;
      writeQueueHead := writeQueueHead + 1;
      if writeQueueHead >= writeQueue.Length {
        writeQueueHead := 0;
      }
      writeQueueLength := writeQueueLength - 1;
      TakeDequeues(slots0, head0, len0, emptied);
      assert writeQueue[..] == slots0[head0 := emptied];
    }

    /**
     * The `finally` of run(): gives the buffer back to the slot it came
     * from unless a later write has already given that slot a buffer.
     */
    method Recycle(writeIndex: int, buffer: seq<Byte>)
      requires Valid() && 0 <= writeIndex < WRITE_QUEUE_CAPACITY
      modifies writeQueue
      ensures Valid() && Queue() == old(Queue())
      ensures var write := old(writeQueue[writeIndex]);
        writeQueue[..] == if write.Some? && write.value.data.None?
          then old(writeQueue[..])[writeIndex := Some(write.value.(data := Some(buffer)))]
          else old(writeQueue[..])
    {
      var write := writeQueue[writeIndex];
      if write.Some? && write.value.data.None? {
        ghost var slots0 := writeQueue[..];
        var recycled := Some(write.value.(data := Some(buffer)));
        writeQueue[writeIndex] := recycled;
        RecycleKeeps(slots0, writeQueueHead, writeQueueLength, writeIndex, recycled);
        assert writeQueue[..] == slots0[writeIndex := recycled];
      }
    }
  }

  // ------------------------------------------------- shared send streams

  /** A call made on the one real SendStream that a SendStreamDesc shares. */
  datatype RealCall = RealStart | RealStop

  /**
   * The reference count of a SendStreamDesc and the calls it has made on its
   * real SendStream so far. A call that throws an IOException is not
   * recorded: it leaves both the count and the calls as they were.
   */
  datatype Sharing = Sharing(started: int, calls: seq<RealCall>)

  /** The real stream was started first and then stopped and started in turn. */
  predicate Alternating(calls: seq<RealCall>)
  {
    forall i :: 0 <= i < |calls| ==> calls[i] == if i % 2 == 0 then RealStart else RealStop
  }

  /**
   * The count is never negative and the real stream is running (its last
   * call was a start) exactly when some view is counted as started.
   */
  predicate Consistent(s: Sharing)
  {
    s.started >= 0 && Alternating(s.calls) && (s.started > 0 <==> |s.calls| % 2 == 1)
  }

  /** SendStreamDesc.start for a known view. */
  function StartStep(s: Sharing): Sharing
  {
    if s.started < 1 then Sharing(1, s.calls + [RealStart]) else Sharing(s.started + 1, s.calls)
  }

  /** SendStreamDesc.stop for a known view. */
  function StopStep(s: Sharing): Sharing
  {
    if s.started == 1 then Sharing(0, s.calls + [RealStop])
    else if s.started > 1 then Sharing(s.started - 1, s.calls)
    else s
  }

  /**
   * A start counts one more view, and starts the real stream only on the
   * transition from no started view to one.
   */
  lemma {:induction false} StartStepCounts(s: Sharing)
    requires Consistent(s)
    ensures var t := StartStep(s);
      Consistent(t) && t.started == s.started + 1 &&
      t.calls == if s.started == 0 then s.calls + [RealStart] else s.calls
  {
    var t := StartStep(s);
    if s.started == 0 {
      forall i | 0 <= i < |t.calls|
        ensures t.calls[i] == if i % 2 == 0 then RealStart else RealStop
      {
        if i < |s.calls| { assert t.calls[i] == s.calls[i]; }
      }
    }
  }

  /**
   * A stop counts one view fewer, never going below zero, and stops the real
   * stream only on the transition from one started view to none.
   */
  lemma {:induction false} StopStepCounts(s: Sharing)
    requires Consistent(s)
    ensures var t := StopStep(s);
      Consistent(t) && t.started == Max(s.started - 1, 0) &&
      t.calls == if s.started == 1 then s.calls + [RealStop] else s.calls
  {
    var t := StopStep(s);
    if s.started == 1 {
      forall i | 0 <= i < |t.calls|
        ensures t.calls[i] == if i % 2 == 0 then RealStart else RealStop
      {
        if i < |s.calls| { assert t.calls[i] == s.calls[i]; }
      }
    }
  }

  /** k start calls in a row. */
  function StartTimes(s: Sharing, k: nat): Sharing
    decreases k
  {
    if k == 0 then s else StartTimes(StartStep(s), k - 1)
  }

  /** k stop calls in a row. */
  function StopTimes(s: Sharing, k: nat): Sharing
    decreases k
  {
    if k == 0 then s else StopTimes(StopStep(s), k - 1)
  }

  /** However many views start, the real stream is started at most once. */
  lemma {:induction false} StartTimesCount(s: Sharing, k: nat)
    requires Consistent(s)
    ensures var t := StartTimes(s, k);
      Consistent(t) && t.started == s.started + k &&
      t.calls == if s.started == 0 && k > 0 then s.calls + [RealStart] else s.calls
    decreases k
  {
    if k > 0 {
      StartStepCounts(s);
      StartTimesCount(StartStep(s), k - 1);
    }
  }

  /**
   * Stopping the started views one by one stops the real stream only when
   * the last of them stops.
   */
  lemma {:induction false} StopTimesCount(s: Sharing, k: nat)
    requires Consistent(s) && k <= s.started
    ensures var t := StopTimes(s, k);
      Consistent(t) && t.started == s.started - k &&
      t.calls == if k == s.started && k > 0 then s.calls + [RealStop] else s.calls
    decreases k
  {
    if k > 0 {
      StopStepCounts(s);
      StopTimesCount(StopStep(s), k - 1);
    }
  }

  /**
   * k views starting and then stopping a stopped stream make exactly one
   * real start and one real stop.
   */
  lemma {:induction false} NestedStartStop(s: Sharing, k: nat)
    requires Consistent(s) && s.started == 0 && k > 0
    ensures StopTimes(StartTimes(s, k), k) == Sharing(0, s.calls + [RealStart, RealStop])
  {
    StartTimesCount(s, k);
    var t := StartTimes(s, k);
    StopTimesCount(t, k);
    assert t.calls + [RealStop] == s.calls + [RealStart, RealStop];
  }

  /** The index of the first view belonging to the manager, or -1. */
  function ManagerIndex(views: seq<SendStreamImpl>, manager: int): (r: int)
    ensures -1 <= r < |views|
    ensures r == -1 <==> forall i :: 0 <= i < |views| ==> views[i].streamRTPManager != manager
    ensures r >= 0 ==>
      views[r].streamRTPManager == manager && forall i :: 0 <= i < r ==> views[i].streamRTPManager != manager
  {
    if views == [] then -1
    else if views[0].streamRTPManager == manager then 0
    else
      var k := ManagerIndex(views[1..], manager);
      assert forall i :: 1 <= i < |views| ==> views[i] == views[1..][i - 1];
      if k == -1 then -1 else k + 1
  }

  /**
   * SendStreamDesc: one real SendStream shared by per-StreamRTPManager views.
   * StreamRTPManager objects are identified by an int.
   */
  class SendStreamDesc {
    var sendStreams: seq<SendStreamImpl>
    var started: int
    /** The calls made on the real SendStream. */
    var calls: seq<RealCall>
    /** Whether closeSendStream(this) has been called on the translator. */
    var closeRequested: bool

    function Shared(): Sharing
      reads this
    {
      Sharing(started, calls)
    }

    predicate Valid()
      reads this
    {
      Consistent(Shared())
    }

    constructor()
      ensures Valid() && sendStreams == [] && started == 0 && calls == [] && !closeRequested
    {
      sendStreams := [];
      started := 0;
      calls := [];
      closeRequested := false;
    }

    /**
     * start(sendStream): counts a known view as started; ignores others.
     * `realFails` says whether the real SendStream's start throws an
     * IOException if it is called; the exception then propagates and the
     * count stays as it was.
     */
    method Start(view: SendStreamImpl, realFails: bool) returns (error: Option<StreamError>)
      requires Valid()
      modifies this
      ensures Valid() && sendStreams == old(sendStreams) && closeRequested == old(closeRequested)
      ensures error == if view in old(sendStreams) && old(started) < 1 && realFails then Some(RealStreamFailed) else None
      ensures Shared() == if view in old(sendStreams) && error.None? then StartStep(old(Shared())) else old(Shared())
    {
      if view in sendStreams {
        StartStepCounts(Shared());
        if started < 1 {
          if realFails {
            return Some(RealStreamFailed);
          }
          calls := calls + [RealStart];
          started := 1;
        } else {
          started := started + 1;
        }
      }
      return None;
    }

    /**
     * stop(sendStream): counts a known view as stopped; ignores others.
     * `realFails` says whether the real SendStream's stop throws an
     * IOException if it is called; the exception then propagates and the
     * count stays as it was.
     */
    method Stop(view: SendStreamImpl, realFails: bool) returns (error: Option<StreamError>)
      requires Valid()
      modifies this
      ensures Valid() && sendStreams == old(sendStreams) && closeRequested == old(closeRequested)
      ensures error == if view in old(sendStreams) && old(started) == 1 && realFails then Some(RealStreamFailed) else None
      ensures Shared() == if view in old(sendStreams) && error.None? then StopStep(old(Shared())) else old(Shared())
    {
      if view in sendStreams {
        StopStepCounts(Shared());
        if started == 1 {
          if realFails {
            return Some(RealStreamFailed);
          }
          calls := calls + [RealStop];
          started := 0;
        } else if started > 1 {
          started := started - 1;
        }
      }
      return None;
    }

    /**
     * close(sendStream): forgets a known view, and once no view is left asks
     * the translator to close the real stream.
     */
    method Close(view: SendStreamImpl)
      modifies this
      ensures Shared() == old(Shared())
      ensures sendStreams == RemoveFirst(old(sendStreams), view)
      ensures closeRequested == (old(closeRequested) || (view in old(sendStreams) && sendStreams == []))
    {
      var close := false;
      if view in sendStreams {
        sendStreams := RemoveFirst(sendStreams, view);
        close := sendStreams == [];
      }
      if close {
        closeRequested := true;
      }
    }

    /**
     * getSendStream(streamRTPManager, create): the manager's existing view,
     * else a new view added to the list when asked to create one, else none.
     */
    method GetSendStream(manager: int, create: bool) returns (r: Option<SendStreamImpl>)
      modifies this
      ensures Shared() == old(Shared()) && closeRequested == old(closeRequested)
      ensures var i := ManagerIndex(old(sendStreams), manager);
        if i >= 0 then r == Some(old(sendStreams)[i]) && sendStreams == old(sendStreams)
        else if create then
          r.Some? && fresh(r.value) && r.value.streamRTPManager == manager && r.value.sendStreamDesc == this &&
          !r.value.closed && !r.value.started && sendStreams == old(sendStreams) + [r.value]
        else r == None && sendStreams == old(sendStreams)
    {
      var i := 0;
      while i < |sendStreams|
        invariant 0 <= i <= |sendStreams|
        invariant forall j :: 0 <= j < i ==> sendStreams[j].streamRTPManager != manager
      {
        if sendStreams[i].streamRTPManager == manager {
          return Some(sendStreams[i]);
        }
        i := i + 1;
      }
      if create {
        var view := new SendStreamImpl(manager, this);
        sendStreams := sendStreams + [view];
        return Some(view);
      }
      return None;
    }
  }

  /**
   * The exceptions of the send stream views: the IOException of starting a
   * closed view, the IOException of the real SendStream's start or stop, and
   * the UndeclaredThrowableException that close wraps the latter in.
   */
  datatype StreamError = StartAfterClose | RealStreamFailed | UndeclaredThrowable

  /** SendStreamImpl: the view of a shared send stream one manager sees. */
  class SendStreamImpl {
    var closed: bool
    var started: bool
    const sendStreamDesc: SendStreamDesc
    const streamRTPManager: int

    constructor(streamRTPManager: int, sendStreamDesc: SendStreamDesc)
      ensures this.streamRTPManager == streamRTPManager && this.sendStreamDesc == sendStreamDesc
      ensures !closed && !started
    {
      this.streamRTPManager := streamRTPManager;
      this.sendStreamDesc := sendStreamDesc;
      closed := false;
      started := false;
    }

    /**
     * start(): fails once the view is closed; otherwise a view not yet
     * started is counted as started by its SendStreamDesc, unless the real
     * SendStream's start throws (`realFails`), which leaves the view
     * unstarted and propagates.
     */
    method Start(realFails: bool) returns (error: Option<StreamError>)
      requires sendStreamDesc.Valid()
      modifies this, sendStreamDesc
      ensures sendStreamDesc.Valid() && sendStreamDesc.sendStreams == old(sendStreamDesc.sendStreams)
      ensures sendStreamDesc.closeRequested == old(sendStreamDesc.closeRequested)
      ensures error ==
        if old(closed) then Some(StartAfterClose)
        else if !old(started) && this in old(sendStreamDesc.sendStreams) && old(sendStreamDesc.started) < 1 && realFails
        then Some(RealStreamFailed)
        else None
      ensures closed == old(closed) && started == (old(started) || error.None?)
      ensures sendStreamDesc.Shared() ==
        if !old(closed) && !old(started) && this in old(sendStreamDesc.sendStreams) && error.None?
        then StartStep(old(sendStreamDesc.Shared())) else old(sendStreamDesc.Shared())
    {
      if closed {
        return Some(StartAfterClose);
      }
      if !started {
        error := sendStreamDesc.Start(this, realFails);
        if error.Some? {
          return;
        }
        started := true;
      }
      return None;
    }

    /**
     * stop(): a no-op on a closed or stopped view; otherwise the view is
     * counted as stopped by its SendStreamDesc, unless the real SendStream's
     * stop throws (`realFails`), which leaves the view started and
     * propagates.
     */
    method Stop(realFails: bool) returns (error: Option<StreamError>)
      requires sendStreamDesc.Valid()
      modifies this, sendStreamDesc
      ensures sendStreamDesc.Valid() && sendStreamDesc.sendStreams == old(sendStreamDesc.sendStreams)
      ensures sendStreamDesc.closeRequested == old(sendStreamDesc.closeRequested)
      ensures error ==
        if !old(closed) && old(started) && this in old(sendStreamDesc.sendStreams) && old(sendStreamDesc.started) == 1 && realFails
        then Some(RealStreamFailed) else None
      ensures closed == old(closed) && started == (old(started) && (old(closed) || error.Some?))
      ensures sendStreamDesc.Shared() ==
        if !old(closed) && old(started) && this in old(sendStreamDesc.sendStreams) && error.None?
        then StopStep(old(sendStreamDesc.Shared())) else old(sendStreamDesc.Shared())
    {
      error := None;
      if !closed && started {
        error := sendStreamDesc.Stop(this, realFails);
        if error.None? {
          started := false;
        }
      }
    }

    /**
     * close(): stops a started view, then removes it from its
     * SendStreamDesc; closing twice does nothing more. When the stop throws
     * (`realFails`), the view is still removed and closed, stays counted as
     * started, and the IOException comes out wrapped in an
     * UndeclaredThrowableException.
     */
    method Close(realFails: bool) returns (error: Option<StreamError>)
      requires sendStreamDesc.Valid()
      modifies this, sendStreamDesc
      ensures sendStreamDesc.Valid() && closed
      ensures old(closed) ==> error == None && started == old(started) && unchanged(sendStreamDesc)
      ensures !old(closed) ==>
        var fails := old(started) && this in old(sendStreamDesc.sendStreams) && old(sendStreamDesc.started) == 1 && realFails;
        error == (if fails then Some(UndeclaredThrowable) else None) &&
        started == fails &&
        sendStreamDesc.sendStreams == RemoveFirst(old(sendStreamDesc.sendStreams), this) &&
        sendStreamDesc.closeRequested == (old(sendStreamDesc.closeRequested) ||
          (this in old(sendStreamDesc.sendStreams) && sendStreamDesc.sendStreams == [])) &&
        sendStreamDesc.Shared() ==
          if old(started) && this in old(sendStreamDesc.sendStreams) && !fails
          then StopStep(old(sendStreamDesc.Shared())) else old(sendStreamDesc.Shared())
    {
      error := None;
      if !closed {
        if started {
          var stopError := Stop(realFails);
          if stopError.Some? {
            error := Some(UndeclaredThrowable);
          }
        }
        sendStreamDesc.Close(this);
        closed := true;
      }
    }
  }

  // ------------------------------------------------------- receive SSRCs

  /** The receive-SSRC array of a StreamRTPManagerDesc. */
  class StreamRtpManagerDesc {
    var receiveSsrcs: seq<int>

    predicate Valid()
      reads this
    {
      Distinct(receiveSsrcs)
    }

    constructor()
      ensures Valid() && receiveSsrcs == []
    {
      receiveSsrcs := [];
    }

    /** containsReceiveSSRC: a linear search of the array. */
    method ContainsReceiveSsrc(ssrc: int) returns (found: bool)
      ensures found <==> ssrc in receiveSsrcs
    {
      var i := 0;
      while i < |receiveSsrcs|
        invariant 0 <= i <= |receiveSsrcs|
        invariant ssrc !in receiveSsrcs[..i]
      {
        if receiveSsrcs[i] == ssrc {
          return true;
        }
        assert receiveSsrcs[..i + 1] == receiveSsrcs[..i] + [receiveSsrcs[i]];
        i := i + 1;
      }
      assert receiveSsrcs[..i] == receiveSsrcs;
      return false;
    }

    /** addReceiveSSRC: copies the array one longer with the SSRC last, unless present. */
    method AddReceiveSsrc(ssrc: int)
      requires Valid()
      modifies this
      ensures Valid() && receiveSsrcs == AppendIfAbsent(old(receiveSsrcs), ssrc)
    {
      var present := ContainsReceiveSsrc(ssrc);
      if !present {
        AppendIfAbsentDistinct(receiveSsrcs, ssrc);
        receiveSsrcs := receiveSsrcs + [ssrc];
      }
    }
  }
}
