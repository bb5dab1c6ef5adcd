/**
 * MacCoreaudioStream: the capture side. CoreAudio's readInput callback
 * cuts the captured bytes into buffers of a fixed size: the current buffer
 * is filled, and each buffer that becomes full is handed to the reader on
 * fullBufferList and replaced by a recycled buffer from freeBufferList or
 * by a new one of bytesPerBuffer bytes. The lock that guards the recycling
 * is represented by whether it is obtained.
 */
module MacCoreaudioCapture {
  import opened JavaBase
  import opened JavaArrays

  /** JMF's Format.NOT_SPECIFIED. */
  const NOT_SPECIFIED: int := -1

  /** The channel count connect uses: an unspecified one counts as mono. */
  function EffectiveChannels(channels: int): int
  {
    if channels == NOT_SPECIFIED then 1 else channels
  }

  /**
   * The frames per buffer connect computes, `(int) ((sampleRate *
   * millisPerBuffer) / (channels * 1000))`, for a sample rate that is a
   * whole number of Hz.
   */
  function FramesPerBuffer(sampleRate: int, millisPerBuffer: int, channels: int): (r: int)
    ensures IsInt(r)
  {
    QuotientToInt(sampleRate * millisPerBuffer, WrapInt(EffectiveChannels(channels) * 1000))
  }

  /** connect(): bytesPerBuffer, `(sampleSizeInBits / 8) * channels * framesPerBuffer` in int arithmetic. */
  function BytesPerBuffer(sampleSizeInBits: int, channels: int, sampleRate: int, millisPerBuffer: int): (r: int)
    ensures IsInt(r)
  {
    var ch := EffectiveChannels(channels);
    WrapInt(WrapInt(JavaDiv(sampleSizeInBits, 8) * ch) * FramesPerBuffer(sampleRate, millisPerBuffer, ch))
  }

  /**
   * For a real format a buffer holds a whole, positive number of frames of
   * (sampleSizeInBits / 8) * channels bytes.
   */
  lemma {:induction false} BytesPerBufferWholeFrames(sampleSizeInBits: nat, channels: nat, sampleRate: nat, millisPerBuffer: nat)
    requires sampleSizeInBits >= 8 && 1 <= channels <= 1000
    requires channels * 1000 <= sampleRate * millisPerBuffer
    requires (sampleSizeInBits / 8) * channels * (sampleRate * millisPerBuffer / (channels * 1000)) <= INT_MAX
    ensures var frameSize := (sampleSizeInBits / 8) * channels;
      var r := BytesPerBuffer(sampleSizeInBits, channels, sampleRate, millisPerBuffer);
      r > 0 && r % frameSize == 0 && r / frameSize == FramesPerBuffer(sampleRate, millisPerBuffer, channels)
  {
    var frameSize := (sampleSizeInBits / 8) * channels;
    var frames := sampleRate * millisPerBuffer / (channels * 1000);
    PositiveProduct(sampleSizeInBits / 8, channels);
    DivAtLeastOne(sampleRate * millisPerBuffer, channels * 1000);
    TimesAtLeastSelf(frames, frameSize);
    TimesAtLeastSelf(frameSize, frames);
    FramesExact(sampleRate, millisPerBuffer, channels, frames);
    assert WrapInt(JavaDiv(sampleSizeInBits, 8) * channels) == frameSize;
    WholeFrames(frameSize, frames, BytesPerBuffer(sampleSizeInBits, channels, sampleRate, millisPerBuffer));
  }

  lemma {:induction false} FramesExact(sampleRate: nat, millisPerBuffer: nat, channels: nat, frames: nat)
    requires 1 <= channels <= 1000 && frames <= INT_MAX
    requires frames == sampleRate * millisPerBuffer / (channels * 1000)
    ensures FramesPerBuffer(sampleRate, millisPerBuffer, channels) == frames
  {
    assert WrapInt(channels * 1000) == channels * 1000;
  }

  lemma {:induction false} WholeFrames(frameSize: nat, frames: nat, r: int)
    requires frameSize >= 1 && frames >= 1 && r == WrapInt(frameSize * frames) && frameSize * frames <= INT_MAX
    ensures r > 0 && r % frameSize == 0 && r / frameSize == frames
  {
    assert r == frameSize * frames;
    TimesAtLeastSelf(frameSize, frames);
    MultipleDiv(frameSize, frames);
  }

  lemma {:induction false} PositiveProduct(a: nat, b: nat)
    requires a >= 1 && b >= 1
    ensures a * b >= 1
  {
    TimesAtLeastSelf(a, b);
  }

  lemma {:induction false} DivAtLeastOne(a: nat, b: nat)
    requires 0 < b <= a
    ensures a / b >= 1
  {
  }

  lemma {:induction false} TimesAtLeastSelf(a: nat, b: nat)
    requires b >= 1
    ensures a <= a * b
  {
    assert a * b == a + a * (b - 1);
  }

  lemma {:induction false} MultipleDiv(a: nat, b: nat)
    requires a > 0
    ensures (a * b) % a == 0 && (a * b) / a == b
  {
    var q, r := (a * b) / a, (a * b) % a;
    assert a * q + r == a * b && 0 <= r < a;
    assert a * (b - q) == r by {
      assert a * (b - q) == a * b - a * q;
    }
    if b - q >= 1 {
      TimesAtLeastSelf(a, b - q);
    } else if b - q <= -1 {
      TimesAtLeastSelf(a, q - b);
    }
  }

  /** Samples narrower than a byte make every buffer empty. */
  lemma {:induction false} NarrowSamplesGiveEmptyBuffers(sampleSizeInBits: nat, channels: int, sampleRate: int, millisPerBuffer: int)
    requires sampleSizeInBits < 8
    ensures BytesPerBuffer(sampleSizeInBits, channels, sampleRate, millisPerBuffer) == 0
  {
  }

  /** The bytes of the buffers of a list, in order, each buffer whole. */
  ghost function Contents(list: seq<array<Byte>>): seq<Byte>
    reads list
  {
    if list == [] then [] else Contents(list[..|list| - 1]) + list[|list| - 1][..]
  }

  lemma {:induction false} ContentsSnoc(list: seq<array<Byte>>, a: array<Byte>)
    ensures Contents(list + [a]) == Contents(list) + a[..]
  {
    assert (list + [a])[..|list|] == list;
  }

  lemma {:induction false} DistinctTail<T>(xs: seq<T>)
    requires Distinct(xs) && xs != []
    ensures Distinct(xs[1..]) && xs[0] !in xs[1..]
  {
    var r := xs[1..];
    forall i, j | 0 <= i < j < |r| ensures r[i] != r[j] {
      assert r[i] == xs[i + 1] && r[j] == xs[j + 1];
    }
    forall i | 0 <= i < |r| ensures r[i] != xs[0] {
      assert r[i] == xs[i + 1];
    }
  }

  class MacCoreaudioStream {
    /** The buffer being filled; its first nbBufferData bytes hold data. */
    var buffer: array<Byte>
    var nbBufferData: int
    /** The buffers the reader has given back for reuse. */
    var freeBufferList: seq<array<Byte>>
    /** The full buffers waiting for the reader, oldest first. */
    var fullBufferList: seq<array<Byte>>
    var bytesPerBuffer: int

    /** No buffer object is in two places: current, full or free. */
    static ghost predicate Apart(current: array<Byte>, full: seq<array<Byte>>, free: seq<array<Byte>>)
    {
      current !in full && current !in free && Distinct(full) && Distinct(free) &&
      forall a :: a in full ==> a !in free
    }

    /**
     * The current buffer has room for one more byte, a recycled or new one
     * is never empty, and no buffer object is in two places.
     */
    ghost predicate Valid()
      reads this
    {
      0 <= nbBufferData < buffer.Length && bytesPerBuffer > 0 &&
      (forall k :: 0 <= k < |freeBufferList| ==> freeBufferList[k].Length > 0) &&
      Apart(buffer, fullBufferList, freeBufferList)
    }

    /** The captured bytes not yet handed to the reader. */
    ghost function Pending(): seq<Byte>
      requires Valid()
      reads this, buffer
    {
      buffer[..nbBufferData]
    }

    /** The state start leaves when it connects: a new empty buffer and empty lists. */
    constructor(bytesPerBuffer: int)
      requires bytesPerBuffer > 0
      ensures Valid() && buffer.Length == bytesPerBuffer && nbBufferData == 0
      ensures fullBufferList == [] && freeBufferList == [] && this.bytesPerBuffer == bytesPerBuffer
    {
      buffer := new Byte[bytesPerBuffer](_ => 0);
      nbBufferData := 0;
      freeBufferList := [];
      fullBufferList := [];
      this.bytesPerBuffer := bytesPerBuffer;
    }

    /**
     * readInput(input, bufferLength): every captured byte is copied, in
     * order; the buffers filled meanwhile join fullBufferList, whole, after
     * the ones already there, and what is left is pending in the current
     * buffer.
     */
    method ReadInput(input: seq<Byte>, bufferLength: int)
      requires Valid() && bufferLength <= |input|
      modifies this, buffer, freeBufferList
      ensures Valid()
      ensures |fullBufferList| >= |old(fullBufferList)| && fullBufferList[..|old(fullBufferList)|] == old(fullBufferList)
      ensures Contents(old(fullBufferList)) == old(Contents(fullBufferList))
      ensures Contents(fullBufferList[|old(fullBufferList)|..]) + Pending() == old(Pending()) + input[..Max(bufferLength, 0)]
      ensures |freeBufferList| <= |old(freeBufferList)| && freeBufferList == old(freeBufferList)[|old(freeBufferList)| - |freeBufferList|..]
    {
      ghost var full0 := fullBufferList;
      ghost var pending0 := Pending();
      assert full0 + [] == full0;
      assert input[..0] == [];
      ghost var handed := CopyAll(input, bufferLength, full0, Contents(full0), freeBufferList, pending0);
      assert fullBufferList[|full0|..] == handed;
    }

    /** The loop of readInput, from the state Progress describes with nothing handed over yet. */
    method CopyAll(input: seq<Byte>, bufferLength: int, ghost full0: seq<array<Byte>>, ghost fullBytes0: seq<Byte>,
                   ghost free0: seq<array<Byte>>, ghost pending0: seq<Byte>)
        returns (ghost handed: seq<array<Byte>>)
      requires bufferLength <= |input| && Progress(full0, fullBytes0, [], free0, pending0 + input[..0])
      modifies this, buffer, free0
      ensures Progress(full0, fullBytes0, handed, free0, pending0 + input[..Max(bufferLength, 0)])
    {
      var nbCopied := 0;
      var remaining := bufferLength;
      handed := [];
      while remaining > 0
        invariant 0 <= nbCopied <= Max(bufferLength, 0) && remaining == bufferLength - nbCopied
        invariant Progress(full0, fullBytes0, handed, free0, pending0 + input[..nbCopied])
        invariant buffer == old(buffer) || buffer in free0 || fresh(buffer)
        decreases remaining
      {
        var length := buffer.Length - nbBufferData;
        if remaining < length {
          length := remaining;
        }
        handed := CopyChunk(input, nbCopied, length, full0, fullBytes0, handed, free0, pending0 + input[..nbCopied]);
        ChunkStep(pending0, input, nbCopied, length);
        nbCopied := nbCopied + length;
        remaining := remaining - length;
      }
    }

    /**
     * Where readInput's loop stands: fullBufferList is the old list `full0`,
     * whose bytes are unchanged, followed by the buffers `handed` over so
     * far; these and the current buffer hold the bytes `done`, in order; and
     * the buffers taken for reuse came from the front of `free0`.
     */
    ghost predicate Progress(full0: seq<array<Byte>>, fullBytes0: seq<Byte>, handed: seq<array<Byte>>, free0: seq<array<Byte>>, done: seq<Byte>)
      reads this, buffer, full0, handed
    {
      Valid() && fullBufferList == full0 + handed && buffer !in full0 &&
      Contents(full0) == fullBytes0 && Contents(handed) + buffer[..nbBufferData] == done &&
      |freeBufferList| <= |free0| && freeBufferList == free0[|free0| - |freeBufferList|..]
    }

    /**
     * One pass of the loop of readInput: `length` input bytes, as many as
     * fit, go into the current buffer, which is handed over once full.
     */
    method CopyChunk(input: seq<Byte>, from: int, length: int, ghost full0: seq<array<Byte>>, ghost fullBytes0: seq<Byte>,
                     ghost handed: seq<array<Byte>>, ghost free0: seq<array<Byte>>, ghost done: seq<Byte>)
        returns (ghost handed': seq<array<Byte>>)
      requires Progress(full0, fullBytes0, handed, free0, done)
      requires 0 <= from && 0 < length <= buffer.Length - nbBufferData && from + length <= |input|
      modifies this, buffer
      ensures Progress(full0, fullBytes0, handed', free0, done + input[from..from + length])
      ensures buffer == old(buffer) || buffer in old(freeBufferList) || fresh(buffer)
    {
      AppendStep(input, from, length, full0, fullBytes0, handed, free0, done);
      handed' := handed;
      if nbBufferData == buffer.Length {
        var gotLock: bool :| true;
        handed' := HandOverStep(gotLock, full0, fullBytes0, handed, free0, done + input[from..from + length]);
      }
    }

    /** The copy of a pass of readInput's loop keeps its bookkeeping. */
    method AppendStep(input: seq<Byte>, from: int, length: int, ghost full0: seq<array<Byte>>, ghost fullBytes0: seq<Byte>,
                      ghost handed: seq<array<Byte>>, ghost free0: seq<array<Byte>>, ghost done: seq<Byte>)
      requires Progress(full0, fullBytes0, handed, free0, done)
      requires 0 <= from && 0 < length <= buffer.Length - nbBufferData && from + length <= |input|
      modifies buffer, this`nbBufferData
      ensures 0 < nbBufferData <= buffer.Length
      ensures nbBufferData < buffer.Length ==> Progress(full0, fullBytes0, handed, free0, done + input[from..from + length])
      ensures Contents(full0) == fullBytes0 && Contents(handed) + buffer[..nbBufferData] == done + input[from..from + length]
    {
      ghost var handedBytes := Contents(handed);
      ghost var pending := buffer[..nbBufferData];
      assert buffer !in handed;
      Append(input, from, length);
      assert Contents(handed) == handedBytes && Contents(full0) == fullBytes0;
      assert handedBytes + (pending + input[from..from + length]) == done + input[from..from + length];
    }

    /** The hand-over of a full buffer keeps readInput's bookkeeping. */
    method HandOverStep(gotLock: bool, ghost full0: seq<array<Byte>>, ghost fullBytes0: seq<Byte>,
                        ghost handed: seq<array<Byte>>, ghost free0: seq<array<Byte>>, ghost done: seq<Byte>)
        returns (ghost handed': seq<array<Byte>>)
      requires 0 <= nbBufferData == buffer.Length && bytesPerBuffer > 0
      requires forall k :: 0 <= k < |freeBufferList| ==> freeBufferList[k].Length > 0
      requires Apart(buffer, fullBufferList, freeBufferList) && fullBufferList == full0 + handed && buffer !in full0
      requires Contents(full0) == fullBytes0 && Contents(handed) + buffer[..nbBufferData] == done
      requires |freeBufferList| <= |free0| && freeBufferList == free0[|free0| - |freeBufferList|..]
      modifies this
      ensures Progress(full0, fullBytes0, handed', free0, done)
      ensures buffer in old(freeBufferList) || fresh(buffer)
    {
      var filled := buffer;
      ghost var free1 := freeBufferList;
      assert filled[..] == buffer[..nbBufferData];
      HandOver(gotLock);
      ContentsSnoc(handed, filled);
      handed' := handed + [filled];
      assert fullBufferList == full0 + handed';
      assert Contents(handed') + buffer[..nbBufferData] == done;
      SuffixOfSuffix(free0, free1, freeBufferList);
    }

    /** A suffix of a suffix of free0 is one. */
    static lemma {:induction false} SuffixOfSuffix(free0: seq<array<Byte>>, free1: seq<array<Byte>>, free2: seq<array<Byte>>)
      requires |free1| <= |free0| && free1 == free0[|free0| - |free1|..]
      requires free2 == free1 || (free1 != [] && free2 == free1[1..])
      ensures |free2| <= |free0| && free2 == free0[|free0| - |free2|..]
    {
    }

    /** The bookkeeping of one pass of readInput's loop, on values. */
    static lemma {:induction false} ChunkStep(pending0: seq<Byte>, input: seq<Byte>, from: nat, length: nat)
      requires from + length <= |input|
      ensures pending0 + input[..from] + input[from..from + length] == pending0 + input[..from + length]
    {
      assert input[..from + length] == input[..from] + input[from..from + length];
    }

    /** System.arraycopy of `length` input bytes to the free end of the current buffer. */
    method Append(input: seq<Byte>, from: int, length: int)
      requires 0 <= from && 0 <= length && from + length <= |input|
      requires 0 <= nbBufferData && nbBufferData + length <= buffer.Length
      modifies buffer, this`nbBufferData
      ensures nbBufferData == old(nbBufferData) + length
      ensures buffer[..nbBufferData] == old(buffer[..nbBufferData]) + input[from..from + length]
    {
      Arraycopy(input, from, buffer, nbBufferData, length);
      nbBufferData := nbBufferData + length;
      assert buffer[..nbBufferData] == old(buffer[..nbBufferData]) + input[from..from + length];
    }

    /**
     * A full current buffer goes onto fullBufferList and the count resets
     * to 0; the next buffer is the first free one when the lock is obtained
     * and there is one, else a new buffer of bytesPerBuffer bytes.
     */
    method HandOver(gotLock: bool)
      requires 0 <= nbBufferData == buffer.Length && bytesPerBuffer > 0
      requires forall k :: 0 <= k < |freeBufferList| ==> freeBufferList[k].Length > 0
      requires Apart(buffer, fullBufferList, freeBufferList)
      modifies this
      ensures Valid() && nbBufferData == 0 && bytesPerBuffer == old(bytesPerBuffer)
      ensures fullBufferList == old(fullBufferList) + [old(buffer)]
      ensures gotLock && old(freeBufferList) != [] ==>
        buffer == old(freeBufferList)[0] && freeBufferList == old(freeBufferList)[1..]
      ensures !(gotLock && old(freeBufferList) != []) ==>
        fresh(buffer) && buffer.Length == bytesPerBuffer && freeBufferList == old(freeBufferList)
    {
      AppendIfAbsentDistinct(fullBufferList, buffer);
      fullBufferList := fullBufferList + [buffer];
      if gotLock && freeBufferList != [] {
        DistinctTail(freeBufferList);
        buffer := freeBufferList[0];
        freeBufferList := freeBufferList[1..];
      } else {
        buffer := new Byte[bytesPerBuffer](_ => 0);
      }
      nbBufferData := 0;
    }
  }
}
