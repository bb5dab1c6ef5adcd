/**
 * MacCoreaudioRenderer: the buffer between JMF's process, which appends the
 * audio to render, and CoreAudio's writeOutput callback, which takes it
 * from the front. The buffer only grows, and keeps its data when it does;
 * the first nbBufferData bytes are the data waiting to be rendered.
 * The native stream is represented by its handle; locking, the wait of a
 * blocking process and the gain control are not modelled.
 */
module MacCoreaudioRender {
  import opened JavaBase
  import opened JavaArrays
  import opened JmfBuffer

  /**
   * The maximum process buffer size setInputFormat computes: the bytes of
   * half a second, `(int) (sampleRate * sampleSizeInBits / 8) / 2`, for a
   * sample rate that is a whole number of Hz.
   */
  function MaximumProcessBufferSize(sampleRate: int, sampleSizeInBits: int): (r: int)
    ensures IsInt(r)
  {
    JavaDiv(QuotientToInt(sampleRate * sampleSizeInBits, 8), 2)
  }

  /**
   * For a real format the maximum is the bytes of 500 ms rounded down: the
   * bytes per second are twice it, or one more than that.
   */
  lemma {:induction false} MaximumIsHalfASecond(sampleRate: nat, sampleSizeInBits: nat)
    requires sampleRate * sampleSizeInBits / 8 <= INT_MAX
    ensures var bytesPerSecond := sampleRate * sampleSizeInBits / 8;
      var r := MaximumProcessBufferSize(sampleRate, sampleSizeInBits);
      0 <= r && 2 * r <= bytesPerSecond <= 2 * r + 1
  {
    var bytesPerSecond := sampleRate * sampleSizeInBits / 8;
    assert QuotientToInt(sampleRate * sampleSizeInBits, 8) == bytesPerSecond;
  }

  /** The size process asks the buffer to have for `length` more bytes. */
  function RequestedLength(length: int, nbBufferData: int, maximumProcessBufferSize: int): int
  {
    Max(2 * length, Min(nbBufferData + length, maximumProcessBufferSize))
  }

  class MacCoreaudioRenderer {
    /** The data waiting to be rendered are the first nbBufferData bytes; null before the first use and after stop. */
    var buffer: array?<Byte>
    var nbBufferData: int
    var maximumProcessBufferSize: int
    /** Whether process waits for room instead of dropping what does not fit. */
    var blocking: bool
    /** The native stream handle; 0 when there is none. */
    var stream: int
    var isStopping: bool
    var deviceUID: Option<string>

    /** The waiting data fit the buffer. */
    predicate Valid()
      reads this
    {
      if buffer == null then nbBufferData == 0 else 0 <= nbBufferData <= buffer.Length
    }

    /** The data waiting to be rendered. */
    function Held(): seq<Byte>
      requires Valid()
      reads this, buffer
    {
      if buffer == null then [] else buffer[..nbBufferData]
    }

    constructor(defaultMaximumProcessBufferSize: int)
      ensures Valid() && buffer == null && Held() == []
      ensures maximumProcessBufferSize == defaultMaximumProcessBufferSize && !blocking
      ensures stream == 0 && !isStopping && deviceUID == None
    {
      buffer := null;
      nbBufferData := 0;
      maximumProcessBufferSize := defaultMaximumProcessBufferSize;
      blocking := false;
      stream := 0;
      isStopping := false;
      deviceUID := None;
    }

    /** setInputFormat(format): the maximum process buffer size for the format. */
    method SetInputFormat(sampleRate: int, sampleSizeInBits: int)
      modifies this`maximumProcessBufferSize
      ensures maximumProcessBufferSize == MaximumProcessBufferSize(sampleRate, sampleSizeInBits)
    {
      maximumProcessBufferSize := JavaDiv(QuotientToInt(sampleRate * sampleSizeInBits, 8), 2);
    }

    /**
     * updateBufferLength(newLength): a missing buffer is created empty; a
     * buffer shorter than newLength is replaced by one of that length that
     * begins with the same waiting data; a long enough one stays.
     */
    method UpdateBufferLength(newLength: int)
      requires Valid() && newLength >= 0
      modifies this`buffer, this`nbBufferData
      ensures Valid() && buffer != null && Held() == old(Held())
      ensures old(buffer) == null ==> fresh(buffer) && buffer.Length == newLength
      ensures old(buffer) != null && newLength > old(buffer.Length) ==> fresh(buffer) && buffer.Length == newLength
      ensures old(buffer) != null && newLength <= old(buffer.Length) ==> buffer == old(buffer)
    {
      if buffer == null {
        buffer := new Byte[newLength](_ => 0);
        nbBufferData := 0;
      } else if newLength > buffer.Length {
        var newBuffer := new Byte[newLength](_ => 0);
        Arraycopy(buffer[..], 0, newBuffer, 0, nbBufferData);
        buffer := newBuffer;
      }
    }

    /**
     * writeOutput(out, bufferLength), when it gets the lock: the first
     * bytes of the waiting data go to `out`, silence fills the rest of its
     * bufferLength bytes, and the data not taken move to the front. Without
     * the lock (a stop is in progress) nothing happens.
     */
    method WriteOutput(out: array<Byte>, bufferLength: int, locked: bool)
      requires Valid() && 0 <= bufferLength <= out.Length && out != buffer
      modifies this`buffer, this`nbBufferData, buffer, out
      ensures Valid()
      ensures !locked ==> out[..] == old(out[..]) && buffer == old(buffer) && Held() == old(Held())
      ensures locked ==>
        var n := Min(|old(Held())|, bufferLength);
        out[..] == old(Held())[..n] + Zeros(bufferLength - n) + old(out[bufferLength..]) &&
        Held() == old(Held())[n..] && buffer != null && buffer.Length >= bufferLength
    {
      if !locked {
        return;
      }
      UpdateBufferLength(bufferLength);
      var length := nbBufferData;
      if bufferLength < length {
        length := bufferLength;
      }
      Emit(buffer[..nbBufferData], length, out, bufferLength);
      Consume(length);
    }

    /**
     * The first `length` waiting bytes to `out`, then silence up to
     * bufferLength.
     */
    static method Emit(held: seq<Byte>, length: int, out: array<Byte>, bufferLength: int)
      requires 0 <= length <= |held| && length <= bufferLength <= out.Length
      modifies out
      ensures out[..] == held[..length] + Zeros(bufferLength - length) + old(out[bufferLength..])
    {
      Arraycopy(held, 0, out, 0, length);
      if length < bufferLength {
        FillZero(out, length, bufferLength);
      }
      assert out[..] == held[..length] + Zeros(bufferLength - length) + old(out[bufferLength..]) by {
        assert out[..length] == held[..length];
        assert out[length..bufferLength] == Zeros(bufferLength - length);
        assert out[..] == out[..length] + out[length..bufferLength] + out[bufferLength..];
      }
    }

    /** The `length` bytes rendered leave the front of the waiting data. */
    method Consume(length: int)
      requires Valid() && buffer != null && 0 <= length <= nbBufferData
      modifies this`nbBufferData, buffer
      ensures Valid() && Held() == old(Held())[length..]
    {
      ghost var held := Held();
      nbBufferData := nbBufferData - length;
      if nbBufferData > 0 {
        ShiftToFront(buffer, length, nbBufferData);
      }
      assert buffer[..nbBufferData] == held[length..];
    }

    /**
     * process(buffer): without a running stream the input is dropped. Else
     * the buffer grows towards room for the input; input that still does
     * not fit makes a blocking renderer return INPUT_BUFFER_NOT_CONSUMED
     * without taking any, and a non-blocking one take what fits.
     */
    method Process(input: InputBuffer) returns (ret: int)
      requires Valid() && input.Valid() && input.length >= 0
      modifies this`buffer, this`nbBufferData, buffer
      ensures Valid()
      ensures stream == 0 || isStopping ==>
        ret == BUFFER_PROCESSED_OK && buffer == old(buffer) && Held() == old(Held())
      ensures stream != 0 && !isStopping ==>
        var request := RequestedLength(input.length, old(nbBufferData), maximumProcessBufferSize);
        buffer != null && buffer.Length >= request &&
        (old(buffer) != null ==> buffer.Length == Max(old(buffer.Length), request)) &&
        var fits := old(nbBufferData) + input.length <= buffer.Length;
        (fits ==> ret == BUFFER_PROCESSED_OK && Held() == old(Held()) + input.data[input.offset..input.offset + input.length]) &&
        (!fits && blocking ==> ret == INPUT_BUFFER_NOT_CONSUMED && Held() == old(Held())) &&
        (!fits && !blocking ==>
          ret == BUFFER_PROCESSED_OK &&
          Held() == old(Held()) + input.data[input.offset..input.offset + buffer.Length - old(nbBufferData)])
    {
      ret := BUFFER_PROCESSED_OK;
      if stream != 0 && !isStopping {
        var length := input.length;
        UpdateBufferLength(Max(2 * length, Min(nbBufferData + length, maximumProcessBufferSize)));
        if nbBufferData + length > buffer.Length {
          if blocking {
            ret := INPUT_BUFFER_NOT_CONSUMED;
          } else {
            length := buffer.Length - nbBufferData;
          }
        }
        if ret == BUFFER_PROCESSED_OK {
          Append(input.data, input.offset, length);
        }
      }
    }

    /** System.arraycopy of `length` input bytes to the end of the waiting data. */
    method Append(data: seq<Byte>, from: int, length: int)
      requires Valid() && buffer != null && 0 <= from && 0 <= length && from + length <= |data|
      requires nbBufferData + length <= buffer.Length
      modifies this`nbBufferData, buffer
      ensures Valid() && Held() == old(Held()) + data[from..from + length]
    {
      ghost var held := Held();
      Arraycopy(data, from, buffer, nbBufferData, length);
      nbBufferData := nbBufferData + length;
      assert buffer[..nbBufferData] == held + data[from..from + length];
    }

    /**
     * updateDeviceUID() for the locator's remainder (None when there is no
     * locator or no remainder): a remainder longer than one character
     * without its first becomes the device UID.
     */
    method UpdateDeviceUID(locatorRemainder: Option<string>) returns (updated: bool)
      modifies this`deviceUID
      ensures updated <==> locatorRemainder.Some? && |locatorRemainder.value| > 1
      ensures updated ==> deviceUID == Some(locatorRemainder.value[1..])
      ensures !updated ==> deviceUID == old(deviceUID)
    {
      if locatorRemainder.Some? {
        var remainder := locatorRemainder.value;
        if |remainder| > 1 {
          deviceUID := Some(remainder[1..]);
          return true;
        }
      }
      return false;
    }
  }
}
