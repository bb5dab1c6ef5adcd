/**
 * WASAPIRenderer: the `remainder` buffer between the JMF processing thread
 * and the thread that writes to the WASAPI render endpoint. `process`
 * appends input to the valid data at the front of `remainder`, `pop`
 * removes bytes from its head, and `start` moves the valid data to the end
 * and puts silence before it, to add latency. The native IAudioClient is
 * represented by its handle and by whether IAudioClient_Start succeeds.
 */
module WasapiRender {
  import opened JavaBase
  import opened JavaArrays
  import opened JmfBuffer

  /** DiagnosticsControl.NEVER: the write to the endpoint is not malfunctioning. */
  const NEVER: int := 0

  /** The IllegalArgumentException("length") of pop. */
  datatype PopError = NegativeLength

  /** How many valid bytes remain after popping `length` of `arrayLength`. */
  function PoppedLength(arrayLength: int, length: nat): int
  {
    if length == 0 then arrayLength else Max(0, arrayLength - length)
  }

  /**
   * The array after popping: when bytes remain, those after the popped ones
   * move to the front and the rest of the array keeps its contents.
   */
  function Popped(a: seq<Byte>, arrayLength: int, length: nat): seq<Byte>
    requires arrayLength <= |a|
  {
    var n := arrayLength - length;
    if length > 0 && n > 0 then a[length..arrayLength] + a[n..] else a
  }

  /**
   * pop(array, arrayLength, length): a negative length throws; otherwise
   * the new number of valid bytes, which now start at index 0.
   */
  method Pop(buf: array<Byte>, arrayLength: int, length: int) returns (r: Result<int, PopError>)
    requires arrayLength <= buf.Length
    modifies buf
    ensures length < 0 <==> r.Err?
    ensures length < 0 ==> buf[..] == old(buf[..])
    ensures length >= 0 ==> r == Ok(PoppedLength(arrayLength, length)) && buf[..] == Popped(old(buf[..]), arrayLength, length)
  {
    if length < 0 {
      return Err(NegativeLength);
    }
    if length == 0 {
      return Ok(arrayLength);
    }
    var newArrayLength := arrayLength - length;
    if newArrayLength > 0 {
      var i, j := 0, length;
      while i < newArrayLength
        invariant 0 <= i <= newArrayLength && j == length + i
        invariant forall k :: 0 <= k < i ==> buf[k] == old(buf[length + k])
        invariant forall k :: i <= k < buf.Length ==> buf[k] == old(buf[k])
      {
        buf[i] := buf[j];
        i, j := i + 1, j + 1;
      }
      assert buf[..] == Popped(old(buf[..]), arrayLength, length) by {
        forall k | 0 <= k < buf.Length ensures buf[k] == Popped(old(buf[..]), arrayLength, length)[k] {
        }
      }
    } else {
      newArrayLength := 0;
    }
    return Ok(newArrayLength);
  }

  /**
   * Popping `x` bytes and then `y` bytes leaves the same valid data as
   * popping `x + y` bytes at once.
   */
  lemma {:induction false} PopTwice(a: seq<Byte>, arrayLength: int, x: nat, y: nat)
    requires 0 <= arrayLength <= |a|
    ensures var m := PoppedLength(arrayLength, x);
      m <= |a| && PoppedLength(m, y) == PoppedLength(arrayLength, x + y) &&
      Popped(Popped(a, arrayLength, x), m, y)[..PoppedLength(m, y)] ==
        Popped(a, arrayLength, x + y)[..PoppedLength(arrayLength, x + y)]
  {
    var m := PoppedLength(arrayLength, x);
    var b := Popped(a, arrayLength, x);
    var n := PoppedLength(arrayLength, x + y);
    assert PoppedLength(m, y) == n;
    assert b[..m] == a[arrayLength - m..arrayLength];
    var c := Popped(b, m, y);
    assert c[..n] == a[arrayLength - n..arrayLength] by {
      if y > 0 && n > 0 {
        assert c[..n] == b[y..m];
      }
    }
    if x + y > 0 && n > 0 {
      assert Popped(a, arrayLength, x + y)[..n] == a[x + y..arrayLength];
    }
  }

  /** findFirst(formats): the first non-null element, or null when there is none. */
  method FindFirst<T>(formats: seq<Option<T>>) returns (format: Option<T>)
    ensures format.None? <==> forall k :: 0 <= k < |formats| ==> formats[k].None?
    ensures format.Some? ==>
      exists k :: 0 <= k < |formats| && formats[k] == format && forall j :: 0 <= j < k ==> formats[j].None?
  {
    format := None;
    var i := 0;
    while i < |formats|
      invariant 0 <= i <= |formats|
      invariant forall j :: 0 <= j < i ==> formats[j].None?
    {
      if formats[i].Some? {
        format := formats[i];
        break;
      }
      i := i + 1;
    }
  }

  /**
   * The valid data at the end of the array with silence before it, as
   * start leaves the remainder; a negative length counts as none.
   */
  function Padded(a: seq<Byte>, validLength: int): (r: seq<Byte>)
    requires validLength <= |a|
    ensures |r| == |a|
  {
    var n := Max(validLength, 0);
    Zeros(|a| - n) + a[..n]
  }

  /**
   * Popping the silence that start put in front of the valid data gives
   * that valid data back, at the front.
   */
  lemma {:induction false} PopSilence(a: seq<Byte>, validLength: nat)
    requires validLength <= |a|
    ensures PoppedLength(|a|, |a| - validLength) == validLength
    ensures Popped(Padded(a, validLength), |a|, |a| - validLength)[..validLength] == a[..validLength]
  {
    var p := Padded(a, validLength);
    var silence := |a| - validLength;
    if silence > 0 && validLength > 0 {
      assert Popped(p, |a|, silence)[..validLength] == p[silence..];
    }
  }

  /**
   * The remainder after process has copied `n` bytes of input at offset
   * `offset` behind the `validLength` valid bytes.
   */
  function CopiedIn(remainder: seq<Byte>, validLength: nat, data: seq<Byte>, offset: nat, n: nat): (r: seq<Byte>)
    requires validLength + n <= |remainder| && offset + n <= |data|
    ensures |r| == |remainder|
  {
    remainder[..validLength] + data[offset..offset + n] + remainder[validLength + n..]
  }

  /**
   * Nothing is lost by process: the valid data after the copy followed by
   * the input left over equal the valid data before followed by the whole
   * input.
   */
  lemma {:induction false} CopyInConserves(remainder: seq<Byte>, validLength: nat, data: seq<Byte>, offset: nat, length: nat, n: nat)
    requires n <= length && validLength + n <= |remainder| && offset + length <= |data|
    ensures CopiedIn(remainder, validLength, data, offset, n)[..validLength + n] + data[offset + n..offset + length] ==
      remainder[..validLength] + data[offset..offset + length]
  {
    var r := CopiedIn(remainder, validLength, data, offset, n);
    assert r[..validLength + n] == remainder[..validLength] + data[offset..offset + n];
    assert data[offset..offset + n] + data[offset + n..offset + length] == data[offset..offset + length];
  }

  class WasapiRenderer {
    /** The handles of the IAudioClient and IAudioRenderClient; 0 when there is none. */
    var iAudioClient: int
    var iAudioRenderClient: int
    /** No playback device is selected: processing without one is no failure. */
    var locatorIsNull: bool
    var started: bool
    /** The bytes waiting to be written to the render endpoint; the first remainderLength are valid. */
    var remainder: array<Byte>
    var remainderLength: int
    /** When the remainder was first found full, or NEVER. */
    var writeIsMalfunctioningSince: int
    var writeIsMalfunctioningTimeout: int

    predicate Valid()
      reads this
    {
      0 <= remainderLength <= remainder.Length
    }

    constructor(remainderSize: nat)
      ensures Valid() && fresh(remainder) && remainder.Length == remainderSize && remainderLength == 0
      ensures iAudioClient == 0 && iAudioRenderClient == 0 && !started
      ensures writeIsMalfunctioningSince == NEVER
    {
      iAudioClient := 0;
      iAudioRenderClient := 0;
      locatorIsNull := false;
      started := false;
      remainder := new Byte[remainderSize](_ => 0);
      remainderLength := 0;
      writeIsMalfunctioningSince := NEVER;
      writeIsMalfunctioningTimeout := 0;
    }

    /**
     * process(buffer) at time `now`: nothing to render is success; without
     * an audio client it is success only when no device is selected; before
     * start it fails. Otherwise as much input as fits is appended to the
     * valid data and INPUT_BUFFER_NOT_CONSUMED tells the caller that some
     * is left; a full remainder marks the write as malfunctioning, and
     * fails once that has lasted longer than the timeout.
     */
    method Process(buffer: InputBuffer, now: int) returns (ret: int)
      requires Valid() && buffer.Valid()
      modifies this, remainder, buffer
      ensures Valid() && remainder == old(remainder)
      ensures iAudioClient == old(iAudioClient) && iAudioRenderClient == old(iAudioRenderClient)
      ensures started == old(started) && locatorIsNull == old(locatorIsNull)
      ensures writeIsMalfunctioningTimeout == old(writeIsMalfunctioningTimeout)
      ensures old(buffer.length) < 1 || iAudioClient == 0 || iAudioRenderClient == 0 || !started ==>
        remainder[..] == old(remainder[..]) && remainderLength == old(remainderLength) &&
        writeIsMalfunctioningSince == old(writeIsMalfunctioningSince) &&
        buffer.offset == old(buffer.offset) && buffer.length == old(buffer.length) &&
        ret == (if old(buffer.length) < 1 || ((iAudioClient == 0 || iAudioRenderClient == 0) && locatorIsNull) then BUFFER_PROCESSED_OK
                else BUFFER_PROCESSED_FAILED)
      ensures (old(buffer.length) >= 1 && iAudioClient != 0 && iAudioRenderClient != 0 && started &&
               old(remainderLength) < remainder.Length) ==>
        var n := Min(remainder.Length - old(remainderLength), old(buffer.length));
        remainder[..] == CopiedIn(old(remainder[..]), old(remainderLength), buffer.data, old(buffer.offset), n) &&
        remainderLength == old(remainderLength) + n && writeIsMalfunctioningSince == NEVER &&
        (n < old(buffer.length) <==> ret == INPUT_BUFFER_NOT_CONSUMED) &&
        (n == old(buffer.length) <==> ret == BUFFER_PROCESSED_OK) &&
        (n < old(buffer.length) ==> buffer.offset == old(buffer.offset) + n && buffer.length == old(buffer.length) - n) &&
        (n == old(buffer.length) ==> buffer.offset == old(buffer.offset) && buffer.length == old(buffer.length))
      ensures (old(buffer.length) >= 1 && iAudioClient != 0 && iAudioRenderClient != 0 && started &&
               old(remainderLength) == remainder.Length) ==>
        remainder[..] == old(remainder[..]) && remainderLength == old(remainderLength) &&
        buffer.offset == old(buffer.offset) && buffer.length == old(buffer.length) &&
        writeIsMalfunctioningSince == (if old(writeIsMalfunctioningSince) == NEVER then now else old(writeIsMalfunctioningSince)) &&
        ret == (if now - writeIsMalfunctioningSince > writeIsMalfunctioningTimeout then BUFFER_PROCESSED_FAILED
                else INPUT_BUFFER_NOT_CONSUMED)
    {
      var length := buffer.length;
      if length < 1 {
        return BUFFER_PROCESSED_OK;
      }
      var data := buffer.data;
      var offset := buffer.offset;
      if iAudioClient == 0 || iAudioRenderClient == 0 {
        ret := if locatorIsNull then BUFFER_PROCESSED_OK else BUFFER_PROCESSED_FAILED;
        return;
      } else if !started {
        return BUFFER_PROCESSED_FAILED;
      }
      ret := BUFFER_PROCESSED_OK;
      var toCopy := remainder.Length - remainderLength;
      if toCopy > 0 {
        if toCopy > length {
          toCopy := length;
        }
        Arraycopy(data, offset, remainder, remainderLength, toCopy);
        remainderLength := remainderLength + toCopy;
        if length > toCopy {
          buffer.length := length - toCopy;
          buffer.offset := offset + toCopy;
          ret := INPUT_BUFFER_NOT_CONSUMED;
        }
        writeIsMalfunctioningSince := NEVER;
      } else {
        ret := INPUT_BUFFER_NOT_CONSUMED;
        if writeIsMalfunctioningSince == NEVER {
          writeIsMalfunctioningSince := now;
        }
        var writeIsMalfunctioningDuration := now - writeIsMalfunctioningSince;
        if writeIsMalfunctioningDuration > writeIsMalfunctioningTimeout {
          ret := BUFFER_PROCESSED_FAILED;
        }
      }
    }

    /**
     * start(): without an audio client it only starts when no device is
     * selected; with one, the valid data moves to the end of the remainder
     * behind silence, the whole remainder becomes valid, and the renderer
     * is started when IAudioClient_Start succeeds.
     */
    method Start(startSucceeds: bool)
      requires remainderLength <= remainder.Length
      modifies this, remainder
      ensures remainder == old(remainder) && iAudioClient == old(iAudioClient)
      ensures iAudioRenderClient == old(iAudioRenderClient) && locatorIsNull == old(locatorIsNull)
      ensures writeIsMalfunctioningSince == old(writeIsMalfunctioningSince)
      ensures writeIsMalfunctioningTimeout == old(writeIsMalfunctioningTimeout)
      ensures iAudioClient == 0 ==>
        remainder[..] == old(remainder[..]) && remainderLength == old(remainderLength) &&
        started == (old(started) || locatorIsNull)
      ensures iAudioClient != 0 ==>
        Valid() && remainder[..] == Padded(old(remainder[..]), old(remainderLength)) &&
        remainderLength == remainder.Length && started == (old(started) || startSucceeds)
    {
      if iAudioClient == 0 {
        if locatorIsNull {
          started := true;
        }
        return;
      }
      AddLatency();
      if startSucceeds {
        started := true;
      }
    }

    /**
     * The latency start adds: the valid bytes move to the end of the
     * remainder, silence fills the bytes before them, and all of it becomes
     * valid.
     */
    method AddLatency()
      requires remainderLength <= remainder.Length
      modifies this`remainderLength, remainder
      ensures Valid() && remainderLength == remainder.Length
      ensures remainder[..] == Padded(old(remainder[..]), old(remainderLength))
    {
      ghost var valid := remainder[..Max(remainderLength, 0)];
      if remainderLength > 0 {
        ShiftToEnd();
      } else if remainderLength < 0 {
        remainderLength := 0;
      }
      var silence := remainder.Length - remainderLength;
      ghost var shifted := remainder[..];
      if silence > 0 {
        FillZero(remainder, 0, silence);
      }
      assert remainder[..] == Padded(old(remainder[..]), old(remainderLength)) by {
        assert shifted[silence..] == valid;
        assert remainder[silence..] == shifted[silence..];
      }
      remainderLength := remainder.Length;
    }

    /** The loop of start that moves the valid bytes to the end of the remainder, last byte first. */
    method ShiftToEnd()
      requires 0 < remainderLength <= remainder.Length
      modifies remainder
      ensures remainder[remainder.Length - remainderLength..] == old(remainder[..remainderLength])
    {
      var silence := remainder.Length - remainderLength;
      var i, j := remainder.Length - 1, remainderLength - 1;
      while j >= 0
        invariant -1 <= j < remainderLength && i == j + silence
        invariant forall k :: i < k < remainder.Length ==> remainder[k] == old(remainder[k - silence])
        invariant forall k :: 0 <= k <= i ==> remainder[k] == old(remainder[k])
      {
        remainder[i] := remainder[j];
        i, j := i - 1, j - 1;
      }
    }
  }
}
