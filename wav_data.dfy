/**
 * WavData: reading the RIFF/WAVE header and the `fmt ` chunk of a WAV file
 * from a file input stream. Every multi-byte field is little-endian and read
 * as a signed Java integer of its width.
 */
module WavData {
  import opened JavaBase
  import JavaBits

  /** InvalidWavDataException (with its reasons) and IllegalArgumentException. */
  datatype WavError = Premature | NotRiff | NotWave | NoFmtChunk | IllegalArgument

  /** The ASCII chunk identifiers "RIFF", "WAVE" and "fmt ". */
  const RIFF: seq<Byte> := [0x52, 0x49, 0x46, 0x46]
  const WAVE: seq<Byte> := [0x57, 0x41, 0x56, 0x45]
  const FMT: seq<Byte> := [0x66, 0x6D, 0x74, 0x20]

  // ------------------------------------------------------ little-endian values

  function Pow256(n: nat): (r: int)
    ensures r >= 1
  {
    if n == 0 then 1 else 256 * Pow256(n - 1)
  }

  /** The unsigned value of little-endian bytes. */
  function LeUnsigned(bs: seq<Byte>): (u: nat)
    ensures u < Pow256(|bs|)
  {
    if bs == [] then 0 else bs[0] + 256 * LeUnsigned(bs[1..])
  }

  /** The two's-complement value of little-endian bytes, as ByteBuffer.get/getShort/getInt/getLong read it. */
  function LeSigned(bs: seq<Byte>): (v: int)
    requires |bs| >= 1
    ensures -Pow256(|bs|) / 2 <= v < Pow256(|bs|) / 2
  {
    var u := LeUnsigned(bs);
    if u >= Pow256(|bs|) / 2 then u - Pow256(|bs|) else u
  }

  /** The n little-endian bytes of an unsigned value below 256^n. */
  function LeEncodeUnsigned(u: nat, n: nat): (bs: seq<Byte>)
    ensures |bs| == n
  {
    if n == 0 then [] else [u % 256] + LeEncodeUnsigned(u / 256, n - 1)
  }

  /** The n little-endian two's-complement bytes of v. */
  function LeEncode(v: int, n: nat): (bs: seq<Byte>)
    ensures |bs| == n
  {
    LeEncodeUnsigned(v % Pow256(n), n)
  }

  lemma {:induction false} LeUnsignedEncode(u: nat, n: nat)
    requires u < Pow256(n)
    ensures LeUnsigned(LeEncodeUnsigned(u, n)) == u
  {
    if n > 0 {
      var bs := LeEncodeUnsigned(u, n);
      assert bs[1..] == LeEncodeUnsigned(u / 256, n - 1);
      LeUnsignedEncode(u / 256, n - 1);
    }
  }

  /** Reading back the encoding of any value of the width gives that value. */
  lemma {:induction false} LeSignedEncode(v: int, n: nat)
    requires n >= 1 && -Pow256(n) / 2 <= v < Pow256(n) / 2
    ensures LeSigned(LeEncode(v, n)) == v
  {
    assert Pow256(n) >= 256;
    var p := Pow256(n);
    ModSmall(v, p);
    LeUnsignedEncode(v % p, n);
  }

  lemma {:induction false} ModSmall(v: int, p: int)
    requires p >= 2 && -p / 2 <= v < p / 2
    ensures v % p == (if v >= 0 then v else v + p)
  {
    if v >= 0 {
      JavaBits.DivModUnique(v, p, 0, v);
    } else {
      JavaBits.DivModUnique(v, p, -1, v + p);
    }
  }

  // ------------------------------------------------------------- the stream

  /** The bytes readBytes(p, numBytes) returns, or why it throws. */
  function ReadBytesSpec(data: seq<Byte>, p: nat, numBytes: int): (r: Result<seq<Byte>, WavError>)
    ensures r.Ok? <==> numBytes > 0 && p + numBytes <= |data|
    ensures r.Ok? ==> |r.value| == numBytes
  {
    if numBytes <= 0 then Err(IllegalArgument)
    else if p + numBytes <= |data| then Ok(data[p..p + numBytes])
    else Err(Premature)
  }

  /** What readInteger(numBytes) returns: the bytes are read before the size is checked. */
  function ReadIntegerSpec(data: seq<Byte>, p: nat, numBytes: int): (r: Result<int, WavError>)
    ensures r.Ok? <==> numBytes in {1, 2, 4, 8} && p + numBytes <= |data|
  {
    var bytes := ReadBytesSpec(data, p, numBytes);
    if bytes.Err? then Err(bytes.error)
    else if numBytes in {1, 2, 4, 8} then Ok(LeSigned(bytes.value))
    else Err(IllegalArgument)
  }

  /**
   * A FileInputStream over `data`. `pos` may pass the end: skipping a file
   * moves the position without reading, and a later read then sees the end.
   */
  class WavInput {
    const data: seq<Byte>
    var pos: nat

    constructor (contents: seq<Byte>)
      ensures data == contents && pos == 0
    {
      data := contents;
      pos := 0;
    }

    /**
     * readBytes: exactly numBytes bytes, however the stream splits them
     * across `read` calls.
     */
    method ReadBytes(numBytes: int) returns (r: Result<seq<Byte>, WavError>)
      modifies this`pos
      ensures r == ReadBytesSpec(data, old(pos), numBytes)
      ensures r.Ok? ==> pos == old(pos) + numBytes
    {
      if numBytes <= 0 {
        return Err(IllegalArgument);
      }
      var bytesRead := 0;
      var buffer: seq<Byte> := [];
      while bytesRead < numBytes
        invariant 0 <= bytesRead <= numBytes
        invariant pos == old(pos) + bytesRead && |buffer| == bytesRead
        invariant bytesRead > 0 ==> pos <= |data| && buffer == data[old(pos)..pos]
      {
        if pos >= |data| {
          // InputStream.read returns -1 at the end of the stream.
          return Err(Premature);
        }
        // `read` may deliver any positive number of the requested bytes.
        var retcode :| 1 <= retcode && retcode <= numBytes - bytesRead && retcode <= |data| - pos;
        buffer := buffer + data[pos..pos + retcode];
        pos := pos + retcode;
        bytesRead := bytesRead + retcode;
      }
      r := Ok(buffer);
    }

    /** readInteger: a little-endian signed value of 1, 2, 4 or 8 bytes. */
    method ReadInteger(numBytes: int) returns (r: Result<int, WavError>)
      modifies this`pos
      ensures r == ReadIntegerSpec(data, old(pos), numBytes)
      ensures r.Ok? ==> pos == old(pos) + numBytes
    {
      var bytes := ReadBytes(numBytes);
      if bytes.Err? {
        return Err(bytes.error);
      }
      if numBytes == 1 || numBytes == 2 || numBytes == 4 || numBytes == 8 {
        r := Ok(LeSigned(bytes.value));
      } else {
        r := Err(IllegalArgument);
      }
    }

    /** safeSkip: a negative count throws; `skip` may move fewer bytes per call. */
    method SafeSkip(numBytes: int) returns (r: Result<(), WavError>)
      modifies this`pos
      ensures r == (if numBytes < 0 then Err(IllegalArgument) else Ok(()))
      ensures r.Ok? ==> pos == old(pos) + numBytes
    {
      if numBytes < 0 {
        return Err(IllegalArgument);
      }
      var left := numBytes;
      while left > 0
        invariant 0 <= left <= numBytes
        invariant pos == old(pos) + numBytes - left
      {
        var retcode :| 1 <= retcode <= left;
        pos := pos + retcode;
        left := left - retcode;
      }
      r := Ok(());
    }

    /** parseHeader: "RIFF", the WAVE chunk size, then "WAVE". */
    method ParseHeader() returns (r: Result<int, WavError>)
      modifies this`pos
      ensures r == HeaderSpec(data, old(pos))
      ensures r.Ok? ==> pos == old(pos) + 12
    {
      var chunkId := ReadBytes(4);
      if chunkId.Err? {
        return Err(chunkId.error);
      }
      if chunkId.value != RIFF {
        return Err(NotRiff);
      }
      var waveChunkSize := ReadInteger(4);
      if waveChunkSize.Err? {
        return Err(waveChunkSize.error);
      }
      var waveId := ReadBytes(4);
      if waveId.Err? {
        return Err(waveId.error);
      }
      if waveId.value != WAVE {
        return Err(NotWave);
      }
      r := Ok(waveChunkSize.value);
    }

    /**
     * locateFmtChunk, with each skipped chunk counted together with its
     * 8-byte header: leaves the stream at the data of the first "fmt "
     * chunk that starts inside the WAVE chunk.
     */
    method LocateFmtChunk(waveChunkSize: int) returns (r: Result<(), WavError>)
      modifies this`pos
      ensures r == (var s := Locate(data, old(pos), 4, waveChunkSize, 8); if s.Ok? then Ok(()) else Err(s.error))
      ensures r.Ok? ==> Locate(data, old(pos), 4, waveChunkSize, 8) == Ok(pos)
    {
      var bytesRead := 4;
      while bytesRead < waveChunkSize
        invariant Locate(data, pos, bytesRead, waveChunkSize, 8) == Locate(data, old(pos), 4, waveChunkSize, 8)
        decreases if pos <= |data| then |data| - pos + 1 else 0
      {
        var step := NextChunk(bytesRead, waveChunkSize);
        if step.Err? {
          return Err(step.error);
        }
        if step.value.None? {
          return Ok(());
        }
        bytesRead := step.value.value;
      }
      r := Err(NoFmtChunk);
    }

    /**
     * One pass of locateFmtChunk's loop: the fmt chunk is found (None), or
     * the chunk at pos is skipped and the count of bytes read moves on.
     */
    method NextChunk(bytesRead: int, waveChunkSize: int) returns (r: Result<Option<int>, WavError>)
      requires bytesRead < waveChunkSize
      modifies this`pos
      ensures var l := Locate(data, old(pos), bytesRead, waveChunkSize, 8);
        (r.Err? ==> l == Err(r.error)) &&
        (r == Ok(None) ==> l == Ok(pos)) &&
        (r.Ok? && r.value.Some? ==>
          old(pos) + 8 <= |data| && pos >= old(pos) + 8 && Locate(data, pos, r.value.value, waveChunkSize, 8) == l)
    {
      var start := pos;
      var chunkId := ReadBytes(4);
      if chunkId.Err? {
        return Err(chunkId.error);
      }
      if chunkId.value == FMT {
        var skipped := SafeSkip(4);
        return Ok(None);
      }
      var chunkSize := ReadInteger(4);
      if chunkSize.Err? {
        return Err(chunkSize.error);
      }
      assert data[start + 4..start + 8] == data[start..start + 8][4..];
      var skipped := SafeSkip(chunkSize.value);
      if skipped.Err? {
        return Err(skipped.error);
      }
      r := Ok(Some(bytesRead + 8 + chunkSize.value));
    }

    /** The FmtChunk constructor: format code, channels, rate, byte rate, block align (skipped), bits. */
    method ReadFmtChunk() returns (r: Result<FmtChunk, WavError>)
      modifies this`pos
      ensures r == FmtSpec(data, old(pos))
    {
      var format := ReadInteger(2);
      if format.Err? { return Err(format.error); }
      var channels := ReadInteger(2);
      if channels.Err? { return Err(channels.error); }
      var rate := ReadInteger(4);
      if rate.Err? { return Err(rate.error); }
      var dataRate := ReadInteger(4);
      if dataRate.Err? { return Err(dataRate.error); }
      var skipped := SafeSkip(2);
      var bits := ReadInteger(2);
      if bits.Err? { return Err(bits.error); }
      r := Ok(FmtChunk(format.value == 1, channels.value, rate.value, dataRate.value, bits.value));
    }

    /** The WavData constructor: header, fmt chunk search, fmt chunk. */
    method ParseWav() returns (r: Result<WavInfo, WavError>)
      modifies this`pos
      ensures r == WavSpec(data, old(pos))
    {
      var size := ParseHeader();
      if size.Err? {
        return Err(size.error);
      }
      var located := LocateFmtChunk(size.value);
      if located.Err? {
        return Err(located.error);
      }
      var fmt := ReadFmtChunk();
      if fmt.Err? {
        return Err(fmt.error);
      }
      r := Ok(WavInfo(size.value, fmt.value));
    }
  }

  // ----------------------------------------------------- what is parsed

  /** The fields of a fmt chunk that WavData keeps. */
  datatype FmtChunk = FmtChunk(isPcm: bool, numChannels: int, sampleRate: int, dataRate: int, bitsPerSample: int)

  datatype WavInfo = WavInfo(waveChunkSize: int, fmt: FmtChunk)

  /** The outcome of parseHeader at position p. */
  function HeaderSpec(data: seq<Byte>, p: nat): (r: Result<int, WavError>)
    ensures r.Ok? ==> (p + 12 <= |data| && data[p..p + 4] == RIFF && data[p + 8..p + 12] == WAVE &&
      r.value == LeSigned(data[p + 4..p + 8]))
  {
    if p + 4 > |data| then Err(Premature)
    else if data[p..p + 4] != RIFF then Err(NotRiff)
    else if p + 12 > |data| then Err(Premature)
    else if data[p + 8..p + 12] != WAVE then Err(NotWave)
    else Ok(LeSigned(data[p + 4..p + 8]))
  }

  /**
   * The chunk scan from position p with `bytesRead` bytes of the WAVE chunk
   * counted so far; a skipped chunk adds `header + size` to the count.
   * Ok(q): the fmt chunk's data starts at q.
   */
  function Locate(data: seq<Byte>, p: nat, bytesRead: int, waveChunkSize: int, header: nat): Result<nat, WavError>
    decreases if p <= |data| then |data| - p + 1 else 0
  {
    if bytesRead >= waveChunkSize then Err(NoFmtChunk)
    else if p + 4 > |data| then Err(Premature)
    else if data[p..p + 4] == FMT then Ok(p + 8)
    else if p + 8 > |data| then Err(Premature)
    else
      var chunkSize := LeSigned(data[p + 4..p + 8]);
      if chunkSize < 0 then Err(IllegalArgument)
      else Locate(data, p + 8 + chunkSize, bytesRead + header + chunkSize, waveChunkSize, header)
  }

  /** The fmt chunk read at position p. */
  function FmtSpec(data: seq<Byte>, p: nat): (r: Result<FmtChunk, WavError>)
    ensures r.Ok? <==> p + 16 <= |data|
  {
    if p + 16 > |data| then Err(Premature)
    else Ok(FmtChunk(LeSigned(data[p..p + 2]) == 1, LeSigned(data[p + 2..p + 4]), LeSigned(data[p + 4..p + 8]),
                     LeSigned(data[p + 8..p + 12]), LeSigned(data[p + 14..p + 16])))
  }

  /** The outcome of the WavData constructor on a stream at position p. */
  function WavSpec(data: seq<Byte>, p: nat): Result<WavInfo, WavError>
  {
    var size := HeaderSpec(data, p);
    if size.Err? then Err(size.error)
    else
      var at := Locate(data, p + 12, 4, size.value, 8);
      if at.Err? then Err(at.error)
      else
        var fmt := FmtSpec(data, at.value);
        if fmt.Err? then Err(fmt.error) else Ok(WavInfo(size.value, fmt.value))
  }

  // ---------------------------------------------------------------- lemmas

  /** A header written as "RIFF", a 32-bit size and "WAVE" parses back to that size. */
  lemma {:induction false} HeaderRoundTrip(size: int, rest: seq<Byte>)
    requires IsInt(size)
    ensures HeaderSpec(RIFF + LeEncode(size, 4) + WAVE + rest, 0) == Ok(size)
  {
    var data := RIFF + LeEncode(size, 4) + WAVE + rest;
    assert data[0..4] == RIFF;
    assert data[4..8] == LeEncode(size, 4);
    assert data[8..12] == WAVE;
    LeSignedEncode(size, 4);
  }

  /** A file that does not start with "RIFF" is rejected before anything else is read. */
  lemma {:induction false} HeaderNeedsRiff(data: seq<Byte>)
    requires |data| >= 4 && data[..4] != RIFF
    ensures HeaderSpec(data, 0) == Err(NotRiff)
  {
    assert data[0..4] == data[..4];
  }

  /** The fields of a fmt chunk read back as written. */
  lemma {:induction false} FmtRoundTrip(format: int, channels: int, rate: int, dataRate: int, blockAlign: int, bits: int, rest: seq<Byte>)
    requires -0x8000 <= format < 0x8000 && -0x8000 <= channels < 0x8000 && -0x8000 <= blockAlign < 0x8000
    requires -0x8000 <= bits < 0x8000 && IsInt(rate) && IsInt(dataRate)
    ensures FmtSpec(LeEncode(format, 2) + LeEncode(channels, 2) + LeEncode(rate, 4) + LeEncode(dataRate, 4) +
                    LeEncode(blockAlign, 2) + LeEncode(bits, 2) + rest, 0) ==
      Ok(FmtChunk(format == 1, channels, rate, dataRate, bits))
  {
    var data := LeEncode(format, 2) + LeEncode(channels, 2) + LeEncode(rate, 4) + LeEncode(dataRate, 4) +
      LeEncode(blockAlign, 2) + LeEncode(bits, 2) + rest;
    assert data[0..2] == LeEncode(format, 2);
    assert data[2..4] == LeEncode(channels, 2);
    assert data[4..8] == LeEncode(rate, 4);
    assert data[8..12] == LeEncode(dataRate, 4);
    assert data[14..16] == LeEncode(bits, 2);
    LeSignedEncode(format, 2);
    LeSignedEncode(channels, 2);
    LeSignedEncode(rate, 4);
    LeSignedEncode(dataRate, 4);
    LeSignedEncode(bits, 2);
  }

  /**
   * With each chunk header counted, the scan only accepts an "fmt " chunk
   * whose identifier starts inside the WAVE chunk (the WAVE chunk's body
   * starts 8 bytes into the file, and `bytesRead` is the offset within it).
   */
  lemma {:induction false} LocateWithinChunk(data: seq<Byte>, p: nat, bytesRead: int, waveChunkSize: int)
    requires bytesRead == p - 8
    ensures Locate(data, p, bytesRead, waveChunkSize, 8).Ok? ==>
      var q := Locate(data, p, bytesRead, waveChunkSize, 8).value;
      q >= 8 && q - 8 + 4 <= |data| && data[q - 8..q - 4] == FMT && q - 16 < waveChunkSize
    decreases if p <= |data| then |data| - p + 1 else 0
  {
    if bytesRead < waveChunkSize && p + 8 <= |data| && data[p..p + 4] != FMT {
      var chunkSize := LeSigned(data[p + 4..p + 8]);
      if chunkSize >= 0 {
        LocateWithinChunk(data, p + 8 + chunkSize, bytesRead + 8 + chunkSize, waveChunkSize);
      }
    }
  }

  /** A fmt chunk that opens the WAVE chunk is found straight away. */
  lemma {:induction false} LocateFirstChunk(size: int, rest: seq<Byte>)
    requires 4 < size
    ensures Locate(FMT + rest, 0, 4, size, 8) == Ok(8)
  {
    assert (FMT + rest)[0..4] == FMT;
  }

  /**
   * As written, locateFmtChunk adds only a skipped chunk's size to
   * `bytesRead`, not its 8 header bytes. A WAVE chunk of declared size 12
   * holding one empty "JUNK" chunk ends at byte 20; the scan as written goes
   * on past it and takes the "fmt " chunk that follows, where the count with
   * headers stops and reports that no fmt chunk was found.
   */
  lemma {:induction false} LocateAsWrittenOverruns()
    ensures var data := RIFF + [12, 0, 0, 0] + WAVE + [0x4A, 0x55, 0x4E, 0x4B, 0, 0, 0, 0] + FMT + [16, 0, 0, 0];
      Locate(data, 12, 4, 12, 0) == Ok(28) && Locate(data, 12, 4, 12, 8) == Err(NoFmtChunk)
  {
    var data := RIFF + [12, 0, 0, 0] + WAVE + [0x4A, 0x55, 0x4E, 0x4B, 0, 0, 0, 0] + FMT + [16, 0, 0, 0];
    assert data[12..16] == [0x4A, 0x55, 0x4E, 0x4B];
    assert data[16..20] == [0, 0, 0, 0];
    assert LeUnsigned([0]) == 0 && LeUnsigned([0, 0]) == 0 && LeUnsigned([0, 0, 0]) == 0;
    assert LeUnsigned([0, 0, 0, 0]) == 0;
    assert data[20..24] == FMT;
  }
}
