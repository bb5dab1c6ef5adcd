/**
 * WASAPISystem format helpers: the formats tried when initialising an
 * IAudioClient, the sample size in bytes, and the WAVEFORMATEX fields
 * derived from an AudioFormat.
 */
module WasapiSystem {
  import opened JavaBase

  /** Format.NOT_SPECIFIED. */
  const NOT_SPECIFIED: int := -1
  /** AudioFormat.LITTLE_ENDIAN and AudioFormat.SIGNED. */
  const LITTLE_ENDIAN: int := 0
  const SIGNED: int := 1
  /** WAVE_FORMAT_PCM. */
  const WAVE_FORMAT_PCM: int := 1

  datatype Encoding = Linear | OtherEncoding

  /**
   * A JMF AudioFormat. The sample rate is the `int` value that the
   * `(int)` cast of the double gives; `dataType` stands for the Java class.
   */
  datatype AudioFormat = AudioFormat(
    encoding: Encoding, sampleRate: int, sampleSizeInBits: int, channels: int,
    endian: int, signed: int, frameSizeInBits: int, frameRate: int, dataType: int)

  /** getFormatsToInitializeIAudioClient. */
  function GetFormatsToInitializeIAudioClient(format: AudioFormat): seq<AudioFormat>
  {
    if format.channels != 1 && format.channels != 2 then [format]
    else
      var channels := if format.channels == 1 then 2 else 1;
      [format, AudioFormat(format.encoding, format.sampleRate, format.sampleSizeInBits, channels,
                           LITTLE_ENDIAN, SIGNED, NOT_SPECIFIED, NOT_SPECIFIED, format.dataType)]
  }

  /**
   * Mono and stereo are tried as given first, then with the other channel
   * count (as little-endian signed linear audio of unspecified frame size and
   * rate); any other channel count is tried only as given.
   */
  lemma {:induction false} FormatsToInitialize(format: AudioFormat)
    ensures var fs := GetFormatsToInitializeIAudioClient(format);
      |fs| >= 1 && fs[0] == format &&
      (format.channels == 1 || format.channels == 2 <==> |fs| == 2) &&
      (|fs| == 2 ==> (fs[1].channels == 3 - format.channels && fs[1].encoding == format.encoding &&
        fs[1].sampleRate == format.sampleRate && fs[1].sampleSizeInBits == format.sampleSizeInBits &&
        fs[1].dataType == format.dataType && fs[1].endian == LITTLE_ENDIAN && fs[1].signed == SIGNED &&
        fs[1].frameSizeInBits == NOT_SPECIFIED && fs[1].frameRate == NOT_SPECIFIED))
  {
  }

  /** getSampleSizeInBytes. */
  function GetSampleSizeInBytes(format: AudioFormat): int
  {
    var sampleSizeInBits := format.sampleSizeInBits;
    if sampleSizeInBits == 8 then 1
    else if sampleSizeInBits == 16 then 2
    else JavaDiv(sampleSizeInBits, 8)
  }

  /**
   * The special cases for 8 and 16 bits agree with the general rule: the
   * size is always the bit count divided by 8 and truncated toward zero, so
   * an unspecified size (-1) gives 0.
   */
  lemma {:induction false} SampleSizeIsTruncatedDivision(format: AudioFormat)
    ensures GetSampleSizeInBytes(format) == JavaDiv(format.sampleSizeInBits, 8)
    ensures format.sampleSizeInBits == NOT_SPECIFIED ==> GetSampleSizeInBytes(format) == 0
  {
  }

  /** The IllegalArgumentException of WAVEFORMATEX_fill, naming the field. */
  datatype FillError = BadEncoding | BadChannels | BadSampleRate | BadSampleSizeInBits

  /** The fields passed to the native WAVEFORMATEX_fill. */
  datatype WaveFormatEx = WaveFormatEx(
    formatTag: int, channels: int, samplesPerSec: int, avgBytesPerSec: int,
    blockAlign: int, bitsPerSample: int, cbSize: int)

  /** A Java `(char)` cast: the low 16 bits, unsigned. */
  function ToChar(x: int): (c: int)
    ensures 0 <= c < 0x1_0000
  {
    x % 0x1_0000
  }

  /** WAVEFORMATEX_fill: the checks in order, then the derived fields. */
  function WaveFormatExFill(audioFormat: AudioFormat): Result<WaveFormatEx, FillError>
  {
    if audioFormat.encoding != Linear then Err(BadEncoding)
    else if audioFormat.channels == NOT_SPECIFIED then Err(BadChannels)
    else if audioFormat.sampleRate == NOT_SPECIFIED then Err(BadSampleRate)
    else if audioFormat.sampleSizeInBits == NOT_SPECIFIED then Err(BadSampleSizeInBits)
    else
      var nBlockAlign := ToChar(JavaDiv(WrapInt(audioFormat.channels * audioFormat.sampleSizeInBits), 8));
      Ok(WaveFormatEx(WAVE_FORMAT_PCM, ToChar(audioFormat.channels), audioFormat.sampleRate,
                      WrapInt(audioFormat.sampleRate * nBlockAlign), nBlockAlign,
                      ToChar(audioFormat.sampleSizeInBits), 0))
  }

  /** Only a linear format with channels, rate and sample size all specified is accepted. */
  lemma {:induction false} FillRejects(audioFormat: AudioFormat)
    ensures WaveFormatExFill(audioFormat).Ok? <==>
      audioFormat.encoding == Linear && audioFormat.channels != NOT_SPECIFIED &&
      audioFormat.sampleRate != NOT_SPECIFIED && audioFormat.sampleSizeInBits != NOT_SPECIFIED
    ensures audioFormat.encoding != Linear ==> WaveFormatExFill(audioFormat) == Err(BadEncoding)
  {
  }

  /** The product of two small naturals, with their bounds. */
  lemma {:induction false} MulBounds(a: int, b: int, amax: int, bmax: int)
    requires 0 <= a <= amax && 0 <= b <= bmax
    ensures 0 <= a * b <= amax * bmax
  {
  }

  /**
   * For formats of 1 to 64 channels of 1- to 64-bit samples at rates up to
   * 1 MHz no cast or overflow intervenes:
   * blockAlign = channels * bits / 8 and avgBytesPerSec = rate * blockAlign.
   */
  lemma {:induction false} FillDerivedFields(audioFormat: AudioFormat)
    requires audioFormat.encoding == Linear
    requires 1 <= audioFormat.channels <= 64 && 1 <= audioFormat.sampleSizeInBits <= 64
    requires 1 <= audioFormat.sampleRate <= 1_000_000
    ensures var w := WaveFormatExFill(audioFormat).value;
      w.formatTag == WAVE_FORMAT_PCM && w.channels == audioFormat.channels &&
      w.bitsPerSample == audioFormat.sampleSizeInBits && w.samplesPerSec == audioFormat.sampleRate &&
      w.blockAlign == audioFormat.channels * audioFormat.sampleSizeInBits / 8 &&
      w.avgBytesPerSec == audioFormat.sampleRate * w.blockAlign && w.cbSize == 0
  {
    var product := audioFormat.channels * audioFormat.sampleSizeInBits;
    MulBounds(audioFormat.channels, audioFormat.sampleSizeInBits, 64, 64);
    var align := product / 8;
    assert align <= 512;
    MulBounds(audioFormat.sampleRate, align, 1_000_000, 512);
  }
}
