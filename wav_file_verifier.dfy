/**
 * WavFileVerifier: whether a parsed WAV file is one the audio notifier can
 * play. The checks run in a fixed order and the first failing one is
 * reported.
 */
module WavFileVerifier {
  import opened JavaBase
  import opened WavData

  const SUPPORTED_SAMPLE_RATES_HZ: seq<int> := [8000, 11025, 22050, 44100, 48000]
  const SUPPORTED_BIT_DEPTHS: seq<int> := [16]
  const MIN_NUM_CHANNELS: int := 1
  const MAX_NUM_CHANNELS: int := 5

  /** The UnsupportedWavFileException subclasses, with the offending value. */
  datatype Unsupported =
    | UnsupportedEncoding
    | UnsupportedSampleRate(sampleRate: int)
    | UnsupportedBitDepth(bitDepth: int)
    | UnsupportedNumberOfChannels(numChannels: int)

  /** contains(xs, y). */
  function Contains(xs: seq<int>, y: int): (found: bool)
    ensures found <==> y in xs
  {
    if xs == [] then false
    else if xs[0] == y then true
    else Contains(xs[1..], y)
  }

  /** assertWavFileIsSupported: None when it returns normally, else what it throws. */
  function AssertWavFileIsSupported(wav: FmtChunk): Option<Unsupported>
  {
    if !wav.isPcm then Some(UnsupportedEncoding)
    else if !Contains(SUPPORTED_SAMPLE_RATES_HZ, wav.sampleRate) then Some(UnsupportedSampleRate(wav.sampleRate))
    else if !Contains(SUPPORTED_BIT_DEPTHS, wav.bitsPerSample) then Some(UnsupportedBitDepth(wav.bitsPerSample))
    else if wav.numChannels < MIN_NUM_CHANNELS || wav.numChannels > MAX_NUM_CHANNELS then
      Some(UnsupportedNumberOfChannels(wav.numChannels))
    else None
  }

  /**
   * A file is supported exactly when it is PCM, at one of the five rates,
   * 16-bit, with one to five channels.
   */
  lemma {:induction false} SupportedIff(wav: FmtChunk)
    ensures AssertWavFileIsSupported(wav).None? <==>
      wav.isPcm && wav.sampleRate in {8000, 11025, 22050, 44100, 48000} &&
      wav.bitsPerSample == 16 && 1 <= wav.numChannels <= 5
  {
  }

  /**
   * The exception names the first failing check: a later check's exception
   * means every earlier check passed, and it carries the offending value.
   */
  lemma {:induction false} FirstFailureReported(wav: FmtChunk)
    ensures AssertWavFileIsSupported(wav) == Some(UnsupportedEncoding) <==> !wav.isPcm
    ensures AssertWavFileIsSupported(wav).Some? && AssertWavFileIsSupported(wav).value.UnsupportedSampleRate? ==>
      wav.isPcm && AssertWavFileIsSupported(wav).value.sampleRate == wav.sampleRate &&
      wav.sampleRate !in SUPPORTED_SAMPLE_RATES_HZ
    ensures AssertWavFileIsSupported(wav).Some? && AssertWavFileIsSupported(wav).value.UnsupportedBitDepth? ==>
      wav.isPcm && wav.sampleRate in SUPPORTED_SAMPLE_RATES_HZ && wav.bitsPerSample != 16
    ensures AssertWavFileIsSupported(wav).Some? && AssertWavFileIsSupported(wav).value.UnsupportedNumberOfChannels? ==>
      wav.isPcm && wav.sampleRate in SUPPORTED_SAMPLE_RATES_HZ && wav.bitsPerSample == 16 &&
      !(1 <= wav.numChannels <= 5)
  {
  }
}
