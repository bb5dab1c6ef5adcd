/**
 * MediaUtils: the static RTP payload type of a JMF encoding, and the
 * H.264 profile-level-id helpers that pick a maximum resolution from the
 * level_idc byte (section 8.1 of RFC 6184).
 */
module MediaUtils {
  import opened JavaBase
  import StringUtils

  // ------------------------------------------------------------ payload types

  /**
   * The JMF encoding names the mapping distinguishes (ULAW/rtp, ALAW/rtp,
   * gsm/rtp, ...); every other encoding string is `Other`.
   */
  datatype JmfEncoding =
    | UlawRtp | AlawRtp | GsmRtp | G723Rtp | DviRtp | Alaw | G722 | G722Rtp
    | Gsm | G728Rtp | G729Rtp | H263Rtp | H261Rtp | Other

  /** MediaFormat.RTP_PAYLOAD_TYPE_UNKNOWN. */
  const RTP_PAYLOAD_TYPE_UNKNOWN: int := -1

  /** The static payload types of section 6 of RFC 3551. */
  const PCMU: int := 0
  const GSM: int := 3
  const G723: int := 4
  const DVI4_8000: int := 5
  const DVI4_16000: int := 6
  const PCMA: int := 8
  const G722_PT: int := 9
  const G728: int := 15
  const G729: int := 18
  const H261: int := 31
  const H263: int := 34

  /** getRTPPayloadType(jmfEncoding, clockRate); `None` is a null encoding. */
  function GetRtpPayloadType(jmfEncoding: Option<JmfEncoding>, clockRate: real): (pt: int)
  {
    if jmfEncoding.None? then RTP_PAYLOAD_TYPE_UNKNOWN
    else
      var e := jmfEncoding.value;
      if e == UlawRtp then PCMU
      else if e == AlawRtp then PCMA
      else if e == GsmRtp then GSM
      else if e == G723Rtp then G723
      else if e == DviRtp && clockRate == 8000.0 then DVI4_8000
      else if e == DviRtp && clockRate == 16000.0 then DVI4_16000
      else if e == Alaw then PCMA
      else if e == G722 then G722_PT
      else if e == G722Rtp then G722_PT
      else if e == Gsm then GSM
      else if e == GsmRtp then GSM
      else if e == G728Rtp then G728
      else if e == G729Rtp then G729
      else if e == H263Rtp then H263
      else if e == H261Rtp then H261
      else RTP_PAYLOAD_TYPE_UNKNOWN
  }

  /**
   * The payload type is unknown exactly for a null or unrecognised encoding
   * and for DVI at a clock rate other than 8000 or 16000 Hz; a known one is
   * always a static payload type below 35.
   */
  lemma {:induction false} PayloadTypeUnknown(jmfEncoding: Option<JmfEncoding>, clockRate: real)
    ensures GetRtpPayloadType(jmfEncoding, clockRate) == RTP_PAYLOAD_TYPE_UNKNOWN <==>
      jmfEncoding.None? || jmfEncoding.value == Other ||
      (jmfEncoding.value == DviRtp && clockRate != 8000.0 && clockRate != 16000.0)
    ensures GetRtpPayloadType(jmfEncoding, clockRate) != RTP_PAYLOAD_TYPE_UNKNOWN ==>
      0 <= GetRtpPayloadType(jmfEncoding, clockRate) < 35
  {
  }

  /** The RTP and the plain forms of A-law, G.722 and GSM share one payload type. */
  lemma {:induction false} PayloadTypeSharedForms(clockRate: real)
    ensures GetRtpPayloadType(Some(Alaw), clockRate) == GetRtpPayloadType(Some(AlawRtp), clockRate) == PCMA
    ensures GetRtpPayloadType(Some(G722), clockRate) == GetRtpPayloadType(Some(G722Rtp), clockRate) == G722_PT
    ensures GetRtpPayloadType(Some(Gsm), clockRate) == GetRtpPayloadType(Some(GsmRtp), clockRate) == GSM
  {
  }

  // ----------------------------------------------------------------- H.264

  /** The level_idc values that start a new resolution band. */
  const H264_PROFILE_IDC_1_1: int := 11
  const H264_PROFILE_IDC_2_1: int := 21
  const H264_PROFILE_IDC_2_2: int := 22
  const H264_PROFILE_IDC_3_1: int := 31
  const H264_PROFILE_MAX_SUPPORTED: int := H264_PROFILE_IDC_3_1

  datatype Dimension = Dimension(width: int, height: int)

  /** checkH264ProfileValid: a non-null, non-blank string of exactly six characters. */
  function CheckH264ProfileValid(profile: Option<string>): (valid: bool)
    ensures valid <==> profile.Some? && !IsBlank(profile.value) && |profile.value| == 6
  {
    !StringUtils.IsNullOrEmpty(profile, true) && |profile.value| == 6
  }

  /** `Character.digit(c, 16)` on ASCII: the hex value, or -1. */
  function HexDigitValue(c: char): (d: int)
    ensures -1 <= d < 16
    ensures d == -1 <==> !(('0' <= c <= '9') || ('a' <= c <= 'f') || ('A' <= c <= 'F'))
  {
    if '0' <= c <= '9' then c as int - '0' as int
    else if 'a' <= c <= 'f' then c as int - 'a' as int + 10
    else if 'A' <= c <= 'F' then c as int - 'A' as int + 10
    else -1
  }

  /** A Java `(byte)` cast: the low eight bits as a signed value. */
  function ToByte(x: int): (b: int)
    ensures -128 <= b < 128 && (x - b) % 256 == 0
  {
    (x + 128) % 256 - 128
  }

  /** The level_idc: `(byte)((digit(p[4]) << 4) + digit(p[5]))`. */
  function LevelIdc(profile: string): int
    requires |profile| == 6
  {
    ToByte(HexDigitValue(profile[4]) * 16 + HexDigitValue(profile[5]))
  }

  /**
   * With two hex digits at positions 4 and 5, the level_idc is the signed
   * byte they spell: "42e01f" has level_idc 31, "42e0ff" has -1.
   */
  lemma {:induction false} LevelIdcIsSignedByte(profile: string)
    requires |profile| == 6 && HexDigitValue(profile[4]) >= 0 && HexDigitValue(profile[5]) >= 0
    ensures var v := HexDigitValue(profile[4]) * 16 + HexDigitValue(profile[5]);
      0 <= v < 256 && LevelIdc(profile) == SignedByte(v)
  {
  }

  /** Which of the resolution bands a level_idc falls in (4: at least 3.1). */
  function Band(idc: int): (band: int)
    ensures 0 <= band <= 4
    ensures band == 0 <==> idc < H264_PROFILE_IDC_1_1
    ensures band == 4 <==> idc >= H264_PROFILE_IDC_3_1
  {
    if idc < H264_PROFILE_IDC_1_1 then 0
    else if idc < H264_PROFILE_IDC_2_1 then 1
    else if idc < H264_PROFILE_IDC_2_2 then 2
    else if idc < H264_PROFILE_IDC_3_1 then 3
    else 4
  }

  /** The largest picture of each band below level 3.1. */
  function BandDimension(band: int): Dimension
    requires 0 <= band < 4
  {
    [Dimension(176, 144), Dimension(352, 288), Dimension(352, 576), Dimension(720, 576)][band]
  }

  /**
   * h264ProfileToDimension: None (use the local maximum) for an invalid
   * profile or a level of at least 3.1, else the band's maximum picture.
   */
  function H264ProfileToDimension(profile: Option<string>): (d: Option<Dimension>)
    ensures d.None? <==> !CheckH264ProfileValid(profile) || LevelIdc(profile.value) >= H264_PROFILE_IDC_3_1
  {
    if !CheckH264ProfileValid(profile) then None else IdcDimension(LevelIdc(profile.value))
  }

  /** The level-to-resolution table of h264ProfileToDimension. */
  function IdcDimension(idc: int): Option<Dimension>
  {
    if idc < H264_PROFILE_IDC_1_1 then Some(Dimension(176, 144))
    else if idc < H264_PROFILE_IDC_2_1 then Some(Dimension(352, 288))
    else if idc < H264_PROFILE_IDC_2_2 then Some(Dimension(352, 576))
    else if idc < H264_PROFILE_IDC_3_1 then Some(Dimension(720, 576))
    else None
  }

  /** A valid profile below level 3.1 gets its band's picture size. */
  lemma {:induction false} DimensionByBand(profile: Option<string>)
    requires CheckH264ProfileValid(profile) && Band(LevelIdc(profile.value)) < 4
    ensures H264ProfileToDimension(profile) == Some(BandDimension(Band(LevelIdc(profile.value))))
  {
  }

  /** h264ProfilesCompatible. */
  function H264ProfilesCompatible(profile1: Option<string>, profile2: Option<string>): bool
  {
    if !CheckH264ProfileValid(profile1) || !CheckH264ProfileValid(profile2) then false
    else IdcsCompatible(LevelIdc(profile1.value), LevelIdc(profile2.value))
  }

  /** The level comparison of h264ProfilesCompatible. */
  function IdcsCompatible(idc1: int, idc2: int): bool
  {
    if idc1 == idc2 then true
    else if idc1 < H264_PROFILE_IDC_1_1 then idc2 < H264_PROFILE_IDC_1_1
    else if idc1 < H264_PROFILE_IDC_2_1 then idc2 < H264_PROFILE_IDC_2_1 && idc2 >= H264_PROFILE_IDC_1_1
    else if idc1 < H264_PROFILE_IDC_2_2 then idc2 < H264_PROFILE_IDC_2_2 && idc2 >= H264_PROFILE_IDC_2_1
    else if idc1 < H264_PROFILE_IDC_3_1 then idc2 < H264_PROFILE_IDC_3_1 && idc2 >= H264_PROFILE_IDC_2_2
    else idc2 >= H264_PROFILE_MAX_SUPPORTED
  }

  /** Two levels are compatible exactly when they share a band, i.e. a resolution. */
  lemma {:induction false} IdcsCompatibleIffSameBand(idc1: int, idc2: int)
    ensures IdcsCompatible(idc1, idc2) <==> Band(idc1) == Band(idc2)
    ensures Band(idc1) == Band(idc2) <==> IdcDimension(idc1) == IdcDimension(idc2)
  {
  }

  /**
   * Two profiles are compatible exactly when both are valid and they lead
   * to the same maximum resolution, i.e. their levels share a band.
   */
  lemma {:induction false} CompatibleIffSameDimension(profile1: Option<string>, profile2: Option<string>)
    ensures H264ProfilesCompatible(profile1, profile2) <==>
      CheckH264ProfileValid(profile1) && CheckH264ProfileValid(profile2) &&
      H264ProfileToDimension(profile1) == H264ProfileToDimension(profile2)
  {
    if CheckH264ProfileValid(profile1) && CheckH264ProfileValid(profile2) {
      IdcsCompatibleIffSameBand(LevelIdc(profile1.value), LevelIdc(profile2.value));
    }
  }

  /** Compatibility is symmetric. */
  lemma {:induction false} CompatibleSymmetric(profile1: Option<string>, profile2: Option<string>)
    ensures H264ProfilesCompatible(profile1, profile2) == H264ProfilesCompatible(profile2, profile1)
  {
    CompatibleIffSameDimension(profile1, profile2);
    CompatibleIffSameDimension(profile2, profile1);
  }
}
