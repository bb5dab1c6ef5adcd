/**
 * The H.264 JNIEncoder's key-frame scheduling (two forced key frames at the
 * start, a regular key frame every 30 frames, and remote key-frame requests
 * honoured at most once every 3000 ms), its packetization-mode setter and
 * the profile its configuration names.
 */
module JniEncoder {
  import opened JavaBase

  /** PLI_INTERVAL: the minimum time between honoured key-frame requests, in ms. */
  const PLI_INTERVAL: int := 3000
  /** The countdown isKeyFrame restarts after a regular key frame. */
  const KEY_FRAME_PERIOD: int := 30

  /** The encoder fields isKeyFrame and keyFrameRequest update. */
  datatype KeyFrameState = KeyFrameState(forceKeyFrame: bool, secondKeyFrame: bool, countDownToKeyFrame: int)

  /** The fields of a newly created encoder. */
  const INITIAL: KeyFrameState := KeyFrameState(true, true, 0)

  /** The countdown stays within 0 .. 30. */
  predicate Scheduled(s: KeyFrameState)
  {
    0 <= s.countDownToKeyFrame <= KEY_FRAME_PERIOD
  }

  /** isKeyFrame: whether the next frame is a key frame, and the fields after. */
  function NextFrame(s: KeyFrameState): (bool, KeyFrameState)
  {
    if s.forceKeyFrame then
      if s.secondKeyFrame then (true, s.(secondKeyFrame := false, forceKeyFrame := true))
      else (true, s.(forceKeyFrame := false))
    else
      var countDown := s.countDownToKeyFrame - 1;
      if countDown <= 0 then (true, s.(countDownToKeyFrame := KEY_FRAME_PERIOD))
      else (false, s.(countDownToKeyFrame := countDown))
  }

  /** Whether each of the next n frames is a key frame, with no request in between. */
  function Frames(s: KeyFrameState, n: nat): (r: seq<bool>)
    ensures |r| == n
    decreases n
  {
    if n == 0 then [] else [NextFrame(s).0] + Frames(NextFrame(s).1, n - 1)
  }

  /** The fields after n frames with no request in between. */
  function After(s: KeyFrameState, n: nat): KeyFrameState
    decreases n
  {
    if n == 0 then s else After(NextFrame(s).1, n - 1)
  }

  /** isKeyFrame keeps the countdown in range. */
  lemma {:induction false} NextFrameScheduled(s: KeyFrameState)
    requires Scheduled(s)
    ensures Scheduled(NextFrame(s).1)
  {
  }

  /**
   * A new encoder's first two frames are forced key frames; the countdown,
   * still 0, then makes the third one a key frame too and restarts at 30.
   */
  lemma {:induction false} FirstFrames()
    ensures Frames(INITIAL, 3) == [true, true, true]
    ensures After(INITIAL, 3) == KeyFrameState(false, false, KEY_FRAME_PERIOD)
  {
    var s1 := NextFrame(INITIAL).1;
    var s2 := NextFrame(s1).1;
    var s3 := NextFrame(s2).1;
    assert s1 == KeyFrameState(true, false, 0);
    assert s2 == KeyFrameState(false, false, 0);
    assert s3 == KeyFrameState(false, false, KEY_FRAME_PERIOD);
    assert Frames(s3, 0) == [];
    assert Frames(s2, 1) == [true];
    assert Frames(s1, 2) == [true, true];
    assert After(s1, 2) == After(s2, 1) == After(s3, 0);
  }

  /**
   * Without forced frames, a countdown at c gives c - 1 ordinary frames and
   * then a key frame, after which the countdown is back at 30.
   */
  lemma {:induction false} CountDown(c: int)
    requires 1 <= c <= KEY_FRAME_PERIOD
    ensures var s := KeyFrameState(false, false, c);
      Frames(s, c) == Repeat(false, c - 1) + [true] &&
      After(s, c) == KeyFrameState(false, false, KEY_FRAME_PERIOD)
    decreases c
  {
    var s := KeyFrameState(false, false, c);
    if c == 1 {
      assert Frames(NextFrame(s).1, 0) == [];
    } else {
      CountDown(c - 1);
      assert NextFrame(s) == (false, KeyFrameState(false, false, c - 1));
      assert Repeat(false, c - 1) == [false] + Repeat(false, c - 2);
    }
  }

  /** n copies of x. */
  function Repeat<T>(x: T, n: nat): (r: seq<T>)
    ensures |r| == n && forall i :: 0 <= i < n ==> r[i] == x
    decreases n
  {
    if n == 0 then [] else [x] + Repeat(x, n - 1)
  }

  /**
   * After the forced frames, every period of 30 frames holds exactly one key
   * frame, its last.
   */
  lemma {:induction false} RegularKeyFrames()
    ensures var s := KeyFrameState(false, false, KEY_FRAME_PERIOD);
      Frames(s, KEY_FRAME_PERIOD) == Repeat(false, KEY_FRAME_PERIOD - 1) + [true] &&
      After(s, KEY_FRAME_PERIOD) == s
  {
    CountDown(KEY_FRAME_PERIOD);
  }

  /** The result of setPacketizationMode's argument check. */
  function PacketizationMode(mode: Option<string>): (r: Result<string, string>)
  {
    if mode.None? || mode.value == "0" then Ok("0")
    else if mode.value == "1" then Ok("1")
    else Err("IllegalArgumentException")
  }

  /** null and "0" select single-NAL mode, "1" non-interleaved mode; anything else throws. */
  lemma {:induction false} PacketizationModeValues(mode: Option<string>)
    ensures PacketizationMode(mode).Ok? <==> mode.None? || mode.value == "0" || mode.value == "1"
    ensures PacketizationMode(mode).Ok? ==>
      PacketizationMode(mode).value == (if mode.None? then "0" else mode.value)
  {
  }

  /**
   * The test open() makes before capping the RTP payload size: a null
   * packetization mode or "0" is the single-NAL mode of RFC 3984.
   */
  predicate SingleNalMode(packetizationMode: Option<string>)
  {
    packetizationMode.None? || packetizationMode.value == "0"
  }

  /**
   * The packetization modes getMatchingOutputFormats offers an output
   * format for: both while no mode is set, else the mode set.
   */
  function OfferedModes(packetizationMode: Option<string>): seq<string>
  {
    if packetizationMode.None? then ["0", "1"] else [packetizationMode.value]
  }

  /**
   * Before setPacketizationMode an encoder offers both modes; after a mode
   * is accepted it offers that one mode alone, "0" exactly when the
   * argument selected single-NAL mode.
   */
  lemma {:induction false} OfferedModesAfterSet(mode: Option<string>)
    ensures OfferedModes(None) == ["0", "1"]
    ensures PacketizationMode(mode).Ok? ==>
      OfferedModes(Some(PacketizationMode(mode).value)) == [if SingleNalMode(mode) then "0" else "1"]
  {
  }

  /** The FFmpeg H.264 profiles getProfileForConfig chooses between. */
  datatype Profile = ConstrainedBaseline | High | Main

  const BASELINE_PROFILE: string := "baseline"
  const HIGH_PROFILE: string := "high"

  /** getProfileForConfig: baseline and high by name, ignoring case, else main. */
  function GetProfileForConfig(profile: Option<string>): Profile
  {
    if profile.Some? && EqualsIgnoreCase(BASELINE_PROFILE, profile.value) then ConstrainedBaseline
    else if profile.Some? && EqualsIgnoreCase(HIGH_PROFILE, profile.value) then High
    else Main
  }

  /**
   * "BaseLine" in any case gives CONSTRAINED_BASELINE (plain baseline is not
   * supported), "high" in any case HIGH, and null or any other name MAIN.
   */
  lemma {:induction false} ProfileChoice(profile: Option<string>)
    ensures GetProfileForConfig(profile) == ConstrainedBaseline <==>
      profile.Some? && EqualsIgnoreCase(BASELINE_PROFILE, profile.value)
    ensures GetProfileForConfig(profile) == High <==>
      profile.Some? && EqualsIgnoreCase(HIGH_PROFILE, profile.value)
    ensures profile.None? ==> GetProfileForConfig(profile) == Main
  {
    if profile.Some? && EqualsIgnoreCase(BASELINE_PROFILE, profile.value) {
      assert !EqualsIgnoreCase(HIGH_PROFILE, profile.value) by {
        assert |profile.value| == 8;
      }
    }
  }

  /** The key-frame and packetization state of a JNIEncoder. */
  class Encoder {
    var forceKeyFrame: bool
    var secondKeyFrame: bool
    var countDownToKeyFrame: int
    var lastKeyFrameRequestTime: int
    /** None until setPacketizationMode stores a mode; a null mode means single-NAL mode. */
    var packetizationMode: Option<string>

    function State(): KeyFrameState
      reads this
    {
      KeyFrameState(forceKeyFrame, secondKeyFrame, countDownToKeyFrame)
    }

    predicate Valid()
      reads this
    {
      Scheduled(State())
    }

    /** A new encoder; `now` is System.currentTimeMillis() at construction. */
    constructor(now: int)
      ensures Valid() && State() == INITIAL && lastKeyFrameRequestTime == now && packetizationMode == None
      ensures SingleNalMode(packetizationMode)
    {
      forceKeyFrame := true;
      secondKeyFrame := true;
      countDownToKeyFrame := 0;
      lastKeyFrameRequestTime := now;
      packetizationMode := None;
    }

    /** isKeyFrame(). */
    method IsKeyFrame() returns (keyFrame: bool)
      requires Valid()
      modifies this
      ensures Valid() && (keyFrame, State()) == NextFrame(old(State()))
      ensures lastKeyFrameRequestTime == old(lastKeyFrameRequestTime) && packetizationMode == old(packetizationMode)
    {
      NextFrameScheduled(State());
      if forceKeyFrame {
        keyFrame := true;
        if secondKeyFrame {
          secondKeyFrame := false;
          forceKeyFrame := true;
        } else {
          forceKeyFrame := false;
        }
      } else {
        keyFrame := false;
        countDownToKeyFrame := countDownToKeyFrame - 1;
        if countDownToKeyFrame <= 0 {
          keyFrame := true;
          countDownToKeyFrame := KEY_FRAME_PERIOD;
        }
      }
    }

    /**
     * keyFrameRequest() at time `now`: honoured, forcing the next frame to
     * be a key frame, only when more than 3000 ms have passed since the last
     * honoured request; always reports true.
     */
    method KeyFrameRequest(now: int) returns (honoured: bool)
      requires Valid()
      modifies this
      ensures Valid() && honoured
      ensures var due := now > old(lastKeyFrameRequestTime) + PLI_INTERVAL;
        lastKeyFrameRequestTime == (if due then now else old(lastKeyFrameRequestTime)) &&
        forceKeyFrame == (old(forceKeyFrame) || due)
      ensures secondKeyFrame == old(secondKeyFrame) && countDownToKeyFrame == old(countDownToKeyFrame)
      ensures packetizationMode == old(packetizationMode)
      ensures forceKeyFrame ==> NextFrame(State()).0
    {
      if now > lastKeyFrameRequestTime + PLI_INTERVAL {
        lastKeyFrameRequestTime := now;
        forceKeyFrame := true;
      }
      return true;
    }

    /** setPacketizationMode(packetizationMode). */
    method SetPacketizationMode(mode: Option<string>) returns (error: Option<string>)
      modifies this
      ensures State() == old(State()) && lastKeyFrameRequestTime == old(lastKeyFrameRequestTime)
      ensures PacketizationMode(mode).Ok? ==> error.None? && packetizationMode == Some(PacketizationMode(mode).value)
      ensures PacketizationMode(mode).Err? ==> error.Some? && packetizationMode == old(packetizationMode)
      ensures error.None? ==> (SingleNalMode(packetizationMode) <==> SingleNalMode(mode))
    {
      if mode.None? || mode.value == "0" {
        packetizationMode := Some("0");
      } else if mode.value == "1" {
        packetizationMode := Some("1");
      } else {
        return Some("IllegalArgumentException");
      }
      return None;
    }
  }
}
