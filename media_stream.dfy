/**
 * MediaStreamImpl: the CSRC list sent in RTP packets during a conference,
 * the remote SSRC list, the direction in which media has been started, the
 * direction check against a device, and the UDP hole-punch packet.
 */
module MediaStream {
  import opened JavaBase
  import opened JavaBits
  import opened RtpTranslator

  // ------------------------------------------------------------ CSRC list

  /** The SSRCs of `ssrcs` that are not remote SSRCs, in order. */
  function NonRemote(ssrcs: seq<int>, remote: seq<int>): seq<int>
  {
    if ssrcs == [] then []
    else
      var last := ssrcs[|ssrcs| - 1];
      NonRemote(ssrcs[..|ssrcs| - 1], remote) + (if last in remote then [] else [last])
  }

  /** The number of entries of `ssrcs` that are remote SSRCs. */
  function CountRemote(ssrcs: seq<int>, remote: seq<int>): nat
  {
    if ssrcs == [] then 0
    else CountRemote(ssrcs[..|ssrcs| - 1], remote) + (if ssrcs[|ssrcs| - 1] in remote then 1 else 0)
  }

  /** Every entry is either remote, and counted, or kept. */
  lemma {:induction false} NonRemoteCount(ssrcs: seq<int>, remote: seq<int>)
    ensures |NonRemote(ssrcs, remote)| + CountRemote(ssrcs, remote) == |ssrcs|
  {
    if ssrcs != [] {
      NonRemoteCount(ssrcs[..|ssrcs| - 1], remote);
    }
  }

  /** The kept SSRCs are exactly the entries that are not remote. */
  lemma {:induction false} NonRemoteMembers(ssrcs: seq<int>, remote: seq<int>, x: int)
    ensures x in NonRemote(ssrcs, remote) <==> x in ssrcs && x !in remote
  {
    if ssrcs != [] {
      var front := ssrcs[..|ssrcs| - 1];
      NonRemoteMembers(front, remote, x);
      assert ssrcs == front + [ssrcs[|ssrcs| - 1]];
    }
  }

  /** Filtering a prefix gives a prefix of the filtered whole. */
  lemma {:induction false} NonRemotePrefix(ssrcs: seq<int>, remote: seq<int>, i: nat)
    requires i <= |ssrcs|
    ensures var p := NonRemote(ssrcs[..i], remote);
      |p| <= |NonRemote(ssrcs, remote)| && NonRemote(ssrcs, remote)[..|p|] == p
    decreases |ssrcs| - i
  {
    if i < |ssrcs| {
      NonRemotePrefix(ssrcs[..|ssrcs| - 1], remote, i);
      assert ssrcs[..|ssrcs| - 1][..i] == ssrcs[..i];
    } else {
      assert ssrcs[..i] == ssrcs;
    }
  }

  /** RTP allows at most 15 CSRC identifiers (section 5.1 of RFC 3550). */
  const MAX_CSRC_COUNT: int := 15

  /**
   * The CSRC list deviceSessionSsrcListChanged derives from the device's
   * SSRC array: none without an array or without a non-remote SSRC, else at
   * most 14 non-remote SSRCs followed by the local one.
   */
  function CsrcList(ssrcArray: Option<seq<int>>, remote: seq<int>, local: int): Option<seq<int>>
  {
    if ssrcArray.None? then None
    else
      var kept := NonRemote(ssrcArray.value, remote);
      if kept == [] then None else Some(kept[..Min(|kept|, MAX_CSRC_COUNT - 1)] + [local])
  }

  /**
   * No SSRC array, or only remote SSRCs in it, gives no CSRC list; otherwise
   * the list has min(n - removed + 1, 15) entries, the local SSRC last and
   * before it the non-remote SSRCs in their order.
   */
  lemma {:induction false} CsrcListShape(ssrcArray: Option<seq<int>>, remote: seq<int>, local: int)
    ensures var r := CsrcList(ssrcArray, remote, local);
      (r.None? <==> ssrcArray.None? || forall i :: 0 <= i < |ssrcArray.value| ==> ssrcArray.value[i] in remote) &&
      (r.Some? ==>
        var s, csrcs := ssrcArray.value, r.value;
        |csrcs| == Min(|s| - CountRemote(s, remote) + 1, MAX_CSRC_COUNT) && csrcs[|csrcs| - 1] == local &&
        csrcs[..|csrcs| - 1] == NonRemote(s, remote)[..|csrcs| - 1] &&
        forall k :: 0 <= k < |csrcs| - 1 ==> csrcs[k] in s && csrcs[k] !in remote)
  {
    if ssrcArray.Some? {
      var s := ssrcArray.value;
      var kept := NonRemote(s, remote);
      NonRemoteCount(s, remote);
      if kept == [] {
        forall i | 0 <= i < |s| ensures s[i] in remote {
          NonRemoteMembers(s, remote, s[i]);
        }
      } else {
        NonRemoteMembers(s, remote, kept[0]);
        var csrcs := CsrcList(ssrcArray, remote, local).value;
        var n := Min(|kept|, MAX_CSRC_COUNT - 1);
        assert csrcs[..|csrcs| - 1] == kept[..n];
        forall k | 0 <= k < |csrcs| - 1 ensures csrcs[k] in s && csrcs[k] !in remote {
          assert csrcs[k] == kept[k];
          NonRemoteMembers(s, remote, kept[k]);
        }
      }
    }
  }

  // ------------------------------------------------------------ directions

  /** A MediaDirection, as its send and receive capabilities. */
  datatype MediaDirection = Inactive | SendOnly | RecvOnly | SendRecv
  {
    predicate AllowsSending() { this == SendOnly || this == SendRecv }
    predicate AllowsReceiving() { this == RecvOnly || this == SendRecv }
  }

  /** The direction allowing exactly the given capabilities. */
  function FromCapabilities(send: bool, receive: bool): MediaDirection
  {
    if send && receive then SendRecv else if send then SendOnly else if receive then RecvOnly else Inactive
  }

  /** `MediaDirection.and`: the capabilities both directions allow. */
  function And(a: MediaDirection, b: MediaDirection): MediaDirection
  {
    FromCapabilities(a.AllowsSending() && b.AllowsSending(), a.AllowsReceiving() && b.AllowsReceiving())
  }

  /** A direction is determined by its two capabilities. */
  lemma {:induction false} FromCapabilitiesOf(d: MediaDirection)
    ensures FromCapabilities(d.AllowsSending(), d.AllowsReceiving()) == d
  {
    match d
    case Inactive =>
    case SendOnly =>
    case RecvOnly =>
    case SendRecv =>
  }

  /**
   * assertDirection: throws IllegalArgumentException when a direction is
   * given that the device's direction does not fully allow.
   */
  function AssertDirection(direction: Option<MediaDirection>, deviceDirection: MediaDirection): Result<(), string>
  {
    if direction.Some? && And(direction.value, deviceDirection) != direction.value then Err("IllegalArgumentException")
    else Ok(())
  }

  /** A direction passes exactly when the device allows everything it allows. */
  lemma {:induction false} AssertDirectionIff(direction: Option<MediaDirection>, deviceDirection: MediaDirection)
    ensures AssertDirection(direction, deviceDirection).Ok? <==>
      direction.None? ||
      ((direction.value.AllowsSending() ==> deviceDirection.AllowsSending()) &&
       (direction.value.AllowsReceiving() ==> deviceDirection.AllowsReceiving()))
  {
    if direction.Some? {
      FromCapabilitiesOf(direction.value);
    }
  }

  /** Whether a started direction (null when nothing is started) sends. */
  predicate Sends(started: Option<MediaDirection>) { started.Some? && started.value.AllowsSending() }

  /** Whether a started direction (null when nothing is started) receives. */
  predicate Receives(started: Option<MediaDirection>) { started.Some? && started.value.AllowsReceiving() }

  /** The nullable started direction with the given capabilities. */
  function StartedOf(send: bool, receive: bool): Option<MediaDirection>
  {
    if send || receive then Some(FromCapabilities(send, receive)) else None
  }

  /** start(direction) when it starts sending. */
  function StartSending(started: Option<MediaDirection>): Option<MediaDirection>
  {
    if started == Some(RecvOnly) then Some(SendRecv) else if started.None? then Some(SendOnly) else started
  }

  /** start(direction) when it starts receiving. */
  function StartReceiving(started: Option<MediaDirection>): Option<MediaDirection>
  {
    if started == Some(SendOnly) then Some(SendRecv) else if started.None? then Some(RecvOnly) else started
  }

  /** stop(direction) when it stops sending. */
  function StopSending(started: Option<MediaDirection>): Option<MediaDirection>
  {
    if started == Some(SendRecv) then Some(RecvOnly) else if started == Some(SendOnly) then None else started
  }

  /** stop(direction) when it stops receiving. */
  function StopReceiving(started: Option<MediaDirection>): Option<MediaDirection>
  {
    if started == Some(SendRecv) then Some(SendOnly) else if started == Some(RecvOnly) then None else started
  }

  /** Whether start(direction) starts the send streams. */
  predicate StartsSending(started: Option<MediaDirection>, direction: MediaDirection)
  {
    direction.AllowsSending() && !Sends(started)
  }

  /** Whether start(direction) then starts the receive streams. */
  predicate StartsReceiving(started: Option<MediaDirection>, direction: MediaDirection)
  {
    var s := if StartsSending(started, direction) then StartSending(started) else started;
    direction.AllowsReceiving() && !Receives(s)
  }

  /** The started direction after start(direction) completes. */
  function StartedAfterStart(started: Option<MediaDirection>, direction: MediaDirection): Option<MediaDirection>
  {
    var s := if StartsSending(started, direction) then StartSending(started) else started;
    if StartsReceiving(started, direction) then StartReceiving(s) else s
  }

  /** Whether stop(direction) stops the send streams. */
  predicate StopsSending(started: Option<MediaDirection>, direction: MediaDirection)
  {
    (direction == SendRecv || direction == SendOnly) && (started == Some(SendRecv) || started == Some(SendOnly))
  }

  /** Whether stop(direction) then stops the receive streams. */
  predicate StopsReceiving(started: Option<MediaDirection>, direction: MediaDirection)
  {
    var s := if StopsSending(started, direction) then StopSending(started) else started;
    (direction == SendRecv || direction == RecvOnly) && (s == Some(SendRecv) || s == Some(RecvOnly))
  }

  /** The started direction after stop(direction) with an RTP manager. */
  function StartedAfterStop(started: Option<MediaDirection>, direction: MediaDirection): Option<MediaDirection>
  {
    var s := if StopsSending(started, direction) then StopSending(started) else started;
    if StopsReceiving(started, direction) then StopReceiving(s) else s
  }

  /** A started direction other than INACTIVE is one of four values. */
  lemma {:induction false} SplitStarted(started: Option<MediaDirection>)
    requires started != Some(Inactive)
    ensures started == None || started == Some(SendOnly) || started == Some(RecvOnly) || started == Some(SendRecv)
  {
    match started
    case None =>
    case Some(d) =>
      match d
      case SendOnly =>
      case RecvOnly =>
      case SendRecv =>
  }

  /**
   * Starting adds the direction's capabilities to what is started: the
   * streams of a capability are started only when that capability was not
   * started yet, and INACTIVE is never recorded.
   */
  lemma {:induction false} StartAddsCapabilities(started: Option<MediaDirection>, direction: MediaDirection)
    requires started != Some(Inactive)
    ensures StartedAfterStart(started, direction) ==
      StartedOf(Sends(started) || direction.AllowsSending(), Receives(started) || direction.AllowsReceiving())
    ensures StartsSending(started, direction) <==> direction.AllowsSending() && !Sends(started)
    ensures StartsReceiving(started, direction) <==> direction.AllowsReceiving() && !Receives(started)
  {
    match direction
    case Inactive =>
    case SendOnly => SplitStarted(started);
    case RecvOnly => SplitStarted(started);
    case SendRecv => SplitStarted(started);
  }

  /**
   * Stopping removes the direction's capabilities from what is started;
   * streams are stopped only in a started capability.
   */
  lemma {:induction false} StopRemovesCapabilities(started: Option<MediaDirection>, direction: MediaDirection)
    requires started != Some(Inactive)
    ensures StartedAfterStop(started, direction) ==
      StartedOf(Sends(started) && !direction.AllowsSending(), Receives(started) && !direction.AllowsReceiving())
    ensures StopsSending(started, direction) <==> direction.AllowsSending() && Sends(started)
    ensures StopsReceiving(started, direction) <==> direction.AllowsReceiving() && Receives(started)
  {
    match direction
    case Inactive =>
    case SendOnly => SplitStarted(started);
    case RecvOnly => SplitStarted(started);
    case SendRecv => SplitStarted(started);
  }

  /** Stopping a direction just started returns to the previous state when it shared no capability with it. */
  lemma {:induction false} StartThenStop(started: Option<MediaDirection>, direction: MediaDirection)
    requires started != Some(Inactive)
    requires !(direction.AllowsSending() && Sends(started)) && !(direction.AllowsReceiving() && Receives(started))
    ensures StartedAfterStop(StartedAfterStart(started, direction), direction) == started
  {
    StartAddsCapabilities(started, direction);
    var s := StartedAfterStart(started, direction);
    assert s != Some(Inactive);
    StopRemovesCapabilities(s, direction);
  }

  /** The stream operations start and stop(direction) perform. */
  datatype StreamAction = StartSendStreams | StartReceiveStreams | StopSendStreams | StopReceiveStreams

  /** The actions start(direction) performs, in order. */
  function StartActions(started: Option<MediaDirection>, direction: MediaDirection): seq<StreamAction>
  {
    (if StartsSending(started, direction) then [StartSendStreams] else []) +
    (if StartsReceiving(started, direction) then [StartReceiveStreams] else [])
  }

  /** The actions stop(direction) performs, in order. */
  function StopActions(started: Option<MediaDirection>, direction: MediaDirection): seq<StreamAction>
  {
    (if StopsSending(started, direction) then [StopSendStreams] else []) +
    (if StopsReceiving(started, direction) then [StopReceiveStreams] else [])
  }

  /** The IllegalStateException of getRTPManager without an RTP connector. */
  datatype StreamError = NoRtpConnector

  // ------------------------------------------------------------ hole punch

  /** The four big-endian bytes ByteBuffer.putInt writes for a Java int. */
  function IntBytes(x: int): (r: seq<Byte>)
    ensures |r| == 4
  {
    var u := UInt32(x);
    var d1 := u / 256;
    var d2 := d1 / 256;
    var d3 := d2 / 256;
    [d3 as Byte, (d2 % 256) as Byte, (d1 % 256) as Byte, (u % 256) as Byte]
  }

  /** putInt then getInt: the bytes read back as the int written. */
  lemma {:induction false} IntBytesRoundTrip(x: int)
    requires IsInt(x)
    ensures BigEndian(IntBytes(x)) == UInt32(x)
    ensures ReadInt(IntBytes(x), 0) == x
  {
    var w := IntBytes(x);
    var u := UInt32(x);
    var d1 := u / 256;
    var d2 := d1 / 256;
    assert w[..3][..2] == w[..2] && w[..2][..1] == w[..1] && w[..1][..0] == [];
    assert BigEndian(w[..1]) == d2 / 256;
    assert BigEndian(w[..2]) == d2;
    assert BigEndian(w[..3]) == d1;
    assert w[..4] == w;
    ReadIntBigEndian(w, 0);
    WrapOfUInt32(x);
  }

  /** The 16 bytes of createHolePunchPacket: the UDP header of an empty datagram. */
  function HolePunchBytes(localPort: int, remotePort: int): seq<Byte>
  {
    IntBytes(localPort) + IntBytes(remotePort) + IntBytes(16) + IntBytes(0)
  }

  /**
   * The hole-punch packet is 16 bytes holding, as big-endian ints, the local
   * port, the remote port, the header length 16 and a zero checksum.
   */
  lemma {:induction false} HolePunchLayout(localPort: int, remotePort: int)
    requires IsInt(localPort) && IsInt(remotePort)
    ensures var p := HolePunchBytes(localPort, remotePort);
      |p| == 16 && ReadInt(p, 0) == localPort && ReadInt(p, 4) == remotePort &&
      ReadInt(p, 8) == 16 && ReadInt(p, 12) == 0
  {
    var p := HolePunchBytes(localPort, remotePort);
    assert p[0..4] == IntBytes(localPort) && p[4..8] == IntBytes(remotePort);
    assert p[8..12] == IntBytes(16) && p[12..16] == IntBytes(0);
    ReadIntOfIntBytes(p, 0, localPort);
    ReadIntOfIntBytes(p, 4, remotePort);
    ReadIntOfIntBytes(p, 8, 16);
    ReadIntOfIntBytes(p, 12, 0);
  }

  /** An int written anywhere in a buffer reads back at that offset. */
  lemma {:induction false} ReadIntOfIntBytes(p: seq<Byte>, offset: nat, x: int)
    requires IsInt(x) && offset + 4 <= |p| && p[offset..offset + 4] == IntBytes(x)
    ensures ReadInt(p, offset) == x
  {
    ReadIntBigEndian(p, offset);
    IntBytesRoundTrip(x);
    WrapOfUInt32(x);
  }

  /** `ByteBuffer.putInt` at a position of a byte array. */
  method PutInt(buffer: array<Byte>, position: nat, x: int)
    requires position + 4 <= buffer.Length
    modifies buffer
    ensures buffer[..] == old(buffer[..position]) + IntBytes(x) + old(buffer[position + 4..])
  {
    var bytes := IntBytes(x);
    buffer[position] := bytes[0];
    buffer[position + 1] := bytes[1];
    buffer[position + 2] := bytes[2];
    buffer[position + 3] := bytes[3];
    assert buffer[..] == old(buffer[..position]) + bytes + old(buffer[position + 4..]);
  }

  /** createHolePunchPacket(localPort, remotePort): the packet's byte array. */
  method CreateHolePunchPacket(localPort: int, remotePort: int) returns (packet: array<Byte>)
    ensures fresh(packet) && packet[..] == HolePunchBytes(localPort, remotePort)
  {
    packet := new Byte[16](_ => 0);
    PutInt(packet, 0, localPort);
    PutInt(packet, 4, remotePort);
    PutInt(packet, 8, 16);
    PutInt(packet, 12, 0);
  }

  // ------------------------------------------------------------ the stream

  /**
   * The state of a MediaStreamImpl this model follows. The RTP manager and
   * connector are represented by whether they exist.
   */
  class MediaStreamState {
    var remoteSourceIds: seq<int>
    var localSourceId: int
    var localContributingSourceIdList: Option<seq<int>>
    var startedDirection: Option<MediaDirection>
    var hasRtpManager: bool
    var hasRtpConnector: bool
    var hasRtpTranslator: bool
    /** The send and receive stream operations performed, in order. */
    var actions: seq<StreamAction>

    predicate Valid()
      reads this
    {
      Distinct(remoteSourceIds) && startedDirection != Some(Inactive)
    }

    /** A new stream: its own SSRC is not known yet (-1). */
    constructor(hasRtpConnector: bool, hasRtpTranslator: bool)
      ensures Valid() && remoteSourceIds == [] && startedDirection == None && actions == []
      ensures localSourceId == -1 && localContributingSourceIdList == None && !hasRtpManager
      ensures this.hasRtpConnector == hasRtpConnector && this.hasRtpTranslator == hasRtpTranslator
    {
      remoteSourceIds := [];
      localSourceId := -1;
      localContributingSourceIdList := None;
      startedDirection := None;
      hasRtpManager := false;
      this.hasRtpConnector := hasRtpConnector;
      this.hasRtpTranslator := hasRtpTranslator;
      actions := [];
    }

    /** getRemoteSourceID: the last remote SSRC, or -1 when there is none. */
    function GetRemoteSourceId(): (id: int)
      reads this
      ensures remoteSourceIds == [] ==> id == -1
      ensures remoteSourceIds != [] ==> id == remoteSourceIds[|remoteSourceIds| - 1]
    {
      if remoteSourceIds == [] then -1 else remoteSourceIds[|remoteSourceIds| - 1]
    }

    /**
     * addRemoteSourceID: appended only when not yet known, after which it
     * is the remote SSRC getRemoteSourceID reports.
     */
    method AddRemoteSourceId(remoteSourceId: int)
      requires Valid()
      modifies this
      ensures Valid() && remoteSourceIds == AppendIfAbsent(old(remoteSourceIds), remoteSourceId)
      ensures remoteSourceId !in old(remoteSourceIds) ==> GetRemoteSourceId() == remoteSourceId
      ensures remoteSourceId in old(remoteSourceIds) ==> GetRemoteSourceId() == old(GetRemoteSourceId())
      ensures localSourceId == old(localSourceId) && localContributingSourceIdList == old(localContributingSourceIdList)
      ensures startedDirection == old(startedDirection) && actions == old(actions)
      ensures hasRtpManager == old(hasRtpManager)
    {
      AppendIfAbsentDistinct(remoteSourceIds, remoteSourceId);
      if remoteSourceId !in remoteSourceIds {
        remoteSourceIds := remoteSourceIds + [remoteSourceId];
      }
    }

    /** The number of remote SSRCs in an SSRC array, counted by a loop. */
    method CountRemoteSsrcs(ssrcArray: seq<int>) returns (elementsToRemove: nat)
      ensures elementsToRemove == CountRemote(ssrcArray, remoteSourceIds)
    {
      elementsToRemove := 0;
      var i := 0;
      while i < |ssrcArray|
        invariant 0 <= i <= |ssrcArray|
        invariant elementsToRemove == CountRemote(ssrcArray[..i], remoteSourceIds)
      {
        assert ssrcArray[..i + 1][..i] == ssrcArray[..i];
        if ssrcArray[i] in remoteSourceIds {
          elementsToRemove := elementsToRemove + 1;
        }
        i := i + 1;
      }
      assert ssrcArray[..i] == ssrcArray;
    }

    /**
     * The copy loop of deviceSessionSsrcListChanged: the first non-remote
     * SSRCs, as many as fit before the last slot.
     */
    method CopyNonRemote(ssrcArray: seq<int>, csrcArray: array<int>)
      requires csrcArray.Length >= 1
      modifies csrcArray
      ensures var kept := NonRemote(ssrcArray, remoteSourceIds);
        var n := Min(|kept|, csrcArray.Length - 1);
        csrcArray[..n] == kept[..n] && csrcArray[csrcArray.Length - 1] == old(csrcArray[csrcArray.Length - 1])
    {
      var i, j := 0, 0;
      while i < |ssrcArray| && j < csrcArray.Length - 1
        invariant 0 <= i <= |ssrcArray| && 0 <= j <= csrcArray.Length - 1
        invariant j == |NonRemote(ssrcArray[..i], remoteSourceIds)|
        invariant csrcArray[..j] == NonRemote(ssrcArray[..i], remoteSourceIds)
        invariant csrcArray[csrcArray.Length - 1] == old(csrcArray[csrcArray.Length - 1])
      {
        var ssrc := ssrcArray[i];
        assert ssrcArray[..i + 1][..i] == ssrcArray[..i];
        if ssrc !in remoteSourceIds {
          csrcArray[j] := ssrc;
          j := j + 1;
        }
        i := i + 1;
      }
      NonRemotePrefix(ssrcArray, remoteSourceIds, i);
      if i == |ssrcArray| {
        assert ssrcArray[..i] == ssrcArray;
      }
    }

    /**
     * deviceSessionSsrcListChanged: recomputes the CSRC list from the SSRC
     * array the device session reports.
     */
    method DeviceSessionSsrcListChanged(ssrcArray: Option<seq<int>>)
      modifies this
      ensures localContributingSourceIdList == CsrcList(ssrcArray, old(remoteSourceIds), old(localSourceId))
      ensures remoteSourceIds == old(remoteSourceIds) && localSourceId == old(localSourceId)
      ensures startedDirection == old(startedDirection) && actions == old(actions)
      ensures hasRtpManager == old(hasRtpManager)
    {
      if ssrcArray.None? {
        localContributingSourceIdList := None;
        return;
      }
      var s := ssrcArray.value;
      var elementsToRemove := CountRemoteSsrcs(s);
      NonRemoteCount(s, remoteSourceIds);
      if elementsToRemove >= |s| {
        localContributingSourceIdList := None;
        return;
      }
      var cc := Min(|s| - elementsToRemove + 1, MAX_CSRC_COUNT);
      var csrcArray := new int[cc];
      CopyNonRemote(s, csrcArray);
      csrcArray[cc - 1] := localSourceId;
      ghost var kept := NonRemote(s, remoteSourceIds);
      assert csrcArray[..] == csrcArray[..cc - 1] + [csrcArray[cc - 1]];
      localContributingSourceIdList := Some(csrcArray[..]);
    }

    /**
     * getRTPManager: creates the RTP manager, which needs an RTP connector.
     * `localSsrc` is the signed int SSRC the new manager's initialize picks
     * (getLocalSSRC); the stream's own SSRC becomes its unsigned value.
     */
    method GetRtpManager(localSsrc: int) returns (error: Option<StreamError>)
      requires IsInt(localSsrc)
      modifies this
      ensures error.Some? <==> !old(hasRtpManager) && !hasRtpConnector
      ensures hasRtpManager == (old(hasRtpManager) || hasRtpConnector)
      ensures localSourceId == if !old(hasRtpManager) && hasRtpConnector then UInt32(localSsrc) else old(localSourceId)
      ensures !old(hasRtpManager) && hasRtpConnector ==>
        0 <= localSourceId < TWO32 && (localSsrc >= 0 ==> localSourceId == localSsrc)
      ensures hasRtpConnector == old(hasRtpConnector) && hasRtpTranslator == old(hasRtpTranslator)
      ensures remoteSourceIds == old(remoteSourceIds)
      ensures localContributingSourceIdList == old(localContributingSourceIdList)
      ensures startedDirection == old(startedDirection) && actions == old(actions)
    {
      if !hasRtpManager {
        if !hasRtpConnector {
          return Some(NoRtpConnector);
        }
        hasRtpManager := true;
        // the int widens to a long, whose 64-bit pattern is masked with 0xFFFFFFFFL
        var pattern := localSsrc % TWO64;
        localSourceId := BitAnd(pattern, 0xFFFF_FFFF);
        LongMaskLow32(localSsrc);
      }
      return None;
    }

    /**
     * start(direction): starts sending and then receiving where the
     * direction allows it and it is not started yet; only the first call
     * that needs an RTP manager can fail, before anything has changed.
     */
    method Start(direction: MediaDirection, localSsrc: int) returns (error: Option<StreamError>)
      requires Valid() && IsInt(localSsrc)
      modifies this
      ensures Valid()
      ensures var needsManager := StartsSending(old(startedDirection), direction) ||
          StartsReceiving(old(startedDirection), direction) || hasRtpTranslator;
        error.Some? <==> needsManager && !old(hasRtpManager) && !hasRtpConnector
      ensures error.Some? ==>
        startedDirection == old(startedDirection) && actions == old(actions) && hasRtpManager == old(hasRtpManager)
      ensures error.None? ==>
        startedDirection == StartedAfterStart(old(startedDirection), direction) &&
        actions == old(actions) + StartActions(old(startedDirection), direction) &&
        hasRtpManager == (old(hasRtpManager) || StartsSending(old(startedDirection), direction) ||
          StartsReceiving(old(startedDirection), direction) || hasRtpTranslator)
      ensures localSourceId == if hasRtpManager && !old(hasRtpManager) then UInt32(localSsrc) else old(localSourceId)
      ensures remoteSourceIds == old(remoteSourceIds)
      ensures localContributingSourceIdList == old(localContributingSourceIdList)
      ensures hasRtpConnector == old(hasRtpConnector) && hasRtpTranslator == old(hasRtpTranslator)
    {
      ghost var started0, actions0 := startedDirection, actions;
      StartAddsCapabilities(started0, direction);
      var getRtpManagerForRtpTranslator := true;
      if direction.AllowsSending() && (startedDirection.None? || !startedDirection.value.AllowsSending()) {
        getRtpManagerForRtpTranslator := false;
        error := GetRtpManager(localSsrc);
        if error.Some? {
          return;
        }
        actions := actions + [StartSendStreams];
        if startedDirection == Some(RecvOnly) {
          startedDirection := Some(SendRecv);
        } else if startedDirection.None? {
          startedDirection := Some(SendOnly);
        }
      }
      if direction.AllowsReceiving() && (startedDirection.None? || !startedDirection.value.AllowsReceiving()) {
        getRtpManagerForRtpTranslator := false;
        error := GetRtpManager(localSsrc);
        if error.Some? {
          return;
        }
        actions := actions + [StartReceiveStreams];
        if startedDirection == Some(SendOnly) {
          startedDirection := Some(SendRecv);
        } else if startedDirection.None? {
          startedDirection := Some(RecvOnly);
        }
      }
      error := None;
      if getRtpManagerForRtpTranslator && hasRtpTranslator {
        error := GetRtpManager(localSsrc);
      }
    }

    /**
     * stop(direction): with an RTP manager, stops sending and then receiving
     * where the direction names it and it is started; without one, nothing.
     */
    method Stop(direction: MediaDirection)
      requires Valid()
      modifies this
      ensures Valid()
      ensures !old(hasRtpManager) ==> startedDirection == old(startedDirection) && actions == old(actions)
      ensures old(hasRtpManager) ==>
        startedDirection == StartedAfterStop(old(startedDirection), direction) &&
        actions == old(actions) + StopActions(old(startedDirection), direction)
      ensures remoteSourceIds == old(remoteSourceIds) && localSourceId == old(localSourceId)
      ensures localContributingSourceIdList == old(localContributingSourceIdList)
      ensures hasRtpManager == old(hasRtpManager) && hasRtpConnector == old(hasRtpConnector)
      ensures hasRtpTranslator == old(hasRtpTranslator)
    {
      if !hasRtpManager {
        return;
      }
      StopRemovesCapabilities(startedDirection, direction);
      if (direction == SendRecv || direction == SendOnly) &&
         (startedDirection == Some(SendRecv) || startedDirection == Some(SendOnly)) {
        actions := actions + [StopSendStreams];
        if startedDirection == Some(SendRecv) {
          startedDirection := Some(RecvOnly);
        } else if startedDirection == Some(SendOnly) {
          startedDirection := None;
        }
      }
      if (direction == SendRecv || direction == RecvOnly) &&
         (startedDirection == Some(SendRecv) || startedDirection == Some(RecvOnly)) {
        actions := actions + [StopReceiveStreams];
        if startedDirection == Some(SendRecv) {
          startedDirection := Some(SendOnly);
        } else if startedDirection == Some(RecvOnly) {
          startedDirection := None;
        }
      }
    }
  }
}
