/**
 * StatisticsEngine: recognising RTCP packets in a compound packet by their
 * header (section 6.4.1 of RFC 3550) and removing the Extended Report (XR)
 * packets of RFC 3611 from a compound packet in place.
 */
module StatisticsEngine {
  import opened JavaBase

  /** RTCPHeader.VERSION: the RTP version 2. */
  const RTCP_VERSION: int := 2
  /** RTCPExtendedReport.XR: packet type 207. */
  const XR: int := 207

  /** `(b & 0xc0) >>> 6`: the two version bits of the first header byte. */
  function Version(b: Byte): (v: int)
    ensures 0 <= v <= 3
  {
    b / 64
  }

  /** The 16-bit length field, the packet length in 32-bit words minus one. */
  function LengthWords(hi: Byte, lo: Byte): (words: int)
    ensures 0 <= words < 0x1_0000
  {
    hi * 256 + lo
  }

  /**
   * The length in bytes of the RTCP packet at the start of the window `w`,
   * or -1 when `w` does not start with a version-2 header whose packet fits.
   */
  function LengthIfRtcp(w: seq<Byte>): (r: int)
    ensures r == -1 || (4 <= r <= |w| && r % 4 == 0)
    ensures r != -1 ==> |w| >= 4 && Version(w[0]) == RTCP_VERSION && r == (LengthWords(w[2], w[3]) + 1) * 4
  {
    if |w| >= 4 && Version(w[0]) == RTCP_VERSION && (LengthWords(w[2], w[3]) + 1) * 4 <= |w| then
      (LengthWords(w[2], w[3]) + 1) * 4
    else -1
  }

  /**
   * getLengthIfRTCP(buf, off, len) with the length field read as unsigned
   * bytes; a null buffer is None.
   */
  function GetLengthIfRtcp(buf: Option<seq<Byte>>, off: int, len: int): (r: int)
    ensures r == -1 || (4 <= r <= len && r % 4 == 0)
    ensures r != -1 ==> off >= 0 && buf.Some? && off + len <= |buf.value|
  {
    if off >= 0 && len >= 4 && buf.Some? && |buf.value| >= off + len then
      LengthIfRtcp(buf.value[off..off + len])
    else -1
  }

  /**
   * getLengthIfRTCP as written: `(buf[off + 2] << 8) + (buf[off + 3] << 0)`
   * on Java's signed bytes.
   */
  function GetLengthIfRtcpAsWritten(buf: Option<seq<Byte>>, off: int, len: int): (r: int)
    ensures r != -1 ==> off >= 0 && len >= 4 && buf.Some? && off + len <= |buf.value| && r <= len
  {
    if off >= 0 && len >= 4 && buf.Some? && |buf.value| >= off + len then
      var b := buf.value;
      if Version(b[off]) == RTCP_VERSION then
        var words := SignedByte(b[off + 2]) * 256 + SignedByte(b[off + 3]);
        var bytes := (words + 1) * 4;
        if bytes <= len then bytes else -1
      else -1
    else -1
  }

  /** isRTCP(pkt) on the packet's buffer, offset and length. */
  predicate IsRtcp(buf: seq<Byte>, off: int, len: int)
  {
    GetLengthIfRtcp(Some(buf), off, len) > 0
  }

  /**
   * A version-2 header whose length field says `words` recognises exactly
   * its own packet, whatever follows it in the buffer.
   */
  lemma {:induction false} LengthRoundTrip(pkt: seq<Byte>, tail: seq<Byte>)
    requires |pkt| >= 4 && Version(pkt[0]) == RTCP_VERSION
    requires |pkt| == (LengthWords(pkt[2], pkt[3]) + 1) * 4
    ensures GetLengthIfRtcp(Some(pkt + tail), 0, |pkt + tail|) == |pkt|
    ensures LengthIfRtcp(pkt) == |pkt|
  {
    assert (pkt + tail)[0..|pkt + tail|] == pkt + tail;
  }

  /** The answer depends only on the bytes of the window. */
  lemma {:induction false} LengthOfWindow(buf: seq<Byte>, off: int, len: int)
    requires 0 <= off && 4 <= len && off + len <= |buf|
    ensures GetLengthIfRtcp(Some(buf), off, len) == LengthIfRtcp(buf[off..off + len])
    ensures IsRtcp(buf, off, len) <==> LengthIfRtcp(buf[off..off + len]) != -1
  {
  }

  /**
   * With both length bytes below 0x80 the code as written agrees with the
   * unsigned reading.
   */
  lemma {:induction false} AsWrittenAgreesOnSmallBytes(buf: seq<Byte>, off: int, len: int)
    requires 0 <= off && 4 <= len && off + len <= |buf|
    requires buf[off + 2] < 128 && buf[off + 3] < 128
    ensures GetLengthIfRtcpAsWritten(Some(buf), off, len) == GetLengthIfRtcp(Some(buf), off, len)
  {
    assert buf[off..off + len][0] == buf[off] && buf[off..off + len][2] == buf[off + 2];
    assert buf[off..off + len][3] == buf[off + 3];
  }

  /**
   * A packet of 129 words (516 bytes, length field 0x0080) is not
   * recognised as written: the low length byte reads as -128 and the
   * length comes out as -508.
   */
  lemma {:induction false} AsWrittenMisreadsLength(buf: seq<Byte>)
    requires |buf| >= 516 && Version(buf[0]) == RTCP_VERSION
    requires buf[2] == 0x00 && buf[3] == 0x80
    ensures GetLengthIfRtcpAsWritten(Some(buf), 0, |buf|) == -508
    ensures GetLengthIfRtcp(Some(buf), 0, |buf|) == 516
  {
    assert buf[0..|buf|] == buf;
  }

  // ------------------------------------------------------------ RawPacket

  /** A RawPacket: a buffer and the window of it that holds the packet. */
  class RawPacket {
    var buffer: seq<Byte>
    var offset: nat
    var length: nat

    ghost predicate Valid()
      reads this
    {
      offset + length <= |buffer|
    }

    /** The bytes of the packet. */
    function Contents(): seq<Byte>
      reads this
      requires Valid()
    {
      buffer[offset..offset + length]
    }

    constructor(buffer: seq<Byte>, offset: nat, length: nat)
      requires offset + length <= |buffer|
      ensures Valid() && this.buffer == buffer && this.offset == offset && this.length == length
    {
      this.buffer := buffer;
      this.offset := offset;
      this.length := length;
    }

    /** shrink(len): drops the last `len` bytes of the packet, down to none. */
    method Shrink(len: int)
      requires Valid()
      modifies this
      ensures Valid() && buffer == old(buffer) && offset == old(offset)
      ensures length == (if len <= 0 then old(length) else Max(old(length) - len, 0))
    {
      if len <= 0 {
        return;
      }
      if length >= len {
        length := length - len;
      } else {
        length := 0;
      }
    }
  }

  /**
   * `System.arraycopy(buf, src, buf, dst, count)` within one buffer: the
   * `count` bytes at `src` now also stand at `dst`, every other byte stays.
   */
  function ArrayCopy(buf: seq<Byte>, src: nat, dst: nat, count: nat): (r: seq<Byte>)
    requires src + count <= |buf| && dst + count <= |buf|
    ensures |r| == |buf|
  {
    buf[..dst] + buf[src..src + count] + buf[dst + count..]
  }

  /** The bytes of the copy, one by one. */
  lemma {:induction false} ArrayCopyAt(buf: seq<Byte>, src: nat, dst: nat, count: nat)
    requires src + count <= |buf| && dst + count <= |buf|
    ensures var r := ArrayCopy(buf, src, dst, count);
      forall k :: 0 <= k < |r| ==> r[k] == (if dst <= k < dst + count then buf[k - dst + src] else buf[k])
  {
    var r := ArrayCopy(buf, src, dst, count);
    forall k | 0 <= k < |r|
      ensures r[k] == (if dst <= k < dst + count then buf[k - dst + src] else buf[k])
    {
      if k < dst {
        assert r[k] == buf[..dst][k];
      } else if k < dst + count {
        assert r[k] == buf[src..src + count][k - dst];
      } else {
        assert r[k] == buf[dst + count..][k - dst - count];
      }
    }
  }

  // ------------------------------------------------ removing the RTCP XRs

  /** What is left of a compound packet, and the XR packets taken out of it. */
  datatype Stripped = Stripped(kept: seq<Byte>, removed: seq<seq<Byte>>)

  /**
   * removeRTCPExtendedReports on the bytes `w` of a compound packet:
   * walk the RTCP packets, take out each XR that `parses` accepts and stop
   * at the first chunk that is not an RTCP packet. `parses` stands for the
   * RTCPExtendedReport parser: whether the bytes of an XR packet parse.
   */
  function Strip(w: seq<Byte>, parses: seq<Byte> -> bool): (s: Stripped)
    decreases |w|
  {
    var n := LengthIfRtcp(w);
    if n == -1 then Stripped(w, [])
    else
      var rest := Strip(w[n..], parses);
      if w[1] == XR && parses(w[..n]) then Stripped(rest.kept, [w[..n]] + rest.removed)
      else Stripped(w[..n] + rest.kept, rest.removed)
  }

  /** The total length of a list of packets. */
  function TotalLength(ps: seq<seq<Byte>>): nat
  {
    if ps == [] then 0 else |ps[0]| + TotalLength(ps[1..])
  }

  lemma {:induction false} TotalLengthCons(p: seq<Byte>, ps: seq<seq<Byte>>)
    ensures TotalLength([p] + ps) == |p| + TotalLength(ps)
  {
    assert ([p] + ps)[1..] == ps;
  }

  /** The first packet of a window, taken on its own, is recognised as itself. */
  lemma {:induction false} FirstPacketSelfDelimiting(w: seq<Byte>, tail: seq<Byte>)
    requires LengthIfRtcp(w) != -1
    ensures LengthIfRtcp(w[..LengthIfRtcp(w)]) == LengthIfRtcp(w)
    ensures LengthIfRtcp(w[..LengthIfRtcp(w)] + tail) == LengthIfRtcp(w)
  {
    var n := LengthIfRtcp(w);
    var p := w[..n];
    assert p[0] == w[0] && p[2] == w[2] && p[3] == w[3];
    assert (p + tail)[0] == w[0] && (p + tail)[2] == w[2] && (p + tail)[3] == w[3];
  }

  /** No byte is lost or invented: the kept bytes and the removed XRs add up to the input. */
  lemma {:induction false} StripConserves(w: seq<Byte>, parses: seq<Byte> -> bool)
    ensures |Strip(w, parses).kept| + TotalLength(Strip(w, parses).removed) == |w|
    decreases |w|
  {
    var n := LengthIfRtcp(w);
    if n != -1 {
      StripConserves(w[n..], parses);
      TotalLengthCons(w[..n], Strip(w[n..], parses).removed);
    }
  }

  /**
   * Every removed packet is an XR packet that parses, spanning exactly the
   * length its own header gives.
   */
  lemma {:induction false} RemovedAreParsedXrs(w: seq<Byte>, parses: seq<Byte> -> bool)
    ensures forall k :: 0 <= k < |Strip(w, parses).removed| ==>
      var x := Strip(w, parses).removed[k];
      |x| >= 4 && x[1] == XR && parses(x) && LengthIfRtcp(x) == |x|
    decreases |w|
  {
    var n := LengthIfRtcp(w);
    if n != -1 {
      RemovedAreParsedXrs(w[n..], parses);
      FirstPacketSelfDelimiting(w, []);
    }
  }

  /** A window that does not start with an RTCP packet is left as it is. */
  lemma {:induction false} StopsAtNonRtcp(w: seq<Byte>, parses: seq<Byte> -> bool)
    requires LengthIfRtcp(w) == -1
    ensures Strip(w, parses) == Stripped(w, [])
  {
  }

  /** An XR that fails to parse, like any other RTCP packet, is kept and stepped over. */
  lemma {:induction false} KeepsUnremovable(w: seq<Byte>, parses: seq<Byte> -> bool)
    requires LengthIfRtcp(w) != -1
    requires !(w[1] == XR && parses(w[..LengthIfRtcp(w)]))
    ensures Strip(w, parses).kept == w[..LengthIfRtcp(w)] + Strip(w[LengthIfRtcp(w)..], parses).kept
    ensures Strip(w, parses).removed == Strip(w[LengthIfRtcp(w)..], parses).removed
  {
  }

  /** Removing the XRs a second time removes nothing more. */
  lemma {:induction false} StripIdempotent(w: seq<Byte>, parses: seq<Byte> -> bool)
    ensures Strip(Strip(w, parses).kept, parses) == Stripped(Strip(w, parses).kept, [])
    decreases |w|
  {
    var n := LengthIfRtcp(w);
    if n != -1 {
      var rest := Strip(w[n..], parses);
      StripIdempotent(w[n..], parses);
      if !(w[1] == XR && parses(w[..n])) {
        var k := w[..n] + rest.kept;
        FirstPacketSelfDelimiting(w, rest.kept);
        assert k[..n] == w[..n] && k[n..] == rest.kept;
        assert k[1] == w[1];
      }
    }
  }

  /**
   * The buffer `b` of a packet being walked: before `start` the bytes in
   * front of the packet, then the bytes kept so far, then the bytes not yet
   * looked at up to `end`.
   */
  ghost predicate Walked(b: seq<Byte>, start: nat, off: nat, end: nat,
                         head: seq<Byte>, kept: seq<Byte>, rest: seq<Byte>)
  {
    start <= off <= end <= |b| && b[..start] == head && b[start..off] == kept && b[off..end] == rest
  }

  lemma {:induction false} WalkedSkip(b: seq<Byte>, start: nat, off: nat, end: nat,
                   head: seq<Byte>, kept: seq<Byte>, rest: seq<Byte>, n: nat)
    requires Walked(b, start, off, end, head, kept, rest) && n <= |rest|
    ensures Walked(b, start, off + n, end, head, kept + rest[..n], rest[n..])
  {
    assert rest[..n] == b[off..off + n] && rest[n..] == b[off + n..end];
    assert b[start..off + n] == b[start..off] + b[off..off + n];
  }

  lemma {:induction false} WalkedWhole(b: seq<Byte>, start: nat, off: nat, end: nat,
                    head: seq<Byte>, kept: seq<Byte>, rest: seq<Byte>)
    requires Walked(b, start, off, end, head, kept, rest)
    ensures b[..start] == head && b[start..end] == kept + rest
  {
    assert b[start..end] == b[start..off] + b[off..end];
  }

  /** Copying the tail over the `n` bytes at `off` leaves the rest after them. */
  lemma {:induction false} WalkedCut(b: seq<Byte>, c: seq<Byte>, start: nat, off: nat, end: nat,
                  head: seq<Byte>, kept: seq<Byte>, rest: seq<Byte>, n: nat)
    requires Walked(b, start, off, end, head, kept, rest) && n <= |rest|
    requires c == ArrayCopy(b, off + n, off, end - (off + n))
    ensures Walked(c, start, off, end - n, head, kept, rest[n..])
  {
    ArrayCopyAt(b, off + n, off, end - (off + n));
    assert c[..start] == b[..start];
    assert c[start..off] == b[start..off];
    assert c[off..end - n] == rest[n..];
  }

  /**
   * Strip as the loop of removeRTCPExtendedReports computes it: the bytes
   * kept and the XRs found so far, and the bytes still to walk.
   */
  function StripFrom(kept: seq<Byte>, found: seq<seq<Byte>>, rest: seq<Byte>,
                     parses: seq<Byte> -> bool): Stripped
    decreases |rest|
  {
    var n := LengthIfRtcp(rest);
    if n == -1 then Stripped(kept + rest, found)
    else if rest[1] == XR && parses(rest[..n]) then StripFrom(kept, found + [rest[..n]], rest[n..], parses)
    else StripFrom(kept + rest[..n], found, rest[n..], parses)
  }

  /** The accumulating walk ends where Strip does, after what was already kept and found. */
  lemma {:induction false} StripFromIsStrip(kept: seq<Byte>, found: seq<seq<Byte>>, rest: seq<Byte>,
                                            parses: seq<Byte> -> bool)
    ensures StripFrom(kept, found, rest, parses) ==
      Stripped(kept + Strip(rest, parses).kept, found + Strip(rest, parses).removed)
    decreases |rest|
  {
    var n := LengthIfRtcp(rest);
    if n != -1 {
      var s := Strip(rest[n..], parses);
      if rest[1] == XR && parses(rest[..n]) {
        StripFromIsStrip(kept, found + [rest[..n]], rest[n..], parses);
        assert (found + [rest[..n]]) + s.removed == found + ([rest[..n]] + s.removed);
      } else {
        StripFromIsStrip(kept + rest[..n], found, rest[n..], parses);
        assert (kept + rest[..n]) + s.kept == kept + (rest[..n] + s.kept);
      }
    } else {
      assert found + [] == found;
    }
  }

  /** Where the walk stops, what it kept and found is what Strip keeps and removes. */
  lemma {:induction false} StripFromDone(kept: seq<Byte>, found: seq<seq<Byte>>, rest: seq<Byte>, w: seq<Byte>,
                      parses: seq<Byte> -> bool)
    requires LengthIfRtcp(rest) == -1
    requires StripFrom(kept, found, rest, parses) == StripFrom([], [], w, parses)
    ensures kept + rest == Strip(w, parses).kept && found == Strip(w, parses).removed
  {
    StripFromIsStrip([], [], w, parses);
    assert [] + Strip(w, parses).kept == Strip(w, parses).kept;
    assert [] + Strip(w, parses).removed == Strip(w, parses).removed;
  }

  /**
   * The body of the XR branch of removeRTCPExtendedReports: the bytes after
   * the `n` bytes at `off` are copied down over them (`System.arraycopy`)
   * and the packet is shrunk by `n`.
   */
  method CutOut(pkt: RawPacket, off: nat, n: nat, ghost head: seq<Byte>, ghost kept: seq<Byte>, ghost rest: seq<Byte>)
    requires pkt.Valid() && Walked(pkt.buffer, pkt.offset, off, pkt.offset + pkt.length, head, kept, rest)
    requires 0 < n <= |rest|
    modifies pkt
    ensures pkt.Valid() && pkt.offset == old(pkt.offset) && |pkt.buffer| == old(|pkt.buffer|)
    ensures pkt.buffer == ArrayCopy(old(pkt.buffer), off + n, off, old(pkt.offset + pkt.length) - (off + n))
    ensures pkt.length == old(pkt.length) - n
    ensures Walked(pkt.buffer, pkt.offset, off, pkt.offset + pkt.length, head, kept, rest[n..])
  {
    var end := pkt.offset + pkt.length;
    var tailOff := off + n;
    var tailLen := end - tailOff;
    ghost var cut := ArrayCopy(pkt.buffer, tailOff, off, tailLen);
    WalkedCut(pkt.buffer, cut, pkt.offset, off, end, head, kept, rest, n);
    if tailLen > 0 {
      pkt.buffer := ArrayCopy(pkt.buffer, tailOff, off, tailLen);
    } else {
      assert cut == pkt.buffer;
    }
    pkt.Shrink(n);
  }

  /**
   * One turn of the loop of removeRTCPExtendedReports once an RTCP packet
   * of `rtcpPktLen` bytes is found at `off`: an XR that parses is cut out
   * and added to the list, any other packet is stepped over. The walk
   * still ends where it would have.
   */
  method TakeOrSkip(pkt: RawPacket, parses: seq<Byte> -> bool, off: nat, rtcpPktLen: int,
                    rtcpXRs: Option<seq<seq<Byte>>>, ghost head: seq<Byte>, ghost kept: seq<Byte>,
                    ghost found: seq<seq<Byte>>, ghost rest: seq<Byte>)
    returns (off': nat, rtcpXRs': Option<seq<seq<Byte>>>, ghost kept': seq<Byte>,
             ghost found': seq<seq<Byte>>, ghost rest': seq<Byte>)
    requires pkt.Valid() && Walked(pkt.buffer, pkt.offset, off, pkt.offset + pkt.length, head, kept, rest)
    requires rtcpPktLen == LengthIfRtcp(rest) && rtcpPktLen > 0
    requires ListOf(rtcpXRs) == found && (rtcpXRs.Some? ==> rtcpXRs.value != [])
    modifies pkt
    ensures pkt.Valid() && pkt.offset == old(pkt.offset) && |pkt.buffer| == old(|pkt.buffer|)
    ensures Walked(pkt.buffer, pkt.offset, off', pkt.offset + pkt.length, head, kept', rest')
    ensures StripFrom(kept', found', rest', parses) == StripFrom(kept, found, rest, parses)
    ensures ListOf(rtcpXRs') == found' && (rtcpXRs'.Some? ==> rtcpXRs'.value != [])
    ensures pkt.offset + pkt.length - off' < old(pkt.offset + pkt.length) - off
  {
    var buf := pkt.buffer;
    var pt := buf[off + 1];
    var xr := buf[off..off + rtcpPktLen];
    assert pt == rest[1] && xr == rest[..rtcpPktLen];
    rest' := rest[rtcpPktLen..];
    if pt == XR && parses(xr) {
      var oldOff := pkt.offset;
      CutOut(pkt, off, rtcpPktLen, head, kept, rest);
      var newOff := pkt.offset;
      off' := off - oldOff + newOff;
      var list := if rtcpXRs.None? then [] else rtcpXRs.value;
      rtcpXRs' := Some(list + [xr]);
      kept', found' := kept, found + [xr];
    } else {
      WalkedSkip(buf, pkt.offset, off, pkt.offset + pkt.length, head, kept, rest, rtcpPktLen);
      off', rtcpXRs' := off + rtcpPktLen, rtcpXRs;
      kept', found' := kept + xr, found;
    }
  }

  /**
   * removeRTCPExtendedReports(pkt): the packet keeps its offset, its bytes
   * become what Strip keeps (the tail copied left over each removed XR),
   * and the removed XRs are returned in order, or null when there are none.
   */
  method RemoveRtcpExtendedReports(pkt: RawPacket, parses: seq<Byte> -> bool)
    returns (rtcpXRs: Option<seq<seq<Byte>>>)
    requires pkt.Valid()
    modifies pkt
    ensures pkt.Valid() && |pkt.buffer| == old(|pkt.buffer|) && pkt.offset == old(pkt.offset)
    ensures pkt.Contents() == Strip(old(pkt.Contents()), parses).kept
    ensures rtcpXRs == (if Strip(old(pkt.Contents()), parses).removed == [] then None
                        else Some(Strip(old(pkt.Contents()), parses).removed))
    ensures pkt.buffer[..pkt.offset] == old(pkt.buffer[..pkt.offset])
  {
    ghost var start := pkt.offset;
    ghost var size := |pkt.buffer|;
    ghost var head := pkt.buffer[..start];
    ghost var contents := pkt.Contents();
    ghost var result := StripFrom([], [], contents, parses);
    ghost var kept: seq<Byte> := [];
    ghost var rest := contents;
    ghost var found: seq<seq<Byte>> := [];
    var off: nat := pkt.offset;
    rtcpXRs := None;
    while true
      invariant pkt.Valid() && |pkt.buffer| == size && pkt.offset == start
      invariant Walked(pkt.buffer, start, off, start + pkt.length, head, kept, rest)
      invariant StripFrom(kept, found, rest, parses) == result
      invariant ListOf(rtcpXRs) == found && (rtcpXRs.Some? ==> rtcpXRs.value != [])
      decreases start + pkt.length - off
    {
      var end := pkt.offset + pkt.length;
      if off >= end {
        assert rest == [];
        break;
      }
      var rtcpPktLen := GetLengthIfRtcp(Some(pkt.buffer), off, end - off);
      assert pkt.buffer[off..off + (end - off)] == rest;
      if rtcpPktLen <= 0 {
        assert LengthIfRtcp(rest) == -1;
        break;
      }
      off, rtcpXRs, kept, found, rest := TakeOrSkip(pkt, parses, off, rtcpPktLen, rtcpXRs, head, kept, found, rest);
    }
    WalkedWhole(pkt.buffer, start, off, start + pkt.length, head, kept, rest);
    StripFromDone(kept, found, rest, contents, parses);
  }

  /** A list that may be null, as a possibly empty list. */
  function ListOf<T>(xs: Option<seq<T>>): seq<T>
  {
    if xs.None? then [] else xs.value
  }
}
