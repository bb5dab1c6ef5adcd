/**
 * RTCPReports: the copy-on-write list of RTCPReportListeners, and the
 * per-SSRC round-trip times measured via sequence numbers and the times of
 * the first packet sent and received. Listeners are identified by an int.
 */
module RtcpReports {
  import opened JavaBase

  /** `map.containsKey(k) ? map.get(k) : 0`. */
  function GetOrZero(m: map<int, int>, k: int): (v: int)
    ensures k in m ==> v == m[k]
    ensures k !in m ==> v == 0
  {
    if k in m then m[k] else 0
  }

  /** After `put(k, v)`, k reads v and every other key reads as before. */
  lemma {:induction false} GetAfterPut(m: map<int, int>, k: int, v: int, other: int)
    ensures GetOrZero(m[k := v], k) == v
    ensures other != k ==> GetOrZero(m[k := v], other) == GetOrZero(m, other)
  {
  }

  /** The NullPointerException of adding a null listener. */
  datatype ListenerError = NullListener

  class Reports {
    var listeners: seq<int>
    var rttViaSeq: map<int, int>
    var firstReceivedTimes: map<int, int>
    var firstSentTimes: map<int, int>

    predicate Valid()
      reads this
    {
      Distinct(listeners)
    }

    constructor()
      ensures Valid() && listeners == [] && rttViaSeq == map[]
      ensures firstReceivedTimes == map[] && firstSentTimes == map[]
    {
      listeners := [];
      rttViaSeq := map[];
      firstReceivedTimes := map[];
      firstSentTimes := map[];
    }

    /** addRTCPReportListener: throws on null; adds a listener only once. */
    method AddRtcpReportListener(listener: Option<int>) returns (error: Option<ListenerError>)
      requires Valid()
      modifies this
      ensures Valid()
      ensures listener.None? ==> error == Some(NullListener) && listeners == old(listeners)
      ensures listener.Some? ==> error.None? && listeners == AppendIfAbsent(old(listeners), listener.value)
      ensures rttViaSeq == old(rttViaSeq) && firstReceivedTimes == old(firstReceivedTimes)
      ensures firstSentTimes == old(firstSentTimes)
    {
      if listener.None? {
        return Some(NullListener);
      }
      AppendIfAbsentDistinct(listeners, listener.value);
      if listener.value !in listeners {
        var newListeners := listeners + [listener.value];
        listeners := newListeners;
      }
      return None;
    }

    /**
     * removeRTCPReportListener: ignores null; removes the listener's one
     * occurrence when it is present.
     */
    method RemoveRtcpReportListener(listener: Option<int>)
      requires Valid()
      modifies this
      ensures Valid()
      ensures listeners == if listener.None? then old(listeners) else RemoveFirst(old(listeners), listener.value)
      ensures listener.Some? ==> listener.value !in listeners
      ensures rttViaSeq == old(rttViaSeq) && firstReceivedTimes == old(firstReceivedTimes)
      ensures firstSentTimes == old(firstSentTimes)
    {
      if listener.None? {
        return;
      }
      RemoveFirstDistinct(listeners, listener.value);
      var index := SeqIndexOf(listeners, listener.value);
      if index != -1 {
        if |listeners| == 1 {
          listeners := [];
        } else {
          listeners := RemoveFirst(listeners, listener.value);
        }
      }
    }

    /** getRTTViaSeq(ssrc): the last value set for the SSRC, else 0. */
    function GetRttViaSeq(ssrc: int): int
      reads this
    {
      GetOrZero(rttViaSeq, ssrc)
    }

    /** getFirstReceivedPacketTime(ssrc): the last time set for the SSRC, else 0. */
    function GetFirstReceivedPacketTime(ssrc: int): int
      reads this
    {
      GetOrZero(firstReceivedTimes, ssrc)
    }

    /** getFirstSentPacketTime(ssrc): the last time set for the SSRC, else 0. */
    function GetFirstSentPacketTime(ssrc: int): int
      reads this
    {
      GetOrZero(firstSentTimes, ssrc)
    }

    /** setRTTViaSeq(ssrc, value). */
    method SetRttViaSeq(ssrc: int, value: int)
      modifies this
      ensures rttViaSeq == old(rttViaSeq)[ssrc := value]
      ensures GetRttViaSeq(ssrc) == value
      ensures forall s :: s != ssrc ==> GetRttViaSeq(s) == old(GetRttViaSeq(s))
      ensures listeners == old(listeners) && firstReceivedTimes == old(firstReceivedTimes)
      ensures firstSentTimes == old(firstSentTimes)
    {
      rttViaSeq := rttViaSeq[ssrc := value];
    }

    /** setFirstReceivedPacketTime(ssrc, time). */
    method SetFirstReceivedPacketTime(ssrc: int, time: int)
      modifies this
      ensures firstReceivedTimes == old(firstReceivedTimes)[ssrc := time]
      ensures GetFirstReceivedPacketTime(ssrc) == time
      ensures forall s :: s != ssrc ==> GetFirstReceivedPacketTime(s) == old(GetFirstReceivedPacketTime(s))
      ensures listeners == old(listeners) && rttViaSeq == old(rttViaSeq) && firstSentTimes == old(firstSentTimes)
    {
      firstReceivedTimes := firstReceivedTimes[ssrc := time];
    }

    /** setFirstSentPacketTime(ssrc, time). */
    method SetFirstSentPacketTime(ssrc: int, time: int)
      modifies this
      ensures firstSentTimes == old(firstSentTimes)[ssrc := time]
      ensures GetFirstSentPacketTime(ssrc) == time
      ensures forall s :: s != ssrc ==> GetFirstSentPacketTime(s) == old(GetFirstSentPacketTime(s))
      ensures listeners == old(listeners) && rttViaSeq == old(rttViaSeq)
      ensures firstReceivedTimes == old(firstReceivedTimes)
    {
      firstSentTimes := firstSentTimes[ssrc := time];
    }
  }
}
