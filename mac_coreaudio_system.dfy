/**
 * MacCoreaudioSystem: the reordering of the device lists it reports (USB
 * devices first; capture and playback devices of the same hardware, judged
 * by name, at the same indices) and the counters of MacCoreaudio clients
 * inside OpenStream and UpdateAvailableDeviceList.
 */
module MacCoreaudioSystem {
  import opened JavaBase
  import opened DeviceInfo

  /** A java.util.List of devices that the reordering mutates in place. */
  class DeviceList {
    var items: seq<Device>

    constructor(items: seq<Device>)
      ensures this.items == items
    {
      this.items := items;
    }
  }

  // ---------------------------------------------------- bubbleUpUsbDevices

  const TRANSPORT_TYPE_USB: string := "USB"

  predicate IsUsb(d: Device)
  {
    IsSameTransportType(d, Some(TRANSPORT_TYPE_USB))
  }

  /** The USB devices of a list, in order. */
  function UsbDevices(devices: seq<Device>): seq<Device>
  {
    if devices == [] then []
    else
      var last := devices[|devices| - 1];
      UsbDevices(devices[..|devices| - 1]) + (if IsUsb(last) then [last] else [])
  }

  /** The other devices of a list, in order. */
  function NonUsbDevices(devices: seq<Device>): seq<Device>
  {
    if devices == [] then []
    else
      var last := devices[|devices| - 1];
      NonUsbDevices(devices[..|devices| - 1]) + (if IsUsb(last) then [] else [last])
  }

  /** The two parts hold together exactly the devices of the list. */
  lemma {:induction false} UsbSplitPermutes(devices: seq<Device>)
    ensures multiset(UsbDevices(devices)) + multiset(NonUsbDevices(devices)) == multiset(devices)
  {
    if devices != [] {
      var front, last := devices[..|devices| - 1], devices[|devices| - 1];
      UsbSplitPermutes(front);
      assert devices == front + [last];
      assert multiset(devices) == multiset(front) + multiset{last};
    }
  }

  /** Membership in the parts is decided by the transport type. */
  lemma {:induction false} UsbSplitMembers(devices: seq<Device>, d: Device)
    ensures d in UsbDevices(devices) <==> d in devices && IsUsb(d)
    ensures d in NonUsbDevices(devices) <==> d in devices && !IsUsb(d)
  {
    if devices != [] {
      var front, last := devices[..|devices| - 1], devices[|devices| - 1];
      UsbSplitMembers(front, d);
      assert devices == front + [last];
    }
  }

  /**
   * Putting the USB devices first is a stable partition: a permutation whose
   * front holds the USB devices and whose back the others, each part in
   * its original order.
   */
  lemma {:induction false} UsbFirstPartition(devices: seq<Device>)
    ensures multiset(UsbDevices(devices) + NonUsbDevices(devices)) == multiset(devices)
    ensures forall d :: d in UsbDevices(devices) ==> IsUsb(d)
    ensures forall d :: d in NonUsbDevices(devices) ==> !IsUsb(d)
  {
    UsbSplitPermutes(devices);
    forall d | d in UsbDevices(devices) ensures IsUsb(d) {
      UsbSplitMembers(devices, d);
    }
    forall d | d in NonUsbDevices(devices) ensures !IsUsb(d) {
      UsbSplitMembers(devices, d);
    }
  }

  /** bubbleUpUsbDevices(devices). */
  method BubbleUpUsbDevices(devices: DeviceList)
    modifies devices
    ensures devices.items == UsbDevices(old(devices.items)) + NonUsbDevices(old(devices.items))
  {
    if devices.items != [] {
      var all := devices.items;
      var kept: seq<Device> := [];
      var nonUsbDevices: seq<Device> := [];
      var i := 0;
      while i < |all|
        invariant 0 <= i <= |all|
        invariant kept == UsbDevices(all[..i]) && nonUsbDevices == NonUsbDevices(all[..i])
      {
        assert all[..i + 1][..i] == all[..i];
        var d := all[i];
        if !IsSameTransportType(d, Some(TRANSPORT_TYPE_USB)) {
          nonUsbDevices := nonUsbDevices + [d];
        } else {
          kept := kept + [d];
        }
        i := i + 1;
      }
      assert all[..i] == all;
      devices.items := kept + nonUsbDevices;
    } else {
      assert UsbDevices([]) + NonUsbDevices([]) == [];
    }
  }

  // ---------------------------------------------------- matchDevicesByName

  /** `\p{Space}`: the POSIX white-space characters. */
  predicate IsSpace(c: char)
  {
    c == ' ' || c == '\t' || c == '\n' || c as int == 0x0b || c as int == 0x0c || c == '\r'
  }

  /** Whether s begins with the word, ignoring ASCII case. */
  predicate StartsWithIgnoreCase(s: string, word: string)
  {
    |word| <= |s| && EqualsIgnoreCase(s[..|word|], word)
  }

  /**
   * `replaceAll("")` of the case-insensitive pattern
   * `array|headphones|microphone|speakers|\p{Space}|\(|\)`, scanning left
   * to right and trying the alternatives in order at each position.
   */
  function StripNoise(s: string): (r: string)
    decreases |s|
  {
    if s == [] then []
    else if StartsWithIgnoreCase(s, "array") then StripNoise(s[5..])
    else if StartsWithIgnoreCase(s, "headphones") then StripNoise(s[10..])
    else if StartsWithIgnoreCase(s, "microphone") then StripNoise(s[10..])
    else if StartsWithIgnoreCase(s, "speakers") then StripNoise(s[8..])
    else if IsSpace(s[0]) || s[0] == '(' || s[0] == ')' then StripNoise(s[1..])
    else [s[0]] + StripNoise(s[1..])
  }

  /** What is left has no white space and no parentheses, and is no longer. */
  lemma {:induction false} StripNoiseClean(s: string)
    ensures |StripNoise(s)| <= |s|
    ensures forall k :: 0 <= k < |StripNoise(s)| ==>
      !IsSpace(StripNoise(s)[k]) && StripNoise(s)[k] != '(' && StripNoise(s)[k] != ')'
    decreases |s|
  {
    if s != [] {
      StripNoiseClean(s[1..]);
      if |s| >= 5 { StripNoiseClean(s[5..]); }
      if |s| >= 8 { StripNoiseClean(s[8..]); }
      if |s| >= 10 { StripNoiseClean(s[10..]); }
    }
  }

  /** The key matching compares: the stripped name, None for a null name. */
  function Key(d: Device): Option<string>
  {
    if d.name.None? then None else Some(StripNoise(d.name.value))
  }

  /** The index of the first playback device with the key, or -1. */
  function FindMatch(key: string, playback: seq<Device>): (j: int)
    ensures -1 <= j < |playback|
    ensures j >= 0 ==> Key(playback[j]) == Some(key) && forall k :: 0 <= k < j ==> Key(playback[k]) != Some(key)
    ensures j == -1 ==> forall k :: 0 <= k < |playback| ==> Key(playback[k]) != Some(key)
  {
    if playback == [] then -1
    else if Key(playback[0]) == Some(key) then 0
    else
      var j := FindMatch(key, playback[1..]);
      assert forall k :: 1 <= k < |playback| ==> playback[k] == playback[1..][k - 1];
      if j == -1 then -1 else j + 1
  }

  /** The progress of matchDevicesByName's outer loop. */
  datatype Matching = Matching(
    matchedCapture: seq<Device>, matchedPlayback: seq<Device>,
    unmatchedCapture: seq<Device>, remainingPlayback: seq<Device>)

  /** The outer loop after the given capture devices. */
  function MatchPrefix(captures: seq<Device>, playback: seq<Device>): Matching
  {
    if captures == [] then Matching([], [], [], playback)
    else MatchStep(MatchPrefix(captures[..|captures| - 1], playback), captures[|captures| - 1])
  }

  /**
   * The remaining playback device a capture device takes: the first with
   * its key, or -1 when it has a null name, an empty key or no match.
   */
  function MatchIndex(c: Device, remaining: seq<Device>): (j: int)
    ensures -1 <= j < |remaining|
  {
    var key := Key(c);
    if key.None? || |key.value| == 0 then -1 else FindMatch(key.value, remaining)
  }

  /**
   * One pass of the outer loop: capture device c takes the first remaining
   * playback device with its key, when its name is not null, its key is not
   * empty and there is one.
   */
  function MatchStep(m: Matching, c: Device): Matching
  {
    var j := MatchIndex(c, m.remainingPlayback);
    if j < 0 then m.(unmatchedCapture := m.unmatchedCapture + [c])
    else Matching(m.matchedCapture + [c], m.matchedPlayback + [m.remainingPlayback[j]], m.unmatchedCapture,
                  m.remainingPlayback[..j] + m.remainingPlayback[j + 1..])
  }

  /** A pass moves c to one of the capture lists and at most one playback device between the others. */
  lemma {:induction false} MatchStepPermutes(m: Matching, c: Device)
    ensures var next := MatchStep(m, c);
      multiset(next.matchedCapture) + multiset(next.unmatchedCapture) ==
        multiset(m.matchedCapture) + multiset(m.unmatchedCapture) + multiset{c} &&
      multiset(next.matchedPlayback) + multiset(next.remainingPlayback) ==
        multiset(m.matchedPlayback) + multiset(m.remainingPlayback)
  {
    var j := MatchIndex(c, m.remainingPlayback);
    var next := MatchStep(m, c);
    if j < 0 {
      assert next == m.(unmatchedCapture := m.unmatchedCapture + [c]);
      assert multiset(m.unmatchedCapture + [c]) == multiset(m.unmatchedCapture) + multiset{c};
    } else {
      var rp := m.remainingPlayback;
      assert next == Matching(m.matchedCapture + [c], m.matchedPlayback + [rp[j]], m.unmatchedCapture, rp[..j] + rp[j + 1..]);
      assert multiset(m.matchedCapture + [c]) == multiset(m.matchedCapture) + multiset{c};
      assert multiset(m.matchedPlayback + [rp[j]]) == multiset(m.matchedPlayback) + multiset{rp[j]};
      SkipIndexMultiset(rp, j);
    }
  }

  /** The two lists after matchDevicesByName: matched pairs first, at equal indices. */
  function MatchDevicesByNameOf(captures: seq<Device>, playback: seq<Device>): (seq<Device>, seq<Device>)
  {
    var m := MatchPrefix(captures, playback);
    (m.matchedCapture + m.unmatchedCapture, m.matchedPlayback + m.remainingPlayback)
  }

  /**
   * The matched devices pair up one to one, at equal indices, with equal
   * and non-empty keys, so neither has a null name.
   */
  lemma {:induction false} MatchPrefixPairs(captures: seq<Device>, playback: seq<Device>)
    ensures var m := MatchPrefix(captures, playback);
      |m.matchedCapture| == |m.matchedPlayback| &&
      forall i :: 0 <= i < |m.matchedCapture| ==>
        Key(m.matchedCapture[i]) == Key(m.matchedPlayback[i]) &&
        Key(m.matchedCapture[i]).Some? && |Key(m.matchedCapture[i]).value| > 0
  {
    if captures != [] {
      MatchPrefixPairs(captures[..|captures| - 1], playback);
    }
  }

  /** Matching only moves capture devices: together they are the list it was. */
  lemma {:induction false} MatchPrefixPermutesCapture(captures: seq<Device>, playback: seq<Device>)
    ensures var m := MatchPrefix(captures, playback);
      multiset(m.matchedCapture) + multiset(m.unmatchedCapture) == multiset(captures)
  {
    if captures != [] {
      var front, c := captures[..|captures| - 1], captures[|captures| - 1];
      MatchPrefixPermutesCapture(front, playback);
      var m := MatchPrefix(front, playback);
      assert MatchPrefix(captures, playback) == MatchStep(m, c);
      MatchStepPermutes(m, c);
      LastMultiset(captures);
    }
  }

  /**
   * Matching only moves playback devices, so none is used twice: the
   * matched and the remaining ones together are the list it was.
   */
  lemma {:induction false} MatchPrefixPermutesPlayback(captures: seq<Device>, playback: seq<Device>)
    ensures var m := MatchPrefix(captures, playback);
      multiset(m.matchedPlayback) + multiset(m.remainingPlayback) == multiset(playback)
  {
    if captures != [] {
      var front := captures[..|captures| - 1];
      MatchPrefixPermutesPlayback(front, playback);
      MatchStepPermutes(MatchPrefix(front, playback), captures[|captures| - 1]);
    }
  }

  /** After matching, the lists begin with the pairs, in capture order. */
  lemma {:induction false} MatchedPairsFirst(captures: seq<Device>, playback: seq<Device>)
    ensures var m := MatchPrefix(captures, playback);
      var r := MatchDevicesByNameOf(captures, playback);
      multiset(r.0) == multiset(captures) && multiset(r.1) == multiset(playback) &&
      forall i :: 0 <= i < |m.matchedCapture| ==>
        i < |r.0| && i < |r.1| && r.0[i] == m.matchedCapture[i] && Key(r.0[i]) == Key(r.1[i])
  {
    MatchPrefixPairs(captures, playback);
    MatchPrefixPermutesCapture(captures, playback);
    MatchPrefixPermutesPlayback(captures, playback);
  }

  /** The inner loop: the first remaining playback device with the key. */
  method FindMatchingPlayback(key: string, playback: seq<Device>) returns (j: int)
    ensures j == FindMatch(key, playback)
  {
    j := 0;
    while j < |playback|
      invariant 0 <= j <= |playback|
      invariant forall k :: 0 <= k < j ==> Key(playback[k]) != Some(key)
    {
      var playbackName := playback[j].name;
      if playbackName.Some? && StripNoise(playbackName.value) == key {
        FindMatchFirst(key, playback, j);
        return;
      }
      j := j + 1;
    }
    j := -1;
  }

  /** The first index holding the key is FindMatch's answer. */
  lemma {:induction false} FindMatchFirst(key: string, playback: seq<Device>, j: nat)
    requires j < |playback| && Key(playback[j]) == Some(key)
    requires forall k :: 0 <= k < j ==> Key(playback[k]) != Some(key)
    ensures FindMatch(key, playback) == j
  {
  }

  /** One step of the outer loop. */
  method MatchOne(m: Matching, c: Device) returns (next: Matching)
    ensures var j := MatchIndex(c, m.remainingPlayback);
      next == if j < 0 then m.(unmatchedCapture := m.unmatchedCapture + [c])
        else Matching(m.matchedCapture + [c], m.matchedPlayback + [m.remainingPlayback[j]], m.unmatchedCapture,
                      m.remainingPlayback[..j] + m.remainingPlayback[j + 1..])
  {
    var j := -1;
    if c.name.Some? {
      var captureName := StripNoise(c.name.value);
      if |captureName| != 0 {
        j := FindMatchingPlayback(captureName, m.remainingPlayback);
      }
    }
    assert j == MatchIndex(c, m.remainingPlayback);
    if j >= 0 {
      var rp := m.remainingPlayback;
      return Matching(m.matchedCapture + [c], m.matchedPlayback + [rp[j]], m.unmatchedCapture, rp[..j] + rp[j + 1..]);
    }
    return m.(unmatchedCapture := m.unmatchedCapture + [c]);
  }

  /** matchDevicesByName(captureDevices, playbackDevices). */
  method MatchDevicesByName(captureDevices: DeviceList, playbackDevices: DeviceList)
    requires captureDevices != playbackDevices
    modifies captureDevices, playbackDevices
    ensures (captureDevices.items, playbackDevices.items) ==
      MatchDevicesByNameOf(old(captureDevices.items), old(playbackDevices.items))
  {
    var captures := captureDevices.items;
    var m := Matching([], [], [], playbackDevices.items);
    var i := 0;
    while i < |captures|
      invariant 0 <= i <= |captures|
      invariant m == MatchPrefix(captures[..i], old(playbackDevices.items))
    {
      assert captures[..i + 1][..i] == captures[..i];
      m := MatchOne(m, captures[i]);
      i := i + 1;
    }
    assert captures[..i] == captures;
    var capture := PrependAll(m.matchedCapture, m.unmatchedCapture);
    var playback := PrependAll(m.matchedPlayback, m.remainingPlayback);
    captureDevices.items := capture;
    playbackDevices.items := playback;
  }

  /** The `add(0, …)` loop, from the last matched device back to the first. */
  method PrependAll(front: seq<Device>, rest: seq<Device>) returns (r: seq<Device>)
    ensures r == front + rest
  {
    r := rest;
    var k := |front| - 1;
    while k >= 0
      invariant -1 <= k < |front|
      invariant r == front[k + 1..] + rest
    {
      assert front[k..] == [front[k]] + front[k + 1..];
      r := [front[k]] + r;
      k := k - 1;
    }
  }

  // ------------------------------------------------------------- counters

  /** The static counters of clients inside OpenStream and UpdateAvailableDeviceList. */
  class Counters {
    var openStream: int
    var updateAvailableDeviceList: int

    predicate Valid()
      reads this
    {
      openStream >= 0 && updateAvailableDeviceList >= 0
    }

    constructor()
      ensures Valid() && openStream == 0 && updateAvailableDeviceList == 0
    {
      openStream := 0;
      updateAvailableDeviceList := 0;
    }

    /**
     * willOpenStream: waits while a device-list update runs (reported as
     * `blocked`, leaving the counters as they are), then counts the client in.
     */
    method WillOpenStream() returns (blocked: bool)
      requires Valid()
      modifies this
      ensures Valid() && blocked == (old(updateAvailableDeviceList) > 0)
      ensures updateAvailableDeviceList == old(updateAvailableDeviceList)
      ensures openStream == if blocked then old(openStream) else old(openStream) + 1
    {
      if updateAvailableDeviceList > 0 {
        return true;
      }
      openStream := openStream + 1;
      return false;
    }

    /** didOpenStream: counts the client out, never below zero. */
    method DidOpenStream()
      modifies this
      ensures openStream == Max(old(openStream) - 1, 0) && openStream >= 0
      ensures updateAvailableDeviceList == old(updateAvailableDeviceList)
    {
      openStream := openStream - 1;
      if openStream < 0 {
        openStream := 0;
      }
    }

    /**
     * willUpdateAvailableDeviceList: waits while a stream is being opened
     * (reported as `blocked`), then counts the update in.
     */
    method WillUpdateAvailableDeviceList() returns (blocked: bool)
      requires Valid()
      modifies this
      ensures Valid() && blocked == (old(openStream) > 0)
      ensures openStream == old(openStream)
      ensures updateAvailableDeviceList ==
        if blocked then old(updateAvailableDeviceList) else old(updateAvailableDeviceList) + 1
    {
      if openStream > 0 {
        return true;
      }
      updateAvailableDeviceList := updateAvailableDeviceList + 1;
      return false;
    }

    /** didUpdateAvailableDeviceList: counts the update out, never below zero. */
    method DidUpdateAvailableDeviceList()
      modifies this
      ensures updateAvailableDeviceList == Max(old(updateAvailableDeviceList) - 1, 0) && updateAvailableDeviceList >= 0
      ensures openStream == old(openStream)
    {
      updateAvailableDeviceList := updateAvailableDeviceList - 1;
      if updateAvailableDeviceList < 0 {
        updateAvailableDeviceList := 0;
      }
    }
  }
}
