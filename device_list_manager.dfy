/**
 * DeviceListManager: the user's ordered device preferences (device names,
 * each with an ordered list of hardware UIDs), the list of active
 * (plugged-in) devices, the choice of the preferred active device, and the
 * preference string the preferences are saved as and loaded from.
 */
module DeviceLists {
  import opened JavaBase
  import opened DeviceInfo
  import StringUtils

  /** UID_DUMMY: written for a device name that has no UID. */
  const UID_DUMMY: string := "1234"
  /** NoneAudioSystem.LOCATOR_PROTOCOL: the preference that selects no device. */
  const NONE_LOCATOR_PROTOCOL: string := "none"
  const TRANSPORT_TYPE_BLUETOOTH: string := "Bluetooth"
  const TRANSPORT_TYPE_AIRPLAY: string := "AirPlay"

  // ------------------------------------------------------------ save modes

  datatype SaveDeviceMode = PutAtStart | PutAtStartIfAbsent | PutAtEndIfAbsent

  /** SaveDeviceMode.atStart. */
  predicate AtStart(mode: SaveDeviceMode)
  {
    mode == PutAtStart || mode == PutAtStartIfAbsent
  }

  /** SaveDeviceMode.preserveOrder. */
  predicate PreserveOrder(mode: SaveDeviceMode)
  {
    mode == PutAtStartIfAbsent || mode == PutAtEndIfAbsent
  }

  /**
   * What updateDeviceList does to one list (the names, or a name's UIDs):
   * an entry already present stays put under an order-preserving mode;
   * otherwise it is removed and inserted at the front or the back.
   */
  function Placed(xs: seq<string>, x: string, mode: SaveDeviceMode): seq<string>
  {
    if x in xs && PreserveOrder(mode) then xs
    else
      var rest := RemoveFirst(xs, x);
      if AtStart(mode) then [x] + rest else rest + [x]
  }

  /** Placing an entry keeps a list free of duplicates, and the entry is then on it. */
  lemma {:induction false} PlacedKeepsDistinct(xs: seq<string>, x: string, mode: SaveDeviceMode)
    requires Distinct(xs)
    ensures Distinct(Placed(xs, x, mode)) && x in Placed(xs, x, mode)
  {
    var rest := RemoveFirst(xs, x);
    RemoveFirstDistinct(xs, x);
    if !(x in xs && PreserveOrder(mode)) {
      if AtStart(mode) {
        PlacedFront(rest, x);
      } else {
        PlacedBack(rest, x);
      }
    }
  }

  /** Placing an entry adds exactly that entry to the list's elements. */
  lemma {:induction false} PlacedMembers(xs: seq<string>, x: string, mode: SaveDeviceMode)
    requires Distinct(xs)
    ensures forall y :: y in Placed(xs, x, mode) <==> y in xs || y == x
  {
    if !(x in xs && PreserveOrder(mode)) {
      var rest := RemoveFirst(xs, x);
      RemoveFirstMembers(xs, x);
      var r := if AtStart(mode) then [x] + rest else rest + [x];
      assert Placed(xs, x, mode) == r;
      forall y ensures y in r <==> y in rest || y == x {
      }
    }
  }

  /** Placing an entry leaves the other entries in their order. */
  lemma {:induction false} PlacedKeepsOthers(xs: seq<string>, x: string, mode: SaveDeviceMode)
    requires Distinct(xs)
    ensures RemoveFirst(Placed(xs, x, mode), x) == RemoveFirst(xs, x)
  {
    var rest := RemoveFirst(xs, x);
    RemoveFirstDistinct(xs, x);
    if !(x in xs && PreserveOrder(mode)) {
      if AtStart(mode) {
        PlacedFront(rest, x);
      } else {
        PlacedBack(rest, x);
      }
    }
  }

  /**
   * PUT_AT_START makes the entry the first one even when it was present;
   * the IF_ABSENT modes leave a present entry where it is; an absent entry
   * is added at the front or the back.
   */
  lemma {:induction false} PlacedByMode(xs: seq<string>, x: string, mode: SaveDeviceMode)
    ensures mode == PutAtStart ==> Placed(xs, x, mode)[0] == x
    ensures PreserveOrder(mode) && x in xs ==> Placed(xs, x, mode) == xs
    ensures x !in xs ==> Placed(xs, x, mode) == if AtStart(mode) then [x] + xs else xs + [x]
  {
  }

  /** The elements left by removing x from a duplicate-free list. */
  lemma {:induction false} RemoveFirstMembers(xs: seq<string>, x: string)
    requires Distinct(xs)
    ensures forall y :: y in RemoveFirst(xs, x) <==> y in xs && y != x
  {
    RemoveFirstDistinct(xs, x);
    RemoveFirstOthers(xs, x);
  }

  /** An absent entry put in front. */
  lemma {:induction false} PlacedFront(rest: seq<string>, x: string)
    requires Distinct(rest) && x !in rest
    ensures Distinct([x] + rest) && RemoveFirst([x] + rest, x) == rest
  {
    PrependDistinct(x, rest);
    RemoveFirstHead(x, rest);
  }

  /** An absent entry put at the back. */
  lemma {:induction false} PlacedBack(rest: seq<string>, x: string)
    requires Distinct(rest) && x !in rest
    ensures Distinct(rest + [x]) && RemoveFirst(rest + [x], x) == rest
  {
    var r := rest + [x];
    AppendIfAbsentDistinct(rest, x);
    assert SeqIndexOf(r, x) == |rest|;
    assert r[..|rest|] + r[|rest| + 1..] == rest;
  }

  // ------------------------------------------------------------ preferences

  /** mDevicePreferences and mDeviceUIDs. */
  datatype Preferences = Preferences(names: seq<string>, uids: map<string, seq<string>>)

  /** `mDeviceUIDs.get(name)`, an absent name read as an empty list. */
  function UidsOf(uids: map<string, seq<string>>, name: string): seq<string>
  {
    if name in uids then uids[name] else []
  }

  /** No name is preferred twice and no name lists a UID twice. */
  predicate WellFormed(p: Preferences)
  {
    Distinct(p.names) && forall n :: n in p.uids ==> Distinct(p.uids[n])
  }

  /** A device updateDeviceList saves: one whose name and UID are both non-null. */
  predicate Saved(d: Device)
  {
    d.name.Some? && d.uid.Some?
  }

  /** The device's name is a preference and its UID is on that name's list. */
  predicate Known(p: Preferences, d: Device)
  {
    Saved(d) ==> d.name.value in p.names && d.uid.value in UidsOf(p.uids, d.name.value)
  }

  /** updateDeviceList(device, mode); a device with a null name or UID changes nothing. */
  function Update(p: Preferences, d: Device, mode: SaveDeviceMode): Preferences
  {
    if d.name.None? || d.uid.None? then p
    else
      var name := d.name.value;
      Preferences(Placed(p.names, name, mode), p.uids[name := Placed(UidsOf(p.uids, name), d.uid.value, mode)])
  }

  /**
   * updateDeviceList keeps the preferences free of duplicates, makes the
   * device known, forgets nothing known before, adds only the device's name
   * and touches only that name's UIDs; a device with a null name or UID
   * changes nothing, and under an IF_ABSENT mode neither does a known one.
   */
  lemma {:induction false} UpdateWellFormed(p: Preferences, d: Device, mode: SaveDeviceMode)
    requires WellFormed(p)
    ensures var q := Update(p, d, mode);
      WellFormed(q) && Known(q, d) &&
      (forall n :: d.name != Some(n) ==> UidsOf(q.uids, n) == UidsOf(p.uids, n)) &&
      (forall n :: n in q.names <==> n in p.names || (Saved(d) && d.name == Some(n)))
    ensures forall e :: Known(p, e) ==> Known(Update(p, d, mode), e)
    ensures !Saved(d) ==> Update(p, d, mode) == p
    ensures PreserveOrder(mode) && Known(p, d) ==> Update(p, d, mode) == p
  {
    if Saved(d) {
      UpdatePlaces(p, d, mode);
      UpdateRemembers(p, d, mode);
      if PreserveOrder(mode) && Known(p, d) {
        assert Update(p, d, mode).uids == p.uids;
      }
    }
  }

  /** The name list and the device's UID list after updateDeviceList. */
  lemma {:induction false} UpdatePlaces(p: Preferences, d: Device, mode: SaveDeviceMode)
    requires WellFormed(p) && Saved(d)
    ensures var q := Update(p, d, mode);
      WellFormed(q) && Known(q, d) &&
      (forall n :: n != d.name.value ==> UidsOf(q.uids, n) == UidsOf(p.uids, n)) &&
      (forall n :: n in q.names <==> n in p.names || n == d.name.value)
  {
    var name, uid := d.name.value, d.uid.value;
    var list := UidsOf(p.uids, name);
    var q := Update(p, d, mode);
    assert q == Preferences(Placed(p.names, name, mode), p.uids[name := Placed(list, uid, mode)]);
    assert Distinct(list);
    PlacedKeepsDistinct(p.names, name, mode);
    PlacedKeepsDistinct(list, uid, mode);
    PlacedMembers(p.names, name, mode);
    assert UidsOf(q.uids, name) == Placed(list, uid, mode);
  }

  /** Nothing known before updateDeviceList is forgotten. */
  lemma {:induction false} UpdateRemembers(p: Preferences, d: Device, mode: SaveDeviceMode)
    requires WellFormed(p) && Saved(d)
    ensures forall e :: Known(p, e) ==> Known(Update(p, d, mode), e)
  {
    var q := Update(p, d, mode);
    var list := UidsOf(p.uids, d.name.value);
    PlacedMembers(p.names, d.name.value, mode);
    PlacedMembers(list, d.uid.value, mode);
    forall e | Known(p, e) ensures Known(q, e) {
      if Saved(e) && e.name == d.name {
        assert e.uid.value in list;
      }
    }
  }

  // ------------------------------------------------------------ reordering

  /**
   * The mode reorderDevicePreferences saves an active device with: a known
   * name goes to the front only when it is preferred over the selected
   * device's name; a new name goes to the front only when the preferences
   * were empty and the device is neither Bluetooth nor AirPlay.
   */
  function ModeFor(p: Preferences, d: Device, selected: Option<Device>, wasEmpty: bool): SaveDeviceMode
  {
    var atStart :=
      if d.name.Some? && d.name.value in p.names then
        selected.Some? && SeqIndexOf(p.names, d.name.value) < NameIndex(p.names, selected.value.name)
      else
        wasEmpty && !IsSameTransportType(d, Some(TRANSPORT_TYPE_BLUETOOTH)) &&
        !IsSameTransportType(d, Some(TRANSPORT_TYPE_AIRPLAY));
    if atStart then PutAtStartIfAbsent else PutAtEndIfAbsent
  }

  /** `names.indexOf(name)` for a possibly null name, which no list of names holds. */
  function NameIndex(names: seq<string>, name: Option<string>): (r: int)
    ensures -1 <= r < |names|
    ensures r == -1 <==> name.None? || name.value !in names
    ensures r >= 0 ==> names[r] == name.value && name.value !in names[..r]
  {
    if name.None? then -1 else SeqIndexOf(names, name.value)
  }

  /** The preferences once the loop has saved active[i - 1], ..., active[0], last to first. */
  function Reordered(p: Preferences, active: seq<Device>, i: nat, selected: Option<Device>, wasEmpty: bool): Preferences
    requires i <= |active|
    decreases i
  {
    if i == 0 then p
    else
      var d := active[i - 1];
      Reordered(Update(p, d, ModeFor(p, d, selected, wasEmpty)), active, i - 1, selected, wasEmpty)
  }

  /** Some of active[..i] has a UID and the (non-null) name n. */
  predicate ActiveNamed(active: seq<Device>, i: nat, n: string)
    requires i <= |active|
  {
    exists k :: 0 <= k < i && active[k].uid.Some? && active[k].name == Some(n)
  }

  lemma {:induction false} ActiveNamedStep(active: seq<Device>, i: nat, n: string)
    requires 0 < i <= |active|
    ensures ActiveNamed(active, i, n) <==>
      ActiveNamed(active, i - 1, n) || (active[i - 1].uid.Some? && active[i - 1].name == Some(n))
  {
    if ActiveNamed(active, i, n) && !ActiveNamed(active, i - 1, n) {
      var k :| 0 <= k < i && active[k].uid.Some? && active[k].name == Some(n);
      assert k == i - 1;
    }
  }

  /**
   * Reordering makes every active device with a name and a UID known,
   * forgets nothing, keeps the preferences free of duplicates and adds
   * exactly the names of the active devices that have a name and a UID.
   */
  lemma {:induction false} ReorderedKnowsActive(p: Preferences, active: seq<Device>, i: nat, selected: Option<Device>, wasEmpty: bool)
    requires i <= |active| && WellFormed(p)
    ensures var r := Reordered(p, active, i, selected, wasEmpty);
      WellFormed(r) && (forall k :: 0 <= k < i ==> Known(r, active[k])) &&
      (forall e :: Known(p, e) ==> Known(r, e)) &&
      (forall n :: n in r.names <==> n in p.names || ActiveNamed(active, i, n))
    decreases i
  {
    if i > 0 {
      var d := active[i - 1];
      var q := Update(p, d, ModeFor(p, d, selected, wasEmpty));
      UpdateWellFormed(p, d, ModeFor(p, d, selected, wasEmpty));
      ReorderedKnowsActive(q, active, i - 1, selected, wasEmpty);
      forall n ensures ActiveNamed(active, i, n) <==>
        ActiveNamed(active, i - 1, n) || (active[i - 1].uid.Some? && active[i - 1].name == Some(n))
      {
        ActiveNamedStep(active, i, n);
      }
    }
  }

  /** When every active device is already known, reordering changes nothing. */
  lemma {:induction false} ReorderedAllKnown(p: Preferences, active: seq<Device>, i: nat, selected: Option<Device>, wasEmpty: bool)
    requires i <= |active| && WellFormed(p)
    requires forall k :: 0 <= k < i ==> Known(p, active[k])
    ensures Reordered(p, active, i, selected, wasEmpty) == p
    decreases i
  {
    if i > 0 {
      var d := active[i - 1];
      UpdateWellFormed(p, d, ModeFor(p, d, selected, wasEmpty));
      ReorderedAllKnown(p, active, i - 1, selected, wasEmpty);
    }
  }

  /** Reordering twice gives what reordering once gives, whatever the selection and emptiness then. */
  lemma {:induction false} ReorderIdempotent(p: Preferences, active: seq<Device>, selected: Option<Device>, wasEmpty: bool,
                                             selected2: Option<Device>, wasEmpty2: bool)
    requires WellFormed(p)
    ensures var r := Reordered(p, active, |active|, selected, wasEmpty);
      Reordered(r, active, |active|, selected2, wasEmpty2) == r
  {
    ReorderedKnowsActive(p, active, |active|, selected, wasEmpty);
    ReorderedAllKnown(Reordered(p, active, |active|, selected, wasEmpty), active, |active|, selected2, wasEmpty2);
  }

  // ------------------------------------------------------------ the preferred device

  /** The active devices with the given name, in order. */
  function Named(active: seq<Device>, name: string): (r: seq<Device>)
  {
    if active == [] then []
    else
      var d := active[|active| - 1];
      Named(active[..|active| - 1], name) + (if d.name == Some(name) then [d] else [])
  }

  /** One more device adds it to the same-named ones when its name matches. */
  lemma {:induction false} NamedStep(active: seq<Device>, i: nat, name: string)
    requires 0 < i <= |active|
    ensures active[..i][..i - 1] == active[..i - 1]
    ensures Named(active[..i], name) ==
      Named(active[..i - 1], name) + (if active[i - 1].name == Some(name) then [active[i - 1]] else [])
  {
    PrefixSnoc(active, i);
  }

  lemma {:induction false} NamedMembers(active: seq<Device>, name: string)
    ensures forall d :: d in Named(active, name) <==> d in active && d.name == Some(name)
  {
    if active != [] {
      NamedMembers(active[..|active| - 1], name);
      assert active == active[..|active| - 1] + [active[|active| - 1]];
    }
  }

  /** The first of the matching devices whose UID is uid. */
  function WithUid(matching: seq<Device>, uid: string): (r: Option<Device>)
  {
    if matching == [] then None
    else if matching[0].uid == Some(uid) then Some(matching[0])
    else WithUid(matching[1..], uid)
  }

  /** The UID loop of getPreferredDevice: the first UID, in order, that some matching device has. */
  function ByUid(uids: seq<string>, matching: seq<Device>): Option<Device>
  {
    if uids == [] then None
    else
      var w := WithUid(matching, uids[0]);
      if w.Some? then w else ByUid(uids[1..], matching)
  }

  /** The device chosen among those matching a preferred name. */
  function Choose(matching: seq<Device>, uids: seq<string>): Device
    requires matching != []
  {
    var b := ByUid(uids, matching);
    if b.Some? then b.value else matching[0]
  }

  /** getPreferredDevice over the preferences and the active devices. */
  function PreferredOf(names: seq<string>, uids: map<string, seq<string>>, active: seq<Device>): Option<Device>
  {
    if names == [] then None
    else if names[0] == NONE_LOCATOR_PROTOCOL then None
    else
      var matching := Named(active, names[0]);
      if matching != [] then Some(Choose(matching, UidsOf(uids, names[0])))
      else PreferredOf(names[1..], uids, active)
  }

  lemma {:induction false} WithUidFirst(matching: seq<Device>, uid: string)
    ensures WithUid(matching, uid).Some? <==> exists k :: 0 <= k < |matching| && matching[k].uid == Some(uid)
    ensures WithUid(matching, uid).Some? ==>
      WithUid(matching, uid).value in matching && WithUid(matching, uid).value.uid == Some(uid)
  {
    if matching != [] {
      WithUidFirst(matching[1..], uid);
      if WithUid(matching[1..], uid).Some? {
        var k :| 0 <= k < |matching[1..]| && matching[1..][k].uid == Some(uid);
        assert matching[k + 1].uid == Some(uid);
      }
      if exists k :: 0 <= k < |matching| && matching[k].uid == Some(uid) {
        var k :| 0 <= k < |matching| && matching[k].uid == Some(uid);
        if k > 0 { assert matching[1..][k - 1].uid == Some(uid); }
      }
    }
  }

  /** Some device of the list carries the j-th UID. */
  predicate CarriesUid(matching: seq<Device>, uids: seq<string>, j: int)
    requires 0 <= j < |uids|
  {
    exists k :: 0 <= k < |matching| && matching[k].uid == Some(uids[j])
  }

  lemma {:induction false} ByUidFirst(uids: seq<string>, matching: seq<Device>)
    ensures ByUid(uids, matching).Some? <==> exists j :: 0 <= j < |uids| && CarriesUid(matching, uids, j)
    ensures ByUid(uids, matching).Some? ==>
      ByUid(uids, matching).value in matching &&
      exists j :: 0 <= j < |uids| && ByUid(uids, matching).value.uid == Some(uids[j]) &&
        forall j' :: 0 <= j' < j ==> !CarriesUid(matching, uids, j')
  {
    if uids != [] {
      WithUidFirst(matching, uids[0]);
      ByUidFirst(uids[1..], matching);
      var tail := uids[1..];
      if WithUid(matching, uids[0]).None? {
        assert !CarriesUid(matching, uids, 0);
        if ByUid(tail, matching).Some? {
          var j :| 0 <= j < |tail| && ByUid(tail, matching).value.uid == Some(tail[j]) &&
            forall j' :: 0 <= j' < j ==> !CarriesUid(matching, tail, j');
          assert uids[j + 1] == tail[j];
          forall j' | 0 <= j' < j + 1 ensures !CarriesUid(matching, uids, j') {
            if j' > 0 {
              assert !CarriesUid(matching, tail, j' - 1);
              assert uids[j'] == tail[j' - 1];
            }
          }
          var ks := CarriesUid(matching, tail, j);
        }
        if exists j :: 0 <= j < |uids| && CarriesUid(matching, uids, j) {
          var j :| 0 <= j < |uids| && CarriesUid(matching, uids, j);
          assert j > 0;
          assert tail[j - 1] == uids[j];
          assert CarriesUid(matching, tail, j - 1);
        }
        if exists j :: 0 <= j < |tail| && CarriesUid(matching, tail, j) {
          var j :| 0 <= j < |tail| && CarriesUid(matching, tail, j);
          assert tail[j] == uids[j + 1];
          assert CarriesUid(matching, uids, j + 1);
        }
      } else {
        assert CarriesUid(matching, uids, 0);
      }
    }
  }

  /**
   * Among the devices matching a name, the one on the earliest of the
   * name's UIDs wins; when none of them carries a listed UID, the first
   * matching device does.
   */
  lemma {:induction false} ChooseFirstByUid(matching: seq<Device>, uids: seq<string>)
    requires matching != []
    ensures Choose(matching, uids) in matching
    ensures (exists j :: 0 <= j < |uids| && CarriesUid(matching, uids, j)) ==>
      exists j :: 0 <= j < |uids| && Choose(matching, uids).uid == Some(uids[j]) &&
        forall j' :: 0 <= j' < j ==> !CarriesUid(matching, uids, j')
    ensures !(exists j :: 0 <= j < |uids| && CarriesUid(matching, uids, j)) ==> Choose(matching, uids) == matching[0]
  {
    ByUidFirst(uids, matching);
  }

  /** A preferred name is decisive when it is "none" or some active device has it. */
  predicate Decisive(names: seq<string>, active: seq<Device>, k: int)
    requires 0 <= k < |names|
  {
    names[k] == NONE_LOCATOR_PROTOCOL || Named(active, names[k]) != []
  }

  /** The index of the first decisive name, or -1. */
  function FirstDecisive(names: seq<string>, active: seq<Device>): (r: int)
    ensures -1 <= r < |names| && (r >= 0 ==> Decisive(names, active, r))
  {
    if names == [] then -1
    else if Decisive(names, active, 0) then 0
    else
      var k := FirstDecisive(names[1..], active);
      if k == -1 then -1 else k + 1
  }

  /** FirstDecisive finds the first decisive name, and -1 means there is none. */
  lemma {:induction false} FirstDecisiveIsFirst(names: seq<string>, active: seq<Device>)
    ensures var k := FirstDecisive(names, active);
      -1 <= k < |names| &&
      (k == -1 <==> forall j :: 0 <= j < |names| ==> !Decisive(names, active, j)) &&
      (k >= 0 ==> Decisive(names, active, k) && forall j :: 0 <= j < k ==> !Decisive(names, active, j))
  {
    if names != [] && !Decisive(names, active, 0) {
      var tail := names[1..];
      FirstDecisiveIsFirst(tail, active);
      forall j | 0 <= j < |tail| ensures Decisive(tail, active, j) == Decisive(names, active, j + 1) {
        assert tail[j] == names[j + 1];
      }
      forall j | 0 < j < |names| ensures Decisive(names, active, j) == Decisive(tail, active, j - 1) {
        assert tail[j - 1] == names[j];
      }
    }
  }

  /**
   * The preferred device comes from the first decisive name: none when that
   * name is "none" or no name is decisive, otherwise the device chosen
   * among the active devices with that name.
   */
  lemma {:induction false} PreferredFromFirstDecisive(names: seq<string>, uids: map<string, seq<string>>, active: seq<Device>)
    ensures var k := FirstDecisive(names, active);
      PreferredOf(names, uids, active) ==
        if k == -1 || names[k] == NONE_LOCATOR_PROTOCOL then None
        else Some(Choose(Named(active, names[k]), UidsOf(uids, names[k])))
  {
    FirstDecisiveIsFirst(names, active);
    if names != [] && !Decisive(names, active, 0) {
      var tail := names[1..];
      PreferredFromFirstDecisive(tail, uids, active);
      var k := FirstDecisive(tail, active);
      if k != -1 {
        assert names[k + 1] == tail[k];
      }
    }
  }

  /** The preferred device is an active device carrying a preferred name. */
  lemma {:induction false} PreferredIsActive(names: seq<string>, uids: map<string, seq<string>>, active: seq<Device>)
    ensures PreferredOf(names, uids, active).Some? ==>
      PreferredOf(names, uids, active).value in active && PreferredOf(names, uids, active).value.name.Some? &&
      PreferredOf(names, uids, active).value.name.value in names
  {
    if names != [] && names[0] != NONE_LOCATOR_PROTOCOL {
      var matching := Named(active, names[0]);
      NamedMembers(active, names[0]);
      if matching != [] {
        ChooseFirstByUid(matching, UidsOf(uids, names[0]));
      } else {
        PreferredIsActive(names[1..], uids, active);
      }
    }
  }

  // ------------------------------------------------------------ active devices

  /** The non-null entries of a device list, in order. */
  function NonNull(devices: seq<Option<Device>>): seq<Device>
  {
    if devices == [] then []
    else
      var d := devices[|devices| - 1];
      NonNull(devices[..|devices| - 1]) + (if d.Some? then [d.value] else [])
  }

  /** Filtering distributes over concatenation, so the entries keep their order. */
  lemma {:induction false} NonNullConcat(xs: seq<Option<Device>>, ys: seq<Option<Device>>)
    ensures NonNull(xs + ys) == NonNull(xs) + NonNull(ys)
    decreases |ys|
  {
    if ys != [] {
      var front := ys[..|ys| - 1];
      NonNullConcat(xs, front);
      assert (xs + ys)[..|xs + ys| - 1] == xs + front;
    } else {
      assert xs + ys == xs;
    }
  }

  /** A device is kept exactly when it is a non-null entry. */
  lemma {:induction false} NonNullMembers(devices: seq<Option<Device>>)
    ensures forall d :: d in NonNull(devices) <==> Some(d) in devices
    ensures |NonNull(devices)| <= |devices|
  {
    if devices != [] {
      NonNullMembers(devices[..|devices| - 1]);
      assert devices == devices[..|devices| - 1] + [devices[|devices| - 1]];
    }
  }

  // ------------------------------------------------------------ the preference string

  /** The text between two saved entries. */
  const ENTRY_SEPARATOR: string := "\", \""
  const NAME_MARKER: string := "name:"
  const UID_MARKER: string := " uid:"

  /** A UID list as saved: joined by ';', or the dummy UID when it is empty. */
  function UidText(list: seq<string>): string
  {
    if list == [] then UID_DUMMY else JoinWith(list, ";")
  }

  /** getUidPreferenceString(name): the text of the name's UID list, an absent name having none. */
  function UidPreferenceString(uids: map<string, seq<string>>, name: string): string
  {
    UidText(UidsOf(uids, name))
  }

  /** The saved entry of one preferred name. */
  function Entry(uids: map<string, seq<string>>, name: string): string
  {
    NAME_MARKER + name + UID_MARKER + UidPreferenceString(uids, name)
  }

  function Entries(names: seq<string>, uids: map<string, seq<string>>): (r: seq<string>)
    ensures |r| == |names| && forall i :: 0 <= i < |names| ==> r[i] == Entry(uids, names[i])
  {
    seq(|names|, i requires 0 <= i < |names| => Entry(uids, names[i]))
  }

  /** The entries of one more name. */
  lemma {:induction false} EntriesSnoc(names: seq<string>, uids: map<string, seq<string>>, i: nat)
    requires i < |names|
    ensures Entries(names[..i + 1], uids) == Entries(names[..i], uids) + [Entry(uids, names[i])]
  {
  }

  /** getPreferenceString(): `["name:N uid:U1;U2", "name:M uid:V"]`. */
  function PreferenceString(names: seq<string>, uids: map<string, seq<string>>): string
  {
    "[\"" + JoinWith(Entries(names, uids), ENTRY_SEPARATOR) + "\"]"
  }

  /** No char of s[i..j] ends a line. */
  predicate OnOneLine(s: string, i: int, j: int)
    requires 0 <= i <= j <= |s|
  {
    forall k :: i <= k < j ==> !IsLineTerminator(s[k])
  }

  /** The end of the line that position i is on: the first line terminator at or after i, or |s|. */
  function LineEnd(s: string, i: nat): (e: nat)
    requires i <= |s|
    ensures i <= e <= |s| && OnOneLine(s, i, e) && (e < |s| ==> IsLineTerminator(s[e]))
    decreases |s| - i
  {
    if i == |s| || IsLineTerminator(s[i]) then i else LineEnd(s, i + 1)
  }

  /** " uid:" occurs at q with at least one char of the line ending at e after it. */
  predicate MarkerBefore(s: string, q: int, e: int)
  {
    q + 5 < e && OccursAt(s, UID_MARKER, q)
  }

  /**
   * Where the greedy group 1 of `name:(.+) uid:(.+)` stops: the largest
   * position in (lo, q] holding a marker with group 2 after it.
   */
  function LastMarker(s: string, lo: nat, q: int, e: nat): (r: Option<nat>)
    requires e <= |s|
    ensures r.Some? ==>
      lo < r.value <= q && MarkerBefore(s, r.value, e) &&
      forall k :: r.value < k <= q ==> !MarkerBefore(s, k, e)
    ensures r.None? ==> forall k :: lo < k <= q ==> !MarkerBefore(s, k, e)
    decreases q
  {
    if q <= lo then None
    else if MarkerBefore(s, q, e) then Some(q)
    else LastMarker(s, lo, q - 1, e)
  }

  /** The two groups of the match of `name:(.+) uid:(.+)` starting at p, if there is one. */
  function MatchAt(s: string, p: nat): Option<(string, string)>
    requires p <= |s|
  {
    if !OccursAt(s, NAME_MARKER, p) then None
    else
      var e := LineEnd(s, p + 5);
      var q := LastMarker(s, p + 5, e, e);
      if q.None? then None else Some((s[p + 5..q.value], s[q.value + 5..e]))
  }

  /** `Matcher.find()` from position p: the leftmost match. */
  function FindNameUid(s: string, p: nat): Option<(string, string)>
    requires p <= |s|
    decreases |s| - p
  {
    var m := MatchAt(s, p);
    if m.Some? then m else if p == |s| then None else FindNameUid(s, p + 1)
  }

  /** `replace("[", "").replace("]", "").split(";")` on group 2. */
  function UidList(text: string): seq<string>
  {
    JavaSplit(StripChar(StripChar(text, '['), ']'), ';')
  }

  /** Adds each of ys that is not on the list yet, in order. */
  function AddAllAbsent(xs: seq<string>, ys: seq<string>): seq<string>
  {
    if ys == [] then xs else AppendIfAbsent(AddAllAbsent(xs, ys[..|ys| - 1]), ys[|ys| - 1])
  }

  /** Adding absent UIDs keeps a list free of duplicates, keeps its order and adds exactly the new UIDs. */
  lemma {:induction false} AddAllAbsentDistinct(xs: seq<string>, ys: seq<string>)
    requires Distinct(xs)
    ensures var r := AddAllAbsent(xs, ys);
      |r| >= |xs| && Distinct(r) && r[..|xs|] == xs && forall y :: y in r <==> y in xs || y in ys
  {
    if ys != [] {
      var front := ys[..|ys| - 1];
      AddAllAbsentDistinct(xs, front);
      var r0 := AddAllAbsent(xs, front);
      AppendIfAbsentDistinct(r0, ys[|ys| - 1]);
      assert ys == front + [ys[|ys| - 1]];
      var r := AddAllAbsent(xs, ys);
      assert r[..|r0|] == r0;
      assert r[..|xs|] == r0[..|xs|];
    }
  }

  /** Adding a duplicate-free list to an empty one gives that list. */
  lemma {:induction false} AddAllAbsentFresh(ys: seq<string>)
    requires Distinct(ys)
    ensures AddAllAbsent([], ys) == ys
  {
    if ys != [] {
      var front := ys[..|ys| - 1];
      assert Distinct(front) by {
        forall i, j | 0 <= i < j < |front| ensures front[i] != front[j] {
          assert front[i] == ys[i] && front[j] == ys[j];
        }
      }
      AddAllAbsentFresh(front);
      assert ys[|ys| - 1] !in front by {
        forall i | 0 <= i < |front| ensures front[i] != ys[|ys| - 1] {
          assert front[i] == ys[i];
        }
      }
      assert ys == front + [ys[|ys| - 1]];
    }
  }

  /** What parseDeviceListString does with one entry. */
  function ParseEntry(p: Preferences, entry: string): Preferences
  {
    var m := FindNameUid(entry, 0);
    if m.None? then p
    else
      var name := m.value.0;
      Preferences(AppendIfAbsent(p.names, name), p.uids[name := AddAllAbsent(UidsOf(p.uids, name), UidList(m.value.1))])
  }

  /** The preferences after parsing each entry in order. */
  function ParseEntries(p: Preferences, entries: seq<string>): Preferences
  {
    if entries == [] then p else ParseEntry(ParseEntries(p, entries[..|entries| - 1]), entries[|entries| - 1])
  }

  /** One more entry is parsed into what the earlier ones gave. */
  lemma {:induction false} ParseEntriesStep(p: Preferences, entries: seq<string>, i: nat)
    requires i < |entries|
    ensures ParseEntries(p, entries[..i + 1]) == ParseEntry(ParseEntries(p, entries[..i]), entries[i])
  {
    PrefixSnoc(entries, i + 1);
  }

  /** The StringIndexOutOfBoundsException of cutting the ends off a too short string. */
  datatype ParseError = StringIndexOutOfBounds

  /** The entries of a preference string; None when it is too short for `substring(2, length - 2)`. */
  function EntriesOf(s: string): Option<seq<string>>
  {
    if |s| < 4 then None else Some(JavaSplitOn(s[2..|s| - 2], ENTRY_SEPARATOR))
  }

  /** Parsing an entry never adds a duplicate name or a duplicate UID. */
  lemma {:induction false} ParseEntryWellFormed(p: Preferences, entry: string)
    requires WellFormed(p)
    ensures WellFormed(ParseEntry(p, entry))
  {
    var m := FindNameUid(entry, 0);
    if m.Some? {
      var name := m.value.0;
      AppendIfAbsentDistinct(p.names, name);
      var list := UidsOf(p.uids, name);
      assert Distinct(list);
      AddAllAbsentDistinct(list, UidList(m.value.1));
    }
  }

  /** Parsing any list of entries keeps the preferences free of duplicates. */
  lemma {:induction false} ParseEntriesWellFormed(p: Preferences, entries: seq<string>)
    requires WellFormed(p)
    ensures WellFormed(ParseEntries(p, entries))
  {
    if entries != [] {
      ParseEntriesWellFormed(p, entries[..|entries| - 1]);
      ParseEntryWellFormed(ParseEntries(p, entries[..|entries| - 1]), entries[|entries| - 1]);
    }
  }

  // ------------------------------------------------------------ saving and loading back

  /** A char that the saved form can carry inside a name or a UID. */
  predicate Plain(c: char)
  {
    c != '"' && c != '[' && c != ']' && !IsLineTerminator(c)
  }

  /** A name that survives saving and loading: non-empty, on one line, with no quote or bracket. */
  predicate StorableName(s: string)
  {
    |s| >= 1 && forall k :: 0 <= k < |s| ==> Plain(s[k])
  }

  /** " uid:" does not occur in s. */
  predicate NoUidMarker(s: string)
  {
    forall i :: 0 <= i < |s| ==> !OccursAt(s, UID_MARKER, i)
  }

  /** A UID that survives saving and loading: a storable name with no ';' and no " uid:". */
  predicate StorableUid(u: string)
  {
    StorableName(u) && ';' !in u && NoUidMarker(u)
  }

  /** A UID list that survives saving and loading. */
  predicate StorableUids(list: seq<string>)
  {
    Distinct(list) && forall k :: 0 <= k < |list| ==> StorableUid(list[k])
  }

  /** Preferences whose every name and UID can be saved and loaded back. */
  predicate Storable(p: Preferences)
  {
    Distinct(p.names) &&
    (forall k :: 0 <= k < |p.names| ==> StorableName(p.names[k])) &&
    forall n :: n in p.uids ==> StorableUids(p.uids[n])
  }

  /** Storable preferences are well formed. */
  lemma {:induction false} StorableWellFormed(p: Preferences)
    requires Storable(p)
    ensures WellFormed(p)
  {
  }

  /** What loading gives back for a saved UID list: the list, or the dummy UID in place of none. */
  function SavedList(list: seq<string>): seq<string>
  {
    if list == [] then [UID_DUMMY] else list
  }

  /** What loading gives back for a name. */
  function SavedUids(uids: map<string, seq<string>>, name: string): seq<string>
  {
    SavedList(UidsOf(uids, name))
  }

  /** Every char of a joined string comes from a piece or the separator. */
  lemma {:induction false} JoinWithChars(xs: seq<string>, sep: string)
    requires forall k, i :: 0 <= k < |xs| && 0 <= i < |xs[k]| ==> Plain(xs[k][i])
    requires forall i :: 0 <= i < |sep| ==> Plain(sep[i])
    ensures forall i :: 0 <= i < |JoinWith(xs, sep)| ==> Plain(JoinWith(xs, sep)[i])
    decreases |xs|
  {
    if |xs| > 1 {
      JoinWithChars(xs[1..], sep);
      var rest := JoinWith(xs[1..], sep);
      var s := xs[0] + sep + rest;
      assert JoinWith(xs, sep) == s;
      forall i | 0 <= i < |s| ensures Plain(s[i]) {
        if i < |xs[0]| {
          assert s[i] == xs[0][i];
        } else if i < |xs[0]| + |sep| {
          assert s[i] == sep[i - |xs[0]|];
        } else {
          assert s[i] == rest[i - |xs[0]| - |sep|];
        }
      }
    } else if |xs| == 1 {
      assert JoinWith(xs, sep) == xs[0];
    }
  }

  /** An occurrence past the front part of a string is an occurrence in the back part. */
  lemma {:induction false} OccursInBack(a: string, b: string, t: string, k: int)
    requires OccursAt(a + b, t, k) && k >= |a|
    ensures OccursAt(b, t, k - |a|)
  {
    assert (a + b)[k..k + |t|] == b[k - |a|..k - |a| + |t|];
  }

  /** An occurrence inside the front part of a string is an occurrence in the front part. */
  lemma {:induction false} OccursInFront(a: string, b: string, t: string, k: int)
    requires OccursAt(a + b, t, k) && k + |t| <= |a|
    ensures OccursAt(a, t, k)
  {
    assert (a + b)[k..k + |t|] == a[k..k + |t|];
  }

  /** " uid:" does not occur across a ';'. */
  lemma {:induction false} NoMarkerAcrossSemicolon(a: string, b: string, i: int)
    requires i < |a| + 1 && i + 5 > |a|
    ensures !OccursAt(a + ";" + b, UID_MARKER, i)
  {
    var s := a + ";" + b;
    assert s[|a|] == ';';
  }

  /** Joining marker-free UIDs that hold no ';' with ';' yields no marker. */
  lemma {:induction false} JoinNoMarker(xs: seq<string>)
    requires forall k :: 0 <= k < |xs| ==> NoUidMarker(xs[k]) && ';' !in xs[k]
    ensures NoUidMarker(JoinWith(xs, ";"))
    decreases |xs|
  {
    if |xs| > 1 {
      JoinNoMarker(xs[1..]);
      var rest := JoinWith(xs[1..], ";");
      var a := xs[0] + ";";
      assert JoinWith(xs, ";") == a + rest;
      forall i | 0 <= i < |a + rest| ensures !OccursAt(a + rest, UID_MARKER, i) {
        if i >= |a| {
          if OccursAt(a + rest, UID_MARKER, i) {
            OccursInBack(a, rest, UID_MARKER, i);
          }
        } else if i + 5 <= |xs[0]| {
          if OccursAt(a + rest, UID_MARKER, i) {
            assert xs[0] + (";" + rest) == a + rest;
            OccursInFront(xs[0], ";" + rest, UID_MARKER, i);
          }
        } else {
          NoMarkerAcrossSemicolon(xs[0], rest, i);
        }
      }
    } else if |xs| == 1 {
      assert JoinWith(xs, ";") == xs[0];
    }
  }

  /** The saved text of a storable UID list is non-empty and made of plain chars. */
  lemma {:induction false} UidTextPlain(list: seq<string>)
    requires forall k :: 0 <= k < |list| ==> StorableUid(list[k])
    ensures var u := UidText(list); |u| >= 1 && forall i :: 0 <= i < |u| ==> Plain(u[i])
  {
    if list != [] {
      JoinWithChars(list, ";") by {
        forall k, i | 0 <= k < |list| && 0 <= i < |list[k]| ensures Plain(list[k][i]) {
          assert StorableUid(list[k]);
        }
      }
      assert StorableUid(list[0]);
      if |list| > 1 {
        assert UidText(list) == list[0] + ";" + JoinWith(list[1..], ";");
      }
    }
  }

  /** The saved text of a storable UID list holds no marker. */
  lemma {:induction false} UidTextNoMarker(list: seq<string>)
    requires forall k :: 0 <= k < |list| ==> StorableUid(list[k])
    ensures NoUidMarker(UidText(list))
  {
    if list != [] {
      JoinNoMarker(list) by {
        forall k | 0 <= k < |list| ensures NoUidMarker(list[k]) && ';' !in list[k] {
          assert StorableUid(list[k]);
        }
      }
    }
  }

  /** Splitting the saved text of a storable UID list gives back the list, or the dummy UID. */
  lemma {:induction false} UidTextSplits(list: seq<string>)
    requires forall k :: 0 <= k < |list| ==> StorableUid(list[k])
    ensures UidList(UidText(list)) == SavedList(list)
  {
    var u := UidText(list);
    UidTextPlain(list);
    assert StripChar(StripChar(u, '['), ']') == u;
    if list != [] {
      assert StorableUid(list[|list| - 1]);
      forall k | 0 <= k < |list| ensures ';' !in list[k] { assert StorableUid(list[k]); }
      StringUtils.JavaSplitJoined(list, ';');
    }
  }

  /** The chars of a saved entry after "name:" are all on one line. */
  lemma {:induction false} EntryOneLine(n: string, u: string)
    requires StorableName(n) && StorableName(u)
    ensures var e := NAME_MARKER + n + UID_MARKER + u; LineEnd(e, 5) == |e|
  {
    var e := NAME_MARKER + n + UID_MARKER + u;
    var q := 5 + |n|;
    forall k | 5 <= k < |e| ensures !IsLineTerminator(e[k]) {
      if k < q {
        assert e[k] == n[k - 5];
      } else if k < q + 5 {
        assert e[k] == UID_MARKER[k - q];
      } else {
        assert e[k] == u[k - q - 5];
      }
    }
  }

  /** In a saved entry, the last " uid:" with text after it is the one written after the name. */
  lemma {:induction false} EntryLastMarker(n: string, u: string)
    requires |n| >= 1 && |u| >= 1 && NoUidMarker(u)
    ensures var e := NAME_MARKER + n + UID_MARKER + u;
      LastMarker(e, 5, |e|, |e|) == Some(5 + |n|)
  {
    var front := NAME_MARKER + n + UID_MARKER;
    var e := front + u;
    var q := 5 + |n|;
    assert e[q..q + 5] == UID_MARKER;
    assert MarkerBefore(e, q, |e|);
    forall k | q < k <= |e| ensures !MarkerBefore(e, k, |e|) {
      if k >= q + 5 {
        if MarkerBefore(e, k, |e|) {
          OccursInBack(front, u, UID_MARKER, k);
        }
      } else {
        assert e[k] == UID_MARKER[k - q];
      }
    }
    var r := LastMarker(e, 5, |e|, |e|);
    assert r.Some?;
    assert r.value <= q;
  }

  /** The pattern finds the name and the UIDs text in a saved entry. */
  lemma {:induction false} EntryMatches(n: string, u: string)
    requires StorableName(n) && StorableName(u) && NoUidMarker(u)
    ensures FindNameUid(NAME_MARKER + n + UID_MARKER + u, 0) == Some((n, u))
  {
    var e := NAME_MARKER + n + UID_MARKER + u;
    var q := 5 + |n|;
    assert e[..5] == NAME_MARKER;
    assert OccursAt(e, NAME_MARKER, 0);
    EntryOneLine(n, u);
    EntryLastMarker(n, u);
    assert e[5..q] == n;
    assert e[q + 5..|e|] == u;
  }

  /** Loading a saved entry for a name not yet loaded adds the name and its saved UID list. */
  lemma {:induction false} ParseEntryFresh(q: Preferences, n: string, list: seq<string>)
    requires StorableName(n) && n !in q.names && UidsOf(q.uids, n) == [] && StorableUids(list)
    ensures ParseEntry(q, NAME_MARKER + n + UID_MARKER + UidText(list)) ==
      Preferences(q.names + [n], q.uids[n := SavedList(list)])
  {
    var u := UidText(list);
    UidTextPlain(list);
    UidTextNoMarker(list);
    UidTextSplits(list);
    EntryMatches(n, u);
    AddAllAbsentFresh(SavedList(list));
  }

  /** The UID lists loading gives back for the saved names: each name with its saved list. */
  function SavedMap(uids: map<string, seq<string>>, names: seq<string>): map<string, seq<string>>
  {
    if names == [] then map[]
    else SavedMap(uids, names[..|names| - 1])[names[|names| - 1] := SavedUids(uids, names[|names| - 1])]
  }

  /** Exactly the saved names have a loaded UID list, and it is their saved list. */
  lemma {:induction false} SavedMapLookup(uids: map<string, seq<string>>, names: seq<string>, n: string)
    ensures n in SavedMap(uids, names) <==> n in names
    ensures UidsOf(SavedMap(uids, names), n) == if n in names then SavedUids(uids, n) else []
  {
    if names != [] {
      var front := names[..|names| - 1];
      SavedMapLookup(uids, front, n);
      assert names == front + [names[|names| - 1]];
    }
  }

  /** One name of storable preferences and its UID list can be saved. */
  lemma {:induction false} StorableAt(p: Preferences, k: nat)
    requires Storable(p) && k < |p.names|
    ensures StorableName(p.names[k]) && StorableUids(UidsOf(p.uids, p.names[k]))
  {
  }

  /** Loading the saved entry of one more name after the names loaded so far. */
  lemma {:induction false} ParseSavedStep(q: Preferences, names: seq<string>, uids: map<string, seq<string>>, n: string, e: string)
    requires q == Preferences(names, SavedMap(uids, names)) && n !in names
    requires StorableName(n) && StorableUids(UidsOf(uids, n))
    requires e == NAME_MARKER + n + UID_MARKER + UidText(UidsOf(uids, n))
    ensures ParseEntry(q, e) == Preferences(names + [n], SavedMap(uids, names + [n]))
  {
    SavedMapLookup(uids, names, n);
    ParseEntryFresh(q, n, UidsOf(uids, n));
    assert (names + [n])[..|names|] == names;
  }

  /** What the first i saved entries load to, from nothing: the first i names and their saved UIDs. */
  lemma {:induction false} ParseSaved(p: Preferences, i: nat)
    requires Storable(p) && i <= |p.names|
    ensures ParseEntries(Preferences([], map[]), Entries(p.names, p.uids)[..i]) ==
      Preferences(p.names[..i], SavedMap(p.uids, p.names[..i]))
  {
    if i > 0 {
      var n := p.names[i - 1];
      var es := Entries(p.names, p.uids);
      ParseSaved(p, i - 1);
      PrefixSnoc(es, i);
      var q0 := ParseEntries(Preferences([], map[]), es[..i - 1]);
      StorableAt(p, i - 1);
      DistinctPrefixFresh(p.names, i);
      ParseSavedStep(q0, p.names[..i - 1], p.uids, n, es[i - 1]);
      PrefixSnoc(p.names, i);
    }
  }

  /** The saved entry of a storable name is non-empty and holds no quote. */
  lemma {:induction false} EntryUnquoted(p: Preferences, k: nat)
    requires Storable(p) && k < |p.names|
    ensures '"' !in Entry(p.uids, p.names[k]) && Entry(p.uids, p.names[k]) != []
  {
    StorableAt(p, k);
    UidTextPlain(UidsOf(p.uids, p.names[k]));
    var n, u := p.names[k], UidPreferenceString(p.uids, p.names[k]);
    assert '"' !in n && '"' !in u;
  }

  /** `startsWith("[\"") && endsWith("\"]")`, the test ensureDevicePreferencesLoaded applies. */
  predicate ListGuard(s: string)
  {
    |s| >= 2 && s[..2] == "[\"" && s[|s| - 2..] == "\"]"
  }

  /** The test with the length check it needs: the two ends must not overlap. */
  predicate SafeListGuard(s: string)
  {
    ListGuard(s) && |s| >= 4
  }

  /** The three-char string `["]` passes the test but is too short to cut its ends off. */
  lemma ListGuardAdmitsShort()
    ensures ListGuard("[\"]") && EntriesOf("[\"]").None?
  {
    var s := "[\"]";
    assert s[..2] == "[\"" && s[|s| - 2..] == "\"]";
  }

  /** Whatever passes the corrected test has its entries cut out. */
  lemma SafeListGuardParses(s: string)
    requires SafeListGuard(s)
    ensures EntriesOf(s).Some? && EntriesOf(s).value == JavaSplitOn(s[2..|s| - 2], ENTRY_SEPARATOR)
  {
  }

  /** The saved list of entries, split back. */
  lemma {:induction false} EntriesSplit(p: Preferences)
    requires Storable(p) && p.names != []
    ensures var es := Entries(p.names, p.uids); JavaSplitOn(JoinWith(es, ENTRY_SEPARATOR), ENTRY_SEPARATOR) == es
  {
    var es := Entries(p.names, p.uids);
    forall k | 0 <= k < |es| ensures ENTRY_SEPARATOR[0] !in es[k] {
      EntryUnquoted(p, k);
    }
    EntryUnquoted(p, |es| - 1);
    JavaSplitOnJoin(es, ENTRY_SEPARATOR);
  }

  /** A saved string passes the corrected test, and cutting its ends off gives the joined entries. */
  lemma {:induction false} PreferenceStringCut(names: seq<string>, uids: map<string, seq<string>>)
    ensures var s := PreferenceString(names, uids);
      SafeListGuard(s) && EntriesOf(s) == Some(JavaSplitOn(JoinWith(Entries(names, uids), ENTRY_SEPARATOR), ENTRY_SEPARATOR))
  {
    var s := PreferenceString(names, uids);
    assert s[..2] == "[\"" && s[|s| - 2..] == "\"]";
    assert s[2..|s| - 2] == JoinWith(Entries(names, uids), ENTRY_SEPARATOR);
  }

  /**
   * Saving then loading into empty preferences gives back the names in
   * order, each with its saved UID list (SavedMapLookup): its UIDs in
   * order, the dummy UID standing in for an empty list; a UID list with no
   * preferred name is not saved.
   */
  lemma {:induction false} PreferenceStringRoundTrip(p: Preferences)
    requires Storable(p)
    ensures var s := PreferenceString(p.names, p.uids);
      SafeListGuard(s) && EntriesOf(s).Some? &&
      ParseEntries(Preferences([], map[]), EntriesOf(s).value) == Preferences(p.names, SavedMap(p.uids, p.names))
  {
    PreferenceStringCut(p.names, p.uids);
    var es := Entries(p.names, p.uids);
    if p.names == [] {
      assert JoinWith(es, ENTRY_SEPARATOR) == "";
      ParseNothingSaved();
    } else {
      EntriesSplit(p);
      ParseSaved(p, |p.names|);
      FullPrefix(es);
      FullPrefix(p.names);
    }
  }

  /** The saved string of no preferences loads as no preferences. */
  lemma {:induction false} ParseNothingSaved()
    ensures ParseEntries(Preferences([], map[]), JavaSplitOn("", ENTRY_SEPARATOR)) == Preferences([], map[])
  {
    assert FindFrom("", ENTRY_SEPARATOR, 0) == -1;
    assert FindNameUid("", 0) == None;
    assert ParseEntries(Preferences([], map[]), [""]) == ParseEntry(Preferences([], map[]), "");
  }

  // ------------------------------------------------------------ the known devices

  /** A LinkedHashMap from names to UIDs: its entries in the order their keys were first put. */
  type KnownDevices = seq<(string, Option<string>)>

  /** The keys, in order. */
  function Keys(m: KnownDevices): (r: seq<string>)
    ensures |r| == |m| && forall i :: 0 <= i < |m| ==> r[i] == m[i].0
  {
    seq(|m|, i requires 0 <= i < |m| => m[i].0)
  }

  /** The position of key k, or -1. */
  function KeyIndex(m: KnownDevices, k: string): (r: int)
    ensures -1 <= r < |m|
    ensures r == -1 <==> forall i :: 0 <= i < |m| ==> m[i].0 != k
    ensures r >= 0 ==> m[r].0 == k
  {
    if m == [] then -1
    else if m[|m| - 1].0 == k then |m| - 1
    else KeyIndex(m[..|m| - 1], k)
  }

  /** `put(k, v)`: a present key keeps its place and takes the new value; a new key goes last. */
  function Put(m: KnownDevices, k: string, v: Option<string>): KnownDevices
  {
    var i := KeyIndex(m, k);
    if i == -1 then m + [(k, v)] else m[i := (k, v)]
  }

  /** The value of key k; None when k is no key (Some(None) is a key mapped to null). */
  function Get(m: KnownDevices, k: string): Option<Option<string>>
  {
    var i := KeyIndex(m, k);
    if i == -1 then None else Some(m[i].1)
  }

  /** With distinct keys, a key's position is the one place it occurs. */
  lemma {:induction false} KeyIndexUnique(m: KnownDevices, k: string, i: int)
    requires Distinct(Keys(m)) && 0 <= i < |m| && m[i].0 == k
    ensures KeyIndex(m, k) == i
  {
    var r := KeyIndex(m, k);
    assert Keys(m)[r] == Keys(m)[i];
  }

  /**
   * `put` keeps the keys distinct, makes k read v, leaves every other key's
   * value alone, and adds k at the end only when it was absent.
   */
  lemma {:induction false} PutSemantics(m: KnownDevices, k: string, v: Option<string>)
    requires Distinct(Keys(m))
    ensures var r := Put(m, k, v);
      Distinct(Keys(r)) && Get(r, k) == Some(v) &&
      (forall k' :: k' != k ==> Get(r, k') == Get(m, k')) &&
      Keys(r) == if Get(m, k).Some? then Keys(m) else Keys(m) + [k]
  {
    var r := Put(m, k, v);
    var i := KeyIndex(m, k);
    if i == -1 {
      assert Keys(r) == Keys(m) + [k];
      assert Distinct(Keys(r)) by {
        forall a, b | 0 <= a < b < |r| ensures Keys(r)[a] != Keys(r)[b] {
          if b == |m| { assert Keys(r)[a] == m[a].0; }
        }
      }
      KeyIndexUnique(r, k, |m|);
      forall k' | k' != k ensures Get(r, k') == Get(m, k') {
        var j := KeyIndex(m, k');
        if j >= 0 {
          KeyIndexUnique(r, k', j);
        }
      }
    } else {
      assert Keys(r) == Keys(m);
      KeyIndexUnique(r, k, i);
      forall k' | k' != k ensures Get(r, k') == Get(m, k') {
        var j := KeyIndex(m, k');
        if j >= 0 {
          KeyIndexUnique(r, k', j);
        }
      }
    }
  }

  /** The UIDs of the devices, in order. */
  function DeviceUids(ds: seq<Device>): (r: seq<Option<string>>)
    ensures |r| == |ds| && forall i :: 0 <= i < |ds| ==> r[i] == ds[i].uid
  {
    if ds == [] then [] else DeviceUids(ds[..|ds| - 1]) + [ds[|ds| - 1].uid]
  }

  /** The key of a same-named active device: numbered from 1 when there are several. */
  function Label(pref: string, matching: seq<Option<string>>, uid: Option<string>): string
  {
    if |matching| > 1 then pref + " " + NatToString(SeqIndexOf(matching, uid) + 1) else pref
  }

  /** The puts of getAllKnownDevices' second loop over the devices ds. */
  function PutNamed(m: KnownDevices, pref: string, matching: seq<Option<string>>, ds: seq<Device>): KnownDevices
  {
    if ds == [] then m
    else
      var d := ds[|ds| - 1];
      var r := PutNamed(m, pref, matching, ds[..|ds| - 1]);
      if d.name == Some(pref) then Put(r, Label(pref, matching, d.uid), d.uid) else r
  }

  /** One more device of the second loop: a put when its name matches, else nothing. */
  lemma {:induction false} PutNamedStep(m: KnownDevices, pref: string, matching: seq<Option<string>>, ds: seq<Device>, j: nat)
    requires j < |ds|
    ensures PutNamed(m, pref, matching, ds[..j + 1]) ==
      var r := PutNamed(m, pref, matching, ds[..j]);
      if ds[j].name == Some(pref) then Put(r, Label(pref, matching, ds[j].uid), ds[j].uid) else r
  {
    PrefixSnoc(ds, j + 1);
  }

  /** The puts getAllKnownDevices makes for one preferred name. */
  function PutPreference(m: KnownDevices, pref: string, active: seq<Device>): KnownDevices
  {
    var r := PutNamed(m, pref, DeviceUids(Named(active, pref)), active);
    if Named(active, pref) == [] then Put(r, pref, None) else r
  }

  /** getAllKnownDevices(): the puts for each preferred name in order, from an empty map. */
  function AllKnownDevices(names: seq<string>, active: seq<Device>): KnownDevices
  {
    if names == [] then []
    else PutPreference(AllKnownDevices(names[..|names| - 1], active), names[|names| - 1], active)
  }

  /** One more preferred name: its puts follow those of the earlier names. */
  lemma {:induction false} AllKnownDevicesStep(names: seq<string>, active: seq<Device>, i: nat)
    requires i < |names|
    ensures AllKnownDevices(names[..i + 1], active) == PutPreference(AllKnownDevices(names[..i], active), names[i], active)
  {
    PrefixSnoc(names, i + 1);
  }

  /** The numbered key " 1", " 2", ... of the t-th same-named device. */
  function NumberedLabel(pref: string, t: nat): string
  {
    pref + " " + NatToString(t + 1)
  }

  /** The key of the t-th of n same-named active devices. */
  function KeyFor(pref: string, n: nat, t: nat): string
  {
    if n > 1 then NumberedLabel(pref, t) else pref
  }

  /** Different numbers give different keys. */
  lemma {:induction false} NumberedLabelsDiffer(pref: string, a: nat, b: nat)
    requires a != b
    ensures NumberedLabel(pref, a) != NumberedLabel(pref, b)
  {
    if NumberedLabel(pref, a) == NumberedLabel(pref, b) {
      var x, y := NumberedLabel(pref, a), NumberedLabel(pref, b);
      assert x[|pref| + 1..] == NatToString(a + 1);
      assert y[|pref| + 1..] == NatToString(b + 1);
      NatToStringValue(a + 1);
      NatToStringValue(b + 1);
    }
  }

  /** The devices named so far are a prefix of all the devices with that name. */
  lemma {:induction false} NamedPrefix(active: seq<Device>, j: nat, name: string)
    requires j <= |active|
    ensures var pre := Named(active[..j], name);
      |pre| <= |Named(active, name)| && pre == Named(active, name)[..|pre|]
    decreases |active|
  {
    if j < |active| {
      var front := active[..|active| - 1];
      assert active[..j] == front[..j];
      NamedPrefix(front, j, name);
    } else {
      assert active[..j] == active;
    }
  }

  /** With no device of that name, the second loop puts nothing. */
  lemma {:induction false} PutNamedNone(m: KnownDevices, pref: string, matching: seq<Option<string>>, ds: seq<Device>)
    requires Named(ds, pref) == []
    ensures PutNamed(m, pref, matching, ds) == m
  {
    if ds != [] {
      PutNamedNone(m, pref, matching, ds[..|ds| - 1]);
    }
  }

  /** The second loop keeps the keys distinct. */
  lemma {:induction false} PutNamedDistinct(m: KnownDevices, pref: string, matching: seq<Option<string>>, ds: seq<Device>)
    requires Distinct(Keys(m))
    ensures Distinct(Keys(PutNamed(m, pref, matching, ds)))
  {
    if ds != [] {
      var d := ds[|ds| - 1];
      PutNamedDistinct(m, pref, matching, ds[..|ds| - 1]);
      PutSemantics(PutNamed(m, pref, matching, ds[..|ds| - 1]), Label(pref, matching, d.uid), d.uid);
    }
  }

  /** The device at step i of the second loop is the next same-named device, and gets its key. */
  lemma {:induction false} LabelAtStep(active: seq<Device>, i: nat, pref: string)
    requires i < |active| && active[i].name == Some(pref)
    requires Distinct(DeviceUids(Named(active, pref)))
    ensures var matching, t := DeviceUids(Named(active, pref)), |Named(active[..i], pref)|;
      t < |matching| && matching[t] == active[i].uid &&
      Label(pref, matching, active[i].uid) == KeyFor(pref, |matching|, t)
  {
    var all := Named(active, pref);
    var t := |Named(active[..i], pref)|;
    assert active[..i + 1][..i] == active[..i];
    assert Named(active[..i + 1], pref) == Named(active[..i], pref) + [active[i]];
    NamedPrefix(active, i + 1, pref);
    assert all[t] == active[i];
    var matching := DeviceUids(all);
    var k := SeqIndexOf(matching, active[i].uid);
    assert matching[k] == matching[t];
  }

  /** The first count same-named devices are under their keys with their UIDs. */
  predicate Numbered(r: KnownDevices, pref: string, matching: seq<Option<string>>, count: nat)
    requires count <= |matching|
  {
    forall t :: 0 <= t < count ==> Get(r, KeyFor(pref, |matching|, t)) == Some(matching[t])
  }

  /** Putting the next same-named device under its own key keeps the earlier ones numbered. */
  lemma {:induction false} NumberedStep(r: KnownDevices, pref: string, matching: seq<Option<string>>, t0: nat)
    requires t0 < |matching| && Distinct(Keys(r)) && Numbered(r, pref, matching, t0)
    ensures Numbered(Put(r, KeyFor(pref, |matching|, t0), matching[t0]), pref, matching, t0 + 1)
  {
    var key := KeyFor(pref, |matching|, t0);
    var r' := Put(r, key, matching[t0]);
    PutSemantics(r, key, matching[t0]);
    forall t | 0 <= t < t0 + 1 ensures Get(r', KeyFor(pref, |matching|, t)) == Some(matching[t]) {
      if t < t0 {
        NumberedLabelsDiffer(pref, t, t0);
        assert Get(r, KeyFor(pref, |matching|, t)) == Some(matching[t]);
      }
    }
  }

  /**
   * After the second loop has seen active[..i], the t-th device named pref
   * so far is under its key with its UID, the keys staying distinct, when
   * the same-named devices have distinct UIDs.
   */
  lemma {:induction false} PutNamedKeys(m: KnownDevices, pref: string, active: seq<Device>, i: nat)
    requires i <= |active| && Distinct(Keys(m))
    requires Distinct(DeviceUids(Named(active, pref)))
    ensures var matching := DeviceUids(Named(active, pref));
      var r := PutNamed(m, pref, matching, active[..i]);
      Distinct(Keys(r)) && |Named(active[..i], pref)| <= |matching| &&
      Numbered(r, pref, matching, |Named(active[..i], pref)|)
  {
    NamedPrefix(active, i, pref);
    if i > 0 {
      NamedStep(active, i, pref);
      PutNamedKeys(m, pref, active, i - 1);
      if active[i - 1].name == Some(pref) {
        PutNamedKeysStep(m, pref, active, i - 1);
      } else {
        var matching := DeviceUids(Named(active, pref));
        assert PutNamed(m, pref, matching, active[..i]) == PutNamed(m, pref, matching, active[..i - 1]);
      }
    }
  }

  /** The step of PutNamedKeys at a same-named device. */
  lemma {:induction false} PutNamedKeysStep(m: KnownDevices, pref: string, active: seq<Device>, i: nat)
    requires i < |active| && active[i].name == Some(pref)
    requires Distinct(DeviceUids(Named(active, pref)))
    requires var matching := DeviceUids(Named(active, pref));
      var r := PutNamed(m, pref, matching, active[..i]);
      Distinct(Keys(r)) && |Named(active[..i], pref)| <= |matching| &&
      Numbered(r, pref, matching, |Named(active[..i], pref)|)
    ensures var matching := DeviceUids(Named(active, pref));
      var r := Put(PutNamed(m, pref, matching, active[..i]), Label(pref, matching, active[i].uid), active[i].uid);
      Distinct(Keys(r)) && |Named(active[..i], pref)| < |matching| &&
      Numbered(r, pref, matching, |Named(active[..i], pref)| + 1)
  {
    var matching := DeviceUids(Named(active, pref));
    var r0 := PutNamed(m, pref, matching, active[..i]);
    var t0 := |Named(active[..i], pref)|;
    LabelAtStep(active, i, pref);
    PutSemantics(r0, KeyFor(pref, |matching|, t0), active[i].uid);
    NumberedStep(r0, pref, matching, t0);
  }

  /**
   * getAllKnownDevices for one preferred name: with no active device of
   * that name the name maps to null; otherwise, when the same-named
   * devices have distinct UIDs, the t-th of them is under "name t+1" (or
   * under the plain name when it is the only one) with its UID.
   */
  lemma {:induction false} PutPreferenceKeys(m: KnownDevices, pref: string, active: seq<Device>)
    requires Distinct(Keys(m))
    ensures Distinct(Keys(PutPreference(m, pref, active)))
    ensures Named(active, pref) == [] ==> Get(PutPreference(m, pref, active), pref) == Some(None)
    ensures var matching := DeviceUids(Named(active, pref));
      Distinct(matching) ==>
        forall t :: 0 <= t < |matching| ==>
          Get(PutPreference(m, pref, active), KeyFor(pref, |matching|, t)) == Some(matching[t])
  {
    var matching := DeviceUids(Named(active, pref));
    var r := PutNamed(m, pref, matching, active);
    if Named(active, pref) == [] {
      PutNamedNone(m, pref, matching, active);
      PutSemantics(m, pref, None);
    } else {
      PutNamedDistinct(m, pref, matching, active);
      if Distinct(matching) {
        PutNamedKeys(m, pref, active, |active|);
        assert active[..|active|] == active;
        assert Numbered(r, pref, matching, |matching|);
      }
    }
  }

  /** The map getAllKnownDevices returns never holds a key twice. */
  lemma {:induction false} AllKnownDevicesDistinct(names: seq<string>, active: seq<Device>)
    ensures Distinct(Keys(AllKnownDevices(names, active)))
  {
    if names != [] {
      AllKnownDevicesDistinct(names[..|names| - 1], active);
      PutPreferenceKeys(AllKnownDevices(names[..|names| - 1], active), names[|names| - 1], active);
    }
  }

  // ------------------------------------------------------------ the manager

  /** The state of one DeviceListManager (capture, playback or notify). */
  class DeviceListManager {
    var devicePreferences: seq<string>
    var deviceUids: map<string, seq<string>>
    var activeDevices: seq<Device>
    var selectedDevice: Option<Device>

    function Prefs(): Preferences
      reads this
    {
      Preferences(devicePreferences, deviceUids)
    }

    predicate Valid()
      reads this
    {
      WellFormed(Prefs())
    }

    constructor()
      ensures Valid() && devicePreferences == [] && deviceUids == map[]
      ensures activeDevices == [] && selectedDevice == None
    {
      devicePreferences := [];
      deviceUids := map[];
      activeDevices := [];
      selectedDevice := None;
    }

    /**
     * getDevice(locator): the first active device whose locator equals the
     * given one; none for a null locator or when no device has it.
     */
    method GetDevice(locator: Option<MediaLocator>) returns (device: Option<Device>)
      ensures device.Some? <==>
        locator.Some? && exists i :: 0 <= i < |activeDevices| && activeDevices[i].locator == locator
      ensures device.Some? ==>
        exists i :: 0 <= i < |activeDevices| && activeDevices[i] == device.value &&
          activeDevices[i].locator == locator && forall j :: 0 <= j < i ==> activeDevices[j].locator != locator
    {
      device := None;
      if locator.Some? {
        var i := 0;
        while i < |activeDevices|
          invariant 0 <= i <= |activeDevices|
          invariant forall j :: 0 <= j < i ==> activeDevices[j].locator != locator
        {
          if activeDevices[i].locator == locator {
            device := Some(activeDevices[i]);
            return;
          }
          i := i + 1;
        }
      }
    }

    /** setActiveDevices(devices): a null list is ignored; null entries are dropped. */
    method SetActiveDevices(devices: Option<seq<Option<Device>>>)
      modifies this
      ensures devices.None? ==> activeDevices == old(activeDevices)
      ensures devices.Some? ==> activeDevices == NonNull(devices.value)
      ensures Prefs() == old(Prefs()) && selectedDevice == old(selectedDevice)
    {
      if devices.Some? {
        var list := devices.value;
        activeDevices := [];
        var i := 0;
        while i < |list|
          invariant 0 <= i <= |list|
          invariant activeDevices == NonNull(list[..i])
          invariant Prefs() == old(Prefs()) && selectedDevice == old(selectedDevice)
        {
          assert list[..i + 1][..i] == list[..i];
          if list[i].Some? {
            activeDevices := activeDevices + [list[i].value];
          }
          i := i + 1;
        }
        assert list[..i] == list;
      }
    }

    /** updateDeviceList(device, mode). */
    method UpdateDeviceList(device: Device, mode: SaveDeviceMode)
      requires Valid()
      modifies this
      ensures Valid() && Prefs() == Update(old(Prefs()), device, mode)
      ensures activeDevices == old(activeDevices) && selectedDevice == old(selectedDevice)
    {
      var newDeviceName, newDeviceUid := device.name, device.uid;
      if newDeviceName.None? || newDeviceUid.None? {
        return;
      }
      UpdatePlaces(Prefs(), device, mode);
      devicePreferences := PlaceIn(devicePreferences, newDeviceName.value, mode);
      var uidList := if newDeviceName.value in deviceUids then deviceUids[newDeviceName.value] else [];
      uidList := PlaceIn(uidList, newDeviceUid.value, mode);
      deviceUids := deviceUids[newDeviceName.value := uidList];
    }

    /** The list step of updateDeviceList: move or insert x, unless the mode keeps a present x in place. */
    static method PlaceIn(xs: seq<string>, x: string, mode: SaveDeviceMode) returns (r: seq<string>)
      ensures r == Placed(xs, x, mode)
    {
      r := xs;
      if x !in r || !PreserveOrder(mode) {
        r := RemoveFirst(r, x);
        r := if AtStart(mode) then [x] + r else r + [x];
      }
    }

    /**
     * reorderDevicePreferences(): saves every active device, last to first,
     * with the mode ModeFor gives.
     */
    method ReorderDevicePreferences()
      requires Valid()
      modifies this
      ensures Valid()
      ensures Prefs() == Reordered(old(Prefs()), activeDevices, |activeDevices|, selectedDevice, old(devicePreferences) == [])
      ensures activeDevices == old(activeDevices) && selectedDevice == old(selectedDevice)
    {
      var isEmptyList := devicePreferences == [];
      var i := |activeDevices| - 1;
      while i >= 0
        invariant -1 <= i < |activeDevices| && Valid()
        invariant activeDevices == old(activeDevices) && selectedDevice == old(selectedDevice)
        invariant Reordered(Prefs(), activeDevices, i + 1, selectedDevice, isEmptyList) ==
          Reordered(old(Prefs()), activeDevices, |activeDevices|, selectedDevice, isEmptyList)
      {
        var activeDevice := activeDevices[i];
        var atStart: bool;
        if activeDevice.name.Some? && activeDevice.name.value in devicePreferences {
          var selected := selectedDevice;
          atStart := selected.Some? &&
            SeqIndexOf(devicePreferences, activeDevice.name.value) < NameIndex(devicePreferences, selected.value.name);
        } else {
          atStart := isEmptyList &&
            !IsSameTransportType(activeDevice, Some(TRANSPORT_TYPE_BLUETOOTH)) &&
            !IsSameTransportType(activeDevice, Some(TRANSPORT_TYPE_AIRPLAY));
        }
        assert (if atStart then PutAtStartIfAbsent else PutAtEndIfAbsent) == ModeFor(Prefs(), activeDevice, selectedDevice, isEmptyList);
        UpdateDeviceList(activeDevice, if atStart then PutAtStartIfAbsent else PutAtEndIfAbsent);
        i := i - 1;
      }
    }

    /** The active devices with the given name (the first inner loop of getPreferredDevice). */
    method MatchingDevices(name: string) returns (matching: seq<Device>)
      ensures matching == Named(activeDevices, name)
    {
      matching := [];
      var i := 0;
      while i < |activeDevices|
        invariant 0 <= i <= |activeDevices|
        invariant matching == Named(activeDevices[..i], name)
      {
        assert activeDevices[..i + 1][..i] == activeDevices[..i];
        if activeDevices[i].name == Some(name) {
          matching := matching + [activeDevices[i]];
        }
        i := i + 1;
      }
      assert activeDevices[..i] == activeDevices;
    }

    /** The first matching device with the given UID (the innermost loop of getPreferredDevice). */
    static method FindWithUid(matching: seq<Device>, uid: string) returns (found: Option<Device>)
      ensures found == WithUid(matching, uid)
    {
      var i := 0;
      while i < |matching|
        invariant 0 <= i <= |matching|
        invariant WithUid(matching[i..], uid) == WithUid(matching, uid)
      {
        assert matching[i..][1..] == matching[i + 1..];
        if Some(uid) == matching[i].uid {
          return Some(matching[i]);
        }
        i := i + 1;
      }
      return None;
    }

    /** The loop over a name's UIDs in getPreferredDevice. */
    static method FindByUid(uids: seq<string>, matching: seq<Device>) returns (found: Option<Device>)
      ensures found == ByUid(uids, matching)
    {
      var i := 0;
      while i < |uids|
        invariant 0 <= i <= |uids|
        invariant ByUid(uids[i..], matching) == ByUid(uids, matching)
      {
        assert uids[i..][1..] == uids[i + 1..];
        found := FindWithUid(matching, uids[i]);
        if found.Some? {
          return;
        }
        i := i + 1;
      }
      return None;
    }

    /** getPreferredDevice(). */
    method GetPreferredDevice() returns (preferredDevice: Option<Device>)
      ensures preferredDevice == PreferredOf(devicePreferences, deviceUids, activeDevices)
    {
      preferredDevice := None;
      var k := 0;
      while k < |devicePreferences|
        invariant 0 <= k <= |devicePreferences|
        invariant PreferredOf(devicePreferences[k..], deviceUids, activeDevices) ==
          PreferredOf(devicePreferences, deviceUids, activeDevices)
      {
        var devicePreference := devicePreferences[k];
        assert devicePreferences[k..][1..] == devicePreferences[k + 1..];
        if devicePreference == NONE_LOCATOR_PROTOCOL {
          return None;
        }
        var matchingDevices := MatchingDevices(devicePreference);
        if matchingDevices != [] {
          var uids := if devicePreference in deviceUids then Some(deviceUids[devicePreference]) else None;
          if uids.Some? {
            var byUid := FindByUid(uids.value, matchingDevices);
            if byUid.Some? {
              return byUid;
            }
          }
          return Some(matchingDevices[0]);
        }
        k := k + 1;
      }
      return None;
    }

    /** getPreferenceString(). */
    method GetPreferenceString() returns (value: string)
      ensures value == PreferenceString(devicePreferences, deviceUids)
    {
      value := "[\"";
      var count := |devicePreferences|;
      if count != 0 {
        var deviceName := devicePreferences[0];
        value := value + (NAME_MARKER + deviceName + UID_MARKER + UidPreferenceString(deviceUids, deviceName));
        assert Entries(devicePreferences[..1], deviceUids) == [Entry(deviceUids, deviceName)];
        var i := 1;
        ghost var joined := NAME_MARKER + deviceName + UID_MARKER + UidPreferenceString(deviceUids, deviceName);
        while i < count
          invariant 1 <= i <= count
          invariant joined == JoinWith(Entries(devicePreferences[..i], deviceUids), ENTRY_SEPARATOR)
          invariant value == "[\"" + joined
        {
          deviceName := devicePreferences[i];
          ghost var entry := Entry(deviceUids, deviceName);
          EntriesSnoc(devicePreferences, deviceUids, i);
          StringUtils.JoinWithSnoc(Entries(devicePreferences[..i], deviceUids), entry, ENTRY_SEPARATOR);
          ghost var name, uid := NAME_MARKER + deviceName, UID_MARKER + UidPreferenceString(deviceUids, deviceName);
          value := value + ENTRY_SEPARATOR;
          AppendAssociative("[\"", joined, ENTRY_SEPARATOR);
          value := value + (NAME_MARKER + deviceName);
          AppendAssociative("[\"", joined + ENTRY_SEPARATOR, name);
          value := value + (UID_MARKER + UidPreferenceString(deviceUids, deviceName));
          AppendAssociative("[\"", joined + ENTRY_SEPARATOR + name, uid);
          AppendAssociative(joined + ENTRY_SEPARATOR, name, uid);
          AppendAssociative(name, UID_MARKER, UidPreferenceString(deviceUids, deviceName));
          assert value == "[\"" + (joined + ENTRY_SEPARATOR + entry);
          joined := joined + ENTRY_SEPARATOR + entry;
          i := i + 1;
        }
        assert devicePreferences[..i] == devicePreferences;
      }
      value := value + "\"]";
    }

    /** Adds each UID of more that the list does not hold yet, in order. */
    static method AddAbsentUids(uids: seq<string>, more: seq<string>) returns (r: seq<string>)
      ensures r == AddAllAbsent(uids, more)
    {
      r := uids;
      var j := 0;
      while j < |more|
        invariant 0 <= j <= |more|
        invariant r == AddAllAbsent(uids, more[..j])
      {
        assert more[..j + 1][..j] == more[..j];
        if more[j] !in r {
          r := r + [more[j]];
        }
        j := j + 1;
      }
      assert more[..j] == more;
    }

    /**
     * parseDeviceListString(s): empties the preferred names (the UID lists
     * stay), then adds each entry's name and UIDs; a string too short for
     * `substring(2, length - 2)` throws after the names are emptied.
     */
    method ParseDeviceListString(s: string) returns (error: Option<ParseError>)
      requires Valid()
      modifies this
      ensures Valid()
      ensures error.Some? <==> EntriesOf(s).None?
      ensures EntriesOf(s).None? ==> Prefs() == Preferences([], old(deviceUids))
      ensures EntriesOf(s).Some? ==> Prefs() == ParseEntries(Preferences([], old(deviceUids)), EntriesOf(s).value)
      ensures activeDevices == old(activeDevices) && selectedDevice == old(selectedDevice)
    {
      devicePreferences := [];
      if |s| < 4 {
        return Some(StringIndexOutOfBounds);
      }
      var deviceIdentifiers := JavaSplitOn(s[2..|s| - 2], ENTRY_SEPARATOR);
      var i := 0;
      while i < |deviceIdentifiers|
        invariant 0 <= i <= |deviceIdentifiers|
        invariant Valid()
        invariant Prefs() == ParseEntries(Preferences([], old(deviceUids)), deviceIdentifiers[..i])
        invariant activeDevices == old(activeDevices) && selectedDevice == old(selectedDevice)
      {
        ParseEntriesStep(Preferences([], old(deviceUids)), deviceIdentifiers, i);
        ParseDevice(deviceIdentifiers[i]);
        i := i + 1;
      }
      FullPrefix(deviceIdentifiers);
      return None;
    }

    /**
     * One iteration of parseDeviceListString: the name of a matching entry
     * is added when absent, and its UIDs that the name's list lacks are
     * appended to that list.
     */
    method ParseDevice(device: string)
      requires Valid()
      modifies this`devicePreferences, this`deviceUids
      ensures Valid() && Prefs() == ParseEntry(old(Prefs()), device)
    {
      ParseEntryWellFormed(Prefs(), device);
      var m := FindNameUid(device, 0);
      if m.Some? {
        var deviceName := m.value.0;
        var deviceUidsList := UidList(m.value.1);
        if deviceName !in devicePreferences {
          devicePreferences := devicePreferences + [deviceName];
        }
        var uids := UidsOf(deviceUids, deviceName);
        uids := AddAbsentUids(uids, deviceUidsList);
        deviceUids := deviceUids[deviceName := uids];
      }
    }

    /**
     * The new-format branch of ensureDevicePreferencesLoaded, with the
     * corrected test: a stored string that looks like a list of entries
     * and is long enough is parsed; anything else leaves the preferences.
     */
    method LoadDevicePreferences(stored: Option<string>)
      requires Valid()
      modifies this
      ensures Valid()
      ensures stored.Some? && SafeListGuard(stored.value) ==>
        Prefs() == ParseEntries(Preferences([], old(deviceUids)), EntriesOf(stored.value).value)
      ensures !(stored.Some? && SafeListGuard(stored.value)) ==> Prefs() == old(Prefs())
      ensures activeDevices == old(activeDevices) && selectedDevice == old(selectedDevice)
    {
      if stored.Some? && SafeListGuard(stored.value) {
        var error := ParseDeviceListString(stored.value);
        assert error.None?;
      }
    }

    /** matchingDevicesList: the UIDs of the active devices named pref, in order. */
    method MatchingUids(pref: string) returns (matching: seq<Option<string>>)
      ensures matching == DeviceUids(Named(activeDevices, pref))
    {
      matching := [];
      var j := 0;
      while j < |activeDevices|
        invariant 0 <= j <= |activeDevices|
        invariant matching == DeviceUids(Named(activeDevices[..j], pref))
      {
        assert activeDevices[..j + 1][..j] == activeDevices[..j];
        if activeDevices[j].name == Some(pref) {
          ghost var named := Named(activeDevices[..j], pref);
          assert (named + [activeDevices[j]])[..|named|] == named;
          matching := matching + [activeDevices[j].uid];
        }
        j := j + 1;
      }
      assert activeDevices[..j] == activeDevices;
    }

    /**
     * The inner loop of getAllKnownDevices: puts every active device named
     * pref under its label, and tells whether there was one.
     */
    static method PutNamedDevices(deviceNames: KnownDevices, devicePref: string,
                                  matchingDevicesList: seq<Option<string>>, activeDevices: seq<Device>)
      returns (r: KnownDevices, isActiveDevice: bool)
      ensures r == PutNamed(deviceNames, devicePref, matchingDevicesList, activeDevices)
      ensures isActiveDevice <==> Named(activeDevices, devicePref) != []
    {
      r := deviceNames;
      isActiveDevice := false;
      var j := 0;
      while j < |activeDevices|
        invariant 0 <= j <= |activeDevices|
        invariant r == PutNamed(deviceNames, devicePref, matchingDevicesList, activeDevices[..j])
        invariant isActiveDevice <==> Named(activeDevices[..j], devicePref) != []
      {
        var activeDevice := activeDevices[j];
        NamedStep(activeDevices, j + 1, devicePref);
        PutNamedStep(deviceNames, devicePref, matchingDevicesList, activeDevices, j);
        if activeDevice.name == Some(devicePref) {
          var deviceName := Label(devicePref, matchingDevicesList, activeDevice.uid);
          r := Put(r, deviceName, activeDevice.uid);
          isActiveDevice := true;
        }
        j := j + 1;
      }
      assert activeDevices[..j] == activeDevices;
    }

    /** getAllKnownDevices(). */
    method GetAllKnownDevices() returns (deviceNames: KnownDevices)
      ensures deviceNames == AllKnownDevices(devicePreferences, activeDevices)
    {
      deviceNames := [];
      var i := 0;
      while i < |devicePreferences|
        invariant 0 <= i <= |devicePreferences|
        invariant deviceNames == AllKnownDevices(devicePreferences[..i], activeDevices)
      {
        var devicePref := devicePreferences[i];
        AllKnownDevicesStep(devicePreferences, activeDevices, i);
        var matchingDevicesList := MatchingUids(devicePref);
        var isActiveDevice;
        deviceNames, isActiveDevice := PutNamedDevices(deviceNames, devicePref, matchingDevicesList, activeDevices);
        if !isActiveDevice {
          deviceNames := Put(deviceNames, devicePref, None);
        }
        i := i + 1;
      }
      assert devicePreferences[..i] == devicePreferences;
    }
  }
}
