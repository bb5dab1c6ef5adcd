/**
 * The DirectShow DSManager (native code): the list of capture devices that
 * initCaptureDevices enumerates, and its teardown. Each COM call a device
 * goes through is an outcome recorded in the device's moniker.
 */
module DsManager {
  import opened JavaBase

  /** The outcome of `QueryInterface(IID_IAMVfwCaptureDialogs)` on the bound filter. */
  datatype VfwQuery = QueryFailed | NoInterface | HasVfwDialogs

  /** One moniker of the video-input category, with what each call on it yields. */
  datatype Moniker = Moniker(
    /** BindToObject(IID_IBaseFilter) succeeds, and then what QueryInterface finds. */
    bindToObject: bool, vfw: VfwQuery,
    /** BindToStorage(IID_IPropertyBag) succeeds. */
    bindToStorage: bool,
    /** The FriendlyName and DevicePath properties, None when the read fails. */
    friendlyName: Option<string>, devicePath: Option<string>,
    /** DSCaptureDevice::initDevice succeeds. */
    initDevice: bool)

  /** A DSCaptureDevice record. */
  datatype CaptureDevice = CaptureDevice(name: string, path: string)

  /** How far the enumeration gets before its loop. */
  datatype Enumeration =
    | CreateInstanceFailed                  // CoCreateInstance(CLSID_SystemDeviceEnum) fails
    | ClassEnumeratorFailed                 // CreateClassEnumerator fails
    | NoDevices                             // CreateClassEnumerator returns S_FALSE
    | Monikers(monikers: seq<Moniker>)       // the monikers Next yields, in order

  /** The device exposes the VfW capture dialogs and is skipped. */
  predicate IsVfw(m: Moniker)
  {
    m.bindToObject && m.vfw == HasVfwDialogs
  }

  /** The property bag is bound and both names are read. */
  predicate PropertiesRead(m: Moniker)
  {
    m.bindToStorage && m.friendlyName.Some? && m.devicePath.Some?
  }

  /** A record is created for the moniker (it is then kept or deleted). */
  predicate Created(m: Moniker)
  {
    !IsVfw(m) && PropertiesRead(m)
  }

  /** The record created for a moniker whose properties were read. */
  function RecordOf(m: Moniker): CaptureDevice
    requires PropertiesRead(m)
  {
    CaptureDevice(m.friendlyName.value, m.devicePath.value)
  }

  /** The records appended to the list, in enumeration order. */
  function Appended(monikers: seq<Moniker>): seq<CaptureDevice>
  {
    if monikers == [] then []
    else
      var m := monikers[|monikers| - 1];
      Appended(monikers[..|monikers| - 1]) + (if Created(m) && m.initDevice then [RecordOf(m)] else [])
  }

  /** The records created but deleted because initDevice failed, in order. */
  function Discarded(monikers: seq<Moniker>): seq<CaptureDevice>
  {
    if monikers == [] then []
    else
      var m := monikers[|monikers| - 1];
      Discarded(monikers[..|monikers| - 1]) + (if Created(m) && !m.initDevice then [RecordOf(m)] else [])
  }

  /**
   * A record is in the list exactly when some moniker that is not a VfW
   * device, whose name and path were read and whose initDevice succeeded,
   * produced it; so there are never more records than monikers.
   */
  lemma {:induction false} AppendedIff(monikers: seq<Moniker>, d: CaptureDevice)
    ensures d in Appended(monikers) <==>
      exists i :: 0 <= i < |monikers| && Created(monikers[i]) && monikers[i].initDevice && RecordOf(monikers[i]) == d
    ensures |Appended(monikers)| <= |monikers|
  {
    if monikers != [] {
      var front, m := monikers[..|monikers| - 1], monikers[|monikers| - 1];
      AppendedIff(front, d);
      if d in Appended(monikers) && d !in Appended(front) {
        assert monikers[|monikers| - 1] == m;
      }
      if exists i :: 0 <= i < |monikers| && Created(monikers[i]) && monikers[i].initDevice && RecordOf(monikers[i]) == d {
        var i :| 0 <= i < |monikers| && Created(monikers[i]) && monikers[i].initDevice && RecordOf(monikers[i]) == d;
        if i < |front| {
          assert front[i] == monikers[i];
        }
      }
      if exists i :: 0 <= i < |front| && Created(front[i]) && front[i].initDevice && RecordOf(front[i]) == d {
        var i :| 0 <= i < |front| && Created(front[i]) && front[i].initDevice && RecordOf(front[i]) == d;
        assert monikers[i] == front[i];
      }
    }
  }

  /** Every created record is either appended or deleted. */
  lemma {:induction false} CreatedSplit(monikers: seq<Moniker>)
    ensures |Appended(monikers)| + |Discarded(monikers)| == |CreatedRecords(monikers)|
  {
    if monikers != [] {
      CreatedSplit(monikers[..|monikers| - 1]);
    }
  }

  /** The records created, kept or not. */
  function CreatedRecords(monikers: seq<Moniker>): seq<CaptureDevice>
  {
    if monikers == [] then []
    else
      var m := monikers[|monikers| - 1];
      CreatedRecords(monikers[..|monikers| - 1]) + (if Created(m) then [RecordOf(m)] else [])
  }

  /** The DSManager's device list and the records it has deleted. */
  class Manager {
    var devices: seq<CaptureDevice>
    /** Every record deleted so far, in order. */
    var deleted: seq<CaptureDevice>

    /**
     * DSManager(logger): `coInitialized` is whether CoInitializeEx
     * succeeded; only then are the capture devices enumerated.
     */
    constructor(coInitialized: bool, enumeration: Enumeration)
      ensures !coInitialized || !enumeration.Monikers? ==> devices == [] && deleted == []
      ensures coInitialized && enumeration.Monikers? ==>
        devices == Appended(enumeration.monikers) && deleted == Discarded(enumeration.monikers)
    {
      devices := [];
      deleted := [];
      new;
      if coInitialized {
        InitCaptureDevices(enumeration);
      }
    }

    /** The loop over the monikers `Next` yields. */
    method EnumerateDevices(monikers: seq<Moniker>)
      requires devices == []
      modifies this
      ensures devices == Appended(monikers)
      ensures deleted == old(deleted) + Discarded(monikers)
    {
      var i := 0;
      while i < |monikers|
        invariant 0 <= i <= |monikers|
        invariant devices == Appended(monikers[..i])
        invariant deleted == old(deleted) + Discarded(monikers[..i])
      {
        var moniker := monikers[i];
        assert monikers[..i + 1][..i] == monikers[..i];
        i := i + 1;
        if moniker.bindToObject && moniker.vfw == HasVfwDialogs {
          continue;
        }
        if !moniker.bindToStorage {
          continue;
        }
        if moniker.friendlyName.None? {
          continue;
        }
        if moniker.devicePath.None? {
          continue;
        }
        var captureDevice := CaptureDevice(moniker.friendlyName.value, moniker.devicePath.value);
        if moniker.initDevice {
          devices := devices + [captureDevice];
        } else {
          deleted := deleted + [captureDevice];
        }
      }
      assert monikers[..i] == monikers;
    }

    /**
     * initCaptureDevices: deletes the previous records and empties the list,
     * then, when the enumerator and its category are available, appends the
     * devices that pass every check.
     */
    method InitCaptureDevices(enumeration: Enumeration)
      modifies this
      ensures !enumeration.Monikers? ==> devices == [] && deleted == old(deleted) + old(devices)
      ensures enumeration.Monikers? ==>
        devices == Appended(enumeration.monikers) &&
        deleted == old(deleted) + old(devices) + Discarded(enumeration.monikers)
    {
      if |devices| > 0 {
        deleted := deleted + devices;
        devices := [];
      }
      if !enumeration.Monikers? {
        return;
      }
      EnumerateDevices(enumeration.monikers);
    }

    /** ~DSManager: deletes every record and empties the list. */
    method Destroy()
      modifies this
      ensures devices == [] && deleted == old(deleted) + old(devices)
    {
      deleted := deleted + devices;
      devices := [];
    }
  }
}
