# LibJitsi (MaXUC fork) media core, modelled in Dafny

This project models the sequential logic of the LibJitsi media stack in Dafny and proves its properties. The stack covers RTP, audio and video device systems, codecs and configuration. The model covers the following components:

- **Device preferences.** `DeviceListManager` keeps the ordered preferred device names, each with its ordered hardware UIDs. The model covers its update modes, the choice of the preferred active device, the preference string pair (saving and parsing) and the map of all known devices. Related parts: `Device` identity and equality, and `MacCoreaudioSystem`'s USB-first ordering, name matching and client counters.
- **DirectShow capture devices.** `DSManager::initCaptureDevices` (native code) filters and appends devices, and the destructor tears them down. Each COM call is an outcome recorded with the device.
- **Configuration.** `AbstractScopedConfigurationServiceImpl` looks a property up in three layers: immutable defaults, then the store, then mutable defaults. The model also covers setting, the typed getters, prefix and suffix name queries and the loading of the defaults files. `ChangeEventDispatcher` delivers the change events.
- **Audio buffers updated in place.**
  - `WASAPIRenderer`: `pop`, the remainder copy in `process` and the silence padding in `start`.
  - `MacCoreaudioRenderer`: the grow-only buffer, the `writeOutput` drain and `process`.
  - `MacCoreaudioStream.readInput`: cuts captured bytes into fixed-size buffers.
  - `ByteBufferPool`: the pooling policy.
- **Packets and files.**
  - RTCP header recognition and XR removal in `StatisticsEngine` (section 6.4.1 of RFC 3550, RFC 3611).
  - In `RTPTranslatorImpl`: the big-endian `readInt`, the payload-type rewrite, the ring-buffer write queue, the send-stream reference counts and the received-SSRC set.
  - In `MediaStreamImpl`: the CSRC list, the started direction and the hole-punch packet.
  - WAV header parsing in `WavData` and the support checks in `WavFileVerifier`.
  - The H.264 profile-level-id helpers of `MediaUtils` (section 8.1 of RFC 6184).
  - XML 1.0 character sanitising in `XMLUtils` (section 2.2 of XML 1.0).
- **Small state machines.** Key-frame scheduling in `JNIEncoder`, back-off in `IntervalLogger`, and the listener sets of `MMNotificationClient` and `RTCPReports`.
- **SILK fixed-point arithmetic.** The `SigProcFIX` helpers, `SKP_Silk_sum_sqr_shift` and `SKP_Silk_NLSF_stabilize`.
- **String utilities.** `StringUtils`, `Hasher`, the version comparison and model blocklist of `OSUtils`, `SoundFileUtils`, and the `WASAPISystem` format helpers.

There is one Dafny module per source file. Four support modules carry the Java semantics the models rely on:

- `JavaBase`: null as `Option`, exceptions as `Result`, 32- and 64-bit two's-complement wrap-around, bytes, and the `String` operations used (trim, split, indexOf, parseInt, ASCII case).
- `JavaBits`: `int` shifts and bitwise operators.
- `JavaArrays`: `System.arraycopy` and `Arrays.fill` on `byte[]`.
- `JmfBuffer`: the parts of a JMF `Buffer` and the `PlugIn` return flags that the renderers use.

Classes whose fields the source updates in place become Dafny classes, and their methods are specified by the new state. Pure helpers become functions with lemmas.

Clocks, the network, native calls and the digest algorithm are not modelled directly. Each becomes a parameter or an abstract outcome:

- The current time (`System.currentTimeMillis`) is a `now` argument.
- The outcomes of COM calls, tryLock and `IAudioClient_Start` are inputs.
- SHA-224 is a `digest` function parameter.
- The XR parser is a `parses` predicate.

## Model

| member | source | states |
|---|---|---|
| BufferPool.FirstFit | src/org/jitsi/impl/neomedia/jmfext/media/protocol/ByteBufferPool.java:69-79 | the index of the first pooled buffer whose capacity reaches the request, with every earlier buffer too small, or -1 only when no buffer is large enough |
| BufferPool.PaddedCapacity | src/org/jitsi/impl/neomedia/jmfext/media/protocol/ByteBufferPool.java:64-65 | the request plus AV_INPUT_BUFFER_PADDING_SIZE as a Java int: the exact sum when it fits, a negative (wrapped) value when the addition overflows |
| BufferPool.ByteBufferPool.constructor | src/org/jitsi/impl/neomedia/jmfext/media/protocol/ByteBufferPool.java:34-35 | a new pool holds no buffers |
| BufferPool.ByteBufferPool.Drain | src/org/jitsi/impl/neomedia/jmfext/media/protocol/ByteBufferPool.java:41-50 | the pool is emptied and every buffer it held is freed, in pool order |
| BufferPool.ByteBufferPool.GetBuffer | src/org/jitsi/impl/neomedia/jmfext/media/protocol/ByteBufferPool.java:62-88 | the first pooled buffer holding at least the padded capacity leaves the pool and is returned; when none is large enough a new buffer of exactly the padded capacity is created with the next id, or, when that capacity is below 1 (NeomediaByteBuffer.java:63-67), an IllegalArgumentException leaves the pool unchanged; a returned buffer is never left in the pool and carries the capacity it was created with |
| BufferPool.ByteBufferPool.ReturnBuffer | src/org/jitsi/impl/neomedia/jmfext/media/protocol/ByteBufferPool.java:97-103 | a buffer this pool created is appended unless the pool already holds it, so the pool stays free of duplicates and every pooled id keeps one capacity |
| BufferPool.GetThenReturn | src/org/jitsi/impl/neomedia/jmfext/media/protocol/ByteBufferPool.java:62-103 | a pooled buffer taken by getBuffer and given back by free/returnBuffer leaves the pool holding the same buffers as before |
| ChangeEvents.ChangeEventDispatcher.constructor | src/org/jitsi/impl/configuration/ChangeEventDispatcher.java:42-48 | a new dispatcher has no generic listeners, no child dispatchers and the given source |
| ChangeEvents.ChangeEventDispatcher.Create | src/org/jitsi/impl/configuration/ChangeEventDispatcher.java:42-48 | construction fails exactly when the source object is null; otherwise a fresh dispatcher with that source and no listeners |
| ChangeEvents.ChangeEventDispatcher.AddPropertyChangeListener | src/org/jitsi/impl/configuration/ChangeEventDispatcher.java:56-63 | the listener is appended to the generic listeners and the per-property listeners are untouched |
| ChangeEvents.ChangeEventDispatcher.AddNamedPropertyChangeListener | src/org/jitsi/impl/configuration/ChangeEventDispatcher.java:73-90 | the listener is appended to that property's listeners, which start empty when the property had no child dispatcher; nothing else changes |
| ChangeEvents.ChangeEventDispatcher.RemovePropertyChangeListener | src/org/jitsi/impl/configuration/ChangeEventDispatcher.java:99-104 | only the first occurrence of the listener leaves the generic listeners |
| ChangeEvents.ChangeEventDispatcher.RemoveNamedPropertyChangeListener | src/org/jitsi/impl/configuration/ChangeEventDispatcher.java:112-124 | only the first occurrence of the listener leaves that property's listeners; a property without a child dispatcher leaves everything unchanged |
| ChangeEvents.ChangeEventDispatcher.FirePropertyChange | src/org/jitsi/impl/configuration/ChangeEventDispatcher.java:154-193 | the listeners notified, in order, are those of the delivery specification: none for a suppressed event, else the generic listeners then the named property's |
| ChangeEvents.ChangeEventDispatcher.FireChange | src/org/jitsi/impl/configuration/ChangeEventDispatcher.java:135-146 | the three-argument form notifies exactly whom the event built from its arguments reaches |
| ChangeEvents.HasListenersIffDelivered | src/org/jitsi/impl/configuration/ChangeEventDispatcher.java:202-218 | hasPropertyChangeListeners(name) holds exactly when a real change of that property reaches at least one listener |
| ChangeEvents.DeliveredOrder | src/org/jitsi/impl/configuration/ChangeEventDispatcher.java:154-193 | an event whose old and new values are equal and non-null reaches nobody; any other reaches every generic listener first, in order, followed by exactly the named property's listeners |
| ChangeEvents.UnnamedReachesGeneric | src/org/jitsi/impl/configuration/ChangeEventDispatcher.java:185-192 | an event without a property name reaches the generic listeners and no one else |
| ChangeEvents.AddedListenerNotified | src/org/jitsi/impl/configuration/ChangeEventDispatcher.java:73-90 | after a listener registers for a property, a real change of that property reaches it, as the last one notified |
| DeviceInfo.GetIdentifier | src/org/jitsi/impl/neomedia/device/Device.java:139-142 | the identifier used for device preferences is the UID when there is one, else the name, which may be null |
| DeviceInfo.GetModelIdentifier | src/org/jitsi/impl/neomedia/device/Device.java:159-162 | the model identifier when there is one, else the name, which may be null |
| DeviceInfo.IsSameTransportType | src/org/jitsi/impl/neomedia/device/Device.java:185-188 | true exactly when the given transport type equals the device's, both possibly null |
| DeviceInfo.EqualsIff | src/org/jitsi/impl/neomedia/device/Device.java:87-130 | equals is false for null and true for the same object; otherwise it throws a NullPointerException exactly when the locators agree (both null, or with equal and possibly null protocols) and this device's identifier is null, and it holds exactly when the locators agree and the identifiers are equal and non-null |
| DeviceInfo.EqualsEquivalence | src/org/jitsi/impl/neomedia/device/Device.java:87-130 | on devices with a non-null identifier, equals is reflexive, symmetric and transitive; transitivity holds for any devices |
| DeviceInfo.StringHashCode | src/org/jitsi/impl/neomedia/device/Device.java:172 | String.hashCode of the identifier is a Java int (the polynomial in 31 wrapped to 32 bits) |
| DeviceInfo.HashCode | src/org/jitsi/impl/neomedia/device/Device.java:170-173 | hashCode throws a NullPointerException exactly when the identifier is null |
| DeviceInfo.HashCodeAgreesWithEquals | src/org/jitsi/impl/neomedia/device/Device.java:170-173 | devices that are equal have the same hash code, and neither hashCode throws |
| DeviceInfo.CloseParen | src/org/jitsi/impl/neomedia/device/Device.java:203 | the first ')' at or after a position that no line terminator precedes; none exactly when every later ')' comes after a line terminator |
| DeviceInfo.FindGroup | src/org/jitsi/impl/neomedia/device/Device.java:203-207 | the match Matcher.find of \(.*?\) returns: the first '(' that a ')' follows on the same line, with the nearest such ')'; none exactly when no '(' has a ')' after it on its line |
| DeviceInfo.GetNameWithoutDeviceType | src/org/jitsi/impl/neomedia/device/Device.java:199-213 | a null name throws a NullPointerException in Pattern.matcher; otherwise the result is no longer than the name |
| DeviceInfo.NoParenthesesKeepsName | src/org/jitsi/impl/neomedia/device/Device.java:199-213 | a non-null name without '(' is returned whole |
| DeviceInfo.ParenthesisedPart | src/org/jitsi/impl/neomedia/device/Device.java:190-213 | "Headset Microphone (Jabra UC VOICE 550a MS)" gives "Jabra UC VOICE 550a MS": a prefix without '(' followed by a bracketed part without ')' or line breaks yields that part, whatever follows |
| DeviceLists.PlacedKeepsDistinct | src/org/jitsi/impl/neomedia/device/DeviceListManager.java:590-595 | moving or inserting a name (or a UID) keeps the list free of duplicates and leaves the entry on it |
| DeviceLists.PlacedMembers | src/org/jitsi/impl/neomedia/device/DeviceListManager.java:590-595 | placing an entry adds exactly that entry to the list's elements and removes none |
| DeviceLists.PlacedKeepsOthers | src/org/jitsi/impl/neomedia/device/DeviceListManager.java:593-594 | the other entries keep their relative order |
| DeviceLists.PlacedByMode | src/org/jitsi/impl/neomedia/device/DeviceListManager.java:590-595 | PUT_AT_START makes the entry the first even when it was present; the IF_ABSENT modes leave a present entry where it is; an absent entry goes to the front for the at-start modes and to the back otherwise |
| DeviceLists.RemoveFirstMembers | src/org/jitsi/impl/neomedia/device/DeviceListManager.java:593 | List.remove on a duplicate-free list removes that element and keeps every other |
| DeviceLists.UpdateWellFormed | src/org/jitsi/impl/neomedia/device/DeviceListManager.java:577-611 | updateDeviceList keeps names and each name's UIDs free of duplicates, makes the device known, forgets nothing, adds only the device's name, and leaves other names' UID lists alone; a device with a null name or a null UID changes nothing (DeviceListManager.java:582-588); under an IF_ABSENT mode a device already known changes nothing |
| DeviceLists.UpdatePlaces | src/org/jitsi/impl/neomedia/device/DeviceListManager.java:590-610 | for a device with a non-null name and UID, the name list gains exactly its name and its UID list holds its UID |
| DeviceLists.UpdateRemembers | src/org/jitsi/impl/neomedia/device/DeviceListManager.java:577-611 | every name and UID known before updateDeviceList is still known after it |
| DeviceLists.ReorderedKnowsActive | src/org/jitsi/impl/neomedia/device/DeviceListManager.java:431-474 | reordering makes every active device with a non-null name and UID known, forgets nothing, keeps the preferences free of duplicates and adds exactly the names of the active devices that have a name and a UID |
| DeviceLists.ReorderedAllKnown | src/org/jitsi/impl/neomedia/device/DeviceListManager.java:442-473 | when every active device is already known, reorderDevicePreferences changes nothing, because both modes it uses are IF_ABSENT |
| DeviceLists.ReorderIdempotent | src/org/jitsi/impl/neomedia/device/DeviceListManager.java:431-474 | reordering a second time changes nothing, whatever the selected device and the emptiness of the list then |
| DeviceLists.NamedMembers | src/org/jitsi/impl/neomedia/device/DeviceListManager.java:530-541 | the name-matching devices are exactly the active devices with that (non-null) name; `pref.equals(null)` is false, so a device with a null name never matches |
| DeviceLists.WithUidFirst | src/org/jitsi/impl/neomedia/device/DeviceListManager.java:554-562 | the inner UID search finds a device exactly when some matching device carries the UID, and what it finds is such a device |
| DeviceLists.ByUidFirst | src/org/jitsi/impl/neomedia/device/DeviceListManager.java:552-563 | the UID loop finds a device exactly when some UID of the list is carried by a matching device, and it is one carrying the earliest such UID |
| DeviceLists.ChooseFirstByUid | src/org/jitsi/impl/neomedia/device/DeviceListManager.java:543-571 | among the devices matching a name, the one on the earliest of the name's UIDs wins; when none carries a listed UID, the first matching device does |
| DeviceLists.FirstDecisive | src/org/jitsi/impl/neomedia/device/DeviceListManager.java:518-572 | the first preferred name that is "none" or matches an active device, or -1 |
| DeviceLists.FirstDecisiveIsFirst | src/org/jitsi/impl/neomedia/device/DeviceListManager.java:518-572 | -1 exactly when no preferred name is decisive, and otherwise no earlier name is |
| DeviceLists.PreferredFromFirstDecisive | src/org/jitsi/impl/neomedia/device/DeviceListManager.java:513-575 | getPreferredDevice is null when the "none" preference, or no matching name, comes first; otherwise it is the device chosen among the active devices with the first matching name |
| DeviceLists.PreferredIsActive | src/org/jitsi/impl/neomedia/device/DeviceListManager.java:513-575 | the preferred device is an active device whose name is non-null and a preferred name |
| DeviceLists.NonNullMembers | src/org/jitsi/impl/neomedia/device/DeviceListManager.java:145-156 | a device is kept exactly when it is a non-null entry, and the list does not grow |
| DeviceLists.NonNullConcat | src/org/jitsi/impl/neomedia/device/DeviceListManager.java:145-156 | the filter keeps the entries in their order |
| DeviceLists.Entries | src/org/jitsi/impl/neomedia/device/DeviceListManager.java:637-653 | one saved entry per preferred name, in preference order |
| DeviceLists.LineEnd | src/org/jitsi/impl/neomedia/device/DeviceListManager.java:332 | the end of the line a position is on: the first line terminator at or after it, or the end of the string |
| DeviceLists.LastMarker | src/org/jitsi/impl/neomedia/device/DeviceListManager.java:332 | where the greedy group 1 of name:(.+) uid:(.+) stops: the last " uid:" on the line that has text after it |
| DeviceLists.AddAllAbsentDistinct | src/org/jitsi/impl/neomedia/device/DeviceListManager.java:357-364 | adding the parsed UIDs that are absent keeps the UID list free of duplicates, keeps the old UIDs first, in order, and adds exactly the new ones |
| DeviceLists.AddAllAbsentFresh | src/org/jitsi/impl/neomedia/device/DeviceListManager.java:350-364 | a duplicate-free UID list added to a name without UIDs is stored as it is |
| DeviceLists.ParseEntryWellFormed | src/org/jitsi/impl/neomedia/device/DeviceListManager.java:344-366 | parsing one entry never adds a duplicate name or a duplicate UID |
| DeviceLists.ParseEntriesWellFormed | src/org/jitsi/impl/neomedia/device/DeviceListManager.java:329-368 | parseDeviceListString, whatever the entries, keeps the names and every UID list free of duplicates |
| DeviceLists.StorableWellFormed | src/org/jitsi/impl/neomedia/device/DeviceListManager.java:58-66 | preferences whose names and UIDs can be written and read back are free of duplicates |
| DeviceLists.UidTextSplits | src/org/jitsi/impl/neomedia/device/DeviceListManager.java:663-679 | splitting the saved UID text on ';' gives back the UIDs in order, or the dummy UID "1234" for an empty list |
| DeviceLists.EntryMatches | src/org/jitsi/impl/neomedia/device/DeviceListManager.java:332-336 | the regular expression finds the name and the UID text in a saved entry "name:N uid:U" |
| DeviceLists.ParseEntryFresh | src/org/jitsi/impl/neomedia/device/DeviceListManager.java:344-366 | loading a saved entry for a new name appends the name and stores its saved UID list |
| DeviceLists.SavedMapLookup | src/org/jitsi/impl/neomedia/device/DeviceListManager.java:663-679 | after loading, exactly the saved names have a UID list, and it is the list saved for them |
| DeviceLists.ParseSaved | src/org/jitsi/impl/neomedia/device/DeviceListManager.java:322-368 | loading the first i saved entries into empty preferences gives the first i names, with their saved UIDs |
| DeviceLists.EntryUnquoted | src/org/jitsi/impl/neomedia/device/DeviceListManager.java:645-652 | a saved entry is non-empty and holds no quote, so a later split on the entry separator is clean |
| DeviceLists.ListGuardAdmitsShort | src/org/jitsi/impl/neomedia/device/DeviceListManager.java:298-303 | the three-character string ["] passes the startsWith/endsWith test, yet substring(2, length - 2) cannot cut its ends off |
| DeviceLists.SafeListGuardParses | src/org/jitsi/impl/neomedia/device/DeviceListManager.java:298-303 | what passes the corrected test (at least four characters) has its entry list cut out |
| DeviceLists.EntriesSplit | src/org/jitsi/impl/neomedia/device/DeviceListManager.java:326-327 | splitting the joined entries on the separator gives back the entries |
| DeviceLists.PreferenceStringCut | src/org/jitsi/impl/neomedia/device/DeviceListManager.java:635-658 | a saved preference string passes the corrected test, and cutting off its ends gives the entries joined |
| DeviceLists.PreferenceStringRoundTrip | src/org/jitsi/impl/neomedia/device/DeviceListManager.java:322-368 | saving with getPreferenceString (the form ["name:N uid:U1;U2", ...]) and then parsing into empty preferences gives back the names in order, each with its saved UID list: its UIDs in order, with the dummy UID for an empty list |
| DeviceLists.ParseNothingSaved | src/org/jitsi/impl/neomedia/device/DeviceListManager.java:637-657 | the saved string of no preferences loads as no preferences |
| DeviceLists.Keys | src/org/jitsi/impl/neomedia/device/DeviceListManager.java:175 | the keys of the LinkedHashMap, in insertion order |
| DeviceLists.KeyIndex | src/org/jitsi/impl/neomedia/device/DeviceListManager.java:202 | the position of a key, -1 exactly when the key is absent |
| DeviceLists.PutSemantics | src/org/jitsi/impl/neomedia/device/DeviceListManager.java:202 | put keeps the keys distinct, makes the key map to the value, leaves every other key's value alone, and adds the key at the end only when it was absent |
| DeviceLists.DeviceUids | src/org/jitsi/impl/neomedia/device/DeviceListManager.java:182-188 | the UIDs of the devices, in order |
| DeviceLists.NumberedLabelsDiffer | src/org/jitsi/impl/neomedia/device/DeviceListManager.java:197-198 | different numbers give different map keys |
| DeviceLists.PutNamedKeys | src/org/jitsi/impl/neomedia/device/DeviceListManager.java:193-205 | after the second loop has passed active devices up to i, the t-th same-named device so far is under its own key with its UID, and the keys stay distinct |
| DeviceLists.PutPreferenceKeys | src/org/jitsi/impl/neomedia/device/DeviceListManager.java:176-211 | for one preferred name: with no active device of that name it maps to null; otherwise the t-th same-named device (with distinct UIDs) is under "name t+1", or under the plain name when it is the only one, with its UID |
| DeviceLists.AllKnownDevicesDistinct | src/org/jitsi/impl/neomedia/device/DeviceListManager.java:173-215 | the map getAllKnownDevices returns never holds a key twice |
| DeviceLists.DeviceListManager.constructor | src/org/jitsi/impl/neomedia/device/DeviceListManager.java:58-83 | a new manager has no preferences, no UID lists, no active devices and no selected device |
| DeviceLists.DeviceListManager.GetDevice | src/org/jitsi/impl/neomedia/device/DeviceListManager.java:111-130 | some device is returned exactly when the locator is non-null and an active device has an equal locator (same protocol and same remainder); it is the first such device |
| DeviceLists.DeviceListManager.SetActiveDevices | src/org/jitsi/impl/neomedia/device/DeviceListManager.java:137-158 | a null list is ignored; otherwise the active devices become the non-null entries in order; preferences are untouched |
| DeviceLists.DeviceListManager.UpdateDeviceList | src/org/jitsi/impl/neomedia/device/DeviceListManager.java:577-611 | the preferences become the updateDeviceList specification of the old ones, which the Update lemmas characterise; a device with a null name or a null UID returns early and changes nothing |
| DeviceLists.DeviceListManager.PlaceIn | src/org/jitsi/impl/neomedia/device/DeviceListManager.java:590-595 | the list step matches the Placed specification (see PlacedByMode) |
| DeviceLists.NameIndex | src/org/jitsi/impl/neomedia/device/DeviceListManager.java:457-458 | `indexOf` of the selected device's name: -1 exactly when the name is null or not preferred, else its first position |
| DeviceLists.DeviceListManager.ReorderDevicePreferences | src/org/jitsi/impl/neomedia/device/DeviceListManager.java:431-474 | the preferences become the Reordered specification of the old ones over all active devices, last to first, with the emptiness taken once before the loop |
| DeviceLists.DeviceListManager.MatchingDevices | src/org/jitsi/impl/neomedia/device/DeviceListManager.java:530-541 | the active devices with the given name, in order |
| DeviceLists.DeviceListManager.FindWithUid | src/org/jitsi/impl/neomedia/device/DeviceListManager.java:554-562 | the first matching device with the given UID |
| DeviceLists.DeviceListManager.FindByUid | src/org/jitsi/impl/neomedia/device/DeviceListManager.java:552-563 | the device the UID loop returns, as ByUidFirst characterises |
| DeviceLists.DeviceListManager.GetPreferredDevice | src/org/jitsi/impl/neomedia/device/DeviceListManager.java:513-575 | the preferred device of the specification PreferredFromFirstDecisive characterises |
| DeviceLists.DeviceListManager.GetPreferenceString | src/org/jitsi/impl/neomedia/device/DeviceListManager.java:635-679 | the saved string of the preferences, whose round trip PreferenceStringRoundTrip proves |
| DeviceLists.DeviceListManager.AddAbsentUids | src/org/jitsi/impl/neomedia/device/DeviceListManager.java:357-364 | each parsed UID the list does not hold yet is appended, in order |
| DeviceLists.DeviceListManager.ParseDeviceListString | src/org/jitsi/impl/neomedia/device/DeviceListManager.java:322-369 | the names are emptied first; a string too short for substring(2, length - 2) throws with the names empty, otherwise every entry's name and UIDs are added |
| DeviceLists.DeviceListManager.ParseDevice | src/org/jitsi/impl/neomedia/device/DeviceListManager.java:344-366 | one entry is parsed as the ParseEntry specification says, and the preferences stay free of duplicate names and UIDs |
| DeviceLists.DeviceListManager.LoadDevicePreferences | src/org/jitsi/impl/neomedia/device/DeviceListManager.java:291-304 | with the corrected test, a stored string that looks like a list of entries is parsed and anything else leaves the preferences alone |
| DeviceLists.DeviceListManager.MatchingUids | src/org/jitsi/impl/neomedia/device/DeviceListManager.java:179-188 | the UIDs of the active devices with the preferred name, in order |
| DeviceLists.DeviceListManager.PutNamedDevices | src/org/jitsi/impl/neomedia/device/DeviceListManager.java:193-205 | puts every same-named active device under its label and reports whether there was one |
| DeviceLists.DeviceListManager.GetAllKnownDevices | src/org/jitsi/impl/neomedia/device/DeviceListManager.java:173-215 | the map of the AllKnownDevices specification, with the key properties of PutPreferenceKeys |
| DsManager.AppendedIff | src/native/windows/directshow/DSManager.cpp:115-216 | a record is in the list exactly when some moniker produced it that is not a VfW capture device, whose FriendlyName and DevicePath were read and whose initDevice succeeded; so there are never more records than monikers |
| DsManager.CreatedSplit | src/native/windows/directshow/DSManager.cpp:189-203 | every record created is either appended or deleted |
| DsManager.Manager.constructor | src/native/windows/directshow/DSManager.cpp:25-48 | when CoInitializeEx succeeds the capture devices are enumerated, so the manager holds exactly the appended records and has deleted exactly the discarded ones; when it fails, or no enumerator is available, the manager holds no devices and has deleted nothing |
| DsManager.Manager.EnumerateDevices | src/native/windows/directshow/DSManager.cpp:115-216 | the loop over the monikers Next yields appends exactly the records of the Appended specification, in order, and deletes exactly the records whose initDevice failed |
| DsManager.Manager.InitCaptureDevices | src/native/windows/directshow/DSManager.cpp:70-221 | the previous records are deleted and the list emptied first; when CoCreateInstance or CreateClassEnumerator fails, or yields S_FALSE, the list stays empty; otherwise it holds exactly the appended records |
| DsManager.Manager.Destroy | src/native/windows/directshow/DSManager.cpp:50-63 | the destructor deletes every record and empties the list |
| Hasher.HexDigit | src/org/jitsi/util/Hasher.java:188-189 | an entry of the conversion table is a lowercase hex digit |
| Hasher.Hex | src/org/jitsi/util/Hasher.java:213-215 | a byte gives exactly two hex digits |
| Hasher.HexOf | src/org/jitsi/util/Hasher.java:211-216 | two hex digits per byte |
| Hasher.HexOfPrefix | src/org/jitsi/util/Hasher.java:209-216 | the hex form of the first i bytes is the first 2i characters of the hex form |
| Hasher.HexOfAt | src/org/jitsi/util/Hasher.java:213-215 | byte i sits at characters 2i and 2i+1, high nibble ((b & 0xF0) >>> 4) first, then the low nibble (b & 0x0F) |
| Hasher.HexToString | src/org/jitsi/util/Hasher.java:186-228 | the output is the hex form of the digest cut to min(safeMaxLength, 2 * length) characters: the first min(safeMaxLength/2, length) bytes, plus the high nibble of the next byte when safeMaxLength is odd and such a byte exists |
| Hasher.HexBytes | src/org/jitsi/util/Hasher.java:211-216 | the byte loop appends the hex form of the first n bytes |
| Hasher.HashText | src/org/jitsi/util/Hasher.java:157-183 | the hash text of a non-blank string never exceeds the requested length, or 0 for a negative one |
| Hasher.HasherState.constructor | src/org/jitsi/util/Hasher.java:45-46 | no salt and no digest yet |
| Hasher.HasherState.SetSalt | src/org/jitsi/util/Hasher.java:59-62 | the salt becomes the new one |
| Hasher.HasherState.Sha224 | src/org/jitsi/util/Hasher.java:149-184 | null or blank text comes back unchanged; when no digest exists and SHA-224 is unavailable the text is redacted; otherwise the digest exists afterwards and the result is the hex of the digest cut to max(maxLength, 0) characters |
| Hasher.HasherState.HashPersonalData | src/org/jitsi/util/Hasher.java:126-136 | null or blank text comes back unchanged and creates no digest; otherwise the first 10 hex digits (or, when no digest exists and SHA-224 is unavailable, the redaction text) followed by "(hash)", the digest existing afterwards exactly when it was used |
| Hasher.HasherState.LogHasher | src/org/jitsi/util/Hasher.java:107-114 | null, blank and the safe literals ("null", "0", "1", "-1", "true", "false") come back unchanged; anything else is salted and hashed to 10 hex digits and "(hash)" |
| Hasher.HasherState.LogHasherObject | src/org/jitsi/util/Hasher.java:79-85 | a null object logs as "null"; a safe text comes back unchanged; any other text is salted and hashed to 10 hex digits and "(hash)", or redacted when no digest exists and SHA-224 is unavailable, exactly as logHasher(String) |
| Hasher.SaltedNotBlank | src/org/jitsi/util/Hasher.java:111-112 | prefixing the salt keeps a non-blank text non-blank, so hashPersonalData hashes it |
| Hasher.HashTextIsPrefix | src/org/jitsi/util/Hasher.java:157-183 | the hash text is a prefix of the digest's full hex form, of length min(max(maxLength, 0), 2 * digest length) |
| Hasher.TenDigitsAreFiveBytes | src/org/jitsi/util/Hasher.java:133-135 | a SHA-224 digest (28 bytes) cut to 10 characters is the hex form of its first five bytes |
| IntervalLogger.BitTrickPow2 | src/org/jitsi/util/IntervalLogger.java:100-101 | for a positive count the bit trick n & (n - 1) == 0 holds exactly for the powers of two |
| IntervalLogger.ShouldLogSmall | src/org/jitsi/util/IntervalLogger.java:95-102 | up to MAX_INTERVAL (1024) prior attempts a message is logged exactly when the prior count is 0 or a power of two: attempts 0, 1, 2, 4, 8, ... |
| IntervalLogger.ShouldLogLarge | src/org/jitsi/util/IntervalLogger.java:89-94 | past 1024 prior attempts a message is logged exactly when the count is a multiple of 1024 |
| IntervalLogger.IntervalLogger.constructor | src/org/jitsi/util/IntervalLogger.java:23-39 | no message has been counted and nothing has been logged |
| IntervalLogger.IntervalLogger.ShouldLog | src/org/jitsi/util/IntervalLogger.java:82-108 | the decision is the interval test on the prior count (0 for an unseen message), and the count becomes the prior count plus one, wrapped to a Java int |
| IntervalLogger.IntervalLogger.Debug | src/org/jitsi/util/IntervalLogger.java:50-54 | the message is counted, and logged at DEBUG exactly when the interval test passes |
| IntervalLogger.IntervalLogger.IsFirstLogAsWritten | src/org/jitsi/util/IntervalLogger.java:116-121 | as written, isFirstLog is true exactly when the message HAS been counted before |
| IntervalLogger.IntervalLogger.ErrorAndIntervalDebugAsWritten | src/org/jitsi/util/IntervalLogger.java:64-74 | as written: a counted message is logged at ERROR without being counted; an unseen one goes through shouldLog |
| IntervalLogger.IntervalLogger.ErrorAndIntervalDebug | src/org/jitsi/util/IntervalLogger.java:56-74 | as documented: the first attempt at a message is logged as an error, later ones are interval-logged at debug level, and every attempt is counted |
| IntervalLogger.AsWrittenInverted | src/org/jitsi/util/IntervalLogger.java:64-121 | as written, a fresh message is logged at DEBUG on its first call and at ERROR on the second, after which its counter stays at 1 |
| IntervalLogger.AsWrittenFirst | src/org/jitsi/util/IntervalLogger.java:66-72 | as written, the first call on a fresh message logs it at DEBUG and counts it once |
| IntervalLogger.FirstAttemptLogged | src/org/jitsi/util/IntervalLogger.java:95-102 | the very first attempt at a message always passes the interval test |
| IntervalLogger.AsWrittenErrorsForever | src/org/jitsi/util/IntervalLogger.java:66-69 | as written, a message already counted is logged at ERROR on every call and its counter never moves |
| IntervalLogger.IntendedFirstIsError | src/org/jitsi/util/IntervalLogger.java:56-74 | as documented: the first call logs an error, later calls log at debug on prior counts 1, 2, 4, 8, ..., and every call is counted |
| JniEncoder.Frames | src/org/jitsi/impl/neomedia/codec/video/h264/JNIEncoder.java:452-490 | the key-frame decisions of the next n frames, one per frame |
| JniEncoder.NextFrameScheduled | src/org/jitsi/impl/neomedia/codec/video/h264/JNIEncoder.java:477-487 | isKeyFrame keeps the countdown between 0 and 30 |
| JniEncoder.FirstFrames | src/org/jitsi/impl/neomedia/codec/video/h264/JNIEncoder.java:242-289 | a new encoder makes its first three frames key frames: two forced ones, then the countdown, which starts at 0, fires; afterwards the countdown is at 30 with nothing forced |
| JniEncoder.CountDown | src/org/jitsi/impl/neomedia/codec/video/h264/JNIEncoder.java:477-487 | with nothing forced and the countdown at c, the next c - 1 frames are ordinary, the c-th is a key frame, and the countdown is back at 30 |
| JniEncoder.RegularKeyFrames | src/org/jitsi/impl/neomedia/codec/video/h264/JNIEncoder.java:481-486 | in steady state every period of 30 frames holds exactly one key frame, its last, and returns to the same state |
| JniEncoder.PacketizationModeValues | src/org/jitsi/impl/neomedia/codec/video/h264/JNIEncoder.java:1021-1035 | null and "0" select mode "0", "1" selects "1", and any other value throws IllegalArgumentException |
| JniEncoder.OfferedModesAfterSet | src/org/jitsi/impl/neomedia/codec/video/h264/JNIEncoder.java:386-389 | while no mode is set the output formats offer both "0" and "1"; once setPacketizationMode accepts a mode only that mode is offered, "0" exactly for null or "0" |
| JniEncoder.ProfileChoice | src/org/jitsi/impl/neomedia/codec/video/h264/JNIEncoder.java:203-218 | "baseline" in any case gives CONSTRAINED_BASELINE, "high" in any case HIGH, and null or any other name MAIN |
| JniEncoder.Encoder.constructor | src/org/jitsi/impl/neomedia/codec/video/h264/JNIEncoder.java:242-289 | a new encoder forces the first and the second frame, the countdown is 0, the last request time is the construction time, and no packetization mode is set (null), which open() treats as the single-NAL mode |
| JniEncoder.Encoder.IsKeyFrame | src/org/jitsi/impl/neomedia/codec/video/h264/JNIEncoder.java:452-490 | the decision and the new state follow the key-frame schedule NextFrame, whose sequences the lemmas above describe |
| JniEncoder.Encoder.KeyFrameRequest | src/org/jitsi/impl/neomedia/codec/video/h264/JNIEncoder.java:499-509 | a request is honoured, forcing the next frame to be a key frame and recording the time, only when more than PLI_INTERVAL (3000 ms) have passed since the last one; it always reports true |
| JniEncoder.Encoder.SetPacketizationMode | src/org/jitsi/impl/neomedia/codec/video/h264/JNIEncoder.java:1021-1035 | a valid mode is stored, no longer null, as PacketizationModeValues says, and open() reads it as single-NAL exactly when the argument was null or "0" (JNIEncoder.java:690); an invalid one throws and leaves the mode alone |
| MacCoreaudioRender.MaximumProcessBufferSize | src/org/jitsi/impl/neomedia/jmfext/media/renderer/audio/MacCoreaudioRenderer.java:586 | the maximum process buffer size is a Java int |
| MacCoreaudioRender.MaximumIsHalfASecond | src/org/jitsi/impl/neomedia/jmfext/media/renderer/audio/MacCoreaudioRenderer.java:580-586 | for a real format the maximum is the bytes of 500 ms rounded down: the bytes per second are twice it, or one more |
| MacCoreaudioRender.MacCoreaudioRenderer.constructor | src/org/jitsi/impl/neomedia/jmfext/media/renderer/audio/MacCoreaudioRenderer.java:208-211 | no buffer and no waiting data, the default maximum, no stream and no device UID |
| MacCoreaudioRender.MacCoreaudioRenderer.SetInputFormat | src/org/jitsi/impl/neomedia/jmfext/media/renderer/audio/MacCoreaudioRenderer.java:578-590 | the maximum becomes the one the format gives |
| MacCoreaudioRender.MacCoreaudioRenderer.UpdateBufferLength | src/org/jitsi/impl/neomedia/jmfext/media/renderer/audio/MacCoreaudioRenderer.java:803-827 | the buffer only grows and keeps the waiting data: a missing buffer is created with the new length, a shorter one is replaced by a new one of the new length, a long enough one stays |
| MacCoreaudioRender.MacCoreaudioRenderer.WriteOutput | src/org/jitsi/impl/neomedia/jmfext/media/renderer/audio/MacCoreaudioRenderer.java:719-767 | without the lock nothing changes; with it the first min(held, bufferLength) waiting bytes go to the output, silence fills the rest of its bufferLength bytes, the bytes past bufferLength are untouched, and the waiting data lose exactly the bytes rendered |
| MacCoreaudioRender.MacCoreaudioRenderer.Emit | src/org/jitsi/impl/neomedia/jmfext/media/renderer/audio/MacCoreaudioRenderer.java:737-742 | the output holds the bytes taken, then zeros up to bufferLength, then its old bytes |
| MacCoreaudioRender.MacCoreaudioRenderer.Consume | src/org/jitsi/impl/neomedia/jmfext/media/renderer/audio/MacCoreaudioRenderer.java:744-753 | the rendered bytes leave the front of the waiting data and the rest moves to the front |
| MacCoreaudioRender.MacCoreaudioRenderer.Process | src/org/jitsi/impl/neomedia/jmfext/media/renderer/audio/MacCoreaudioRenderer.java:460-554 | without a running stream the input is dropped with BUFFER_PROCESSED_OK; otherwise the buffer grows to at least max(2 * length, min(held + length, maximum)); input that fits is appended whole; input that does not fit makes a blocking renderer return INPUT_BUFFER_NOT_CONSUMED without taking any, and a non-blocking one append what fits |
| MacCoreaudioRender.MacCoreaudioRenderer.Append | src/org/jitsi/impl/neomedia/jmfext/media/renderer/audio/MacCoreaudioRenderer.java:537-543 | the input bytes are appended to the waiting data |
| MacCoreaudioRender.MacCoreaudioRenderer.UpdateDeviceUID | src/org/jitsi/impl/neomedia/jmfext/media/renderer/audio/MacCoreaudioRenderer.java:774-795 | the UID is updated, to the remainder without its first character, exactly when the locator has a remainder longer than one character; otherwise the UID is left alone |
| MacCoreaudioCapture.FramesPerBuffer | src/org/jitsi/impl/neomedia/jmfext/media/protocol/maccoreaudio/MacCoreaudioStream.java:211-213 | the frames per buffer are a Java int |
| MacCoreaudioCapture.BytesPerBuffer | src/org/jitsi/impl/neomedia/jmfext/media/protocol/maccoreaudio/MacCoreaudioStream.java:214 | the bytes per buffer are a Java int |
| MacCoreaudioCapture.BytesPerBufferWholeFrames | src/org/jitsi/impl/neomedia/jmfext/media/protocol/maccoreaudio/MacCoreaudioStream.java:205-214 | for a real format a buffer holds a whole, positive number of frames of (sampleSizeInBits / 8) * channels bytes, and that number is the frames per buffer |
| MacCoreaudioCapture.NarrowSamplesGiveEmptyBuffers | src/org/jitsi/impl/neomedia/jmfext/media/protocol/maccoreaudio/MacCoreaudioStream.java:214 | samples narrower than a byte make bytesPerBuffer 0 |
| MacCoreaudioCapture.MacCoreaudioStream.constructor | src/org/jitsi/impl/neomedia/jmfext/media/protocol/maccoreaudio/MacCoreaudioStream.java:357-366 | the state start leaves: a current buffer of bytesPerBuffer bytes, empty, and no full or free buffers |
| MacCoreaudioCapture.MacCoreaudioStream.ReadInput | src/org/jitsi/impl/neomedia/jmfext/media/protocol/maccoreaudio/MacCoreaudioStream.java:429-482 | every captured byte is copied, in order: the buffers already full stay as they were, the buffers filled meanwhile follow them whole, and the bytes left are pending in the current buffer; free buffers are only taken from the front |
| MacCoreaudioCapture.MacCoreaudioStream.CopyAll | src/org/jitsi/impl/neomedia/jmfext/media/protocol/maccoreaudio/MacCoreaudioStream.java:431-481 | the loop of readInput copies all bufferLength bytes into the buffers |
| MacCoreaudioCapture.MacCoreaudioStream.CopyChunk | src/org/jitsi/impl/neomedia/jmfext/media/protocol/maccoreaudio/MacCoreaudioStream.java:434-480 | one pass copies as many bytes as fit and hands the current buffer over once full |
| MacCoreaudioCapture.MacCoreaudioStream.AppendStep | src/org/jitsi/impl/neomedia/jmfext/media/protocol/maccoreaudio/MacCoreaudioStream.java:434-449 | the copy of one pass appends that pass's bytes to the pending data |
| MacCoreaudioCapture.MacCoreaudioStream.HandOverStep | src/org/jitsi/impl/neomedia/jmfext/media/protocol/maccoreaudio/MacCoreaudioStream.java:451-480 | the hand-over of a full buffer keeps all copied bytes in order |
| MacCoreaudioCapture.MacCoreaudioStream.Append | src/org/jitsi/impl/neomedia/jmfext/media/protocol/maccoreaudio/MacCoreaudioStream.java:440-447 | the bytes are appended to the current buffer's data |
| MacCoreaudioCapture.MacCoreaudioStream.HandOver | src/org/jitsi/impl/neomedia/jmfext/media/protocol/maccoreaudio/MacCoreaudioStream.java:451-480 | the full buffer joins fullBufferList and the count restarts at 0; the next buffer is the first free one when tryLock succeeds and there is one, else a new buffer of bytesPerBuffer bytes |
| MacCoreaudioSystem.UsbSplitPermutes | src/org/jitsi/impl/neomedia/device/MacCoreaudioSystem.java:400-418 | the USB and the non-USB devices together are exactly the devices of the list |
| MacCoreaudioSystem.UsbSplitMembers | src/org/jitsi/impl/neomedia/device/MacCoreaudioSystem.java:408-411 | a device goes to the non-USB part exactly when its transport type is not USB |
| MacCoreaudioSystem.UsbFirstPartition | src/org/jitsi/impl/neomedia/device/MacCoreaudioSystem.java:396-420 | putting the USB devices first is a stable partition: a permutation whose front holds only USB devices and whose back only the others |
| MacCoreaudioSystem.BubbleUpUsbDevices | src/org/jitsi/impl/neomedia/device/MacCoreaudioSystem.java:396-420 | the list becomes its USB devices followed by its other devices, each part in its original order |
| MacCoreaudioSystem.StripNoiseClean | src/org/jitsi/impl/neomedia/device/MacCoreaudioSystem.java:716-719 | what the pattern array/headphones/microphone/speakers/space/parentheses leaves has no white space and no parentheses, and is no longer than the name |
| MacCoreaudioSystem.FindMatch | src/org/jitsi/impl/neomedia/device/MacCoreaudioSystem.java:740-759 | the index of the first remaining playback device whose name is not null and whose stripped name equals the key, or -1 exactly when there is none |
| MacCoreaudioSystem.MatchStepPermutes | src/org/jitsi/impl/neomedia/device/MacCoreaudioSystem.java:726-770 | one pass moves the capture device to one of the two capture lists and at most one playback device out of the remaining ones |
| MacCoreaudioSystem.MatchPrefixPairs | src/org/jitsi/impl/neomedia/device/MacCoreaudioSystem.java:760-767 | the matched devices pair up one to one, at equal indices, with equal and non-empty stripped names, so neither has a null name |
| MacCoreaudioSystem.MatchPrefixPermutesCapture | src/org/jitsi/impl/neomedia/device/MacCoreaudioSystem.java:726-770 | matching only moves capture devices |
| MacCoreaudioSystem.MatchPrefixPermutesPlayback | src/org/jitsi/impl/neomedia/device/MacCoreaudioSystem.java:740-766 | matching only moves playback devices, so none is matched twice |
| MacCoreaudioSystem.MatchedPairsFirst | src/org/jitsi/impl/neomedia/device/MacCoreaudioSystem.java:710-777 | afterwards both lists are permutations of what they were and begin with the matched pairs, in capture order, at equal indices |
| MacCoreaudioSystem.FindMatchingPlayback | src/org/jitsi/impl/neomedia/device/MacCoreaudioSystem.java:740-759 | the inner loop finds the FindMatch index |
| MacCoreaudioSystem.FindMatchFirst | src/org/jitsi/impl/neomedia/device/MacCoreaudioSystem.java:740-759 | the first index holding the key is the one FindMatch gives |
| MacCoreaudioSystem.MatchOne | src/org/jitsi/impl/neomedia/device/MacCoreaudioSystem.java:728-769 | one outer pass: a capture device with a null name, an empty stripped name or no match stays unmatched; otherwise it and its first matching playback device move to the matched lists |
| MacCoreaudioSystem.MatchDevicesByName | src/org/jitsi/impl/neomedia/device/MacCoreaudioSystem.java:710-777 | the two lists become what the MatchDevicesByNameOf specification gives, which MatchedPairsFirst characterises |
| MacCoreaudioSystem.PrependAll | src/org/jitsi/impl/neomedia/device/MacCoreaudioSystem.java:772-776 | the add(0, ...) loop from the last matched device back to the first puts the matched devices in front, in order |
| MacCoreaudioSystem.Counters.constructor | src/org/jitsi/impl/neomedia/device/MacCoreaudioSystem.java:84-100 | both counters start at 0 |
| MacCoreaudioSystem.Counters.WillOpenStream | src/org/jitsi/impl/neomedia/device/MacCoreaudioSystem.java:338-347 | while a device-list update runs the caller waits (reported as blocked, nothing changes); otherwise openStream is counted up |
| MacCoreaudioSystem.Counters.DidOpenStream | src/org/jitsi/impl/neomedia/device/MacCoreaudioSystem.java:171-181 | openStream is counted down, never below 0 |
| MacCoreaudioSystem.Counters.WillUpdateAvailableDeviceList | src/org/jitsi/impl/neomedia/device/MacCoreaudioSystem.java:353-364 | while a stream is being opened the caller waits (blocked, nothing changes); otherwise updateAvailableDeviceList is counted up |
| MacCoreaudioSystem.Counters.DidUpdateAvailableDeviceList | src/org/jitsi/impl/neomedia/device/MacCoreaudioSystem.java:187-199 | updateAvailableDeviceList is counted down, never below 0 |
| MediaStream.NonRemoteCount | src/org/jitsi/impl/neomedia/MediaStreamImpl.java:765-767 | every SSRC is either remote, and counted as an element to remove, or kept |
| MediaStream.NonRemoteMembers | src/org/jitsi/impl/neomedia/MediaStreamImpl.java:784-795 | the kept SSRCs are exactly the entries that are not remote SSRCs |
| MediaStream.CsrcListShape | src/org/jitsi/impl/neomedia/MediaStreamImpl.java:747-799 | no SSRC array, or one holding only remote SSRCs, gives no CSRC list; otherwise the list has min(n - removed + 1, 15) entries (the RTP maximum of section 5.1 of RFC 3550), the local SSRC last and before it the first non-remote SSRCs in their order |
| MediaStream.FromCapabilitiesOf | src/org/jitsi/impl/neomedia/MediaStreamImpl.java:1856-1917 | a media direction is determined by whether it allows sending and receiving |
| MediaStream.AssertDirectionIff | src/org/jitsi/impl/neomedia/MediaStreamImpl.java:483-492 | assertDirection passes exactly when the direction is null or the device direction allows everything it allows |
| MediaStream.StartAddsCapabilities | src/org/jitsi/impl/neomedia/MediaStreamImpl.java:1842-1927 | start adds the direction's capabilities to the started direction; the send (receive) streams are started exactly when the direction allows sending (receiving) and that was not started yet |
| MediaStream.StopRemovesCapabilities | src/org/jitsi/impl/neomedia/MediaStreamImpl.java:2067-2121 | stop removes the direction's capabilities from the started direction; the send (receive) streams are stopped exactly when the direction allows it and it was started |
| MediaStream.StartThenStop | src/org/jitsi/impl/neomedia/MediaStreamImpl.java:1842-2121 | stopping a direction just started returns to the previous state when it shared no capability with what was started |
| MediaStream.IntBytes | src/org/jitsi/impl/neomedia/MediaStreamImpl.java:2951-2957 | ByteBuffer.putInt writes four bytes |
| MediaStream.IntBytesRoundTrip | src/org/jitsi/impl/neomedia/MediaStreamImpl.java:2951-2957 | the four big-endian bytes of an int read back as that int |
| MediaStream.HolePunchLayout | src/org/jitsi/impl/neomedia/MediaStreamImpl.java:2944-2961 | the hole-punch packet is 16 bytes holding, as big-endian ints, the local port, the remote port, the header length 16 and a zero checksum |
| MediaStream.ReadIntOfIntBytes | src/org/jitsi/impl/neomedia/MediaStreamImpl.java:2951-2957 | an int written at an offset of a buffer reads back at that offset |
| MediaStream.PutInt | src/org/jitsi/impl/neomedia/MediaStreamImpl.java:2951 | putInt writes the four big-endian bytes at the position and changes nothing else |
| MediaStream.CreateHolePunchPacket | src/org/jitsi/impl/neomedia/MediaStreamImpl.java:2944-2961 | a fresh array holding the hole-punch bytes of HolePunchLayout |
| MediaStream.MediaStreamState.constructor | src/org/jitsi/impl/neomedia/MediaStreamImpl.java:143-188 | no remote SSRCs, nothing started, no CSRC list, no RTP manager, and the stream's own SSRC is -1 (not known yet) |
| MediaStream.MediaStreamState.GetRemoteSourceId | src/org/jitsi/impl/neomedia/MediaStreamImpl.java:1173-1176 | the last remote SSRC, or -1 when there is none |
| MediaStream.MediaStreamState.AddRemoteSourceId | src/org/jitsi/impl/neomedia/MediaStreamImpl.java:2659-2667 | the SSRC is appended only when not already known; a new SSRC becomes the one getRemoteSourceID reports, a known one leaves it as it was |
| MediaStream.MediaStreamState.CountRemoteSsrcs | src/org/jitsi/impl/neomedia/MediaStreamImpl.java:758-767 | the loop counts the remote SSRCs of the array |
| MediaStream.MediaStreamState.CopyNonRemote | src/org/jitsi/impl/neomedia/MediaStreamImpl.java:782-795 | the copy loop puts the first non-remote SSRCs, as many as fit before the last slot, at the front of the CSRC array |
| MediaStream.MediaStreamState.DeviceSessionSsrcListChanged | src/org/jitsi/impl/neomedia/MediaStreamImpl.java:747-799 | the CSRC list becomes the one CsrcListShape describes; nothing else changes |
| MediaStream.MediaStreamState.GetRtpManager | src/org/jitsi/impl/neomedia/MediaStreamImpl.java:1213-1247 | an RTP manager is created when there is none; that fails, with IllegalStateException, exactly when there is no RTP connector either; creating it sets the stream's own SSRC to the unsigned 32-bit value of the SSRC the manager picked, and otherwise the SSRC is unchanged |
| JavaBits.LongMaskLow32 | src/org/jitsi/impl/neomedia/MediaStreamImpl.java:1245 | an int widened to long and masked with 0xFFFFFFFFL is its unsigned 32-bit value |
| MediaStream.MediaStreamState.Start | src/org/jitsi/impl/neomedia/MediaStreamImpl.java:1842-1927 | the started direction and the actions follow StartAddsCapabilities, send first; the only failure is the first getRTPManager call without a connector, before anything has changed; the stream's own SSRC changes only when that call creates the RTP manager |
| MediaStream.MediaStreamState.Stop | src/org/jitsi/impl/neomedia/MediaStreamImpl.java:2067-2121 | without an RTP manager nothing happens; otherwise the started direction and the actions follow StopRemovesCapabilities, send first |
| MediaUtils.PayloadTypeUnknown | src/org/jitsi/impl/neomedia/MediaUtils.java:760-798 | the payload type is unknown (-1) exactly for a null or unrecognised encoding and for DVI at a clock rate other than 8000 or 16000 Hz; a known one is a static payload type of RFC 3551, below 35 |
| MediaUtils.PayloadTypeSharedForms | src/org/jitsi/impl/neomedia/MediaUtils.java:766-787 | the RTP and the plain forms of A-law, G.722 and GSM map to the same payload type |
| MediaUtils.CheckH264ProfileValid | src/org/jitsi/impl/neomedia/MediaUtils.java:936-946 | a profile is valid exactly when it is non-null, non-blank and six characters long |
| MediaUtils.HexDigitValue | src/org/jitsi/impl/neomedia/MediaUtils.java:835-836 | Character.digit(c, 16): the hex value, or -1 exactly for a non-hex character |
| MediaUtils.ToByte | src/org/jitsi/impl/neomedia/MediaUtils.java:835 | the (byte) cast keeps the low eight bits as a signed value |
| MediaUtils.LevelIdcIsSignedByte | src/org/jitsi/impl/neomedia/MediaUtils.java:833-836 | with two hex digits at positions 4 and 5 the level_idc is the signed byte they spell ("42e01f" gives 31, "42e0ff" gives -1), as the profile-level-id of section 8.1 of RFC 6184 places it |
| MediaUtils.Band | src/org/jitsi/impl/neomedia/MediaUtils.java:838-864 | the resolution band of a level_idc: 0 exactly below level 1.1, 4 exactly from level 3.1 |
| MediaUtils.H264ProfileToDimension | src/org/jitsi/impl/neomedia/MediaUtils.java:824-867 | null (use the local maximum) exactly for an invalid profile or a level of at least 3.1 |
| MediaUtils.DimensionByBand | src/org/jitsi/impl/neomedia/MediaUtils.java:838-857 | a valid profile below level 3.1 gets its band's picture: 176x144, 352x288, 352x576 or 720x576 |
| MediaUtils.IdcsCompatibleIffSameBand | src/org/jitsi/impl/neomedia/MediaUtils.java:895-925 | two levels are compatible exactly when they fall in the same band, that is exactly when they give the same maximum picture |
| MediaUtils.CompatibleIffSameDimension | src/org/jitsi/impl/neomedia/MediaUtils.java:878-926 | two profiles are compatible exactly when both are valid and h264ProfileToDimension gives both the same result |
| MediaUtils.CompatibleSymmetric | src/org/jitsi/impl/neomedia/MediaUtils.java:878-926 | compatibility is symmetric |
| MmNotificationClient.DeliveriesTo | src/org/jitsi/impl/neomedia/jmfext/media/protocol/wasapi/MMNotificationClient.java:59-62 | one delivery of the event to each registered client, in registration order |
| MmNotificationClient.Registry.constructor | src/org/jitsi/impl/neomedia/jmfext/media/protocol/wasapi/MMNotificationClient.java:38 | at class load there is no client set and nothing has been delivered |
| MmNotificationClient.Registry.Register | src/org/jitsi/impl/neomedia/jmfext/media/protocol/wasapi/MMNotificationClient.java:208-230 | a null client is refused with a NullPointerException and changes nothing; otherwise the client is present afterwards, added last exactly when it was absent, and no other client changes |
| MmNotificationClient.Registry.Unregister | src/org/jitsi/impl/neomedia/jmfext/media/protocol/wasapi/MMNotificationClient.java:242-272 | a null client is refused; otherwise the first occurrence of the client is removed, the set becomes null when it empties, and the client is absent afterwards |
| MmNotificationClient.Registry.Dispatch | src/org/jitsi/impl/neomedia/jmfext/media/protocol/wasapi/MMNotificationClient.java:53-84 | every client in the set read at the start is notified once, in order, and each handler that throws is logged without stopping the delivery to the others; the set is unchanged |
| MmNotificationClient.Registry.OnDeviceAdded | src/org/jitsi/impl/neomedia/jmfext/media/protocol/wasapi/MMNotificationClient.java:49-86 | the DeviceAdded event goes to every registered client in order, failures are logged, nothing else changes |
| MmNotificationClient.Registry.OnDeviceRemoved | src/org/jitsi/impl/neomedia/jmfext/media/protocol/wasapi/MMNotificationClient.java:89-126 | the DeviceRemoved event goes to every registered client in order, failures are logged, nothing else changes |
| MmNotificationClient.Registry.OnDeviceStateChanged | src/org/jitsi/impl/neomedia/jmfext/media/protocol/wasapi/MMNotificationClient.java:152-191 | the DeviceStateChanged event with the new state goes to every registered client in order, failures are logged, nothing else changes |
| MmNotificationClient.RegisterThenUnregister | src/org/jitsi/impl/neomedia/jmfext/media/protocol/wasapi/MMNotificationClient.java:208-272 | registering a new client and then unregistering it gives back the clients that were registered before, in their order |
| NlsfStabilize.SmallestGap | src/org/jitsi/impl/neomedia/codec/audio/silk/NLSFStabilize.java:50-66 | the index of the first constraint with the smallest slack and that slack; the slack is non-negative exactly when every distance is kept |
| NlsfStabilize.LowerCenterLimit | src/org/jitsi/impl/neomedia/codec/audio/silk/NLSFStabilize.java:87-91 | the lowest centre: the spacings below I plus half of spacing I |
| NlsfStabilize.UpperCenterLimit | src/org/jitsi/impl/neomedia/codec/audio/silk/NLSFStabilize.java:94-98 | the highest centre: 2^15 minus the spacings above I and the other half of spacing I |
| NlsfStabilize.CenterLimitsBounded | src/org/jitsi/impl/neomedia/codec/audio/silk/NLSFStabilize.java:87-98 | for Q15 spacings both centre limits stay within a range far inside the int range |
| NlsfStabilize.MoveApart | src/org/jitsi/impl/neomedia/codec/audio/silk/NLSFStabilize.java:100-104 | coefficients I-1 and I end exactly spacing I apart, around their rounded mean clamped to the centre limits; no other coefficient changes and the values stay bounded |
| NlsfStabilize.InsertionSortIncreasing | src/org/jitsi/impl/neomedia/codec/audio/silk/Sort.java:26-45 | a[0..L) ends sorted increasingly and is a permutation of what it held; the rest of the array is untouched |
| NlsfStabilize.InsertAt | src/org/jitsi/impl/neomedia/codec/audio/silk/Sort.java:38-44 | one outer pass: a sorted prefix of i elements becomes a sorted prefix of i+1 elements holding the same values |
| NlsfStabilize.ShiftLarger | src/org/jitsi/impl/neomedia/codec/audio/silk/Sort.java:40-42 | the inner loop moves exactly the elements greater than the value one place up, leaving a hole above the last element not greater |
| NlsfStabilize.StableUpper | src/org/jitsi/impl/neomedia/codec/audio/silk/NLSFStabilize.java:54-66 | a vector that keeps every distance keeps in particular the upper-side distances |
| NlsfStabilize.PushUp | src/org/jitsi/impl/neomedia/codec/audio/silk/NLSFStabilize.java:117-121 | after the upward pass every coefficient is at least the sum of the spacings up to it |
| NlsfStabilize.PushDown | src/org/jitsi/impl/neomedia/codec/audio/silk/NLSFStabilize.java:124-128 | after the downward pass every upper-side distance holds, and when the spacings fit between the borders every distance holds |
| NlsfStabilize.Fallback | src/org/jitsi/impl/neomedia/codec/audio/silk/NLSFStabilize.java:109-129 | sorting then clamping both ways keeps every upper-side distance, and every distance whenever the spacings fit between 0 and 2^15 |
| NlsfStabilize.Stabilize | src/org/jitsi/impl/neomedia/codec/audio/silk/NLSFStabilize.java:32-130 | a vector that already keeps every distance is left unchanged; whenever the spacings fit the result keeps every distance; the upper-side distances always hold; coefficients beyond L are untouched |
| OsUtils.CompareVersion | src/org/jitsi/util/OSUtils.java:261-321 | the loop returns the left-to-right order of the dot-separated parts, always one of -1, 0 and 1 |
| OsUtils.IsGreaterOrEqual | src/org/jitsi/util/OSUtils.java:240-243 | true exactly when the comparison is not negative |
| OsUtils.CompareFromRange | src/org/jitsi/util/OSUtils.java:274-318 | the comparison of the remaining parts is -1, 0 or 1 |
| OsUtils.CompareFromAntisymmetric | src/org/jitsi/util/OSUtils.java:274-318 | swapping the two versions negates the comparison of the remaining parts |
| OsUtils.CompareFromMeaning | src/org/jitsi/util/OSUtils.java:274-318 | the comparison is 0 exactly when every part agrees, missing and non-numeric parts counting as 0, and 1 exactly when the first differing part is larger in the first version |
| OsUtils.VersionOrderAntisymmetric | src/org/jitsi/util/OSUtils.java:261-321 | compareVersion(a, b) is minus compareVersion(b, a) |
| OsUtils.VersionOrderReflexive | src/org/jitsi/util/OSUtils.java:261-321 | every version equals itself |
| OsUtils.TenEqualsTenZero | src/org/jitsi/util/OSUtils.java:284-305 | "10" and "10.0" are equal versions, a missing part counting as 0 |
| OsUtils.FirstDigit | src/org/jitsi/util/OSUtils.java:344 | the first index holding a digit, where the non-digit name group must end |
| OsUtils.MakeVersionInfoMatches | src/org/jitsi/util/OSUtils.java:342-348 | a MacVersionInfo is made exactly for strings that match name-digits-comma-digits as a whole, and holds the matched name and major version |
| OsUtils.PatternUnique | src/org/jitsi/util/OSUtils.java:344-346 | any whole match splits the string at its first digit and at the first comma after it |
| OsUtils.IndexOfAt | src/org/jitsi/util/OSUtils.java:344-346 | the first comma after the digits is where the major-version group ends |
| OsUtils.MakeVersionInfoOfModel | src/org/jitsi/util/OSUtils.java:342-348 | a model string such as MacBookPro13,4 built from a name, a major and a minor version parses back to that name and major version |
| OsUtils.ModelStringBlocklisted | src/org/jitsi/util/OSUtils.java:342-368 | a parsed model string is blocklisted exactly when its name is MacBookPro and its major version is at least 13 |
| OsUtils.BlocklistExamples | src/org/jitsi/util/OSUtils.java:365-368 | MacBookPro 13 is blocklisted; MacBookPro 12 and MacBookAir 13 are not |
| RtcpReports.GetOrZero | src/org/jitsi/service/neomedia/rtp/RTCPReports.java:716-724 | a key's value when the map holds it, else 0 |
| RtcpReports.GetAfterPut | src/org/jitsi/service/neomedia/rtp/RTCPReports.java:706-724 | after a put the key reads the new value and every other key reads as before |
| RtcpReports.Reports.constructor | src/org/jitsi/service/neomedia/rtp/RTCPReports.java:119-125 | no listener, and every SSRC map empty |
| RtcpReports.Reports.AddRtcpReportListener | src/org/jitsi/service/neomedia/rtp/RTCPReports.java:135-153 | a null listener is refused with a NullPointerException; otherwise the listener is appended when absent and the list stays free of duplicates; the maps are unchanged |
| RtcpReports.Reports.RemoveRtcpReportListener | src/org/jitsi/service/neomedia/rtp/RTCPReports.java:433-459 | null is ignored; otherwise the listener's one occurrence is removed when present, so it is absent afterwards; the maps are unchanged |
| RtcpReports.Reports.SetRttViaSeq | src/org/jitsi/service/neomedia/rtp/RTCPReports.java:706-724 | getRTTViaSeq then reads the new value for that SSRC and the old value for every other |
| RtcpReports.Reports.SetFirstReceivedPacketTime | src/org/jitsi/service/neomedia/rtp/RTCPReports.java:732-767 | getFirstReceivedPacketTime then reads the new time for that SSRC and the old one for every other |
| RtcpReports.Reports.SetFirstSentPacketTime | src/org/jitsi/service/neomedia/rtp/RTCPReports.java:748-778 | getFirstSentPacketTime then reads the new time for that SSRC and the old one for every other |
| RtpTranslator.ByteMask | src/org/jitsi/impl/neomedia/RTPTranslatorImpl.java:833-836 | `b & 0xff` gives back the unsigned value of a sign-extended Java byte |
| RtpTranslator.ShiftedBytesOr | src/org/jitsi/impl/neomedia/RTPTranslatorImpl.java:832-836 | or-ing the four shifted bytes gives their positional base-256 sum, seen as 32 unsigned bits |
| RtpTranslator.ReadIntBigEndian | src/org/jitsi/impl/neomedia/RTPTranslatorImpl.java:830-837 | readInt reads the four bytes at the offset as a big-endian number, wrapped to a two's-complement int |
| RtpTranslator.PayloadTypeKeepsMarker | src/org/jitsi/impl/neomedia/RTPTranslatorImpl.java:1055-1058 | the rewritten byte keeps the marker bit and holds the low seven bits of the payload type below it |
| RtpTranslator.MarkerBit | src/org/jitsi/impl/neomedia/RTPTranslatorImpl.java:1057 | `b & 0x80` on a Java byte is its top bit |
| RtpTranslator.LowSevenBits | src/org/jitsi/impl/neomedia/RTPTranslatorImpl.java:1058 | `x & 0x7f` is x modulo 128, also for a negative payload type |
| RtpTranslator.RewritePayloadType | src/org/jitsi/impl/neomedia/RTPTranslatorImpl.java:1044-1060 | for a packet of positive length with a payload type for the format, only byte offset+1 changes, to the rewritten byte, or, when offset+1 lies outside the buffer, ArrayIndexOutOfBoundsException leaves it untouched; otherwise the buffer is untouched |
| RtpTranslator.CopyInto | src/org/jitsi/impl/neomedia/RTPTranslatorImpl.java:1219-1223 | the slot keeps its buffer when it is long enough, else gets one of the packet's length; either way it begins with the packet |
| RtpTranslator.QueueOf | src/org/jitsi/impl/neomedia/RTPTranslatorImpl.java:1196-1229 | the ring holds as many packets as its length says |
| RtpTranslator.Enqueued | src/org/jitsi/impl/neomedia/RTPTranslatorImpl.java:1196-1229 | a write to a full queue keeps its length (the oldest packet is dropped); otherwise the queue grows by one |
| RtpTranslator.SlotInjective | src/org/jitsi/impl/neomedia/RTPTranslatorImpl.java:1198-1209 | distinct positions of the ring are distinct slots, so a write never overwrites a waiting packet other than the dropped one |
| RtpTranslator.WriteEnqueues | src/org/jitsi/impl/neomedia/RTPTranslatorImpl.java:1196-1229 | filling the write index and moving the head past a dropped packet leaves a ring holding the old queue with the new packet last |
| RtpTranslator.TakeDequeues | src/org/jitsi/impl/neomedia/RTPTranslatorImpl.java:1127-1143 | taking the head slot and moving the head on leaves a ring holding the queue without its oldest packet |
| RtpTranslator.RecycleKeeps | src/org/jitsi/impl/neomedia/RTPTranslatorImpl.java:1152-1158 | giving a buffer back to a slot that holds no packet leaves the queue unchanged |
| RtpTranslator.OutputDataStream.constructor | src/org/jitsi/impl/neomedia/RTPTranslatorImpl.java:967-981 | an open stream with an empty queue of WRITE_QUEUE_CAPACITY slots |
| RtpTranslator.OutputDataStream.Write | src/org/jitsi/impl/neomedia/RTPTranslatorImpl.java:1188-1235 | a closed stream ignores the packet; otherwise the packet, format and exclusion join the queue last, the oldest packet is dropped when the queue was full, and the bytes of a reused buffer past the packet keep their values |
| RtpTranslator.OutputDataStream.NextWriteIndex | src/org/jitsi/impl/neomedia/RTPTranslatorImpl.java:1196-1211 | the slot after the last waiting packet, or the oldest packet's slot, which then leaves the queue, when the queue is full |
| RtpTranslator.OutputDataStream.Take | src/org/jitsi/impl/neomedia/RTPTranslatorImpl.java:1127-1143 | the write thread gets the oldest packet's bytes, format and exclusion; the slot is emptied and the queue loses that packet |
| RtpTranslator.OutputDataStream.Recycle | src/org/jitsi/impl/neomedia/RTPTranslatorImpl.java:1150-1158 | the buffer goes back to its slot unless a later write gave the slot a buffer already; the queue is unchanged |
| RtpTranslator.StartStepCounts | src/org/jitsi/impl/neomedia/RTPTranslatorImpl.java:1883-1896 | a start counts one more started view, and starts the real stream exactly on the step from no started view to one |
| RtpTranslator.StopStepCounts | src/org/jitsi/impl/neomedia/RTPTranslatorImpl.java:1898-1911 | a stop counts one started view fewer and never goes below zero, and stops the real stream exactly on the step from one started view to none |
| RtpTranslator.StartTimesCount | src/org/jitsi/impl/neomedia/RTPTranslatorImpl.java:1883-1896 | however many views start, the real stream is started at most once |
| RtpTranslator.StopTimesCount | src/org/jitsi/impl/neomedia/RTPTranslatorImpl.java:1898-1911 | stopping the started views one by one stops the real stream only when the last of them stops |
| RtpTranslator.NestedStartStop | src/org/jitsi/impl/neomedia/RTPTranslatorImpl.java:1883-1911 | k views starting and then stopping a stopped stream make exactly one real start followed by one real stop |
| RtpTranslator.ManagerIndex | src/org/jitsi/impl/neomedia/RTPTranslatorImpl.java:1863-1865 | the first view belonging to the manager, or -1 exactly when there is none |
| RtpTranslator.SendStreamDesc.constructor | src/org/jitsi/impl/neomedia/RTPTranslatorImpl.java:1819-1841 | no view, nothing started, no call to the real stream |
| RtpTranslator.SendStreamDesc.Start | src/org/jitsi/impl/neomedia/RTPTranslatorImpl.java:1883-1896 | a known view counts as one start, and the real stream is started when no view was; when that real start throws, the IOException propagates and the count and calls stay as they were; an unknown view changes nothing |
| RtpTranslator.SendStreamDesc.Stop | src/org/jitsi/impl/neomedia/RTPTranslatorImpl.java:1898-1911 | a known view counts as one stop, and the real stream is stopped when it was the last; when that real stop throws, the IOException propagates and the count and calls stay as they were; an unknown view changes nothing |
| RtpTranslator.SendStreamDesc.Close | src/org/jitsi/impl/neomedia/RTPTranslatorImpl.java:1843-1857 | the view leaves the list, and the real stream is asked to close exactly when a known view was the last one |
| RtpTranslator.SendStreamDesc.GetSendStream | src/org/jitsi/impl/neomedia/RTPTranslatorImpl.java:1859-1876 | the manager's existing view; else, when asked to create, a new view of that manager added last; else none |
| RtpTranslator.SendStreamImpl.constructor | src/org/jitsi/impl/neomedia/RTPTranslatorImpl.java:1925-1931 | a view that is neither started nor closed |
| RtpTranslator.SendStreamImpl.Start | src/org/jitsi/impl/neomedia/RTPTranslatorImpl.java:2007-2022 | fails with an IOException once closed; otherwise a view not yet started counts as one start of its SendStreamDesc, unless the real stream's start throws, which propagates and leaves the view unstarted and the count as it was |
| RtpTranslator.SendStreamImpl.Stop | src/org/jitsi/impl/neomedia/RTPTranslatorImpl.java:2025-2033 | a closed or stopped view does nothing; otherwise it counts as one stop of its SendStreamDesc, unless the real stream's stop throws, which propagates and leaves the view started and the count as it was |
| RtpTranslator.SendStreamImpl.Close | src/org/jitsi/impl/neomedia/RTPTranslatorImpl.java:1934-1953 | a first close stops a started view and removes the view from its SendStreamDesc; when that stop throws, the view is still removed and closed, stays started, and the call fails with an UndeclaredThrowableException; a second close does nothing |
| RtpTranslator.StreamRtpManagerDesc.constructor | src/org/jitsi/impl/neomedia/RTPTranslatorImpl.java:2043 | no SSRC received yet |
| RtpTranslator.StreamRtpManagerDesc.ContainsReceiveSsrc | src/org/jitsi/impl/neomedia/RTPTranslatorImpl.java:2133-2139 | true exactly when the SSRC is in the array |
| RtpTranslator.StreamRtpManagerDesc.AddReceiveSsrc | src/org/jitsi/impl/neomedia/RTPTranslatorImpl.java:2063-2077 | a new SSRC is appended last and a known one is not repeated |
| ScopedConfig.IntToStringParses | src/org/jitsi/impl/configuration/AbstractScopedConfigurationServiceImpl.java:1553-1615 | Integer.parseInt and Long.parseLong read back the decimal form of an int, and trim leaves that form alone |
| ScopedConfig.TrimNothing | src/org/jitsi/impl/configuration/AbstractScopedConfigurationServiceImpl.java:1492 | a string with no character at or below U+0020 is its own trim |
| ScopedConfig.PrefixMatchFacts | src/org/jitsi/impl/configuration/AbstractScopedConfigurationServiceImpl.java:611-638 | a name without a dot never matches a prefix query, and an exact prefix match is also a startsWith match |
| ScopedConfig.DottedSuffixMatchesNothing | src/org/jitsi/impl/configuration/AbstractScopedConfigurationServiceImpl.java:669-675 | a suffix holding a dot matches no name, since the text after the last dot holds none |
| ScopedConfig.AddNamesByPrefix | src/org/jitsi/impl/configuration/AbstractScopedConfigurationServiceImpl.java:605-639 | the result is the given set plus exactly the names whose text before the last dot equals, or starts with, the prefix |
| ScopedConfig.Classify | src/org/jitsi/impl/configuration/AbstractScopedConfigurationServiceImpl.java:1783-1815 | a line is skipped exactly when its name or value is missing, or the name (after its star, for a starred one) is blank; a starred name gives an immutable default without the star, any other a mutable default |
| ScopedConfig.ClassifyName | src/org/jitsi/impl/configuration/AbstractScopedConfigurationServiceImpl.java:1786-1815 | the same classification for a present name and value |
| ScopedConfig.StarFacts | src/org/jitsi/impl/configuration/AbstractScopedConfigurationServiceImpl.java:1786-1795 | startsWith("*") is the star test, and trim gives "" exactly for a blank name |
| ScopedConfig.ClassifyByTrim | src/org/jitsi/impl/configuration/AbstractScopedConfigurationServiceImpl.java:1783-1815 | the classification agrees with the loop's own trim and startsWith tests |
| ScopedConfig.LoadEntryPlaces | src/org/jitsi/impl/configuration/AbstractScopedConfigurationServiceImpl.java:1791-1815 | an accepted line puts its value in the map its star chooses and removes its name from the other map, so the two maps stay disjoint; no other name changes |
| ScopedConfig.LoadEntriesDisjoint | src/org/jitsi/impl/configuration/AbstractScopedConfigurationServiceImpl.java:1781-1816 | loading every line in order keeps the immutable and the mutable defaults disjoint |
| ScopedConfig.ConfigurationService.constructor | src/org/jitsi/impl/configuration/AbstractScopedConfigurationServiceImpl.java:121-152 | no default, no stored value, no system property |
| ScopedConfig.ConfigurationService.DoSetProperty | src/org/jitsi/impl/configuration/AbstractScopedConfigurationServiceImpl.java:295-336 | a name once system stays system; an immutable default is never overridden; a null value removes the stored value and empties a system property, so a name already system reads back as the empty string and any other falls back to its default, or null; a system value goes to the System properties with only its name in the store; any other value goes to the store |
| ScopedConfig.ConfigurationService.SetProperty | src/org/jitsi/impl/configuration/AbstractScopedConfigurationServiceImpl.java:206-231 | the change listeners get one event from the value before to the value given, even when an immutable default made the set a no-op; a name with an immutable default keeps its value; a non-null value that is not blocked reads back; a null value for a name that is not a system property falls back to its default, or null, even when `isSystem` is set; a null value for a name already system reads back as the empty string; no other property changes |
| ScopedConfig.ConfigurationService.GetString | src/org/jitsi/impl/configuration/AbstractScopedConfigurationServiceImpl.java:1484-1495 | the trimmed value, and null exactly when there is no value or it is blank |
| ScopedConfig.ConfigurationService.GetStringOr | src/org/jitsi/impl/configuration/AbstractScopedConfigurationServiceImpl.java:1513-1517 | the value of getString, or the default when that is null |
| ScopedConfig.ConfigurationService.GetInt | src/org/jitsi/impl/configuration/AbstractScopedConfigurationServiceImpl.java:1553-1572 | the parsed int, and the default when there is no value or it is not an int |
| ScopedConfig.ConfigurationService.GetLong | src/org/jitsi/impl/configuration/AbstractScopedConfigurationServiceImpl.java:1596-1615 | the parsed long, and the default when there is no value or it is not a long |
| ScopedConfig.ConfigurationService.GetPropertyNamesByPrefix | src/org/jitsi/impl/configuration/AbstractScopedConfigurationServiceImpl.java:542-585 | each matching name of the immutable defaults, the store and the mutable defaults, once |
| ScopedConfig.ConfigurationService.GetPropertyNamesBySuffix | src/org/jitsi/impl/configuration/AbstractScopedConfigurationServiceImpl.java:665-677 | exactly the stored names whose text after the last dot is the suffix |
| ScopedConfig.ConfigurationService.ReadDefaultLine | src/org/jitsi/impl/configuration/AbstractScopedConfigurationServiceImpl.java:1783-1799 | the loop's tests of one line give its classification |
| ScopedConfig.ConfigurationService.LoadDefaultEntry | src/org/jitsi/impl/configuration/AbstractScopedConfigurationServiceImpl.java:1791-1815 | one accepted line updates the two default maps as described, and nothing else changes |
| ScopedConfig.ConfigurationService.LoadDefaultEntries | src/org/jitsi/impl/configuration/AbstractScopedConfigurationServiceImpl.java:1767-1825 | the lines are loaded in order, a later line of the same name winning; the store and the System properties are untouched |
| ScopedConfig.GetIntReadsBack | src/org/jitsi/impl/configuration/AbstractScopedConfigurationServiceImpl.java:1553-1615 | a property whose value is the decimal form of an int reads back as that int through getInt and getLong, whatever the default |
| ScopedConfig.BlankReadsAsAbsent | src/org/jitsi/impl/configuration/AbstractScopedConfigurationServiceImpl.java:1484-1572 | a blank value reads as null through getString, and getInt and getBoolean then give their defaults |
| ScopedConfig.LookupOrder | src/org/jitsi/impl/configuration/AbstractScopedConfigurationServiceImpl.java:477-494 | an immutable default shadows the store and the mutable defaults, and a stored value shadows a mutable default |
| SigProcFix.Sat16 | src/org/jitsi/impl/neomedia/codec/audio/silk/SigProcFIX.java:110-113 | the value clamped to the 16-bit range: unchanged inside it, Short.MAX_VALUE above, Short.MIN_VALUE below |
| SigProcFix.Limit | src/org/jitsi/impl/neomedia/codec/audio/silk/SigProcFIX.java:253-281 | the value clamped between the two limits, whichever order they come in |
| SigProcFix.RShiftRoundRounds | src/org/jitsi/impl/neomedia/codec/audio/silk/SigProcFIX.java:221-224 | for a shift of 1 to 31 the result is a / 2^shift rounded to nearest, halves upwards |
| SigProcFix.IntAndOne | src/org/jitsi/impl/neomedia/codec/audio/silk/SigProcFIX.java:223 | `a & 1` is the low bit of a |
| SigProcFix.Ror32IsRotation | src/org/jitsi/impl/neomedia/codec/audio/silk/SigProcFIX.java:44-50 | SKP_ROR32 rotates the 32-bit pattern right by rot mod 32 places, for negative rot as well |
| SigProcFix.Ror32RoundTrip | src/org/jitsi/impl/neomedia/codec/audio/silk/SigProcFIX.java:44-50 | rotating by rot and then by -rot gives back the input |
| SigProcFix.RotateRightInverse | src/org/jitsi/impl/neomedia/codec/audio/silk/SigProcFIX.java:44-50 | rotating a pattern right by k and then by 32-k gives it back |
| SigProcFix.SignBitTest | src/org/jitsi/impl/neomedia/codec/audio/silk/SigProcFIX.java:118 | `x & 0x80000000` is non-zero exactly for a negative x |
| SigProcFix.AddPosSat32 | src/org/jitsi/impl/neomedia/codec/audio/silk/SigProcFIX.java:116-119 | for any two ints the result is a non-negative int |
| SigProcFix.AddPosSat32Saturates | src/org/jitsi/impl/neomedia/codec/audio/silk/SigProcFIX.java:116-119 | for non-negative inputs the result is their sum, or Integer.MAX_VALUE when the sum overflows |
| SigProcFix.Rand | src/org/jitsi/impl/neomedia/codec/audio/silk/SigProcFIX.java:304-307 | the next seed is 907633515 + seed * 196314165 modulo 2^32 |
| SigProcFix.RandInvertible | src/org/jitsi/impl/neomedia/codec/audio/silk/SigProcFIX.java:304-307 | no two seeds give the same next seed |
| SigProcFix.RandSurjective | src/org/jitsi/impl/neomedia/codec/audio/silk/SigProcFIX.java:304-307 | every int is the next seed of some seed |
| SigProcFix.LShiftSat32Saturates | src/org/jitsi/impl/neomedia/codec/audio/silk/SigProcFIX.java:154-157 | for a shift of 0 to 31 the result is a * 2^shift when that fits an int, and otherwise the largest or smallest multiple of 2^shift that does |
| SigProcFix.ShiftedLimits | src/org/jitsi/impl/neomedia/codec/audio/silk/SigProcFIX.java:156 | Integer.MIN_VALUE >> s and Integer.MAX_VALUE >> s are -2^(31-s) and 2^(31-s) - 1 |
| SoundFileUtils.GetExtension | src/org/jitsi/util/SoundFileUtils.java:115-124 | an extension exactly when the last dot is neither the first nor the last character, and then the lower-cased, dot-free text after it |
| SoundFileUtils.IsSoundFileIff | src/org/jitsi/util/SoundFileUtils.java:48-67 | a file is a sound file exactly when its extension is one of wma, wav, ram, ogg, mp3, mp2, mod, midi, gsm and au |
| SoundFileUtils.ExtensionAfterLastDot | src/org/jitsi/util/SoundFileUtils.java:115-124 | "Ring.WAV" has extension "wav": the lower-cased text after the last dot |
| SoundFileUtils.LeadingDotOnly | src/org/jitsi/util/SoundFileUtils.java:118-122 | a hidden file such as ".wav" has no extension |
| SoundFileUtils.CompareIgnoreCase | src/org/jitsi/util/SoundFileUtils.java:98-101 | String.CASE_INSENSITIVE_ORDER gives 0 exactly for strings of equal length that agree character by character after folding case |
| SoundFileUtils.BinarySearch | src/org/jitsi/util/SoundFileUtils.java:98-101 | a non-negative answer is an index of an element equal to the key ignoring case; on a list sorted for the key a negative answer means there is none |
| SoundFileUtils.IsSoundFileWithFormats | src/org/jitsi/util/SoundFileUtils.java:81-105 | with no list the built-in test; with a list, false for a file without extension, and on a sorted list true exactly when the list holds the extension ignoring case |
| StatisticsEngine.Version | src/org/jitsi/impl/neomedia/transform/rtcp/StatisticsEngine.java:74 | the two version bits of the first header byte, 0 to 3 |
| StatisticsEngine.LengthWords | src/org/jitsi/impl/neomedia/transform/rtcp/StatisticsEngine.java:78 | the 16-bit length field of the header, as section 6.4.1 of RFC 3550 defines it |
| StatisticsEngine.LengthIfRtcp | src/org/jitsi/impl/neomedia/transform/rtcp/StatisticsEngine.java:67-86 | -1, or a length of at least 4 bytes, a multiple of 4, that fits the window and is what a version-2 header's length field gives; the length field is read unsigned, as corrected under Findings |
| StatisticsEngine.GetLengthIfRtcp | src/org/jitsi/impl/neomedia/transform/rtcp/StatisticsEngine.java:67-86 | -1 for a negative offset, a window under 4 bytes, a null or short buffer, a version other than 2 or a packet longer than the window; otherwise the packet's length, a multiple of 4 within the window; the length field is read unsigned, as corrected under Findings |
| StatisticsEngine.GetLengthIfRtcpAsWritten | src/org/jitsi/impl/neomedia/transform/rtcp/StatisticsEngine.java:67-86 | the length as the code computes it from signed bytes; an answer other than -1 still comes only for a valid window and never exceeds it |
| StatisticsEngine.LengthRoundTrip | src/org/jitsi/impl/neomedia/transform/rtcp/StatisticsEngine.java:67-86 | a version-2 header whose length field matches its packet recognises exactly that packet, whatever follows it; the length field is read unsigned, as corrected under Findings |
| StatisticsEngine.LengthOfWindow | src/org/jitsi/impl/neomedia/transform/rtcp/StatisticsEngine.java:67-101 | the answer depends only on the bytes of the window, and isRTCP holds exactly when a length is found; the length field is read unsigned, as corrected under Findings |
| StatisticsEngine.AsWrittenAgreesOnSmallBytes | src/org/jitsi/impl/neomedia/transform/rtcp/StatisticsEngine.java:78 | when both length bytes are below 0x80 the code as written gives the unsigned reading |
| StatisticsEngine.AsWrittenMisreadsLength | src/org/jitsi/impl/neomedia/transform/rtcp/StatisticsEngine.java:78-82 | a 516-byte packet, length field 0x0080, gives -508 as written instead of 516 |
| StatisticsEngine.RawPacket.Shrink | src/org/jitsi/impl/neomedia/transform/rtcp/StatisticsEngine.java:174-180 | RawPacket.shrink(len) drops the last len bytes of the packet, down to none, and keeps the buffer and offset |
| StatisticsEngine.ArrayCopyAt | src/org/jitsi/impl/neomedia/transform/rtcp/StatisticsEngine.java:164-165 | after System.arraycopy within one buffer the copied range holds the source bytes and every other byte stays |
| StatisticsEngine.FirstPacketSelfDelimiting | src/org/jitsi/impl/neomedia/transform/rtcp/StatisticsEngine.java:127-136 | the first packet of a window, taken on its own or with anything after it, is recognised as itself; the length field is read unsigned, as corrected under Findings |
| StatisticsEngine.StripConserves | src/org/jitsi/impl/neomedia/transform/rtcp/StatisticsEngine.java:113-196 | the bytes kept and the XR packets removed add up to the input, so nothing is lost or invented; the length field is read unsigned, as corrected under Findings |
| StatisticsEngine.RemovedAreParsedXrs | src/org/jitsi/impl/neomedia/transform/rtcp/StatisticsEngine.java:138-186 | every removed packet is an XR (payload type 207) that parses and spans exactly the length its own header gives; the length field is read unsigned, as corrected under Findings |
| StatisticsEngine.StopsAtNonRtcp | src/org/jitsi/impl/neomedia/transform/rtcp/StatisticsEngine.java:133-136 | a window that does not start with an RTCP packet is left as it is; the length field is read unsigned, as corrected under Findings |
| StatisticsEngine.KeepsUnremovable | src/org/jitsi/impl/neomedia/transform/rtcp/StatisticsEngine.java:140-192 | an XR that fails to parse, like any other RTCP packet, is kept and stepped over; the length field is read unsigned, as corrected under Findings |
| StatisticsEngine.StripIdempotent | src/org/jitsi/impl/neomedia/transform/rtcp/StatisticsEngine.java:113-196 | removing the XRs a second time removes nothing more; the length field is read unsigned, as corrected under Findings |
| StatisticsEngine.CutOut | src/org/jitsi/impl/neomedia/transform/rtcp/StatisticsEngine.java:161-180 | the bytes after the XR are copied down over it and the packet shrinks by its length; what is left to walk loses exactly that XR; the length field is read unsigned, as corrected under Findings |
| StatisticsEngine.TakeOrSkip | src/org/jitsi/impl/neomedia/transform/rtcp/StatisticsEngine.java:138-192 | an XR that parses is cut out and added to the list, any other RTCP packet is stepped over, and the walk still ends where it would have; the length field is read unsigned, as corrected under Findings |
| StatisticsEngine.RemoveRtcpExtendedReports | src/org/jitsi/impl/neomedia/transform/rtcp/StatisticsEngine.java:113-196 | the packet keeps its offset and the bytes before it, its contents become what is left after taking out every XR that parses, and the removed XRs come back in order, or null when there are none; the length field is read unsigned, as corrected under Findings |
| StringUtils.IsNullOrEmpty | src/org/jitsi/util/StringUtils.java:58-77 | true exactly for null, an empty string, or, when trimming, a string of characters at or below U+0020 only |
| StringUtils.SafeDataExamples | src/org/jitsi/util/StringUtils.java:28-50 | "true" and "-1" are safe data, and so is "false" followed by a final line terminator, as Java's `$` allows |
| StringUtils.SafeWithTerminator | src/org/jitsi/util/StringUtils.java:28-50 | every safe literal followed by a final line terminator is safe data |
| StringUtils.NotSafeData | src/org/jitsi/util/StringUtils.java:28-50 | "truth" is not safe data, since the pattern is anchored at both ends |
| StringUtils.IsNumber | src/org/jitsi/util/StringUtils.java:142-158 | true exactly for a non-null, non-empty string of digits only |
| StringUtils.DigitsOnly | src/org/jitsi/util/StringUtils.java:149-157 | the character loop answers whether every character is a digit |
| StringUtils.Join | src/org/jitsi/util/StringUtils.java:167-202 | the string forms of the values with the separator between neighbours; an empty array fails on values[values.length - 1] |
| StringUtils.SplitJoined | src/org/jitsi/util/StringUtils.java:167-180 | joining with a separator character that no element holds and splitting on it gives back the elements |
| StringUtils.JavaSplitJoined | src/org/jitsi/util/StringUtils.java:167-180 | with Java's split, which drops trailing empty strings, the round trip holds when the last element is not empty |
| StringUtils.EvenIndexed | src/org/jitsi/util/StringUtils.java:218-223 | the elements at indices 0, 2, 4, and so on, in order |
| StringUtils.JoinEvenIndexedElements | src/org/jitsi/util/StringUtils.java:211-226 | elements 0, 2, 4, ... joined with the separator, and "" for an empty list |
| StringUtils.EvenIndexedSnoc | src/org/jitsi/util/StringUtils.java:219-223 | an element at an even index is appended to the even-indexed elements, one at an odd index changes nothing |
| StringUtils.Truncate | src/org/jitsi/util/StringUtils.java:265-268 | the first min(length, string length) characters; a negative length fails, as substring then throws |
| SumSqrShift.SumSquaresBound | src/org/jitsi/impl/neomedia/codec/audio/silk/SumSqrShift.java:35-41 | each 16-bit square is at most 2^30, so the sum of squares stays far inside a Java long |
| SumSqrShift.BitLength | src/org/jitsi/impl/neomedia/codec/audio/silk/SumSqrShift.java:43 | the number of significant bits: n is below 2^bits, and at least 2^(bits-1) when positive |
| SumSqrShift.ShiftFor | src/org/jitsi/impl/neomedia/codec/audio/silk/SumSqrShift.java:45-49 | the shift is even, the shifted sum fits in 30 bits, and no smaller even shift would do |
| SumSqrShift.SumOfSquares | src/org/jitsi/impl/neomedia/codec/audio/silk/SumSqrShift.java:35-41 | the loop's sum is the sum of the squares of x[offset..offset+len), 0 when len is not positive, and a long |
| SumSqrShift.SumSqrShift | src/org/jitsi/impl/neomedia/codec/audio/silk/SumSqrShift.java:27-53 | energy[0] is the sum of squares shifted right by shift[0], which is the smallest even shift that fits it in 30 bits; no other element changes |
| WasapiRender.Pop | src/org/jitsi/impl/neomedia/jmfext/media/renderer/audio/WASAPIRenderer.java:1148-1172 | a negative length throws IllegalArgumentException and changes nothing; otherwise the bytes after the popped ones move to index 0 and the result is how many are left, never negative |
| WasapiRender.PopTwice | src/org/jitsi/impl/neomedia/jmfext/media/renderer/audio/WASAPIRenderer.java:1148-1172 | popping x bytes and then y bytes leaves the same valid data as popping x + y bytes at once |
| WasapiRender.FindFirst | src/org/jitsi/impl/neomedia/jmfext/media/renderer/audio/WASAPIRenderer.java:427-440 | the first non-null format, and null exactly when every element is null |
| WasapiRender.PopSilence | src/org/jitsi/impl/neomedia/jmfext/media/renderer/audio/WASAPIRenderer.java:1684-1714 | popping the silence that start put before the valid data gives that data back at the front |
| WasapiRender.CopyInConserves | src/org/jitsi/impl/neomedia/jmfext/media/renderer/audio/WASAPIRenderer.java:1234-1252 | nothing is lost by process: the valid data after the copy followed by the input left over equal the valid data before followed by the whole input |
| WasapiRender.WasapiRenderer.constructor | src/org/jitsi/impl/neomedia/jmfext/media/renderer/audio/WASAPIRenderer.java:128-254 | no audio client, not started, an empty remainder of the given size, and no malfunction recorded |
| WasapiRender.WasapiRenderer.Process | src/org/jitsi/impl/neomedia/jmfext/media/renderer/audio/WASAPIRenderer.java:1185-1290 | empty input succeeds; without an audio client the result is success only when no device is selected; before start it fails; otherwise as much input as fits is appended behind the valid data, INPUT_BUFFER_NOT_CONSUMED exactly when some input is left with the buffer advanced past what was taken, and a full remainder records the start of a malfunction and fails once it has lasted longer than the timeout |
| WasapiRender.WasapiRenderer.Start | src/org/jitsi/impl/neomedia/jmfext/media/renderer/audio/WASAPIRenderer.java:1657-1722 | without an audio client the renderer starts only when no device is selected; with one, the valid data moves to the end of the remainder behind silence, the whole remainder becomes valid, and the renderer starts when IAudioClient_Start succeeds |
| WasapiRender.WasapiRenderer.AddLatency | src/org/jitsi/impl/neomedia/jmfext/media/renderer/audio/WASAPIRenderer.java:1684-1715 | the valid bytes end up at the end of the remainder with silence before them, and the whole remainder is valid |
| WasapiRender.WasapiRenderer.ShiftToEnd | src/org/jitsi/impl/neomedia/jmfext/media/renderer/audio/WASAPIRenderer.java:1686-1698 | the loop leaves the valid bytes, in order, at the end of the remainder |
| WasapiSystem.FormatsToInitialize | src/org/jitsi/impl/neomedia/device/WASAPISystem.java:230-269 | mono and stereo are tried as given and then with the other channel count, as little-endian signed audio of unspecified frame size and frame rate; any other channel count only as given |
| WasapiSystem.SampleSizeIsTruncatedDivision | src/org/jitsi/impl/neomedia/device/WASAPISystem.java:280-293 | the sample size in bytes is always the bit count divided by 8 truncated toward zero, so the special cases for 8 and 16 agree with it and an unspecified size gives 0 |
| WasapiSystem.ToChar | src/org/jitsi/impl/neomedia/device/WASAPISystem.java:335-345 | the (char) cast keeps the low 16 bits, unsigned |
| WasapiSystem.FillRejects | src/org/jitsi/impl/neomedia/device/WASAPISystem.java:309-333 | a WAVEFORMATEX is filled exactly for a linear format whose channels, sample rate and sample size are all specified; other encodings fail with IllegalArgumentException("audioFormat.encoding") |
| WasapiSystem.FillDerivedFields | src/org/jitsi/impl/neomedia/device/WASAPISystem.java:335-345 | for 1 to 64 channels of 1- to 64-bit samples at up to 1 MHz, the fields are PCM, the channels, the rate, nBlockAlign = channels * bits / 8 and nAvgBytesPerSec = rate * nBlockAlign |
| WavData.LeUnsigned | src/org/jitsi/service/audionotifier/WavData.java:223 | the unsigned little-endian value of the bytes, below 256 to the power of their count |
| WavData.LeSigned | src/org/jitsi/service/audionotifier/WavData.java:223-234 | the two's-complement little-endian value ByteBuffer.get, getShort, getInt and getLong read, within the signed range of the width |
| WavData.LeUnsignedEncode | src/org/jitsi/service/audionotifier/WavData.java:223 | reading back the little-endian bytes of an unsigned value gives that value |
| WavData.LeSignedEncode | src/org/jitsi/service/audionotifier/WavData.java:223-234 | reading back the little-endian two's-complement bytes of any value of the width gives that value |
| WavData.ReadBytesSpec | src/org/jitsi/service/audionotifier/WavData.java:181-207 | the read succeeds exactly for a positive count that the rest of the file holds, with exactly that many bytes |
| WavData.ReadIntegerSpec | src/org/jitsi/service/audionotifier/WavData.java:219-239 | readInteger succeeds exactly for 1, 2, 4 or 8 bytes that the file holds; the bytes are read before the width is checked |
| WavData.WavInput.constructor | src/org/jitsi/service/audionotifier/WavData.java:36 | a stream at the start of the file |
| WavData.WavInput.ReadBytes | src/org/jitsi/service/audionotifier/WavData.java:181-207 | exactly numBytes bytes from the position, however read splits them, and the position moves past them; the end of the file fails with InvalidWavDataException |
| WavData.WavInput.ReadInteger | src/org/jitsi/service/audionotifier/WavData.java:219-239 | the signed little-endian value of the next 1, 2, 4 or 8 bytes, and the position moves past them |
| WavData.WavInput.SafeSkip | src/org/jitsi/service/audionotifier/WavData.java:265-286 | a negative count throws IllegalArgumentException; otherwise the position moves by exactly the count, however skip splits it |
| WavData.WavInput.ParseHeader | src/org/jitsi/service/audionotifier/WavData.java:101-121 | "RIFF", then the WAVE chunk size as a signed 32-bit value, then "WAVE", with the error of the first field that is wrong |
| WavData.WavInput.LocateFmtChunk | src/org/jitsi/service/audionotifier/WavData.java:134-169 | the stream is left at the data of the first "fmt " chunk that starts inside the WAVE chunk, each skipped chunk counted with its 8-byte header; otherwise the error of the scan, or "No fmt chunk found" |
| WavData.WavInput.NextChunk | src/org/jitsi/service/audionotifier/WavData.java:144-165 | one pass of the loop: the fmt chunk is found, or the chunk header and the chunk are skipped and the count moves on by both |
| WavData.WavInput.ReadFmtChunk | src/org/jitsi/service/audionotifier/WavData.java:347-363 | the format code (PCM exactly when it is 1), channels, sample rate, byte rate and bits per sample, the block align skipped |
| WavData.WavInput.ParseWav | src/org/jitsi/service/audionotifier/WavData.java:34-42 | the header, the fmt chunk search and the fmt chunk, in order, failing with the first error; the chunk search is the one corrected under Findings, which counts each skipped chunk's 8 header bytes |
| WavData.HeaderSpec | src/org/jitsi/service/audionotifier/WavData.java:101-121 | a parsed header starts with "RIFF", has "WAVE" eight bytes on, and gives the signed 32-bit size between them |
| WavData.FmtSpec | src/org/jitsi/service/audionotifier/WavData.java:347-363 | a fmt chunk is read exactly when 16 bytes remain |
| WavData.HeaderRoundTrip | src/org/jitsi/service/audionotifier/WavData.java:101-121 | a header written as "RIFF", a 32-bit size and "WAVE" parses back to that size |
| WavData.HeaderNeedsRiff | src/org/jitsi/service/audionotifier/WavData.java:104-109 | a file that does not start with "RIFF" is rejected before anything else is read |
| WavData.FmtRoundTrip | src/org/jitsi/service/audionotifier/WavData.java:347-363 | the fields of a fmt chunk written in little-endian read back as written |
| WavData.LocateWithinChunk | src/org/jitsi/service/audionotifier/WavData.java:134-169 | the scan, with headers counted, accepts only an "fmt " chunk whose identifier starts inside the WAVE chunk |
| WavData.LocateFirstChunk | src/org/jitsi/service/audionotifier/WavData.java:140-155 | an fmt chunk that opens the WAVE chunk is found at once |
| WavData.LocateAsWrittenOverruns | src/org/jitsi/service/audionotifier/WavData.java:162-164 | as written, a WAVE chunk of size 12 holding one empty JUNK chunk is scanned past its end and the fmt chunk after it is taken; with headers counted it is not |
| WavFileVerifier.Contains | src/org/jitsi/service/audionotifier/WavFileVerifier.java:156-165 | true exactly when the value is in the array |
| WavFileVerifier.SupportedIff | src/org/jitsi/service/audionotifier/WavFileVerifier.java:48-69 | a file is supported exactly when it is PCM, at 8000, 11025, 22050, 44100 or 48000 Hz, 16-bit, with one to five channels |
| WavFileVerifier.FirstFailureReported | src/org/jitsi/service/audionotifier/WavFileVerifier.java:48-69 | the exception names the first check that fails, every earlier check having passed, and carries the offending value |
| XmlUtils.IsPermittedCodePoint | src/org/jitsi/util/xml/XMLUtils.java:193-234 | exactly #x9, #xA, #xD, [#x20-#xD7FF], [#xE000-#xFFFD] and [#x10000-#x10FFFF], the Char production of section 2.2 of XML 1.0 |
| XmlUtils.CodePointAt | src/org/jitsi/util/xml/XMLUtils.java:139 | String.codePointAt gives a code point up to U+10FFFF, and a supplementary one only from a pair of code units |
| XmlUtils.ToChars | src/org/jitsi/util/xml/XMLUtils.java:142 | Character.toChars gives as many code units as Character.charCount says |
| XmlUtils.Decode | src/org/jitsi/util/xml/XMLUtils.java:137-150 | the code points the loop visits, each up to U+10FFFF |
| XmlUtils.Clean | src/org/jitsi/util/xml/XMLUtils.java:140-147 | each code point kept when permitted, else replaced by U+FFFD |
| XmlUtils.Sanitize | src/org/jitsi/util/xml/XMLUtils.java:134-153 | the loop appends, code point by code point, the permitted code point or U+FFFD, so its result is the input with each code point cleaned |
| XmlUtils.SanitizeNullable | src/org/jitsi/util/xml/XMLUtils.java:159-164 | "null" for a null string, else the sanitized string |
| XmlUtils.EncodeDecode | src/org/jitsi/util/xml/XMLUtils.java:137-150 | stepping through a string by code point and writing each back gives the string again, lone surrogates included |
| XmlUtils.DecodeEncode | src/org/jitsi/util/xml/XMLUtils.java:137-150 | encoding scalar values and stepping through them gives them back |
| XmlUtils.CleanPermitted | src/org/jitsi/util/xml/XMLUtils.java:134-153 | every code point of a sanitized string is permitted |
| XmlUtils.SanitizedCodePoints | src/org/jitsi/util/xml/XMLUtils.java:134-153 | sanitize keeps the number of code points, keeps each permitted one and replaces each other one with U+FFFD |
| XmlUtils.SanitizeIdempotent | src/org/jitsi/util/xml/XMLUtils.java:134-153 | sanitizing twice is sanitizing once, because U+FFFD is permitted |
| XmlUtils.SanitizeIdentityIff | src/org/jitsi/util/xml/XMLUtils.java:134-153 | sanitize leaves a string unchanged exactly when all its code points are permitted |
| XmlUtils.NormalizeNamespace | src/org/jitsi/util/xml/XMLUtils.java:751-758 | one trailing '/' is dropped, and a name without one is unchanged |
| XmlUtils.NormalizeStripsOne | src/org/jitsi/util/xml/XMLUtils.java:751-758 | only one slash goes: "a//" becomes "a/" |

## Left out

- Threads, locks, `wait`/`notify`, `synchronized` and `ThreadDeath` handling: every operation is modelled as running alone. Where the source takes a lock with `tryLock`, whether the lock was obtained is an argument.
- Logging: log output is not modelled, except in `IntervalLogger`, where it is the behaviour itself.
- Floating point: the format sample rate is the whole number of Hz that the source's `(int)` cast gives. `MacCoreaudioRenderer`'s gain control is not modelled.
- Native memory and COM objects are represented by identities and recorded outcomes. `ByteBufferPool` does not model the native `free` done when a pooled buffer is garbage collected.
- DeviceLists: `parseLegacyDeviceListString`, `renameToDeviceNames`, `setSelectedDevice`, `getAndRefreshSelectedDevice` and `writeDevicePreferences` are not modelled. They are legacy conversion and configuration I/O around the modelled list logic.
- DeviceLists: the regular expression `name:(.+) uid:(.+)` is modelled by its greedy match on one line, and `String.split` by the separator split of `JavaBase`.
- ScopedConfig: `HashtableConfigurationStore` is not part of this model. The store is a map from names to values, plus the set of names declared system, whose value is the JVM System property of that name.
- ScopedConfig: `storeConfiguration` and every other file I/O, `reloadConfiguration`, `getEnum`, the service's initialisation and the `removeProperty`/`removePropertyBySuffix`/`removeAccountConfigForProtocol` family are not modelled. They are I/O, or loops over the same lookups.
- ScopedConfig.ConfigurationService.GetPropertyNamesByPrefix: returns the names as a set. The source's `ArrayList` order follows the store's hash order, which is not part of this model.
- ScopedConfig.ConfigurationService.GetBoolean: has no contract of its own. Its blank and absent cases are stated in `BlankReadsAsAbsent`.
- WasapiRender.WasapiRenderer.constructor: `open`'s negotiation with the audio endpoint is not modelled. The remainder's size is a parameter, and the remainder starts empty.
- WasapiRender: the event-handle write thread, `monitorFunctionalHealth` and the sleeps and busy waits are not modelled.
- MacCoreaudioRender.MacCoreaudioRenderer.Process: `2 * length` is computed on unbounded integers. It does not model a Java `int` overflow on inputs over 1 GiB. `start`, `stop` and the blocking wait are not modelled.
- MacCoreaudioCapture.MacCoreaudioStream.constructor: requires `bytesPerBuffer > 0`. With 0, the source's readInput loop never makes progress, and `NarrowSamplesGiveEmptyBuffers` shows which formats give 0. `read` and the JMF transfer handler are not modelled.
- MmNotificationClient: `OnDefaultDeviceChanged`, `OnPropertyValueChanged` and `deviceStateToString` only log, so they are not modelled. The static client set is modelled as a `Registry` object.
- RtcpReports: the received and sent report maps, the feedback and XR maps, their getters and the `rtcpReport*`/`rtcpExtendedReport*` notifications are not modelled. Times are unbounded integers rather than `long`.
- RtpTranslator: the `OutputDataStreamImpl.run` thread, `doWrite`'s fan-out to the target streams, the connector aggregation and `logRTCP` are not modelled. The queue capacity of 256 is `RTPConnectorOutputStream`'s constant, and that class is not part of this model.
- StatisticsEngine: `RawPacket` is not part of this model. `shrink` is modelled from its use: the length drops and the offset stays. Parsing an XR packet (`RTCPExtendedReport`) is an abstract `parses` predicate. `getMosCQ` and the statistics are floating point.
- StringUtils: `Character.isDigit` is modelled as the ASCII digits. `join` over `int[]` and the other `join` overloads are modelled by `Join` over the elements' string forms.
- SoundFileUtils: a `File` is represented by its name. Case folding is `JavaBase`'s ASCII folding.
- WavData: a `FileInputStream` is modelled as a byte sequence and a position. `read` and `skip` may return fewer bytes than asked, by an arbitrary amount chosen by the model. `skip` past the end moves the position, as `FileInputStream.skip` does.
- XmlUtils: strings are UTF-16 code units, because Dafny's `char` excludes surrogates.
- DeviceInfo.StringHashCode: hashes the string's Unicode characters. `String.hashCode` sums UTF-16 code units, so the two differ for a name holding a character outside the Basic Multilingual Plane, which Java counts as two units.
- StringUtils.Truncate: counts Unicode characters where `substring` counts UTF-16 code units. The two differ for a string holding a character outside the Basic Multilingual Plane.
- MediaUtils.CheckH264ProfileValid: the six-character test counts Unicode characters where `String.length` counts UTF-16 code units. The two differ for a profile holding a character outside the Basic Multilingual Plane.
- MediaUtils.HexDigitValue: accepts the ASCII hex digits only. `Character.digit(c, 16)` also accepts the other Unicode decimal digits and the fullwidth Latin letters.
- JavaBase.ParseDecimal: reads ASCII digits only. `Integer.parseInt` and `Long.parseLong` also read the other Unicode decimal digits, so "١٢" (Arabic-Indic) parses as 12 in Java and fails here.
- OsUtils.CompareVersion: its parts are read by `JavaBase.ParseDecimal`, so a version part in non-ASCII digits fails to parse here where `Integer.parseInt` reads it.
- ScopedConfig.ConfigurationService.GetInt: reads the value with `JavaBase.ParseDecimal`, so a value in non-ASCII digits gives the default here where `Integer.parseInt` reads it.
- ScopedConfig.ConfigurationService.GetLong: reads the value with `JavaBase.ParseDecimal`, so a value in non-ASCII digits gives the default here where `Long.parseLong` reads it.
- JavaBase.EqualsIgnoreCase: folds the ASCII letters only. Java's `equalsIgnoreCase` also matches a non-ASCII letter whose upper or lower case is an ASCII letter, such as dotless ı or the Kelvin sign.
- JniEncoder.ProfileChoice: compares with `JavaBase.EqualsIgnoreCase`, so "baselıne" (dotless ı) gives MAIN here where Java picks CONSTRAINED_BASELINE.
- Hasher: SHA-224 itself, the UTF-8 encoding before it and the `MessageDigest` lookup are a `digest` parameter and an `algorithmAvailable` flag.
- MediaUtils: the JMF encoding names are an enumeration, because the `AudioFormat`/`VideoFormat` constants are not part of this model.
- MediaStream: the individual send and receive streams are not modelled. An `IOException` from starting or stopping one is caught and logged by the source (MediaStreamImpl.java:1989-1993, 2036-2039 and 2189-2194) and changes neither the started direction nor the other streams, so each `StreamAction` records the attempt on all streams.
- JniEncoder: encoding, `open`/`process` and the FFmpeg profile constants are not modelled. The profile is an enumeration.
- DsManager: the COM calls, the `DSCaptureDevice` internals and the release of the COM objects are not modelled. The outcome of `CoInitializeEx` is a constructor parameter, and every other call is an outcome recorded with the device's moniker.
- NlsfStabilize.Stabilize: requires the order to be at most MAX_ORDER (16), the minimum spacings to lie in [0, 2^15] and the coefficients to be bounded by 2^20. The SILK callers meet these bounds, and no Java `int` overflows within them. The source's `SKP_assert(NDeltaMin_Q15[L] >= 1)` becomes a precondition.

## Findings

| source | as written | input that shows it | evidently intended | confidence | as-written member | corrected member |
|---|---|---|---|---|---|---|
| src/org/jitsi/util/IntervalLogger.java:116-121 | `isFirstLog` returns `containsKey`, so it is true when the message HAS been counted before. | A fresh message: the first `errorAndIntervalDebug` logs at debug, and every later one logs at error without counting. | The first attempt is logged as an error, and later ones are interval-logged at debug. | high, not executed | IntervalLogger.AsWrittenInverted, IntervalLogger.IntervalLogger.IsFirstLogAsWritten | IntervalLogger.IntendedFirstIsError, IntervalLogger.IntervalLogger.ErrorAndIntervalDebug |
| src/org/jitsi/service/audionotifier/WavData.java:162-164 | `locateFmtChunk` adds only a skipped chunk's declared size to `bytesRead` and leaves out its 8 header bytes. | "RIFF", size 12, "WAVE", an empty "JUNK" chunk, then "fmt " beyond the WAVE chunk: the scan accepts a chunk outside the WAVE chunk. | Each skipped chunk counts its header as well as its data. | medium, not executed | WavData.LocateAsWrittenOverruns | WavData.LocateWithinChunk, WavData.WavInput.LocateFmtChunk |
| src/org/jitsi/impl/neomedia/transform/rtcp/StatisticsEngine.java:78 | `getLengthIfRTCP` builds the length word from signed Java bytes. | A 516-byte RTCP packet with length field 0x0080 gives -508 instead of 516, so the packet is not recognised. | The length field is read unsigned, as section 6.4.1 of RFC 3550 defines it. | high, not executed | StatisticsEngine.AsWrittenMisreadsLength, StatisticsEngine.GetLengthIfRtcpAsWritten | StatisticsEngine.GetLengthIfRtcp, StatisticsEngine.LengthRoundTrip |
| src/org/jitsi/impl/neomedia/device/DeviceListManager.java:298-303 | The stored-list test is only `startsWith("[\"")` and `endsWith("\"]")`, and then `substring(2, length - 2)` is taken. | The three-character string `["]` passes the test, yet `substring(2, 1)` throws. | Only strings of at least four characters are treated as a list of entries. | medium, not executed | DeviceLists.ListGuardAdmitsShort | DeviceLists.SafeListGuardParses, DeviceLists.DeviceListManager.LoadDevicePreferences |
