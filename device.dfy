/**
 * Device: a capture device description (name, media locator, hardware UID,
 * transport type and model identifier) and the identity used to save and
 * compare device preferences.
 */
module DeviceInfo {
  import opened JavaBase

  /**
   * A MediaLocator: its protocol (the text before the first ':') and the
   * rest of its locator string. Two locators are equal when both parts are.
   */
  datatype MediaLocator = MediaLocator(protocol: Option<string>, remainder: string)

  /** The device fields; `name` is the CaptureDeviceInfo name, None when it is null. */
  datatype Device = Device(
    name: Option<string>,
    locator: Option<MediaLocator>,
    uid: Option<string>,
    transportType: Option<string>,
    modelIdentifier: Option<string>)

  /** The NullPointerException of dereferencing a null name or identifier. */
  datatype DeviceError = NullPointer

  /** getIdentifier: the UID, or the (possibly null) name when there is no UID. */
  function GetIdentifier(d: Device): (id: Option<string>)
    ensures d.uid.Some? ==> id == d.uid
    ensures d.uid.None? ==> id == d.name
  {
    if d.uid.None? then d.name else d.uid
  }

  /** getModelIdentifier: the model identifier, or the (possibly null) name when there is none. */
  function GetModelIdentifier(d: Device): (id: Option<string>)
    ensures d.modelIdentifier.Some? ==> id == d.modelIdentifier
    ensures d.modelIdentifier.None? ==> id == d.name
  {
    if d.modelIdentifier.None? then d.name else d.modelIdentifier
  }

  /** isSameTransportType: null-safe equality of the transport types. */
  function IsSameTransportType(d: Device, transportType: Option<string>): (same: bool)
    ensures same <==> d.transportType == transportType
  {
    if d.transportType.None? then transportType.None?
    else transportType.Some? && d.transportType.value == transportType.value
  }

  /**
   * getIdentifier().equals(other.getIdentifier()): throws when this
   * identifier is null, and is false when only the other one is.
   */
  function IdentifierEquals(d: Device, other: Device): Result<bool, DeviceError>
  {
    if GetIdentifier(d).None? then Err(NullPointer)
    else Ok(GetIdentifier(other).Some? && GetIdentifier(d).value == GetIdentifier(other).value)
  }

  /**
   * equals(obj): `obj` is None for null; `identical` says it is this very
   * object. Locators must both be null or both have equal (or both null)
   * protocols, and the identifiers must be equal; comparing them throws
   * when this device's identifier is null.
   */
  function Equals(d: Device, obj: Option<Device>, identical: bool): Result<bool, DeviceError>
    requires identical ==> obj == Some(d)
  {
    if obj.None? then Ok(false)
    else if identical then Ok(true)
    else
      var other := obj.value;
      if d.locator.None? then
        if other.locator.Some? then Ok(false) else IdentifierEquals(d, other)
      else if other.locator.None? then Ok(false)
      else
        var protocol := d.locator.value.protocol;
        var otherProtocol := other.locator.value.protocol;
        if protocol.None? then
          if otherProtocol.Some? then Ok(false) else IdentifierEquals(d, other)
        else if otherProtocol.None? then Ok(false)
        else if protocol.value != otherProtocol.value then Ok(false)
        else IdentifierEquals(d, other)
  }

  /** The part of the locators that equals compares: nullness and protocol. */
  predicate SameProtocol(d: Device, e: Device)
  {
    d.locator.None? == e.locator.None? &&
    (d.locator.Some? ==> d.locator.value.protocol == e.locator.value.protocol)
  }

  /** The part of a device that equals compares: locator nullness, protocol, identifier. */
  predicate SameIdentity(d: Device, e: Device)
  {
    SameProtocol(d, e) && GetIdentifier(d) == GetIdentifier(e)
  }

  /**
   * equals is false for null and true for the same object; otherwise it
   * throws exactly when the protocols agree and this identifier is null,
   * and holds exactly for the same identity with a non-null identifier.
   */
  lemma {:induction false} EqualsIff(d: Device, obj: Option<Device>, identical: bool)
    requires identical ==> obj == Some(d)
    ensures Equals(d, obj, identical).Err? <==>
      obj.Some? && !identical && SameProtocol(d, obj.value) && GetIdentifier(d).None?
    ensures Equals(d, obj, identical) == Ok(true) <==>
      obj.Some? && (identical || (GetIdentifier(d).Some? && SameIdentity(d, obj.value)))
  {
  }

  /**
   * On devices with an identifier, equals is an equivalence: reflexive,
   * symmetric and transitive.
   */
  lemma {:induction false} EqualsEquivalence(d: Device, e: Device, f: Device)
    ensures GetIdentifier(d).Some? ==> Equals(d, Some(d), false) == Ok(true)
    ensures GetIdentifier(d).Some? && GetIdentifier(e).Some? ==>
      Equals(d, Some(e), false) == Equals(e, Some(d), false)
    ensures Equals(d, Some(e), false) == Ok(true) && Equals(e, Some(f), false) == Ok(true) ==>
      Equals(d, Some(f), false) == Ok(true)
  {
  }

  /** `String.hashCode`: s[0]*31^(n-1) + ... + s[n-1], wrapped to an int. */
  function StringHashCode(s: string): (h: int)
    ensures IsInt(h)
  {
    if s == [] then 0 else WrapInt(31 * StringHashCode(s[..|s| - 1]) + s[|s| - 1] as int)
  }

  /** hashCode: the identifier's hash; a null identifier throws. */
  function HashCode(d: Device): (h: Result<int, DeviceError>)
    ensures h.Err? <==> GetIdentifier(d).None?
  {
    if GetIdentifier(d).None? then Err(NullPointer) else Ok(StringHashCode(GetIdentifier(d).value))
  }

  /** Equal devices have equal hash codes, and neither throws. */
  lemma {:induction false} HashCodeAgreesWithEquals(d: Device, e: Device)
    requires Equals(d, Some(e), false) == Ok(true)
    ensures HashCode(d).Ok? && HashCode(d) == HashCode(e)
  {
  }

  /** A line terminator, which `.` in a Java regex does not match. */
  predicate IsLineTerminator(c: char)
  {
    c == '\n' || c == '\r' || c == '\U{0085}' || c == '\U{2028}' || c == '\U{2029}'
  }

  /** The first ')' at or after i, unless a line terminator comes first. */
  function CloseParen(s: string, i: nat): (j: Option<nat>)
    requires i <= |s|
    ensures j.Some? ==> (i <= j.value < |s| && s[j.value] == ')' &&
      forall k :: i <= k < j.value ==> s[k] != ')' && !IsLineTerminator(s[k]))
    ensures j.None? ==> forall k :: i <= k < |s| && s[k] == ')' ==> exists m :: i <= m < k && IsLineTerminator(s[m])
    decreases |s| - i
  {
    if i == |s| then None
    else if s[i] == ')' then Some(i)
    else if IsLineTerminator(s[i]) then None
    else CloseParen(s, i + 1)
  }

  /**
   * The leftmost match of `\(.*?\)` at or after position i: the first '('
   * that a ')' follows on the same line, and the shortest such match.
   */
  function FindGroup(s: string, i: nat): (r: Option<(nat, nat)>)
    requires i <= |s|
    ensures r.Some? ==> (i <= r.value.0 < r.value.1 < |s| && s[r.value.0] == '(' &&
      CloseParen(s, r.value.0 + 1) == Some(r.value.1))
    ensures r.Some? ==> forall k :: i <= k < r.value.0 && s[k] == '(' ==> CloseParen(s, k + 1).None?
    ensures r.None? ==> forall k :: i <= k < |s| && s[k] == '(' ==> CloseParen(s, k + 1).None?
    decreases |s| - i
  {
    if i == |s| then None
    else if s[i] == '(' && CloseParen(s, i + 1).Some? then Some((i, CloseParen(s, i + 1).value))
    else FindGroup(s, i + 1)
  }

  /**
   * getNameWithoutDeviceType: the text inside the first parentheses, else
   * the name; a null name throws.
   */
  function GetNameWithoutDeviceType(d: Device): (r: Result<string, DeviceError>)
    ensures r.Err? <==> d.name.None?
    ensures r.Ok? ==> |r.value| <= |d.name.value|
  {
    if d.name.None? then Err(NullPointer)
    else
      var name := d.name.value;
      var m := FindGroup(name, 0);
      if m.None? then Ok(name) else Ok(name[m.value.0 + 1..m.value.1])
  }

  /** A name without '(' comes back whole. */
  lemma {:induction false} NoParenthesesKeepsName(d: Device)
    requires d.name.Some? && '(' !in d.name.value
    ensures GetNameWithoutDeviceType(d) == Ok(d.name.value)
  {
  }

  /**
   * "Headset Microphone (Jabra UC VOICE 550a MS)": a name made of a prefix
   * without '(', then a parenthesised part without ')' or line breaks, gives
   * that part.
   */
  lemma {:induction false} ParenthesisedPart(d: Device, prefix: string, inner: string, suffix: string)
    requires d.name == Some(prefix + "(" + inner + ")" + suffix)
    requires '(' !in prefix && ')' !in inner
    requires forall k :: 0 <= k < |inner| ==> !IsLineTerminator(inner[k])
    ensures GetNameWithoutDeviceType(d) == Ok(inner)
  {
    var s := d.name.value;
    var open := |prefix|;
    assert s[open] == '(';
    assert s[open + 1 + |inner|] == ')';
    assert forall k :: open + 1 <= k < open + 1 + |inner| ==> s[k] == inner[k - open - 1];
    CloseParenAt(s, open + 1, open + 1 + |inner|);
    FindGroupAt(s, 0, open);
    assert s[open + 1..open + 1 + |inner|] == inner;
  }

  lemma {:induction false} CloseParenAt(s: string, i: nat, j: nat)
    requires i <= j < |s| && s[j] == ')'
    requires forall k :: i <= k < j ==> s[k] != ')' && !IsLineTerminator(s[k])
    ensures CloseParen(s, i) == Some(j)
    decreases j - i
  {
    if i < j {
      CloseParenAt(s, i + 1, j);
    }
  }

  lemma {:induction false} FindGroupAt(s: string, i: nat, open: nat)
    requires i <= open < |s| && s[open] == '(' && CloseParen(s, open + 1).Some?
    requires forall k :: i <= k < open ==> s[k] != '('
    ensures FindGroup(s, i) == Some((open, CloseParen(s, open + 1).value))
    decreases open - i
  {
    if i < open {
      FindGroupAt(s, i + 1, open);
    }
  }
}
