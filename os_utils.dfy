/**
 * OSUtils: dotted macOS version comparison and the Mac model blocklist.
 */
module OsUtils {
  import opened JavaBase

  /** The numeric value of part i of a split version; missing or non-numeric parts count as 0. */
  function Part(parts: seq<string>, i: nat): int
  {
    if i < |parts| then
      match ParseInt(parts[i])
      case Some(v) => v
      case None => 0
    else 0
  }

  /** Left-to-right comparison of the parts from index i on, up to the longer split. */
  function CompareFrom(p1: seq<string>, p2: seq<string>, i: nat): int
    decreases Max(|p1|, |p2|) - i
  {
    if i >= Max(|p1|, |p2|) then 0
    else if Part(p1, i) > Part(p2, i) then 1
    else if Part(p2, i) > Part(p1, i) then -1
    else CompareFrom(p1, p2, i + 1)
  }

  /** The order compareVersion computes on two version strings. */
  function VersionOrder(v1: string, v2: string): int
  {
    CompareFrom(JavaSplit(v1, '.'), JavaSplit(v2, '.'), 0)
  }

  /**
   * MacOSVersion.compareVersion: splits both strings on '.', and compares
   * part by part until the first difference.
   */
  method CompareVersion(v1: string, v2: string) returns (result: int)
    ensures result == VersionOrder(v1, v2)
    ensures result in {-1, 0, 1}
  {
    var parts1 := JavaSplit(v1, '.');
    var parts2 := JavaSplit(v2, '.');
    var maxLength := if |parts1| > |parts2| then |parts1| else |parts2|;
    result := 0;
    var i := 0;
    while i < maxLength
      invariant 0 <= i <= maxLength
      invariant CompareFrom(parts1, parts2, i) == CompareFrom(parts1, parts2, 0)
    {
      var v1Part := if i < |parts1| then (match ParseInt(parts1[i]) case Some(v) => v case None => 0) else 0;
      var v2Part := if i < |parts2| then (match ParseInt(parts2[i]) case Some(v) => v case None => 0) else 0;
      if v1Part > v2Part {
        result := 1;
        break;
      } else if v2Part > v1Part {
        result := -1;
        break;
      }
      i := i + 1;
    }
    CompareFromRange(parts1, parts2, 0);
  }

  /** MacOSVersion.isGreaterOrEqual. */
  method IsGreaterOrEqual(v1: string, v2: string) returns (ge: bool)
    ensures ge <==> VersionOrder(v1, v2) >= 0
  {
    var c := CompareVersion(v1, v2);
    ge := c >= 0;
  }

  lemma {:induction false} CompareFromRange(p1: seq<string>, p2: seq<string>, i: nat)
    ensures CompareFrom(p1, p2, i) in {-1, 0, 1}
    decreases Max(|p1|, |p2|) - i
  {
    if i < Max(|p1|, |p2|) && Part(p1, i) == Part(p2, i) { CompareFromRange(p1, p2, i + 1); }
  }

  /** Swapping the versions negates the comparison. */
  lemma {:induction false} CompareFromAntisymmetric(p1: seq<string>, p2: seq<string>, i: nat)
    ensures CompareFrom(p1, p2, i) == -CompareFrom(p2, p1, i)
    decreases Max(|p1|, |p2|) - i
  {
    if i < Max(|p1|, |p2|) && Part(p1, i) == Part(p2, i) { CompareFromAntisymmetric(p1, p2, i + 1); }
  }

  /**
   * The comparison is 0 exactly when every part agrees, and 1 (or -1) exactly
   * when the first differing part is larger in the first (second) version.
   */
  lemma {:induction false} CompareFromMeaning(p1: seq<string>, p2: seq<string>, i: nat)
    ensures CompareFrom(p1, p2, i) == 0 <==> AgreeBetween(p1, p2, i, Max(|p1|, |p2|))
    ensures CompareFrom(p1, p2, i) == 1 <==>
      exists k :: i <= k < Max(|p1|, |p2|) && Part(p1, k) > Part(p2, k) && AgreeBetween(p1, p2, i, k)
    decreases Max(|p1|, |p2|) - i
  {
    var n := Max(|p1|, |p2|);
    if i >= n {
    } else if Part(p1, i) > Part(p2, i) {
      assert !AgreeBetween(p1, p2, i, n);
      assert AgreeBetween(p1, p2, i, i);
    } else if Part(p1, i) < Part(p2, i) {
      assert !AgreeBetween(p1, p2, i, n);
      forall k | i <= k < n && Part(p1, k) > Part(p2, k) ensures !AgreeBetween(p1, p2, i, k) {
        assert k != i;
      }
    } else {
      CompareFromMeaning(p1, p2, i + 1);
      assert CompareFrom(p1, p2, i) == CompareFrom(p1, p2, i + 1);
      assert AgreeBetween(p1, p2, i, n) == AgreeBetween(p1, p2, i + 1, n);
      forall k | i <= k < n
        ensures (Part(p1, k) > Part(p2, k) && AgreeBetween(p1, p2, i, k)) <==>
          (k >= i + 1 && Part(p1, k) > Part(p2, k) && AgreeBetween(p1, p2, i + 1, k))
      {
      }
    }
  }

  /** The parts of the two versions agree from index i up to k. */
  predicate AgreeBetween(p1: seq<string>, p2: seq<string>, i: nat, k: nat)
  {
    forall j :: i <= j < k ==> Part(p1, j) == Part(p2, j)
  }

  lemma {:induction false} VersionOrderAntisymmetric(v1: string, v2: string)
    ensures VersionOrder(v1, v2) == -VersionOrder(v2, v1)
  {
    CompareFromAntisymmetric(JavaSplit(v1, '.'), JavaSplit(v2, '.'), 0);
  }

  lemma {:induction false} VersionOrderReflexive(v: string)
    ensures VersionOrder(v, v) == 0
  {
    VersionOrderAntisymmetric(v, v);
  }

  /** A missing trailing part counts as 0: "10" and "10.0" are equal versions. */
  lemma {:induction false} TenEqualsTenZero()
    ensures VersionOrder("10", "10.0") == 0
  {
    var p1, p2 := JavaSplit("10", '.'), JavaSplit("10.0", '.');
    assert p1 == ["10"];
    assert IndexOf("10.0", '.') == 2;
    assert SplitAll("10.0", '.') == ["10", "0"] by {
      assert "10.0"[..2] == "10" && "10.0"[3..] == "0";
      assert IndexOf("0", '.') == -1;
    }
    assert p2 == ["10", "0"];
    assert DigitsValue("10") == 10 by { assert "10"[..1] == "1"; }
    assert DigitsValue("0") == 0;
    CompareFromMeaning(p1, p2, 0);
  }

  // ------------------------------------------------------------ MacVersionInfo

  datatype MacVersionInfo = MacVersionInfo(name: string, majorVersion: int)

  /** Integer.parseInt of the major version overflowing an int. */
  datatype NumberFormatException = NumberFormatException

  /**
   * The match of `(\D+)(\d+),(\d+)` against the whole string: a non-empty
   * run of non-digits, a run of digits, a comma and a run of digits. Because
   * the first group cannot hold a digit, it ends at the first digit.
   */
  predicate ModelPattern(s: string, k: nat, c: nat)
  {
    1 <= k < c < |s| - 1 && s[c] == ',' &&
    (forall i :: 0 <= i < k ==> !IsAsciiDigit(s[i])) &&
    AllDigits(s[k..c]) && AllDigits(s[c + 1..])
  }

  /** The first index holding a digit, or |s|. */
  function FirstDigit(s: string): (k: nat)
    ensures k <= |s|
    ensures forall i :: 0 <= i < k ==> !IsAsciiDigit(s[i])
    ensures k < |s| ==> IsAsciiDigit(s[k])
  {
    if s == [] || IsAsciiDigit(s[0]) then 0 else 1 + FirstDigit(s[1..])
  }

  /**
   * makeVersionInfo: None when the model string does not match; an
   * exception when the major version does not fit an int.
   */
  function MakeVersionInfo(s: string): Result<Option<MacVersionInfo>, NumberFormatException>
  {
    var k := FirstDigit(s);
    var c := IndexOf(s[k..], ',');
    if k >= 1 && c >= 1 && ModelPattern(s, k, k + c) then MajorVersion(s, k, k + c)
    else Ok(None)
  }

  /** The name and major version of a matched model string. */
  function MajorVersion(s: string, k: nat, c: nat): Result<Option<MacVersionInfo>, NumberFormatException>
    requires ModelPattern(s, k, c)
  {
    var major := DigitsValue(s[k..c]);
    if IsInt(major) then Ok(Some(MacVersionInfo(s[..k], major))) else Err(NumberFormatException)
  }

  /** makeVersionInfo yields a version exactly for the strings the pattern matches. */
  lemma {:induction false} MakeVersionInfoMatches(s: string)
    ensures var r := MakeVersionInfo(s);
      r.Ok? && r.value.Some? ==>
        exists k: nat, c: nat :: ModelPattern(s, k, c) && r.value.value == MacVersionInfo(s[..k], DigitsValue(s[k..c]))
    ensures var r := MakeVersionInfo(s);
      (r.Ok? && r.value.None?) <==> forall k: nat, c: nat :: !ModelPattern(s, k, c)
  {
    PatternUnique(s, FirstDigit(s));
  }

  /** Any match of the pattern splits the string at the first digit and the first comma after it. */
  lemma {:induction false} PatternUnique(s: string, k0: nat)
    requires k0 == FirstDigit(s)
    ensures forall k: nat, c: nat :: ModelPattern(s, k, c) ==> k == k0 && c == k0 + IndexOf(s[k0..], ',')
  {
    forall k: nat, c: nat | ModelPattern(s, k, c) ensures k == k0 && c == k0 + IndexOf(s[k0..], ',') {
      assert IsAsciiDigit(s[k..c][0]);
      assert k == k0;
      assert forall t :: 0 <= t < c - k0 ==> s[k0..][t] == s[k..c][t];
      IndexOfAt(s[k0..], ',', c - k0);
    }
  }

  /** The index of the first occurrence, stated positively. */
  lemma {:induction false} IndexOfAt(s: string, ch: char, j: nat)
    requires j < |s| && s[j] == ch && forall t :: 0 <= t < j ==> s[t] != ch
    ensures IndexOf(s, ch) == j
    decreases j
  {
    if j > 0 { IndexOfAt(s[1..], ch, j - 1); }
  }

  /** versionIsBlocklisted. */
  predicate VersionIsBlocklisted(info: MacVersionInfo)
  {
    info.name == "MacBookPro" && info.majorVersion >= 13
  }

  /**
   * A model string built from a digit-free name, a major and a minor version
   * parses back to that name and major version.
   */
  lemma {:induction false} MakeVersionInfoOfModel(name: string, major: string, minor: string)
    requires name != [] && forall i :: 0 <= i < |name| ==> !IsAsciiDigit(name[i])
    requires major != [] && AllDigits(major) && minor != [] && AllDigits(minor)
    requires IsInt(DigitsValue(major))
    ensures MakeVersionInfo(name + major + "," + minor) == Ok(Some(MacVersionInfo(name, DigitsValue(major))))
  {
    var s := name + major + "," + minor;
    var k, c := |name|, |major|;
    ModelSplits(name, major, minor);
    assert s[k] == major[0];
    FirstDigitAt(s, k);
    var rest := s[k..];
    assert rest == major + "," + minor;
    assert rest[c] == ',';
    assert forall t :: 0 <= t < c ==> rest[t] == major[t];
    IndexOfAt(rest, ',', c);
    assert s[k..k + c] == major && s[..k] == name;
    MakeVersionInfoAt(s, k, c);
  }

  lemma {:induction false} MakeVersionInfoAt(s: string, k: nat, c: nat)
    requires k == FirstDigit(s) && c == IndexOf(s[k..], ',') && k >= 1 && c >= 1
    requires ModelPattern(s, k, k + c) && IsInt(DigitsValue(s[k..k + c]))
    ensures MakeVersionInfo(s) == Ok(Some(MacVersionInfo(s[..k], DigitsValue(s[k..k + c]))))
  {
    MajorVersionFits(s, k, k + c);
    MakeVersionInfoUnfold(s);
  }

  lemma {:induction false} MakeVersionInfoUnfold(s: string)
    ensures var k := FirstDigit(s); var c := IndexOf(s[k..], ',');
      MakeVersionInfo(s) == if k >= 1 && c >= 1 && ModelPattern(s, k, k + c) then MajorVersion(s, k, k + c) else Ok(None)
  {
  }

  lemma {:induction false} MajorVersionFits(s: string, k: nat, c: nat)
    requires ModelPattern(s, k, c) && IsInt(DigitsValue(s[k..c]))
    ensures MajorVersion(s, k, c) == Ok(Some(MacVersionInfo(s[..k], DigitsValue(s[k..c]))))
  {
  }

  lemma {:induction false} ModelSplits(name: string, major: string, minor: string)
    requires name != [] && forall i :: 0 <= i < |name| ==> !IsAsciiDigit(name[i])
    requires major != [] && AllDigits(major) && minor != [] && AllDigits(minor)
    ensures var s := name + major + "," + minor;
      && s[..|name|] == name && s[|name|..|name| + |major|] == major
      && s[|name| + |major| + 1..] == minor
      && ModelPattern(s, |name|, |name| + |major|)
  {
    var s := name + major + "," + minor;
    assert s[..|name|] == name;
    assert s[|name|..|name| + |major|] == major;
    assert s[|name| + |major| + 1..] == minor;
  }

  /**
   * The model string of a machine is blocklisted exactly when its name is
   * MacBookPro and its major version is at least 13; the minor version
   * plays no part.
   */
  lemma {:induction false} ModelStringBlocklisted(name: string, major: string, minor: string)
    requires name != [] && forall i :: 0 <= i < |name| ==> !IsAsciiDigit(name[i])
    requires major != [] && AllDigits(major) && minor != [] && AllDigits(minor)
    requires IsInt(DigitsValue(major))
    ensures var r := MakeVersionInfo(name + major + "," + minor);
      r.Ok? && r.value.Some? &&
      (VersionIsBlocklisted(r.value.value) <==> name == "MacBookPro" && DigitsValue(major) >= 13)
  {
    MakeVersionInfoOfModel(name, major, minor);
  }

  /** The blocklist: MacBookPro models from generation 13 on. */
  lemma {:induction false} BlocklistExamples()
    ensures VersionIsBlocklisted(MacVersionInfo("MacBookPro", 13))
    ensures !VersionIsBlocklisted(MacVersionInfo("MacBookPro", 12))
    ensures !VersionIsBlocklisted(MacVersionInfo("MacBookAir", 13))
  {
  }

  lemma {:induction false} FirstDigitAt(s: string, k: nat)
    requires k < |s| && IsAsciiDigit(s[k]) && forall i :: 0 <= i < k ==> !IsAsciiDigit(s[i])
    ensures FirstDigit(s) == k
    decreases k
  {
    if k > 0 { FirstDigitAt(s[1..], k - 1); }
  }
}
