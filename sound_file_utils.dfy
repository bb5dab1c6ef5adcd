/**
 * SoundFileUtils: the extension of a file name and whether it names a sound
 * file, either against the built-in extension list or against a
 * caller-supplied list searched case-insensitively.
 */
module SoundFileUtils {
  import opened JavaBase

  /** getExtension(f) on the file's name: the lower-cased text after the last '.'. */
  function GetExtension(name: string): (ext: Option<string>)
    ensures ext.Some? <==> 0 < LastIndexOf(name, '.') < |name| - 1
    ensures ext.Some? ==> ext.value == ToLower(name[LastIndexOf(name, '.') + 1..]) && '.' !in ext.value
  {
    var i := LastIndexOf(name, '.');
    if i > 0 && i < |name| - 1 then
      var ext := ToLower(name[i + 1..]);
      assert forall k :: 0 <= k < |ext| ==> ext[k] != '.' by {
        forall k | 0 <= k < |ext| ensures ext[k] != '.' {
          assert name[i + 1..][k] == name[i + 1 + k];
        }
      }
      Some(ext)
    else None
  }

  /** The extensions isSoundFile(f) accepts (aiff is defined but not accepted). */
  const SOUND_EXTENSIONS: set<string> := {"wma", "wav", "ram", "ogg", "mp3", "mp2", "mod", "midi", "gsm", "au"}

  /** isSoundFile(f). */
  function IsSoundFile(name: string): (ok: bool)
  {
    var ext := GetExtension(name);
    ext.Some? &&
    (ext.value == "wma" || ext.value == "wav" || ext.value == "ram" || ext.value == "ogg" ||
     ext.value == "mp3" || ext.value == "mp2" || ext.value == "mod" || ext.value == "midi" ||
     ext.value == "gsm" || ext.value == "au")
  }

  /** isSoundFile(f) accepts exactly the ten built-in extensions. */
  lemma {:induction false} IsSoundFileIff(name: string)
    ensures IsSoundFile(name) <==> GetExtension(name).Some? && GetExtension(name).value in SOUND_EXTENSIONS
  {
  }

  /** "Ring.WAV" has extension "wav": the lower-cased text after the last dot. */
  lemma {:induction false} ExtensionAfterLastDot(base: string, ext: string)
    requires |base| > 0 && |ext| > 0 && '.' !in ext
    ensures GetExtension(base + "." + ext) == Some(ToLower(ext))
  {
    var s := base + "." + ext;
    assert s[|base| + 1..] == ext;
    LastIndexOfAt(s, '.', |base|);
  }

  /** A hidden file such as ".wav" has no extension. */
  lemma {:induction false} LeadingDotOnly(name: string)
    requires |name| > 0 && name[0] == '.' && '.' !in name[1..]
    ensures GetExtension(name).None?
  {
    LastIndexOfAt(name, '.', 0);
  }

  // --------------------------------------------------- String.CASE_INSENSITIVE_ORDER

  /** The per-character key of CASE_INSENSITIVE_ORDER: lower case of upper case. */
  function Fold(c: char): char
  {
    AsciiLower(AsciiUpper(c))
  }

  /** `String.CASE_INSENSITIVE_ORDER.compare(a, b)`: only its sign matters. */
  function CompareIgnoreCase(a: string, b: string): (c: int)
    ensures c == 0 <==> |a| == |b| && forall k :: 0 <= k < |a| ==> Fold(a[k]) == Fold(b[k])
  {
    if a == [] || b == [] then |a| - |b|
    else if Fold(a[0]) != Fold(b[0]) then Fold(a[0]) as int - Fold(b[0]) as int
    else
      var r := CompareIgnoreCase(a[1..], b[1..]);
      assert r == 0 ==> forall k :: 0 <= k < |a| ==> Fold(a[k]) == Fold(b[k]) by {
        if r == 0 {
          forall k | 0 <= k < |a| ensures Fold(a[k]) == Fold(b[k]) {
            if k > 0 { assert a[1..][k - 1] == a[k] && b[1..][k - 1] == b[k]; }
          }
        }
      }
      r
  }

  function Sign(c: int): int { if c < 0 then -1 else if c == 0 then 0 else 1 }

  /**
   * The only ordering binary search relies on: along the array the elements
   * compare first below, then equal to, then above the key. A list sorted by
   * CASE_INSENSITIVE_ORDER has this shape for every key.
   */
  predicate PartitionedBy(xs: seq<string>, key: string)
  {
    forall i, j :: 0 <= i < j < |xs| ==> Sign(CompareIgnoreCase(xs[i], key)) <= Sign(CompareIgnoreCase(xs[j], key))
  }

  /**
   * `Arrays.binarySearch(a, key, String.CASE_INSENSITIVE_ORDER)`: an index
   * holding an element equal to the key ignoring case, or -(insertion point)-1.
   * A found index is always right; "not found" is only right on a sorted list.
   */
  method BinarySearch(a: seq<string>, key: string) returns (r: int)
    requires |a| <= INT_MAX
    ensures r >= 0 ==> r < |a| && CompareIgnoreCase(a[r], key) == 0
    ensures PartitionedBy(a, key) ==> (r < 0 <==> forall i :: 0 <= i < |a| ==> CompareIgnoreCase(a[i], key) != 0)
  {
    var low := 0;
    var high := |a| - 1;
    while low <= high
      invariant 0 <= low <= |a| && -1 <= high < |a| && low <= high + 1
      invariant PartitionedBy(a, key) ==> forall i :: 0 <= i < low ==> CompareIgnoreCase(a[i], key) < 0
      invariant PartitionedBy(a, key) ==> forall i :: high < i < |a| ==> CompareIgnoreCase(a[i], key) > 0
    {
      var mid := (low + high) / 2;
      var cmp := CompareIgnoreCase(a[mid], key);
      if cmp < 0 {
        low := mid + 1;
      } else if cmp > 0 {
        high := mid - 1;
      } else {
        return mid;
      }
    }
    r := -(low + 1);
  }

  /**
   * isSoundFile(f, soundFormats): with no list, the built-in check; with one,
   * whether binary search finds the extension in it.
   */
  method IsSoundFileWithFormats(name: string, soundFormats: Option<seq<string>>) returns (ok: bool)
    requires soundFormats.Some? ==> |soundFormats.value| <= INT_MAX
    ensures soundFormats.None? ==> ok == IsSoundFile(name)
    ensures soundFormats.Some? && GetExtension(name).None? ==> !ok
    ensures soundFormats.Some? && ok ==>
      exists i :: 0 <= i < |soundFormats.value| && CompareIgnoreCase(soundFormats.value[i], GetExtension(name).value) == 0
    ensures soundFormats.Some? && GetExtension(name).Some? && PartitionedBy(soundFormats.value, GetExtension(name).value) ==>
      (ok <==> exists i :: 0 <= i < |soundFormats.value| && CompareIgnoreCase(soundFormats.value[i], GetExtension(name).value) == 0)
  {
    if soundFormats.None? {
      return IsSoundFile(name);
    }
    var ext := GetExtension(name);
    if ext.Some? {
      var index := BinarySearch(soundFormats.value, ext.value);
      return index > -1;
    }
    ok := false;
  }
}
