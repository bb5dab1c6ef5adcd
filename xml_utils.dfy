/**
 * XMLUtils: replacing the characters that section 2.2 of XML 1.0 does not
 * permit. A Java String is a sequence of UTF-16 code units; code points are
 * read from it the way `String.codePointAt` does (a high surrogate followed
 * by a low one is one supplementary code point, any other unit stands for
 * itself, lone surrogates included).
 */
module XmlUtils {
  import opened JavaBase

  /** One UTF-16 code unit (a Java `char`). */
  type CodeUnit = x: int | 0 <= x < 0x1_0000

  predicate IsHighSurrogate(u: int) { 0xD800 <= u <= 0xDBFF }
  predicate IsLowSurrogate(u: int) { 0xDC00 <= u <= 0xDFFF }
  predicate IsSurrogate(u: int) { 0xD800 <= u <= 0xDFFF }

  /** A Unicode scalar value: a code point that is not a surrogate. */
  predicate IsScalar(cp: int) { 0 <= cp <= 0x10_FFFF && !IsSurrogate(cp) }

  /** UNICODE_REPLACEMENT_CHAR. */
  const REPLACEMENT: int := 0xFFFD

  /** NULL_STRING, "null", as code units. */
  const NULL_STRING: seq<CodeUnit> := [0x6E, 0x75, 0x6C, 0x6C]

  /**
   * isPermittedCodePoint: tab, line feed, carriage return, and every scalar
   * value from U+0020 up except the two non-characters U+FFFE and U+FFFF.
   */
  function IsPermittedCodePoint(codePoint: int): (ok: bool)
    ensures ok <==> (codePoint == 0x9 || codePoint == 0xA || codePoint == 0xD ||
      (0x20 <= codePoint && IsScalar(codePoint) && codePoint != 0xFFFE && codePoint != 0xFFFF))
  {
    if codePoint == 0x9 then true
    else if codePoint == 0xa then true
    else if codePoint == 0xd then true
    else if codePoint >= 0x20 && codePoint <= 0xd7ff then true
    else if codePoint >= 0xe000 && codePoint <= 0xfffd then true
    else if codePoint >= 0x10000 && codePoint <= 0x10ffff then true
    else false
  }

  /** `String.codePointAt(i)`. */
  function CodePointAt(d: seq<CodeUnit>, i: nat): (cp: int)
    requires i < |d|
    ensures 0 <= cp <= 0x10_FFFF
    ensures cp >= 0x1_0000 ==> i + 1 < |d|
  {
    if IsHighSurrogate(d[i]) && i + 1 < |d| && IsLowSurrogate(d[i + 1]) then
      0x1_0000 + (d[i] as int - 0xD800) * 0x400 + (d[i + 1] as int - 0xDC00)
    else d[i]
  }

  /** `Character.charCount`. */
  function CharCount(cp: int): (n: nat)
    ensures n == 1 || n == 2
  {
    if cp >= 0x1_0000 then 2 else 1
  }

  /** `Character.toChars`. */
  function ToChars(cp: int): (units: seq<CodeUnit>)
    requires 0 <= cp <= 0x10_FFFF
    ensures |units| == CharCount(cp)
  {
    if cp < 0x1_0000 then [cp]
    else [0xD800 + (cp - 0x1_0000) / 0x400, 0xDC00 + (cp - 0x1_0000) % 0x400]
  }

  /** The code points of a string, read left to right as codePointAt/charCount step. */
  function Decode(d: seq<CodeUnit>): (cps: seq<int>)
    ensures forall k :: 0 <= k < |cps| ==> 0 <= cps[k] <= 0x10_FFFF
    decreases |d|
  {
    if d == [] then []
    else
      var cp := CodePointAt(d, 0);
      [cp] + Decode(d[CharCount(cp)..])
  }

  /** The code units of a sequence of code points. */
  function Encode(cps: seq<int>): seq<CodeUnit>
    requires forall k :: 0 <= k < |cps| ==> 0 <= cps[k] <= 0x10_FFFF
  {
    if cps == [] then [] else ToChars(cps[0]) + Encode(cps[1..])
  }

  /** A permitted code point stays, any other becomes U+FFFD. */
  function Replace(cp: int): int
  {
    if IsPermittedCodePoint(cp) then cp else REPLACEMENT
  }

  function Clean(cps: seq<int>): (r: seq<int>)
    ensures |r| == |cps|
    ensures forall k :: 0 <= k < |r| ==> r[k] == Replace(cps[k])
  {
    if cps == [] then [] else [Replace(cps[0])] + Clean(cps[1..])
  }

  /** What sanitize returns: the string's code points, cleaned, re-encoded. */
  function Sanitized(d: seq<CodeUnit>): seq<CodeUnit>
  {
    Encode(Clean(Decode(d)))
  }

  /** sanitize(data). */
  method Sanitize(data: seq<CodeUnit>) returns (result: seq<CodeUnit>)
    ensures result == Sanitized(data)
  {
    result := [];
    var offset := 0;
    assert data[0..] == data;
    while offset < |data|
      invariant 0 <= offset <= |data|
      invariant result + Sanitized(data[offset..]) == Sanitized(data)
      decreases |data| - offset
    {
      var codePoint := CodePointAt(data, offset);
      SanitizedFrom(data, offset);
      ghost var previous := result;
      if IsPermittedCodePoint(codePoint) {
        result := result + ToChars(codePoint);
      } else {
        result := result + ToChars(REPLACEMENT);
      }
      offset := offset + CharCount(codePoint);
      AppendAssociative(previous, ToChars(Replace(codePoint)), Sanitized(data[offset..]));
    }
  }

  /** sanitizeNullable: "null" for a null string. */
  method SanitizeNullable(data: Option<seq<CodeUnit>>) returns (result: seq<CodeUnit>)
    ensures data.None? ==> result == NULL_STRING
    ensures data.Some? ==> result == Sanitized(data.value)
  {
    if data.None? {
      return NULL_STRING;
    }
    result := Sanitize(data.value);
  }

  /** One step of sanitize: the first code point, then the rest. */
  lemma {:induction false} SanitizedUnfold(d: seq<CodeUnit>)
    requires d != []
    ensures Sanitized(d) == ToChars(Replace(CodePointAt(d, 0))) + Sanitized(d[CharCount(CodePointAt(d, 0))..])
  {
    var cps := Decode(d);
    assert Clean(cps)[1..] == Clean(cps[1..]);
  }

  /** The step sanitize takes at an offset: the code point there, replaced, then the rest. */
  lemma {:induction false} SanitizedFrom(data: seq<CodeUnit>, offset: nat)
    requires offset < |data|
    ensures var cp := CodePointAt(data, offset);
      offset + CharCount(cp) <= |data| &&
      Sanitized(data[offset..]) == ToChars(Replace(cp)) + Sanitized(data[offset + CharCount(cp)..])
  {
    var cp := CodePointAt(data, offset);
    var d := data[offset..];
    SanitizedUnfold(d);
    assert CodePointAt(d, 0) == cp;
    assert d[CharCount(cp)..] == data[offset + CharCount(cp)..];
  }

  /** Decoding then encoding gives back every string, lone surrogates included. */
  lemma {:induction false} EncodeDecode(d: seq<CodeUnit>)
    ensures Encode(Decode(d)) == d
    decreases |d|
  {
    if d != [] {
      var cp := CodePointAt(d, 0);
      var n := CharCount(cp);
      EncodeDecode(d[n..]);
      assert Decode(d)[1..] == Decode(d[n..]);
      if n == 2 {
        assert ToChars(cp) == d[..2];
      }
      assert d == d[..n] + d[n..];
    }
  }

  /** Encoding then decoding gives back every sequence of scalar values. */
  lemma {:induction false} DecodeEncode(cps: seq<int>)
    requires forall k :: 0 <= k < |cps| ==> 0 <= cps[k] <= 0x10_FFFF && !IsSurrogate(cps[k])
    ensures Decode(Encode(cps)) == cps
  {
    if cps != [] {
      var c := cps[0];
      var rest := Encode(cps[1..]);
      var d := ToChars(c) + rest;
      assert CodePointAt(d, 0) == c by { CodePointOfChars(c, rest); }
      assert d[CharCount(c)..] == rest;
      DecodeEncode(cps[1..]);
      assert cps == [c] + cps[1..];
    }
  }

  lemma {:induction false} CodePointOfChars(c: int, rest: seq<CodeUnit>)
    requires IsScalar(c)
    ensures CodePointAt(ToChars(c) + rest, 0) == c
  {
    if c >= 0x1_0000 {
      var q := (c - 0x1_0000) / 0x400;
      var r := (c - 0x1_0000) % 0x400;
      assert c - 0x1_0000 == q * 0x400 + r;
      assert q < 0x400;
    }
  }

  /** Every code point of a sanitized string is permitted (and so a scalar value). */
  lemma {:induction false} CleanPermitted(cps: seq<int>)
    ensures forall k :: 0 <= k < |Clean(cps)| ==> IsPermittedCodePoint(Clean(cps)[k]) && IsScalar(Clean(cps)[k])
  {
  }

  /**
   * sanitize keeps the number of code points, keeps each permitted code point
   * and replaces each other one with U+FFFD.
   */
  lemma {:induction false} SanitizedCodePoints(d: seq<CodeUnit>)
    ensures Decode(Sanitized(d)) == Clean(Decode(d))
    ensures |Decode(Sanitized(d))| == |Decode(d)|
    ensures forall k :: 0 <= k < |Decode(d)| ==>
      Decode(Sanitized(d))[k] == (if IsPermittedCodePoint(Decode(d)[k]) then Decode(d)[k] else REPLACEMENT)
  {
    CleanPermitted(Decode(d));
    DecodeEncode(Clean(Decode(d)));
  }

  /** Cleaning already permitted code points changes nothing. */
  lemma {:induction false} CleanPermittedIdentity(cps: seq<int>)
    requires forall k :: 0 <= k < |cps| ==> IsPermittedCodePoint(cps[k])
    ensures Clean(cps) == cps
  {
  }

  /** sanitize is idempotent, because U+FFFD is itself permitted. */
  lemma {:induction false} SanitizeIdempotent(d: seq<CodeUnit>)
    ensures Sanitized(Sanitized(d)) == Sanitized(d)
  {
    SanitizedCodePoints(d);
    CleanPermitted(Decode(d));
    CleanPermittedIdentity(Clean(Decode(d)));
  }

  /** sanitize leaves a string unchanged exactly when all its code points are permitted. */
  lemma {:induction false} SanitizeIdentityIff(d: seq<CodeUnit>)
    ensures Sanitized(d) == d <==> forall k :: 0 <= k < |Decode(d)| ==> IsPermittedCodePoint(Decode(d)[k])
  {
    SanitizedCodePoints(d);
    if forall k :: 0 <= k < |Decode(d)| ==> IsPermittedCodePoint(Decode(d)[k]) {
      CleanPermittedIdentity(Decode(d));
      EncodeDecode(d);
    } else {
      var k :| 0 <= k < |Decode(d)| && !IsPermittedCodePoint(Decode(d)[k]);
      assert Decode(Sanitized(d))[k] != Decode(d)[k];
    }
  }

  /** normalizeNamespace: drops one trailing '/'. */
  function NormalizeNamespace(namespace: string): (r: string)
    ensures EndsWith(namespace, "/") ==> r + "/" == namespace
    ensures !EndsWith(namespace, "/") ==> r == namespace
  {
    if EndsWith(namespace, "/") then namespace[..|namespace| - 1] else namespace
  }

  /** Only one slash goes: "a//" becomes "a/". */
  lemma {:induction false} NormalizeStripsOne(base: string)
    ensures NormalizeNamespace(base + "//") == base + "/"
  {
    assert EndsWith(base + "//", "/");
  }
}
