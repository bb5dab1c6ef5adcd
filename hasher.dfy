/**
 * Hasher: truncated, salted SHA-224 digests of personal data for logs.
 * The digest algorithm itself (and the UTF-8 encoding before it) is a
 * parameter `digest`; only the guards around it and the hex rendering are
 * modelled.
 */
module Hasher {
  import opened JavaBase
  import opened JavaBits
  import StringUtils

  /** `hexConversionArray[n]`. */
  function HexDigit(n: int): (c: char)
    requires 0 <= n < 16
    ensures c in "0123456789abcdef"
  {
    "0123456789abcdef"[n]
  }

  /** The two lowercase hex digits of a byte, high nibble first. */
  function Hex(b: Byte): (r: string)
    ensures |r| == 2
  {
    [HexDigit(b / 16), HexDigit(b % 16)]
  }

  /** Two lowercase hex digits per byte. */
  function HexOf(bs: seq<Byte>): (r: string)
    ensures |r| == 2 * |bs|
  {
    if bs == [] then [] else HexOf(bs[..|bs| - 1]) + Hex(bs[|bs| - 1])
  }

  /** The hex form of a prefix of the bytes is the matching prefix of the hex form. */
  lemma {:induction false} HexOfPrefix(bs: seq<Byte>, i: nat)
    requires i <= |bs|
    ensures HexOf(bs)[..2 * i] == HexOf(bs[..i])
    decreases |bs| - i
  {
    if i < |bs| {
      var init := bs[..|bs| - 1];
      HexOfPrefix(init, i);
      assert init[..i] == bs[..i];
      assert HexOf(bs)[..2 * i] == HexOf(init)[..2 * i];
    } else {
      assert bs[..i] == bs;
    }
  }

  /** Byte i sits at characters 2i and 2i+1 of the hex form. */
  lemma {:induction false} HexOfAt(bs: seq<Byte>, i: nat)
    requires i < |bs|
    ensures HexOf(bs)[2 * i] == HexDigit(bs[i] / 16) && HexOf(bs)[2 * i + 1] == HexDigit(bs[i] % 16)
  {
    var pre := bs[..i + 1];
    assert pre[..|pre| - 1] == bs[..i];
    var h := HexOf(pre);
    assert h == HexOf(bs[..i]) + Hex(bs[i]);
    HexOfPrefix(bs, i + 1);
    var full := HexOf(bs);
    assert full[..2 * i + 2] == h;
    assert full[2 * i] == h[2 * i];
    assert full[2 * i + 1] == h[2 * i + 1];
  }

  /**
   * hexToString(encodedHash, safeMaxLength): the first min(safeMaxLength/2,
   * |hash|) bytes in hex, plus the high nibble of the next byte when
   * safeMaxLength is odd and such a byte exists. `safeMaxLength` is never
   * negative at its only call site.
   */
  method HexToString(encodedHash: seq<Byte>, safeMaxLength: int) returns (output: string)
    requires safeMaxLength >= 0
    ensures output == HexOf(encodedHash)[..Min(safeMaxLength, 2 * |encodedHash|)]
    ensures |output| == 2 * Min(safeMaxLength / 2, |encodedHash|) +
      (if safeMaxLength % 2 == 1 && |encodedHash| - safeMaxLength / 2 >= 1 then 1 else 0)
  {
    var hashLength := |encodedHash|;
    var maxBytesToProcess := Min(safeMaxLength / 2, hashLength);
    output := HexBytes(encodedHash, maxBytesToProcess);
    HexOfPrefix(encodedHash, maxBytesToProcess);
    if safeMaxLength % 2 == 1 && hashLength - safeMaxLength / 2 >= 1 {
      var b := encodedHash[safeMaxLength / 2];
      ByteNibbles(b);
      output := output + [HexDigit(UShr(IntAnd(SignedByte(b), 0xF0), 4))];
      OddTail(encodedHash, maxBytesToProcess);
    }
  }

  /** The byte loop of hexToString over the first n bytes. */
  method HexBytes(encodedHash: seq<Byte>, n: int) returns (output: string)
    requires 0 <= n <= |encodedHash|
    ensures output == HexOf(encodedHash[..n])
  {
    output := "";
    var i := 0;
    while i < n
      invariant 0 <= i <= n
      invariant output == HexOf(encodedHash[..i])
    {
      var b := encodedHash[i];
      ByteNibbles(b);
      output := output + [HexDigit(UShr(IntAnd(SignedByte(b), 0xF0), 4))];
      output := output + [HexDigit(IntAnd(SignedByte(b), 0x0F))];
      assert encodedHash[..i + 1][..i] == encodedHash[..i];
      i := i + 1;
    }
  }

  lemma {:induction false} OddTail(bs: seq<Byte>, i: nat)
    requires i < |bs|
    ensures HexOf(bs)[..2 * i + 1] == HexOf(bs)[..2 * i] + [HexDigit(bs[i] / 16)]
  {
    HexOfAt(bs, i);
    PrefixSnoc(HexOf(bs), 2 * i + 1);
  }

  /** The outcome of sha224 when the digest cannot be created. */
  const REDACTED: string := "redacted_as_no_hash_algorithm"

  /** What sha224 returns for non-blank text once a digest exists. */
  function HashText(text: string, maxLength: int, digest: string -> seq<Byte>): (r: string)
    ensures |r| <= Max(maxLength, 0)
  {
    HexOf(digest(text))[..Min(Max(maxLength, 0), 2 * |digest(text)|)]
  }

  /**
   * The hasher's static state: the salt set at login and whether the shared
   * MessageDigest has been created yet.
   */
  class HasherState {
    var salt: string
    var digestCreated: bool

    constructor ()
      ensures salt == "" && !digestCreated
    {
      salt := "";
      digestCreated := false;
    }

    /** setSalt. */
    method SetSalt(newSalt: string)
      modifies this`salt
      ensures salt == newSalt
    {
      salt := newSalt;
    }

    /**
     * sha224(plaintext, maxLength): null or blank text comes back unchanged;
     * a negative maxLength counts as 0; when `MessageDigest.getInstance`
     * fails (`algorithmAvailable` false on the first use) the text is
     * redacted.
     */
    method Sha224(plaintext: Option<string>, maxLength: int, algorithmAvailable: bool, digest: string -> seq<Byte>)
      returns (r: Option<string>)
      modifies this`digestCreated
      ensures StringUtils.IsNullOrEmpty(plaintext, true) ==> r == plaintext && digestCreated == old(digestCreated)
      ensures !StringUtils.IsNullOrEmpty(plaintext, true) && !old(digestCreated) && !algorithmAvailable ==>
        r == Some(REDACTED) && !digestCreated
      ensures !StringUtils.IsNullOrEmpty(plaintext, true) && (old(digestCreated) || algorithmAvailable) ==>
        r == Some(HashText(plaintext.value, maxLength, digest)) && digestCreated
    {
      if StringUtils.IsNullOrEmpty(plaintext, true) {
        return plaintext;
      }
      var safeMaxLength := Max(maxLength, 0);
      if !digestCreated {
        if !algorithmAvailable {
          return Some(REDACTED);
        }
        digestCreated := true;
      }
      var encodedHash := digest(plaintext.value);
      var hex := HexToString(encodedHash, safeMaxLength);
      r := Some(hex);
    }

    /** hashPersonalData: the first 10 hex digits followed by "(hash)". */
    method HashPersonalData(plaintext: Option<string>, algorithmAvailable: bool, digest: string -> seq<Byte>)
      returns (r: Option<string>)
      modifies this`digestCreated
      ensures StringUtils.IsNullOrEmpty(plaintext, true) ==> r == plaintext && digestCreated == old(digestCreated)
      ensures !StringUtils.IsNullOrEmpty(plaintext, true) && !old(digestCreated) && !algorithmAvailable ==>
        r == Some(REDACTED + "(hash)") && !digestCreated
      ensures !StringUtils.IsNullOrEmpty(plaintext, true) && (old(digestCreated) || algorithmAvailable) ==>
        r == Some(HashText(plaintext.value, 10, digest) + "(hash)") && digestCreated
    {
      if StringUtils.IsNullOrEmpty(plaintext, true) {
        return plaintext;
      }
      var h := Sha224(plaintext, 10, algorithmAvailable, digest);
      r := Some(h.value + "(hash)");
    }

    /**
     * logHasher(String): null, blank and the safe literal values come back
     * unchanged; anything else is salted and hashed.
     */
    method LogHasher(plaintext: Option<string>, algorithmAvailable: bool, digest: string -> seq<Byte>)
      returns (r: Option<string>)
      modifies this`digestCreated
      ensures StringUtils.IsNullOrEmptyOrBoolean(plaintext) ==> r == plaintext && digestCreated == old(digestCreated)
      ensures !StringUtils.IsNullOrEmptyOrBoolean(plaintext) && (old(digestCreated) || algorithmAvailable) ==>
        r == Some(HashText(salt + plaintext.value, 10, digest) + "(hash)") && digestCreated
      ensures !StringUtils.IsNullOrEmptyOrBoolean(plaintext) && !old(digestCreated) && !algorithmAvailable ==>
        r == Some(REDACTED + "(hash)") && !digestCreated
    {
      if StringUtils.IsNullOrEmptyOrBoolean(plaintext) {
        return plaintext;
      }
      SaltedNotBlank(salt, plaintext.value);
      r := HashPersonalData(Some(salt + plaintext.value), algorithmAvailable, digest);
    }

    /**
     * logHasher(Object): a null object logs as "null"; any other object
     * logs as logHasher of its text.
     */
    method LogHasherObject(text: Option<string>, algorithmAvailable: bool, digest: string -> seq<Byte>)
      returns (r: string)
      modifies this`digestCreated
      ensures text.None? ==> r == "null" && digestCreated == old(digestCreated)
      ensures text.Some? && StringUtils.IsNullOrEmptyOrBoolean(text) ==> r == text.value && digestCreated == old(digestCreated)
      ensures text.Some? && !StringUtils.IsNullOrEmptyOrBoolean(text) && (old(digestCreated) || algorithmAvailable) ==>
        r == HashText(salt + text.value, 10, digest) + "(hash)" && digestCreated
      ensures text.Some? && !StringUtils.IsNullOrEmptyOrBoolean(text) && !old(digestCreated) && !algorithmAvailable ==>
        r == REDACTED + "(hash)" && !digestCreated
    {
      if text.None? {
        return "null";
      }
      var h := LogHasher(text, algorithmAvailable, digest);
      r := h.value;
    }
  }

  /** Prefixing a salt keeps a non-blank text non-blank. */
  lemma {:induction false} SaltedNotBlank(salt: string, text: string)
    requires !IsBlank(text)
    ensures !IsBlank(salt + text)
  {
    var i :| 0 <= i < |text| && text[i] > ' ';
    assert (salt + text)[|salt| + i] == text[i];
  }

  /** The hex form of a digest never exceeds the requested length, and is a prefix of the full hex form. */
  lemma {:induction false} HashTextIsPrefix(text: string, maxLength: int, digest: string -> seq<Byte>)
    ensures var r := HashText(text, maxLength, digest);
      |r| == Min(Max(maxLength, 0), 2 * |digest(text)|) && r <= HexOf(digest(text))
  {
  }

  /** A SHA-224 digest (28 bytes) truncated to 10 characters hex-encodes its first five bytes. */
  lemma {:induction false} TenDigitsAreFiveBytes(text: string, digest: string -> seq<Byte>)
    requires |digest(text)| == 28
    ensures HashText(text, 10, digest) == HexOf(digest(text)[..5])
  {
    HexOfPrefix(digest(text), 5);
  }
}
