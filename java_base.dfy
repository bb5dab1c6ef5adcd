/**
 * Java-language building blocks shared by the models: nullable values,
 * exceptions as results, 32/64-bit two's-complement wrap-around, bytes, and
 * the handful of java.lang.String operations the modelled code relies on.
 */
module JavaBase {

  datatype Option<T> = None | Some(value: T)

  /** A Java method that either returns a value or throws. */
  datatype Result<T, E> = Ok(value: T) | Err(error: E)
  {
    predicate IsOk() { Ok? }
  }

  // ---------------------------------------------------------------- integers

  const INT_MIN: int := -0x8000_0000
  const INT_MAX: int := 0x7fff_ffff
  const LONG_MIN: int := -0x8000_0000_0000_0000
  const LONG_MAX: int := 0x7fff_ffff_ffff_ffff
  const TWO32: int := 0x1_0000_0000
  const TWO64: int := 0x1_0000_0000_0000_0000

  predicate IsInt(x: int) { INT_MIN <= x <= INT_MAX }
  predicate IsLong(x: int) { LONG_MIN <= x <= LONG_MAX }

  /** The Java `int` that an out-of-range mathematical value wraps to. */
  function WrapInt(x: int): (r: int)
    ensures IsInt(r)
    ensures (x - r) % TWO32 == 0
    ensures IsInt(x) ==> r == x
  {
    var m := x % TWO32;
    if m > INT_MAX then m - TWO32 else m
  }

  /** The Java `long` that an out-of-range mathematical value wraps to. */
  function WrapLong(x: int): (r: int)
    ensures IsLong(r)
    ensures (x - r) % TWO64 == 0
    ensures IsLong(x) ==> r == x
  {
    var m := x % TWO64;
    if m > LONG_MAX then m - TWO64 else m
  }

  function Pow2(n: nat): (r: nat)
    ensures r >= 1
  {
    if n == 0 then 1 else 2 * Pow2(n - 1)
  }

  function Abs(x: int): nat { if x < 0 then -x else x }

  /** Java's `/` on integers: the quotient truncated toward zero. */
  function JavaDiv(a: int, b: int): (q: int)
    requires b != 0
    ensures a >= 0 && b > 0 ==> q == a / b
  {
    var m := Abs(a) / Abs(b);
    if (a < 0) != (b < 0) then -m else m
  }

  /**
   * `(int) (a / (double) b)`: the quotient truncated toward zero and
   * clamped to the int range; a division by zero gives the infinities'
   * bounds, or 0 for 0 / 0. The quotient is taken as exact, which a double
   * holds for the integers of the models.
   */
  function QuotientToInt(a: int, b: int): (r: int)
    ensures IsInt(r)
    ensures b != 0 && IsInt(JavaDiv(a, b)) ==> r == JavaDiv(a, b)
  {
    if b == 0 then (if a > 0 then INT_MAX else if a < 0 then INT_MIN else 0)
    else
      var q := JavaDiv(a, b);
      if q > INT_MAX then INT_MAX else if q < INT_MIN then INT_MIN else q
  }

  /** An unsigned byte as found in a Java `byte[]` read through `& 0xff`. */
  type Byte = b: int | 0 <= b < 256

  /** The value of a Java `byte` holding the bits `b`. */
  function SignedByte(b: Byte): (r: int)
    ensures -128 <= r <= 127
    ensures (r - b) % 256 == 0
  {
    if b >= 128 then b - 256 else b
  }

  function Min(a: int, b: int): int { if a <= b then a else b }
  function Max(a: int, b: int): int { if a >= b then a else b }

  // ----------------------------------------------------------------- strings

  /** `String.trim()`: removes every leading and trailing char <= U+0020. */
  function Trim(s: string): (r: string)
    ensures |r| <= |s|
    ensures r == [] || (r[0] > ' ' && r[|r| - 1] > ' ')
  {
    TrimEnd(TrimStart(s))
  }

  function TrimStart(s: string): (r: string)
    ensures |r| <= |s| && r == s[|s| - |r|..]
    ensures r == [] || r[0] > ' '
    ensures forall i :: 0 <= i < |s| - |r| ==> s[i] <= ' '
  {
    if s == [] || s[0] > ' ' then s else TrimStart(s[1..])
  }

  function TrimEnd(s: string): (r: string)
    ensures |r| <= |s| && r == s[..|r|]
    ensures r == [] || r[|r| - 1] > ' '
    ensures forall i :: |r| <= i < |s| ==> s[i] <= ' '
  {
    if s == [] || s[|s| - 1] > ' ' then s else TrimEnd(s[..|s| - 1])
  }

  /** A string that `trim()` reduces to "". */
  predicate IsBlank(s: string) { forall i :: 0 <= i < |s| ==> s[i] <= ' ' }

  lemma {:induction false} TrimEmptyIffBlank(s: string)
    ensures Trim(s) == [] <==> IsBlank(s)
  {
    var t := TrimStart(s);
    if t != [] {
      assert TrimEnd(t) != [] by { assert t[0] > ' '; TrimEndKeepsFirst(t); }
      assert s[|s| - |t|] == t[0];
    }
  }

  lemma {:induction false} TrimEndKeepsFirst(t: string)
    requires t != [] && t[0] > ' '
    ensures TrimEnd(t) != []
  {
  }

  predicate StartsWith(s: string, p: string) { |p| <= |s| && s[..|p|] == p }
  predicate EndsWith(s: string, p: string) { |p| <= |s| && s[|s| - |p|..] == p }

  /** `s.indexOf(c)`: the first index holding c, or -1. */
  function IndexOf(s: string, c: char): (r: int)
    ensures -1 <= r < |s|
    ensures r == -1 <==> c !in s
    ensures r >= 0 ==> s[r] == c && c !in s[..r]
  {
    if s == [] then -1
    else if s[0] == c then 0
    else var k := IndexOf(s[1..], c); if k == -1 then -1 else k + 1
  }

  /** `s.lastIndexOf(c)`: the last index holding c, or -1. */
  function LastIndexOf(s: string, c: char): (r: int)
    ensures -1 <= r < |s|
    ensures r == -1 <==> c !in s
    ensures r >= 0 ==> s[r] == c && c !in s[r + 1..]
  {
    if s == [] then -1
    else if s[|s| - 1] == c then |s| - 1
    else LastIndexOf(s[..|s| - 1], c)
  }

  /** The last occurrence is the one with none after it. */
  lemma {:induction false} LastIndexOfAt(s: string, c: char, j: nat)
    requires j < |s| && s[j] == c && c !in s[j + 1..]
    ensures LastIndexOf(s, c) == j
  {
    if j < |s| - 1 {
      assert s[j + 1..][|s| - 2 - j] == s[|s| - 1];
      var init := s[..|s| - 1];
      assert init[j + 1..] == s[j + 1..|s| - 1];
      LastIndexOfAt(init, c, j);
    }
  }

  /** The index of the first element equal to x, or -1 (`List.indexOf`). */
  function SeqIndexOf<T(==)>(xs: seq<T>, x: T): (r: int)
    ensures -1 <= r < |xs|
    ensures r == -1 <==> x !in xs
    ensures r >= 0 ==> xs[r] == x && x !in xs[..r]
  {
    if xs == [] then -1
    else if xs[0] == x then 0
    else var k := SeqIndexOf(xs[1..], x); if k == -1 then -1 else k + 1
  }

  /** No element occurs twice. */
  predicate Distinct<T(==)>(xs: seq<T>)
  {
    forall i, j :: 0 <= i < j < |xs| ==> xs[i] != xs[j]
  }

  /** An absent element put in front keeps a list free of duplicates. */
  lemma {:induction false} PrependDistinct<T>(x: T, xs: seq<T>)
    requires Distinct(xs) && x !in xs
    ensures Distinct([x] + xs)
  {
    var r := [x] + xs;
    forall i, j | 0 <= i < j < |r| ensures r[i] != r[j] {
      assert r[j] == xs[j - 1];
      if i > 0 {
        assert r[i] == xs[i - 1];
      }
    }
  }

  /** Removing the first element's value from a list that starts with it drops that element. */
  lemma {:induction false} RemoveFirstHead<T>(x: T, xs: seq<T>)
    ensures RemoveFirst([x] + xs, x) == xs
  {
    var r := [x] + xs;
    assert SeqIndexOf(r, x) == 0;
    assert r[1..] == xs;
  }

  /** The prefix of a list's own length is the list. */
  lemma {:induction false} FullPrefix<T>(xs: seq<T>)
    ensures xs[..|xs|] == xs
  {
  }

  /** A prefix one longer is the shorter prefix and the next element. */
  lemma {:induction false} PrefixSnoc<T>(xs: seq<T>, i: nat)
    requires 0 < i <= |xs|
    ensures xs[..i] == xs[..i - 1] + [xs[i - 1]]
    ensures xs[..i][..i - 1] == xs[..i - 1]
  {
  }

  /** In a duplicate-free list, an element does not occur before its position. */
  lemma {:induction false} DistinctPrefixFresh<T>(xs: seq<T>, i: nat)
    requires Distinct(xs) && 0 < i <= |xs|
    ensures xs[i - 1] !in xs[..i - 1]
  {
    forall j | 0 <= j < i - 1 ensures xs[j] != xs[i - 1] {
    }
  }

  /** `if (!list.contains(x)) list.add(x)`. */
  function AppendIfAbsent<T(==)>(xs: seq<T>, x: T): seq<T>
  {
    if x in xs then xs else xs + [x]
  }

  /**
   * Appending only absent elements keeps a list free of duplicates, adds
   * exactly x to its elements and keeps the order of the earlier ones; an
   * absent x becomes the last element.
   */
  lemma {:induction false} AppendIfAbsentDistinct<T>(xs: seq<T>, x: T)
    requires Distinct(xs)
    ensures var r := AppendIfAbsent(xs, x);
      Distinct(r) && (forall y :: y in r <==> y in xs || y == x) &&
      r[..|xs|] == xs && |r| == |xs| + (if x in xs then 0 else 1) &&
      (x !in xs ==> r[|r| - 1] == x)
  {
    var r := AppendIfAbsent(xs, x);
    if x !in xs {
      forall i, j | 0 <= i < j < |r| ensures r[i] != r[j] {
        if j == |xs| { assert r[i] == xs[i]; }
      }
    }
  }

  /** `List.remove(Object)`: drops the first occurrence of x, if any. */
  function RemoveFirst<T(==)>(xs: seq<T>, x: T): (r: seq<T>)
    ensures x !in xs ==> r == xs
    ensures multiset(r) == multiset(xs) - multiset{x}
  {
    var i := SeqIndexOf(xs, x);
    if i == -1 then xs
    else
      var front, back := xs[..i], xs[i + 1..];
      assert xs == front + [x] + back;
      assert multiset(xs) == multiset(front) + multiset{x} + multiset(back);
      front + back
  }
  /** Removing x leaves every other element's membership alone. */
  lemma {:induction false} RemoveFirstOthers<T>(xs: seq<T>, x: T)
    ensures forall y :: y != x ==> (y in RemoveFirst(xs, x) <==> y in xs)
  {
    forall y | y != x ensures y in RemoveFirst(xs, x) <==> y in xs {
      assert multiset(RemoveFirst(xs, x))[y] == multiset(xs)[y];
    }
  }

  /**
   * Removing an element from a duplicate-free list leaves a duplicate-free
   * list without it, one shorter when it was present.
   */
  lemma {:induction false} RemoveFirstDistinct<T>(xs: seq<T>, x: T)
    requires Distinct(xs)
    ensures var r := RemoveFirst(xs, x);
      Distinct(r) && x !in r && |r| == |xs| - (if x in xs then 1 else 0)
  {
    var i := SeqIndexOf(xs, x);
    if i >= 0 {
      RemoveFirstAt(xs, x);
      SkipIndexDistinct(xs, i);
    } else {
      assert RemoveFirst(xs, x) == xs;
    }
  }

  /** What is left when x occurs: the elements before and after its first occurrence. */
  lemma {:induction false} RemoveFirstAt<T>(xs: seq<T>, x: T)
    ensures var i := SeqIndexOf(xs, x); i >= 0 ==> RemoveFirst(xs, x) == xs[..i] + xs[i + 1..]
  {
  }

  /** The multiset of a non-empty sequence: its front's and its last element. */
  lemma {:induction false} LastMultiset<T>(xs: seq<T>)
    requires xs != []
    ensures multiset(xs) == multiset(xs[..|xs| - 1]) + multiset{xs[|xs| - 1]}
  {
    assert xs == xs[..|xs| - 1] + [xs[|xs| - 1]];
  }

  /** Leaving out one position takes that one element out of the multiset. */
  lemma {:induction false} SkipIndexMultiset<T>(xs: seq<T>, i: nat)
    requires i < |xs|
    ensures multiset(xs[..i] + xs[i + 1..]) + multiset{xs[i]} == multiset(xs)
  {
    assert xs == xs[..i] + [xs[i]] + xs[i + 1..];
  }

  /** Leaving out one position of a duplicate-free list. */
  lemma {:induction false} SkipIndexDistinct<T>(xs: seq<T>, i: nat)
    requires Distinct(xs) && i < |xs|
    ensures var r := xs[..i] + xs[i + 1..];
      Distinct(r) && xs[i] !in r && |r| == |xs| - 1
  {
    var r := xs[..i] + xs[i + 1..];
    forall a, b | 0 <= a < b < |r| ensures r[a] != r[b] {
      var a', b' := if a < i then a else a + 1, if b < i then b else b + 1;
      assert r[a] == xs[a'] && r[b] == xs[b'];
    }
    forall k | 0 <= k < |r| ensures r[k] != xs[i] {
      var k' := if k < i then k else k + 1;
      assert r[k] == xs[k'];
    }
  }




  /** The pieces of s between occurrences of the separator char (all kept). */
  function SplitAll(s: string, sep: char): (r: seq<string>)
    ensures |r| >= 1
    ensures forall i :: 0 <= i < |r| ==> sep !in r[i]
    decreases |s|
  {
    var k := IndexOf(s, sep);
    if k == -1 then [s] else [s[..k]] + SplitAll(s[k + 1..], sep)
  }

  /** Concatenation is associative. */
  lemma {:induction false} AppendAssociative<T>(a: seq<T>, b: seq<T>, c: seq<T>)
    ensures (a + b) + c == a + (b + c)
  {
  }

  /** Drops empty pieces at the end of a split, as `String.split` does. */
  function DropTrailingEmpty(xs: seq<string>): (r: seq<string>)
    ensures |r| <= |xs| && r == xs[..|r|]
    ensures r == [] || r[|r| - 1] != []
    ensures forall i :: |r| <= i < |xs| ==> xs[i] == []
  {
    if xs == [] || xs[|xs| - 1] != [] then xs else DropTrailingEmpty(xs[..|xs| - 1])
  }

  /**
   * `s.split(regex)` for a regex matching the single char sep: no match
   * gives [s]; otherwise trailing empty strings are removed.
   */
  function JavaSplit(s: string, sep: char): (r: seq<string>)
    ensures sep !in s ==> r == [s]
    ensures forall i :: 0 <= i < |r| ==> sep !in r[i]
  {
    if sep !in s then [s] else DropTrailingEmpty(SplitAll(s, sep))
  }

  /** Joins the pieces with a separator: the inverse of SplitAll. */
  function JoinWith(xs: seq<string>, sep: string): string
  {
    if xs == [] then ""
    else if |xs| == 1 then xs[0]
    else xs[0] + sep + JoinWith(xs[1..], sep)
  }

  lemma {:induction false} SplitAllJoin(s: string, sep: char)
    ensures JoinWith(SplitAll(s, sep), [sep]) == s
    decreases |s|
  {
    var k := IndexOf(s, sep);
    if k != -1 {
      var rest := s[k + 1..];
      var tail := SplitAll(rest, sep);
      SplitAllJoin(rest, sep);
      assert SplitAll(s, sep) == [s[..k]] + tail;
      JoinCons(s[..k], tail, [sep]);
      assert s == s[..k] + [sep] + rest;
    } else {
      assert SplitAll(s, sep) == [s];
    }
  }

  /** Joining a list of two or more parts puts the separator after the first. */
  lemma {:induction false} JoinCons(head: string, tail: seq<string>, sep: string)
    requires |tail| >= 1
    ensures JoinWith([head] + tail, sep) == head + sep + JoinWith(tail, sep)
  {
    var xs := [head] + tail;
    assert xs[0] == head && xs[1..] == tail;
  }

  /** t occurs in s at position i. */
  predicate OccursAt(s: string, t: string, i: int)
  {
    0 <= i && i + |t| <= |s| && s[i..i + |t|] == t
  }

  /** `s.indexOf(t, i)`: the first position at or after i where t occurs, or -1. */
  function FindFrom(s: string, t: string, i: nat): (r: int)
    requires i <= |s|
    ensures r == -1 || (i <= r && OccursAt(s, t, r))
    ensures r == -1 ==> forall k :: i <= k <= |s| ==> !OccursAt(s, t, k)
    ensures r != -1 ==> forall k :: i <= k < r ==> !OccursAt(s, t, k)
    decreases |s| - i
  {
    if OccursAt(s, t, i) then i
    else if i == |s| then -1
    else FindFrom(s, t, i + 1)
  }

  /** The pieces of s between the successive leftmost occurrences of sep (all kept). */
  function SplitOn(s: string, sep: string): (r: seq<string>)
    requires |sep| > 0
    ensures |r| >= 1
    decreases |s|
  {
    var k := FindFrom(s, sep, 0);
    if k == -1 then [s] else [s[..k]] + SplitOn(s[k + |sep|..], sep)
  }

  /**
   * `s.split(regex)` for a regex matching exactly the literal sep: no match
   * gives [s]; otherwise trailing empty strings are removed.
   */
  function JavaSplitOn(s: string, sep: string): (r: seq<string>)
    requires |sep| > 0
  {
    if FindFrom(s, sep, 0) == -1 then [s] else DropTrailingEmpty(SplitOn(s, sep))
  }

  /** A separator whose first char no piece holds is found right after the first piece. */
  lemma {:induction false} FindAfterPiece(a: string, sep: string, b: string)
    requires |sep| > 0 && sep[0] !in a
    ensures FindFrom(a + sep + b, sep, 0) == |a|
  {
    var s := a + sep + b;
    assert s[|a|..|a| + |sep|] == sep;
    assert OccursAt(s, sep, |a|);
  }

  /** Such a separator does not occur in a piece. */
  lemma {:induction false} FindInPiece(a: string, sep: string)
    requires |sep| > 0 && sep[0] !in a
    ensures FindFrom(a, sep, 0) == -1
  {
  }

  /** Splitting what JoinWith joined gives back the pieces, when no piece holds the separator's first char. */
  lemma {:induction false} SplitOnJoin(xs: seq<string>, sep: string)
    requires xs != [] && |sep| > 0
    requires forall k :: 0 <= k < |xs| ==> sep[0] !in xs[k]
    ensures SplitOn(JoinWith(xs, sep), sep) == xs
    decreases |xs|
  {
    if |xs| == 1 {
      FindInPiece(xs[0], sep);
    } else {
      var rest := JoinWith(xs[1..], sep);
      SplitOnJoin(xs[1..], sep);
      assert JoinWith(xs, sep) == xs[0] + sep + rest;
      SplitOnStep(xs[0], sep, rest);
      assert xs == [xs[0]] + xs[1..];
    }
  }

  /**
   * `split` undoes JoinWith when no piece holds the separator's first char
   * and the last piece is not empty.
   */
  lemma {:induction false} JavaSplitOnJoin(xs: seq<string>, sep: string)
    requires xs != [] && |sep| > 0 && xs[|xs| - 1] != []
    requires forall k :: 0 <= k < |xs| ==> sep[0] !in xs[k]
    ensures JavaSplitOn(JoinWith(xs, sep), sep) == xs
  {
    SplitOnJoin(xs, sep);
    if |xs| == 1 {
      FindInPiece(xs[0], sep);
    } else {
      assert JoinWith(xs, sep) == xs[0] + sep + JoinWith(xs[1..], sep);
      FindAfterPiece(xs[0], sep, JoinWith(xs[1..], sep));
    }
  }

  /** One piece and a separator at the front of a string split off as that piece. */
  lemma {:induction false} SplitOnStep(a: string, sep: string, rest: string)
    requires |sep| > 0 && sep[0] !in a
    ensures SplitOn(a + sep + rest, sep) == [a] + SplitOn(rest, sep)
  {
    var s := a + sep + rest;
    FindAfterPiece(a, sep, rest);
    assert s[..|a|] == a;
    assert s[|a| + |sep|..] == rest;
  }

  /** `s.replace(c, "")`: s without any c. */
  function StripChar(s: string, c: char): (r: string)
    ensures c !in r
    ensures c !in s ==> r == s
  {
    if s == [] then []
    else (if s[0] == c then [] else [s[0]]) + StripChar(s[1..], c)
  }

  // -------------------------------------------------- digits and case mapping

  predicate IsAsciiDigit(c: char) { '0' <= c <= '9' }

  function DigitValue(c: char): (r: int)
    requires IsAsciiDigit(c)
    ensures 0 <= r <= 9
  {
    c as int - '0' as int
  }

  /** The value of a run of decimal digits, most significant first. */
  function DigitsValue(s: string): (r: nat)
    requires forall i :: 0 <= i < |s| ==> IsAsciiDigit(s[i])
  {
    if s == [] then 0 else DigitsValue(s[..|s| - 1]) * 10 + DigitValue(s[|s| - 1])
  }

  predicate AllDigits(s: string) { forall i :: 0 <= i < |s| ==> IsAsciiDigit(s[i]) }

  /** The digit character of 0 .. 9. */
  function DigitChar(d: int): (c: char)
    requires 0 <= d <= 9
    ensures IsAsciiDigit(c) && DigitValue(c) == d
  {
    ('0' as int + d) as char
  }

  /** The decimal form of a natural number, as string concatenation of an int gives. */
  function NatToString(n: nat): (r: string)
    ensures |r| >= 1 && AllDigits(r)
    decreases n
  {
    if n < 10 then [DigitChar(n)] else NatToString(n / 10) + [DigitChar(n % 10)]
  }

  /** Reading the decimal form back gives the number, so distinct numbers print differently. */
  lemma {:induction false} NatToStringValue(n: nat)
    ensures DigitsValue(NatToString(n)) == n
    decreases n
  {
    var r := NatToString(n);
    if n >= 10 {
      NatToStringValue(n / 10);
      assert r[..|r| - 1] == NatToString(n / 10);
      assert DigitValue(r[|r| - 1]) == n % 10;
    } else {
      assert r[..0] == [];
    }
  }

  /**
   * The mathematical value `Long.parseLong`/`Integer.parseInt` read from s
   * before their range check: an optional sign followed by at least one
   * digit.
   */
  function ParseDecimal(s: string): (r: Option<int>)
    ensures r.Some? ==> |s| >= 1
  {
    if |s| >= 2 && (s[0] == '-' || s[0] == '+') && AllDigits(s[1..]) then
      var v: int := DigitsValue(s[1..]);
      Some(if s[0] == '-' then -v else v)
    else if |s| >= 1 && AllDigits(s) then Some(DigitsValue(s))
    else None
  }

  /** `Integer.parseInt(s)`; None stands for NumberFormatException. */
  function ParseInt(s: string): (r: Option<int>)
    ensures r.Some? ==> IsInt(r.value) && ParseDecimal(s) == r
    ensures r.None? ==> ParseDecimal(s).None? || !IsInt(ParseDecimal(s).value)
  {
    var d := ParseDecimal(s);
    if d.Some? && IsInt(d.value) then d else None
  }

  /** `Long.parseLong(s)`; None stands for NumberFormatException. */
  function ParseLong(s: string): (r: Option<int>)
    ensures r.Some? ==> IsLong(r.value) && ParseDecimal(s) == r
    ensures r.None? ==> ParseDecimal(s).None? || !IsLong(ParseDecimal(s).value)
  {
    var d := ParseDecimal(s);
    if d.Some? && IsLong(d.value) then d else None
  }

  function AsciiLower(c: char): (r: char)
    ensures 'A' <= c <= 'Z' ==> r as int == c as int + 32
    ensures !('A' <= c <= 'Z') ==> r == c
  {
    if 'A' <= c <= 'Z' then (c as int + 32) as char else c
  }

  function AsciiUpper(c: char): (r: char)
    ensures 'a' <= c <= 'z' ==> r as int == c as int - 32
    ensures !('a' <= c <= 'z') ==> r == c
  {
    if 'a' <= c <= 'z' then (c as int - 32) as char else c
  }

  /** `String.toLowerCase()` restricted to the ASCII letters. */
  function ToLower(s: string): (r: string)
    ensures |r| == |s|
    ensures forall i :: 0 <= i < |s| ==> r[i] == AsciiLower(s[i])
  {
    if s == [] then [] else [AsciiLower(s[0])] + ToLower(s[1..])
  }

  /** `String.equalsIgnoreCase`, ASCII letters only. */
  predicate EqualsIgnoreCase(a: string, b: string)
  {
    |a| == |b| && forall i :: 0 <= i < |a| ==> AsciiUpper(a[i]) == AsciiUpper(b[i])
  }
}
