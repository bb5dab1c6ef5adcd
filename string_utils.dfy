/**
 * StringUtils: null/blank tests, digit strings, joining and truncation.
 * A Java `null` String is `None`.
 */
module StringUtils {
  import opened JavaBase

  /** The exception thrown by `values[values.length - 1]` on an empty array. */
  datatype Exception = ArrayIndexOutOfBounds | StringIndexOutOfBounds

  /** isNullOrEmpty(s, trim). */
  function IsNullOrEmpty(s: Option<string>, trim: bool): (r: bool)
    ensures r <==> s.None? || (if trim then IsBlank(s.value) else s.value == [])
  {
    if s.None? then true
    else
      var t := if trim then Trim(s.value) else s.value;
      TrimEmptyIffBlank(s.value);
      |t| == 0
  }

  /**
   * The line terminators before which a Java `$` also matches at the end of
   * the input: \n, \r\n, \r, U+0085, U+2028 and U+2029.
   */
  predicate IsFinalTerminator(t: string)
  {
    t in {"\n", "\r\n", "\r", "\U{0085}", "\U{2028}", "\U{2029}"}
  }

  /** The values `^(null|0|1|-1|true|false)$` finds in a string. */
  predicate IsSafeData(s: string)
  {
    exists v | v in SAFE_VALUES :: Finds(s, v)
  }

  /** The anchored match of one value: the whole string, or the value and a final terminator. */
  predicate Finds(s: string, v: string)
  {
    s == v || (StartsWith(s, v) && IsFinalTerminator(s[|v|..]))
  }

  const SAFE_VALUES: set<string> := {"null", "0", "1", "-1", "true", "false"}

  /** isNullOrEmptyOrBoolean: null, blank, or one of the safe literal values. */
  predicate IsNullOrEmptyOrBoolean(s: Option<string>)
  {
    IsNullOrEmpty(s, true) || IsSafeData(s.value)
  }

  /** The safe values, also followed by a final line terminator, are recognised. */
  lemma {:induction false} SafeDataExamples()
    ensures IsSafeData("true") && IsSafeData("-1")
    ensures IsSafeData("false\n")
  {
    assert "true" in SAFE_VALUES && "-1" in SAFE_VALUES;
    SafeWithTerminator("false", "\n");
  }

  lemma {:induction false} SafeWithTerminator(v: string, t: string)
    requires v in SAFE_VALUES && IsFinalTerminator(t)
    ensures IsSafeData(v + t)
  {
    assert (v + t)[..|v|] == v && (v + t)[|v|..] == t;
  }

  /** No safe value is a prefix of "truth" followed by a terminator, nor equal to it. */
  lemma {:induction false} NotSafeData()
    ensures !IsSafeData("truth")
  {
    OtherFirstLetter("truth", "null");
    OtherFirstLetter("truth", "0");
    OtherFirstLetter("truth", "1");
    OtherFirstLetter("truth", "-1");
    OtherFirstLetter("truth", "false");
    assert !Finds("truth", "true") by {
      assert "truth"[..4] != "true" by { assert "truth"[..4][3] != "true"[3]; }
    }
  }

  lemma {:induction false} OtherFirstLetter(s: string, v: string)
    requires s != [] && v != [] && s[0] != v[0]
    ensures !Finds(s, v)
  {
    assert |v| <= |s| ==> s[..|v|][0] == s[0];
  }

  /**
   * isNumber: true iff the string is non-null, not blank, and made only of
   * digits.
   */
  method IsNumber(s: Option<string>) returns (b: bool)
    ensures b <==> s.Some? && s.value != [] && AllDigits(s.value)
  {
    if IsNullOrEmpty(s, true) {
      if s.Some? && s.value != [] { assert !IsAsciiDigit(s.value[0]); }
      return false;
    }
    b := DigitsOnly(s.value);
  }

  /** The character loop of isNumber: stops at the first non-digit. */
  method DigitsOnly(str: string) returns (b: bool)
    ensures b <==> AllDigits(str)
  {
    var i := 0;
    while i < |str|
      invariant 0 <= i <= |str|
      invariant AllDigits(str[..i])
    {
      if !IsAsciiDigit(str[i]) {
        assert !AllDigits(str);
        return false;
      }
      assert str[..i + 1] == str[..i] + [str[i]];
      i := i + 1;
    }
    assert str[..i] == str;
    b := true;
  }

  /**
   * join(values, sep): the string forms of the values with sep between
   * neighbours; an empty array fails on `values[values.length - 1]`.
   */
  method Join(values: seq<string>, sep: string) returns (r: Result<string, Exception>)
    ensures values == [] ==> r == Err(ArrayIndexOutOfBounds)
    ensures values != [] ==> r == Ok(JoinWith(values, sep))
  {
    var buff := "";
    var idx := 0;
    assert values[0..] == values;
    while idx < |values| - 1
      invariant 0 <= idx <= Max(|values| - 1, 0)
      invariant buff + JoinWith(values[idx..], sep) == JoinWith(values, sep)
    {
      buff := buff + values[idx] + sep;
      JoinUnfold(values[idx..], sep);
      assert values[idx..][1..] == values[idx + 1..];
      idx := idx + 1;
    }
    if |values| == 0 {
      return Err(ArrayIndexOutOfBounds);
    }
    assert values[idx..] == [values[|values| - 1]];
    assert JoinWith(values[idx..], sep) == values[|values| - 1];
    buff := buff + values[|values| - 1];
    r := Ok(buff);
  }

  lemma {:induction false} JoinUnfold(xs: seq<string>, sep: string)
    requires |xs| >= 2
    ensures JoinWith(xs, sep) == xs[0] + sep + JoinWith(xs[1..], sep)
  {
  }

  /** Joining with a separator char that no element holds, then splitting on it, gives back the elements. */
  lemma {:induction false} SplitJoined(xs: seq<string>, sep: char)
    requires xs != [] && forall i :: 0 <= i < |xs| ==> sep !in xs[i]
    ensures SplitAll(JoinWith(xs, [sep]), sep) == xs
  {
    if |xs| == 1 {
      assert IndexOf(xs[0], sep) == -1;
    } else {
      var rest := JoinWith(xs[1..], [sep]);
      SplitJoined(xs[1..], sep);
      var s := xs[0] + [sep] + rest;
      IndexOfAfter(xs[0], sep, rest);
      assert s[..|xs[0]|] == xs[0];
      assert s[|xs[0]| + 1..] == rest;
      assert xs == [xs[0]] + xs[1..];
    }
  }

  /** Java's split on a joined list whose last element is not empty gives back the list. */
  lemma {:induction false} JavaSplitJoined(xs: seq<string>, sep: char)
    requires xs != [] && xs[|xs| - 1] != [] && forall i :: 0 <= i < |xs| ==> sep !in xs[i]
    ensures JavaSplit(JoinWith(xs, [sep]), sep) == xs
  {
    SplitJoined(xs, sep);
    if |xs| >= 2 {
      JoinUnfold(xs, [sep]);
      assert JoinWith(xs, [sep])[|xs[0]|] == sep;
    }
  }

  lemma {:induction false} IndexOfAfter(a: string, sep: char, b: string)
    requires sep !in a
    ensures IndexOf(a + [sep] + b, sep) == |a|
    decreases |a|
  {
    if a != [] {
      assert (a + [sep] + b)[1..] == a[1..] + [sep] + b;
      IndexOfAfter(a[1..], sep, b);
    }
  }

  /** The elements at indices 0, 2, 4, ... */
  function EvenIndexed<T>(xs: seq<T>): (r: seq<T>)
    ensures |r| == (|xs| + 1) / 2
    ensures forall k :: 0 <= k < |r| ==> r[k] == xs[2 * k]
  {
    if |xs| <= 2 then (if xs == [] then [] else [xs[0]])
    else [xs[0]] + EvenIndexed(xs[2..])
  }

  /** joinEvenIndexedElements: elements 0, 2, 4, ... joined with sep; "" for an empty list. */
  method JoinEvenIndexedElements(sep: string, list: seq<string>) returns (r: string)
    ensures r == JoinWith(EvenIndexed(list), sep)
  {
    if |list| == 0 {
      return "";
    }
    var sb := list[0];
    var i := 2;
    while i < |list|
      invariant 2 <= i <= |list| + 1 && i % 2 == 0
      invariant sb == JoinWith(EvenIndexed(list[..i - 1]), sep)
    {
      EvenIndexedSnoc(list[..i + 1]);
      assert list[..i + 1][..i - 1] == list[..i - 1];
      assert list[..i + 1][i] == list[i];
      JoinWithSnoc(EvenIndexed(list[..i - 1]), list[i], sep);
      sb := sb + sep + list[i];
      i := i + 2;
    }
    assert EvenIndexed(list[..i - 1]) == EvenIndexed(list) by {
      if i - 1 < |list| { EvenIndexedSnoc(list); assert list[..|list| - 1] == list[..i - 1]; }
      else { assert list[..i - 1] == list; }
    }
    r := sb;
  }

  /** Adding one element at an even index appends it to the even-indexed elements; one at an odd index changes nothing. */
  lemma {:induction false} EvenIndexedSnoc<T>(xs: seq<T>)
    requires |xs| >= 2
    ensures |xs| % 2 == 1 ==> EvenIndexed(xs) == EvenIndexed(xs[..|xs| - 2]) + [xs[|xs| - 1]]
    ensures |xs| % 2 == 0 ==> EvenIndexed(xs) == EvenIndexed(xs[..|xs| - 1])
  {
    if |xs| == 2 {
      assert xs[..1] == [xs[0]];
    } else if |xs| == 3 {
      assert xs[2..] == [xs[2]];
      assert xs[..1] == [xs[0]];
    } else {
      var t := xs[2..];
      EvenIndexedSnoc(t);
      assert t[..|t| - 2] == xs[..|xs| - 2][2..];
      assert t[..|t| - 1] == xs[..|xs| - 1][2..];
      assert t[|t| - 1] == xs[|xs| - 1];
    }
  }

  /** JoinWith over a list with one more element. */
  lemma {:induction false} JoinWithSnoc(xs: seq<string>, x: string, sep: string)
    requires xs != []
    ensures JoinWith(xs + [x], sep) == JoinWith(xs, sep) + sep + x
  {
    if |xs| > 1 {
      assert (xs + [x])[1..] == xs[1..] + [x];
      JoinWithSnoc(xs[1..], x, sep);
    }
  }

  /**
   * truncate(string, length): the prefix of length min(|string|, length);
   * a negative length makes `substring` throw.
   */
  function Truncate(s: string, length: int): (r: Result<string, Exception>)
    ensures length < 0 <==> r.Err?
    ensures r.Ok? ==> r.value == s[..Min(|s|, length)]
  {
    if |s| > length then
      if length < 0 then Err(StringIndexOutOfBounds) else Ok(s[..length])
    else Ok(s)
  }
}
