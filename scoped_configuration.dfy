/**
 * AbstractScopedConfigurationServiceImpl: property lookup through three
 * layers (immutable defaults, the configuration store, mutable defaults),
 * setting and removing properties, the typed getters, the queries by name
 * prefix and suffix, and the loading of the default-properties files.
 *
 * The configuration store is represented by its non-system values and the
 * set of names declared system; the value of a system property is the
 * JVM's System property of that name. Values are the strings their
 * toString gives.
 */
module ScopedConfig {
  import opened JavaBase
  import opened ChangeEvents

  /** The decimal form of an int, as Integer.toString gives it. */
  function IntToString(n: int): (r: string)
  {
    if n < 0 then "-" + NatToString(-n) else NatToString(n)
  }

  /** Integer.parseInt reads back Integer.toString, and trim leaves it alone. */
  lemma {:induction false} IntToStringParses(n: int)
    requires IsInt(n)
    ensures ParseInt(IntToString(n)) == Some(n) && ParseLong(IntToString(n)) == Some(n)
    ensures Trim(IntToString(n)) == IntToString(n)
  {
    IntToStringDecimal(n);
    assert IsLong(n);
    IntToStringPrintable(n);
    TrimNothing(IntToString(n));
  }

  lemma {:induction false} IntToStringDecimal(n: int)
    ensures ParseDecimal(IntToString(n)) == Some(n)
  {
    if n < 0 {
      NegativeParses(-n);
    } else {
      DigitsParse(n);
    }
  }

  lemma {:induction false} DigitsParse(m: nat)
    ensures ParseDecimal(NatToString(m)) == Some(m)
  {
    var d := NatToString(m);
    NatToStringValue(m);
    assert IsAsciiDigit(d[0]);
  }

  lemma {:induction false} NegativeParses(m: nat)
    ensures ParseDecimal("-" + NatToString(m)) == Some(0 - m)
  {
    var d := NatToString(m);
    var s := "-" + d;
    NatToStringValue(m);
    assert s[1..] == d;
  }

  lemma {:induction false} IntToStringPrintable(n: int)
    ensures forall i :: 0 <= i < |IntToString(n)| ==> IntToString(n)[i] > ' '
  {
    var s := IntToString(n);
    var m: nat := if n < 0 then -n else n;
    var d := NatToString(m);
    forall i | 0 <= i < |s| ensures s[i] > ' ' {
      if n < 0 && i > 0 {
        assert s[i] == d[i - 1];
        assert IsAsciiDigit(d[i - 1]);
      } else if n >= 0 {
        assert IsAsciiDigit(d[i]);
      }
    }
  }

  /** A string with no char <= U+0020 is its own trim. */
  lemma {:induction false} TrimNothing(s: string)
    requires forall i :: 0 <= i < |s| ==> s[i] > ' '
    ensures Trim(s) == s
  {
    assert TrimStart(s) == s by {
      if s != [] { assert s[0] > ' '; }
    }
    if s != [] {
      assert s[|s| - 1] > ' ';
    }
  }

  /** `Boolean.parseBoolean`: "true" in any case. */
  predicate ParseBoolean(s: string)
  {
    EqualsIgnoreCase(s, "true")
  }

  // ------------------------------------------------------------ name queries

  /**
   * A property name matches a prefix query when it has a dot and the text
   * before its last dot is the prefix (exact) or starts with it.
   */
  predicate PrefixMatches(key: string, prefix: string, exactPrefixMatch: bool)
  {
    var ix := LastIndexOf(key, '.');
    ix != -1 && (if exactPrefixMatch then key[..ix] == prefix else StartsWith(key[..ix], prefix))
  }

  /** A property name matches a suffix query when the text after its last dot is the suffix. */
  predicate SuffixMatches(key: string, suffix: string)
  {
    var ix := LastIndexOf(key, '.');
    ix != -1 && key[ix + 1..] == suffix
  }

  /**
   * Names without a dot never match a prefix query, and an exact match is
   * also a match by startsWith.
   */
  lemma {:induction false} PrefixMatchFacts(key: string, prefix: string)
    ensures '.' !in key ==> !PrefixMatches(key, prefix, true) && !PrefixMatches(key, prefix, false)
    ensures PrefixMatches(key, prefix, true) ==> PrefixMatches(key, prefix, false)
  {
  }

  /** A suffix holding a dot matches nothing, since the text after the last dot has none. */
  lemma {:induction false} DottedSuffixMatchesNothing(key: string, suffix: string)
    requires '.' in suffix
    ensures !SuffixMatches(key, suffix)
  {
    var ix := LastIndexOf(key, '.');
    if ix != -1 {
      assert '.' !in key[ix + 1..];
    }
  }

  /**
   * The private getPropertyNamesByPrefix(prefix, exact, names, resultSet):
   * adds to the result the names that match, visiting them in any order.
   */
  method AddNamesByPrefix(prefix: string, exactPrefixMatch: bool, names: set<string>, resultSet: set<string>)
    returns (r: set<string>)
    ensures forall k :: k in r <==> k in resultSet || (k in names && PrefixMatches(k, prefix, exactPrefixMatch))
  {
    r := resultSet;
    var rest := names;
    while rest != {}
      invariant rest <= names
      invariant forall k :: k in r <==> k in resultSet || (k in names && k !in rest && PrefixMatches(k, prefix, exactPrefixMatch))
      decreases |rest|
    {
      var key :| key in rest;
      var ix := LastIndexOf(key, '.');
      if ix != -1 {
        var keyPrefix := key[..ix];
        if exactPrefixMatch {
          if prefix == keyPrefix {
            r := r + {key};
          }
        } else if StartsWith(keyPrefix, prefix) {
          r := r + {key};
        }
      }
      rest := rest - {key};
    }
  }

  // ------------------------------------------------------------ default properties

  /** What one line of a default-properties file contributes. */
  datatype DefaultEntry = Immutable(name: string, value: string) | Mutable(name: string, value: string) | Skipped

  /** A name starting with `*`. */
  predicate Starred(n: string)
  {
    |n| >= 1 && n[0] == '*'
  }

  /**
   * A line is skipped when its name or value is missing or the name is
   * blank; a name starting with `*` marks an immutable default (skipped
   * when nothing but blanks follows the star).
   */
  function Classify(name: Option<string>, value: Option<string>): (e: DefaultEntry)
    ensures e.Skipped? <==>
      (name.None? || value.None? || (if Starred(name.value) then IsBlank(name.value[1..]) else IsBlank(name.value)))
    ensures e.Immutable? ==> name.Some? && Starred(name.value) && e.name == name.value[1..] && value == Some(e.value)
    ensures e.Mutable? ==> name.Some? && !Starred(name.value) && e.name == name.value && value == Some(e.value)
  {
    if name.None? || value.None? then Skipped
    else ClassifyName(name.value, value.value)
  }

  /** The test of a present name and value, as the loop makes it with trim and startsWith. */
  function ClassifyName(name: string, value: string): (e: DefaultEntry)
    ensures e.Skipped? <==> if Starred(name) then IsBlank(name[1..]) else IsBlank(name)
    ensures e.Immutable? ==> Starred(name) && e.name == name[1..] && e.value == value
    ensures e.Mutable? ==> !Starred(name) && e.name == name && e.value == value
  {
    StarFacts(name);
    if Trim(name) == "" then Skipped
    else if StartsWith(name, "*") then
      if Trim(name[1..]) == "" then Skipped else Immutable(name[1..], value)
    else Mutable(name, value)
  }

  /** What the trim and startsWith tests of a name say about its star and blanks. */
  lemma {:induction false} StarFacts(name: string)
    ensures StartsWith(name, "*") <==> Starred(name)
    ensures Trim(name) == "" <==> IsBlank(name)
    ensures Starred(name) ==> !IsBlank(name) && (Trim(name[1..]) == "" <==> IsBlank(name[1..]))
  {
    TrimEmptyIffBlank(name);
    if Starred(name) {
      assert name[0] > ' ';
      TrimEmptyIffBlank(name[1..]);
    }
    StarredStartsWith(name);
  }

  lemma {:induction false} StarredStartsWith(name: string)
    ensures StartsWith(name, "*") <==> Starred(name)
  {
    if |name| >= 1 {
      assert name[..1] == [name[0]];
    }
  }

  /** The classification as the loop tests it. */
  lemma {:induction false} ClassifyByTrim(name: Option<string>, value: Option<string>)
    ensures Classify(name, value) ==
      if name.None? || value.None? || Trim(name.value) == "" then Skipped
      else if StartsWith(name.value, "*") then
        (if Trim(name.value[1..]) == "" then Skipped else Immutable(name.value[1..], value.value))
      else Mutable(name.value, value.value)
  {
  }

  /**
   * The two default maps after one line: an immutable default is put there
   * and removed from the mutable ones, a mutable default the other way round.
   */
  function LoadEntry(maps: (map<string, string>, map<string, string>), e: DefaultEntry): (map<string, string>, map<string, string>)
  {
    match e
    case Skipped => maps
    case Immutable(n, v) => (maps.0[n := v], maps.1 - {n})
    case Mutable(n, v) => (maps.0 - {n}, maps.1[n := v])
  }

  /** The two default maps after the lines, in order. */
  function LoadEntries(maps: (map<string, string>, map<string, string>), lines: seq<(Option<string>, Option<string>)>)
    : (map<string, string>, map<string, string>)
  {
    if lines == [] then maps
    else
      var last := lines[|lines| - 1];
      LoadEntry(LoadEntries(maps, lines[..|lines| - 1]), Classify(last.0, last.1))
  }

  /** No name is both an immutable and a mutable default. */
  predicate Disjoint(maps: (map<string, string>, map<string, string>))
  {
    forall n :: n in maps.0 ==> n !in maps.1
  }

  /**
   * Loading keeps the two maps disjoint; the name of each accepted line
   * ends up in the map its star chooses, with its value, and not in the
   * other one, until a later line of the same name.
   */
  lemma {:induction false} LoadEntryPlaces(maps: (map<string, string>, map<string, string>), e: DefaultEntry)
    requires Disjoint(maps)
    ensures var r := LoadEntry(maps, e);
      Disjoint(r) &&
      (e.Immutable? ==> e.name in r.0 && r.0[e.name] == e.value && e.name !in r.1) &&
      (e.Mutable? ==> e.name in r.1 && r.1[e.name] == e.value && e.name !in r.0) &&
      (forall n :: (e.Skipped? || n != e.name) ==> (n in r.0 <==> n in maps.0) && (n in r.1 <==> n in maps.1))
  {
  }

  /** Loading the lines in order keeps the two maps disjoint. */
  lemma {:induction false} LoadEntriesDisjoint(maps: (map<string, string>, map<string, string>), lines: seq<(Option<string>, Option<string>)>)
    requires Disjoint(maps)
    ensures Disjoint(LoadEntries(maps, lines))
  {
    if lines != [] {
      var last := lines[|lines| - 1];
      LoadEntriesDisjoint(maps, lines[..|lines| - 1]);
      LoadEntryPlaces(LoadEntries(maps, lines[..|lines| - 1]), Classify(last.0, last.1));
    }
  }

  // ------------------------------------------------------------ the service

  class ConfigurationService {
    /** Defaults whose names were starred: they cannot be overridden. */
    var immutableDefaults: map<string, string>
    /** Defaults that a stored value overrides. */
    var defaults: map<string, string>
    /** The store's values of non-system properties. */
    var stored: map<string, string>
    /** The names the store holds as system properties. */
    var systemNames: set<string>
    /** The JVM's System properties. */
    var system: map<string, string>
    const dispatcher: ChangeEventDispatcher

    /** The store holds no value of its own for a system property; no default is both kinds. */
    predicate Valid()
      reads this
    {
      (forall n :: n in stored ==> n !in systemNames) && Disjoint((immutableDefaults, defaults))
    }

    constructor(d: ChangeEventDispatcher)
      ensures Valid() && dispatcher == d
      ensures immutableDefaults == map[] && defaults == map[] && stored == map[] && systemNames == {}
      ensures system == map[]
    {
      immutableDefaults := map[];
      defaults := map[];
      stored := map[];
      systemNames := {};
      system := map[];
      dispatcher := d;
    }

    /** store.getProperty(name): a system property reads the System property. */
    function StoreValue(name: string): Option<string>
      reads this
    {
      if name in systemNames then (if name in system then Some(system[name]) else None)
      else if name in stored then Some(stored[name])
      else None
    }

    /** store.getPropertyNames(). */
    function StoreNames(): set<string>
      reads this
    {
      stored.Keys + systemNames
    }

    /** getProperty(name): the immutable default, else the store's value, else the mutable default. */
    function GetProperty(name: string): Option<string>
      reads this
    {
      if name in immutableDefaults then Some(immutableDefaults[name])
      else if StoreValue(name).Some? then StoreValue(name)
      else if name in defaults then Some(defaults[name])
      else None
    }

    /**
     * doSetProperty(name, property, isSystem). A name once system stays
     * system; an immutable default is never overridden; a null value
     * removes the stored value (and empties a system property); a system
     * value goes to the System properties, any other to the store.
     */
    method DoSetProperty(propertyName: string, property: Option<string>, isSystem: bool)
      requires Valid()
      modifies this
      ensures Valid()
      ensures immutableDefaults == old(immutableDefaults) && defaults == old(defaults)
      ensures propertyName in immutableDefaults ==>
        stored == old(stored) && systemNames == old(systemNames) && system == old(system)
      ensures propertyName !in immutableDefaults ==>
        var sys := isSystem || propertyName in old(systemNames);
        if property.None? then
          stored == old(stored) - {propertyName} && systemNames == old(systemNames) &&
          system == (if sys then old(system)[propertyName := ""] else old(system))
        else if sys then
          stored == old(stored) - {propertyName} && systemNames == old(systemNames) + {propertyName} &&
          system == old(system)[propertyName := property.value]
        else
          stored == old(stored)[propertyName := property.value] && systemNames == old(systemNames) &&
          system == old(system)
      ensures old(systemNames) <= systemNames
      ensures forall n :: n != propertyName ==> GetProperty(n) == old(GetProperty(n))
      ensures propertyName in immutableDefaults ==> GetProperty(propertyName) == old(GetProperty(propertyName))
      ensures propertyName !in immutableDefaults && property.Some? ==> GetProperty(propertyName) == property
      ensures propertyName !in immutableDefaults && property.None? && propertyName !in systemNames ==>
        GetProperty(propertyName) == (if propertyName in defaults then Some(defaults[propertyName]) else None)
      ensures propertyName !in immutableDefaults && property.None? && propertyName in old(systemNames) ==>
        GetProperty(propertyName) == Some("")
    {
      var sys := isSystem;
      if propertyName in systemNames {
        sys := true;
      }
      if propertyName in immutableDefaults {
        return;
      }
      if property.None? {
        stored := stored - {propertyName};
        if sys {
          system := system[propertyName := ""];
        }
      } else if sys {
        system := system[propertyName := property.value];
        stored := stored - {propertyName};
        systemNames := systemNames + {propertyName};
      } else {
        stored := stored[propertyName := property.value];
      }
    }

    /**
     * setProperty(name, property, isSystem): the listeners notified of the
     * change, from the value before to the value given; they are notified
     * even when an immutable default made the change a no-op.
     */
    method SetProperty(propertyName: string, property: Option<string>, isSystem: bool) returns (notified: seq<int>)
      requires Valid()
      modifies this
      ensures Valid()
      ensures notified ==
        if dispatcher.HasPropertyChangeListeners(propertyName) then
          Delivered(dispatcher.listeners, dispatcher.children, ChangeEvent(Some(propertyName), old(GetProperty(propertyName)), property))
        else []
      ensures propertyName in immutableDefaults ==> GetProperty(propertyName) == old(GetProperty(propertyName))
      ensures propertyName !in immutableDefaults && property.Some? ==> GetProperty(propertyName) == property
      ensures propertyName !in immutableDefaults && property.None? && propertyName !in systemNames ==>
        GetProperty(propertyName) == (if propertyName in defaults then Some(defaults[propertyName]) else None)
      ensures propertyName !in immutableDefaults && property.None? && propertyName in old(systemNames) ==>
        GetProperty(propertyName) == Some("")
      ensures forall n :: n != propertyName ==> GetProperty(n) == old(GetProperty(n))
    {
      var oldValue := GetProperty(propertyName);
      DoSetProperty(propertyName, property, isSystem);
      notified := [];
      if dispatcher.HasPropertyChangeListeners(propertyName) {
        notified := dispatcher.FireChange(Some(propertyName), oldValue, property);
      }
    }

    /** getString(name): the value trimmed; null for no value or a blank one. */
    function GetString(propertyName: string): (r: Option<string>)
      reads this
      ensures r.Some? ==> GetProperty(propertyName).Some? && r.value != [] && r.value == Trim(GetProperty(propertyName).value)
      ensures r.None? <==> GetProperty(propertyName).None? || IsBlank(GetProperty(propertyName).value)
    {
      var v := GetProperty(propertyName);
      if v.None? then None
      else
        TrimEmptyIffBlank(v.value);
        var t := Trim(v.value);
        if |t| > 0 then Some(t) else None
    }

    /** getString(name, defaultValue). */
    function GetStringOr(propertyName: string, defaultValue: Option<string>): (r: Option<string>)
      reads this
      ensures GetString(propertyName).Some? ==> r == GetString(propertyName)
      ensures GetString(propertyName).None? ==> r == defaultValue
    {
      var value := GetString(propertyName);
      if value.Some? then value else defaultValue
    }

    /** getBoolean(name, defaultValue): "true" in any case; the default only when there is no value. */
    function GetBoolean(propertyName: string, defaultValue: bool): bool
      reads this
    {
      var s := GetString(propertyName);
      if s.None? then defaultValue else ParseBoolean(s.value)
    }

    /** getInt(name, defaultValue): the parsed value; the default when absent or not an int. */
    function GetInt(propertyName: string, defaultValue: int): (r: int)
      reads this
      ensures GetString(propertyName).None? ==> r == defaultValue
      ensures GetString(propertyName).Some? && ParseInt(GetString(propertyName).value).None? ==> r == defaultValue
      ensures GetString(propertyName).Some? && ParseInt(GetString(propertyName).value).Some? ==>
        r == ParseInt(GetString(propertyName).value).value && IsInt(r)
    {
      var s := GetString(propertyName);
      if s.Some? && |s.value| > 0 then
        var v := ParseInt(s.value);
        if v.Some? then v.value else defaultValue
      else defaultValue
    }

    /** getLong(name, defaultValue): the parsed value; the default when absent or not a long. */
    function GetLong(propertyName: string, defaultValue: int): (r: int)
      reads this
      ensures GetString(propertyName).None? ==> r == defaultValue
      ensures GetString(propertyName).Some? && ParseLong(GetString(propertyName).value).None? ==> r == defaultValue
      ensures GetString(propertyName).Some? && ParseLong(GetString(propertyName).value).Some? ==>
        r == ParseLong(GetString(propertyName).value).value && IsLong(r)
    {
      var s := GetString(propertyName);
      if s.Some? && |s.value| > 0 then
        var v := ParseLong(s.value);
        if v.Some? then v.value else defaultValue
      else defaultValue
    }

    /**
     * getPropertyNamesByPrefix(prefix, exactPrefixMatch): the matching names
     * among the immutable defaults, the store and the mutable defaults,
     * each once.
     */
    method GetPropertyNamesByPrefix(prefix: string, exactPrefixMatch: bool) returns (r: set<string>)
      ensures forall k :: k in r <==>
        (k in immutableDefaults || k in StoreNames() || k in defaults) && PrefixMatches(k, prefix, exactPrefixMatch)
    {
      r := {};
      if |immutableDefaults| > 0 {
        r := AddNamesByPrefix(prefix, exactPrefixMatch, immutableDefaults.Keys, r);
      }
      r := AddNamesByPrefix(prefix, exactPrefixMatch, StoreNames(), r);
      if |defaults| > 0 {
        r := AddNamesByPrefix(prefix, exactPrefixMatch, defaults.Keys, r);
      }
    }

    /** getPropertyNamesBySuffix(suffix): the stored names whose text after the last dot is the suffix. */
    method GetPropertyNamesBySuffix(suffix: string) returns (r: set<string>)
      ensures forall k :: k in r <==> k in StoreNames() && SuffixMatches(k, suffix)
    {
      r := {};
      var rest := StoreNames();
      while rest != {}
        invariant rest <= StoreNames()
        invariant forall k :: k in r <==> k in StoreNames() && k !in rest && SuffixMatches(k, suffix)
        decreases |rest|
      {
        var key :| key in rest;
        var ix := LastIndexOf(key, '.');
        if ix != -1 && suffix == key[ix + 1..] {
          r := r + {key};
        }
        rest := rest - {key};
      }
    }

    /** The tests the loop of loadDefaultProperties(fileName) makes of one line, with trim and startsWith. */
    static method ReadDefaultLine(name: Option<string>, value: Option<string>) returns (e: DefaultEntry)
      ensures e == Classify(name, value)
    {
      ClassifyByTrim(name, value);
      e := Skipped;
      if name.Some? && value.Some? && Trim(name.value) != "" {
        var n := name.value;
        if StartsWith(n, "*") {
          n := n[1..];
          if Trim(n) != "" {
            e := Immutable(n, value.value);
          }
        } else {
          e := Mutable(n, value.value);
        }
      }
    }

    /**
     * One line of a default-properties file: an immutable default is put
     * and its name removed from the mutable defaults, a mutable default the
     * other way round.
     */
    method LoadDefaultEntry(e: DefaultEntry)
      requires Valid()
      modifies this
      ensures Valid()
      ensures (immutableDefaults, defaults) == LoadEntry((old(immutableDefaults), old(defaults)), e)
      ensures stored == old(stored) && systemNames == old(systemNames) && system == old(system)
    {
      LoadEntryPlaces((immutableDefaults, defaults), e);
      match e
      case Immutable(n, v) =>
        immutableDefaults := immutableDefaults[n := v];
        defaults := defaults - {n};
      case Mutable(n, v) =>
        defaults := defaults[n := v];
        immutableDefaults := immutableDefaults - {n};
      case Skipped =>
    }

    /** The loop of loadDefaultProperties(fileName) over the file's lines, in order. */
    method LoadDefaultEntries(lines: seq<(Option<string>, Option<string>)>)
      requires Valid()
      modifies this
      ensures Valid()
      ensures (immutableDefaults, defaults) == LoadEntries((old(immutableDefaults), old(defaults)), lines)
      ensures stored == old(stored) && systemNames == old(systemNames) && system == old(system)
    {
      var i := 0;
      while i < |lines|
        invariant 0 <= i <= |lines| && Valid()
        invariant (immutableDefaults, defaults) == LoadEntries((old(immutableDefaults), old(defaults)), lines[..i])
        invariant stored == old(stored) && systemNames == old(systemNames) && system == old(system)
      {
        PrefixSnoc(lines, i + 1);
        var e := ReadDefaultLine(lines[i].0, lines[i].1);
        LoadDefaultEntry(e);
        i := i + 1;
      }
      FullPrefix(lines);
    }
  }

  /**
   * The typed getters read a property set to the decimal form of an int:
   * getInt and getLong give that int back, whatever the default.
   */
  lemma {:induction false} GetIntReadsBack(c: ConfigurationService, name: string, n: int, defaultValue: int)
    requires IsInt(n) && c.GetProperty(name) == Some(IntToString(n))
    ensures c.GetInt(name, defaultValue) == n && c.GetLong(name, defaultValue) == n
  {
    IntToStringParses(n);
    TrimEmptyIffBlank(IntToString(n));
  }

  /**
   * A value that is only blanks reads as no value: getString gives null,
   * and getInt and getBoolean give their defaults.
   */
  lemma {:induction false} BlankReadsAsAbsent(c: ConfigurationService, name: string, defaultInt: int, defaultBool: bool)
    requires c.GetProperty(name).Some? && IsBlank(c.GetProperty(name).value)
    ensures c.GetString(name).None?
    ensures c.GetInt(name, defaultInt) == defaultInt && c.GetBoolean(name, defaultBool) == defaultBool
  {
  }

  /** An immutable default shadows both the store and the mutable defaults, and the store shadows a mutable default. */
  lemma {:induction false} LookupOrder(c: ConfigurationService, name: string)
    ensures name in c.immutableDefaults ==> c.GetProperty(name) == Some(c.immutableDefaults[name])
    ensures name !in c.immutableDefaults && c.StoreValue(name).Some? ==> c.GetProperty(name) == c.StoreValue(name)
    ensures name !in c.immutableDefaults && c.StoreValue(name).None? ==>
      c.GetProperty(name) == (if name in c.defaults then Some(c.defaults[name]) else None)
  {
  }
}
