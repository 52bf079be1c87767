/** The compressed typed maps: the value of the Global level, and the levels that differ. */
module TypedConfiguration {
  import opened Configuration

  /** setValue */
  function Put<T(==)>(m: map<Level, T>, level: Level, value: T): map<Level, T> {
    if m == map[] then map[Global := value]
    else if Global in m && m[Global] == value then m
    else m[level := value]
  }

  /** unsafeGetConfigByVal, with the value it falls back to */
  function Fetch<T>(m: map<Level, T>, level: Level, fallback: T): T {
    if level in m then m[level] else if Global in m then m[Global] else fallback
  }

  /** The level keeps a value of its own although the Global value is stored for it. */
  ghost predicate Stale<T>(m: map<Level, T>, level: Level, value: T) {
    level in m && level != Global && Global in m && m[Global] == value && m[level] != value
  }

  /** The value stored for a level is the one it is answered with if and only if it is
      not stale. Any other level keeps its answer, unless it has none of its own and the
      Global value is what is stored. */
  lemma PutFetch<T>(m: map<Level, T>, level: Level, value: T, other: Level, fallback: T)
    ensures Fetch(Put(m, level, value), level, fallback) == value <==> !Stale(m, level, value)
    ensures other != level ==>
              Fetch(Put(m, level, value), other, fallback)
              == if other !in m && (m == map[] || level == Global) then value else Fetch(m, other, fallback)
  {}

  /** The map built from the entries of a type */
  function MapOf<T(==)>(list: seq<Entry>, kind: Type, parse: string -> T): map<Level, T> {
    if list == [] then map[]
    else
      var k := |list| - 1;
      var m := MapOf(list[..k], kind, parse);
      if list[k].kind == kind then Put(m, list[k].level, parse(list[k].value)) else m
  }

  /** The map of a type whose entries are all stored for the Global level */
  function GlobalMapOf<T(==)>(list: seq<Entry>, kind: Type, parse: string -> T): map<Level, T> {
    if list == [] then map[]
    else
      var k := |list| - 1;
      var m := GlobalMapOf(list[..k], kind, parse);
      if list[k].kind == kind then Put(m, Global, parse(list[k].value)) else m
  }

  /** The entry of a type that was registered last */
  function LastOf(list: seq<Entry>, kind: Type): Option<Entry> {
    if list == [] then None
    else if list[|list|-1].kind == kind then Some(list[|list|-1])
    else LastOf(list[..|list|-1], kind)
  }

  /** For such a type the entry registered last decides, whatever its level. */
  lemma {:induction false} LastDecides<T>(list: seq<Entry>, kind: Type, parse: string -> T)
    ensures GlobalMapOf(list, kind, parse)
         == match LastOf(list, kind) case None => map[] case Some(e) => map[Global := parse(e.value)]
  {
    if list == [] {
    } else {
      LastDecides(list[..|list|-1], kind, parse);
    }
  }

  lemma MapOfNext<T>(list: seq<Entry>, i: nat, kind: Type, parse: string -> T)
    requires i < |list|
    ensures var e, m, g := list[i], MapOf(list[..i], kind, parse), GlobalMapOf(list[..i], kind, parse);
            && MapOf(list[..i+1], kind, parse) == (if e.kind == kind then Put(m, e.level, parse(e.value)) else m)
            && GlobalMapOf(list[..i+1], kind, parse) == (if e.kind == kind then Put(g, Global, parse(e.value)) else g)
  {
    assert list[..i+1][..i] == list[..i];
  }

  // ----- the registry seen from its end

  lemma {:induction false} LookupLast(list: seq<Entry>, e: Entry, l: Level, t: Type)
    ensures Lookup(list + [e], l, t)
         == if Lookup(list, l, t).Some? then Lookup(list, l, t) else if For(e, l, t) then Some(e.value) else None
  {
    hide Lookup;
    LookupHead(e, [], l, t);
    if list == [] {
      assert [] + [e] == [e] + [];
    } else {
      LookupLast(list[1..], e, l, t);
      assert list == [list[0]] + list[1..];
      assert list + [e] == [list[0]] + (list[1..] + [e]);
      LookupHead(list[0], list[1..], l, t);
      LookupHead(list[0], list[1..] + [e], l, t);
    }
  }

  lemma {:induction false} FirstOfLast(list: seq<Entry>, e: Entry, t: Type)
    ensures FirstOf(list + [e], t)
         == if FirstOf(list, t).Some? then FirstOf(list, t) else if e.kind == t then Some(e) else None
    ensures FirstOf(list, t).Some? ==>
              var f := FirstOf(list, t).value; f.kind == t && Lookup(list, f.level, t) == Some(f.value)
    ensures FirstOf(list, t).None? ==> forall l :: Lookup(list, l, t) == None
  {
    hide Lookup;
    if list == [] {
      forall l ensures Lookup(list, l, t) == None { LookupHead(e, [], l, t); }
    } else {
      FirstOfLast(list[1..], e, t);
      assert (list + [e])[1..] == list[1..] + [e];
      assert list == [list[0]] + list[1..];
      forall l
        ensures Lookup(list, l, t) == if For(list[0], l, t) then Some(list[0].value) else Lookup(list[1..], l, t)
      {
        LookupHead(list[0], list[1..], l, t);
      }
      if list[0].kind != t && FirstOf(list[1..], t).Some? {
        assert !For(list[0], FirstOf(list[1..], t).value.level, t);
      }
    }
  }

  lemma NewWhenDistinct(list: seq<Entry>, e: Entry)
    requires Distinct(list + [e])
    ensures Distinct(list) && Lookup(list, e.level, e.kind) == None
  {
    var all := list + [e];
    assert all[|list|] == e;
    forall i | 0 <= i < |list|
      ensures list[i] == all[i] && !For(list[i], e.level, e.kind)
    {
    }
  }

  // ----- what the map holds

  /** How the map of a type and the registry are related: the Global value is that of the
      Global entry, or of the first entry while there is none; a level in the map has its
      own value; a level left out has the Global value or that of the first entry. */
  ghost predicate Describes<T>(m: map<Level, T>, list: seq<Entry>, kind: Type, parse: string -> T) {
    match FirstOf(list, kind)
    case None => m == map[]
    case Some(first) =>
      var global := Lookup(list, Global, kind);
      && Global in m && m[Global] == parse(if global.Some? then global.value else first.value)
      && (first.level != Global ==> first.level !in m)
      && (forall l :: l in m && l != Global ==>
            Lookup(list, l, kind).Some? && m[l] == parse(Lookup(list, l, kind).value))
      && (forall l :: l !in m && Lookup(list, l, kind).Some? ==>
            var v := parse(Lookup(list, l, kind).value); v == m[Global] || v == parse(first.value))
  }

  lemma PutDescribes<T>(m: map<Level, T>, list: seq<Entry>, e: Entry, kind: Type, parse: string -> T)
    requires Distinct(list + [e]) && Describes(m, list, kind, parse)
    ensures Describes(if e.kind == kind then Put(m, e.level, parse(e.value)) else m, list + [e], kind, parse)
  {
    hide Lookup, Distinct, FirstOf;
    NewWhenDistinct(list, e);
    FirstOfLast(list, e, kind);
    forall l
      ensures Lookup(list + [e], l, kind)
           == if Lookup(list, l, kind).Some? then Lookup(list, l, kind)
              else if For(e, l, kind) then Some(e.value) else None
    {
      LookupLast(list, e, l, kind);
    }
  }

  lemma {:induction false} MapDescribes<T>(list: seq<Entry>, kind: Type, parse: string -> T)
    requires Distinct(list)
    ensures Describes(MapOf(list, kind, parse), list, kind, parse)
  {
    hide Distinct, Describes, Put;
    if list == [] {
      EmptyDescribes(kind, parse);
    } else {
      var k := |list| - 1;
      assert list == list[..k] + [list[k]];
      NewWhenDistinct(list[..k], list[k]);
      MapDescribes(list[..k], kind, parse);
      PutDescribes(MapOf(list[..k], kind, parse), list[..k], list[k], kind, parse);
    }
  }

  lemma EmptyDescribes<T>(kind: Type, parse: string -> T)
    ensures Describes(map[], [], kind, parse)
  {}

  /** The map answers every registered level with the parsed value of the registry. */
  ghost predicate Agrees<T>(m: map<Level, T>, list: seq<Entry>, kind: Type, parse: string -> T, fallback: T) {
    forall l :: Lookup(list, l, kind).Some? ==> Fetch(m, l, fallback) == parse(Lookup(list, l, kind).value)
  }

  /** The typed map agrees with the registry if and only if the entry registered first
      for the type has the value of the Global entry, when there is one. */
  lemma AgreesIff<T>(list: seq<Entry>, kind: Type, parse: string -> T, fallback: T)
    requires Distinct(list)
    ensures Agrees(MapOf(list, kind, parse), list, kind, parse, fallback)
       <==> (Lookup(list, Global, kind).Some? && FirstOf(list, kind).Some? ==>
               parse(FirstOf(list, kind).value.value) == parse(Lookup(list, Global, kind).value))
  {
    hide Lookup, Distinct, FirstOf, MapOf;
    MapDescribes(list, kind, parse);
    FirstOfLast(list, Entry(Global, kind, ""), kind);
    var m := MapOf(list, kind, parse);
    if FirstOf(list, kind).Some? {
      var first := FirstOf(list, kind).value;
      assert Lookup(list, first.level, kind) == Some(first.value);
    }
  }

  /** In every run from setToDefault the typed maps agree with the registry. */
  lemma RunAgrees<T>(calls: seq<Entry>, kind: Type, parse: string -> T, fallback: T)
    requires kind != UnknownType
    ensures var list := AfterRun(calls);
            forall l :: Valid(l) ==>
              && Lookup(list, l, kind).Some?
              && Fetch(MapOf(list, kind, parse), l, fallback) == parse(Lookup(list, l, kind).value)
  {
    hide Lookup, Distinct, FirstOf, MapOf, AfterRun, Fetch;
    var list := AfterRun(calls);
    RunIsReady(calls, kind);
    AgreesIff(list, kind, parse, fallback);
    FirstOfLast(list, Entry(Global, kind, ""), kind);
  }

  /** Without setToDefault they may not: a level registered before the Global one and
      set again afterwards is answered with the Global value. */
  lemma OrderMatters()
    ensures var once := AfterSet(AfterSet([], Debug, Enabled, "true"), Global, Enabled, "false");
            var list := AfterSet(once, Debug, Enabled, "true");
            && Lookup(list, Debug, Enabled) == Some("true")
            && !Fetch(MapOf(list, Enabled, GetBool), Debug, false) && GetBool("true")
  {
    hide Lookup, FirstOf, MapOf, AfterSet, Distinct;
    var a := AfterSet([], Debug, Enabled, "true");
    var b := AfterSet(a, Global, Enabled, "false");
    var list := AfterSet(b, Debug, Enabled, "true");
    SetLookup(b, Debug, Enabled, "true", Debug, Enabled);
    SetLookup(b, Debug, Enabled, "true", Global, Enabled);
    SetLookup(a, Global, Enabled, "false", Global, Enabled);
    DebugFirst();
    SetSameFirst(a, Global, Enabled, "false", Enabled);
    SetSameFirst(b, Debug, Enabled, "true", Enabled);
    EmptyDistinct();
    SetKeeps([], Debug, Enabled, "true", Enabled);
    SetKeeps(a, Global, Enabled, "false", Enabled);
    SetKeeps(b, Debug, Enabled, "true", Enabled);
    MapDescribes(list, Enabled, GetBool);
  }

  lemma EmptyDistinct()
    ensures Distinct([])
  {}

  lemma DebugFirst()
    ensures var e := FirstOf(AfterSet([], Debug, Enabled, "true"), Enabled); e.Some? && e.value.level == Debug
  {}

  // ----- parsing

  predicate IsSpace(c: char) {
    c == ' ' || '\t' <= c <= '\r'
  }

  function TrimRight(s: string): string {
    if s != "" && IsSpace(s[|s|-1]) then TrimRight(s[..|s|-1]) else s
  }

  function TrimLeft(s: string): string {
    if s != "" && IsSpace(s[0]) then TrimLeft(s[1..]) else s
  }

  function Trim(s: string): string {
    TrimLeft(TrimRight(s))
  }

  function GetBool(s: string): bool {
    var t := Trim(s);
    t == "TRUE" || t == "true" || t == "1"
  }

  predicate IsDigit(c: char) {
    '0' <= c <= '9'
  }

  function DigitValue(c: char): nat
    requires IsDigit(c)
  {
    c as nat - '0' as nat
  }

  function Decimal(s: string): nat
    requires forall i :: 0 <= i < |s| ==> IsDigit(s[i])
  {
    if s == "" then 0 else 10 * Decimal(s[..|s|-1]) + DigitValue(s[|s|-1])
  }

  function GetULong(s: string): nat {
    var t := Trim(s);
    if t != "" && forall i :: 0 <= i < |t| ==> IsDigit(t[i]) then Decimal(t) else 0
  }

  /** The six characters that count as spaces */
  lemma SpacesAre(c: char)
    ensures IsSpace(c) <==> c in " \t\n\r\U{0B}\U{0C}"
  {}

  predicate Blank(s: string) {
    forall i :: 0 <= i < |s| ==> IsSpace(s[i])
  }

  /** No space at either end */
  predicate Trimmed(s: string) {
    s != "" ==> !IsSpace(s[0]) && !IsSpace(s[|s|-1])
  }

  lemma {:induction false} RightTrimmed(s: string, after: string)
    requires Blank(after) && (s == "" || !IsSpace(s[|s|-1]))
    ensures TrimRight(s + after) == s
    decreases |after|
  {
    if after == "" {
      assert s + after == s;
    } else {
      assert (s + after)[..|s + after| - 1] == s + after[..|after|-1];
      RightTrimmed(s, after[..|after|-1]);
    }
  }

  lemma {:induction false} LeftTrimmed(before: string, s: string)
    requires Blank(before) && (s == "" || !IsSpace(s[0]))
    ensures TrimLeft(before + s) == s
  {
    if before == "" {
      assert before + s == s;
    } else {
      assert (before + s)[1..] == before[1..] + s;
      LeftTrimmed(before[1..], s);
    }
  }

  /** Spaces around a value do not matter. */
  lemma {:induction false} TrimPadded(before: string, s: string, after: string)
    requires Blank(before) && Blank(after) && Trimmed(s)
    ensures Trim(before + s + after) == s
    decreases |before|
  {
    if s == "" {
      assert before + s + after == "" + (before + after);
      assert Blank(before + after);
      RightTrimmed("", before + after);
    } else {
      RightTrimmed(before + s, after);
      LeftTrimmed(before, s);
    }
  }

  /** A value that is neither "true", "TRUE" nor "1" counts as false. */
  lemma BoolIsRead(before: string, s: string, after: string)
    requires Blank(before) && Blank(after) && Trimmed(s)
    ensures GetBool(before + s + after) <==> s in ["true", "TRUE", "1"]
  {
    hide Trim;
    TrimPadded(before, s, after);
  }

  /** The decimal digits of n */
  function Digits(n: nat): (s: string)
    ensures s != "" && forall i :: 0 <= i < |s| ==> IsDigit(s[i])
  {
    if n < 10 then ["0123456789"[n]] else Digits(n / 10) + ["0123456789"[n % 10]]
  }

  lemma {:induction false} DecimalOfDigits(n: nat)
    ensures Decimal(Digits(n)) == n
  {
    var s := Digits(n);
    if n >= 10 {
      DecimalOfDigits(n / 10);
      assert s[..|s|-1] == Digits(n / 10);
    }
  }

  /** The digits of a number are read as that number, whatever spaces are around them, and
      anything but digits as 0. */
  lemma NumberIsRead(before: string, n: nat, s: string, after: string)
    requires Blank(before) && Blank(after) && Trimmed(s)
    ensures GetULong(before + Digits(n) + after) == n
    ensures (exists c :: c in s && !IsDigit(c)) ==> GetULong(before + s + after) == 0
  {
    hide Trim, Digits, Decimal;
    DecimalOfDigits(n);
    DigitsTrimmed(Digits(n));
    TrimPadded(before, Digits(n), after);
    TrimPadded(before, s, after);
  }

  lemma DigitsTrimmed(s: string)
    requires forall i :: 0 <= i < |s| ==> IsDigit(s[i])
    ensures Trimmed(s)
  {}

  // ----- the maps of a logger

  class TypedConfigurations {
    var enabledMap: map<Level, bool>
    var toStandardOutputMap: map<Level, bool>
    var maxLogFileSizeMap: map<Level, nat>
    var logFlushThresholdMap: map<Level, nat>
    var performanceTrackingMap: map<Level, bool>

    ghost predicate BuiltFrom(list: seq<Entry>)
      reads this
    {
      && enabledMap == MapOf(list, Enabled, GetBool)
      && toStandardOutputMap == MapOf(list, ToStandardOutput, GetBool)
      && maxLogFileSizeMap == MapOf(list, MaxLogFileSize, GetULong)
      && logFlushThresholdMap == MapOf(list, LogFlushThreshold, GetULong)
      && performanceTrackingMap == GlobalMapOf(list, PerformanceTracking, GetBool)
    }

    constructor (list: seq<Entry>)
      ensures BuiltFrom(list)
    {
      enabledMap, toStandardOutputMap, maxLogFileSizeMap := map[], map[], map[];
      logFlushThresholdMap, performanceTrackingMap := map[], map[];
      new;
      Build(list);
    }

    method SetValue<T(==)>(level: Level, value: T, confMap: map<Level, T>) returns (r: map<Level, T>)
      ensures r == Put(confMap, level, value)
      ensures forall fallback :: Fetch(r, level, fallback) == value <==> !Stale(confMap, level, value)
    {
      if confMap == map[] {
        return map[Global := value];
      }
      if Global in confMap && confMap[Global] == value {
        return confMap;
      }
      r := confMap[level := value];
    }

    /** The maps after one entry of the registry */
    method Store(conf: Entry)
      modifies this
      ensures enabledMap == (if conf.kind == Enabled then Put(old(enabledMap), conf.level, GetBool(conf.value))
          else old(enabledMap))
      ensures toStandardOutputMap
           == (if conf.kind == ToStandardOutput then Put(old(toStandardOutputMap), conf.level, GetBool(conf.value))
               else old(toStandardOutputMap))
      ensures maxLogFileSizeMap
           == (if conf.kind == MaxLogFileSize then Put(old(maxLogFileSizeMap), conf.level, GetULong(conf.value))
               else old(maxLogFileSizeMap))
      ensures logFlushThresholdMap
           == (if conf.kind == LogFlushThreshold then Put(old(logFlushThresholdMap), conf.level, GetULong(conf.value))
               else old(logFlushThresholdMap))
      ensures performanceTrackingMap
           == (if conf.kind == PerformanceTracking then Put(old(performanceTrackingMap), Global, GetBool(conf.value))
               else old(performanceTrackingMap))
    {
      hide Put, GetBool, GetULong;
      if conf.kind == Enabled {
        enabledMap := SetValue(conf.level, GetBool(conf.value), enabledMap);
      } else if conf.kind == ToStandardOutput {
        toStandardOutputMap := SetValue(conf.level, GetBool(conf.value), toStandardOutputMap);
      } else if conf.kind == PerformanceTracking {
        performanceTrackingMap := SetValue(Global, GetBool(conf.value), performanceTrackingMap);
      } else if conf.kind == MaxLogFileSize {
        maxLogFileSizeMap := SetValue(conf.level, GetULong(conf.value), maxLogFileSizeMap);
      } else if conf.kind == LogFlushThreshold {
        logFlushThresholdMap := SetValue(conf.level, GetULong(conf.value), logFlushThresholdMap);
      }
    }

    method Build(list: seq<Entry>)
      requires BuiltFrom([])
      modifies this
      ensures BuiltFrom(list)
    {
      hide Put, MapOf, GlobalMapOf, GetBool, GetULong;
      for i := 0 to |list|
        invariant BuiltFrom(list[..i])
      {
        MapOfNext(list, i, Enabled, GetBool);
        MapOfNext(list, i, ToStandardOutput, GetBool);
        MapOfNext(list, i, MaxLogFileSize, GetULong);
        MapOfNext(list, i, LogFlushThreshold, GetULong);
        MapOfNext(list, i, PerformanceTracking, GetBool);
        Store(list[i]);
      }
      assert list[..|list|] == list;
    }

    /** Every level is answered with what the registry holds for it. */
    method EnabledFor(level: Level, ghost calls: seq<Entry>) returns (on: bool)
      requires Valid(level) && BuiltFrom(AfterRun(calls))
      ensures Lookup(AfterRun(calls), level, Enabled).Some?
      ensures on == GetBool(Lookup(AfterRun(calls), level, Enabled).value)
    {
      hide AfterRun, Lookup, MapOf, Put, GetBool;
      RunAgrees(calls, Enabled, GetBool, false);
      on := if level in enabledMap then enabledMap[level]
        else if Global in enabledMap then enabledMap[Global]
        else false;
    }
  }
}
