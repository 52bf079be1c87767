/** The logger's configuration registry, a list of (level, type, value) entries, and the
    compressed typed maps built from it. */
module Configuration {

  datatype Option<T> = None | Some(value: T)

  datatype Level = Global | Trace | Debug | Fatal | Error | Warning | Verbose | Info | UnknownLevel

  datatype Type =
    Enabled | ToFile | ToStandardOutput | Format | Filename | SubsecondPrecision
  | PerformanceTracking | MaxLogFileSize | LogFlushThreshold | UnknownType

  datatype Entry = Entry(level: Level, kind: Type, value: string)

  /** castFromInt */
  function LevelOf(i: nat): Level {
    match i
    case 1 => Global
    case 2 => Trace
    case 4 => Debug
    case 8 => Fatal
    case 16 => Error
    case 32 => Warning
    case 64 => Verbose
    case 128 => Info
    case _ => UnknownLevel
  }

  /** The levels in the order forEachLevel visits them */
  function Levels(): (r: seq<Level>)
    ensures |r| == 7
  {
    [Trace, Debug, Fatal, Error, Warning, Verbose, Info]
  }

  // ----- the list

  predicate For(e: Entry, level: Level, kind: Type) {
    e.level == level && e.kind == kind
  }

  /** The position of the first entry for a level and a type, or the length of the list */
  function Find(list: seq<Entry>, level: Level, kind: Type): (i: nat)
    ensures i <= |list|
    ensures i < |list| ==> For(list[i], level, kind)
    ensures forall j :: 0 <= j < i ==> !For(list[j], level, kind)
  {
    if list == [] || For(list[0], level, kind) then 0
    else 1 + Find(list[1..], level, kind)
  }

  function Lookup(list: seq<Entry>, level: Level, kind: Type): Option<string> {
    var i := Find(list, level, kind);
    if i == |list| then None else Some(list[i].value)
  }

  /** At most one entry for each level and type */
  ghost predicate Distinct(list: seq<Entry>) {
    forall i, j :: 0 <= i < j < |list| ==> !For(list[i], list[j].level, list[j].kind)
  }

  /** Updates the entry of a level and a type, or registers a new one. */
  function Stored(list: seq<Entry>, level: Level, kind: Type, value: string): seq<Entry> {
    var i := Find(list, level, kind);
    if i == |list| then list + [Entry(level, kind, value)] else list[i := Entry(level, kind, value)]
  }

  /** The first k levels stored one after another */
  function StoredLevels(list: seq<Entry>, kind: Type, value: string, k: nat): seq<Entry>
    requires k <= 7
  {
    if k == 0 then list else Stored(StoredLevels(list, kind, value, k - 1), Levels()[k-1], kind, value)
  }

  /** The list after set */
  function AfterSet(list: seq<Entry>, level: Level, kind: Type, value: string): seq<Entry> {
    var first := Stored(list, level, kind, value);
    if level == Global then StoredLevels(StoredLevels(first, kind, value, 7), kind, value, 7) else first
  }

  class Configurations {
    var list: seq<Entry>

    constructor ()
      ensures list == []
    {
      list := [];
    }

    method Get(level: Level, kind: Type) returns (index: nat)
      ensures index == Find(list, level, kind)
    {
      index := 0;
      assert list[0..] == list;
      while index < |list| && !For(list[index], level, kind)
        invariant index <= |list| && Find(list, level, kind) == index + Find(list[index..], level, kind)
      {
        assert list[index..][1..] == list[index + 1..];
        index := index + 1;
      }
    }

    method UnsafeSet(level: Level, kind: Type, value: string)
      modifies this
      ensures var first := Stored(old(list), level, kind, value);
              list == if level == Global then StoredLevels(first, kind, value, 7) else first
      decreases level == Global, 1
    {
      var index := Get(level, kind);
      if index == |list| {
        list := list + [Entry(level, kind, value)];
      } else {
        list := list[index := Entry(level, kind, value)];
      }
      if level == Global {
        UnsafeSetGlobally(kind, value, false);
      }
    }

    method UnsafeSetGlobally(kind: Type, value: string, includeGlobalLevel: bool)
      modifies this
      ensures !includeGlobalLevel ==> list == StoredLevels(old(list), kind, value, 7)
      ensures includeGlobalLevel ==>
                var first := StoredLevels(Stored(old(list), Global, kind, value), kind, value, 7);
                list == StoredLevels(first, kind, value, 7)
      decreases true, if includeGlobalLevel then 2 else 0
    {
      hide LevelOf, Stored, Power;
      PowerFacts(0);
      if includeGlobalLevel {
        UnsafeSet(Global, kind, value);
      }
      ghost var before := list;
      var index := 2;
      ghost var k := 0;
      while index <= 128
        invariant k <= 7 && index == Power(k)
        invariant list == StoredLevels(before, kind, value, k)
        decreases 7 - k
      {
        PowerFacts(k);
        UnsafeSet(LevelOf(index), kind, value);
        index, k := index * 2, k + 1;
      }
      PowerFacts(k);
    }

    method Set(level: Level, kind: Type, value: string)
      modifies this
      ensures list == AfterSet(old(list), level, kind, value)
    {
      UnsafeSet(level, kind, value);
      if level == Global {
        UnsafeSetGlobally(kind, value, false);
      }
    }

    method SetGlobally(kind: Type, value: string, includeGlobalLevel: bool)
      modifies this
      ensures list == SetLevels(if includeGlobalLevel then AfterSet(old(list), Global, kind, value) else old(list),
                                kind, value, 7)
    {
      if includeGlobalLevel {
        Set(Global, kind, value);
      }
      ghost var before := list;
      var index := 2;
      ghost var k := 0;
      while index <= 128
        invariant k <= 7 && index == Power(k)
        invariant list == SetLevels(before, kind, value, k)
        decreases 7 - k
      {
        PowerFacts(k);
        Set(LevelOf(index), kind, value);
        index, k := index * 2, k + 1;
      }
      PowerFacts(k);
    }

    method SetToDefault()
      modifies this
      ensures list == Defaulted(old(list))
    {
      hide AfterSetGlobally, AfterSet;
      ghost var start := list;
      var i := 0;
      while i < 9
        invariant i <= 9 && list == DefaultedTypes(start, i)
      {
        var (kind, value) := Defaults()[i];
        SetDefault(kind, value);
        i := i + 1;
      }
      i := 0;
      while i < 5
        invariant i <= 5 && list == DefaultedFormats(start, i)
      {
        var (level, value) := DefaultFormats()[i];
        Set(level, Format, value);
        i := i + 1;
      }
    }

    method SetDefault(kind: Type, value: string)
      modifies this
      ensures list == AfterSetGlobally(old(list), kind, value)
    {
      SetGlobally(kind, value, true);
    }
  }

  /** The first k levels set one after another */
  function SetLevels(list: seq<Entry>, kind: Type, value: string, k: nat): seq<Entry>
    requires k <= 7
  {
    if k == 0 then list else AfterSet(SetLevels(list, kind, value, k - 1), Levels()[k-1], kind, value)
  }

  /** The list after setGlobally with the global level included */
  function AfterSetGlobally(list: seq<Entry>, kind: Type, value: string): seq<Entry> {
    SetLevels(AfterSet(list, Global, kind, value), kind, value, 7)
  }

  function Defaults(): (r: seq<(Type, string)>)
    ensures |r| == 9
  {
    [(Enabled, "true"), (Filename, "ASV.log"), (ToFile, "true"), (ToStandardOutput, "true"),
     (SubsecondPrecision, "3"), (PerformanceTracking, "true"), (MaxLogFileSize, "0"), (LogFlushThreshold, "0"),
     (Format, "%datetime %level [%logger] %msg")]
  }

  function DefaultFormats(): (r: seq<(Level, string)>)
    ensures |r| == 5
  {
    [(Debug, "%datetime %level [%logger] [%user@%host] [%func] [%loc] %msg"),
     (Error, "%datetime %level [%logger] %msg"), (Fatal, "%datetime %level [%logger] %msg"),
     (Verbose, "%datetime %level-%vlevel [%logger] %msg"),
     (Trace, "%datetime %level [%logger] [%func] [%loc] %msg")]
  }

  function DefaultedTypes(list: seq<Entry>, k: nat): seq<Entry>
    requires k <= 9
  {
    if k == 0 then list
    else AfterSetGlobally(DefaultedTypes(list, k - 1), Defaults()[k-1].0, Defaults()[k-1].1)
  }

  function DefaultedFormats(list: seq<Entry>, k: nat): seq<Entry>
    requires k <= 5
  {
    if k == 0 then DefaultedTypes(list, 9)
    else AfterSet(DefaultedFormats(list, k - 1), DefaultFormats()[k-1].0, Format, DefaultFormats()[k-1].1)
  }

  function Defaulted(list: seq<Entry>): seq<Entry> {
    DefaultedFormats(list, 5)
  }

  /** 2 to the power k + 1: the index of level k */
  function Power(k: nat): nat {
    if k == 0 then 2 else 2 * Power(k - 1)
  }

  lemma PowerFacts(k: nat)
    ensures k <= 6 ==> Power(k) <= 128 && LevelOf(Power(k)) == Levels()[k]
    ensures Power(0) == 2 && Power(k + 1) == 2 * Power(k) && Power(7) == 256
    ensures k <= 6 ==> LevelOf(Power(k)) != Global
  {
    assert Power(1) == 4 && Power(2) == 8 && Power(3) == 16;
    assert Power(4) == 32 && Power(5) == 64 && Power(6) == 128 && Power(7) == 256;
  }

  // ----- what set means

  lemma LookupHead(e: Entry, rest: seq<Entry>, level: Level, kind: Type)
    ensures Lookup([e] + rest, level, kind) == if For(e, level, kind) then Some(e.value) else Lookup(rest, level, kind)
    ensures Lookup([], level, kind) == None
  {
    hide Find;
    FindHead(e, rest, level, kind);
    var i := Find(rest, level, kind);
    assert i < |rest| ==> ([e] + rest)[i + 1] == rest[i];
  }

  lemma FindHead(e: Entry, rest: seq<Entry>, level: Level, kind: Type)
    ensures Find([e] + rest, level, kind) == if For(e, level, kind) then 0 else 1 + Find(rest, level, kind)
    ensures Find([], level, kind) == 0
  {
    assert ([e] + rest)[1..] == rest;
  }

  /** Storing changes what is looked up for its own level and type only. */
  lemma {:induction false} StoredLookup(list: seq<Entry>, level: Level, kind: Type, value: string, l: Level, t: Type)
    ensures Lookup(Stored(list, level, kind, value), l, t)
         == if l == level && t == kind then Some(value) else Lookup(list, l, t)
  {
    hide Lookup, Stored;
    StoredHead(list, level, kind, value);
    if list == [] {
      LookupHead(Entry(level, kind, value), [], l, t);
      assert [Entry(level, kind, value)] + [] == [Entry(level, kind, value)];
    } else {
      assert list == [list[0]] + list[1..];
      LookupHead(list[0], list[1..], l, t);
      LookupHead(Entry(level, kind, value), list[1..], l, t);
      LookupHead(list[0], Stored(list[1..], level, kind, value), l, t);
      StoredLookup(list[1..], level, kind, value, l, t);
    }
  }

  lemma {:induction false} StoredLevelsLookup(list: seq<Entry>, kind: Type, value: string, k: nat, l: Level, t: Type)
    requires k <= 7
    ensures Lookup(StoredLevels(list, kind, value, k), l, t)
         == if t == kind && l in Levels()[..k] then Some(value) else Lookup(list, l, t)
  {
    hide Lookup, Stored;
    if k == 0 {
    } else {
      StoredLevelsLookup(list, kind, value, k - 1, l, t);
      StoredLookup(StoredLevels(list, kind, value, k - 1), Levels()[k-1], kind, value, l, t);
      assert Levels()[..k] == Levels()[..k-1] + [Levels()[k-1]];
    }
  }

  predicate Valid(level: Level) {
    level != UnknownLevel
  }

  /** Setting the Global level sets every level; any other level is set alone. */
  lemma SetLookup(list: seq<Entry>, level: Level, kind: Type, value: string, l: Level, t: Type)
    ensures Lookup(AfterSet(list, level, kind, value), l, t)
         == if t == kind && (l == level || (level == Global && Valid(l))) then Some(value) else Lookup(list, l, t)
  {
    hide Lookup;
    var first := Stored(list, level, kind, value);
    StoredLookup(list, level, kind, value, l, t);
    if level == Global {
      StoredLevelsLookup(first, kind, value, 7, l, t);
      StoredLevelsLookup(StoredLevels(first, kind, value, 7), kind, value, 7, l, t);
      assert Levels()[..7] == Levels();
      assert l in Levels() <==> l != Global && Valid(l) by { LevelsAre(l); }
    }
  }

  lemma LevelsAre(l: Level)
    ensures l in Levels() <==> l != Global && Valid(l)
  {
    assert Levels()[0] == Trace && Levels()[1] == Debug && Levels()[2] == Fatal && Levels()[3] == Error;
    assert Levels()[4] == Warning && Levels()[5] == Verbose && Levels()[6] == Info;
  }

  // ----- what every set keeps

  /** The first entry of a type */
  function FirstOf(list: seq<Entry>, kind: Type): Option<Entry> {
    if list == [] then None else if list[0].kind == kind then Some(list[0]) else FirstOf(list[1..], kind)
  }

  /** The entry registered first for a type is the Global one. */
  predicate GlobalFirst(list: seq<Entry>, kind: Type) {
    var e := FirstOf(list, kind);
    e.Some? && e.value.level == Global
  }

  lemma {:induction false} FirstOfStored(list: seq<Entry>, level: Level, kind: Type, value: string, t: Type)
    ensures var e := FirstOf(Stored(list, level, kind, value), t);
            if FirstOf(list, t).Some? then e.Some? && e.value.level == FirstOf(list, t).value.level
            else e == if t == kind then Some(Entry(level, kind, value)) else None
  {
    hide Find;
    StoredHead(list, level, kind, value);
    if list == [] {
    } else {
      var r := Stored(list, level, kind, value);
      if !For(list[0], level, kind) {
        FirstOfStored(list[1..], level, kind, value, t);
      }
    }
  }

  lemma StoredHead(list: seq<Entry>, level: Level, kind: Type, value: string)
    ensures var r := Stored(list, level, kind, value);
            if list == [] then r == [Entry(level, kind, value)]
            else if For(list[0], level, kind) then r == [Entry(level, kind, value)] + list[1..]
            else r == [list[0]] + Stored(list[1..], level, kind, value)
  {}

  lemma StoredDistinct(list: seq<Entry>, level: Level, kind: Type, value: string)
    requires Distinct(list)
    ensures Distinct(Stored(list, level, kind, value))
  {}

  /** Nothing is registered for the type, or Global was first. */
  predicate Orderly(list: seq<Entry>, kind: Type) {
    FirstOf(list, kind).None? || GlobalFirst(list, kind)
  }

  lemma {:induction false} StoredLevelsKeep(list: seq<Entry>, kind: Type, value: string, k: nat, t: Type)
    requires k <= 7 && Distinct(list)
    ensures Distinct(StoredLevels(list, kind, value, k))
    ensures GlobalFirst(list, t) ==> GlobalFirst(StoredLevels(list, kind, value, k), t)
    ensures Orderly(list, t) && t != kind ==> Orderly(StoredLevels(list, kind, value, k), t)
  {
    hide Stored, Distinct, FirstOf;
    if k == 0 {
    } else {
      StoredLevelsKeep(list, kind, value, k - 1, t);
      var before := StoredLevels(list, kind, value, k - 1);
      StoredDistinct(before, Levels()[k-1], kind, value);
      FirstOfStored(before, Levels()[k-1], kind, value, t);
    }
  }

  predicate SameFirst(before: seq<Entry>, after: seq<Entry>, kind: Type) {
    FirstOf(before, kind).Some? ==>
      FirstOf(after, kind).Some? && FirstOf(after, kind).value.level == FirstOf(before, kind).value.level
  }

  lemma {:induction false} StoredLevelsSameFirst(list: seq<Entry>, kind: Type, value: string, k: nat, t: Type)
    requires k <= 7
    ensures SameFirst(list, StoredLevels(list, kind, value, k), t)
  {
    hide Stored, FirstOf;
    if k == 0 {
    } else {
      StoredLevelsSameFirst(list, kind, value, k - 1, t);
      FirstOfStored(StoredLevels(list, kind, value, k - 1), Levels()[k-1], kind, value, t);
    }
  }

  /** The level registered first for a type stays the first. */
  lemma SetSameFirst(list: seq<Entry>, level: Level, kind: Type, value: string, t: Type)
    ensures SameFirst(list, AfterSet(list, level, kind, value), t)
  {
    hide Stored, FirstOf;
    var first := Stored(list, level, kind, value);
    FirstOfStored(list, level, kind, value, t);
    StoredLevelsSameFirst(first, kind, value, 7, t);
    StoredLevelsSameFirst(StoredLevels(first, kind, value, 7), kind, value, 7, t);
  }

  /** set keeps entries distinct and Global first; setting Global first makes it so. */
  lemma SetKeeps(list: seq<Entry>, level: Level, kind: Type, value: string, t: Type)
    requires Distinct(list)
    ensures Distinct(AfterSet(list, level, kind, value))
    ensures GlobalFirst(list, t) ==> GlobalFirst(AfterSet(list, level, kind, value), t)
    ensures Orderly(list, t) && t != kind ==> Orderly(AfterSet(list, level, kind, value), t)
    ensures Orderly(list, t) && level == Global && t == kind ==> GlobalFirst(AfterSet(list, level, kind, value), t)
  {
    hide Stored, Distinct, FirstOf;
    var first := Stored(list, level, kind, value);
    StoredDistinct(list, level, kind, value);
    FirstOfStored(list, level, kind, value, t);
    if level == Global {
      StoredLevelsKeep(first, kind, value, 7, t);
      StoredLevelsKeep(StoredLevels(first, kind, value, 7), kind, value, 7, t);
    }
  }

  /** Every valid level is registered for the type. */
  ghost predicate Complete(list: seq<Entry>, kind: Type) {
    forall l :: Valid(l) ==> Lookup(list, l, kind).Some?
  }

  lemma SetKeepsComplete(list: seq<Entry>, level: Level, kind: Type, value: string, t: Type)
    ensures Complete(list, t) || (level == Global && t == kind) ==> Complete(AfterSet(list, level, kind, value), t)
  {
    hide Lookup, AfterSet;
    forall l
      ensures Complete(list, t) || (level == Global && t == kind) ==>
          (Valid(l) ==> Lookup(AfterSet(list, level, kind, value), l, t).Some?)
    {
      SetLookup(list, level, kind, value, l, t);
    }
  }

  // ----- runs

  /** What holds of a type from setToDefault on */
  ghost predicate Ready(list: seq<Entry>, kind: Type) {
    Distinct(list) && GlobalFirst(list, kind) && Complete(list, kind)
  }

  lemma SetReady(list: seq<Entry>, level: Level, kind: Type, value: string, t: Type)
    requires Distinct(list)
    ensures Distinct(AfterSet(list, level, kind, value))
    ensures Ready(list, t) || (level == Global && t == kind && Orderly(list, t)) ==>
        Ready(AfterSet(list, level, kind, value), t)
    ensures Orderly(list, t) && t != kind ==> Orderly(AfterSet(list, level, kind, value), t)
  {
    hide AfterSet, Distinct, GlobalFirst, Complete, Orderly;
    SetKeeps(list, level, kind, value, t);
    SetKeepsComplete(list, level, kind, value, t);
  }

  lemma {:induction false} SetLevelsReady(list: seq<Entry>, kind: Type, value: string, k: nat, t: Type)
    requires k <= 7 && Distinct(list)
    ensures Distinct(SetLevels(list, kind, value, k))
    ensures Ready(list, t) ==> Ready(SetLevels(list, kind, value, k), t)
    ensures Orderly(list, t) && t != kind ==> Orderly(SetLevels(list, kind, value, k), t)
  {
    hide AfterSet, Distinct, Ready, Orderly;
    if k == 0 {
    } else {
      SetLevelsReady(list, kind, value, k - 1, t);
      SetReady(SetLevels(list, kind, value, k - 1), Levels()[k-1], kind, value, t);
    }
  }

  lemma {:induction false} DefaultedTypesReady(k: nat, t: Type)
    requires k <= 9
    ensures Distinct(DefaultedTypes([], k))
    ensures if exists i :: 0 <= i < k && Defaults()[i].0 == t then Ready(DefaultedTypes([], k), t)
            else Orderly(DefaultedTypes([], k), t)
  {
    hide AfterSet, Ready, SetLevels, Defaults;
    if k == 0 {
    } else {
      DefaultedTypesReady(k - 1, t);
      var before := DefaultedTypes([], k - 1);
      var (kind, value) := Defaults()[k-1];
      var first := AfterSet(before, Global, kind, value);
      SetReady(before, Global, kind, value, t);
      SetLevelsReady(first, kind, value, 7, t);
      if t == kind && exists i :: 0 <= i < k - 1 && Defaults()[i].0 == t {
        assert Ready(before, t);
      }
    }
  }

  lemma {:induction false} DefaultedFormatsReady(k: nat, t: Type)
    requires k <= 5 && t != UnknownType
    ensures Ready(DefaultedFormats([], k), t)
  {
    hide AfterSet, Ready, SetLevels;
    if k == 0 {
      DefaultedTypesReady(9, t);
      EveryTypeHasDefault(t);
    } else {
      DefaultedFormatsReady(k - 1, t);
      DistinctWhenReady(DefaultedFormats([], k - 1), t);
      SetReady(DefaultedFormats([], k - 1), DefaultFormats()[k-1].0, Format, DefaultFormats()[k-1].1, t);
    }
  }

  lemma DistinctWhenReady(list: seq<Entry>, t: Type)
    requires Ready(list, t)
    ensures Distinct(list)
  {}

  lemma EveryTypeHasDefault(t: Type)
    requires t != UnknownType
    ensures exists i :: 0 <= i < 9 && Defaults()[i].0 == t
  {
    assert Defaults()[0].0 == Enabled && Defaults()[1].0 == Filename && Defaults()[2].0 == ToFile;
    assert Defaults()[3].0 == ToStandardOutput && Defaults()[4].0 == SubsecondPrecision;
    assert Defaults()[5].0 == PerformanceTracking && Defaults()[6].0 == MaxLogFileSize;
    assert Defaults()[7].0 == LogFlushThreshold && Defaults()[8].0 == Format;
  }

  /** The list after setToDefault and any calls of set */
  function AfterRun(calls: seq<Entry>): seq<Entry> {
    if calls == [] then Defaulted([])
    else
      var k := |calls| - 1;
      AfterSet(AfterRun(calls[..k]), calls[k].level, calls[k].kind, calls[k].value)
  }

  /** In every such run entries are distinct, Global is first for its type, and every
      valid level has a value. */
  lemma {:induction false} RunIsReady(calls: seq<Entry>, t: Type)
    requires t != UnknownType
    ensures Ready(AfterRun(calls), t)
  {
    hide AfterSet, Ready, Defaulted;
    if calls == [] {
      DefaultedFormatsReady(5, t);
      DefaultedIs();
    } else {
      var k := |calls| - 1;
      RunIsReady(calls[..k], t);
      DistinctWhenReady(AfterRun(calls[..k]), t);
      SetReady(AfterRun(calls[..k]), calls[k].level, calls[k].kind, calls[k].value, t);
    }
  }

  lemma DefaultedIs()
    ensures Defaulted([]) == DefaultedFormats([], 5)
  {}

  // ----- the defaults

  /** What setToDefault leaves for a level and a type */
  function DefaultValue(level: Level, kind: Type): string {
    match kind
    case Filename => "ASV.log"
    case SubsecondPrecision => "3"
    case MaxLogFileSize => "0"
    case LogFlushThreshold => "0"
    case Format =>
      if level == Debug then "%datetime %level [%logger] [%user@%host] [%func] [%loc] %msg"
      else if level == Verbose then "%datetime %level-%vlevel [%logger] %msg"
      else if level == Trace then "%datetime %level [%logger] [%func] [%loc] %msg"
      else "%datetime %level [%logger] %msg"
    case _ => "true"
  }

  lemma {:induction false} SetLevelsLookup(list: seq<Entry>, kind: Type, value: string, k: nat, l: Level, t: Type)
    requires k <= 7
    ensures Lookup(SetLevels(list, kind, value, k), l, t)
         == if t == kind && l in Levels()[..k] then Some(value) else Lookup(list, l, t)
  {
    hide Lookup, AfterSet;
    if k == 0 {
    } else {
      SetLevelsLookup(list, kind, value, k - 1, l, t);
      SetLookup(SetLevels(list, kind, value, k - 1), Levels()[k-1], kind, value, l, t);
      LevelsAre(Levels()[k-1]);
      assert Levels()[..k] == Levels()[..k-1] + [Levels()[k-1]];
    }
  }

  lemma SetGloballyLookup(list: seq<Entry>, kind: Type, value: string, l: Level, t: Type)
    requires Valid(l)
    ensures Lookup(AfterSetGlobally(list, kind, value), l, t)
         == if t == kind then Some(value) else Lookup(list, l, t)
  {
    hide Lookup, AfterSet, SetLevels;
    SetLevelsLookup(AfterSet(list, Global, kind, value), kind, value, 7, l, t);
    SetLookup(list, Global, kind, value, l, t);
  }

  /** Every type is set once. */
  lemma DefaultsDiffer(i: nat, j: nat)
    requires i < j < 9
    ensures Defaults()[i].0 != Defaults()[j].0
  {}

  lemma {:induction false} DefaultedTypesLookup(list: seq<Entry>, k: nat, i: nat, l: Level)
    requires i < k <= 9 && Valid(l)
    ensures Lookup(DefaultedTypes(list, k), l, Defaults()[i].0) == Some(Defaults()[i].1)
  {
    hide Lookup, AfterSetGlobally, Defaults;
    SetGloballyLookup(DefaultedTypes(list, k - 1), Defaults()[k-1].0, Defaults()[k-1].1, l, Defaults()[i].0);
    if i < k - 1 {
      DefaultsDiffer(i, k - 1);
      DefaultedTypesLookup(list, k - 1, i, l);
    }
  }

  /** The later of the first k formats decides. */
  function FormatAfter(k: nat, l: Level, before: string): string
    requires k <= 5
  {
    if k == 0 then before
    else if DefaultFormats()[k-1].0 == l then DefaultFormats()[k-1].1
    else FormatAfter(k - 1, l, before)
  }

  lemma {:induction false} DefaultedFormatsLookup(list: seq<Entry>, k: nat, i: nat, l: Level)
    requires k <= 5 && i < 9 && Valid(l)
    ensures var (t, value) := Defaults()[i];
            Lookup(DefaultedFormats(list, k), l, t) == Some(if t == Format then FormatAfter(k, l, value) else value)
  {
    hide Lookup, AfterSet, Defaults, DefaultFormats;
    if k == 0 {
      DefaultedTypesLookup(list, 9, i, l);
    } else {
      DefaultedFormatsLookup(list, k - 1, i, l);
      var (level, value) := DefaultFormats()[k-1];
      FormatsAreNotGlobal(k - 1);
      SetLookup(DefaultedFormats(list, k - 1), level, Format, value, l, Defaults()[i].0);
    }
  }

  lemma FormatsAreNotGlobal(i: nat)
    requires i < 5
    ensures DefaultFormats()[i].0 != Global
  {}

  /** The value of every level and type after setToDefault, whatever was registered before */
  lemma DefaultsAre(list: seq<Entry>, l: Level, t: Type)
    requires Valid(l) && t != UnknownType
    ensures Lookup(Defaulted(list), l, t) == Some(DefaultValue(l, t))
  {
    hide Lookup, DefaultedFormats, FormatAfter;
    EveryTypeHasDefault(t);
    var i :| 0 <= i < 9 && Defaults()[i].0 == t;
    DefaultedFormatsLookup(list, 5, i, l);
    FormatsAre(l);
    DefaultAt(i);
  }

  lemma DefaultAt(i: nat)
    requires i < 9
    ensures var (t, value) := Defaults()[i];
            if t == Format then value == "%datetime %level [%logger] %msg"
            else forall l :: DefaultValue(l, t) == value
  {
    assert Defaults()[i] in Defaults();
  }

  lemma FormatsAre(l: Level)
    ensures FormatAfter(5, l, "%datetime %level [%logger] %msg") == DefaultValue(l, Format)
  {
    var f := DefaultFormats();
    assert f[0].0 == Debug && f[1].0 == Error && f[2].0 == Fatal && f[3].0 == Verbose && f[4].0 == Trace;
  }
}
