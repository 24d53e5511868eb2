/**
 Applying the logging options to the registered scopes: entries are processed in order, a
 global override replaces everything, and the first malformed or unknown entry stops.
 */
module LogConfig {
  import opened Strings
  import opened LogOptions

  datatype Setting = Output | StackTrace

  /** The settings of one scope. */
  datatype Config = Config(outputLevel: Level, stackTraceLevel: Level, logCallers: bool) {
    function With(which: Setting, l: Level): Config {
      if which.Output? then this.(outputLevel := l) else this.(stackTraceLevel := l)
    }
  }

  type Settings = map<string, Config>

  class Scope {
    var outputLevel: Level
    var stackTraceLevel: Level
    var logCallers: bool

    constructor ()
      ensures Value() == Config(InfoLevel, NoneLevel, false)
    {
      outputLevel, stackTraceLevel, logCallers := InfoLevel, NoneLevel, false;
    }

    function Value(): Config
      reads this
    {
      Config(outputLevel, stackTraceLevel, logCallers)
    }

    method SetOutputLevel(l: Level)
      modifies this
      ensures Value() == old(Value()).With(Output, l)
    {
      outputLevel := l;
    }

    method SetStackTraceLevel(l: Level)
      modifies this
      ensures Value() == old(Value()).With(StackTrace, l)
    {
      stackTraceLevel := l;
    }

    method SetLogCallers(on: bool)
      modifies this
      ensures Value() == old(Value()).(logCallers := on)
    {
      logCallers := on;
    }
  }

  datatype Failure = BadEntry(why: Conversion) | UnknownScope(name: string)

  datatype Outcome = Outcome(settings: Settings, error: Option<Failure>)

  /** Scopes are registered one object per name. */
  ghost predicate Registry(scopes: map<string, Scope>) {
    forall a, b :: a in scopes && b in scopes && a != b ==> scopes[a] != scopes[b]
  }

  /** The settings all registered scopes hold. */
  ghost predicate Hold(scopes: map<string, Scope>, settings: Settings)
    reads scopes.Values
  {
    settings.Keys == scopes.Keys && forall name :: name in scopes ==> scopes[name].Value() == settings[name]
  }

  /** Every scope takes the level. */
  function AllTo(settings: Settings, which: Setting, l: Level): Settings {
    map name | name in settings :: settings[name].With(which, l)
  }

  /** What processing the entries does to the settings of the registered scopes. */
  function Process(settings: Settings, which: Setting, entries: seq<string>): Outcome {
    if entries == [] then Outcome(settings, None)
    else
      match ConvertScopedLevel(entries[0])
      case Scoped(name, level) =>
        if name in settings then Process(settings[name := settings[name].With(which, level)], which, entries[1..])
        else if name == OVERRIDE_SCOPE then Outcome(AllTo(settings, which, level), None)
        else Outcome(settings, Some(UnknownScope(name)))
      case why => Outcome(settings, Some(BadEntry(why)))
  }

  function AllCallers(settings: Settings): Settings {
    map name | name in settings :: settings[name].(logCallers := true)
  }

  function ProcessCallers(settings: Settings, entries: seq<string>): Outcome {
    if entries == [] then Outcome(settings, None)
    else if entries[0] == "" then ProcessCallers(settings, entries[1..])
    else if entries[0] == OVERRIDE_SCOPE then Outcome(AllCallers(settings), None)
    else if entries[0] in settings then
      ProcessCallers(settings[entries[0] := settings[entries[0]].(logCallers := true)], entries[1..])
    else Outcome(settings, Some(UnknownScope(entries[0])))
  }

  /** The setter closure that `updateScopes` hands to `processLevels`, on one registered scope. */
  method Apply(scopes: map<string, Scope>, name: string, which: Setting, l: Level, ghost settings: Settings)
    requires Registry(scopes) && name in scopes && Hold(scopes, settings)
    modifies scopes.Values
    ensures Hold(scopes, settings[name := settings[name].With(which, l)])
  {
    if which.Output? {
      scopes[name].SetOutputLevel(l);
    } else {
      scopes[name].SetStackTraceLevel(l);
    }
  }

  method ApplyCallers(scopes: map<string, Scope>, name: string, ghost settings: Settings)
    requires Registry(scopes) && name in scopes && Hold(scopes, settings)
    modifies scopes.Values
    ensures Hold(scopes, settings[name := settings[name].(logCallers := true)])
  {
    scopes[name].SetLogCallers(true);
  }

  /** The loop over all scopes that an override runs. */
  method ApplyToAll(scopes: map<string, Scope>, which: Setting, l: Level, ghost settings: Settings)
    requires Registry(scopes) && Hold(scopes, settings)
    modifies scopes.Values
    ensures Hold(scopes, AllTo(settings, which, l))
  {
    hide Hold, Registry, Config.With;
    SameNames(scopes, settings);
    var names := scopes.Keys;
    ghost var current := settings;
    while names != {}
      invariant names <= scopes.Keys && Hold(scopes, current) && current.Keys == settings.Keys
      invariant forall name :: name in settings ==>
        current[name] == if name in names then settings[name] else settings[name].With(which, l)
      decreases |names|
    {
      var name :| name in names;
      Apply(scopes, name, which, l, current);
      current := current[name := current[name].With(which, l)];
      names := names - {name};
    }
    assert current == AllTo(settings, which, l);
  }

  method CallersToAll(scopes: map<string, Scope>, ghost settings: Settings)
    requires Registry(scopes) && Hold(scopes, settings)
    modifies scopes.Values
    ensures Hold(scopes, AllCallers(settings))
  {
    hide Hold, Registry, Config.With;
    SameNames(scopes, settings);
    var names := scopes.Keys;
    ghost var current := settings;
    while names != {}
      invariant names <= scopes.Keys && Hold(scopes, current) && current.Keys == settings.Keys
      invariant forall name :: name in settings ==>
        current[name] == if name in names then settings[name] else settings[name].(logCallers := true)
      decreases |names|
    {
      var name :| name in names;
      ApplyCallers(scopes, name, current);
      current := current[name := current[name].(logCallers := true)];
      names := names - {name};
    }
    assert current == AllCallers(settings);
  }

  method ProcessLevels(scopes: map<string, Scope>, arg: string, which: Setting, ghost settings: Settings)
    returns (error: Option<Failure>)
    requires Registry(scopes) && Hold(scopes, settings)
    modifies scopes.Values
    ensures Hold(scopes, Process(settings, which, Split(arg, ',')).settings)
    ensures error == Process(settings, which, Split(arg, ',')).error
  {
    hide Hold, ConvertScopedLevel, Registry, AllTo;
    var levels := Split(arg, ',');
    ghost var current := settings;
    SameNames(scopes, settings);
    for i := 0 to |levels|
      invariant Hold(scopes, current) && current.Keys == scopes.Keys
      invariant Process(current, which, levels[i..]) == Process(settings, which, levels)
    {
      assert levels[i..][0] == levels[i] && levels[i..][1..] == levels[i + 1..];
      var converted := ConvertScopedLevel(levels[i]);
      if !converted.Scoped? {
        return Some(BadEntry(converted));
      }
      var s, l := converted.scope, converted.level;
      if s in scopes {
        Apply(scopes, s, which, l, current);
        current := current[s := current[s].With(which, l)];
      } else if s == OVERRIDE_SCOPE {
        ApplyToAll(scopes, which, l, current);
        return None;
      } else {
        return Some(UnknownScope(s));
      }
    }
    assert levels[|levels|..] == [];
    return None;
  }

  lemma SameNames(scopes: map<string, Scope>, settings: Settings)
    requires Hold(scopes, settings)
    ensures settings.Keys == scopes.Keys
  {
  }

  /** What configuring does: output levels, stack trace levels, then callers, up to the first failure. */
  function Update(settings: Settings, outputs: string, stacks: string, callers: string): Outcome {
    var first := Process(settings, Output, Split(outputs, ','));
    if first.error.Some? then first
    else
      var second := Process(first.settings, StackTrace, Split(stacks, ','));
      if second.error.Some? then second else ProcessCallers(second.settings, Split(callers, ','))
  }

  method UpdateScopes(scopes: map<string, Scope>, options: Options, ghost settings: Settings)
    returns (error: Option<Failure>)
    requires Registry(scopes) && Hold(scopes, settings)
    modifies scopes.Values
    ensures Hold(scopes, Update(settings, options.outputLevels, options.stackTraceLevels, options.logCallers).settings)
    ensures error == Update(settings, options.outputLevels, options.stackTraceLevels, options.logCallers).error
  {
    hide Hold, Process, Registry, AllCallers, Split;
    ghost var first := Process(settings, Output, Split(options.outputLevels, ','));
    error := ProcessLevels(scopes, options.outputLevels, Output, settings);
    if error.Some? {
      return;
    }
    ghost var current := Process(first.settings, StackTrace, Split(options.stackTraceLevels, ',')).settings;
    error := ProcessLevels(scopes, options.stackTraceLevels, StackTrace, first.settings);
    if error.Some? {
      return;
    }
    var sc := Split(options.logCallers, ',');
    ghost var before := current;
    SameNames(scopes, current);
    for i := 0 to |sc|
      invariant Hold(scopes, current) && current.Keys == scopes.Keys
      invariant ProcessCallers(current, sc[i..]) == ProcessCallers(before, sc)
    {
      assert sc[i..][0] == sc[i] && sc[i..][1..] == sc[i + 1..];
      if sc[i] == "" {
        continue;
      }
      if sc[i] == OVERRIDE_SCOPE {
        CallersToAll(scopes, current);
        return None;
      }
      if sc[i] in scopes {
        ApplyCallers(scopes, sc[i], current);
        current := current[sc[i] := current[sc[i]].(logCallers := true)];
      } else {
        return Some(UnknownScope(sc[i]));
      }
    }
    assert sc[|sc|..] == [];
    return None;
  }

  // ---------------------------------------------------------------- what the options promise

  /** An entry that names a registered scope and a level. */
  predicate Applies(settings: Settings, entry: string) {
    var c := ConvertScopedLevel(entry);
    c.Scoped? && c.scope in settings
  }

  function LevelIn(entry: string): Level {
    var c := ConvertScopedLevel(entry);
    if c.Scoped? then c.level else NoneLevel
  }

  lemma ConversionNamesTheKey(entry: string)
    ensures ConvertScopedLevel(entry).Scoped? ==> ConvertScopedLevel(entry).scope == KeyOf(entry)
  {
    if Bare(entry) {
      SplitHead(entry, "", ':');
    } else if |Split(entry, ':')| == 1 {
      JoinSplit(entry, ':');
    }
  }

  /** Entries one per scope, all naming registered scopes: each scope ends with its entry's level, the rest stay. */
  lemma {:induction false} EntriesApply(settings: Settings, which: Setting, entries: seq<string>, name: string)
    requires Distinct(entries) && name in settings
    requires forall i :: 0 <= i < |entries| ==> Applies(settings, entries[i])
    ensures var result := Process(settings, which, entries);
      result.error.None? && result.settings.Keys == settings.Keys
    ensures forall i :: 0 <= i < |entries| && KeyOf(entries[i]) == name ==>
      Process(settings, which, entries).settings[name] == settings[name].With(which, LevelIn(entries[i]))
    ensures (forall i :: 0 <= i < |entries| ==> KeyOf(entries[i]) != name) ==>
      Process(settings, which, entries).settings[name] == settings[name]
  {
    hide ConvertScopedLevel, KeyOf;
    if entries != [] {
      var c, rest := ConvertScopedLevel(entries[0]), entries[1..];
      ConversionNamesTheKey(entries[0]);
      assert Applies(settings, entries[0]);
      var next := settings[c.scope := settings[c.scope].With(which, c.level)];
      assert next.Keys == settings.Keys;
      assert forall i :: 0 <= i < |rest| ==> rest[i] == entries[i + 1] && Applies(next, rest[i]);
      EntriesApply(next, which, rest, name);
      assert forall i :: 0 < i < |entries| ==> entries[i] == rest[i - 1];
    }
  }

  /** The scopes an option string has a valid entry for. */
  ghost predicate AllApply(settings: Settings, s: string) {
    forall i :: 0 <= i < |Split(s, ',')| ==> Applies(settings, Split(s, ',')[i])
  }

  /**
   Applying agrees with asking: when every entry applies, each registered scope ends with the
   level the getter reports for it, and a scope without an entry keeps its own.
   */
  lemma {:induction false} AppliedLevelsAreTheOptions(settings: Settings, which: Setting, s: string, name: string)
    requires OneEntryPerScope(s) && AllApply(settings, s) && name in settings && ':' !in name
    ensures var result := Process(settings, which, Split(s, ','));
      result.error.None? && result.settings.Keys == settings.Keys && result.settings[name] ==
        if GetLevel(s, name).Found? then settings[name].With(which, GetLevel(s, name).level) else settings[name]
  {
    hide ConvertScopedLevel, KeyOf, Slot;
    var entries := Split(s, ',');
    EntriesApply(settings, which, entries, name);
    SlotIsTheEntry(entries, name);
    var k := Slot(entries, name);
    if k < |entries| {
      assert Applies(settings, entries[k]);
    }
  }

  /** Without an override entry, processing succeeds exactly when every entry applies. */
  lemma {:induction false} SucceedsIffAllApply(settings: Settings, which: Setting, entries: seq<string>)
    requires forall i :: 0 <= i < |entries| ==> Overrides(settings, entries[i]).None?
    ensures Process(settings, which, entries).error.None? <==>
      forall i :: 0 <= i < |entries| ==> Applies(settings, entries[i])
  {
    hide ConvertScopedLevel;
    if entries != [] {
      var c, rest := ConvertScopedLevel(entries[0]), entries[1..];
      assert Overrides(settings, entries[0]).None?;
      assert forall i :: 0 <= i < |rest| ==> rest[i] == entries[i + 1];
      assert forall i :: 0 < i < |entries| ==> entries[i] == rest[i - 1];
      if Applies(settings, entries[0]) {
        var next := settings[c.scope := settings[c.scope].With(which, c.level)];
        assert next.Keys == settings.Keys;
        assert forall i :: 0 <= i < |rest| ==> Overrides(next, rest[i]).None?;
        assert forall i :: 0 <= i < |rest| ==> Applies(next, rest[i]) == Applies(settings, rest[i]);
        SucceedsIffAllApply(next, which, rest);
      }
    }
  }

  /** The level a global override entry carries; `all` overrides only while no scope is registered under that name. */
  function Overrides(settings: Settings, entry: string): Option<Level> {
    var c := ConvertScopedLevel(entry);
    if c.Scoped? && c.scope == OVERRIDE_SCOPE && c.scope !in settings then Some(c.level) else None
  }

  /** An override that is reached decides everything: what stood before it and what follows, even malformed, is lost. */
  lemma {:induction false} OverrideDecides(settings: Settings, which: Setting, before: seq<string>, entry: string,
                                           after: seq<string>)
    requires forall i :: 0 <= i < |before| ==> Applies(settings, before[i])
    requires Overrides(settings, entry).Some?
    ensures Process(settings, which, before + [entry] + after) ==
      Outcome(AllTo(settings, which, Overrides(settings, entry).value), None)
  {
    hide ConvertScopedLevel;
    var entries := before + [entry] + after;
    if before != [] {
      var c, rest := ConvertScopedLevel(before[0]), before[1..];
      assert Applies(settings, before[0]) && entries[1..] == rest + [entry] + after;
      var next := settings[c.scope := settings[c.scope].With(which, c.level)];
      assert next.Keys == settings.Keys;
      assert forall i :: 0 <= i < |rest| ==> rest[i] == before[i + 1] && Applies(next, rest[i]);
      OverrideDecides(next, which, rest, entry, after);
      assert AllTo(next, which, Overrides(settings, entry).value)
        == AllTo(settings, which, Overrides(settings, entry).value);
    }
  }

  /** When processing callers succeeds, a scope logs its caller if it did before, is listed, or `all` is listed. */
  lemma {:induction false} AppliedCallersAreTheOptions(settings: Settings, entries: seq<string>, name: string)
    requires name in settings && name != "" && ProcessCallers(settings, entries).error.None?
    ensures name in ProcessCallers(settings, entries).settings
    ensures ProcessCallers(settings, entries).settings[name] ==
      settings[name].(logCallers := settings[name].logCallers || name in entries || OVERRIDE_SCOPE in entries)
  {
    if entries != [] {
      var head, rest := entries[0], entries[1..];
      assert entries == [head] + rest;
      if head == "" {
        AppliedCallersAreTheOptions(settings, rest, name);
      } else if head != OVERRIDE_SCOPE {
        AppliedCallersAreTheOptions(settings[head := settings[head].(logCallers := true)], rest, name);
      }
    }
  }

  // ---------------------------------------------------------------- all settings together

  /** Setting one level changes that level of a scope and nothing else. */
  lemma WithSetsOne(c: Config, l: Level)
    ensures c.With(Output, l) == Config(l, c.stackTraceLevel, c.logCallers)
    ensures c.With(StackTrace, l) == Config(c.outputLevel, l, c.logCallers)
  {
  }

  /** An override gives every scope its level. */
  lemma OverrideReachesAll(settings: Settings, which: Setting, l: Level)
    ensures AllTo(settings, which, l).Keys == settings.Keys
    ensures forall name :: name in settings ==> AllTo(settings, which, l)[name] == settings[name].With(which, l)
  {
  }

  /** The first entry that does not apply stops the processing; what stood before it stays applied. */
  lemma {:induction false} FailureStops(settings: Settings, which: Setting, before: seq<string>, entry: string,
                                        after: seq<string>)
    requires forall i :: 0 <= i < |before| ==> Applies(settings, before[i])
    requires !Applies(settings, entry) && Overrides(settings, entry).None?
    ensures var result := Process(settings, which, before + [entry] + after);
      result.error.Some? && result.settings == Process(settings, which, before).settings &&
      result.error.value == Complaint(entry)
  {
    hide ConvertScopedLevel;
    var entries := before + [entry] + after;
    if before != [] {
      var c, rest := ConvertScopedLevel(before[0]), before[1..];
      assert Applies(settings, before[0]) && entries[1..] == rest + [entry] + after;
      var next := settings[c.scope := settings[c.scope].With(which, c.level)];
      assert next.Keys == settings.Keys;
      assert forall i :: 0 <= i < |rest| ==> rest[i] == before[i + 1] && Applies(next, rest[i]);
      FailureStops(next, which, rest, entry, after);
    }
  }

  function Complaint(entry: string): Failure {
    var c := ConvertScopedLevel(entry);
    if c.Scoped? then UnknownScope(c.scope) else BadEntry(c)
  }

  /** Without `all` among them, callers apply exactly when every one named is registered. */
  lemma {:induction false} CallersSucceedIff(settings: Settings, entries: seq<string>)
    requires OVERRIDE_SCOPE !in entries
    ensures ProcessCallers(settings, entries).error.None? <==>
      forall name :: name in entries && name != "" ==> name in settings
  {
    if entries != [] {
      var head, rest := entries[0], entries[1..];
      assert entries == [head] + rest;
      if head == "" {
        CallersSucceedIff(settings, rest);
      } else if head in settings {
        var next := settings[head := settings[head].(logCallers := true)];
        assert next.Keys == settings.Keys;
        CallersSucceedIff(next, rest);
      }
    }
  }

  /** The level an option string has for the scope, or else the one it had. */
  function LevelFor(s: string, name: string, otherwise: Level): Level {
    if GetLevel(s, name).Found? then GetLevel(s, name).level else otherwise
  }

  /**
   Configuring with options that all apply: every scope ends with the output level and the stack
   trace level the getters report for it, and logs its caller if it did, is listed, or `all` is.
   */
  lemma {:induction false} UpdatedScopesAreTheOptions(settings: Settings, outputs: string, stacks: string,
                                                      callers: string, name: string)
    requires OneEntryPerScope(outputs) && AllApply(settings, outputs)
    requires OneEntryPerScope(stacks) && AllApply(settings, stacks)
    requires name in settings && ':' !in name && name != ""
    ensures var result, listed := Update(settings, outputs, stacks, callers), Split(callers, ',');
      result.error.None? ==>
        name in result.settings && result.settings[name] ==
          Config(LevelFor(outputs, name, settings[name].outputLevel),
                 LevelFor(stacks, name, settings[name].stackTraceLevel),
                 settings[name].logCallers || name in listed || OVERRIDE_SCOPE in listed)
    ensures OVERRIDE_SCOPE !in Split(callers, ',') ==>
      (Update(settings, outputs, stacks, callers).error.None? <==>
       forall n :: n in Split(callers, ',') && n != "" ==> n in settings)
  {
    hide Process, ProcessCallers, Split, GetLevel, OneEntryPerScope;
    AppliedLevelsAreTheOptions(settings, Output, outputs, name);
    var first := Process(settings, Output, Split(outputs, ',')).settings;
    assert forall entry :: Applies(settings, entry) == Applies(first, entry);
    AppliedLevelsAreTheOptions(first, StackTrace, stacks, name);
    var second := Process(first, StackTrace, Split(stacks, ',')).settings;
    if ProcessCallers(second, Split(callers, ',')).error.None? {
      AppliedCallersAreTheOptions(second, Split(callers, ','), name);
    }
    if OVERRIDE_SCOPE !in Split(callers, ',') {
      CallersSucceedIff(second, Split(callers, ','));
    }
  }

  /** An option string that fails leaves the settings after it alone: output levels come first, then stack traces. */
  lemma {:induction false} FailedUpdateStops(settings: Settings, outputs: string, stacks: string, callers: string)
    ensures var first := Process(settings, Output, Split(outputs, ','));
      first.error.Some? ==> Update(settings, outputs, stacks, callers) == first
    ensures var first := Process(settings, Output, Split(outputs, ','));
      var second := Process(first.settings, StackTrace, Split(stacks, ','));
      first.error.None? && second.error.Some? ==> Update(settings, outputs, stacks, callers) == second
    ensures forall name :: name in settings ==>
      name in Process(settings, Output, Split(outputs, ',')).settings &&
      var after := Process(settings, Output, Split(outputs, ',')).settings[name];
      after.stackTraceLevel == settings[name].stackTraceLevel && after.logCallers == settings[name].logCallers
  {
    hide Split;
    forall name | name in settings
      ensures name in Process(settings, Output, Split(outputs, ',')).settings
      ensures var after := Process(settings, Output, Split(outputs, ',')).settings[name];
        after.stackTraceLevel == settings[name].stackTraceLevel && after.logCallers == settings[name].logCallers
    {
      OthersStay(settings, Split(outputs, ','), name);
    }
  }

  lemma {:induction false} OthersStay(settings: Settings, entries: seq<string>, name: string)
    requires name in settings
    ensures name in Process(settings, Output, entries).settings
    ensures var after := Process(settings, Output, entries).settings[name];
      after.stackTraceLevel == settings[name].stackTraceLevel && after.logCallers == settings[name].logCallers
  {
    hide ConvertScopedLevel;
    if entries != [] {
      var c := ConvertScopedLevel(entries[0]);
      if c.Scoped? && c.scope in settings {
        OthersStay(settings[c.scope := settings[c.scope].With(Output, c.level)], entries[1..], name);
      }
    }
  }
}
