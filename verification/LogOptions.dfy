/**
 The logging options: a map from scope to level kept as the string `scope:level,scope:level`,
 and a set of scopes kept as `scope,scope`, both edited by splitting, replacing a slot and joining.
 */
module LogOptions {
  import opened Strings

  const DEFAULT_SCOPE := "default"
  const OVERRIDE_SCOPE := "all"

  datatype Level = NoneLevel | FatalLevel | ErrorLevel | WarnLevel | InfoLevel | DebugLevel

  function StringToLevel(name: string): Option<Level> {
    if name == "debug" then Some(DebugLevel) else if name == "info" then Some(InfoLevel)
    else if name == "warn" then Some(WarnLevel) else if name == "error" then Some(ErrorLevel)
    else if name == "fatal" then Some(FatalLevel) else if name == "none" then Some(NoneLevel)
    else None
  }

  function LevelToString(level: Level): string {
    match level
    case DebugLevel => "debug"
    case InfoLevel => "info"
    case WarnLevel => "warn"
    case ErrorLevel => "error"
    case FatalLevel => "fatal"
    case NoneLevel => "none"
  }

  /** The two tables of level names are inverse to each other. */
  lemma LevelNames(name: string, level: Level)
    ensures StringToLevel(name) == Some(level) <==> name == LevelToString(level)
  {
  }

  datatype Conversion = Scoped(scope: string, level: Level) | BadFormat | BadLevel

  function ConvertScopedLevel(sl: string): Conversion {
    var pieces := Split(sl, ':');
    if |pieces| > 2 then BadFormat
    else
      var level := StringToLevel(pieces[|pieces| - 1]);
      if level.None? then BadLevel
      else Scoped(if |pieces| == 1 then DEFAULT_SCOPE else pieces[0], level.value)
  }

  /** The answer of a level getter: a level or one of its three errors. */
  datatype Answer = Found(level: Level) | Rejected(why: Conversion) | NoLevel

  function ToAnswer(c: Conversion): Answer {
    if c.Scoped? then Found(c.level) else Rejected(c)
  }

  /** Scope names and levels the string encoding can carry. */
  predicate Plain(s: string) { ':' !in s && ',' !in s }

  predicate Bare(entry: string) { ':' !in entry }

  predicate IsFor(entry: string, scope: string) { HasPrefix(entry, scope + ":") }

  /** The first index from `i` on whose entry satisfies `p`, else the length. */
  function FirstBare(levels: seq<string>, i: nat): (k: nat)
    requires i <= |levels|
    ensures i <= k <= |levels| && (k < |levels| ==> Bare(levels[k])) && forall j :: i <= j < k ==> !Bare(levels[j])
    decreases |levels| - i
  {
    if i == |levels| || Bare(levels[i]) then i else FirstBare(levels, i + 1)
  }

  function FirstFor(levels: seq<string>, scope: string, i: nat): (k: nat)
    requires i <= |levels|
    ensures i <= k <= |levels| && (k < |levels| ==> IsFor(levels[k], scope))
    ensures forall j :: i <= j < k ==> !IsFor(levels[j], scope)
    decreases |levels| - i
  {
    if i == |levels| || IsFor(levels[i], scope) then i else FirstFor(levels, scope, i + 1)
  }

  /** The slot both setter and getter work on: an unprefixed entry stands for the default scope and comes first. */
  function Slot(levels: seq<string>, scope: string): (k: nat)
    ensures k <= |levels|
  {
    if scope == DEFAULT_SCOPE && FirstBare(levels, 0) < |levels| then FirstBare(levels, 0)
    else FirstFor(levels, scope, 0)
  }

  function SetEntry(levels: seq<string>, scope: string, sl: string): seq<string> {
    var k := Slot(levels, scope);
    if k < |levels| then levels[k := sl] else levels + [sl]
  }

  function SetLevel(s: string, scope: string, level: string): string {
    Join(SetEntry(Split(s, ','), scope, scope + ":" + level), ",")
  }

  function GetEntry(levels: seq<string>, scope: string): Answer {
    var k := Slot(levels, scope);
    if k < |levels| then ToAnswer(ConvertScopedLevel(levels[k])) else NoLevel
  }

  function GetLevel(s: string, scope: string): Answer {
    GetEntry(Split(s, ','), scope)
  }

  // ---------------------------------------------------------------- callers

  function Cleared(scopes: seq<string>, scope: string): (cleared: seq<string>)
    ensures |cleared| == |scopes|
    ensures forall i :: 0 <= i < |scopes| ==> cleared[i] == if scopes[i] == scope then "" else scopes[i]
  {
    if scopes == [] then []
    else [if scopes[0] == scope then "" else scopes[0]] + Cleared(scopes[1..], scope)
  }

  function FirstFree(scopes: seq<string>, i: nat): (k: nat)
    requires i <= |scopes|
    ensures i <= k <= |scopes| && (k < |scopes| ==> scopes[k] == "")
    ensures forall j :: i <= j < k ==> scopes[j] != ""
    decreases |scopes| - i
  {
    if i == |scopes| || scopes[i] == "" then i else FirstFree(scopes, i + 1)
  }

  function SetCaller(scopes: seq<string>, scope: string, include_: bool): seq<string> {
    var cleared := Cleared(scopes, scope);
    var k := FirstFree(cleared, 0);
    if !include_ then cleared else if k < |cleared| then cleared[k := scope] else cleared + [scope]
  }

  function SetCallers(s: string, scope: string, include_: bool): string {
    Join(SetCaller(Split(s, ','), scope, include_), ",")
  }

  predicate HasCaller(s: string, scope: string) { scope in Split(s, ',') }

  // ---------------------------------------------------------------- the options object

  class Options {
    var outputLevels: string
    var logCallers: string
    var stackTraceLevels: string

    /** `DefaultOptions`. */
    constructor ()
      ensures outputLevels == "default:info" && stackTraceLevels == "default:none" && logCallers == ""
    {
      outputLevels, stackTraceLevels, logCallers := "default:info", "default:none", "";
    }

    method SetOutputLevel(scope: string, level: string) returns (ok: bool)
      modifies this`outputLevels
      ensures ok == StringToLevel(level).Some?
      ensures outputLevels == if ok then SetLevel(old(outputLevels), scope, level) else old(outputLevels)
    {
      if StringToLevel(level).None? {
        return false;
      }
      outputLevels := Replace(outputLevels, scope, level);
      return true;
    }

    method SetStackTraceLevel(scope: string, level: string)
      modifies this`stackTraceLevels
      ensures stackTraceLevels == SetLevel(old(stackTraceLevels), scope, level)
    {
      stackTraceLevels := Replace(stackTraceLevels, scope, level);
    }

    /** The slot search and replacement the two setters share word for word. */
    static method Replace(s: string, scope: string, level: string) returns (r: string)
      ensures r == SetLevel(s, scope, level)
    {
      var sl := scope + ":" + level;
      var levels := Split(s, ',');
      if scope == DEFAULT_SCOPE {
        for i := 0 to |levels|
          invariant FirstBare(levels, 0) == FirstBare(levels, i)
        {
          if ':' !in levels[i] {
            return Join(levels[i := sl], ",");
          }
        }
      }
      for i := 0 to |levels|
        invariant FirstFor(levels, scope, 0) == FirstFor(levels, scope, i)
      {
        if HasPrefix(levels[i], scope + ":") {
          return Join(levels[i := sl], ",");
        }
      }
      return Join(levels + [sl], ",");
    }

    method GetOutputLevel(scope: string) returns (answer: Answer)
      ensures answer == GetLevel(outputLevels, scope)
    {
      answer := Find(outputLevels, scope);
    }

    method GetStackTraceLevel(scope: string) returns (answer: Answer)
      ensures answer == GetLevel(stackTraceLevels, scope)
    {
      answer := Find(stackTraceLevels, scope);
    }

    static method Find(s: string, scope: string) returns (answer: Answer)
      ensures answer == GetLevel(s, scope)
    {
      var levels := Split(s, ',');
      if scope == DEFAULT_SCOPE {
        for i := 0 to |levels|
          invariant FirstBare(levels, 0) == FirstBare(levels, i)
        {
          if ':' !in levels[i] {
            return ToAnswer(ConvertScopedLevel(levels[i]));
          }
        }
      }
      for i := 0 to |levels|
        invariant FirstFor(levels, scope, 0) == FirstFor(levels, scope, i)
      {
        if HasPrefix(levels[i], scope + ":") {
          return ToAnswer(ConvertScopedLevel(levels[i]));
        }
      }
      return NoLevel;
    }

    method SetLogCallers(scope: string, include_: bool)
      modifies this`logCallers
      ensures logCallers == SetCallers(old(logCallers), scope, include_)
    {
      hide Split, Join;
      ghost var before := Split(logCallers, ',');
      var scopes := Split(logCallers, ',');
      for i := 0 to |scopes|
        invariant |scopes| == |before| && forall j :: i <= j < |scopes| ==> scopes[j] == before[j]
        invariant forall j :: 0 <= j < i ==> scopes[j] == if before[j] == scope then "" else before[j]
      {
        if scopes[i] == scope {
          scopes := scopes[i := ""];
        }
      }
      assert scopes == Cleared(before, scope);
      if include_ {
        for i := 0 to |scopes|
          invariant FirstFree(scopes, 0) == FirstFree(scopes, i)
        {
          if scopes[i] == "" {
            logCallers := Join(scopes[i := scope], ",");
            return;
          }
        }
        scopes := scopes + [scope];
      }
      logCallers := Join(scopes, ",");
    }

    method GetLogCallers(scope: string) returns (included: bool)
      ensures included == HasCaller(logCallers, scope)
    {
      var scopes := Split(logCallers, ',');
      for i := 0 to |scopes|
        invariant scope !in scopes[..i]
      {
        if scopes[i] == scope {
          return true;
        }
      }
      return false;
    }
  }

  // ---------------------------------------------------------------- the strings behave as a map

  /** The scope an entry is about; an unprefixed one is about the default scope. */
  function KeyOf(entry: string): string {
    if Bare(entry) then DEFAULT_SCOPE else Split(entry, ':')[0]
  }

  ghost predicate Distinct(levels: seq<string>) {
    forall i, j :: 0 <= i < j < |levels| ==> KeyOf(levels[i]) != KeyOf(levels[j])
  }

  /** At most one entry per scope. */
  ghost predicate OneEntryPerScope(s: string) { Distinct(Split(s, ',')) }

  lemma {:induction false} KeyOfPrefixed(entry: string, scope: string)
    requires ':' !in scope
    ensures IsFor(entry, scope) <==> !Bare(entry) && KeyOf(entry) == scope
  {
    if IsFor(entry, scope) {
      assert entry == scope + [':'] + entry[|scope| + 1..];
      assert entry[|scope|] == ':';
      SplitHead(scope, entry[|scope| + 1..], ':');
    }
    if !Bare(entry) && KeyOf(entry) == scope {
      JoinSplit(entry, ':');
      var pieces := Split(entry, ':');
      assert |pieces| > 1;
      assert entry == scope + ":" + Join(pieces[1..], ":");
    }
  }

  lemma NewEntry(scope: string, level: string)
    requires Plain(scope) && Plain(level)
    ensures var sl := scope + ":" + level;
      KeyOf(sl) == scope && !Bare(sl) && ',' !in sl &&
      ToAnswer(ConvertScopedLevel(sl)) ==
        if StringToLevel(level).Some? then Found(StringToLevel(level).value) else Rejected(BadLevel)
  {
    var sl := scope + ":" + level;
    assert sl == scope + [':'] + level && sl[|scope|] == ':';
    SplitHead(scope, level, ':');
    SplitHead(level, "", ':');
  }

  /** With one entry per scope the slot of a scope is the place of its entry, if there is one. */
  lemma SlotIsTheEntry(levels: seq<string>, scope: string)
    requires Distinct(levels) && ':' !in scope
    ensures var k := Slot(levels, scope);
      (k < |levels| ==> KeyOf(levels[k]) == scope) &&
      forall i :: 0 <= i < |levels| && i != k ==> KeyOf(levels[i]) != scope
  {
    var k := Slot(levels, scope);
    forall i | 0 <= i < |levels|
      ensures IsFor(levels[i], scope) <==> !Bare(levels[i]) && KeyOf(levels[i]) == scope
    {
      KeyOfPrefixed(levels[i], scope);
    }
  }

  lemma SetThenGetEntries(levels: seq<string>, scope: string, sl: string, other: string)
    requires Distinct(levels) && ':' !in scope && ':' !in other && KeyOf(sl) == scope
    ensures Distinct(SetEntry(levels, scope, sl))
    ensures GetEntry(SetEntry(levels, scope, sl), scope) == ToAnswer(ConvertScopedLevel(sl))
    ensures other != scope ==> GetEntry(SetEntry(levels, scope, sl), other) == GetEntry(levels, other)
  {
    hide Slot, ConvertScopedLevel, KeyOf;
    var after := SetEntry(levels, scope, sl);
    SlotIsTheEntry(levels, scope);
    SlotIsTheEntry(levels, other);
    assert Distinct(after);
    SlotIsTheEntry(after, scope);
    SlotIsTheEntry(after, other);
    var k, m := Slot(levels, scope), Slot(levels, other);
    assert after[k] == sl;
    if other != scope && m < |levels| {
      assert after[m] == levels[m];
    }
  }

  lemma {:induction false} EntriesSurviveJoin(s: string, scope: string, level: string)
    requires Plain(scope) && Plain(level)
    ensures Split(SetLevel(s, scope, level), ',') == SetEntry(Split(s, ','), scope, scope + ":" + level)
  {
    JoinSplit(s, ',');
    NewEntry(scope, level);
    SplitJoin(SetEntry(Split(s, ','), scope, scope + ":" + level), ',');
  }

  /** One set: the scope answers with the new level, every other scope as before, still one entry per scope. */
  lemma SetThenGet(s: string, scope: string, level: string, other: string)
    requires OneEntryPerScope(s) && Plain(scope) && Plain(level) && ':' !in other
    ensures var t := SetLevel(s, scope, level);
      OneEntryPerScope(t) &&
      GetLevel(t, scope) ==
        (if StringToLevel(level).Some? then Found(StringToLevel(level).value) else Rejected(BadLevel)) &&
      (other != scope ==> GetLevel(t, other) == GetLevel(s, other))
  {
    EntriesSurviveJoin(s, scope, level);
    NewEntry(scope, level);
    SetThenGetEntries(Split(s, ','), scope, scope + ":" + level, other);
  }

  datatype Assignment = Assignment(scope: string, level: string)

  /** The effect of a run of `SetOutputLevel`: calls with an unknown level are refused. */
  function RunOf(s: string, run: seq<Assignment>): string
    decreases |run|
  {
    if run == [] then s
    else
      var rest, last := run[..|run| - 1], run[|run| - 1];
      if StringToLevel(last.level).None? then RunOf(s, rest) else SetLevel(RunOf(s, rest), last.scope, last.level)
  }

  /** The last level a run accepted for `scope`. */
  function LastSet(run: seq<Assignment>, scope: string): Option<Level>
    decreases |run|
  {
    if run == [] then None
    else
      var rest, last := run[..|run| - 1], run[|run| - 1];
      if last.scope == scope && StringToLevel(last.level).Some? then StringToLevel(last.level) else LastSet(rest, scope)
  }

  lemma InitiallyOneEntry(s: string)
    requires s == "" || s == "default:info"
    ensures OneEntryPerScope(s)
  {
    SplitHead(s, "", ',');
  }

  lemma LevelNamesArePlain(level: string)
    ensures StringToLevel(level).Some? ==> Plain(level)
  {
  }

  /** Over every run from the empty string or the defaults the level string is a map. */
  lemma {:induction false} LevelsAreAMap(s: string, run: seq<Assignment>, scope: string)
    requires s == "" || s == "default:info"
    requires forall i :: 0 <= i < |run| ==> Plain(run[i].scope)
    requires ':' !in scope
    ensures OneEntryPerScope(RunOf(s, run))
    ensures GetLevel(RunOf(s, run), scope) ==
      if LastSet(run, scope).Some? then Found(LastSet(run, scope).value) else GetLevel(s, scope)
    decreases |run|
  {
    hide GetLevel, SetLevel, OneEntryPerScope, StringToLevel;
    if run == [] {
      InitiallyOneEntry(s);
    } else {
      var rest, last := run[..|run| - 1], run[|run| - 1];
      LevelsAreAMap(s, rest, scope);
      if StringToLevel(last.level).Some? {
        LevelNamesArePlain(last.level);
        SetThenGet(RunOf(s, rest), last.scope, last.level, scope);
      }
    }
  }

  /** The caller string is a set: only the named scope's membership changes. Free slots are not members. */
  lemma CallersAreASet(s: string, scope: string, include_: bool, other: string)
    requires ',' !in scope && scope != "" && other != ""
    ensures HasCaller(SetCallers(s, scope, include_), other) == if other == scope then include_ else HasCaller(s, other)
  {
    hide Split, Join, FirstFree, Cleared;
    var before := Split(s, ',');
    var cleared := Cleared(before, scope);
    var after := SetCaller(before, scope, include_);
    JoinSplit(s, ',');
    SplitJoin(after, ',');
    if other in before && other != scope {
      var i :| 0 <= i < |before| && before[i] == other;
      assert cleared[i] == other && after[i] == other;
    }
    if include_ {
      assert after[FirstFree(cleared, 0)] == scope;
    }
  }

  // ---------------------------------------------------------------- what an entry says

  /** An entry is a level for the default scope, a scope with a level, or malformed. */
  lemma EntryForms(scope: string, level: string, rest: string)
    requires ':' !in scope && ':' !in level
    ensures ConvertScopedLevel(level) ==
      if StringToLevel(level).Some? then Scoped(DEFAULT_SCOPE, StringToLevel(level).value) else BadLevel
    ensures ConvertScopedLevel(scope + ":" + level) ==
      if StringToLevel(level).Some? then Scoped(scope, StringToLevel(level).value) else BadLevel
    ensures ConvertScopedLevel(scope + ":" + level + ":" + rest) == BadFormat
  {
    hide StringToLevel, Split;
    SplitHead(level, "", ':');
    SplitHead(scope, level, ':');
    assert scope + ":" + level == scope + [':'] + level;
    SplitHead(scope, level + ":" + rest, ':');
    SplitHead(level, rest, ':');
    assert level + ":" + rest == level + [':'] + rest;
    assert scope + ":" + level + ":" + rest == scope + [':'] + (level + ":" + rest);
  }

  /** A scope without an entry has no level, and an entry that is malformed is reported as it is. */
  lemma NoEntryNoLevel(levels: seq<string>, scope: string)
    requires Distinct(levels) && ':' !in scope
    ensures GetEntry(levels, scope) == NoLevel <==> forall i :: 0 <= i < |levels| ==> KeyOf(levels[i]) != scope
  {
    hide ConvertScopedLevel, KeyOf, Slot;
    SlotIsTheEntry(levels, scope);
  }
}
