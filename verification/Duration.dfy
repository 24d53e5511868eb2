/**
 Durations as written in configuration files (`1d12h`, `90s`, `250ms`): the grammar, the
 parser that computes in wrapping 64-bit nanoseconds, and the printer.
 */
module Duration {
  import opened Strings

  const MAX_INT64 := 0x7FFF_FFFF_FFFF_FFFF
  const NANOS_PER_MILLI := 1_000_000

  /** Two's complement wrap-around of a 64-bit signed result. */
  function Wrap64(x: int): int {
    (x + 0x8000_0000_0000_0000) % 0x1_0000_0000_0000_0000 - 0x8000_0000_0000_0000
  }

  /** Go's integer division and remainder truncate toward zero. */
  function GoDiv(a: int, b: nat): int
    requires b > 0
  {
    if a >= 0 then a / b else -((-a) / b)
  }

  function GoMod(a: int, b: nat): int
    requires b > 0
  {
    a - GoDiv(a, b) * b
  }

  const UNITS := 7

  /** The unit suffixes in the order in which the grammar lists them. */
  function Suffix(k: nat): string
    requires k < UNITS
  {
    if k == 0 then "y" else if k == 1 then "w" else if k == 2 then "d" else if k == 3 then "h"
    else if k == 4 then "m" else if k == 5 then "s" else "ms"
  }

  /** Milliseconds per unit. */
  function Millis(k: nat): nat
    requires k < UNITS
  {
    if k == 0 then 1000 * 60 * 60 * 24 * 365 else if k == 1 then 1000 * 60 * 60 * 24 * 7
    else if k == 2 then 1000 * 60 * 60 * 24 else if k == 3 then 1000 * 60 * 60
    else if k == 4 then 1000 * 60 else if k == 5 then 1000 else 1
  }

  // ---------------------------------------------------------------- the grammar

  /** What the optional group for unit `k` matched, with its unit. */
  function Piece(group: string, k: nat): string
    requires k < UNITS
  {
    if group == "" then "" else group + Suffix(k)
  }

  function Render(groups: seq<string>, k: nat): string
    requires k + |groups| == UNITS
    decreases |groups|
  {
    if groups == [] then "" else Piece(groups[0], k) + Render(groups[1..], k + 1)
  }

  predicate AreGroups(groups: seq<string>) {
    forall i :: 0 <= i < |groups| ==> AllDigits(groups[i])
  }

  /** The declarative reading of `durationRE`: `s` is these seven digit groups, each with its unit. */
  predicate Decomposes(s: string, groups: seq<string>) {
    |groups| == UNITS && AreGroups(groups) && s == Render(groups, 0)
  }

  function DigitRun(s: string): (n: nat)
    ensures n <= |s| && AllDigits(s[..n]) && (n < |s| ==> !IsDigit(s[n]))
  {
    if s == "" || !IsDigit(s[0]) then 0 else
      var n := 1 + DigitRun(s[1..]);
      assert s[..n] == [s[0]] + s[1..][..n - 1];
      n
  }

  datatype Cut = Cut(group: string, rest: string)

  /** The group for unit `k` at the front of `s`, if it is there: all digits up to the unit. */
  function Take(s: string, k: nat): Option<Cut>
    requires k < UNITS
  {
    var n := DigitRun(s);
    if n > 0 && HasPrefix(s[n..], Suffix(k)) then Some(Cut(s[..n], s[n + |Suffix(k)|..])) else None
  }

  function Prepend(group: string, groups: Option<seq<string>>): Option<seq<string>> {
    if groups.Some? then Some([group] + groups.value) else None
  }

  /**
   The matcher: try the group for unit `k`, and when that leads nowhere go on without it.
   The second attempt is what lets `5ms` through after `m` has taken the `5m` of it.
   */
  function FindSubmatch(s: string, k: nat): Option<seq<string>>
    requires k <= UNITS
    decreases UNITS - k
  {
    if k == UNITS then (if s == "" then Some([]) else None)
    else
      var cut := Take(s, k);
      var taken := if cut.Some? then Prepend(cut.value.group, FindSubmatch(cut.value.rest, k + 1)) else None;
      if taken.Some? then taken else Prepend("", FindSubmatch(s, k + 1))
  }

  lemma TakeSound(s: string, k: nat)
    requires k < UNITS && Take(s, k).Some?
    ensures var Cut(group, rest) := Take(s, k).value;
      group != "" && AllDigits(group) && s == Piece(group, k) + rest
  {
  }

  lemma {:induction false} FindSubmatchSound(s: string, k: nat, groups: seq<string>)
    requires k <= UNITS && FindSubmatch(s, k) == Some(groups)
    ensures k + |groups| == UNITS && AreGroups(groups) && s == Render(groups, k)
    decreases UNITS - k
  {
    hide Take, Piece;
    if k < UNITS {
      var cut := Take(s, k);
      if cut.Some? && FindSubmatch(cut.value.rest, k + 1).Some? {
        var rest := FindSubmatch(cut.value.rest, k + 1).value;
        assert groups[1..] == rest;
        FindSubmatchSound(cut.value.rest, k + 1, rest);
        TakeSound(s, k);
      } else {
        var rest := FindSubmatch(s, k + 1).value;
        assert groups[1..] == rest;
        FindSubmatchSound(s, k + 1, rest);
        assert Piece("", k) == "" by { NoPiece(k); }
      }
    }
  }

  lemma NoPiece(k: nat)
    requires k < UNITS
    ensures Piece("", k) == ""
  {
  }

  lemma {:induction false} NothingMatchesNonDigit(s: string, k: nat)
    requires k <= UNITS && s != "" && !IsDigit(s[0])
    ensures FindSubmatch(s, k) == None
    decreases UNITS - k
  {
    if k < UNITS {
      NothingMatchesNonDigit(s, k + 1);
    }
  }

  lemma {:induction false} DigitRunOfPiece(group: string, tail: string)
    requires AllDigits(group) && tail != "" && !IsDigit(tail[0])
    ensures DigitRun(group + tail) == |group|
  {
    if group == "" {
      assert group + tail == tail;
    } else {
      assert (group + tail)[1..] == group[1..] + tail;
      DigitRunOfPiece(group[1..], tail);
    }
  }

  /** Only `m` begins a unit listed after it. */
  lemma UnitOverlap(j: nat, k: nat, rest: string)
    requires k <= j < UNITS
    ensures HasPrefix(Suffix(j) + rest, Suffix(k)) <==> j == k || (k == 4 && j == 6)
    ensures var tail := Suffix(j) + rest; tail != "" && !IsDigit(tail[0]) && tail[|Suffix(j)|..] == rest
    ensures k == 4 && j == 6 ==> (Suffix(j) + rest)[|Suffix(k)|..] == "s" + rest
  {
  }

  /** What the matcher takes for unit `k` from a string that begins with a group of unit `j`. */
  lemma TakeFromPiece(group: string, j: nat, rest: string, k: nat)
    requires k <= j < UNITS && group != "" && AllDigits(group)
    ensures Take(Piece(group, j) + rest, k) ==
      if j == k then Some(Cut(group, rest))
      else if k == 4 && j == 6 then Some(Cut(group, "s" + rest))
      else None
  {
    hide DigitRun, Suffix, HasPrefix, AllDigits, Take;
    UnitOverlap(j, k, rest);
    var tail := Suffix(j) + rest;
    PieceAndRest(group, j, rest);
    DigitRunOfPiece(group, tail);
    TakeGroup(group, tail, k);
  }

  lemma PieceAndRest(group: string, j: nat, rest: string)
    requires j < UNITS && group != ""
    ensures Piece(group, j) + rest == group + (Suffix(j) + rest)
  {
    hide Suffix;
    assert (group + Suffix(j)) + rest == group + (Suffix(j) + rest);
  }

  /** A digit run is taken when the unit follows it. */
  lemma {:induction false} TakeGroup(group: string, tail: string, k: nat)
    requires k < UNITS && group != "" && DigitRun(group + tail) == |group|
    ensures Take(group + tail, k) ==
      if HasPrefix(tail, Suffix(k)) then Some(Cut(group, tail[|Suffix(k)|..])) else None
  {
    hide DigitRun, Suffix;
    var s := group + tail;
    assert s[..|group|] == group && s[|group|..] == tail;
    if HasPrefix(tail, Suffix(k)) {
      assert s[|group| + |Suffix(k)|..] == tail[|Suffix(k)|..];
    }
  }

  lemma NothingTakenFromEmpty(k: nat)
    requires k < UNITS
    ensures Take("", k) == None
  {
  }

  /** A group is never taken for a unit before its own: after the `m` of `ms` an `s` is left that nothing matches. */
  lemma {:induction false} LaterGroupIsNotTaken(groups: seq<string>, j: nat, k: nat)
    requires k < j && j + |groups| == UNITS && AreGroups(groups)
    ensures var cut := Take(Render(groups, j), k);
      cut.Some? ==> FindSubmatch(cut.value.rest, k + 1) == None
    decreases |groups|
  {
    hide Take, Piece, FindSubmatch;
    if groups == [] {
      NothingTakenFromEmpty(k);
    } else {
      var rest := Render(groups[1..], j + 1);
      if groups[0] == "" {
        NoPiece(j);
        assert Render(groups, j) == rest;
        LaterGroupIsNotTaken(groups[1..], j + 1, k);
      } else {
        TakeFromPiece(groups[0], j, rest, k);
        if k == 4 && j == 6 {
          NothingMatchesNonDigit("s" + rest, k + 1);
        }
      }
    }
  }

  /** One unit of the matcher, given what the rest of it does. */
  lemma MatchStep(s: string, k: nat, groups: seq<string>)
    requires k < UNITS
    ensures Take(s, k).Some? && FindSubmatch(Take(s, k).value.rest, k + 1) == Some(groups)
      ==> FindSubmatch(s, k) == Some([Take(s, k).value.group] + groups)
    ensures (Take(s, k).Some? ==> FindSubmatch(Take(s, k).value.rest, k + 1) == None) &&
      FindSubmatch(s, k + 1) == Some(groups)
      ==> FindSubmatch(s, k) == Some([""] + groups)
  {
  }

  lemma MatchEnd()
    ensures FindSubmatch("", UNITS) == Some([])
  {
  }

  lemma {:induction false} FindSubmatchComplete(groups: seq<string>, k: nat)
    requires k + |groups| == UNITS && AreGroups(groups)
    ensures FindSubmatch(Render(groups, k), k) == Some(groups)
    decreases |groups|
  {
    hide Take, Piece, FindSubmatch;
    if groups == [] {
      assert FindSubmatch("", UNITS) == Some([]) by { MatchEnd(); }
    } else {
      var rest := Render(groups[1..], k + 1);
      MatchStep(Render(groups, k), k, groups[1..]);
      FindSubmatchComplete(groups[1..], k + 1);
      assert groups == [groups[0]] + groups[1..];
      if groups[0] == "" {
        NoPiece(k);
        assert Render(groups, k) == rest;
        LaterGroupIsNotTaken(groups[1..], k + 1, k);
      } else {
        TakeFromPiece(groups[0], k, rest, k);
      }
    }
  }

  /** The matcher finds a decomposition exactly when there is one, and there is never a second. */
  lemma {:induction false} MatchIsTheDecomposition(s: string)
    ensures forall groups :: Decomposes(s, groups) <==> FindSubmatch(s, 0) == Some(groups)
    ensures forall g, h :: Decomposes(s, g) && Decomposes(s, h) ==> g == h
  {
    forall groups | Decomposes(s, groups)
      ensures FindSubmatch(s, 0) == Some(groups)
    {
      FindSubmatchComplete(groups, 0);
    }
    if FindSubmatch(s, 0).Some? {
      FindSubmatchSound(s, 0, FindSubmatch(s, 0).value);
    }
  }

  // ---------------------------------------------------------------- parsing

  datatype ParseError = Empty | Malformed | OutOfRange

  datatype Parsed = Ok(nanos: int) | Fail(error: ParseError)

  /** The contribution of unit `k` in nanoseconds. */
  function Term(groups: seq<string>, k: nat): nat
    requires |groups| == UNITS && AreGroups(groups) && k < UNITS
  {
    NumberOf(groups[k]) * NANOS_PER_MILLI * Millis(k)
  }

  /** The unbounded number of nanoseconds the groups denote. */
  function Total(groups: seq<string>): nat
    requires |groups| == UNITS && AreGroups(groups)
  {
    Term(groups, 0) + Term(groups, 1) + Term(groups, 2) + Term(groups, 3) + Term(groups, 4)
    + Term(groups, 5) + Term(groups, 6)
  }

  /** What parsing means, in unbounded arithmetic. */
  ghost predicate Denotes(s: string, result: Parsed) {
    if s == "0" then result == Ok(0)
    else if s == "" then result == Fail(Empty)
    else if exists groups :: Decomposes(s, groups) then
      exists groups :: Decomposes(s, groups) &&
        result == if Total(groups) <= MAX_INT64 then Ok(Total(groups)) else Fail(OutOfRange)
    else result == Fail(Malformed)
  }

  lemma {:induction false} MeaningOfMatch(s: string)
    ensures var found := FindSubmatch(s, 0);
      if s == "0" then Denotes(s, Ok(0))
      else if s == "" then Denotes(s, Fail(Empty))
      else if found.None? then Denotes(s, Fail(Malformed))
      else
        |found.value| == UNITS && AreGroups(found.value) &&
        Denotes(s, if Total(found.value) <= MAX_INT64 then Ok(Total(found.value)) else Fail(OutOfRange))
  {
    MatchIsTheDecomposition(s);
    hide FindSubmatch, Total, Render;
  }

  /** `strconv.Atoi` with its error ignored: too large a number becomes the largest int64. */
  function Atoi(digits: string): (n: nat)
    requires AllDigits(digits)
    ensures n <= NumberOf(digits) && n <= MAX_INT64
  {
    if NumberOf(digits) <= MAX_INT64 then NumberOf(digits) else MAX_INT64
  }

  predicate IsTerm(term: nat, digits: string, mult: nat) {
    AllDigits(digits) && term == NumberOf(digits) * NANOS_PER_MILLI * mult
  }

  /** The variables the closure of `ParseDuration` captures. */
  class Accumulator {
    var dur: int
    var overflow: bool

    /** `exact` is the unbounded total of the groups added so far. */
    ghost predicate Tracks(exact: nat)
      reads this
    {
      (overflow <==> exact > MAX_INT64) && (!overflow ==> dur == exact)
    }

    constructor ()
      ensures Tracks(0)
    {
      dur, overflow := 0, false;
    }

    lemma Verdict(exact: nat)
      requires Tracks(exact)
      ensures (overflow <==> exact > MAX_INT64) && (!overflow ==> dur == exact)
    {
    }

    method Add(digits: string, mult: nat, ghost exact: nat, ghost term: nat)
      requires 0 < mult && IsTerm(term, digits, mult) && Tracks(exact)
      modifies this
      ensures Tracks(exact + term)
    {
      if digits == "" {
        return;
      }
      hide Wrap64, NumberOf;
      LimitIsExact(NumberOf(digits), mult);
      var n := Atoi(digits);
      if n > MAX_INT64 / mult / NANOS_PER_MILLI {
        overflow := true;
      }
      var d := Wrap64(n * NANOS_PER_MILLI);
      WrapOfNatural(n * NANOS_PER_MILLI);
      WrapOfNatural(d * mult);
      WrapOfNatural(dur + Wrap64(d * mult));
      dur := Wrap64(dur + Wrap64(d * mult));
      if dur < 0 {
        overflow := true;
      }
    }
  }

  /** The guard against overflow, a division, says exactly that the product fits in an int64. */
  lemma LimitIsExact(n: nat, mult: nat)
    requires 0 < mult
    ensures 0 <= MAX_INT64 / mult / NANOS_PER_MILLI < MAX_INT64
    ensures n > MAX_INT64 / mult / NANOS_PER_MILLI <==> n * NANOS_PER_MILLI * mult > MAX_INT64
    ensures n * NANOS_PER_MILLI <= n * NANOS_PER_MILLI * mult
  {
    var q, t := MAX_INT64 / mult, n * NANOS_PER_MILLI;
    QuotientBounds(MAX_INT64, mult);
    TimesMonotone(1, mult, q);
    TimesMonotone(1, mult, t);
    if t <= q {
      TimesMonotone(t, q, mult);
    } else {
      TimesMonotone(q + 1, t, mult);
    }
  }

  /** Below 2^64 a sum that does not fit in an int64 shows as a negative number. */
  lemma WrapOfNatural(x: int)
    ensures 0 <= x <= MAX_INT64 ==> Wrap64(x) == x
    ensures MAX_INT64 < x <= 2 * MAX_INT64 ==> Wrap64(x) < 0
  {
  }

  lemma QuotientBounds(a: nat, b: nat)
    requires b > 0
    ensures 0 <= a / b && (a / b) * b <= a < (a / b + 1) * b
  {
  }

  lemma TimesMonotone(a: nat, b: nat, c: nat)
    requires a <= b
    ensures a * c <= b * c && c * a <= c * b
  {
  }

  method ParseDuration(s: string) returns (dur: int, err: Option<ParseError>)
    ensures Denotes(s, if err.None? then Ok(dur) else Fail(err.value))
  {
    hide Denotes, FindSubmatch, Total, Term, IsTerm, AreGroups, Accumulator.Tracks;
    MeaningOfMatch(s);
    if s == "0" {
      return 0, None;
    }
    if s == "" {
      return 0, Some(Empty);
    }
    var matches := FindSubmatch(s, 0);
    if matches.None? {
      return 0, Some(Malformed);
    }
    var m := matches.value;
    TermsByUnit(m);
    var acc := new Accumulator();
    ghost var exact := Term(m, 0);
    acc.Add(m[0], 1000 * 60 * 60 * 24 * 365, 0, Term(m, 0));
    acc.Add(m[1], 1000 * 60 * 60 * 24 * 7, exact, Term(m, 1));
    exact := exact + Term(m, 1);
    acc.Add(m[2], 1000 * 60 * 60 * 24, exact, Term(m, 2));
    exact := exact + Term(m, 2);
    acc.Add(m[3], 1000 * 60 * 60, exact, Term(m, 3));
    exact := exact + Term(m, 3);
    acc.Add(m[4], 1000 * 60, exact, Term(m, 4));
    exact := exact + Term(m, 4);
    acc.Add(m[5], 1000, exact, Term(m, 5));
    exact := exact + Term(m, 5);
    acc.Add(m[6], 1, exact, Term(m, 6));
    exact := exact + Term(m, 6);
    acc.Verdict(exact);
    if acc.overflow {
      return acc.dur, Some(OutOfRange);
    }
    return acc.dur, None;
  }

  lemma TermsByUnit(m: seq<string>)
    requires |m| == UNITS && AreGroups(m)
    ensures Total(m) == Term(m, 0) + Term(m, 1) + Term(m, 2) + Term(m, 3) + Term(m, 4) + Term(m, 5) + Term(m, 6)
    ensures IsTerm(Term(m, 0), m[0], 1000 * 60 * 60 * 24 * 365) && IsTerm(Term(m, 1), m[1], 1000 * 60 * 60 * 24 * 7)
    ensures IsTerm(Term(m, 2), m[2], 1000 * 60 * 60 * 24) && IsTerm(Term(m, 3), m[3], 1000 * 60 * 60)
    ensures IsTerm(Term(m, 4), m[4], 1000 * 60) && IsTerm(Term(m, 5), m[5], 1000) && IsTerm(Term(m, 6), m[6], 1)
  {
  }

  // ---------------------------------------------------------------- printing

  /** How many of unit `k` the printer writes when `ms` milliseconds are left; years and weeks only when exact. */
  function Count(ms: int, k: nat): nat
    requires k < UNITS
  {
    if k < 2 && GoMod(ms, Millis(k)) != 0 then 0
    else if GoDiv(ms, Millis(k)) > 0 then GoDiv(ms, Millis(k)) else 0
  }

  function Left(ms: int, k: nat): int
    requires k < UNITS
  {
    ms - Count(ms, k) * Millis(k)
  }

  function Numeral(n: nat): string {
    if n > 0 then Decimal(n) else ""
  }

  /** The digit groups the printer writes, unit by unit. */
  function Groups(ms: int, k: nat): (groups: seq<string>)
    requires k <= UNITS
    ensures k + |groups| == UNITS && AreGroups(groups)
    decreases UNITS - k
  {
    if k == UNITS then [] else [Numeral(Count(ms, k))] + Groups(Left(ms, k), k + 1)
  }

  function Text(d: int): string {
    var ms := GoDiv(d, NANOS_PER_MILLI);
    if ms == 0 then "0s" else Render(Groups(ms, 0), 0)
  }

  predicate IsUnit(unit: string, mult: nat, exact: bool, k: nat) {
    k < UNITS && unit == Suffix(k) && 0 < mult == Millis(k) && exact == (k < 2)
  }

  /** The variables the closure of `String` captures. */
  class Printer {
    var ms: int
    var r: string

    constructor (ms: int)
      ensures this.ms == ms && r == ""
    {
      this.ms, r := ms, "";
    }

    /** What is printed so far, with the units from `k` on still to come, makes up `text`. */
    ghost predicate Pending(k: nat, text: string)
      reads this
    {
      k <= UNITS && r + Render(Groups(ms, k), k) == text
    }

    method Append(unit: string, mult: nat, exact: bool, ghost k: nat, ghost text: string)
      requires IsUnit(unit, mult, exact, k) && Pending(k, text)
      modifies this
      ensures Pending(k + 1, text)
    {
      hide Suffix, Render, Groups, Decimal, GoMod, GoDiv, Millis;
      RenderStep(ms, k, r);
      if exact && GoMod(ms, mult) != 0 {
        return;
      }
      var v := GoDiv(ms, mult);
      if v > 0 {
        r := r + (Decimal(v) + unit);
        ms := ms - v * mult;
      }
    }
  }

  /** Appending the piece of unit `k` to what is printed leaves the units after it to print. */
  lemma RenderStep(ms: int, k: nat, r: string)
    requires k < UNITS
    ensures var rest := Render(Groups(Left(ms, k), k + 1), k + 1);
      r + Render(Groups(ms, k), k) ==
      if Count(ms, k) > 0 then r + (Decimal(Count(ms, k)) + Suffix(k)) + rest else r + rest
  {
  }

  method String(d: int) returns (r: string)
    ensures r == Text(d)
  {
    hide Render, Groups, Text, GoDiv, IsUnit;
    UnitTable();
    TextOfMillis(d);
    var ms := GoDiv(d, NANOS_PER_MILLI);
    if ms == 0 {
      return "0s";
    }
    ghost var text := Text(d);
    var f := new Printer(ms);
    f.Append("y", 1000 * 60 * 60 * 24 * 365, true, 0, text);
    f.Append("w", 1000 * 60 * 60 * 24 * 7, true, 1, text);
    f.Append("d", 1000 * 60 * 60 * 24, false, 2, text);
    f.Append("h", 1000 * 60 * 60, false, 3, text);
    f.Append("m", 1000 * 60, false, 4, text);
    f.Append("s", 1000, false, 5, text);
    f.Append("ms", 1, false, 6, text);
    NothingAfterMillis(f.ms);
    r := f.r;
  }

  lemma UnitTable()
    ensures IsUnit("y", 1000 * 60 * 60 * 24 * 365, true, 0) && IsUnit("w", 1000 * 60 * 60 * 24 * 7, true, 1)
    ensures IsUnit("d", 1000 * 60 * 60 * 24, false, 2) && IsUnit("h", 1000 * 60 * 60, false, 3)
    ensures IsUnit("m", 1000 * 60, false, 4) && IsUnit("s", 1000, false, 5) && IsUnit("ms", 1, false, 6)
  {
  }

  lemma TextOfMillis(d: int)
    ensures var ms := GoDiv(d, NANOS_PER_MILLI);
      Text(d) == if ms == 0 then "0s" else "" + Render(Groups(ms, 0), 0)
  {
  }

  lemma {:induction false} NothingAfterMillis(ms: int)
    ensures Render(Groups(ms, UNITS), UNITS) == ""
  {
  }

  // ---------------------------------------------------------------- round trip

  /** The nanoseconds in the groups from unit `k` on. */
  function TotalFrom(groups: seq<string>, k: nat): nat
    requires |groups| == UNITS && AreGroups(groups) && k <= UNITS
    decreases UNITS - k
  {
    if k == UNITS then 0 else Term(groups, k) + TotalFrom(groups, k + 1)
  }

  lemma LeftIsNatural(ms: nat, k: nat)
    requires k < UNITS
    ensures 0 <= Left(ms, k) && (k == 6 ==> Left(ms, k) == 0)
  {
  }

  lemma TakenAndLeft(count: nat, mult: nat, ms: int)
    ensures count * NANOS_PER_MILLI * mult + (ms - count * mult) * NANOS_PER_MILLI == ms * NANOS_PER_MILLI
  {
  }

  lemma {:induction false} PrintedFrom(groups: seq<string>, ms: nat, k: nat)
    requires k <= UNITS && |groups| == UNITS && AreGroups(groups) && groups[k..] == Groups(ms, k)
    requires k == UNITS ==> ms == 0
    ensures TotalFrom(groups, k) == ms * NANOS_PER_MILLI
    decreases UNITS - k
  {
    hide Count, Millis;
    if k < UNITS {
      LeftIsNatural(ms, k);
      NumberOfDecimal(Count(ms, k));
      assert groups[k + 1..] == groups[k..][1..] == Groups(Left(ms, k), k + 1);
      PrintedFrom(groups, Left(ms, k), k + 1);
      assert groups[k] == groups[k..][0];
      TakenAndLeft(Count(ms, k), Millis(k), ms);
    }
  }

  /** The printed units add up to the printed milliseconds, although years and weeks print only when exact. */
  lemma {:induction false} PrintedTotal(ms: nat)
    ensures Total(Groups(ms, 0)) == ms * NANOS_PER_MILLI
  {
    hide Groups, Term;
    var groups := Groups(ms, 0);
    PrintedFrom(groups, ms, 0);
    assert TotalFrom(groups, 0) == Term(groups, 0) + (Term(groups, 1) + TotalFrom(groups, 2));
    assert TotalFrom(groups, 2) == Term(groups, 2) + (Term(groups, 3) + TotalFrom(groups, 4));
    assert TotalFrom(groups, 4) == Term(groups, 4) + (Term(groups, 5) + TotalFrom(groups, 6));
    assert TotalFrom(groups, 6) == Term(groups, 6) + TotalFrom(groups, 7);
  }

  /** A printed total is never the bare `0` that parsing treats apart. */
  lemma {:induction false} RenderedIsNotZero(groups: seq<string>, k: nat)
    requires k + |groups| == UNITS && AreGroups(groups)
    ensures Render(groups, k) != "0"
    decreases |groups|
  {
    if groups != [] {
      if groups[0] == "" {
        RenderedIsNotZero(groups[1..], k + 1);
      } else {
        assert |Piece(groups[0], k)| >= 2;
      }
    }
  }

  lemma {:induction false} EmptyRenderIsNothing(groups: seq<string>, k: nat)
    requires k + |groups| == UNITS && AreGroups(groups) && Render(groups, k) == ""
    ensures forall i :: 0 <= i < |groups| ==> groups[i] == ""
    decreases |groups|
  {
    if groups != [] {
      EmptyRenderIsNothing(groups[1..], k + 1);
    }
  }

  lemma NoneOfNegative(ms: int, k: nat)
    requires ms < 0 && k < UNITS
    ensures Count(ms, k) == 0 && Left(ms, k) == ms
  {
  }

  lemma {:induction false} NegativePrintsNothing(ms: int, k: nat)
    requires ms < 0 && k <= UNITS
    ensures Render(Groups(ms, k), k) == ""
    decreases UNITS - k
  {
    hide Count, Left, Suffix;
    if k < UNITS {
      NoneOfNegative(ms, k);
      NegativePrintsNothing(ms, k + 1);
      assert Groups(ms, k)[1..] == Groups(ms, k + 1);
    }
  }

  lemma {:induction false} RenderBlank(groups: seq<string>, k: nat)
    requires k + 1 + |groups| == UNITS
    ensures Render([""] + groups, k) == Render(groups, k + 1)
  {
  }

  lemma ZeroReadsBack()
    ensures Denotes("0s", Ok(0))
  {
    var g5: seq<string> := ["0", ""];
    assert Render(g5, 5) == "0s" by {
      assert g5[1..] == [""];
    }
    var g4: seq<string>, g3: seq<string>, g2: seq<string> := [""] + g5, ["", ""] + g5, ["", "", ""] + g5;
    var g1: seq<string>, g0: seq<string> := ["", "", "", ""] + g5, ["", "", "", "", ""] + g5;
    hide Render;
    assert g3 == [""] + g4 && g2 == [""] + g3 && g1 == [""] + g2 && g0 == [""] + g1;
    RenderBlank(g5, 4);
    RenderBlank(g4, 3);
    RenderBlank(g3, 2);
    RenderBlank(g2, 1);
    RenderBlank(g1, 0);
    assert Total(g0) == 0;
    ReadsBack(g0);
  }

  /** What is rendered from groups that fit denotes their total. */
  lemma {:induction false} ReadsBack(groups: seq<string>)
    requires |groups| == UNITS && AreGroups(groups) && Render(groups, 0) != "" && Total(groups) <= MAX_INT64
    ensures Denotes(Render(groups, 0), Ok(Total(groups)))
  {
    hide Total, Render;
    RenderedIsNotZero(groups, 0);
    assert Decomposes(Render(groups, 0), groups);
    MatchIsTheDecomposition(Render(groups, 0));
  }

  lemma {:induction false} PositiveReadsBack(ms: nat)
    requires 0 < ms <= MAX_INT64 / NANOS_PER_MILLI
    ensures Denotes(Render(Groups(ms, 0), 0), Ok(ms * NANOS_PER_MILLI))
  {
    hide Groups, Render;
    var groups := Groups(ms, 0);
    PrintedTotal(ms);
    if Render(groups, 0) == "" {
      EmptyRenderIsNothing(groups, 0);
    }
    ReadsBack(groups);
  }

  /**
   Every 64-bit duration above minus one millisecond reads back as itself cut to whole
   milliseconds; every other one prints as nothing and does not read back.
   */
  lemma RoundTrip(d: int)
    requires -MAX_INT64 - 1 <= d <= MAX_INT64
    ensures d > -NANOS_PER_MILLI ==> Denotes(Text(d), Ok(GoDiv(d, NANOS_PER_MILLI) * NANOS_PER_MILLI))
    ensures d <= -NANOS_PER_MILLI ==> Denotes(Text(d), Fail(Empty))
  {
    hide Groups, Render;
    var ms := GoDiv(d, NANOS_PER_MILLI);
    if ms == 0 {
      ZeroReadsBack();
    } else if ms > 0 {
      PositiveReadsBack(ms);
    } else {
      NegativePrintsNothing(ms, 0);
    }
  }

  // ---------------------------------------------------------------- how a duration is written

  /** The milliseconds left for unit `k` when `ms` are there from unit `from` on. */
  function Rest(ms: int, from: nat, k: nat): int
    requires from <= k <= UNITS
    decreases k - from
  {
    if from == k then ms else Rest(Left(ms, from), from + 1, k)
  }

  lemma {:induction false} RestStep(ms: int, from: nat, k: nat)
    requires from <= k < UNITS
    ensures Rest(ms, from, k + 1) == Left(Rest(ms, from, k), k)
    decreases k - from
  {
    hide Left;
    if from < k {
      RestStep(Left(ms, from), from + 1, k);
    }
  }

  /** The number written for unit `k`. */
  function Written(ms: int, k: nat): nat
    requires k < UNITS
  {
    NumberOf(Groups(ms, 0)[k])
  }

  lemma {:induction false} GroupCount(ms: int, from: nat, k: nat)
    requires from <= k < UNITS
    ensures NumberOf(Groups(ms, from)[k - from]) == Count(Rest(ms, from, k), k)
    decreases k - from
  {
    hide Count, Left, Groups, Numeral, NumberOf;
    GroupsStep(ms, from);
    if from == k {
      NumeralReadsBack(Count(ms, k));
    } else {
      GroupCount(Left(ms, from), from + 1, k);
      assert Groups(ms, from)[k - from] == Groups(ms, from)[1..][k - from - 1];
    }
  }

  lemma GroupsStep(ms: int, k: nat)
    requires k < UNITS
    ensures Groups(ms, k)[0] == Numeral(Count(ms, k)) && Groups(ms, k)[1..] == Groups(Left(ms, k), k + 1)
  {
    hide Count, Left, Numeral;
  }

  lemma NumeralReadsBack(n: nat)
    ensures AllDigits(Numeral(n)) && NumberOf(Numeral(n)) == n
  {
    NumberOfDecimal(n);
  }

  /** From days on a unit takes all it can, so that less than one of it is left. */
  lemma TakesAll(ms: nat, k: nat)
    requires k < UNITS
    ensures k >= 2 ==> Count(ms, k) == ms / Millis(k) && Left(ms, k) == ms % Millis(k)
    ensures k < 2 ==> Count(ms, k) == if ms % Millis(k) == 0 then ms / Millis(k) else 0
    ensures k < 2 ==> Left(ms, k) == if ms % Millis(k) == 0 then 0 else ms
  {
    hide GoDiv, GoMod, Millis;
    MillisPositive(k);
    OfNatural(ms, Millis(k));
  }

  /** On natural numbers Go's operators are the usual ones. */
  lemma OfNatural(a: nat, b: nat)
    requires b > 0
    ensures GoDiv(a, b) == a / b >= 0 && GoMod(a, b) == a % b && a == a / b * b + a % b
    ensures a / b > 0 || a / b == 0
  {
  }

  lemma {:induction false} RestIsNatural(ms: nat, k: nat)
    requires k <= UNITS
    ensures Rest(ms, 0, k) >= 0
    ensures k >= 3 ==> Rest(ms, 0, k) < Millis(k - 1)
  {
    hide Left, Count, Millis;
    if k > 0 {
      RestIsNatural(ms, k - 1);
      RestStep(ms, 0, k - 1);
      LeftIsNatural(Rest(ms, 0, k - 1), k - 1);
      TakesAll(Rest(ms, 0, k - 1), k - 1);
      MillisPositive(k - 1);
    }
  }

  lemma MillisPositive(k: nat)
    requires k < UNITS
    ensures Millis(k) > 0
  {
  }

  /** Each unit from hours on is written with less than makes one of the unit before. */
  lemma WrittenIsReduced(ms: nat)
    ensures Written(ms, 3) < 24 && Written(ms, 4) < 60 && Written(ms, 5) < 60 && Written(ms, 6) < 1000
  {
    hide Written, Rest;
    forall k | 3 <= k < UNITS
      ensures Written(ms, k) * Millis(k) < Millis(k - 1)
    {
      WrittenIsQuotient(ms, k);
      QuotientFits(Rest(ms, 0, k), Millis(k), Millis(k - 1));
    }
    assert Written(ms, 3) * Millis(3) < Millis(2) && Written(ms, 4) * Millis(4) < Millis(3);
    assert Written(ms, 5) * Millis(5) < Millis(4) && Written(ms, 6) * Millis(6) < Millis(5);
  }

  lemma QuotientFits(a: nat, b: nat, bound: nat)
    requires b > 0 && a < bound
    ensures a / b * b < bound
  {
  }

  lemma {:induction false} WrittenIsQuotient(ms: nat, k: nat)
    requires 3 <= k < UNITS
    ensures Millis(k) > 0 && 0 <= Rest(ms, 0, k) < Millis(k - 1) && Written(ms, k) == Rest(ms, 0, k) / Millis(k)
  {
    hide Rest, Left, Count, Groups, Millis;
    MillisPositive(k);
    GroupCount(ms, 0, k);
    RestIsNatural(ms, k);
    TakesAll(Rest(ms, 0, k), k);
  }

  lemma {:induction false} NothingLeft(ms: int, from: nat, k: nat)
    requires from <= k < UNITS && ms == 0
    ensures Rest(ms, from, k) == 0 && Count(Rest(ms, from, k), k) == 0
    decreases k - from
  {
    hide Left, Count, Millis;
    NothingTaken(from);
    if from < k {
      NothingLeft(Left(ms, from), from + 1, k);
    }
  }

  lemma {:induction false} FirstRests(ms: int, k: nat)
    requires k < UNITS
    ensures Rest(ms, 0, 0) == ms
    ensures k > 0 ==> Rest(ms, 0, k) == Rest(Left(ms, 0), 1, k)
    ensures k == 1 ==> Rest(Left(ms, 0), 1, k) == Left(ms, 0)
    ensures k > 1 ==> Rest(Left(ms, 0), 1, k) == Rest(Left(Left(ms, 0), 1), 2, k)
  {
    hide Left;
  }

  lemma NothingTaken(k: nat)
    requires k < UNITS
    ensures Count(0, k) == 0 && Left(0, k) == 0
  {
    hide GoDiv, GoMod, Millis;
    MillisPositive(k);
    OfNatural(0, Millis(k));
    ZeroDivided(Millis(k));
  }

  lemma ZeroDivided(b: nat)
    requires b > 0
    ensures 0 / b == 0
  {
  }

  /**
   Years are written only when nothing else is left, and then alone; so are weeks, of what is no
   whole number of years.
   */
  lemma YearsAndWeeksOnlyExact(ms: nat, k: nat)
    requires k < UNITS && ms > 0
    ensures ms % Millis(0) == 0 ==> Written(ms, k) == if k == 0 then ms / Millis(0) else 0
    ensures ms % Millis(0) != 0 && ms % Millis(1) == 0 ==> Written(ms, k) == if k == 1 then ms / Millis(1) else 0
    ensures ms % Millis(0) != 0 && ms % Millis(1) != 0 && k < 2 ==> Written(ms, k) == 0
  {
    hide Left, Count, Groups, Millis, Rest;
    MillisPositive(0);
    MillisPositive(1);
    GroupCount(ms, 0, k);
    TakesAll(ms, 0);
    TakesAll(ms, 1);
    FirstRests(ms, k);
    if ms % Millis(0) == 0 && k > 0 {
      NothingLeft(Left(ms, 0), 1, k);
    } else if ms % Millis(0) != 0 && ms % Millis(1) == 0 && k > 1 {
      NothingLeft(Left(ms, 1), 2, k);
    }
  }

  /** In plain numbers: what is printed for a duration that is not negative reads back as its whole milliseconds. */
  lemma RoundTripOfNatural(d: nat)
    requires d <= MAX_INT64
    ensures Denotes(Text(d), Ok(d - d % 1_000_000))
  {
    hide Denotes, Text;
    RoundTrip(d);
  }
}
