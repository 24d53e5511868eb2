/**
 The validation of a form: field validators combined into one for the whole value, and the
 search for the first error in what it reports.
 */
module Validation {
  import opened Strings
  import opened FormTree

  /**
   What a validator reports. `Blank` is any falsy report, `Message` a nonempty string or an
   element; a record keeps the order of its keys.
   */
  datatype Report =
    | Blank
    | Message(text: string)
    | Record(entries: seq<Entry>)
    | List(reports: seq<Report>)

  datatype Entry = Entry(name: string, report: Report)

  /** A validator is a function of the value and its parent, or an object or one-element array of validators. */
  datatype Rule =
    | Check(check: (Js, Js) -> Report)
    | Fields(fields: seq<Field>)
    | Each(item: Rule)

  datatype Field = Field(name: string, rule: Rule)

  /** Errors in traversal order. */
  function Errors(r: Report): seq<string>
    decreases r, 0
  {
    match r
    case Blank => []
    case Message(text) => [text]
    case Record(entries) => EntryErrors(entries)
    case List(reports) => ListErrors(reports)
  }

  function EntryErrors(entries: seq<Entry>): seq<string>
    decreases entries, 1
  {
    if entries == [] then [] else Errors(entries[0].report) + EntryErrors(entries[1..])
  }

  function ListErrors(reports: seq<Report>): seq<string>
    decreases reports, 1
  {
    if reports == [] then [] else Errors(reports[0]) + ListErrors(reports[1..])
  }

  function ObjectOf(v: Js): Js {
    if Truthy(v) then v else Obj(map[])
  }

  /** The combined validator; `None` is the exception of an array rule meeting a truthy value that is no array. */
  function Combine(rule: Rule, v: Js): Option<Report>
    decreases rule, 0
  {
    match rule
    case Check(_) => Some(Record([]))
    case Fields(fields) =>
      var entries := CombineFields(fields, ObjectOf(v));
      if entries.None? then None else Some(Record(entries.value))
    case Each(item) =>
      if !Truthy(v) then Some(List([]))
      else if !v.Arr? then None
      else
        var reports := CombineItems(item, v.items, v);
        if reports.None? then None else Some(List(reports.value))
  }

  function Apply(rule: Rule, v: Js, parent: Js): Option<Report>
    decreases rule, 1
  {
    if rule.Check? then Some(rule.check(v, parent)) else Combine(rule, v)
  }

  function CombineFields(fields: seq<Field>, v: Js): Option<seq<Entry>>
    decreases fields, 2
  {
    if fields == [] then Some([])
    else
      var first := Apply(fields[0].rule, Child(v, Name(fields[0].name)), v);
      var rest := CombineFields(fields[1..], v);
      if first.None? || rest.None? then None else Some([Entry(fields[0].name, first.value)] + rest.value)
  }

  function CombineItems(item: Rule, items: seq<Js>, parent: Js): Option<seq<Report>>
    decreases item, 2, items
  {
    if items == [] then Some([])
    else
      var first := Apply(item, items[0], parent);
      var rest := CombineItems(item, items[1..], parent);
      if first.None? || rest.None? then None else Some([first.value] + rest.value)
  }

  function First(errors: seq<string>): Option<string> {
    if errors == [] then None else Some(errors[0])
  }

  function ReportAt(r: Report, key: Key): Report {
    match r
    case Record(entries) => if key.Name? then EntryAt(entries, key.name) else Blank
    case List(reports) => if key.Index? && key.i < |reports| then reports[key.i] else Blank
    case _ => Blank
  }

  function EntryAt(entries: seq<Entry>, name: string): Report {
    if entries == [] then Blank else if entries[0].name == name then entries[0].report else EntryAt(entries[1..], name)
  }

  function ErrorsAt(r: Report, keys: seq<Key>): seq<string> {
    if keys == [] then [] else Errors(ReportAt(r, keys[0])) + ErrorsAt(r, keys[1..])
  }

  /** The errors in view: of the given keys only, or all of them. */
  function ErrorsIn(r: Report, keys: Option<seq<Key>>): seq<string> {
    if keys.None? || r.Blank? || r.Message? then Errors(r) else ErrorsAt(r, keys.value)
  }

  lemma ListErrorsFrom(reports: seq<Report>, i: nat)
    requires i <= |reports|
    ensures ListErrors(reports[i..]) == if i == |reports| then [] else Errors(reports[i]) + ListErrors(reports[i + 1..])
  {
    hide Errors;
    assert i < |reports| ==> reports[i..][1..] == reports[i + 1..];
  }

  lemma EntryErrorsFrom(entries: seq<Entry>, i: nat)
    requires i <= |entries|
    ensures EntryErrors(entries[i..]) ==
      if i == |entries| then [] else Errors(entries[i].report) + EntryErrors(entries[i + 1..])
  {
    hide Errors;
    assert i < |entries| ==> entries[i..][1..] == entries[i + 1..];
  }

  lemma {:induction false} ErrorsAtFrom(r: Report, keys: seq<Key>, i: nat)
    requires i <= |keys|
    ensures ErrorsAt(r, keys[i..]) ==
      if i == |keys| then [] else Errors(ReportAt(r, keys[i])) + ErrorsAt(r, keys[i + 1..])
  {
    hide Errors, ReportAt;
    assert i < |keys| ==> keys[i..][1..] == keys[i + 1..];
  }

  /** What all of a report's errors are, one level down. */
  lemma {:induction false} ErrorsOf(r: Report)
    ensures r.Blank? ==> Errors(r) == []
    ensures r.Message? ==> Errors(r) == [r.text]
    ensures r.Record? ==> Errors(r) == EntryErrors(r.entries[0..])
    ensures r.List? ==> Errors(r) == ListErrors(r.reports[0..])
  {
    assert r.Record? ==> r.entries[0..] == r.entries;
    assert r.List? ==> r.reports[0..] == r.reports;
  }

  method GetFirstInvalid(r: Report, keys: Option<seq<Key>>) returns (first: Option<string>)
    ensures first == First(ErrorsIn(r, keys))
    decreases keys.Some?, r
  {
    hide ReportAt, Errors, EntryErrors, ListErrors, ErrorsAt;
    ErrorsOf(r);
    first := None;
    if r.Blank? {
      return None;
    } else if r.Message? {
      return Some(r.text);
    } else if keys.Some? {
      assert keys.value[0..] == keys.value;
      for i := 0 to |keys.value|
        invariant first.None? && First(ErrorsAt(r, keys.value)) == First(ErrorsAt(r, keys.value[i..]))
      {
        ErrorsAtFrom(r, keys.value, i);
        first := GetFirstInvalid(ReportAt(r, keys.value[i]), None);
        if first.Some? {
          return;
        }
      }
      ErrorsAtFrom(r, keys.value, |keys.value|);
    } else if r.List? {
      for i := 0 to |r.reports|
        invariant first.None? && First(Errors(r)) == First(ListErrors(r.reports[i..]))
      {
        ListErrorsFrom(r.reports, i);
        first := GetFirstInvalid(r.reports[i], None);
        if first.Some? {
          return;
        }
      }
      ListErrorsFrom(r.reports, |r.reports|);
    } else {
      for i := 0 to |r.entries|
        invariant first.None? && First(Errors(r)) == First(EntryErrors(r.entries[i..]))
      {
        EntryErrorsFrom(r.entries, i);
        first := GetFirstInvalid(r.entries[i].report, None);
        if first.Some? {
          return;
        }
      }
      EntryErrorsFrom(r.entries, |r.entries|);
    }
  }

  // ---------------------------------------------------------------- the leaves, one by one

  /** The rule a path leads to, when the path exists in the value. */
  function RuleAt(rule: Rule, v: Js, p: Path): Option<Rule>
    decreases p
  {
    if p == [] then Some(rule)
    else if rule.Fields? && p[0].Name? then
      var sub := FieldNamed(rule.fields, p[0].name);
      if sub.Some? then RuleAt(sub.value, Child(v, p[0]), p[1..]) else None
    else if rule.Each? && p[0].Index? && v.Arr? && p[0].i < |v.items| then
      RuleAt(rule.item, v.items[p[0].i], p[1..])
    else None
  }

  function LeafAt(rule: Rule, v: Js, p: Path): Option<(Js, Js) -> Report> {
    var at := RuleAt(rule, v, p);
    if at.Some? && at.value.Check? then Some(at.value.check) else None
  }

  function FieldNamed(fields: seq<Field>, name: string): Option<Rule> {
    if fields == [] then None
    else if fields[0].name == name then Some(fields[0].rule)
    else FieldNamed(fields[1..], name)
  }

  /** What a validator is handed as the parent of the value at the path. */
  function ParentOf(v: Js, p: Path, outer: Js): Js {
    if p == [] then outer else ObjectOf(Pick(v, p[..|p| - 1]))
  }

  /** The parent is the value one step up, or an empty object in place of a falsy one. */
  lemma ParentIs(v: Js, host: Path, key: Key, outer: Js)
    ensures ParentOf(v, [], outer) == outer
    ensures ParentOf(v, host + [key], outer) ==
      if Pick(v, host) in {Absent, Text(""), Number(0), Flag(false)} then Obj(map[]) else Pick(v, host)
  {
    assert (host + [key])[..|host|] == host;
    FalsyAre(Pick(v, host));
  }

  /** The object keys of a rule are distinct. */
  ghost predicate WellFormed(rule: Rule)
    decreases rule, 0
  {
    match rule
    case Check(_) => true
    case Fields(fields) => WellFormedFields(fields)
    case Each(item) => WellFormed(item)
  }

  ghost predicate WellFormedFields(fields: seq<Field>)
    decreases fields, 1
  {
    fields == [] ||
    (FieldNamed(fields[1..], fields[0].name).None? && WellFormed(fields[0].rule) && WellFormedFields(fields[1..]))
  }

  datatype Verdict = Verdict(path: Path, report: Report)

  function Under(key: Key, vs: seq<Verdict>): seq<Verdict> {
    seq(|vs|, i requires 0 <= i < |vs| => Verdict([key] + vs[i].path, vs[i].report))
  }

  /** Every leaf validator's verdict on the value at its position, in traversal order. */
  ghost function Verdicts(rule: Rule, v: Js, outer: Js): seq<Verdict>
    decreases rule, 0
  {
    match rule
    case Check(check) => [Verdict([], check(v, outer))]
    case Fields(fields) => FieldVerdicts(fields, ObjectOf(v))
    case Each(item) => if v.Arr? then ItemVerdicts(item, v.items, 0, v) else []
  }

  ghost function FieldVerdicts(fields: seq<Field>, v: Js): seq<Verdict>
    decreases fields, 1
  {
    if fields == [] then []
    else
      var key := Name(fields[0].name);
      Under(key, Verdicts(fields[0].rule, Child(v, key), v)) + FieldVerdicts(fields[1..], v)
  }

  ghost function ItemVerdicts(item: Rule, items: seq<Js>, i: nat, outer: Js): seq<Verdict>
    requires i <= |items|
    decreases item, 1, |items| - i
  {
    if i == |items| then []
    else Under(Index(i), Verdicts(item, items[i], outer)) + ItemVerdicts(item, items, i + 1, outer)
  }

  ghost function VerdictErrors(vs: seq<Verdict>): seq<string> {
    if vs == [] then [] else Errors(vs[0].report) + VerdictErrors(vs[1..])
  }

  lemma {:induction false} ErrorsOfBoth(a: seq<Verdict>, b: seq<Verdict>)
    ensures VerdictErrors(a + b) == VerdictErrors(a) + VerdictErrors(b)
  {
    hide Errors;
    if a == [] {
      assert a + b == b;
    } else {
      assert (a + b)[1..] == a[1..] + b;
      ErrorsOfBoth(a[1..], b);
    }
  }

  lemma {:induction false} UnderErrors(key: Key, vs: seq<Verdict>)
    ensures VerdictErrors(Under(key, vs)) == VerdictErrors(vs)
  {
    hide Errors;
    if vs != [] {
      assert Under(key, vs)[1..] == Under(key, vs[1..]);
      UnderErrors(key, vs[1..]);
    }
  }

  // ---------------------------------------------------------------- the report holds the verdicts

  lemma {:induction false} ApplyErrors(rule: Rule, v: Js, outer: Js)
    requires Apply(rule, v, outer).Some?
    ensures Errors(Apply(rule, v, outer).value) == VerdictErrors(Verdicts(rule, v, outer))
    decreases rule, 0
  {
    hide CombineFields, CombineItems, FieldVerdicts, ItemVerdicts, EntryErrors, ListErrors;
    match rule
    case Check(check) =>
      assert [Verdict([], check(v, outer))][1..] == [];
    case Fields(fields) => FieldsErrors(fields, ObjectOf(v));
    case Each(item) =>
      if v.Arr? {
        assert v.items[0..] == v.items;
        ItemsErrors(item, v.items, 0, v);
      } else {
        NoErrors();
      }
  }

  lemma NoErrors()
    ensures ListErrors([]) == []
  {
  }

  lemma {:induction false} FieldsErrors(fields: seq<Field>, v: Js)
    requires CombineFields(fields, v).Some?
    ensures EntryErrors(CombineFields(fields, v).value) == VerdictErrors(FieldVerdicts(fields, v))
    decreases fields, 1
  {
    hide Verdicts, Apply, Errors, Child;
    if fields != [] {
      var key := Name(fields[0].name);
      ApplyErrors(fields[0].rule, Child(v, key), v);
      FieldsErrors(fields[1..], v);
      var vs := Verdicts(fields[0].rule, Child(v, key), v);
      UnderErrors(key, vs);
      ErrorsOfBoth(Under(key, vs), FieldVerdicts(fields[1..], v));
      assert CombineFields(fields, v).value[1..] == CombineFields(fields[1..], v).value;
    }
  }

  lemma {:induction false} ItemsErrors(item: Rule, items: seq<Js>, i: nat, outer: Js)
    requires i <= |items| && CombineItems(item, items[i..], outer).Some?
    ensures ListErrors(CombineItems(item, items[i..], outer).value) ==
      VerdictErrors(ItemVerdicts(item, items, i, outer))
    decreases item, 1, |items| - i
  {
    hide Verdicts, Apply, Errors;
    if i < |items| {
      assert items[i..][1..] == items[i + 1..];
      ApplyErrors(item, items[i], outer);
      ItemsErrors(item, items, i + 1, outer);
      var vs := Verdicts(item, items[i], outer);
      UnderErrors(Index(i), vs);
      ErrorsOfBoth(Under(Index(i), vs), ItemVerdicts(item, items, i + 1, outer));
      assert CombineItems(item, items[i..], outer).value[1..] == CombineItems(item, items[i + 1..], outer).value;
    }
  }

  /** `w` is the verdict of the leaf validator its path leads to, on the value at that path. */
  ghost predicate IsVerdict(rule: Rule, v: Js, outer: Js, w: Verdict) {
    LeafAt(rule, v, w.path).Some? &&
    w.report == LeafAt(rule, v, w.path).value(Pick(v, w.path), ParentOf(v, w.path, outer))
  }

  function Below(w: Verdict): Verdict
    requires w.path != []
  {
    Verdict(w.path[1..], w.report)
  }

  lemma InUnder(key: Key, vs: seq<Verdict>, w: Verdict)
    ensures w in Under(key, vs) <==> w.path != [] && w.path[0] == key && Below(w) in vs
  {
    var us := Under(key, vs);
    if w in us {
      var i :| 0 <= i < |us| && us[i] == w;
      assert w.path[1..] == vs[i].path;
      assert Below(w) == vs[i];
    }
    if w.path != [] && w.path[0] == key && Below(w) in vs {
      var i :| 0 <= i < |vs| && vs[i] == Below(w);
      assert w.path == [key] + w.path[1..];
      assert us[i] == w;
    }
  }

  lemma {:induction false} ParentStep(v: Js, p: Path, outer: Js)
    requires p != []
    ensures ParentOf(v, p, outer) == ParentOf(Child(v, p[0]), p[1..], ObjectOf(v))
    ensures Pick(v, p) == Pick(Child(v, p[0]), p[1..])
  {
    if |p| > 1 {
      assert p[1..][..|p| - 2] == p[..|p| - 1][1..];
    }
  }

  lemma {:induction false} FieldStep(fields: seq<Field>, v: Js, outer: Js, w: Verdict)
    ensures IsVerdict(Fields(fields), v, outer, w) <==>
      w.path != [] && w.path[0].Name? && FieldNamed(fields, w.path[0].name).Some? &&
      IsVerdict(FieldNamed(fields, w.path[0].name).value, Child(v, w.path[0]), ObjectOf(v), Below(w))
  {
    hide ParentOf, Pick, FieldNamed, Child;
    if w.path != [] {
      ParentStep(v, w.path, outer);
    }
  }

  lemma ItemStep(item: Rule, v: Js, outer: Js, w: Verdict)
    requires v.Arr?
    ensures IsVerdict(Each(item), v, outer, w) <==>
      w.path != [] && w.path[0].Index? && w.path[0].i < |v.items| &&
      IsVerdict(item, v.items[w.path[0].i], v, Below(w))
  {
    hide ParentOf, Pick;
    if w.path != [] {
      ParentStep(v, w.path, outer);
    }
  }

  lemma {:induction false} VerdictsAreLeaves(rule: Rule, v: Js, outer: Js, w: Verdict)
    requires WellFormed(rule)
    ensures w in Verdicts(rule, v, outer) <==> IsVerdict(rule, v, outer, w)
    decreases rule, 0
  {
    hide FieldVerdicts, ItemVerdicts, IsVerdict, FieldNamed, Child;
    match rule
    case Check(check) => CheckVerdict(check, v, outer, w);
    case Fields(fields) =>
      FieldVerdictsAre(fields, ObjectOf(v), w);
      FieldStep(fields, v, outer, w);
      if w.path != [] {
        SameChild(v, w.path[0]);
      }
    case Each(item) =>
      if v.Arr? {
        ItemVerdictsAre(item, v.items, 0, v, w);
        ItemStep(item, v, outer, w);
      } else {
        NoItems(item, v, outer, w);
      }
  }

  lemma {:induction false} CheckVerdict(check: (Js, Js) -> Report, v: Js, outer: Js, w: Verdict)
    ensures w in Verdicts(Check(check), v, outer) <==> IsVerdict(Check(check), v, outer, w)
  {
  }

  lemma NoItems(item: Rule, v: Js, outer: Js, w: Verdict)
    requires !v.Arr?
    ensures !IsVerdict(Each(item), v, outer, w)
  {
  }

  lemma SameChild(v: Js, k: Key)
    ensures Child(ObjectOf(v), k) == Child(v, k)
  {
  }

  lemma {:induction false} FieldVerdictsAre(fields: seq<Field>, v: Js, w: Verdict)
    requires WellFormedFields(fields)
    ensures w in FieldVerdicts(fields, v) <==>
      w.path != [] && w.path[0].Name? && FieldNamed(fields, w.path[0].name).Some? &&
      IsVerdict(FieldNamed(fields, w.path[0].name).value, Child(v, w.path[0]), v, Below(w))
    decreases fields, 1
  {
    hide Verdicts, IsVerdict, Child, Under, WellFormed;
    if fields != [] {
      var key := Name(fields[0].name);
      FieldVerdictsAre(fields[1..], v, w);
      InUnder(key, Verdicts(fields[0].rule, Child(v, key), v), w);
      if w.path != [] {
        VerdictsAreLeaves(fields[0].rule, Child(v, key), v, Below(w));
      }
    }
  }

  lemma {:induction false} ItemVerdictsAre(item: Rule, items: seq<Js>, i: nat, outer: Js, w: Verdict)
    requires i <= |items| && WellFormed(item)
    ensures w in ItemVerdicts(item, items, i, outer) <==>
      w.path != [] && w.path[0].Index? && i <= w.path[0].i < |items| &&
      IsVerdict(item, items[w.path[0].i], outer, Below(w))
    decreases item, 1, |items| - i
  {
    hide Verdicts, IsVerdict, Under, WellFormed;
    if i < |items| {
      ItemVerdictsAre(item, items, i + 1, outer, w);
      InUnder(Index(i), Verdicts(item, items[i], outer), w);
      if w.path != [] {
        VerdictsAreLeaves(item, items[i], outer, Below(w));
      }
    }
  }

  // ---------------------------------------------------------------- traversal order

  function Position(fields: seq<Field>, name: string): nat {
    if fields == [] || fields[0].name == name then 0 else 1 + Position(fields[1..], name)
  }

  /** The order of positions: fields as the rule lists them, items as the array does. */
  predicate Before(rule: Rule, p: Path, q: Path)
    decreases p
  {
    if p == [] || q == [] then false
    else if rule.Fields? && p[0] == q[0] then
      p[0].Name? && FieldNamed(rule.fields, p[0].name).Some? &&
      Before(FieldNamed(rule.fields, p[0].name).value, p[1..], q[1..])
    else if rule.Fields? then
      p[0].Name? && q[0].Name? && Position(rule.fields, p[0].name) < Position(rule.fields, q[0].name)
    else
      rule.Each? && p[0].Index? && q[0].Index? &&
      (p[0].i < q[0].i || (p[0] == q[0] && Before(rule.item, p[1..], q[1..])))
  }

  /** No two positions come each before the other, and none before itself. */
  lemma {:induction false} BeforeIsStrict(rule: Rule, p: Path, q: Path)
    requires Before(rule, p, q)
    ensures !Before(rule, q, p)
    decreases p
  {
    if p[0] == q[0] {
      if rule.Fields? {
        BeforeIsStrict(FieldNamed(rule.fields, p[0].name).value, p[1..], q[1..]);
      } else {
        BeforeIsStrict(rule.item, p[1..], q[1..]);
      }
    }
  }

  ghost predicate Ordered(rule: Rule, vs: seq<Verdict>) {
    forall i, j :: 0 <= i < j < |vs| ==> Before(rule, vs[i].path, vs[j].path)
  }

  lemma {:induction false} OrderedBoth(rule: Rule, a: seq<Verdict>, b: seq<Verdict>)
    requires Ordered(rule, a) && Ordered(rule, b)
    requires forall i, j :: 0 <= i < |a| && 0 <= j < |b| ==> Before(rule, a[i].path, b[j].path)
    ensures Ordered(rule, a + b)
  {
  }

  lemma {:induction false} OrderedUnderField(fields: seq<Field>, name: string, vs: seq<Verdict>)
    requires FieldNamed(fields, name).Some? && Ordered(FieldNamed(fields, name).value, vs)
    ensures Ordered(Fields(fields), Under(Name(name), vs))
  {
  }

  lemma OrderedUnderItem(item: Rule, k: nat, vs: seq<Verdict>)
    requires Ordered(item, vs)
    ensures Ordered(Each(item), Under(Index(k), vs))
  {
  }

  lemma {:induction false} VerdictsOrdered(rule: Rule, v: Js, outer: Js)
    requires WellFormed(rule)
    ensures Ordered(rule, Verdicts(rule, v, outer))
    decreases rule, 0
  {
    hide FieldVerdicts, ItemVerdicts, Before;
    match rule
    case Check(_) =>
    case Fields(fields) => FieldVerdictsOrdered(fields, ObjectOf(v));
    case Each(item) =>
      if v.Arr? {
        ItemVerdictsOrdered(item, v.items, 0, v);
      }
  }

  lemma {:induction false} BeforeInMore(field: Field, fields: seq<Field>, p: Path, q: Path)
    requires Before(Fields(fields), p, q) && p != [] && q != []
    requires p[0] != Name(field.name) && q[0] != Name(field.name)
    ensures Before(Fields([field] + fields), p, q)
  {
  }

  lemma {:induction false} FieldVerdictsOrdered(fields: seq<Field>, v: Js)
    requires WellFormedFields(fields)
    ensures Ordered(Fields(fields), FieldVerdicts(fields, v))
    decreases fields, 1
  {
    hide Verdicts, Before, Under, IsVerdict, WellFormed, Child;
    if fields != [] {
      var key := Name(fields[0].name);
      var rest := fields[1..];
      var vs := Verdicts(fields[0].rule, Child(v, key), v);
      var a, b := Under(key, vs), FieldVerdicts(rest, v);
      VerdictsOrdered(fields[0].rule, Child(v, key), v);
      OrderedUnderField(fields, fields[0].name, vs);
      FieldVerdictsOrdered(rest, v);
      assert fields == [fields[0]] + rest;
      forall i, j | 0 <= i < j < |b|
        ensures Before(Fields(fields), b[i].path, b[j].path)
      {
        FieldVerdictsAre(rest, v, b[i]);
        FieldVerdictsAre(rest, v, b[j]);
        BeforeInMore(fields[0], rest, b[i].path, b[j].path);
      }
      forall i, j | 0 <= i < |a| && 0 <= j < |b|
        ensures Before(Fields(fields), a[i].path, b[j].path)
      {
        InUnder(key, vs, a[i]);
        FieldVerdictsAre(rest, v, b[j]);
        FirstFieldBefore(fields, a[i].path, b[j].path);
      }
      OrderedBoth(Fields(fields), a, b);
    }
  }

  lemma {:induction false} FirstFieldBefore(fields: seq<Field>, p: Path, q: Path)
    requires fields != [] && p != [] && q != [] && p[0] == Name(fields[0].name)
    requires q[0].Name? && q[0] != p[0]
    ensures Before(Fields(fields), p, q)
  {
  }

  lemma {:induction false} ItemVerdictsOrdered(item: Rule, items: seq<Js>, i: nat, outer: Js)
    requires i <= |items| && WellFormed(item)
    ensures Ordered(Each(item), ItemVerdicts(item, items, i, outer))
    decreases item, 1, |items| - i
  {
    hide Verdicts, Before, Under, IsVerdict, WellFormed;
    if i < |items| {
      var vs := Verdicts(item, items[i], outer);
      var a, b := Under(Index(i), vs), ItemVerdicts(item, items, i + 1, outer);
      VerdictsOrdered(item, items[i], outer);
      OrderedUnderItem(item, i, vs);
      ItemVerdictsOrdered(item, items, i + 1, outer);
      forall j, k | 0 <= j < |a| && 0 <= k < |b|
        ensures Before(Each(item), a[j].path, b[k].path)
      {
        InUnder(Index(i), vs, a[j]);
        ItemVerdictsAre(item, items, i + 1, outer, b[k]);
        EarlierItemBefore(item, a[j].path, b[k].path);
      }
      OrderedBoth(Each(item), a, b);
    }
  }

  lemma {:induction false} EarlierItemBefore(item: Rule, p: Path, q: Path)
    requires p != [] && q != [] && p[0].Index? && q[0].Index? && p[0].i < q[0].i
    ensures Before(Each(item), p, q)
  {
  }

  // ---------------------------------------------------------------- exactness

  /** The verdict of the leaf validator at the position; below the root its parent is in the value. */
  function VerdictAt(rule: Rule, v: Js, p: Path): Report
    requires LeafAt(rule, v, p).Some?
  {
    LeafAt(rule, v, p).value(Pick(v, p), ParentOf(v, p, Absent))
  }

  lemma {:induction false} FirstVerdict(vs: seq<Verdict>) returns (i: nat)
    requires VerdictErrors(vs) != []
    ensures i < |vs| && Errors(vs[i].report) != [] && First(Errors(vs[i].report)) == First(VerdictErrors(vs))
    ensures forall j :: 0 <= j < i ==> Errors(vs[j].report) == []
  {
    hide Errors;
    i := 0;
    if Errors(vs[0].report) == [] {
      var k := FirstVerdict(vs[1..]);
      i := k + 1;
      assert forall j :: 0 < j < i ==> vs[j] == vs[1..][j - 1];
    }
  }

  lemma {:induction false} AllAccept(vs: seq<Verdict>, i: nat)
    requires VerdictErrors(vs) == [] && i < |vs|
    ensures Errors(vs[i].report) == []
  {
    hide Errors;
    if i > 0 {
      AllAccept(vs[1..], i - 1);
    }
  }

  lemma {:induction false} TreeValidIff(rule: Rule, v: Js)
    requires WellFormed(rule) && !rule.Check? && Combine(rule, v).Some?
    ensures First(Errors(Combine(rule, v).value)).None? <==>
      forall p :: LeafAt(rule, v, p).Some? ==> Errors(VerdictAt(rule, v, p)) == []
  {
    hide Combine, Errors, Verdicts, LeafAt, VerdictErrors, Pick, ParentOf, WellFormed;
    ApplyErrors(rule, v, Absent);
    var vs := Verdicts(rule, v, Absent);
    if VerdictErrors(vs) == [] {
      forall p | LeafAt(rule, v, p).Some?
        ensures Errors(VerdictAt(rule, v, p)) == []
      {
        var w := Verdict(p, VerdictAt(rule, v, p));
        VerdictsAreLeaves(rule, v, Absent, w);
        var i :| 0 <= i < |vs| && vs[i] == w;
        AllAccept(vs, i);
      }
    } else {
      var i := FirstVerdict(vs);
      VerdictsAreLeaves(rule, v, Absent, vs[i]);
      assert Errors(VerdictAt(rule, v, vs[i].path)) != [];
    }
  }

  /** A function given instead of an object or array of validators is never called. */
  lemma {:induction false} RootFunctionIsIgnored(rule: Rule, v: Js)
    ensures rule.Check? ==> Combine(rule, v).Some? && Errors(Combine(rule, v).value) == []
    ensures rule.Check? ==> forall p :: p != [] ==> LeafAt(rule, v, p).None?
    ensures LeafAt(rule, v, []).Some? <==> rule.Check?
  {
  }

  /**
   A form is found valid exactly when every leaf validator below the root accepts the value at its
   position; a function at the root has no say.
   */
  lemma {:induction false} ValidIff(rule: Rule, v: Js)
    requires WellFormed(rule) && Combine(rule, v).Some?
    ensures First(Errors(Combine(rule, v).value)).None? <==>
      forall p :: p != [] && LeafAt(rule, v, p).Some? ==> Errors(VerdictAt(rule, v, p)) == []
  {
    hide Combine, Errors, LeafAt, WellFormed, VerdictAt;
    RootFunctionIsIgnored(rule, v);
    if !rule.Check? {
      TreeValidIff(rule, v);
    }
  }

  /** The error found is the first of the leaf that comes first, in traversal order, of those that object. */
  lemma FirstObjection(rule: Rule, v: Js) returns (p: Path)
    requires WellFormed(rule) && Combine(rule, v).Some?
    requires First(Errors(Combine(rule, v).value)).Some?
    ensures LeafAt(rule, v, p).Some?
    ensures First(Errors(Combine(rule, v).value)) == First(Errors(VerdictAt(rule, v, p)))
    ensures forall q :: q != p && LeafAt(rule, v, q).Some? && Errors(VerdictAt(rule, v, q)) != [] ==> Before(rule, p, q)
  {
    hide Combine, Errors, Verdicts, LeafAt, VerdictErrors, Pick, ParentOf, WellFormed, Before;
    RootFunctionIsIgnored(rule, v);
    ApplyErrors(rule, v, Absent);
    var vs := Verdicts(rule, v, Absent);
    var i := FirstVerdict(vs);
    p := vs[i].path;
    VerdictsAreLeaves(rule, v, Absent, vs[i]);
    VerdictsOrdered(rule, v, Absent);
    forall q | q != p && LeafAt(rule, v, q).Some? && Errors(VerdictAt(rule, v, q)) != []
      ensures Before(rule, p, q)
    {
      var w := Verdict(q, VerdictAt(rule, v, q));
      VerdictsAreLeaves(rule, v, Absent, w);
      var j :| 0 <= j < |vs| && vs[j] == w;
    }
  }

  // ---------------------------------------------------------------- when validation throws

  /** An array rule meets a truthy value that is no array. */
  predicate Blocked(rule: Rule, v: Js, p: Path) {
    var at := RuleAt(rule, v, p);
    at.Some? && at.value.Each? && Truthy(Pick(v, p)) && !Pick(v, p).Arr?
  }

  predicate FieldBlocked(fields: seq<Field>, v: Js, p: Path) {
    p != [] && p[0].Name? && FieldNamed(fields, p[0].name).Some? &&
    Blocked(FieldNamed(fields, p[0].name).value, Child(v, p[0]), p[1..])
  }

  predicate ItemBlocked(item: Rule, items: seq<Js>, i: nat, p: Path) {
    p != [] && p[0].Index? && i <= p[0].i < |items| && Blocked(item, items[p[0].i], p[1..])
  }

  lemma BlockedStep(rule: Rule, v: Js, p: Path)
    ensures rule.Check? ==> !Blocked(rule, v, p)
    ensures rule.Fields? ==> Blocked(rule, v, p) == FieldBlocked(rule.fields, ObjectOf(v), p)
    ensures rule.Each? && v.Arr? ==> Blocked(rule, v, p) == ItemBlocked(rule.item, v.items, 0, p)
    ensures rule.Each? && !v.Arr? ==> Blocked(rule, v, p) == (p == [] && Truthy(v))
  {
  }

  lemma {:induction false} ThrowsIff(rule: Rule, v: Js, outer: Js)
    requires WellFormed(rule)
    ensures Apply(rule, v, outer).None? <==> exists p :: Blocked(rule, v, p)
    decreases rule, 0
  {
    hide CombineFields, CombineItems, Blocked, FieldBlocked, ItemBlocked;
    forall p
      ensures rule.Check? ==> !Blocked(rule, v, p)
      ensures rule.Fields? ==> Blocked(rule, v, p) == FieldBlocked(rule.fields, ObjectOf(v), p)
      ensures rule.Each? && v.Arr? ==> Blocked(rule, v, p) == ItemBlocked(rule.item, v.items, 0, p)
      ensures rule.Each? && !v.Arr? ==> Blocked(rule, v, p) == (p == [] && Truthy(v))
    {
      BlockedStep(rule, v, p);
    }
    match rule
    case Check(_) =>
    case Fields(fields) => FieldsThrowIff(fields, ObjectOf(v));
    case Each(item) =>
      if v.Arr? {
        assert v.items[0..] == v.items;
        ItemsThrowIff(item, v.items, 0, v);
      } else {
        assert Blocked(rule, v, []) == Truthy(v);
      }
  }

  lemma {:induction false} FieldsThrowIff(fields: seq<Field>, v: Js)
    requires WellFormedFields(fields)
    ensures CombineFields(fields, v).None? <==> exists p :: FieldBlocked(fields, v, p)
    decreases fields, 1
  {
    hide Apply, Blocked, Child, WellFormed;
    if fields != [] {
      var key := Name(fields[0].name);
      ThrowsIff(fields[0].rule, Child(v, key), v);
      FieldsThrowIff(fields[1..], v);
      forall p
        ensures FieldBlocked(fields[1..], v, p) ==> FieldBlocked(fields, v, p)
        ensures FieldBlocked(fields, v, p) ==>
          FieldBlocked(fields[1..], v, p) || Blocked(fields[0].rule, Child(v, key), p[1..])
      {
      }
      forall p | Blocked(fields[0].rule, Child(v, key), p)
        ensures FieldBlocked(fields, v, [key] + p)
      {
        assert ([key] + p)[1..] == p;
      }
    }
  }

  lemma {:induction false} ItemsThrowIff(item: Rule, items: seq<Js>, i: nat, outer: Js)
    requires i <= |items| && WellFormed(item)
    ensures CombineItems(item, items[i..], outer).None? <==> exists p :: ItemBlocked(item, items, i, p)
    decreases item, 1, |items| - i
  {
    hide Apply, Blocked, WellFormed;
    if i < |items| {
      assert items[i..][1..] == items[i + 1..];
      ThrowsIff(item, items[i], outer);
      ItemsThrowIff(item, items, i + 1, outer);
      forall p
        ensures ItemBlocked(item, items, i + 1, p) ==> ItemBlocked(item, items, i, p)
        ensures ItemBlocked(item, items, i, p) ==> ItemBlocked(item, items, i + 1, p) || Blocked(item, items[i], p[1..])
      {
      }
      forall p | Blocked(item, items[i], p)
        ensures ItemBlocked(item, items, i, [Index(i)] + p)
      {
        assert ([Index(i)] + p)[1..] == p;
      }
    }
  }

  // ---------------------------------------------------------------- errors of given keys

  function KeysOf(r: Report): seq<Key> {
    match r
    case Record(entries) => seq(|entries|, i requires 0 <= i < |entries| => Name(entries[i].name))
    case List(reports) => seq(|reports|, i requires 0 <= i < |reports| => Index(i))
    case _ => []
  }

  ghost predicate DistinctNames(entries: seq<Entry>) {
    forall i, j :: 0 <= i < j < |entries| ==> entries[i].name != entries[j].name
  }

  lemma {:induction false} EntryAtIs(entries: seq<Entry>, i: nat)
    requires DistinctNames(entries) && i < |entries|
    ensures EntryAt(entries, entries[i].name) == entries[i].report
  {
    if i > 0 {
      assert entries[0].name != entries[i].name;
      EntryAtIs(entries[1..], i - 1);
    }
  }

  lemma {:induction false} NoEntryAt(entries: seq<Entry>, name: string)
    requires forall i :: 0 <= i < |entries| ==> entries[i].name != name
    ensures EntryAt(entries, name) == Blank
  {
    if entries != [] {
      NoEntryAt(entries[1..], name);
    }
  }

  lemma {:induction false} ErrorsOfEntries(r: Report, i: nat)
    requires r.Record? && DistinctNames(r.entries) && i <= |r.entries|
    ensures ErrorsAt(r, KeysOf(r)[i..]) == EntryErrors(r.entries[i..])
    decreases |r.entries| - i
  {
    hide Errors, EntryErrors, ErrorsAt, EntryAt;
    ErrorsAtFrom(r, KeysOf(r), i);
    EntryErrorsFrom(r.entries, i);
    if i < |r.entries| {
      EntryAtIs(r.entries, i);
      ErrorsOfEntries(r, i + 1);
    }
  }

  lemma {:induction false} ErrorsOfItems(r: Report, i: nat)
    requires r.List? && i <= |r.reports|
    ensures ErrorsAt(r, KeysOf(r)[i..]) == ListErrors(r.reports[i..])
    decreases |r.reports| - i
  {
    hide Errors, ListErrors, ErrorsAt;
    ErrorsAtFrom(r, KeysOf(r), i);
    ListErrorsFrom(r.reports, i);
    if i < |r.reports| {
      ErrorsOfItems(r, i + 1);
    }
  }

  /** Asking for all of a report's keys is asking for no keys in particular; a key it does not have has no error. */
  lemma AllKeysAllErrors(r: Report)
    requires r.Record? ==> DistinctNames(r.entries)
    ensures ErrorsIn(r, Some(KeysOf(r))) == ErrorsIn(r, None)
  {
    hide EntryErrors, ListErrors, ErrorsAt, Errors;
    ErrorsOf(r);
    assert KeysOf(r)[0..] == KeysOf(r);
    if r.Record? {
      ErrorsOfEntries(r, 0);
    } else if r.List? {
      ErrorsOfItems(r, 0);
    }
  }

  lemma {:induction false} MissingKeyNoError(r: Report, key: Key)
    requires key !in KeysOf(r)
    ensures ErrorsAt(r, [key]) == []
  {
    if r.Record? && key.Name? {
      forall i | 0 <= i < |r.entries|
        ensures r.entries[i].name != key.name
      {
        assert KeysOf(r)[i] in KeysOf(r);
      }
      NoEntryAt(r.entries, key.name);
    } else if r.List? && key.Index? {
      HasIndex(r, key.i);
    }
  }

  lemma HasIndex(r: Report, i: nat)
    requires r.List?
    ensures i < |r.reports| ==> Index(i) in KeysOf(r)
  {
    if i < |r.reports| {
      assert KeysOf(r)[i] == Index(i);
    }
  }
}
