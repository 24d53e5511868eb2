/**
 Whole runs of a form seen from one array: an abstract table of identified items, each with
 its own error and flag, that the three separate trees of the form refine.
 */
module FormRuns {
  import opened FormTree
  import opened FormStore

  /** An item keeps its identity for life. */
  datatype Item = Item(id: nat, row: Row)

  datatype Table = Table(present: bool, items: seq<Item>, next: nat)

  /**
   What can happen to a form, seen from the array at a path. `Above` is the array itself or, for
   a smaller `n`, what its path leads through; `ResetForm` and `LoadForm` set all values, with
   and without a reset.
   */
  datatype Op =
    | SpliceItems(index: nat, count: nat, values: seq<Js>)
    | DeleteItem(i: nat)
    | ChangeItem(i: nat, below: Path, change: Change)
    | ChangeElsewhere(path: Path, elsewhere: Change)
    | ResetForm(value: Js)
    | TouchAll(on: bool)
    | LoadForm(values_: Js)
    | PutAbove(n: nat, put: Js)
    | MarkForm(invalids: Js)
    | MarkAbove(n: nat, invalid: Js)
    | TouchForm(touches: Js)
    | TouchAbove(n: nat, touched: Js)
    | TouchFields(update: map<string, Js>)

  function ActionOf(p: Path, op: Op): Action {
    match op
    case SpliceItems(index, count, values) => At(p, SpliceValue(index, count, values))
    case DeleteItem(i) => At(p + [Index(i)], DeleteValue)
    case ChangeItem(i, q, c) => At(p + ([Index(i)] + q), c)
    case ChangeElsewhere(path, c) => At(path, c)
    case ResetForm(v) => SetValues(v, true)
    case TouchAll(on) => SetAllTouched(on)
    case LoadForm(v) => SetValues(v, false)
    case PutAbove(n, v) => At(Upper(p, n), SetValue(v))
    case MarkForm(e) => SetInvalids(e)
    case MarkAbove(n, e) => At(Upper(p, n), SetInvalid(e))
    case TouchForm(x) => SetTouches(x)
    case TouchAbove(n, x) => At(Upper(p, n), SetTouched(x))
    case TouchFields(update) => UpdateTouches(update)
  }

  function Upper(p: Path, n: nat): Path {
    if n <= |p| then p[..n] else p
  }

  function Lower(p: Path, n: nat): Path {
    if n <= |p| then p[n..] else []
  }

  /** The new values have an array at `q` and no error or flag of the array at `p` lies beyond it. */
  ghost predicate TakesValues(f: Form, p: Path, v: Js, q: Path) {
    FitsArray(v, q) && Covers(f.invalids, p, |Items(Pick(v, q))|) && Covers(f.touches, p, |Items(Pick(v, q))|)
  }

  /**
   Items are changed only where they are, or apart from the array; trees replaced from above have
   an array for it, or nothing, and no marks beyond its items.
   */
  ghost predicate LegalOp(f: Form, p: Path, op: Op) {
    match op
    case ChangeItem(i, q, c) =>
      i < |Rows(f, p)| && FitsChange(f, p + ([Index(i)] + q), c) && (c.DeleteValue? ==> q != [])
    case ChangeElsewhere(path, c) => FitsChange(f, path, c) && Apart(path, c, p)
    case ResetForm(v) => FitsArray(v, p)
    case LoadForm(v) => TakesValues(f, p, v, p)
    case PutAbove(n, v) => TakesValues(f, p, v, Lower(p, n))
    case MarkForm(e) => Covers(e, p, |Rows(f, p)|)
    case MarkAbove(n, e) => Covers(e, Lower(p, n), |Rows(f, p)|)
    case TouchForm(x) => Covers(x, p, |Rows(f, p)|)
    case TouchAbove(n, x) => Covers(x, Lower(p, n), |Rows(f, p)|)
    case TouchFields(update) => Covers(MergedTouches(f.touches, update), p, |Rows(f, p)|)
    case _ => true
  }

  function Fresh(values: seq<Js>, next: nat): (items: seq<Item>)
    ensures |items| == |values|
    ensures forall i :: 0 <= i < |items| ==> items[i] == Item(next + i, Row(values[i], Absent, Absent))
  {
    seq(|values|, i requires 0 <= i < |values| => Item(next + i, Row(values[i], Absent, Absent)))
  }

  function SpliceTable(t: Table, index: nat, count: nat, values: seq<Js>): Table {
    if !t.present && AllAbsent(values) then t
    else
      var holes := if t.present then 0 else index;
      var before := if t.present then t.items else Fresh(Blanks(index), t.next);
      Table(true, Splice(before, index, count, Fresh(values, t.next + holes)), t.next + holes + |values|)
  }

  /** What an operation does to the identified items. */
  function TableStep(t: Table, p: Path, op: Op): Table {
    match op
    case SpliceItems(index, count, values) => SpliceTable(t, index, count, values)
    case DeleteItem(i) => SpliceTable(t, i, 1, [])
    case ChangeItem(i, q, c) =>
      if i < |t.items| && FitsRow(t.items[i].row, q, c) then
        t.(items := t.items[i := t.items[i].(row := ReduceRow(t.items[i].row, q, c))])
      else t
    case ChangeElsewhere(_, _) => t
    case ResetForm(v) =>
      Table(Truthy(Pick(v, p)), Fresh(Items(Pick(v, p)), t.next), t.next + |Items(Pick(v, p))|)
    case TouchAll(_) => t
    case LoadForm(v) => WithValues(t, Pick(v, p))
    case PutAbove(n, v) => WithValues(t, Pick(v, Lower(p, n)))
    case MarkForm(e) => WithErrors(t, Pick(e, p))
    case MarkAbove(n, e) => WithErrors(t, Pick(e, Lower(p, n)))
    case TouchForm(x) => WithFlags(t, Pick(x, p))
    case TouchAbove(n, x) => WithFlags(t, Pick(x, Lower(p, n)))
    case TouchFields(update) =>
      if p != [] && p[0].Name? && p[0].name in update then WithFlags(t, Pick(update[p[0].name], p[1..])) else t
  }

  /** The values at the same places are those of the same items; there may be more or fewer of them. */
  function WithValues(t: Table, v: Js): Table {
    var items := Items(v);
    Table(Truthy(v), seq(|items|, i requires 0 <= i < |items| =>
      if i < |t.items| then t.items[i].(row := t.items[i].row.(value := items[i]))
      else Item(t.next + i, Row(items[i], Absent, Absent))), t.next + |items|)
  }

  function WithErrors(t: Table, e: Js): Table {
    t.(items := seq(|t.items|, i requires 0 <= i < |t.items| =>
      t.items[i].(row := t.items[i].row.(invalid := Child(e, Index(i))))))
  }

  function WithFlags(t: Table, x: Js): Table {
    t.(items := seq(|t.items|, i requires 0 <= i < |t.items| =>
      t.items[i].(row := t.items[i].row.(touched := Child(x, Index(i))))))
  }

  function RowsIn(items: seq<Item>): (rows: seq<Row>)
    ensures |rows| == |items| && forall i :: 0 <= i < |rows| ==> rows[i] == items[i].row
  {
    seq(|items|, i requires 0 <= i < |items| => items[i].row)
  }

  /** The form shows the table: same items in the same order, each with its own error and flag. */
  ghost predicate Shows(f: Form, p: Path, t: Table) {
    Aligned(f, p) && t.present == Truthy(Pick(f.values, p)) && Rows(f, p) == RowsIn(t.items)
  }

  lemma {:induction false} RowsOfSplice(items: seq<Item>, index: nat, count: nat, values: seq<Js>, next: nat)
    ensures RowsIn(Splice(items, index, count, Fresh(values, next))) ==
      Splice(RowsIn(items), index, count, Clean(values))
  {
  }

  lemma ShownSplice(f: Form, p: Path, t: Table, index: nat, count: nat, values: seq<Js>)
    requires Shows(f, p, t)
    ensures Legal(f, At(p, SpliceValue(index, count, values)))
    ensures Shows(Reduce(f, At(p, SpliceValue(index, count, values))), p, SpliceTable(t, index, count, values))
  {
    hide Legal, Reduce, Aligned, Splice, Rows, Pick, Fresh, Clean, RowsIn;
    SpliceAction(f, p, index, count, values);
    if t.present || !AllAbsent(values) {
      var holes := if t.present then 0 else index;
      RowsOfSplice(if t.present then t.items else Fresh(Blanks(index), t.next), index, count, values, t.next + holes);
      FreshAreClean(Blanks(index), t.next);
    }
  }

  lemma {:induction false} FreshAreClean(values: seq<Js>, next: nat)
    ensures RowsIn(Fresh(values, next)) == Clean(values)
  {
  }

  lemma ShownReset(f: Form, p: Path, t: Table, v: Js)
    requires FitsArray(v, p)
    ensures Shows(Reduce(f, SetValues(v, true)), p, TableStep(t, p, ResetForm(v)))
  {
    hide Fits, Pick;
    AbsentLeadsNowhere(p);
    var x := Pick(v, p);
    FreshAreClean(Items(x), t.next);
    assert RowsOf(x, Absent, Absent) == Clean(Items(x));
  }

  /** Before anything is loaded every array is missing and its table empty. */
  lemma InitiallyShown(p: Path)
    ensures Shows(INITIAL, p, Table(false, [], 0))
  {
    AbsentLeadsNowhere(p);
  }

  lemma {:induction false} ShownValues(f: Form, p: Path, t: Table, v: Js)
    requires Shows(f, p, t) && Aligned(f.(values := v), p)
    ensures Shows(f.(values := v), p, WithValues(t, Pick(v, p)))
  {
    hide Pick, Aligned;
    ReplacedValues(f, p, v);
    assert Rows(f.(values := v), p) == RowsIn(WithValues(t, Pick(v, p)).items);
  }

  lemma {:induction false} ShownErrors(f: Form, p: Path, t: Table, e: Js)
    requires Shows(f, p, t) && Aligned(f.(invalids := e), p)
    ensures Shows(f.(invalids := e), p, WithErrors(t, Pick(e, p)))
  {
    hide Pick, Aligned;
    ReplacedInvalids(f, p, e);
    assert Rows(f.(invalids := e), p) == RowsIn(WithErrors(t, Pick(e, p)).items);
  }

  lemma {:induction false} ShownFlags(f: Form, p: Path, t: Table, x: Js)
    requires Shows(f, p, t) && Aligned(f.(touches := x), p)
    ensures Shows(f.(touches := x), p, WithFlags(t, Pick(x, p)))
  {
    hide Pick, Aligned;
    ReplacedTouches(f, p, x);
    assert Rows(f.(touches := x), p) == RowsIn(WithFlags(t, Pick(x, p)).items);
  }

  /** A tree is replaced, as a whole or from above. */
  predicate Replaces(op: Op) {
    op.LoadForm? || op.PutAbove? || op.MarkForm? || op.MarkAbove? || op.TouchForm? || op.TouchAbove? || op.TouchFields?
  }

  /** The values, errors and flags after it. */
  function Replaced(f: Form, p: Path, op: Op): Form
    requires Legal(f, ActionOf(p, op))
  {
    match op
    case LoadForm(v) => f.(values := v)
    case PutAbove(n, v) => f.(values := Update(f.values, Upper(p, n), v))
    case MarkForm(e) => f.(invalids := e)
    case MarkAbove(n, e) => f.(invalids := Update(f.invalids, Upper(p, n), e))
    case TouchForm(x) => f.(touches := x)
    case TouchAbove(n, x) => f.(touches := Update(f.touches, Upper(p, n), x))
    case TouchFields(update) => f.(touches := MergedTouches(f.touches, update))
    case _ => f
  }

  lemma ReduceReplaces(f: Form, p: Path, op: Op)
    requires Replaces(op) && Legal(f, ActionOf(p, op))
    ensures Reduce(f, ActionOf(p, op)) == Replaced(f, p, op)
  {
    hide Update, Fits, Pick;
  }

  lemma {:induction false} UpperAndLower(d: Js, p: Path, n: nat, v: Js)
    requires Fits(d, Upper(p, n))
    ensures Pick(Update(d, Upper(p, n), v), p) == Pick(v, Lower(p, n))
    ensures Fits(Update(d, Upper(p, n), v), p) <==> Fits(v, Lower(p, n))
  {
    hide Update, Fits, Pick;
    if n <= |p| {
      UpdateAbove(d, p, n, v);
    } else {
      assert p[..|p|] == p && p[|p|..] == [];
      UpdateAbove(d, p, |p|, v);
    }
  }

  /**
   Replacing a tree from above, as the whole form or at the array or anywhere on its path, keeps
   the three trees aligned exactly when the new tree has an array there, or nothing, and the
   marks do not go beyond the items.
   */
  lemma ReplacingKeepsAlignedIff(f: Form, p: Path, op: Op)
    requires Aligned(f, p) && Replaces(op) && Legal(f, ActionOf(p, op))
    ensures Aligned(Reduce(f, ActionOf(p, op)), p) <==> LegalOp(f, p, op)
  {
    hide Update, Fits, Pick, Aligned, Within, Rows, Upper, Lower;
    ReduceReplaces(f, p, op);
    match op
    case LoadForm(v) => ReplacedValues(f, p, v);
    case PutAbove(n, v) =>
      UpperAndLower(f.values, p, n, v);
      ReplacedValues(f, p, Update(f.values, Upper(p, n), v));
    case MarkForm(e) => ReplacedInvalids(f, p, e);
    case MarkAbove(n, e) =>
      UpperAndLower(f.invalids, p, n, e);
      ReplacedInvalids(f, p, Update(f.invalids, Upper(p, n), e));
    case TouchForm(x) => ReplacedTouches(f, p, x);
    case TouchAbove(n, x) =>
      UpperAndLower(f.touches, p, n, x);
      ReplacedTouches(f, p, Update(f.touches, Upper(p, n), x));
    case TouchFields(update) => ReplacedTouches(f, p, MergedTouches(f.touches, update));
  }

  lemma ShownReplaced(f: Form, p: Path, t: Table, op: Op)
    requires Shows(f, p, t) && Replaces(op) && Legal(f, ActionOf(p, op)) && LegalOp(f, p, op)
    ensures Shows(Reduce(f, ActionOf(p, op)), p, TableStep(t, p, op))
  {
    hide Update, Fits, Pick, Aligned, Covers, Upper, Lower, WithValues, WithErrors, WithFlags, MergedTouches;
    ReduceReplaces(f, p, op);
    ReplacingKeepsAlignedIff(f, p, op);
    match op
    case LoadForm(v) => ShownValues(f, p, t, v);
    case PutAbove(n, v) =>
      UpperAndLower(f.values, p, n, v);
      ShownValues(f, p, t, Update(f.values, Upper(p, n), v));
    case MarkForm(e) => ShownErrors(f, p, t, e);
    case MarkAbove(n, e) =>
      UpperAndLower(f.invalids, p, n, e);
      ShownErrors(f, p, t, Update(f.invalids, Upper(p, n), e));
    case TouchForm(x) => ShownFlags(f, p, t, x);
    case TouchAbove(n, x) =>
      UpperAndLower(f.touches, p, n, x);
      ShownFlags(f, p, t, Update(f.touches, Upper(p, n), x));
    case TouchFields(update) => ShownMerge(f, p, t, update);
  }

  lemma ShownMerge(f: Form, p: Path, t: Table, update: map<string, Js>)
    requires Shows(f, p, t) && Accepts(f.touches, Name(""))
    requires Aligned(f.(touches := MergedTouches(f.touches, update)), p)
    ensures Shows(f.(touches := MergedTouches(f.touches, update)), p, TableStep(t, p, TouchFields(update)))
  {
    hide Pick, Aligned, WithFlags, MergedTouches;
    var x := MergedTouches(f.touches, update);
    ShownFlags(f, p, t, x);
    if p != [] && p[0].Name? {
      assert p == [p[0]] + p[1..];
      MergedAt(f.touches, update, p[0].name, p[1..]);
    }
    if !(p != [] && p[0].Name? && p[0].name in update) {
      NothingMerged(f, p, update);
      SameFlags(f, p, t, Pick(f.touches, p));
    }
  }

  /** Merged fields that the path does not begin with change nothing under it. */
  lemma {:induction false} NothingMerged(f: Form, p: Path, update: map<string, Js>)
    requires Accepts(f.touches, Name("")) && !(p != [] && p[0].Name? && p[0].name in update)
    requires Aligned(f.(touches := MergedTouches(f.touches, update)), p)
    ensures Pick(MergedTouches(f.touches, update), p) == Pick(f.touches, p)
  {
  }

  lemma {:induction false} SameFlags(f: Form, p: Path, t: Table, x: Js)
    requires Shows(f, p, t) && x == Pick(f.touches, p)
    ensures WithFlags(t, x) == t
  {
    hide Pick, Aligned;
    forall i | 0 <= i < |t.items|
      ensures t.items[i].row.touched == Child(x, Index(i))
    {
      assert Rows(f, p)[i] == RowsIn(t.items)[i];
    }
    assert WithFlags(t, x).items == t.items;
  }

  lemma ShownStep(f: Form, p: Path, t: Table, op: Op)
    requires Shows(f, p, t) && LegalOp(f, p, op) && (Replaces(op) ==> Legal(f, ActionOf(p, op)))
    ensures Legal(f, ActionOf(p, op)) && Shows(Reduce(f, ActionOf(p, op)), p, TableStep(t, p, op))
  {
    hide Aligned, SpliceTable, Rows, Pick, FitsChange, RowsIn, Fits, FitsRow, Apply;
    match op
    case SpliceItems(index, count, values) => ShownSplice(f, p, t, index, count, values);
    case DeleteItem(i) =>
      ShownSplice(f, p, t, i, 1, []);
      DeleteIsSplice(f, p, i);
    case ChangeItem(i, q, c) => ShownChange(f, p, t, i, q, c);
    case ChangeElsewhere(path, c) => OutsideAction(f, p, path, c);
    case ResetForm(v) => ShownReset(f, p, t, v);
    case TouchAll(on) => TouchingAllShowsTheSame(f, p, on);
    case _ => ShownReplaced(f, p, t, op);
  }

  lemma ShownChange(f: Form, p: Path, t: Table, i: nat, q: Path, c: Change)
    requires Shows(f, p, t) && LegalOp(f, p, ChangeItem(i, q, c))
    ensures Shows(Reduce(f, ActionOf(p, ChangeItem(i, q, c))), p, TableStep(t, p, ChangeItem(i, q, c)))
  {
    hide Aligned, Rows, Pick, FitsChange, Fits, FitsRow, Reduce, ReduceRow;
    InsideAction(f, p, i, q, c);
  }

  lemma TouchingAllShowsTheSame(f: Form, p: Path, on: bool)
    requires Aligned(f, p)
    ensures var f' := Reduce(f, SetAllTouched(on));
      Aligned(f', p) && Rows(f', p) == Rows(f, p) && f'.values == f.values
  {
  }

  // ---------------------------------------------------------------- runs

  ghost predicate LegalRun(f: Form, p: Path, ops: seq<Op>)
    decreases |ops|
  {
    ops == [] ||
    (LegalOp(f, p, ops[0]) && Legal(f, ActionOf(p, ops[0])) && LegalRun(Reduce(f, ActionOf(p, ops[0])), p, ops[1..]))
  }

  ghost function Run(f: Form, p: Path, ops: seq<Op>): Form
    requires LegalRun(f, p, ops)
    decreases |ops|
  {
    if ops == [] then f else Run(Reduce(f, ActionOf(p, ops[0])), p, ops[1..])
  }

  function TableRun(t: Table, p: Path, ops: seq<Op>): Table
    decreases |ops|
  {
    if ops == [] then t else TableRun(TableStep(t, p, ops[0]), p, ops[1..])
  }

  /** Over every run the three trees show one table of items, each carrying its own error and flag. */
  lemma {:induction false} RunShowsTable(f: Form, p: Path, t: Table, ops: seq<Op>)
    requires Shows(f, p, t) && LegalRun(f, p, ops)
    ensures Shows(Run(f, p, ops), p, TableRun(t, p, ops))
    decreases |ops|
  {
    hide Shows, LegalOp, Legal, Reduce, TableStep;
    if ops != [] {
      ShownStep(f, p, t, ops[0]);
      RunShowsTable(Reduce(f, ActionOf(p, ops[0])), p, TableStep(t, p, ops[0]), ops[1..]);
    }
  }

  /** Operations that neither mark an error nor touch a field of an item. */
  predicate LeavesMarks(op: Op) {
    match op
    case ChangeItem(_, _, c) => c.SetValue?
    case ResetForm(_) => false
    case _ => !(op.MarkForm? || op.MarkAbove? || op.TouchForm? || op.TouchAbove? || op.TouchFields?)
  }

  ghost predicate WellTagged(t: Table) {
    (forall i :: 0 <= i < |t.items| ==> t.items[i].id < t.next) &&
    forall i, j :: 0 <= i < j < |t.items| ==> t.items[i].id != t.items[j].id
  }

  /** Every item of `after` is one of `before` with the marks it had, or is new and unmarked. */
  ghost predicate MarksTravel(before: Table, after: Table) {
    before.next <= after.next &&
    forall i :: 0 <= i < |after.items| ==> HasItsMarks(before, after.items[i])
  }

  ghost predicate HasItsMarks(before: Table, item: Item) {
    (item.id >= before.next && item.row.invalid == Absent && item.row.touched == Absent) ||
    exists k :: 0 <= k < |before.items| && before.items[k].id == item.id &&
      before.items[k].row.invalid == item.row.invalid && before.items[k].row.touched == item.row.touched
  }

  lemma SpliceMembers(s: seq<Item>, index: nat, count: nat, values: seq<Item>, i: nat)
    requires i < |Splice(s, index, count, values)|
    ensures Splice(s, index, count, values)[i] in s || Splice(s, index, count, values)[i] in values
  {
  }

  lemma SpliceKeepsMarks(t: Table, index: nat, count: nat, values: seq<Js>)
    requires WellTagged(t)
    ensures WellTagged(SpliceTable(t, index, count, values)) && MarksTravel(t, SpliceTable(t, index, count, values))
  {
    hide Splice, HasItsMarks;
    if !t.present && AllAbsent(values) {
      MarksTravelNowhere(t);
    } else {
      var holes := if t.present then 0 else index;
      var before, fresh_ := if t.present then t.items else Fresh(Blanks(index), t.next), Fresh(values, t.next + holes);
      var after := Splice(before, index, count, fresh_);
      SplicedTags(before, index, count, fresh_, t.next + holes);
      forall i | 0 <= i < |after|
        ensures HasItsMarks(t, after[i])
      {
        SpliceMembers(before, index, count, fresh_, i);
        MemberHasItsMarks(t, after[i], fresh_, if t.present then [] else before);
      }
    }
  }

  lemma MemberHasItsMarks(t: Table, item: Item, fresh_: seq<Item>, holes: seq<Item>)
    requires forall i :: 0 <= i < |fresh_| ==>
      fresh_[i].id >= t.next && fresh_[i].row.invalid == Absent && fresh_[i].row.touched == Absent
    requires forall i :: 0 <= i < |holes| ==>
      holes[i].id >= t.next && holes[i].row.invalid == Absent && holes[i].row.touched == Absent
    requires item in t.items || item in fresh_ || item in holes
    ensures HasItsMarks(t, item)
  {
  }

  lemma SplicedTags(s: seq<Item>, index: nat, count: nat, fresh_: seq<Item>, next: nat)
    requires forall i :: 0 <= i < |s| ==> s[i].id < next
    requires forall i, j :: 0 <= i < j < |s| ==> s[i].id != s[j].id
    requires forall i :: 0 <= i < |fresh_| ==> fresh_[i].id == next + i
    ensures var r := Splice(s, index, count, fresh_);
      (forall i :: 0 <= i < |r| ==> r[i].id < next + |fresh_|) && forall i, j :: 0 <= i < j < |r| ==> r[i].id != r[j].id
  {
  }

  lemma StepKeepsMarks(t: Table, p: Path, op: Op)
    requires WellTagged(t) && LeavesMarks(op)
    ensures WellTagged(TableStep(t, p, op)) && MarksTravel(t, TableStep(t, p, op))
  {
    hide SpliceTable, Apply, FitsEdit;
    match op
    case SpliceItems(index, count, values) => SpliceKeepsMarks(t, index, count, values);
    case DeleteItem(i) => SpliceKeepsMarks(t, i, 1, []);
    case ChangeElsewhere(_, _) => MarksTravelNowhere(t);
    case TouchAll(_) => MarksTravelNowhere(t);
    case LoadForm(v) => ValuesKeepMarks(t, Pick(v, p));
    case PutAbove(n, v) => ValuesKeepMarks(t, Pick(v, Lower(p, n)));
    case ChangeItem(_, _, _) =>
      var after := TableStep(t, p, op);
      forall i | 0 <= i < |after.items|
        ensures HasItsMarks(t, after.items[i])
      {
        assert t.items[i].id == after.items[i].id;
        assert t.items[i].row.invalid == after.items[i].row.invalid by { KeepKeeps(t.items[i].row.invalid, op); }
        assert t.items[i].row.touched == after.items[i].row.touched by { KeepKeeps(t.items[i].row.touched, op); }
      }
  }

  lemma ValuesKeepMarks(t: Table, v: Js)
    requires WellTagged(t)
    ensures WellTagged(WithValues(t, v)) && MarksTravel(t, WithValues(t, v))
  {
  }

  lemma KeepKeeps(d: Js, op: Op)
    ensures forall q :: FitsEdit(d, q, Keep) && Apply(d, q, Keep) == d
  {
  }

  /** While nothing is marked or touched, every error and flag stays with its item, and new items have none. */
  lemma {:induction false} MarksStayWithItems(t: Table, p: Path, ops: seq<Op>)
    requires WellTagged(t) && forall i :: 0 <= i < |ops| ==> LeavesMarks(ops[i])
    ensures WellTagged(TableRun(t, p, ops)) && MarksTravel(t, TableRun(t, p, ops))
    decreases |ops|
  {
    hide TableStep, HasItsMarks;
    if ops == [] {
      MarksTravelNowhere(t);
    } else {
      var next := TableStep(t, p, ops[0]);
      StepKeepsMarks(t, p, ops[0]);
      MarksStayWithItems(next, p, ops[1..]);
      MarksTravelOn(t, next, TableRun(next, p, ops[1..]));
    }
  }

  lemma MarksTravelNowhere(t: Table)
    ensures MarksTravel(t, t)
  {
  }

  lemma MarksTravelOn(a: Table, b: Table, c: Table)
    requires MarksTravel(a, b) && MarksTravel(b, c)
    ensures MarksTravel(a, c)
  {
  }

  // ---------------------------------------------------------------- which items stay

  /** Splicing the table: the items before the index and after those removed are the same ones, in the same order. */
  lemma SpliceTableItems(t: Table, index: nat, count: nat, values: seq<Js>)
    requires t.present
    ensures var items, after := t.items, SpliceTable(t, index, count, values).items;
      if index > |items| then after == items + Fresh(values, t.next)
      else if index + count > |items| then after == items[..index] + Fresh(values, t.next)
      else after == items[..index] + Fresh(values, t.next) + items[index + count..]
  {
    hide Splice;
    SpliceIs(t.items, index, count, Fresh(values, t.next));
  }

  lemma DeleteTableItems(t: Table, p: Path, i: nat)
    requires t.present && i < |t.items|
    ensures TableStep(t, p, DeleteItem(i)).items == t.items[..i] + t.items[i + 1..]
  {
    SpliceTableItems(t, i, 1, []);
  }

  /** Edits, marks and touches keep the items: only splices, deletions and new values change which there are. */
  lemma MarkingKeepsItems(t: Table, p: Path, op: Op, i: nat)
    requires i < |t.items|
    requires !(op.SpliceItems? || op.DeleteItem? || op.ResetForm? || op.LoadForm? || op.PutAbove?)
    ensures var after := TableStep(t, p, op);
      after.present == t.present && after.next == t.next && |after.items| == |t.items| &&
      after.items[i].id == t.items[i].id
  {
  }

  /** The switch that shows every field as touched: what SET_ALL_TOUCHED said last, unless a reset came later. */
  function AllTouched(on: bool, ops: seq<Op>): bool {
    if ops == [] then on
    else
      var last := ops[|ops| - 1];
      if last.TouchAll? then last.on else if last.ResetForm? then false else AllTouched(on, ops[..|ops| - 1])
  }

  lemma {:induction false} AllTouchedFirst(on: bool, op: Op, rest: seq<Op>)
    ensures AllTouched(on, [op] + rest) == AllTouched(AllTouched(on, [op]), rest)
    decreases |rest|
  {
    if rest == [] {
      assert [op] + rest == [op];
    } else {
      var all := [op] + rest;
      assert all[..|all| - 1] == [op] + rest[..|rest| - 1];
      AllTouchedFirst(on, op, rest[..|rest| - 1]);
    }
  }

  lemma {:induction false} RunAllTouched(f: Form, p: Path, ops: seq<Op>)
    requires LegalRun(f, p, ops)
    ensures Run(f, p, ops).allTouched == AllTouched(f.allTouched, ops)
    decreases |ops|
  {
    hide LegalOp, Legal, Apply;
    if ops != [] {
      var next := Reduce(f, ActionOf(p, ops[0]));
      assert [ops[0]][..0] == [];
      assert next.allTouched == AllTouched(f.allTouched, [ops[0]]);
      assert ops == [ops[0]] + ops[1..];
      AllTouchedFirst(f.allTouched, ops[0], ops[1..]);
      RunAllTouched(next, p, ops[1..]);
    }
  }
}
