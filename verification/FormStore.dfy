/**
 The form reducers and what they keep: values, manual errors and touched flags are three
 separate trees, and an item of an array must keep its own error and flag while items are
 inserted and removed around it.
 */
module FormStore {
  import opened FormTree
  import opened Strings

  datatype Form = Form(values: Js, invalids: Js, touches: Js, allTouched: bool)

  const INITIAL := Form(Absent, Absent, Absent, false)

  /** What an action with a path asks for. */
  datatype Change =
    | SetValue(value: Js)
    | DeleteValue
    | SpliceValue(index: nat, count: nat, values: seq<Js>)
    | SetInvalid(invalid: Js)
    | SetTouched(touched: Js)

  datatype Action =
    | At(path: Path, change: Change)
    | SetValues(value: Js, reset: bool)
    | SetInvalids(invalids: Js)
    | SetTouches(touches: Js)
    | UpdateTouches(update: map<string, Js>)
    | SetAllTouched(on: bool)

  function ValueEdit(c: Change): Edit {
    match c
    case SetValue(v) => Put(v)
    case DeleteValue => Remove
    case SpliceValue(index, count, values) => SpliceIn(index, count, values)
    case _ => Keep
  }

  /** Errors and flags follow deletions and splices, with placeholders for what is inserted. */
  function InvalidEdit(c: Change): Edit {
    match c
    case SetInvalid(e) => Put(e)
    case DeleteValue => Remove
    case SpliceValue(index, count, values) => SpliceIn(index, count, Blanks(|values|))
    case _ => Keep
  }

  function TouchEdit(c: Change): Edit {
    match c
    case SetTouched(t) => Put(t)
    case DeleteValue => Remove
    case SpliceValue(index, count, values) => SpliceIn(index, count, Blanks(|values|))
    case _ => Keep
  }

  /** The path addresses all three trees in their own kinds. */
  predicate FitsChange(f: Form, path: Path, c: Change) {
    FitsEdit(f.values, path, ValueEdit(c)) && FitsEdit(f.invalids, path, InvalidEdit(c))
    && FitsEdit(f.touches, path, TouchEdit(c))
  }

  predicate Legal(f: Form, a: Action) {
    match a
    case At(path, c) => FitsChange(f, path, c)
    case UpdateTouches(_) => Accepts(f.touches, Name(""))
    case _ => true
  }

  /** Merging flags of top-level fields. */
  function MergedTouches(touches: Js, update: map<string, Js>): Js {
    Obj((if touches.Obj? then touches.fields else map[]) + update)
  }

  function Reduce(f: Form, a: Action): Form
    requires Legal(f, a)
  {
    match a
    case At(path, c) =>
      Form(Apply(f.values, path, ValueEdit(c)), Apply(f.invalids, path, InvalidEdit(c)),
           Apply(f.touches, path, TouchEdit(c)), f.allTouched)
    case SetValues(v, reset) => if reset then Form(v, Absent, Absent, false) else f.(values := v)
    case SetInvalids(e) => f.(invalids := e)
    case SetTouches(t) => f.(touches := t)
    case UpdateTouches(update) => f.(touches := MergedTouches(f.touches, update))
    case SetAllTouched(on) => f.(allTouched := on)
  }

  // ---------------------------------------------------------------- the items of an array

  /** An item with the error and flag found under its index. */
  datatype Row = Row(value: Js, invalid: Js, touched: Js)

  function Items(d: Js): seq<Js> {
    if d.Arr? then d.items else []
  }

  function RowsOf(v: Js, e: Js, t: Js): (rows: seq<Row>)
    ensures |rows| == |Items(v)|
    ensures forall i :: 0 <= i < |rows| ==> rows[i] == Row(Items(v)[i], Child(e, Index(i)), Child(t, Index(i)))
  {
    seq(|Items(v)|, i requires 0 <= i < |Items(v)| => Row(Items(v)[i], Child(e, Index(i)), Child(t, Index(i))))
  }

  function Rows(f: Form, p: Path): seq<Row> {
    RowsOf(Pick(f.values, p), Pick(f.invalids, p), Pick(f.touches, p))
  }

  /** There is an array (or nothing yet) at the path, and no error or flag beyond its last item. */
  ghost predicate AlignedAt(v: Js, e: Js, t: Js) {
    Accepts(v, Index(0)) && Accepts(e, Index(0)) && Accepts(t, Index(0))
    && Within(e, |Items(v)|) && Within(t, |Items(v)|)
  }

  /** Nothing is set from index `length` on. */
  ghost predicate Within(d: Js, length: nat) {
    forall i: nat :: i >= length ==> Child(d, Index(i)) == Absent
  }

  ghost predicate Aligned(f: Form, p: Path) {
    Fits(f.values, p) && AlignedAt(Pick(f.values, p), Pick(f.invalids, p), Pick(f.touches, p))
  }

  function Clean(values: seq<Js>): (rows: seq<Row>)
    ensures |rows| == |values| && forall i :: 0 <= i < |rows| ==> rows[i] == Row(values[i], Absent, Absent)
  {
    if values == [] then [] else Clean(values[..|values| - 1]) + [Row(values[|values| - 1], Absent, Absent)]
  }

  /** Splicing a list of items as wholes. Only placeholders put into no array leave no array. */
  function SpliceRows(present: bool, rows: seq<Row>, index: nat, count: nat, values: seq<Js>): seq<Row> {
    if !present && AllAbsent(values) then rows
    else Splice(if present then rows else Clean(Blanks(index)), index, count, Clean(values))
  }

  /** The array itself is what the path leads to. */
  function SplicedArray(d: Js, index: nat, count: nat, values: seq<Js>): Js
    requires Accepts(d, Index(0))
  {
    if !Truthy(d) && AllAbsent(values) then d
    else Arr(Splice(if Truthy(d) then d.items else Blanks(index), index, count, values))
  }


  /** Where the entry at index `i` after a splice comes from, unless the splice inserted it. */
  function Origin(length: nat, index: nat, count: nat, n: nat, i: nat): int {
    if i < Start(length, index) then i else i - Start(length, index) - n + End(length, index, count)
  }

  predicate Inserted(length: nat, index: nat, n: nat, i: nat) {
    Start(length, index) <= i < Start(length, index) + n
  }

  lemma SpliceAt<T>(s: seq<T>, index: nat, count: nat, values: seq<T>, i: nat)
    ensures |Splice(s, index, count, values)| == |s| - (End(|s|, index, count) - Start(|s|, index)) + |values|
    ensures i < |Splice(s, index, count, values)| && Inserted(|s|, index, |values|, i) ==>
      Splice(s, index, count, values)[i] == values[i - Start(|s|, index)]
    ensures i < |Splice(s, index, count, values)| && !Inserted(|s|, index, |values|, i) ==>
      0 <= Origin(|s|, index, count, |values|, i) < |s| &&
      Splice(s, index, count, values)[i] == s[Origin(|s|, index, count, |values|, i)]
  {
  }

  /** Entries kept for fewer items than there are splice to the same places all the same. */
  lemma {:induction false} ShorterSplice(s: seq<Js>, length: nat, index: nat, count: nat, n: nat, i: nat)
    requires Within(Arr(s), length)
    ensures Child(Arr(Splice(s, index, count, Blanks(n))), Index(i)) ==
      if Inserted(length, index, n, i) then Absent
      else Child(Arr(s), Index(Origin(length, index, count, n, i)))
  {
    hide Splice;
    SpliceAt(s, index, count, Blanks(n), i);
    var o := Origin(|s|, index, count, n, i);
    if o >= length {
      assert Child(Arr(s), Index(o)) == Absent;
    }
    var p := Origin(length, index, count, n, i);
    if p >= length {
      assert Child(Arr(s), Index(p)) == Absent;
    }
  }

  lemma {:induction false} SplicedFlag(d: Js, length: nat, index: nat, count: nat, n: nat, i: nat)
    requires Accepts(d, Index(0)) && Within(d, length)
    ensures var after := SplicedArray(d, index, count, Blanks(n));
      Accepts(after, Index(0)) &&
      Child(after, Index(i)) ==
        if Inserted(length, index, n, i) then Absent else Child(d, Index(Origin(length, index, count, n, i)))
  {
    hide Splice, Start, End;
    if Truthy(d) {
      ShorterSplice(d.items, length, index, count, n, i);
    } else {
      assert AllAbsent(Blanks(n));
    }
  }

  lemma {:induction false} SplicedWithin(d: Js, length: nat, index: nat, count: nat, n: nat)
    requires Accepts(d, Index(0)) && Within(d, length)
    ensures var removed := End(length, index, count) - Start(length, index);
      Within(SplicedArray(d, index, count, Blanks(n)), length - removed + n)
  {
    hide SplicedArray, Start, End;
    forall i: nat | i >= length - (End(length, index, count) - Start(length, index)) + n
      ensures Child(SplicedArray(d, index, count, Blanks(n)), Index(i)) == Absent
    {
      SplicedFlag(d, length, index, count, n, i);
    }
  }

  /** Placeholders spliced where nothing is set set nothing. */
  lemma {:induction false} BlanksIntoNothing(d: Js, index: nat, count: nat, n: nat)
    requires Accepts(d, Index(0)) && Within(d, 0)
    ensures Accepts(SplicedArray(d, index, count, Blanks(n)), Index(0))
    ensures Within(SplicedArray(d, index, count, Blanks(n)), 0)
  {
    hide SplicedArray;
    SplicedFlag(d, 0, index, count, n, 0);
    forall i: nat
      ensures Child(SplicedArray(d, index, count, Blanks(n)), Index(i)) == Absent
    {
      SplicedFlag(d, 0, index, count, n, i);
    }
  }

  lemma WithinMore(d: Js, length: nat, more: nat)
    requires Within(d, length) && length <= more
    ensures Within(d, more)
  {
  }

  /** The rows before a splice, those of the holes before its index if there was no array. */
  lemma {:induction false} RowBefore(v: Js, e: Js, t: Js, index: nat, i: nat)
    requires AlignedAt(v, e, t)
    ensures var arr := if Truthy(v) then Items(v) else Blanks(index);
      var before := if Truthy(v) then RowsOf(v, e, t) else Clean(Blanks(index));
      |before| == |arr| &&
      (i < |arr| ==> before[i] == Row(arr[i], Child(e, Index(i)), Child(t, Index(i))))
  {
    if !Truthy(v) {
      assert Child(e, Index(i)) == Absent && Child(t, Index(i)) == Absent;
    }
  }

  lemma {:induction false} SplicedRowAt(v: Js, e: Js, t: Js, index: nat, count: nat, values: seq<Js>, i: nat)
    requires AlignedAt(v, e, t) && (Truthy(v) || !AllAbsent(values))
    requires i < |Items(SplicedArray(v, index, count, values))|
    ensures var blanks := Blanks(|values|);
      var before := if Truthy(v) then RowsOf(v, e, t) else Clean(Blanks(index));
      var spliced := Splice(before, index, count, Clean(values));
      i < |spliced| && spliced[i] ==
        Row(Items(SplicedArray(v, index, count, values))[i], Child(SplicedArray(e, index, count, blanks), Index(i)),
            Child(SplicedArray(t, index, count, blanks), Index(i)))
  {
    hide Splice, Start, End, RowsOf, Clean, Within;
    var arr := if Truthy(v) then v.items else Blanks(index);
    WithinMore(e, |Items(v)|, |arr|);
    WithinMore(t, |Items(v)|, |arr|);
    var before := if Truthy(v) then RowsOf(v, e, t) else Clean(Blanks(index));
    SpliceAt(arr, index, count, values, i);
    SpliceAt(before, index, count, Clean(values), i);
    if !Inserted(|arr|, index, |values|, i) {
      RowBefore(v, e, t, index, Origin(|arr|, index, count, |values|, i));
    }
    SplicedFlag(e, |arr|, index, count, |values|, i);
    SplicedFlag(t, |arr|, index, count, |values|, i);
  }

  /** Splicing the three arrays splices the items as wholes and keeps them aligned. */
  lemma {:induction false} SplicedRows(v: Js, e: Js, t: Js, index: nat, count: nat, values: seq<Js>)
    requires AlignedAt(v, e, t)
    ensures var blanks := Blanks(|values|);
      var v', e', t' := SplicedArray(v, index, count, values), SplicedArray(e, index, count, blanks),
                        SplicedArray(t, index, count, blanks);
      AlignedAt(v', e', t') && RowsOf(v', e', t') == SpliceRows(Truthy(v), RowsOf(v, e, t), index, count, values)
  {
    hide SplicedArray, SpliceRows, RowsOf, AlignedAt, Accepts, Within;
    if !Truthy(v) && AllAbsent(values) {
      NothingSpliced(v, e, t, index, count, values);
    } else {
      ItemsStayAligned(v, e, t, index, count, values);
      ItemsSpliced(v, e, t, index, count, values);
    }
  }

  lemma {:induction false} NothingSpliced(v: Js, e: Js, t: Js, index: nat, count: nat, values: seq<Js>)
    requires AlignedAt(v, e, t) && !Truthy(v) && AllAbsent(values)
    ensures var blanks := Blanks(|values|);
      var v', e', t' := SplicedArray(v, index, count, values), SplicedArray(e, index, count, blanks),
                        SplicedArray(t, index, count, blanks);
      AlignedAt(v', e', t') && RowsOf(v', e', t') == SpliceRows(Truthy(v), RowsOf(v, e, t), index, count, values)
  {
    hide Splice;
    BlanksIntoNothing(e, index, count, |values|);
    BlanksIntoNothing(t, index, count, |values|);
  }

  lemma {:induction false} ValuesSpliced(v: Js, index: nat, count: nat, values: seq<Js>)
    requires Accepts(v, Index(0)) && (Truthy(v) || !AllAbsent(values))
    ensures SplicedArray(v, index, count, values) ==
      Arr(Splice(if Truthy(v) then v.items else Blanks(index), index, count, values))
    ensures Accepts(SplicedArray(v, index, count, values), Index(0)) && Truthy(v) == v.Arr?
  {
  }

  lemma {:induction false} FlagsStayWithin(v: Js, d: Js, index: nat, count: nat, values: seq<Js>)
    requires Accepts(v, Index(0)) && Accepts(d, Index(0)) && Within(d, |Items(v)|)
    requires Truthy(v) || !AllAbsent(values)
    ensures var d' := SplicedArray(d, index, count, Blanks(|values|));
      Accepts(d', Index(0)) && Within(d', |Items(SplicedArray(v, index, count, values))|)
  {
    hide Splice, Start, End, Within, Inserted, Origin;
    var arr := if Truthy(v) then v.items else Blanks(index);
    ValuesSpliced(v, index, count, values);
    WithinMore(d, |Items(v)|, |arr|);
    SplicedFlag(d, |arr|, index, count, |values|, 0);
    SplicedWithin(d, |arr|, index, count, |values|);
    SpliceAt(arr, index, count, values, 0);
  }

  lemma {:induction false} ItemsStayAligned(v: Js, e: Js, t: Js, index: nat, count: nat, values: seq<Js>)
    requires AlignedAt(v, e, t) && (Truthy(v) || !AllAbsent(values))
    ensures var blanks := Blanks(|values|);
      AlignedAt(SplicedArray(v, index, count, values), SplicedArray(e, index, count, blanks),
                SplicedArray(t, index, count, blanks))
  {
    hide Splice, Within, Accepts, SplicedArray;
    ValuesSpliced(v, index, count, values);
    FlagsStayWithin(v, e, index, count, values);
    FlagsStayWithin(v, t, index, count, values);
  }

  lemma {:induction false} ItemsSpliced(v: Js, e: Js, t: Js, index: nat, count: nat, values: seq<Js>)
    requires AlignedAt(v, e, t) && (Truthy(v) || !AllAbsent(values))
    ensures var blanks := Blanks(|values|);
      var v', e', t' := SplicedArray(v, index, count, values), SplicedArray(e, index, count, blanks),
                        SplicedArray(t, index, count, blanks);
      RowsOf(v', e', t') == SpliceRows(Truthy(v), RowsOf(v, e, t), index, count, values)
  {
    hide Splice, RowsOf, Clean, Accepts, SplicedArray, Within;
    var v', e', t' := SplicedArray(v, index, count, values), SplicedArray(e, index, count, Blanks(|values|)),
                      SplicedArray(t, index, count, Blanks(|values|));
    SameCount(v, e, t, index, count, values);
    var rows, spliced := RowsOf(v', e', t'), SpliceRows(Truthy(v), RowsOf(v, e, t), index, count, values);
    forall i | 0 <= i < |rows|
      ensures rows[i] == spliced[i]
    {
      SplicedRowAt(v, e, t, index, count, values, i);
    }
    assert rows == spliced;
  }

  lemma {:induction false} SameCount(v: Js, e: Js, t: Js, index: nat, count: nat, values: seq<Js>)
    requires AlignedAt(v, e, t) && (Truthy(v) || !AllAbsent(values))
    ensures var before := if Truthy(v) then RowsOf(v, e, t) else Clean(Blanks(index));
      |Items(SplicedArray(v, index, count, values))| == |Splice(before, index, count, Clean(values))|
  {
  }

  // ---------------------------------------------------------------- what each action does to the items

  /** Splicing at the path of the array. */
  lemma {:induction false} SpliceAction(f: Form, p: Path, index: nat, count: nat, values: seq<Js>)
    requires Aligned(f, p)
    ensures var a := At(p, SpliceValue(index, count, values));
      Legal(f, a) && Aligned(Reduce(f, a), p) &&
      Rows(Reduce(f, a), p) == SpliceRows(Truthy(Pick(f.values, p)), Rows(f, p), index, count, values) &&
      Pick(Reduce(f, a).values, p) == SplicedArray(Pick(f.values, p), index, count, values)
  {
    hide Fits, Pick, Update, AlignedAt, SplicedArray, RowsOf, SpliceRows, Truthy;
    AlignedAccepts(f, p);
    SplicedAtPath(f.values, p, index, count, values);
    SplicedAtPath(f.invalids, p, index, count, Blanks(|values|));
    SplicedAtPath(f.touches, p, index, count, Blanks(|values|));
    SplicedRows(Pick(f.values, p), Pick(f.invalids, p), Pick(f.touches, p), index, count, values);
  }

  lemma {:induction false} AlignedAccepts(f: Form, p: Path)
    requires Aligned(f, p)
    ensures Accepts(Pick(f.values, p), Index(0)) && Accepts(Pick(f.invalids, p), Index(0))
    ensures Accepts(Pick(f.touches, p), Index(0))
  {
  }

  lemma {:induction false} SplicedAtPath(d: Js, p: Path, index: nat, count: nat, values: seq<Js>)
    requires FitsSplice(d, p, values)
    ensures Pick(SpliceByPath(d, p, index, count, values), p) == SplicedArray(Pick(d, p), index, count, values)
    ensures Fits(d, p) ==> Fits(SpliceByPath(d, p, index, count, values), p)
  {
    hide Splice;
    assert p + [] == p;
    SpliceInside(d, p, [], index, count, values);
  }

  /** Deleting an item by its path is splicing one item out. */
  lemma DeleteIsSplice(f: Form, p: Path, i: nat)
    requires Aligned(f, p)
    ensures Legal(f, At(p + [Index(i)], DeleteValue)) && Legal(f, At(p, SpliceValue(i, 1, [])))
    ensures Reduce(f, At(p + [Index(i)], DeleteValue)) == Reduce(f, At(p, SpliceValue(i, 1, [])))
  {
  }

  /**
   The rows SPLICE_VALUE leaves, put plainly: the rows before the index, clean rows for the values,
   and the rows after those removed; past the end the values are appended. Where there was no
   array there is one with holes before the values, unless there is nothing to put in it.
   */
  lemma {:induction false} SpliceActionRows(f: Form, p: Path, index: nat, count: nat, values: seq<Js>)
    requires Aligned(f, p) && Legal(f, At(p, SpliceValue(index, count, values)))
    ensures var rows, after := Rows(f, p), Rows(Reduce(f, At(p, SpliceValue(index, count, values))), p);
      if !Truthy(Pick(f.values, p)) then
        after == if forall x :: x in values ==> x == Absent then [] else Clean(Blanks(index)) + Clean(values)
      else if index > |rows| then after == rows + Clean(values)
      else after == rows[..index] + Clean(values) + if index + count <= |rows| then rows[index + count..] else []
  {
    hide Legal, Reduce, Aligned, Splice, Rows, Pick, Clean, AllAbsent;
    SpliceAction(f, p, index, count, values);
    NoRowsOfNothing(f, p);
    OnlyHoles(values);
    SpliceIs(Rows(f, p), index, count, Clean(values));
    SpliceIs(Clean(Blanks(index)), index, count, Clean(values));
  }

  lemma {:induction false} NoRowsOfNothing(f: Form, p: Path)
    ensures !Truthy(Pick(f.values, p)) ==> Rows(f, p) == []
  {
  }

  /** The rows DELETE_VALUE of an item leaves: all the others, in order. */
  lemma DeleteActionRows(f: Form, p: Path, i: nat)
    requires Aligned(f, p) && Legal(f, At(p + [Index(i)], DeleteValue))
    ensures var rows, after := Rows(f, p), Rows(Reduce(f, At(p + [Index(i)], DeleteValue)), p);
      after == if i < |rows| then rows[..i] + rows[i + 1..] else rows
  {
    hide Legal, Reduce, Aligned, Rows, Pick, Clean;
    DeleteIsSplice(f, p, i);
    SpliceActionRows(f, p, i, 1, []);
    NoRowsOfNothing(f, p);
    NothingClean();
  }

  lemma NothingClean()
    ensures Clean([]) == [] && AllAbsent([])
  {
  }

  /** Setting a value, an error or a flag puts it there, in that tree and in no other. */
  lemma {:induction false} SetActionSets(f: Form, path: Path, x: Js)
    requires Fits(f.values, path) && Fits(f.invalids, path) && Fits(f.touches, path)
    ensures var a := At(path, SetValue(x));
      Legal(f, a) && Pick(Reduce(f, a).values, path) == x && Reduce(f, a) == f.(values := Reduce(f, a).values)
    ensures var a := At(path, SetInvalid(x));
      Legal(f, a) && Pick(Reduce(f, a).invalids, path) == x && Reduce(f, a) == f.(invalids := Reduce(f, a).invalids)
    ensures var a := At(path, SetTouched(x));
      Legal(f, a) && Pick(Reduce(f, a).touches, path) == x && Reduce(f, a) == f.(touches := Reduce(f, a).touches)
  {
    hide Pick, Fits, Update;
    PutGet(f.values, path, x);
    PutGet(f.invalids, path, x);
    PutGet(f.touches, path, x);
  }

  /** A field deleted by name is gone from all three trees, and its neighbours are not. */
  lemma DeleteActionRemoves(f: Form, host: Path, name: string, other: string)
    requires Legal(f, At(host + [Name(name)], DeleteValue)) && other != name
    ensures var f' := Reduce(f, At(host + [Name(name)], DeleteValue));
      var gone, kept := host + [Name(name)], host + [Name(other)];
      Pick(f'.values, gone) == Pick(f'.invalids, gone) == Pick(f'.touches, gone) == Absent &&
      Pick(f'.values, kept) == Pick(f.values, kept) && Pick(f'.invalids, kept) == Pick(f.invalids, kept) &&
      Pick(f'.touches, kept) == Pick(f.touches, kept)
  {
    hide Pick, DeleteByPath, FitsDelete;
    DeletedIsGone(f.values, host, name, other);
    DeletedIsGone(f.invalids, host, name, other);
    DeletedIsGone(f.touches, host, name, other);
  }

  /** Whole-form actions: a reset forgets errors, flags and the switch for all; merging sets the named flags alone. */
  lemma WholeActionsSet(f: Form, x: Js, update: map<string, Js>, name: string)
    ensures Reduce(f, SetValues(x, true)) == Form(x, Absent, Absent, false)
    ensures Reduce(f, SetValues(x, false)) == f.(values := x)
    ensures Reduce(f, SetInvalids(x)) == f.(invalids := x) && Reduce(f, SetTouches(x)) == f.(touches := x)
    ensures Legal(f, UpdateTouches(update)) ==>
      var f' := Reduce(f, UpdateTouches(update));
      f' == f.(touches := f'.touches) &&
      Child(f'.touches, Name(name)) == if name in update then update[name] else Child(f.touches, Name(name))
  {
  }

  /** An edit below index `i` of an array edits that entry and no other. */
  lemma EditedEntry(d: Js, i: nat, q: Path, e: Edit, j: nat)
    requires FitsEdit(d, [Index(i)] + q, e) && (e.Remove? ==> q != []) && Accepts(d, Index(0))
    ensures FitsEdit(Child(d, Index(i)), q, e)
    ensures var after := Apply(d, [Index(i)] + q, e);
      Child(after, Index(j)) == if j == i then Apply(Child(d, Index(i)), q, e) else Child(d, Index(j))
  {
    hide Update, Fits, Apply, FitsEdit;
    PickOne(d, Index(i));
    PickOne(Apply(d, [Index(i)] + q, e), Index(j));
    ApplyInside(d, [Index(i)], q, e);
    if j != i {
      PickOne(d, Index(j));
      FootprintBelow(i, q, e, j);
      ApplyElsewhere(d, [Index(i)] + q, e, [Index(j)]);
    }
  }

  lemma {:induction false} PickOne(d: Js, k: Key)
    ensures Pick(d, [k]) == Child(d, k) && (Fits(d, [k]) <==> Accepts(d, k))
    ensures k.Index? ==> Accepts(d, k) == Accepts(d, Index(0))
  {
  }

  lemma FootprintBelow(i: nat, q: Path, e: Edit, j: nat)
    requires i != j && (e.Remove? ==> q != [])
    ensures Disjoint(Footprint([Index(i)] + q, e), [Index(j)])
  {
  }

  lemma EditedLength(d: Js, i: nat, q: Path, e: Edit)
    requires FitsEdit(d, [Index(i)] + q, e) && (e.Remove? ==> q != []) && Accepts(d, Index(0))
    ensures Accepts(Apply(d, [Index(i)] + q, e), Index(0))
    ensures i < |Items(d)| ==> |Items(Apply(d, [Index(i)] + q, e))| == |Items(d)|
  {
  }

  predicate FitsRow(r: Row, q: Path, c: Change) {
    FitsEdit(r.value, q, ValueEdit(c)) && FitsEdit(r.invalid, q, InvalidEdit(c)) && FitsEdit(r.touched, q, TouchEdit(c))
  }

  /** A change below an item is the same change of the item's own value, error and flag. */
  function ReduceRow(r: Row, q: Path, c: Change): Row
    requires FitsRow(r, q, c)
  {
    Row(Apply(r.value, q, ValueEdit(c)), Apply(r.invalid, q, InvalidEdit(c)), Apply(r.touched, q, TouchEdit(c)))
  }

  lemma InsideAt(v: Js, e: Js, t: Js, i: nat, q: Path, ve: Edit, ee: Edit, te: Edit)
    requires AlignedAt(v, e, t) && i < |Items(v)|
    requires FitsEdit(v, [Index(i)] + q, ve) && FitsEdit(e, [Index(i)] + q, ee) && FitsEdit(t, [Index(i)] + q, te)
    requires q == [] ==> !ve.Remove? && !ee.Remove? && !te.Remove?
    ensures var path := [Index(i)] + q;
      var v', e', t' := Apply(v, path, ve), Apply(e, path, ee), Apply(t, path, te);
      AlignedAt(v', e', t') && |Items(v')| == |Items(v)|
  {
    hide Apply, FitsEdit, Fits;
    var path := [Index(i)] + q;
    EditedLength(v, i, q, ve);
    EditedLength(e, i, q, ee);
    EditedLength(t, i, q, te);
    forall j: nat | j >= |Items(v)|
      ensures Child(Apply(e, path, ee), Index(j)) == Absent && Child(Apply(t, path, te), Index(j)) == Absent
    {
      EditedEntry(e, i, q, ee, j);
      EditedEntry(t, i, q, te, j);
      assert Child(e, Index(j)) == Absent && Child(t, Index(j)) == Absent;
    }
  }

  lemma {:induction false} InsideAction(f: Form, p: Path, i: nat, q: Path, c: Change)
    requires Aligned(f, p) && i < |Rows(f, p)| && FitsChange(f, p + ([Index(i)] + q), c) && (c.DeleteValue? ==> q != [])
    ensures var f' := Reduce(f, At(p + ([Index(i)] + q), c));
      Aligned(f', p) && FitsRow(Rows(f, p)[i], q, c) &&
      Rows(f', p) == Rows(f, p)[i := ReduceRow(Rows(f, p)[i], q, c)] &&
      Truthy(Pick(f'.values, p)) == Truthy(Pick(f.values, p))
  {
    hide Apply, FitsEdit, Fits, Pick, AlignedAt;
    var path := [Index(i)] + q;
    AlignedAccepts(f, p);
    ApplyInside(f.values, p, path, ValueEdit(c));
    ApplyInside(f.invalids, p, path, InvalidEdit(c));
    ApplyInside(f.touches, p, path, TouchEdit(c));
    var v, e, t := Pick(f.values, p), Pick(f.invalids, p), Pick(f.touches, p);
    InsideAt(v, e, t, i, q, ValueEdit(c), InvalidEdit(c), TouchEdit(c));
    InsideRows(v, e, t, i, q, c);
  }

  lemma InsideRows(v: Js, e: Js, t: Js, i: nat, q: Path, c: Change)
    requires AlignedAt(v, e, t) && i < |Items(v)| && (c.DeleteValue? ==> q != [])
    requires FitsEdit(v, [Index(i)] + q, ValueEdit(c)) && FitsEdit(e, [Index(i)] + q, InvalidEdit(c))
    requires FitsEdit(t, [Index(i)] + q, TouchEdit(c))
    ensures FitsRow(RowsOf(v, e, t)[i], q, c)
    ensures var path := [Index(i)] + q;
      var v', e', t' := Apply(v, path, ValueEdit(c)), Apply(e, path, InvalidEdit(c)), Apply(t, path, TouchEdit(c));
      RowsOf(v', e', t') == RowsOf(v, e, t)[i := ReduceRow(RowsOf(v, e, t)[i], q, c)] && Truthy(v') == Truthy(v)
  {
    hide Apply, FitsEdit, Fits;
    var path := [Index(i)] + q;
    var v', e', t' := Apply(v, path, ValueEdit(c)), Apply(e, path, InvalidEdit(c)), Apply(t, path, TouchEdit(c));
    EditedLength(v, i, q, ValueEdit(c));
    EditedEntry(v, i, q, ValueEdit(c), i);
    EditedEntry(e, i, q, InvalidEdit(c), i);
    EditedEntry(t, i, q, TouchEdit(c), i);
    var rows, after := RowsOf(v, e, t), RowsOf(v', e', t');
    forall j | 0 <= j < |after|
      ensures after[j] == if j == i then ReduceRow(rows[i], q, c) else rows[j]
    {
      EditedEntry(v, i, q, ValueEdit(c), j);
      EditedEntry(e, i, q, InvalidEdit(c), j);
      EditedEntry(t, i, q, TouchEdit(c), j);
    }
  }

  /** A change apart from the array: none of its three edits disturbs what the path leads to. */
  predicate Apart(path: Path, c: Change, p: Path) {
    Disjoint(Footprint(path, ValueEdit(c)), p) && Disjoint(Footprint(path, InvalidEdit(c)), p)
    && Disjoint(Footprint(path, TouchEdit(c)), p)
  }

  lemma {:induction false} OutsideAction(f: Form, p: Path, path: Path, c: Change)
    requires Aligned(f, p) && FitsChange(f, path, c) && Apart(path, c, p)
    ensures var f' := Reduce(f, At(path, c));
      Aligned(f', p) && Rows(f', p) == Rows(f, p) && Pick(f'.values, p) == Pick(f.values, p)
  {
    hide Apply, FitsEdit, Fits, Pick, Disjoint, AlignedAt;
    ApplyElsewhere(f.values, path, ValueEdit(c), p);
    ApplyElsewhere(f.invalids, path, InvalidEdit(c), p);
    ApplyElsewhere(f.touches, path, TouchEdit(c), p);
  }

  // ---------------------------------------------------------------- when an array edit throws

  /** What is truthy and no array has no `slice` and `splice` to call. */
  predicate Blocks(d: Js) {
    Truthy(d) && !d.Arr?
  }

  /** One reducer's splice, or `None` for the exception it throws. */
  function TrySplice(d: Js, path: Path, index: nat, count: nat, values: seq<Js>): Option<Js>
    requires AllAbsent(values) || Fits(d, path)
  {
    if Blocks(Pick(d, path)) then None else Some(SpliceByPath(d, path, index, count, values))
  }

  /** SPLICE_VALUE on the whole form: one reducer that throws loses the action. */
  function TrySpliceForm(f: Form, path: Path, index: nat, count: nat, values: seq<Js>): Option<Form>
    requires AllAbsent(values) || Fits(f.values, path)
  {
    var v := TrySplice(f.values, path, index, count, values);
    var e := TrySplice(f.invalids, path, index, count, Blanks(|values|));
    var t := TrySplice(f.touches, path, index, count, Blanks(|values|));
    if v.None? || e.None? || t.None? then None else Some(Form(v.value, e.value, t.value, f.allTouched))
  }

  /** A splice throws exactly when one of the three trees holds a truthy non-array there. */
  lemma {:induction false} SpliceThrowsIff(f: Form, path: Path, index: nat, count: nat, values: seq<Js>)
    requires AllAbsent(values) || Fits(f.values, path)
    ensures var r, a := TrySpliceForm(f, path, index, count, values), At(path, SpliceValue(index, count, values));
      (r.None? <==> Blocks(Pick(f.values, path)) || Blocks(Pick(f.invalids, path)) || Blocks(Pick(f.touches, path))) &&
      (r.Some? <==> Legal(f, a)) && (r.Some? ==> r.value == Reduce(f, a))
  {
    hide Pick, Fits, SpliceByPath;
  }

  /** Marking an array itself as touched, or as wrong with a message, leaves no splice of it that does not throw. */
  lemma {:induction false} MarkedArrayThrows(f: Form, p: Path, mark: Js, index: nat, count: nat, values: seq<Js>)
    requires Aligned(f, p) && Blocks(mark)
    requires Fits(f.touches, p) && Fits(f.invalids, p)
    ensures Legal(f, At(p, SetTouched(mark))) && Legal(f, At(p, SetInvalid(mark)))
    ensures TrySpliceForm(Reduce(f, At(p, SetTouched(mark))), p, index, count, values).None?
    ensures TrySpliceForm(Reduce(f, At(p, SetInvalid(mark))), p, index, count, values).None?
  {
    hide Update, Fits, SpliceByPath, AlignedAt;
    PutGet(f.touches, p, mark);
    PutGet(f.invalids, p, mark);
  }

  // ---------------------------------------------------------------- trees replaced from above

  /** Whether errors, or flags, in the new tree belong to an array of that length at the path. */
  ghost predicate Covers(d: Js, p: Path, length: nat) {
    Accepts(Pick(d, p), Index(0)) && Within(Pick(d, p), length)
  }

  /** Replacing values keeps the array aligned exactly when there still is one and no mark is left beyond it. */
  lemma {:induction false} ReplacedValues(f: Form, p: Path, v: Js)
    requires Aligned(f, p)
    ensures Aligned(f.(values := v), p) <==>
      FitsArray(v, p) && Covers(f.invalids, p, |Items(Pick(v, p))|) && Covers(f.touches, p, |Items(Pick(v, p))|)
    ensures var rows, after := Rows(f, p), Rows(f.(values := v), p);
      Aligned(f.(values := v), p) ==>
        forall i :: 0 <= i < |after| ==>
          after[i] == Row(Items(Pick(v, p))[i], if i < |rows| then rows[i].invalid else Absent,
                          if i < |rows| then rows[i].touched else Absent)
  {
    hide Pick, Fits;
  }

  /** Replacing errors keeps it aligned exactly when they cover the array, and then changes the errors alone. */
  lemma {:induction false} ReplacedInvalids(f: Form, p: Path, e: Js)
    requires Aligned(f, p)
    ensures Aligned(f.(invalids := e), p) <==> Covers(e, p, |Rows(f, p)|)
    ensures var rows, after := Rows(f, p), Rows(f.(invalids := e), p);
      |after| == |rows| && forall i :: 0 <= i < |rows| ==> after[i] == rows[i].(invalid := Child(Pick(e, p), Index(i)))
  {
    hide Pick, Fits;
  }

  lemma {:induction false} ReplacedTouches(f: Form, p: Path, t: Js)
    requires Aligned(f, p)
    ensures Aligned(f.(touches := t), p) <==> Covers(t, p, |Rows(f, p)|)
    ensures var rows, after := Rows(f, p), Rows(f.(touches := t), p);
      |after| == |rows| && forall i :: 0 <= i < |rows| ==> after[i] == rows[i].(touched := Child(Pick(t, p), Index(i)))
  {
    hide Pick, Fits;
  }

  /** What an update of a part of the path leaves under the whole of it. */
  lemma {:induction false} UpdateAbove(d: Js, p: Path, n: nat, v: Js)
    requires n <= |p| && Fits(d, p[..n])
    ensures Pick(Update(d, p[..n], v), p) == Pick(v, p[n..])
    ensures Fits(Update(d, p[..n], v), p) <==> Fits(v, p[n..])
  {
    hide Update, Fits, Pick;
    assert p[..n] + p[n..] == p;
    PutGet(d, p[..n], v);
    PickOfPrefix(Update(d, p[..n], v), p[..n], p[n..]);
  }

  /** What merged flags leave under a path that begins with a name. */
  lemma {:induction false} MergedAt(touches: Js, update: map<string, Js>, name: string, rest: Path)
    requires Accepts(touches, Name(name))
    ensures Pick(MergedTouches(touches, update), [Name(name)] + rest) ==
      if name in update then Pick(update[name], rest) else Pick(touches, [Name(name)] + rest)
  {
    var p := [Name(name)] + rest;
    assert p[1..] == rest;
  }
}
