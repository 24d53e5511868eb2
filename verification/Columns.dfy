/**
 The column settings of a list: the selection of `Selection`, saved in the browser's local
 storage and restored from it.
 */
module Columns {
  import opened Strings
  import opened Selection

  datatype Field = Field(id: Id, required: bool, hide: bool)

  class Storage {
    var items: map<string, string>

    constructor ()
      ensures items == map[]
    {
      items := map[];
    }

    function Saved(key: string): Option<string>
      reads this
    {
      if key in items then Some(items[key]) else None
    }
  }

  function Ids(fields: seq<Field>): seq<Id> {
    if fields == [] then [] else [fields[0].id] + Ids(fields[1..])
  }

  function Texts(selection: seq<Id>): seq<string> {
    if selection == [] then [] else [TextOf(selection[0])] + Texts(selection[1..])
  }

  /** The names of the fields that are not hidden. */
  function Visible(fields: seq<Field>): set<string> {
    if fields == [] then {}
    else
      var last := fields[|fields| - 1];
      Visible(fields[..|fields| - 1]) + if last.hide then {} else {TextOf(last.id)}
  }

  function Stored(texts: seq<string>, visible: set<string>): seq<Id> {
    if texts == [] then [] else (if texts[0] in visible then [Text(texts[0])] else []) + Stored(texts[1..], visible)
  }

  /** Inserting the required ones among the given fields. */
  function WithRequired(records: seq<Id>, fields: seq<Field>, selection: seq<Id>): seq<Id>
    decreases |fields|
  {
    if fields == [] then selection
    else
      var before, last := WithRequired(records, fields[..|fields| - 1], selection), fields[|fields| - 1];
      if last.required then Inserted(records, before, last.id) else before
  }

  function Defaults(fields: seq<Field>): seq<Id> {
    if fields == [] then []
    else
      var last := fields[|fields| - 1];
      Defaults(fields[..|fields| - 1]) + if last.hide then [] else [last.id]
  }

  /** What the settings start with; an empty string counts as nothing saved. */
  function InitSelection(fields: seq<Field>, saved: Option<string>): seq<Id> {
    if saved.Some? && saved.value != "" then
      WithRequired(Ids(fields), fields, Stored(Split(saved.value, ','), Visible(fields)))
    else Defaults(fields)
  }

  /** The fields shown for a selection, in their own order. */
  function DisplayFields(fields: seq<Field>, selection: seq<Id>): seq<Field> {
    if fields == [] then []
    else
      var last := fields[|fields| - 1];
      DisplayFields(fields[..|fields| - 1], selection) + if last.id in selection then [last] else []
  }

  class CustomFields {
    const fields: seq<Field>
    const cacheKey: string
    const storage: Storage
    var selection: seq<Id>

    constructor (fields: seq<Field>, cacheKey: string, storage: Storage)
      ensures this.fields == fields && this.cacheKey == cacheKey && this.storage == storage
      ensures selection == InitSelection(fields, storage.Saved(cacheKey))
    {
      this.fields := fields;
      this.cacheKey := cacheKey;
      this.storage := storage;
      this.selection := [];
      new;
      this.selection := GetInitSelection();
    }

    method SetSelection(selection: seq<Id>)
      modifies this`selection, storage
      ensures this.selection == selection
      ensures storage.items ==
        if cacheKey == "" then old(storage.items) else old(storage.items)[cacheKey := Join(Texts(selection), ",")]
      ensures cacheKey != "" ==> storage.Saved(cacheKey) == Some(Join(Texts(selection), ","))
      ensures forall key :: key != cacheKey || key == "" ==> storage.Saved(key) == old(storage.Saved(key))
    {
      this.selection := selection;
      if cacheKey != "" {
        storage.items := storage.items[cacheKey := Join(Texts(selection), ",")];
      }
    }

    method GetInitSelection() returns (selection: seq<Id>)
      ensures selection == InitSelection(fields, storage.Saved(cacheKey))
    {
      hide Inserted, Split, Stored;
      var saved := storage.Saved(cacheKey);
      if saved.Some? && saved.value != "" {
        var fieldsMap: set<string> := {};
        for i := 0 to |fields|
          invariant fieldsMap == Visible(fields[..i])
        {
          assert fields[..i + 1][..i] == fields[..i];
          if !fields[i].hide {
            fieldsMap := fieldsMap + {TextOf(fields[i].id)};
          }
        }
        assert fields[..|fields|] == fields;
        var kept := Stored(Split(saved.value, ','), fieldsMap);
        selection := kept;
        for i := 0 to |fields|
          invariant selection == WithRequired(Ids(fields), fields[..i], kept)
        {
          assert fields[..i + 1][..i] == fields[..i];
          if fields[i].required {
            selection := SelectionInsert(Ids(fields), selection, fields[i].id);
          }
        }
      } else {
        selection := [];
        for i := 0 to |fields|
          invariant selection == Defaults(fields[..i])
        {
          assert fields[..i + 1][..i] == fields[..i];
          if !fields[i].hide {
            selection := selection + [fields[i].id];
          }
        }
        assert fields[..|fields|] == fields;
      }
    }
  }

  // ---------------------------------------------------------------- saving and restoring

  /** Ids are proper text without the separator. */
  ghost predicate Plain(fields: seq<Field>) {
    Proper(Ids(fields)) &&
    forall i :: 0 <= i < |fields| ==> fields[i].id.Text? && ',' !in fields[i].id.text
  }

  function Shown(fields: seq<Field>): set<Id> {
    set i | 0 <= i < |fields| && !fields[i].hide :: fields[i].id
  }

  function Required(fields: seq<Field>): set<Id> {
    set i | 0 <= i < |fields| && fields[i].required :: fields[i].id
  }

  lemma {:induction false} IdsAre(fields: seq<Field>)
    ensures |Ids(fields)| == |fields| && forall i :: 0 <= i < |fields| ==> Ids(fields)[i] == fields[i].id
  {
    if fields != [] {
      IdsAre(fields[1..]);
    }
  }

  lemma {:induction false} VisibleAre(fields: seq<Field>, text: string)
    requires forall i :: 0 <= i < |fields| ==> fields[i].id.Text?
    ensures text in Visible(fields) <==> Text(text) in Shown(fields)
    decreases |fields|
  {
    if fields != [] {
      var front, last := fields[..|fields| - 1], fields[|fields| - 1];
      VisibleAre(front, text);
      ShownStep(front, last);
      assert fields == front + [last];
    }
  }

  lemma ShownStep(front: seq<Field>, last: Field)
    ensures Shown(front + [last]) == Shown(front) + if last.hide then {} else {last.id}
    ensures Required(front + [last]) == Required(front) + if last.required then {last.id} else {}
  {
    var fields := front + [last];
    assert forall i :: 0 <= i < |front| ==> fields[i] == front[i];
    assert fields[|front|] == last;
  }

  /** Of the texts saved, those of visible fields come back, in their order. */
  lemma {:induction false} StoredIsKept(records: seq<Id>, checked: set<Id>, visible: set<string>, shown: set<Id>)
    requires forall id :: id in records ==> id.Text? && (id.text in visible <==> id in shown)
    ensures Stored(Texts(Kept(records, checked)), visible) == Kept(records, checked * shown)
    decreases |records|
  {
    if records != [] {
      var rest := records[1..];
      StoredIsKept(rest, checked, visible, shown);
      KeptStep(records, checked);
      KeptStep(records, checked * shown);
      if records[0] in checked {
        TextsStep(records[0], Kept(rest, checked), visible);
      }
    }
  }

  lemma {:induction false} TextsStep(id: Id, below: seq<Id>, visible: set<string>)
    requires id.Text?
    ensures Stored(Texts([id] + below), visible) ==
      (if id.text in visible then [id] else []) + Stored(Texts(below), visible)
  {
  }

  lemma {:induction false} WithRequiredIsKept(records: seq<Id>, fields: seq<Field>, checked: set<Id>)
    requires Proper(records)
    requires forall i :: 0 <= i < |fields| ==> fields[i].id.Text? && fields[i].id in records
    ensures WithRequired(records, fields, Kept(records, checked)) == Kept(records, checked + Required(fields))
    decreases |fields|
  {
    hide Proper, Kept, Inserted, Required;
    if fields == [] {
      NoneRequired();
      assert checked + Required(fields) == checked;
    } else {
      var front, last := fields[..|fields| - 1], fields[|fields| - 1];
      WithRequiredIsKept(records, front, checked);
      ShownStep(front, last);
      assert fields == front + [last];
      if last.required {
        InsertedIsKept(records, checked + Required(front), last.id);
        assert checked + Required(front) + {last.id} == checked + Required(fields);
      } else {
        assert Required(front) == Required(fields);
      }
    }
  }

  lemma NoneRequired()
    ensures Required([]) == {}
  {
  }

  lemma {:induction false} TextsAre(selection: seq<Id>)
    ensures |Texts(selection)| == |selection|
    ensures forall i :: 0 <= i < |selection| ==> Texts(selection)[i] == TextOf(selection[i])
  {
    if selection != [] {
      TextsAre(selection[1..]);
    }
  }

  lemma {:induction false} JoinedIsNotEmpty(texts: seq<string>)
    requires texts != [] && texts[0] != ""
    ensures Join(texts, ",") != ""
  {
  }

  /** A selection that was saved comes back without the fields now hidden and with those required. */
  lemma {:induction false} SavedIsRestored(fields: seq<Field>, checked: set<Id>)
    requires Plain(fields) && Kept(Ids(fields), checked) != []
    ensures InitSelection(fields, Some(Join(Texts(Kept(Ids(fields), checked)), ","))) ==
      Kept(Ids(fields), checked * Shown(fields) + Required(fields))
  {
    hide Split, Join, Kept, Texts, Stored, Visible, Shown, Required, WithRequired, Proper;
    var records := Ids(fields);
    var sel := Kept(records, checked);
    IdsAre(fields);
    KeptMembers(records, checked);
    TextsAre(sel);
    RecordsAreTruthy(records, sel[0]);
    JoinedIsNotEmpty(Texts(sel));
    forall i | 0 <= i < |sel|
      ensures ',' !in Texts(sel)[i]
    {
      assert sel[i] in records;
    }
    SplitJoin(Texts(sel), ',');
    forall id | id in records
      ensures id.Text? && (id.text in Visible(fields) <==> id in Shown(fields))
    {
      VisibleAre(fields, id.text);
    }
    StoredIsKept(records, checked, Visible(fields), Shown(fields));
    WithRequiredIsKept(records, fields, checked * Shown(fields));
  }

  lemma {:induction false} DefaultsAreShown(fields: seq<Field>)
    requires Proper(Ids(fields))
    ensures Defaults(fields) == Kept(Ids(fields), Shown(fields))
    decreases |fields|
  {
    hide Proper, Kept, Shown;
    if fields == [] {
      NothingKept();
    } else {
      var front, last := fields[..|fields| - 1], fields[|fields| - 1];
      IdsSplit(front, last);
      assert fields == front + [last];
      ProperFront(Ids(front), last.id);
      DefaultsAreShown(front);
      ShownStep(front, last);
      KeptSplit(Ids(front), last.id, Shown(fields));
      ShownAreIds(front);
      KeptOnly(Ids(front), Shown(front), Shown(fields));
      LastShown(front, last);
    }
  }

  lemma {:induction false} LastShown(front: seq<Field>, last: Field)
    requires last.id !in Ids(front)
    ensures last.id in Shown(front + [last]) <==> !last.hide
  {
    ShownAreIds(front);
    ShownStep(front, last);
  }

  lemma {:induction false} ShownAreIds(fields: seq<Field>)
    ensures forall id :: id in Shown(fields) ==> id in Ids(fields)
  {
    IdsAre(fields);
    forall id | id in Shown(fields)
      ensures id in Ids(fields)
    {
      var i :| 0 <= i < |fields| && !fields[i].hide && fields[i].id == id;
      assert Ids(fields)[i] == id;
    }
  }

  lemma {:induction false} IdsSplit(front: seq<Field>, last: Field)
    ensures Ids(front + [last]) == Ids(front) + [last.id]
  {
    if front == [] {
      assert [last][1..] == [] && front + [last] == [last];
    } else {
      IdsSplit(front[1..], last);
      assert (front + [last])[1..] == front[1..] + [last];
    }
  }

  lemma ProperFront(front: seq<Id>, last: Id)
    requires Proper(front + [last])
    ensures Proper(front) && last !in front
  {
    var records := front + [last];
    assert forall i :: 0 <= i < |front| ==> records[i] == front[i];
    assert records[|front|] == last;
    SameIsLooselyEqual(last);
  }

  lemma {:induction false} KeptSplit(front: seq<Id>, last: Id, checked: set<Id>)
    ensures Kept(front + [last], checked) == Kept(front, checked) + if last in checked then [last] else []
  {
    if front == [] {
      assert [last][1..] == [] && front + [last] == [last];
    } else {
      KeptSplit(front[1..], last, checked);
      assert (front + [last])[1..] == front[1..] + [last];
    }
  }

  /** A selection of nothing is not remembered: the next visit starts with every visible field. */
  lemma {:induction false} EmptySelectionIsForgotten(fields: seq<Field>)
    requires Proper(Ids(fields))
    ensures InitSelection(fields, Some(Join(Texts([]), ","))) == InitSelection(fields, None)
    ensures InitSelection(fields, None) == Kept(Ids(fields), Shown(fields))
  {
    DefaultsAreShown(fields);
  }

  lemma {:induction false} KeptSame(records: seq<Id>, a: set<Id>, b: set<Id>)
    requires forall id :: id in a || id in b ==> id in records
    ensures Kept(records, a) == Kept(records, b) <==> a == b
  {
    hide Kept;
    KeptMembers(records, a);
    KeptMembers(records, b);
    if Kept(records, a) == Kept(records, b) {
      forall id
        ensures id in a <==> id in b
      {
        assert id in Kept(records, a) <==> id in Kept(records, b);
      }
    }
  }

  lemma {:induction false} RequiredAreIds(fields: seq<Field>)
    ensures forall id :: id in Required(fields) ==> id in Ids(fields)
  {
    IdsAre(fields);
    forall id | id in Required(fields)
      ensures id in Ids(fields)
    {
      var i :| 0 <= i < |fields| && fields[i].id == id;
      assert Ids(fields)[i] == id;
    }
  }

  /**
   A saved selection comes back, without the hidden fields and with the required ones, exactly
   when it is not empty or the visible fields are just the required ones.
   */
  lemma {:induction false} RestoredIff(fields: seq<Field>, checked: set<Id>)
    requires Plain(fields)
    ensures var sel := Kept(Ids(fields), checked);
      InitSelection(fields, Some(Join(Texts(sel), ","))) ==
        Kept(Ids(fields), checked * Shown(fields) + Required(fields)) <==>
      sel != [] || Shown(fields) == Required(fields)
  {
    hide Shown, Required, InitSelection, Kept, Texts, Join, Proper;
    var sel := Kept(Ids(fields), checked);
    if sel != [] {
      SavedIsRestored(fields, checked);
    } else {
      EmptySelectionIsForgotten(fields);
      ShownAreIds(fields);
      RequiredAreIds(fields);
      KeptMembers(Ids(fields), checked);
      assert checked * Shown(fields) == {} by {
        forall id | id in checked && id in Shown(fields)
          ensures id in sel
        {
        }
      }
      assert checked * Shown(fields) + Required(fields) == Required(fields);
      KeptSame(Ids(fields), Shown(fields), Required(fields));
    }
  }

  /** The fields displayed are the fields checked, in their order, for any selection of them in any order. */
  lemma {:induction false} DisplayedAreChecked(fields: seq<Field>, selection: seq<Id>)
    ensures Ids(DisplayFields(fields, selection)) == Kept(Ids(fields), set id | id in selection)
    decreases |fields|
  {
    hide Kept;
    var checked := set id | id in selection;
    if fields == [] {
      NothingKept();
    } else {
      var front, last := fields[..|fields| - 1], fields[|fields| - 1];
      DisplayedAreChecked(front, selection);
      assert fields == front + [last];
      IdsSplit(front, last);
      KeptSplit(Ids(front), last.id, checked);
      if last.id in selection {
        IdsSplit(DisplayFields(front, selection), last);
      } else {
        assert DisplayFields(fields, selection) == DisplayFields(front, selection);
      }
    }
  }
}
