/**
 The columns a user picks: the ids selected, kept in the order of the records, and saved as one
 comma-separated string.
 */
module Selection {
  import opened Strings

  datatype Id = Text(text: string) | Number(number: nat)

  /** An id as a string. */
  function TextOf(id: Id): string {
    if id.Text? then id.text else Decimal(id.number)
  }

  predicate Truthy(id: Id) {
    if id.Text? then id.text != "" else id.number != 0
  }

  lemma FalsyIds(id: Id)
    ensures !Truthy(id) <==> id == Text("") || id == Number(0)
  {
  }

  /** `==` compares a number with the text that spells it; `===` is Dafny's equality. */
  predicate LooselyEqual(a: Id, b: Id) {
    if a.Text? == b.Text? then a == b else TextOf(a) == TextOf(b)
  }

  // ---------------------------------------------------------------- inserting in order

  /** Where the item goes: past the selected records that come before it. */
  function Position(records: seq<Id>, selection: seq<Id>, item: Id): (p: nat)
    ensures p <= |selection|
    decreases |records|
  {
    if records == [] || selection == [] || !Truthy(selection[0]) || LooselyEqual(records[0], item) then 0
    else if records[0] == selection[0] then 1 + Position(records[1..], selection[1..], item)
    else Position(records[1..], selection, item)
  }

  function Inserted(records: seq<Id>, selection: seq<Id>, item: Id): seq<Id> {
    if item in selection then selection
    else
      var p := Position(records, selection, item);
      selection[..p] + [Text(TextOf(item))] + selection[p..]
  }

  method FindInsertPosition(records: seq<Id>, selection: seq<Id>, item: Id) returns (si: nat)
    ensures si == Position(records, selection, item)
  {
    hide LooselyEqual, Truthy;
    var ri := 0;
    si := 0;
    while ri < |records| && si < |selection| && Truthy(selection[si])
      invariant ri <= |records| && si <= |selection|
      invariant Position(records, selection, item) == si + Position(records[ri..], selection[si..], item)
    {
      if LooselyEqual(records[ri], item) {
        break;
      }
      if records[ri] == selection[si] {
        si := si + 1;
      }
      ri := ri + 1;
    }
  }

  method SelectionInsert(records: seq<Id>, selection: seq<Id>, item: Id) returns (r: seq<Id>)
    ensures r == Inserted(records, selection, item)
  {
    hide Position;
    var index := -1;
    for i := 0 to |selection|
      invariant index == -1 && item !in selection[..i]
    {
      if selection[i] == item {
        index := i;
        break;
      }
    }
    r := selection;
    if index == -1 {
      var insertIndex := FindInsertPosition(records, selection, item);
      r := r[..insertIndex] + [Text(TextOf(item))] + r[insertIndex..];
    }
  }

  /** The first occurrence as a string goes, then every occurrence as it is. */
  function Removed(selection: seq<Id>, item: Id): seq<Id> {
    Without(WithoutFirst(selection, Text(TextOf(item))), item)
  }

  function WithoutFirst(selection: seq<Id>, id: Id): seq<Id> {
    if selection == [] then []
    else if selection[0] == id then selection[1..]
    else [selection[0]] + WithoutFirst(selection[1..], id)
  }

  function Without(selection: seq<Id>, id: Id): seq<Id> {
    if selection == [] then []
    else (if selection[0] != id then [selection[0]] else []) + Without(selection[1..], id)
  }

  function IndexOf(selection: seq<Id>, id: Id): (i: int)
    ensures -1 <= i < |selection|
  {
    if selection == [] then -1
    else if selection[0] == id then 0
    else
      var rest := IndexOf(selection[1..], id);
      if rest == -1 then -1 else rest + 1
  }

  lemma SplicedTail(selection: seq<Id>, i: nat)
    requires i + 1 < |selection|
    ensures selection[..i + 1] + selection[i + 2..] == [selection[0]] + (selection[1..][..i] + selection[1..][i + 1..])
  {
  }

  lemma {:induction false} SplicedOut(selection: seq<Id>, id: Id)
    ensures var i := IndexOf(selection, id);
      WithoutFirst(selection, id) == if i == -1 then selection else selection[..i] + selection[i + 1..]
  {
    if selection != [] && selection[0] != id {
      var rest := selection[1..];
      SplicedOut(rest, id);
      var i := IndexOf(rest, id);
      if i != -1 {
        SplicedTail(selection, i);
      }
    }
  }

  method SelectionRemove(selection: seq<Id>, item: Id) returns (r: seq<Id>)
    ensures r == Removed(selection, item)
  {
    r := selection;
    var index := IndexOf(r, Text(TextOf(item)));
    SplicedOut(r, Text(TextOf(item)));
    if index > -1 {
      r := r[..index] + r[index + 1..];
    }
    r := Without(r, item);
  }

  // ---------------------------------------------------------------- the selection is a filter

  /** The records' ids that are checked, in the records' order. */
  function Kept(records: seq<Id>, checked: set<Id>): seq<Id> {
    if records == [] then []
    else (if records[0] in checked then [records[0]] else []) + Kept(records[1..], checked)
  }

  /** Ids are not blank, and no two of them loosely equal. */
  ghost predicate Proper(records: seq<Id>) {
    (forall i :: 0 <= i < |records| ==> Truthy(records[i])) &&
    forall i, j :: 0 <= i < j < |records| ==> !LooselyEqual(records[i], records[j])
  }

  lemma {:induction false} KeptStep(records: seq<Id>, checked: set<Id>)
    requires records != []
    ensures var sel, below := Kept(records, checked), Kept(records[1..], checked);
      if records[0] in checked then sel == [records[0]] + below && sel[0] == records[0] && sel[1..] == below
      else sel == below
  {
  }

  lemma {:induction false} KeptMembers(records: seq<Id>, checked: set<Id>)
    ensures forall id :: id in Kept(records, checked) <==> id in records && id in checked
  {
    if records != [] {
      KeptMembers(records[1..], checked);
    }
  }

  lemma {:induction false} KeptOnly(records: seq<Id>, a: set<Id>, b: set<Id>)
    requires forall id :: id in records ==> (id in a <==> id in b)
    ensures Kept(records, a) == Kept(records, b)
  {
    if records != [] {
      KeptOnly(records[1..], a, b);
    }
  }

  lemma ProperTail(records: seq<Id>)
    requires Proper(records) && records != []
    ensures Proper(records[1..]) && records[0] !in records[1..] && Truthy(records[0])
    ensures forall id :: id in records[1..] ==> !LooselyEqual(records[0], id)
  {
  }

  lemma {:induction false} FoundByRecord(records: seq<Id>, checked: set<Id>, item: Id)
    requires Proper(records) && item in records && item !in checked
    ensures var sel := Kept(records, checked);
      var p := Position(records, sel, item);
      sel[..p] + [item] + sel[p..] == Kept(records, checked + {item})
    decreases |records|
  {
    hide Proper, LooselyEqual, Truthy, Kept, Position;
    ProperTail(records);
    var rest := records[1..];
    var sel := Kept(records, checked);
    KeptStep(records, checked);
    KeptStep(records, checked + {item});
    KeptMembers(records, checked);
    if records[0] == item {
      KeptOnly(rest, checked, checked + {item});
      PositionStep(records, sel, item);
      assert sel[..0] + [item] + sel[0..] == [item] + sel;
    } else {
      FoundByRecord(rest, checked, item);
      var below := Kept(rest, checked);
      var p := Position(rest, below, item);
      KeptMembers(rest, checked);
      PositionStep(records, sel, item);
      if records[0] in checked {
        assert sel[..p + 1] == [records[0]] + below[..p] && sel[p + 1..] == below[p..];
      }
    }
  }

  lemma {:induction false} PositionStep(records: seq<Id>, sel: seq<Id>, item: Id)
    requires Proper(records) && records != [] && item in records
    requires forall id :: id in sel ==> id in records
    requires records[0] in sel ==> sel[0] == records[0]
    ensures records[0] == item ==> Position(records, sel, item) == 0
    ensures records[0] != item && records[0] in sel ==>
      Position(records, sel, item) == 1 + Position(records[1..], sel[1..], item)
    ensures records[0] != item && records[0] !in sel ==>
      Position(records, sel, item) == Position(records[1..], sel, item)
  {
  }

  lemma RecordsAreTruthy(records: seq<Id>, id: Id)
    requires Proper(records) && id in records
    ensures Truthy(id)
  {
  }

  lemma SameIsLooselyEqual(item: Id)
    ensures LooselyEqual(item, item)
  {
  }

  /**
   Inserting checks the item in the records' order exactly when its id is text: the id of a new
   item is always stored as text.
   */
  lemma {:induction false} InsertedIff(records: seq<Id>, checked: set<Id>, item: Id)
    requires Proper(records) && item in records && item !in checked
    ensures Inserted(records, Kept(records, checked), item) == Kept(records, checked + {item}) <==> item.Text?
  {
    hide Proper, Position, Kept, LooselyEqual;
    KeptMembers(records, checked);
    FoundByRecord(records, checked, item);
    if item.Number? {
      var text := Text(TextOf(item));
      TextIsNoRecord(records, item);
      KeptMembers(records, checked + {item});
      var sel, p := Kept(records, checked), Position(records, Kept(records, checked), item);
      assert (sel[..p] + [text] + sel[p..])[p] == text;
    }
  }

  lemma TextIsNoRecord(records: seq<Id>, item: Id)
    requires Proper(records) && item in records && Text(TextOf(item)) != item
    ensures Text(TextOf(item)) !in records
  {
  }

  lemma {:induction false} InsertedIsKept(records: seq<Id>, checked: set<Id>, item: Id)
    requires Proper(records) && item in records && item.Text?
    ensures Inserted(records, Kept(records, checked), item) == Kept(records, checked + {item})
  {
    hide Proper, Position, Kept;
    KeptMembers(records, checked);
    if item in checked {
      KeptOnly(records, checked, checked + {item});
    } else {
      InsertedIff(records, checked, item);
    }
  }

  lemma {:induction false} WithoutAbsent(selection: seq<Id>, id: Id)
    requires id !in selection
    ensures WithoutFirst(selection, id) == Without(selection, id) == selection
  {
    if selection != [] {
      WithoutAbsent(selection[1..], id);
    }
  }

  lemma NothingKept()
    ensures forall c :: Kept([], c) == []
  {
  }

  lemma {:induction false} WithoutKept(records: seq<Id>, checked: set<Id>, id: Id)
    ensures Without(Kept(records, checked), id) == Kept(records, checked - {id})
  {
    if records != [] {
      WithoutKept(records[1..], checked, id);
      KeptStep(records, checked);
      KeptStep(records, checked - {id});
    }
  }

  lemma {:induction false} WithoutFirstKept(records: seq<Id>, checked: set<Id>, id: Id)
    requires Proper(records)
    ensures WithoutFirst(Kept(records, checked), id) == Kept(records, checked - {id})
    decreases |records|
  {
    hide Proper, Kept;
    if records == [] {
      NothingKept();
    } else {
      ProperTail(records);
      KeptStep(records, checked);
      KeptStep(records, checked - {id});
      if records[0] in checked && records[0] == id {
        KeptOnly(records[1..], checked, checked - {id});
      } else {
        WithoutFirstKept(records[1..], checked, id);
      }
    }
  }

  /** Removing unchecks the item, whatever its id. */
  lemma {:induction false} RemovedIsKept(records: seq<Id>, checked: set<Id>, item: Id)
    requires Proper(records) && item in records
    ensures Removed(Kept(records, checked), item) == Kept(records, checked - {item})
  {
    hide Proper, Kept, Without, WithoutFirst;
    var text := Text(TextOf(item));
    if text == item {
      WithoutFirstKept(records, checked, item);
      WithoutKept(records, checked - {item}, item);
      assert checked - {item} - {item} == checked - {item};
    } else {
      TextIsNoRecord(records, item);
      KeptMembers(records, checked);
      WithoutAbsent(Kept(records, checked), text);
      WithoutKept(records, checked, item);
    }
  }

  datatype Op = Check(item: Id) | Uncheck(item: Id)

  function Selected(records: seq<Id>, selection: seq<Id>, ops: seq<Op>): seq<Id>
    decreases |ops|
  {
    if ops == [] then selection
    else
      var next := if ops[0].Check? then Inserted(records, selection, ops[0].item) else Removed(selection, ops[0].item);
      Selected(records, next, ops[1..])
  }

  function Checked(checked: set<Id>, ops: seq<Op>): set<Id>
    decreases |ops|
  {
    if ops == [] then checked
    else Checked(if ops[0].Check? then checked + {ops[0].item} else checked - {ops[0].item}, ops[1..])
  }

  /** Over any run of clicks the selection is the list of records filtered by what is checked. */
  lemma {:induction false} RunIsFilter(records: seq<Id>, checked: set<Id>, ops: seq<Op>)
    requires Proper(records)
    requires forall i :: 0 <= i < |ops| ==> ops[i].item in records && ops[i].item.Text?
    ensures Selected(records, Kept(records, checked), ops) == Kept(records, Checked(checked, ops))
    decreases |ops|
  {
    hide Proper, Kept, Inserted, Removed;
    if ops != [] {
      if ops[0].Check? {
        InsertedIsKept(records, checked, ops[0].item);
        RunIsFilter(records, checked + {ops[0].item}, ops[1..]);
      } else {
        RemovedIsKept(records, checked, ops[0].item);
        RunIsFilter(records, checked - {ops[0].item}, ops[1..]);
      }
    }
  }

  /** A numeric id that is already selected, as text, is selected again. */
  lemma NumericIdIsRepeated(n: nat)
    requires n > 0
    ensures var once := Inserted([Number(n)], [], Number(n));
      Inserted([Number(n)], once, Number(n)) == once + once && |once| == 1
  {
  }
}
