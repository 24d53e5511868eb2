/**
 The monitor's search: the check that announces how many queries a filter configuration makes,
 and the queries themselves.
 */
module QuerySets {
  import opened Strings
  import opened Cartesian
  import opened Sequences

  /** One entry of the filter configuration, in key order; a label without values does not filter. */
  datatype Filter = Filter(labelKey: string, values: seq<string>)

  datatype Label = Label(labelKey: string, labelValue: string)

  datatype QuerySet = QuerySet(metricName: string, monitorFilters: seq<Label>)

  /** From this number of queries on the user is asked first. */
  const MANY := 50

  function LabelLists(filters: seq<Filter>): (r: seq<seq<string>>)
    ensures forall i :: 0 <= i < |r| ==> r[i] != []
  {
    if filters == [] then []
    else (if filters[0].values != [] then [filters[0].values] else []) + LabelLists(filters[1..])
  }

  function Labels(f: Filter): (r: seq<Label>)
    ensures |r| == |f.values|
    ensures forall i :: 0 <= i < |r| ==> r[i] == Label(f.labelKey, f.values[i])
  {
    seq(|f.values|, i requires 0 <= i < |f.values| => Label(f.labelKey, f.values[i]))
  }

  function Rows(filters: seq<Filter>): (r: seq<seq<Label>>)
    ensures forall i :: 0 <= i < |r| ==> r[i] != []
  {
    if filters == [] then [] else (if filters[0].values != [] then [Labels(filters[0])] else []) + Rows(filters[1..])
  }

  function QueryNumber(filters: seq<Filter>, metricNames: seq<string>): nat {
    |metricNames| * Product(Lengths(LabelLists(filters)))
  }

  lemma Regroup(a: int, b: int, c: int)
    ensures a * (b * c) == (a * b) * c
  {
  }

  lemma ProductStep<T>(rows: seq<seq<T>>, i: nat)
    requires i < |rows|
    ensures Product(Lengths(rows[i..])) == |rows[i]| * Product(Lengths(rows[i + 1..]))
  {
    assert Lengths(rows[i..])[1..] == Lengths(rows[i + 1..]);
  }

  method SearchPreCheck(filters: seq<Filter>, metricNames: seq<string>, confirmed: bool) returns (proceed: bool)
    ensures proceed <==> QueryNumber(filters, metricNames) < MANY || confirmed
  {
    hide LabelLists, Product, Lengths;
    var labelList := LabelLists(filters);
    var queryNumber := |metricNames|;
    assert labelList[0..] == labelList;
    for i := 0 to |labelList|
      invariant queryNumber * Product(Lengths(labelList[i..])) == QueryNumber(filters, metricNames)
    {
      ProductStep(labelList, i);
      Regroup(queryNumber, |labelList[i]|, Product(Lengths(labelList[i + 1..])));
      queryNumber := queryNumber * |labelList[i]|;
    }
    NoFactors(labelList);
    proceed := queryNumber < MANY || confirmed;
  }

  lemma NoFactors<T>(rows: seq<seq<T>>)
    ensures Product(Lengths(rows[|rows|..])) == 1
  {
  }

  function SetsOf(metricName: string, choices: seq<seq<Label>>): (r: seq<QuerySet>)
    ensures |r| == |choices|
    ensures forall i :: 0 <= i < |r| ==> r[i] == QuerySet(metricName, choices[i])
  {
    seq(|choices|, i requires 0 <= i < |choices| => QuerySet(metricName, choices[i]))
  }

  /** Every metric with every choice of a value for every label that filters. */
  function SetsFor(metricNames: seq<string>, choices: seq<seq<Label>>): seq<QuerySet> {
    if metricNames == [] then []
    else
      var front, last := metricNames[..|metricNames| - 1], metricNames[|metricNames| - 1];
      SetsFor(front, choices) + SetsOf(last, choices)
  }

  lemma {:induction false} SomeProduct(ns: seq<nat>)
    requires forall i :: 0 <= i < |ns| ==> ns[i] > 0
    ensures Product(ns) > 0
  {
    if ns != [] {
      SomeProduct(ns[1..]);
      Positive(ns[0], Product(ns[1..]));
    }
  }

  lemma Positive(a: nat, b: nat)
    requires a > 0 && b > 0
    ensures a * b > 0
  {
  }

  method Search(filters: seq<Filter>, metricNames: seq<string>, confirmed: bool) returns (sets: Option<seq<QuerySet>>)
    ensures sets.Some? <==> QueryNumber(filters, metricNames) < MANY || confirmed
    ensures sets.Some? ==> sets.value == SetsFor(metricNames, Tuples(Rows(filters)))
  {
    hide QueryNumber, Tuples, Rows, Product;
    var continueSearch := SearchPreCheck(filters, metricNames, confirmed);
    if !continueSearch {
      return None;
    }
    var metricQuerySets := [];
    for i := 0 to |metricNames|
      invariant metricQuerySets == SetsFor(metricNames[..i], Tuples(Rows(filters)))
    {
      var vectors := new Vectors(Rows(filters));
      var monitorFilterList := CombineVector(vectors);
      NoRowsOneTuple(filters);
      if |monitorFilterList| == 0 {
        metricQuerySets := metricQuerySets + [QuerySet(metricNames[i], [])];
      } else {
        ghost var before := metricQuerySets;
        for j := 0 to |monitorFilterList|
          invariant metricQuerySets == before + SetsOf(metricNames[i], monitorFilterList)[..j]
        {
          metricQuerySets := metricQuerySets + [QuerySet(metricNames[i], monitorFilterList[j])];
        }
      }
      OneMoreMetric(metricNames, i, Tuples(Rows(filters)));
    }
    assert metricNames[..|metricNames|] == metricNames;
    return Some(metricQuerySets);
  }

  lemma {:induction false} OneMoreMetric(metricNames: seq<string>, i: nat, choices: seq<seq<Label>>)
    requires i < |metricNames|
    ensures SetsFor(metricNames[..i + 1], choices) ==
      SetsFor(metricNames[..i], choices) + SetsOf(metricNames[i], choices)
    ensures choices == [[]] ==> SetsOf(metricNames[i], choices) == [QuerySet(metricNames[i], [])]
  {
    assert metricNames[..i + 1][..i] == metricNames[..i];
  }

  lemma {:induction false} NoRowsOneTuple(filters: seq<Filter>)
    ensures Rows(filters) == [] ==> Tuples(Rows(filters)) == [[]]
    ensures Rows(filters) != [] ==> Tuples(Rows(filters)) != []
  {
    hide Product, Rows;
    TuplesLength(Rows(filters));
    SomeProduct(Lengths(Rows(filters)));
  }

  // ---------------------------------------------------------------- as many as announced, each once

  lemma {:induction false} RowLengths(filters: seq<Filter>)
    ensures Lengths(Rows(filters)) == Lengths(LabelLists(filters))
  {
    if filters != [] {
      RowLengths(filters[1..]);
      var head: seq<seq<Label>> := if filters[0].values != [] then [Labels(filters[0])] else [];
      assert Lengths(head + Rows(filters[1..])) == Lengths(head) + Lengths(Rows(filters[1..]));
      var lists: seq<seq<string>> := if filters[0].values != [] then [filters[0].values] else [];
      assert Lengths(lists + LabelLists(filters[1..])) == Lengths(lists) + Lengths(LabelLists(filters[1..]));
    }
  }

  lemma {:induction false} SetsLength(metricNames: seq<string>, choices: seq<seq<Label>>)
    ensures |SetsFor(metricNames, choices)| == |metricNames| * |choices|
    decreases |metricNames|
  {
    if metricNames != [] {
      SetsLength(metricNames[..|metricNames| - 1], choices);
      Distribute(|metricNames| - 1, 1, |choices|);
    }
  }

  /** The search makes exactly as many query sets as the check announced. */
  lemma {:induction false} SetsAsAnnounced(filters: seq<Filter>, metricNames: seq<string>)
    ensures |SetsFor(metricNames, Tuples(Rows(filters)))| == QueryNumber(filters, metricNames)
  {
    hide Tuples, Rows, LabelLists, Product, Lengths;
    SetsLength(metricNames, Tuples(Rows(filters)));
    TuplesLength(Rows(filters));
    RowLengths(filters);
  }

  lemma {:induction false} SetsOfCount(metricName: string, choices: seq<seq<Label>>, q: QuerySet)
    ensures multiset(SetsOf(metricName, choices))[q] ==
      if q.metricName == metricName then multiset(choices)[q.monitorFilters] else 0
    decreases |choices|
  {
    if choices != [] {
      var front, last := choices[..|choices| - 1], choices[|choices| - 1];
      SetsOfCount(metricName, front, q);
      assert choices == front + [last];
      assert SetsOf(metricName, choices) == SetsOf(metricName, front) + [QuerySet(metricName, last)];
    }
  }

  lemma {:induction false} NoSets(choices: seq<seq<Label>>)
    ensures SetsFor([], choices) == []
  {
  }

  lemma CountStep(metricNames: seq<string>, choices: seq<seq<Label>>, q: QuerySet)
    requires metricNames != []
    ensures var front, last := metricNames[..|metricNames| - 1], metricNames[|metricNames| - 1];
      multiset(SetsFor(metricNames, choices))[q] ==
        multiset(SetsFor(front, choices))[q] + multiset(SetsOf(last, choices))[q] &&
      multiset(metricNames)[q.metricName] == multiset(front)[q.metricName] + if last == q.metricName then 1 else 0
  {
    hide SetsOf;
    assert metricNames == metricNames[..|metricNames| - 1] + [metricNames[|metricNames| - 1]];
  }

  /** A query set occurs as often as its metric is named times the ways its labels can be chosen. */
  lemma {:induction false} SetsCount(metricNames: seq<string>, rows: seq<seq<Label>>, q: QuerySet)
    ensures multiset(SetsFor(metricNames, Tuples(rows)))[q] ==
      multiset(metricNames)[q.metricName] * Ways(rows, q.monitorFilters)
    decreases |metricNames|
  {
    hide Tuples, Ways, SetsOf, SetsFor;
    if metricNames == [] {
      NoSets(Tuples(rows));
    } else {
      var front, last := metricNames[..|metricNames| - 1], metricNames[|metricNames| - 1];
      SetsCount(front, rows, q);
      SetsOfCount(last, Tuples(rows), q);
      TuplesCount(rows, q.monitorFilters);
      CountStep(metricNames, Tuples(rows), q);
      Distribute(multiset(front)[q.metricName], if last == q.metricName then 1 else 0, Ways(rows, q.monitorFilters));
    }
  }

  lemma {:induction false} RowsDoNotRepeat(filters: seq<Filter>)
    requires forall i :: 0 <= i < |filters| ==> NoRepeats(filters[i].values)
    ensures forall i :: 0 <= i < |Rows(filters)| ==> NoRepeats(Rows(filters)[i])
  {
    if filters != [] {
      RowsDoNotRepeat(filters[1..]);
    }
  }

  /** Without repeats in the configuration every query is asked exactly once, and no other query is. */
  lemma {:induction false} EachQueryOnce(filters: seq<Filter>, metricNames: seq<string>, q: QuerySet)
    requires NoRepeats(metricNames) && forall i :: 0 <= i < |filters| ==> NoRepeats(filters[i].values)
    ensures multiset(SetsFor(metricNames, Tuples(Rows(filters))))[q] ==
      if q.metricName in metricNames && Chosen(Rows(filters), q.monitorFilters) then 1 else 0
  {
    hide Tuples, Rows, Ways, Chosen, NoRepeats, SetsFor;
    SetsCount(metricNames, Rows(filters), q);
    NoRepeatsCount(metricNames, q.metricName);
    RowsDoNotRepeat(filters);
    TuplesAreTheChoices(Rows(filters), q.monitorFilters);
    TuplesCount(Rows(filters), q.monitorFilters);
  }

  // ---------------------------------------------------------------- in terms of the filters

  /** How many choices the filters leave: one of its values for each label that has any. */
  function Combinations(filters: seq<Filter>): nat {
    if filters == [] then 1
    else (if filters[0].values == [] then 1 else |filters[0].values|) * Combinations(filters[1..])
  }

  lemma {:induction false} ProductOfLists(filters: seq<Filter>)
    ensures Product(Lengths(LabelLists(filters))) == Combinations(filters)
  {
    if filters != [] {
      var lists, rest := LabelLists(filters), LabelLists(filters[1..]);
      ProductOfLists(filters[1..]);
      if filters[0].values != [] {
        assert lists[0..] == lists && lists[1..] == rest;
        ProductStep(lists, 0);
      } else {
        assert lists == rest;
      }
    }
  }

  /** The number announced is that of the metrics times one factor for every label that has values. */
  lemma {:induction false} AnnouncedIs(filters: seq<Filter>, metricNames: seq<string>)
    ensures QueryNumber(filters, metricNames) == |metricNames| * Combinations(filters)
  {
    ProductOfLists(filters);
  }

  /** One value of every filter that has any, the last for the first filter. */
  predicate PicksOneEach(filters: seq<Filter>, t: seq<Label>)
    decreases |filters|
  {
    if filters == [] then t == []
    else if filters[0].values == [] then PicksOneEach(filters[1..], t)
    else
      t != [] && t[|t| - 1].labelKey == filters[0].labelKey && t[|t| - 1].labelValue in filters[0].values &&
      PicksOneEach(filters[1..], t[..|t| - 1])
  }

  lemma {:induction false} ChosenPicks(filters: seq<Filter>, t: seq<Label>)
    ensures Chosen(Rows(filters), t) <==> PicksOneEach(filters, t)
    decreases |filters|
  {
    hide Chosen;
    if filters == [] {
      NothingChosen(t);
    } else if filters[0].values == [] {
      assert Rows(filters) == Rows(filters[1..]);
      ChosenPicks(filters[1..], t);
    } else {
      var rows := Rows(filters);
      assert rows[0] == Labels(filters[0]) && rows[1..] == Rows(filters[1..]);
      if |t| == |rows| {
        ChosenStep(rows, t);
        ChosenPicks(filters[1..], t[..|t| - 1]);
        InLabels(filters[0], t[|t| - 1]);
      } else {
        WrongLength(rows, t);
        if t != [] {
          WrongLength(rows[1..], t[..|t| - 1]);
          ChosenPicks(filters[1..], t[..|t| - 1]);
        }
      }
    }
  }

  lemma InLabels(f: Filter, label_: Label)
    ensures label_ in Labels(f) <==> label_.labelKey == f.labelKey && label_.labelValue in f.values
  {
    if label_.labelKey == f.labelKey && label_.labelValue in f.values {
      var i :| 0 <= i < |f.values| && f.values[i] == label_.labelValue;
      assert Labels(f)[i] == label_;
    }
  }

  /**
   Without repeats in the configuration the queries made are exactly, and each once, a metric with
   one value of every label that has any; a label without values leaves no trace.
   */
  lemma {:induction false} QueriesOfTheFilters(filters: seq<Filter>, metricNames: seq<string>, q: QuerySet)
    requires NoRepeats(metricNames) && forall i :: 0 <= i < |filters| ==> NoRepeats(filters[i].values)
    ensures multiset(SetsFor(metricNames, Tuples(Rows(filters))))[q] ==
      if q.metricName in metricNames && PicksOneEach(filters, q.monitorFilters) then 1 else 0
  {
    hide Tuples, Rows, Chosen, NoRepeats, SetsFor, PicksOneEach;
    EachQueryOnce(filters, metricNames, q);
    ChosenPicks(filters, q.monitorFilters);
  }
}
