/**
 The monitor's query sets: every combination of the chosen label values, for every metric, and
 the number of them announced before the search.
 */
module Cartesian {
  import opened Sequences

  /** An array of arrays, which `CombineVector` splices as it goes. */
  class Vectors<T> {
    var rows: seq<seq<T>>

    constructor (rows: seq<seq<T>>)
      ensures this.rows == rows
    {
      this.rows := rows;
    }
  }

  function Extended<T>(tuples: seq<seq<T>>, value: T): seq<seq<T>> {
    if tuples == [] then [] else [tuples[0] + [value]] + Extended(tuples[1..], value)
  }

  function Crossed<T>(values: seq<T>, tuples: seq<seq<T>>): seq<seq<T>> {
    if values == [] then [] else Extended(tuples, values[0]) + Crossed(values[1..], tuples)
  }

  /** The tuples in order: the last element of a tuple comes from the first row. */
  function Tuples<T>(rows: seq<seq<T>>): seq<seq<T>>
    decreases |rows|
  {
    if rows == [] then [[]] else Crossed(rows[0], Tuples(rows[1..]))
  }

  lemma {:induction false} ExtendedSplit<T>(a: seq<seq<T>>, b: seq<seq<T>>, value: T)
    ensures Extended(a + b, value) == Extended(a, value) + Extended(b, value)
  {
    if a == [] {
      assert a + b == b;
    } else {
      assert (a + b)[1..] == a[1..] + b;
      ExtendedSplit(a[1..], b, value);
    }
  }

  lemma {:induction false} CrossedSplit<T>(a: seq<T>, b: seq<T>, tuples: seq<seq<T>>)
    ensures Crossed(a + b, tuples) == Crossed(a, tuples) + Crossed(b, tuples)
  {
    hide Extended;
    if a == [] {
      assert a + b == b;
    } else {
      assert (a + b)[1..] == a[1..] + b;
      CrossedSplit(a[1..], b, tuples);
    }
  }

  function Singles<T>(values: seq<T>): (r: seq<seq<T>>)
    ensures |r| == |values| && forall i :: 0 <= i < |r| ==> r[i] == [values[i]]
  {
    seq(|values|, i requires 0 <= i < |values| => [values[i]])
  }

  /** Crossing with the empty tuple puts every value in a tuple of its own. */
  lemma {:induction false} CrossedSingles<T>(values: seq<T>)
    ensures Crossed(values, [[]]) == Singles(values)
  {
    hide Extended;
    if values == [] {
      NothingCrossed<T>([[]]);
    } else {
      CrossedSingles(values[1..]);
      OneExtended([], values[0]);
      assert [] + [values[0]] == [values[0]];
    }
  }

  /** The argument is left with its last row only. */
  method CombineVector<T>(vectorArray: Vectors<T>) returns (retArray: seq<seq<T>>)
    modifies vectorArray
    ensures retArray == if old(vectorArray.rows) == [] then [] else Tuples(old(vectorArray.rows))
    ensures var was := old(vectorArray.rows);
      vectorArray.rows == if was == [] then [] else [was[|was| - 1]]
    decreases |vectorArray.rows|
  {
    hide Extended, Crossed;
    var rows := vectorArray.rows;
    if |rows| == 0 {
      return [];
    }
    if |rows| == 1 {
      CrossedSingles(rows[0]);
      return Singles(rows[0]);
    }
    var needCombineArray := rows[0];
    retArray := [];
    vectorArray.rows := vectorArray.rows[1..];
    var combineArray := CombineVector(vectorArray);
    NothingCrossed(combineArray);
    for i := 0 to |needCombineArray|
      invariant vectorArray.rows == rows[|rows| - 1..]
      invariant retArray == Crossed(needCombineArray[..i], combineArray)
    {
      var tempArray := [];
      NothingExtended(needCombineArray[i]);
      for j := 0 to |combineArray|
        invariant vectorArray.rows == rows[|rows| - 1..]
        invariant tempArray == Extended(combineArray[..j], needCombineArray[i])
      {
        ExtendedSplit(combineArray[..j], [combineArray[j]], needCombineArray[i]);
        OneExtended(combineArray[j], needCombineArray[i]);
        assert combineArray[..j] + [combineArray[j]] == combineArray[..j + 1];
        tempArray := tempArray + [combineArray[j] + [needCombineArray[i]]];
      }
      assert combineArray[..|combineArray|] == combineArray;
      CrossedSplit(needCombineArray[..i], [needCombineArray[i]], combineArray);
      OneCrossed(needCombineArray[i], combineArray);
      assert needCombineArray[..i] + [needCombineArray[i]] == needCombineArray[..i + 1];
      retArray := retArray + tempArray;
    }
    assert needCombineArray[..|needCombineArray|] == needCombineArray;
  }

  lemma {:induction false} NothingCrossed<T>(tuples: seq<seq<T>>)
    ensures Crossed([], tuples) == []
  {
  }

  lemma NothingExtended<T>(value: T)
    ensures Extended([], value) == []
  {
  }

  lemma OneExtended<T>(tuple: seq<T>, value: T)
    ensures Extended([tuple], value) == [tuple + [value]]
  {
  }

  lemma {:induction false} OneCrossed<T>(value: T, tuples: seq<seq<T>>)
    ensures Crossed([value], tuples) == Extended(tuples, value)
  {
  }

  // ---------------------------------------------------------------- every choice, as often as it can be made

  function Product(rows: seq<nat>): nat {
    if rows == [] then 1 else rows[0] * Product(rows[1..])
  }

  function Lengths<T>(rows: seq<seq<T>>): (r: seq<nat>)
    ensures |r| == |rows| && forall i :: 0 <= i < |r| ==> r[i] == |rows[i]|
  {
    seq(|rows|, i requires 0 <= i < |rows| => |rows[i]|)
  }

  /** How many ways there are to choose the tuple, last element from the first row. */
  ghost function Ways<T>(rows: seq<seq<T>>, t: seq<T>): nat
    decreases |rows|
  {
    if |t| != |rows| then 0
    else if rows == [] then 1
    else multiset(rows[0])[t[|t| - 1]] * Ways(rows[1..], t[..|t| - 1])
  }

  lemma {:induction false} ExtendedCount<T>(tuples: seq<seq<T>>, value: T, t: seq<T>)
    ensures multiset(Extended(tuples, value))[t] ==
      if t != [] && t[|t| - 1] == value then multiset(tuples)[t[..|t| - 1]] else 0
  {
    if tuples != [] {
      ExtendedCount(tuples[1..], value, t);
      assert tuples == [tuples[0]] + tuples[1..];
      LastAdded(tuples[0], value, t);
    }
  }

  lemma LastAdded<T>(tuple: seq<T>, value: T, t: seq<T>)
    ensures tuple + [value] == t <==> t != [] && t[|t| - 1] == value && t[..|t| - 1] == tuple
  {
  }

  lemma {:induction false} CrossedCount<T>(values: seq<T>, tuples: seq<seq<T>>, t: seq<T>)
    ensures multiset(Crossed(values, tuples))[t] ==
      if t != [] then multiset(values)[t[|t| - 1]] * multiset(tuples)[t[..|t| - 1]] else 0
  {
    hide Extended;
    if values != [] {
      CrossedCount(values[1..], tuples, t);
      ExtendedCount(tuples, values[0], t);
      assert values == [values[0]] + values[1..];
      if t != [] {
        var last, front := t[|t| - 1], t[..|t| - 1];
        Distribute(if values[0] == last then 1 else 0, multiset(values[1..])[last], multiset(tuples)[front]);
      }
    }
  }

  lemma Distribute(a: nat, b: nat, c: nat)
    ensures (a + b) * c == a * c + b * c
  {
  }

  /** Every tuple occurs as often as it can be chosen, whatever repeats there are in the rows. */
  lemma {:induction false} TuplesCount<T>(rows: seq<seq<T>>, t: seq<T>)
    ensures multiset(Tuples(rows))[t] == Ways(rows, t)
    decreases |rows|
  {
    hide Crossed;
    if rows != [] {
      CrossedCount(rows[0], Tuples(rows[1..]), t);
      if t != [] {
        TuplesCount(rows[1..], t[..|t| - 1]);
      }
    }
  }

  lemma {:induction false} ExtendedLength<T>(tuples: seq<seq<T>>, value: T)
    ensures |Extended(tuples, value)| == |tuples|
  {
    if tuples != [] {
      ExtendedLength(tuples[1..], value);
    }
  }

  lemma {:induction false} CrossedLength<T>(values: seq<T>, tuples: seq<seq<T>>)
    ensures |Crossed(values, tuples)| == |values| * |tuples|
  {
    hide Extended;
    if values != [] {
      ExtendedLength(tuples, values[0]);
      CrossedLength(values[1..], tuples);
      Distribute(1, |values| - 1, |tuples|);
    }
  }

  lemma {:induction false} TuplesLength<T>(rows: seq<seq<T>>)
    ensures |Tuples(rows)| == Product(Lengths(rows))
    decreases |rows|
  {
    hide Crossed;
    if rows != [] {
      TuplesLength(rows[1..]);
      CrossedLength(rows[0], Tuples(rows[1..]));
      assert Lengths(rows)[1..] == Lengths(rows[1..]);
    }
  }

  /** One element from every row, the last from the first. */
  predicate Chosen<T(==)>(rows: seq<seq<T>>, t: seq<T>) {
    |t| == |rows| && forall i :: 0 <= i < |rows| ==> t[|t| - 1 - i] in rows[i]
  }

  lemma {:induction false} NoRepeatsCount<T>(row: seq<T>, x: T)
    requires NoRepeats(row)
    ensures multiset(row)[x] == if x in row then 1 else 0
  {
    if row != [] {
      assert row == [row[0]] + row[1..];
      NoRepeatsCount(row[1..], x);
    }
  }

  lemma ChosenStep<T>(rows: seq<seq<T>>, t: seq<T>)
    requires rows != [] && |t| == |rows|
    ensures Chosen(rows, t) <==> t[|t| - 1] in rows[0] && Chosen(rows[1..], t[..|t| - 1])
  {
  }

  /** From rows without repeats every choice comes exactly once, and nothing else comes. */
  lemma {:induction false} TuplesAreTheChoices<T>(rows: seq<seq<T>>, t: seq<T>)
    requires forall i :: 0 <= i < |rows| ==> NoRepeats(rows[i])
    ensures multiset(Tuples(rows))[t] == if Chosen(rows, t) then 1 else 0
    decreases |rows|
  {
    hide Tuples, NoRepeats, Chosen;
    TuplesCount(rows, t);
    if rows == [] {
      NothingChosen(t);
    } else if |t| == |rows| {
      TuplesAreTheChoices(rows[1..], t[..|t| - 1]);
      TuplesCount(rows[1..], t[..|t| - 1]);
      NoRepeatsCount(rows[0], t[|t| - 1]);
      ChosenStep(rows, t);
    } else {
      WrongLength(rows, t);
    }
  }

  lemma NothingChosen<T>(t: seq<T>)
    ensures Chosen([], t) <==> t == []
  {
  }

  lemma WrongLength<T>(rows: seq<seq<T>>, t: seq<T>)
    requires |t| != |rows|
    ensures !Chosen(rows, t)
  {
  }

  // ---------------------------------------------------------------- in order

  lemma {:induction false} ExtendedAt<T>(tuples: seq<seq<T>>, value: T, j: nat)
    requires j < |tuples|
    ensures j < |Extended(tuples, value)| && Extended(tuples, value)[j] == tuples[j] + [value]
  {
    if j > 0 {
      ExtendedAt(tuples[1..], value, j - 1);
    }
  }

  lemma {:induction false} CrossedAt<T>(values: seq<T>, tuples: seq<seq<T>>, i: nat, j: nat)
    requires i < |values| && j < |tuples|
    ensures 0 <= i * |tuples| + j < |Crossed(values, tuples)|
    ensures Crossed(values, tuples)[i * |tuples| + j] == tuples[j] + [values[i]]
  {
    hide Extended;
    ExtendedLength(tuples, values[0]);
    ExtendedAt(tuples, values[0], j);
    if i > 0 {
      CrossedAt(values[1..], tuples, i - 1, j);
      Distribute(1, i - 1, |tuples|);
    }
  }

  /** The tuples come in the order of the first row's values, and for each of them in that of the other rows. */
  lemma {:induction false} TuplesAt<T>(rows: seq<seq<T>>, i: nat, j: nat)
    requires rows != [] && i < |rows[0]| && j < |Tuples(rows[1..])|
    ensures var rest := Tuples(rows[1..]);
      0 <= i * |rest| + j < |Tuples(rows)| && Tuples(rows)[i * |rest| + j] == rest[j] + [rows[0][i]]
  {
    hide Crossed;
    CrossedAt(rows[0], Tuples(rows[1..]), i, j);
  }
}
