/**
 Request counts from decoded time series, per service, instance or caller: one record per key,
 updated in place series by series.
 */
module Metrics {
  import opened Sequences
  import opened Strings

  /** A sample: `NaN`, or the number its text parses to, 0 when it does not. */
  datatype Sample = NaN | Count(n: int)

  /** One series: the key its labels make, its result label and its samples. */
  datatype Series<K> = Series(key: K, result: string, values: seq<Sample>)

  const SUCCESS := "success"
  const FAIL := "fail"
  const REJECT := "reject"
  const FLOW_CONTROL := "flow_control"

  function Sum(values: seq<Sample>): int {
    if values == [] then 0
    else
      var last := values[|values| - 1];
      Sum(values[..|values| - 1]) + if last.NaN? then 0 else last.n
  }

  method AddUp(values: seq<Sample>) returns (total: int)
    ensures total == Sum(values)
  {
    total := 0;
    for i := 0 to |values|
      invariant total == Sum(values[..i])
    {
      assert values[..i + 1][..i] == values[..i];
      if values[i].NaN? {
        continue;
      }
      total := total + values[i].n;
    }
    assert values[..|values|] == values;
  }

  /** The sum adds: a number counts itself, `NaN` nothing, and samples laid end to end their sums. */
  lemma {:induction false} SumSplit(a: seq<Sample>, b: seq<Sample>)
    ensures Sum(a + b) == Sum(a) + Sum(b)
    decreases |b|
  {
    if b == [] {
      assert a + b == a;
    } else {
      assert (a + b)[..|a + b| - 1] == a + b[..|b| - 1];
      SumSplit(a, b[..|b| - 1]);
    }
  }

  lemma SumOne(n: int)
    ensures Sum([Count(n)]) == n && Sum([NaN]) == 0 && Sum([]) == 0
  {
    assert [Count(n)][..0] == [] && [NaN][..0] == [];
  }

  // ---------------------------------------------------------------- what the counters mean

  predicate Counts<K(==)>(s: Series<K>, key: Option<K>, results: Option<set<string>>) {
    (key.None? || key.value == s.key) && (results.None? || s.result in results.value)
  }

  /** The requests of the key, or of all, that ended with one of the results, or anyhow. */
  function Requests<K(==)>(series: seq<Series<K>>, key: Option<K>, results: Option<set<string>>): int {
    if series == [] then 0
    else
      var last := series[|series| - 1];
      Requests(series[..|series| - 1], key, results) + if Counts(last, key, results) then Sum(last.values) else 0
  }

  const FAILURES := {FAIL, REJECT, FLOW_CONTROL}

  predicate Nonnegative<K>(series: seq<Series<K>>) {
    forall i, j :: 0 <= i < |series| && 0 <= j < |series[i].values| ==>
      series[i].values[j].NaN? || series[i].values[j].n >= 0
  }

  class Metric {
    var successRate: real
    var totalRequest: int
    var failedRequest: int
    var limitedRequest: int
    var circuitbreakerRequest: int

    constructor ()
      ensures successRate == 0.0
      ensures totalRequest == failedRequest == limitedRequest == circuitbreakerRequest == 0
    {
      successRate := 0.0;
      totalRequest, failedRequest, limitedRequest, circuitbreakerRequest := 0, 0, 0, 0;
    }

    method CalSuccessRate()
      modifies this`successRate
      ensures successRate ==
        if totalRequest != 0 then (totalRequest as real - failedRequest as real) / totalRequest as real
        else old(successRate)
    {
      if totalRequest != 0 {
        successRate := (totalRequest as real - failedRequest as real) / totalRequest as real;
      }
    }

    /** One series' requests go to the counter of their result, to the failed ones, and to the total. */
    method Add(result: string, total: int)
      modifies this
      ensures totalRequest == old(totalRequest) + total
      ensures failedRequest == old(failedRequest) + if result in FAILURES then total else 0
      ensures limitedRequest == old(limitedRequest) + if result == FLOW_CONTROL then total else 0
      ensures circuitbreakerRequest == old(circuitbreakerRequest) + if result == REJECT then total else 0
      ensures successRate ==
        if totalRequest != 0 then (totalRequest as real - failedRequest as real) / totalRequest as real
        else old(successRate)
    {
      if result == FAIL {
        failedRequest := failedRequest + total;
      } else if result == FLOW_CONTROL {
        limitedRequest := limitedRequest + total;
        failedRequest := failedRequest + total;
      } else if result == REJECT {
        circuitbreakerRequest := circuitbreakerRequest + total;
        failedRequest := failedRequest + total;
      }
      totalRequest := totalRequest + total;
      CalSuccessRate();
    }

    /** The counters hold what the series say of the key. */
    predicate Tallies<K(==)>(series: seq<Series<K>>, key: K)
      reads this
    {
      totalRequest == Requests(series, Some(key), None) &&
      failedRequest == Requests(series, Some(key), Some(FAILURES)) &&
      limitedRequest == Requests(series, Some(key), Some({FLOW_CONTROL})) &&
      circuitbreakerRequest == Requests(series, Some(key), Some({REJECT}))
    }

    /** The rate matches the counters; without requests it is still 0. */
    predicate Rated(nonnegative: bool)
      reads this
    {
      if totalRequest != 0 then successRate == (totalRequest as real - failedRequest as real) / totalRequest as real
      else nonnegative ==> successRate == 0.0
    }
  }

  lemma {:induction false} NoSuchKey<K>(series: seq<Series<K>>, key: K, results: Option<set<string>>)
    requires forall i :: 0 <= i < |series| ==> series[i].key != key
    ensures Requests(series, Some(key), results) == 0
    decreases |series|
  {
    if series != [] {
      NoSuchKey(series[..|series| - 1], key, results);
    }
  }

  lemma {:induction false} RequestsNonnegative<K>(series: seq<Series<K>>, key: Option<K>, results: Option<set<string>>)
    requires Nonnegative(series)
    ensures Requests(series, key, results) >= 0
    decreases |series|
  {
    if series != [] {
      RequestsNonnegative(series[..|series| - 1], key, results);
      SumNonnegative(series[|series| - 1].values);
    }
  }

  lemma {:induction false} SumNonnegative(values: seq<Sample>)
    requires forall j :: 0 <= j < |values| ==> values[j].NaN? || values[j].n >= 0
    ensures Sum(values) >= 0
    decreases |values|
  {
    if values != [] {
      SumNonnegative(values[..|values| - 1]);
    }
  }

  lemma {:induction false} RequestsStep<K>(series: seq<Series<K>>, i: nat, key: Option<K>, results: Option<set<string>>)
    requires i < |series|
    ensures Requests(series[..i + 1], key, results) ==
      Requests(series[..i], key, results) + if Counts(series[i], key, results) then Sum(series[i].values) else 0
  {
    assert series[..i + 1][..i] == series[..i];
  }

  /** How one more series changes the four tallies of a key. */
  lemma TalliesStep<K>(series: seq<Series<K>>, i: nat, key: K)
    requires i < |series|
    ensures var before, after, s := series[..i], series[..i + 1], series[i];
      var total := if s.key == key then Sum(s.values) else 0;
      Requests(after, Some(key), None) == Requests(before, Some(key), None) + total &&
      Requests(after, Some(key), Some(FAILURES)) ==
        Requests(before, Some(key), Some(FAILURES)) + (if s.result in FAILURES then total else 0) &&
      Requests(after, Some(key), Some({FLOW_CONTROL})) ==
        Requests(before, Some(key), Some({FLOW_CONTROL})) + (if s.result == FLOW_CONTROL then total else 0) &&
      Requests(after, Some(key), Some({REJECT})) ==
        Requests(before, Some(key), Some({REJECT})) + if s.result == REJECT then total else 0
  {
    hide Requests, Sum;
    RequestsStep(series, i, Some(key), None);
    RequestsStep(series, i, Some(key), Some(FAILURES));
    RequestsStep(series, i, Some(key), Some({FLOW_CONTROL}));
    RequestsStep(series, i, Some(key), Some({REJECT}));
  }

  lemma TotalsNonnegative<K>(series: seq<Series<K>>, i: nat, key: K)
    requires i < |series| && Nonnegative(series)
    ensures Requests(series[..i], Some(key), None) >= 0 && Sum(series[i].values) >= 0
  {
    RequestsNonnegative(series[..i], Some(key), None);
    SumNonnegative(series[i].values);
  }

  ghost predicate Separate<K(!new)>(metrics: map<K, Metric>) {
    forall k, l :: k in metrics && l in metrics && k != l ==> metrics[k] != metrics[l]
  }

  /** Every record tallies its key's series and its rate matches. */
  ghost predicate AllTally<K(!new)>(metrics: map<K, Metric>, series: seq<Series<K>>, nonnegative: bool)
    reads metrics.Values
  {
    forall k :: k in metrics ==> metrics[k].Tallies(series, k) && metrics[k].Rated(nonnegative)
  }

  method AddSeries<K(==, !new)>(metrics: map<K, Metric>, series: seq<Series<K>>, i: nat)
    requires i < |series| && series[i].key in metrics
    requires Separate(metrics) && AllTally(metrics, series[..i], Nonnegative(series))
    modifies metrics[series[i].key]
    ensures AllTally(metrics, series[..i + 1], Nonnegative(series))
  {
    hide Requests, Sum, Nonnegative;
    var total := AddUp(series[i].values);
    if Nonnegative(series) {
      TotalsNonnegative(series, i, series[i].key);
    }
    metrics[series[i].key].Add(series[i].result, total);
    forall k | k in metrics
      ensures metrics[k].Tallies(series[..i + 1], k) && metrics[k].Rated(Nonnegative(series))
    {
      TalliesStep(series, i, k);
    }
  }

  method NewMetric<K(==, !new)>(metrics: map<K, Metric>, series: seq<Series<K>>, key: K, nonnegative: bool)
    returns (more: map<K, Metric>)
    requires forall j :: 0 <= j < |series| ==> series[j].key != key
    requires key !in metrics && Separate(metrics) && AllTally(metrics, series, nonnegative)
    ensures more.Keys == metrics.Keys + {key} && fresh(more[key]) && forall k :: k in metrics ==> more[k] == metrics[k]
    ensures Separate(more) && AllTally(more, series, nonnegative)
  {
    hide Requests;
    var created := new Metric();
    NoSuchKey(series, key, None);
    NoSuchKey(series, key, Some(FAILURES));
    NoSuchKey(series, key, Some({FLOW_CONTROL}));
    NoSuchKey(series, key, Some({REJECT}));
    more := metrics[key := created];
  }

  /** One record per key that some series has; each tallies that key's series. */
  method RequestTotals<K(==, !new)>(series: seq<Series<K>>) returns (metrics: map<K, Metric>)
    ensures forall k :: k in metrics <==> exists i :: 0 <= i < |series| && series[i].key == k
    ensures forall k :: k in metrics ==> fresh(metrics[k])
    ensures Separate(metrics) && AllTally(metrics, series, Nonnegative(series))
  {
    hide Nonnegative, Metric.Tallies, Metric.Rated;
    metrics := map[];
    for i := 0 to |series|
      invariant forall k :: k in metrics <==> exists j :: 0 <= j < i && series[j].key == k
      invariant forall k :: k in metrics ==> fresh(metrics[k])
      invariant Separate(metrics) && AllTally(metrics, series[..i], Nonnegative(series))
    {
      if series[i].key !in metrics {
        metrics := NewMetric(metrics, series[..i], series[i].key, Nonnegative(series));
      }
      AddSeries(metrics, series, i);
    }
    assert series[..|series|] == series;
  }

  // ---------------------------------------------------------------- conservation

  /** Of nonnegative series the classes of failures add up to the failed requests, and these are at most the total. */
  lemma {:induction false} Conserved<K>(series: seq<Series<K>>, key: K)
    requires Nonnegative(series)
    ensures 0 <= Requests(series, Some(key), Some({FLOW_CONTROL})) && 0 <= Requests(series, Some(key), Some({REJECT}))
    ensures Requests(series, Some(key), Some({FLOW_CONTROL})) + Requests(series, Some(key), Some({REJECT})) +
      Requests(series, Some(key), Some({FAIL})) == Requests(series, Some(key), Some(FAILURES))
    ensures Requests(series, Some(key), Some(FAILURES)) <= Requests(series, Some(key), None)
    ensures 0 <= Requests(series, Some(key), Some({FAIL}))
    decreases |series|
  {
    if series != [] {
      Conserved(series[..|series| - 1], key);
      SumNonnegative(series[|series| - 1].values);
    }
  }

  /** The rate of a record lies between 0 and 1. */
  lemma RateIsAFraction<K>(m: Metric, series: seq<Series<K>>, key: K)
    requires Nonnegative(series) && m.Tallies(series, key) && m.Rated(true)
    ensures 0.0 <= m.successRate <= 1.0
    ensures m.limitedRequest + m.circuitbreakerRequest <= m.failedRequest <= m.totalRequest
  {
    hide Requests, Nonnegative;
    Conserved(series, key);
    if m.totalRequest != 0 {
      Fraction(m.totalRequest as real, m.failedRequest as real);
    }
  }

  lemma Fraction(total: real, failed: real)
    requires 0.0 <= failed <= total && total > 0.0
    ensures 0.0 <= (total - failed) / total <= 1.0
  {
  }

  /** The order of the series does not matter. */
  lemma {:induction false} OrderIsIrrelevant<K>(a: seq<Series<K>>, b: seq<Series<K>>, key: Option<K>,
                                                results: Option<set<string>>)
    requires multiset(a) == multiset(b)
    ensures Requests(a, key, results) == Requests(b, key, results)
    decreases |a|
  {
    hide Requests, Sum, Counts;
    if a == [] {
      assert |multiset(b)| == 0;
    } else {
      var i := FoundIn(a[|a| - 1], a, b);
      SameRest(a, b, i);
      OneTakenOut(a, |a| - 1, key, results);
      assert a[..|a| - 1] + a[|a|..] == a[..|a| - 1];
      OrderIsIrrelevant(a[..|a| - 1], b[..i] + b[i + 1..], key, results);
      OneTakenOut(b, i, key, results);
    }
  }

  lemma FoundIn<T>(x: T, a: seq<T>, b: seq<T>) returns (i: nat)
    requires multiset(a) == multiset(b) && x in a
    ensures i < |b| && b[i] == x
  {
    assert x in multiset(b);
    i :| 0 <= i < |b| && b[i] == x;
  }

  lemma SameRest<T>(a: seq<T>, b: seq<T>, i: nat)
    requires multiset(a) == multiset(b) && a != [] && i < |b| && b[i] == a[|a| - 1]
    ensures multiset(a[..|a| - 1]) == multiset(b[..i] + b[i + 1..])
  {
    var n := |a| - 1;
    WithoutOne(a, n);
    assert a[..n] + a[n + 1..] == a[..n];
    WithoutOne(b, i);
  }

  lemma WithoutOne<T>(s: seq<T>, i: nat)
    requires i < |s|
    ensures multiset(s[..i] + s[i + 1..]) == multiset(s) - multiset{s[i]}
  {
    var rest := s[..i] + s[i + 1..];
    assert multiset(s) == multiset(rest) + multiset{s[i]} by {
      assert s == s[..i] + [s[i]] + s[i + 1..];
    }
  }

  lemma {:induction false} OneTakenOut<K>(series: seq<Series<K>>, i: nat, key: Option<K>, results: Option<set<string>>)
    requires i < |series|
    ensures Requests(series, key, results) == Requests(series[..i] + series[i + 1..], key, results) +
      if Counts(series[i], key, results) then Sum(series[i].values) else 0
    decreases |series|
  {
    hide Sum, Counts;
    var n := |series| - 1;
    if i == n {
      assert series[..i] + series[i + 1..] == series[..n];
    } else {
      OneTakenOut(series[..n], i, key, results);
      var rest := series[..i] + series[i + 1..];
      assert rest[..|rest| - 1] == series[..n][..i] + series[..n][i + 1..];
      assert rest[|rest| - 1] == series[n];
    }
  }

  // ---------------------------------------------------------------- every sample once

  /** The samples of all series laid end to end. */
  function AllSamples<K>(series: seq<Series<K>>): seq<Sample> {
    if series == [] then [] else AllSamples(series[..|series| - 1]) + series[|series| - 1].values
  }

  lemma {:induction false} AllRequests<K>(series: seq<Series<K>>)
    ensures Requests(series, None, None) == Sum(AllSamples(series))
    decreases |series|
  {
    hide Sum;
    if series == [] {
      SumOne(0);
    } else {
      AllRequests(series[..|series| - 1]);
      SumSplit(AllSamples(series[..|series| - 1]), series[|series| - 1].values);
    }
  }

  function TotalOver<K(==)>(series: seq<Series<K>>, keys: seq<K>, results: Option<set<string>>): int {
    if keys == [] then 0 else Requests(series, Some(keys[0]), results) + TotalOver(series, keys[1..], results)
  }

  lemma {:induction false} TotalOverStep<K>(series: seq<Series<K>>, keys: seq<K>, results: Option<set<string>>)
    requires series != [] && NoRepeats(keys)
    ensures var front, last := series[..|series| - 1], series[|series| - 1];
      TotalOver(series, keys, results) == TotalOver(front, keys, results) +
        if last.key in keys && Counts(last, None, results) then Sum(last.values) else 0
    decreases |keys|
  {
    hide Sum;
    if keys != [] {
      TotalOverStep(series, keys[1..], results);
      assert keys == [keys[0]] + keys[1..];
    }
  }

  lemma {:induction false} TotalOverNothing<K>(keys: seq<K>, results: Option<set<string>>)
    ensures TotalOver([], keys, results) == 0
  {
    if keys != [] {
      TotalOverNothing(keys[1..], results);
    }
  }

  lemma {:induction false} TotalOverAll<K>(series: seq<Series<K>>, keys: seq<K>, results: Option<set<string>>)
    requires NoRepeats(keys) && forall i :: 0 <= i < |series| ==> series[i].key in keys
    ensures TotalOver(series, keys, results) == Requests(series, None, results)
    decreases |series|
  {
    hide Sum, TotalOver, NoRepeats;
    if series == [] {
      TotalOverNothing(keys, results);
    } else {
      TotalOverAll(series[..|series| - 1], keys, results);
      TotalOverStep(series, keys, results);
    }
  }

  /** No request is lost or counted twice: the totals of all keys make up the sum of all samples of all series. */
  lemma {:induction false} NoSampleLost<K>(series: seq<Series<K>>, keys: seq<K>)
    requires NoRepeats(keys) && forall i :: 0 <= i < |series| ==> series[i].key in keys
    ensures TotalOver(series, keys, None) == Sum(AllSamples(series))
  {
    TotalOverAll(series, keys, None);
    AllRequests(series);
  }

  /** A series reported in two parts changes no counter. */
  lemma {:induction false} PartsCountTheSame<K>(a: seq<Series<K>>, s: Series<K>, more: seq<Sample>, key: Option<K>,
                                                results: Option<set<string>>)
    ensures Requests(a + [s.(values := s.values + more)], key, results) ==
      Requests(a + [s] + [s.(values := more)], key, results)
  {
    hide Sum, Counts;
    var whole, parts := a + [s.(values := s.values + more)], a + [s] + [s.(values := more)];
    assert whole[..|whole| - 1] == a && parts[..|parts| - 1] == a + [s] && (a + [s])[..|a|] == a;
    SumSplit(s.values, more);
    SameLabels(s, s.values + more, key, results);
    SameLabels(s, more, key, results);
  }

  lemma SameLabels<K>(s: Series<K>, values: seq<Sample>, key: Option<K>, results: Option<set<string>>)
    ensures Counts(s.(values := values), key, results) == Counts(s, key, results)
  {
  }
}
