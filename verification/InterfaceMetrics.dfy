/**
 The metrics of a service's interfaces: counts per method with one bucket for all of them, mean
 delays, and the join of the two.
 */
module InterfaceMetrics {
  import opened Sequences
  import opened Strings
  import opened Metrics

  const ALL_METHOD := "__ALL__"
  const UNKNOWN_METHOD := "__UNKNOWN__"
  const LIMITED := {REJECT, FLOW_CONTROL}

  function MethodOf(calleeMethod: string): string {
    if calleeMethod == "" then UNKNOWN_METHOD else calleeMethod
  }

  /** The series with the unlabelled ones put under the unknown method. */
  function Named(series: seq<Series<string>>): (r: seq<Series<string>>)
    ensures |r| == |series|
    ensures forall i :: 0 <= i < |r| ==> r[i] == series[i].(key := MethodOf(series[i].key))
  {
    seq(|series|, i requires 0 <= i < |series| => series[i].(key := MethodOf(series[i].key)))
  }

  class InterfaceMetric {
    var interfaceName: string
    var successRequest: int
    var flowControlRequest: int
    var abnormalRequest: int
    var avgTimeout: real

    constructor (name: string)
      ensures interfaceName == name && avgTimeout == 0.0
      ensures successRequest == flowControlRequest == abnormalRequest == 0
    {
      interfaceName := name;
      successRequest, flowControlRequest, abnormalRequest := 0, 0, 0;
      avgTimeout := 0.0;
    }

    /** The record of all methods has no name. */
    predicate Holds(series: seq<Series<string>>, key: string)
      reads this
    {
      interfaceName == (if key == ALL_METHOD then "" else key) &&
      successRequest == Bucket(series, key, {SUCCESS}) &&
      abnormalRequest == Bucket(series, key, {FAIL}) &&
      flowControlRequest == Bucket(series, key, LIMITED)
    }
  }

  /** What a bucket counts: a series labelled as the bucket of all methods is counted there twice. */
  function Bucket(series: seq<Series<string>>, key: string, results: set<string>): int {
    Requests(series, Some(key), Some(results)) + if key == ALL_METHOD then Requests(series, None, Some(results)) else 0
  }

  /** The two records may be one and the same. */
  method Count(allInter: InterfaceMetric, inter: InterfaceMetric, result: string, total: int)
    modifies allInter, inter
    ensures var n := if allInter == inter then 2 * total else total;
      inter.successRequest == old(inter.successRequest) + (if result == SUCCESS then n else 0) &&
      inter.abnormalRequest == old(inter.abnormalRequest) + (if result == FAIL then n else 0) &&
      inter.flowControlRequest == old(inter.flowControlRequest) + if result in LIMITED then n else 0
    ensures allInter != inter ==>
      allInter.successRequest == old(allInter.successRequest) + (if result == SUCCESS then total else 0) &&
      allInter.abnormalRequest == old(allInter.abnormalRequest) + (if result == FAIL then total else 0) &&
      allInter.flowControlRequest == old(allInter.flowControlRequest) + if result in LIMITED then total else 0
    ensures allInter.interfaceName == old(allInter.interfaceName) && inter.interfaceName == old(inter.interfaceName)
    ensures allInter.avgTimeout == old(allInter.avgTimeout) && inter.avgTimeout == old(inter.avgTimeout)
  {
    if result == SUCCESS {
      allInter.successRequest := allInter.successRequest + total;
      inter.successRequest := inter.successRequest + total;
    } else if result == FAIL {
      allInter.abnormalRequest := allInter.abnormalRequest + total;
      inter.abnormalRequest := inter.abnormalRequest + total;
    } else if result == REJECT || result == FLOW_CONTROL {
      allInter.flowControlRequest := allInter.flowControlRequest + total;
      inter.flowControlRequest := inter.flowControlRequest + total;
    }
  }

  lemma BucketStep(series: seq<Series<string>>, i: nat, key: string, results: set<string>)
    requires i < |series|
    ensures var s := series[i];
      var total := if s.result in results then Sum(s.values) else 0;
      Bucket(series[..i + 1], key, results) == Bucket(series[..i], key, results) +
        (if s.key == key then total else 0) + if key == ALL_METHOD then total else 0
  {
    hide Requests, Sum;
    RequestsStep(series, i, Some(key), Some(results));
    RequestsStep(series, i, None, Some(results));
  }

  ghost predicate Distinct(metrics: map<string, InterfaceMetric>) {
    forall k, l :: k in metrics && l in metrics && k != l ==> metrics[k] != metrics[l]
  }

  ghost predicate AllHold(metrics: map<string, InterfaceMetric>, series: seq<Series<string>>)
    reads metrics.Values
  {
    forall k :: k in metrics ==> metrics[k].Holds(series, k)
  }

  method AddSeries(metrics: map<string, InterfaceMetric>, ghost named: seq<Series<string>>, i: nat, s: Series<string>)
    requires i < |named| && s == named[i] && s.key in metrics && ALL_METHOD in metrics
    requires Distinct(metrics) && AllHold(metrics, named[..i])
    modifies metrics[s.key], metrics[ALL_METHOD]
    ensures AllHold(metrics, named[..i + 1])
  {
    hide Requests, Sum, Bucket;
    var total := AddUp(s.values);
    Count(metrics[ALL_METHOD], metrics[s.key], s.result, total);
    forall k | k in metrics
      ensures metrics[k].Holds(named[..i + 1], k)
    {
      BucketStep(named, i, k, {SUCCESS});
      BucketStep(named, i, k, {FAIL});
      BucketStep(named, i, k, LIMITED);
    }
  }

  /** A record for every method that occurs, and one for all methods. */
  ghost predicate Keyed(metrics: map<string, InterfaceMetric>, named: seq<Series<string>>) {
    ALL_METHOD in metrics &&
    (forall i :: 0 <= i < |named| ==> named[i].key in metrics) &&
    forall k :: k in metrics && k != ALL_METHOD ==> exists i :: 0 <= i < |named| && named[i].key == k
  }

  lemma KeyedStep(metrics: map<string, InterfaceMetric>, more: map<string, InterfaceMetric>,
                  named: seq<Series<string>>, i: nat)
    requires i < |named| && Keyed(metrics, named[..i]) && more.Keys == metrics.Keys + {named[i].key}
    ensures Keyed(more, named[..i + 1])
  {
  }

  lemma NotYet(metrics: map<string, InterfaceMetric>, named: seq<Series<string>>, key: string)
    requires Keyed(metrics, named) && key !in metrics
    ensures Bucket(named, key, {SUCCESS}) == Bucket(named, key, {FAIL}) == Bucket(named, key, LIMITED) == 0
    ensures key != ALL_METHOD
  {
    NoSuchKey(named, key, Some({SUCCESS}));
    NoSuchKey(named, key, Some({FAIL}));
    NoSuchKey(named, key, Some(LIMITED));
  }

  method NewMetric(metrics: map<string, InterfaceMetric>, ghost named: seq<Series<string>>, key: string)
    returns (more: map<string, InterfaceMetric>)
    requires Keyed(metrics, named) && key !in metrics && Distinct(metrics) && AllHold(metrics, named)
    ensures more.Keys == metrics.Keys + {key} && fresh(more[key]) && forall k :: k in metrics ==> more[k] == metrics[k]
    ensures Distinct(more) && AllHold(more, named)
  {
    hide Bucket, Keyed;
    var created := new InterfaceMetric(key);
    NotYet(metrics, named, key);
    more := metrics[key := created];
  }

  /** A record for every method, the unknown one included, and always one for all methods. */
  method RequestTotals(series: seq<Series<string>>) returns (metrics: map<string, InterfaceMetric>)
    ensures Keyed(metrics, Named(series))
    ensures forall k :: k in metrics ==> fresh(metrics[k])
    ensures Distinct(metrics) && AllHold(metrics, Named(series))
  {
    hide InterfaceMetric.Holds, MethodOf, Keyed;
    var all := new InterfaceMetric("");
    metrics := map[ALL_METHOD := all];
    ghost var named := Named(series);
    EmptyBuckets(all, metrics);
    for i := 0 to |series|
      invariant Keyed(metrics, named[..i])
      invariant forall k :: k in metrics ==> fresh(metrics[k])
      invariant Distinct(metrics) && AllHold(metrics, named[..i])
    {
      var callMethod := MethodOf(series[i].key);
      ghost var before := metrics;
      if callMethod !in metrics {
        metrics := NewMetric(metrics, named[..i], callMethod);
      }
      KeyedStep(before, metrics, named, i);
      KeyedHas(metrics, named, i);
      AddSeries(metrics, named, i, series[i].(key := callMethod));
    }
    assert named[..|series|] == named;
  }

  lemma KeyedHas(metrics: map<string, InterfaceMetric>, named: seq<Series<string>>, i: nat)
    requires i < |named| && Keyed(metrics, named[..i + 1])
    ensures ALL_METHOD in metrics && named[i].key in metrics
  {
  }

  lemma EmptyBuckets(all: InterfaceMetric, metrics: map<string, InterfaceMetric>)
    requires metrics == map[ALL_METHOD := all]
    requires all.successRequest == all.flowControlRequest == all.abnormalRequest == 0 && all.interfaceName == ""
    ensures all.Holds([], ALL_METHOD) && Keyed(metrics, [])
  {
  }

  // ---------------------------------------------------------------- the bucket of all methods

  function SumOver(series: seq<Series<string>>, keys: seq<string>, results: set<string>): int {
    if keys == [] then 0
    else Bucket(series, keys[0], results) + SumOver(series, keys[1..], results)
  }

  lemma {:induction false} SumOverNothing(keys: seq<string>, results: set<string>)
    requires ALL_METHOD !in keys
    ensures SumOver([], keys, results) == 0
  {
    if keys != [] {
      SumOverNothing(keys[1..], results);
    }
  }

  lemma {:induction false} SumOverStep(series: seq<Series<string>>, i: nat, keys: seq<string>, results: set<string>)
    requires i < |series| && ALL_METHOD !in keys && NoRepeats(keys)
    ensures SumOver(series[..i + 1], keys, results) == SumOver(series[..i], keys, results) +
      if series[i].key in keys && series[i].result in results then Sum(series[i].values) else 0
    decreases |keys|
  {
    hide Bucket, Sum;
    if keys != [] {
      BucketStep(series, i, keys[0], results);
      SumOverStep(series, i, keys[1..], results);
      assert keys == [keys[0]] + keys[1..];
    }
  }

  /**
   The bucket of all methods against the sum of the others, for each class of results: they
   differ by twice the requests of series labelled `__ALL__` themselves.
   */
  lemma {:induction false} AllAgainstOthers(series: seq<Series<string>>, others: seq<string>, results: set<string>,
                                            n: nat)
    requires NoRepeats(others) && ALL_METHOD !in others && n <= |series|
    requires forall i :: 0 <= i < n ==> series[i].key == ALL_METHOD || series[i].key in others
    ensures Bucket(series[..n], ALL_METHOD, results) ==
      SumOver(series[..n], others, results) + 2 * Requests(series[..n], Some(ALL_METHOD), Some(results))
    decreases n
  {
    hide Bucket, Requests, Sum;
    if n == 0 {
      assert series[..0] == [];
      SumOverNothing(others, results);
      NothingCounted(results);
    } else {
      AllAgainstOthers(series, others, results, n - 1);
      BucketStep(series, n - 1, ALL_METHOD, results);
      SumOverStep(series, n - 1, others, results);
      RequestsStep(series, n - 1, Some(ALL_METHOD), Some(results));
    }
  }

  lemma NothingCounted(results: set<string>)
    ensures Bucket([], ALL_METHOD, results) == 0 && Requests<string>([], Some(ALL_METHOD), Some(results)) == 0
  {
  }

  /** The bucket of all methods is the sum of the others exactly when no requests are labelled `__ALL__`. */
  lemma {:induction false} AllIsTheSumIff(series: seq<Series<string>>, others: seq<string>, results: set<string>)
    requires NoRepeats(others) && ALL_METHOD !in others
    requires forall i :: 0 <= i < |series| ==> series[i].key == ALL_METHOD || series[i].key in others
    ensures Bucket(series, ALL_METHOD, results) == SumOver(series, others, results) <==>
      Requests(series, Some(ALL_METHOD), Some(results)) == 0
  {
    hide Bucket, Requests, SumOver;
    AllAgainstOthers(series, others, results, |series|);
    assert series[..|series|] == series;
  }

  // ---------------------------------------------------------------- mean delays

  datatype Delay = Missing | Took(v: real)

  datatype Delays = Delays(calleeMethod: string, values: seq<Delay>)

  function TotalDelay(values: seq<Delay>): real {
    if values == [] then 0.0
    else
      var last := values[|values| - 1];
      TotalDelay(values[..|values| - 1]) + if last.Missing? then 0.0 else last.v
  }

  function Samples(values: seq<Delay>): nat {
    if values == [] then 0
    else Samples(values[..|values| - 1]) + if values[|values| - 1].Missing? then 0 else 1
  }

  function Mean(values: seq<Delay>): real {
    if Samples(values) != 0 then TotalDelay(values) / Samples(values) as real else 0.0
  }

  /** The mean of the last series of the method; 0 without one. */
  function Latest(series: seq<Delays>, name: string): real {
    if series == [] then 0.0
    else
      var last := series[|series| - 1];
      if MethodOf(last.calleeMethod) == name then Mean(last.values) else Latest(series[..|series| - 1], name)
  }

  function AllValues(series: seq<Delays>): seq<Delay> {
    if series == [] then [] else AllValues(series[..|series| - 1]) + series[|series| - 1].values
  }

  lemma {:induction false} TotalSplit(a: seq<Delay>, b: seq<Delay>)
    ensures TotalDelay(a + b) == TotalDelay(a) + TotalDelay(b) && Samples(a + b) == Samples(a) + Samples(b)
    decreases |b|
  {
    if b == [] {
      assert a + b == a;
    } else {
      assert (a + b)[..|a + b| - 1] == a + b[..|b| - 1];
      TotalSplit(a, b[..|b| - 1]);
    }
  }

  lemma DelaysStep(series: seq<Delays>, i: nat)
    requires i < |series|
    ensures TotalDelay(AllValues(series[..i + 1])) == TotalDelay(AllValues(series[..i])) + TotalDelay(series[i].values)
    ensures Samples(AllValues(series[..i + 1])) == Samples(AllValues(series[..i])) + Samples(series[i].values)
  {
    hide TotalDelay, Samples;
    assert series[..i + 1][..i] == series[..i];
    TotalSplit(AllValues(series[..i]), series[i].values);
  }

  lemma {:induction false} LatestStep(series: seq<Delays>, i: nat, k: string)
    requires i < |series|
    ensures Latest(series[..i + 1], k) ==
      if MethodOf(series[i].calleeMethod) == k then Mean(series[i].values) else Latest(series[..i], k)
  {
    hide Mean;
    assert series[..i + 1][..i] == series[..i];
  }

  method RequestTimeout(series: seq<Delays>) returns (timeouts: map<string, real>)
    ensures forall k :: k in timeouts <==>
      k == ALL_METHOD || exists i :: 0 <= i < |series| && MethodOf(series[i].calleeMethod) == k
    ensures forall k :: k in timeouts && k != ALL_METHOD ==> timeouts[k] == Latest(series, k)
    ensures timeouts[ALL_METHOD] == Mean(AllValues(series))
  {
    hide TotalDelay, Samples, AllValues, Latest, MethodOf;
    timeouts := map[ALL_METHOD := 0.0];
    var allTotalTimeout, allTotal := 0.0, 0;
    NoDelays();
    for i := 0 to |series|
      invariant ALL_METHOD in timeouts
      invariant forall k :: k in timeouts && k != ALL_METHOD ==>
        exists j :: 0 <= j < i && MethodOf(series[j].calleeMethod) == k
      invariant forall j :: 0 <= j < i ==> MethodOf(series[j].calleeMethod) in timeouts
      invariant forall k :: k in timeouts && k != ALL_METHOD ==> timeouts[k] == Latest(series[..i], k)
      invariant allTotalTimeout == TotalDelay(AllValues(series[..i])) && allTotal == Samples(AllValues(series[..i]))
    {
      var callMethod := MethodOf(series[i].calleeMethod);
      if callMethod !in timeouts {
        timeouts := timeouts[callMethod := 0.0];
      }
      var totalTimeout, total := SumDelays(series[i].values);
      allTotalTimeout, allTotal := allTotalTimeout + totalTimeout, allTotal + total;
      DelaysStep(series, i);
      timeouts := timeouts[callMethod := if total != 0 then totalTimeout / total as real else 0.0];
      forall k | k in timeouts && k != ALL_METHOD
        ensures timeouts[k] == Latest(series[..i + 1], k)
      {
        LatestStep(series, i, k);
      }
    }
    assert series[..|series|] == series;
    timeouts := timeouts[ALL_METHOD := if allTotal != 0 then allTotalTimeout / allTotal as real else 0.0];
  }

  lemma NoDelays()
    ensures AllValues([]) == [] && TotalDelay([]) == 0.0 && Samples([]) == 0
  {
  }

  /** The inner loop: what it adds to the method's sum it adds to the sum of all. */
  method SumDelays(values: seq<Delay>) returns (totalTimeout: real, total: nat)
    ensures totalTimeout == TotalDelay(values) && total == Samples(values)
  {
    totalTimeout, total := 0.0, 0;
    for i := 0 to |values|
      invariant totalTimeout == TotalDelay(values[..i]) && total == Samples(values[..i])
    {
      assert values[..i + 1][..i] == values[..i];
      if values[i].Missing? {
        continue;
      }
      total := total + 1;
      totalTimeout := totalTimeout + values[i].v;
    }
    assert values[..|values|] == values;
  }

  function Weighted(series: seq<Delays>): real {
    if series == [] then 0.0
    else
      var last := series[|series| - 1];
      Weighted(series[..|series| - 1]) + Mean(last.values) * Samples(last.values) as real
  }

  lemma {:induction false} MeanTimesSamples(values: seq<Delay>)
    ensures Mean(values) * Samples(values) as real == TotalDelay(values)
  {
    hide TotalDelay, Samples;
    NoSamples(values);
  }

  lemma {:induction false} NoSamples(values: seq<Delay>)
    ensures Samples(values) == 0 ==> TotalDelay(values) == 0.0
    decreases |values|
  {
    if values != [] {
      NoSamples(values[..|values| - 1]);
    }
  }

  lemma {:induction false} WeightedIsTotal(series: seq<Delays>)
    ensures Weighted(series) == TotalDelay(AllValues(series))
    decreases |series|
  {
    hide TotalDelay, Samples, Mean;
    if series == [] {
      NoDelays();
    } else {
      var front, last := series[..|series| - 1], series[|series| - 1];
      WeightedIsTotal(front);
      TotalSplit(AllValues(front), last.values);
      MeanTimesSamples(last.values);
    }
  }

  /** The delay of all methods is the mean of the series' means, weighted by their samples. */
  lemma {:induction false} AllIsTheWeightedMean(series: seq<Delays>)
    ensures Mean(AllValues(series)) * Samples(AllValues(series)) as real == Weighted(series)
  {
    hide TotalDelay, Samples, Mean, Weighted, AllValues;
    WeightedIsTotal(series);
    MeanTimesSamples(AllValues(series));
  }

  /** A method's delay is the mean of its series i exactly as long as no later series is of that method. */
  lemma {:induction false} LatestIs(series: seq<Delays>, i: nat)
    requires i < |series|
    requires forall j :: i < j < |series| ==> MethodOf(series[j].calleeMethod) != MethodOf(series[i].calleeMethod)
    ensures Latest(series, MethodOf(series[i].calleeMethod)) == Mean(series[i].values)
    decreases |series|
  {
    if i < |series| - 1 {
      LatestIs(series[..|series| - 1], i);
    }
  }

  // ---------------------------------------------------------------- the join

  predicate Joins(timeouts: map<string, real>, totals: map<string, InterfaceMetric>, k: string) {
    k in totals && k in timeouts
  }

  predicate Ordinary(timeouts: map<string, real>, totals: map<string, InterfaceMetric>, k: string) {
    Joins(timeouts, totals, k) && k != ALL_METHOD && k != UNKNOWN_METHOD
  }

  lemma OneMore(order: seq<string>, key: string)
    ensures NoRepeats<string>([])
    ensures NoRepeats(order) && key !in order ==> NoRepeats(order + [key])
  {
  }

  /**
   The records that have both counts and a delay, with the two special ones apart. The rest come
   in the order `order` in which the map happened to be walked.
   */
  method Join(timeouts: map<string, real>, totals: map<string, InterfaceMetric>)
    returns (all: InterfaceMetric?, unknown: InterfaceMetric?, rest: seq<InterfaceMetric>, ghost order: seq<string>)
    requires Distinct(totals)
    modifies totals.Values`avgTimeout
    ensures forall k :: k in totals ==>
      totals[k].avgTimeout == if k in timeouts then timeouts[k] else old(totals[k].avgTimeout)
    ensures all == if Joins(timeouts, totals, ALL_METHOD) then totals[ALL_METHOD] else null
    ensures unknown == if Joins(timeouts, totals, UNKNOWN_METHOD) then totals[UNKNOWN_METHOD] else null
    ensures NoRepeats(order) && forall k :: k in order <==> Ordinary(timeouts, totals, k)
    ensures |rest| == |order| && forall i :: 0 <= i < |rest| ==> order[i] in totals && rest[i] == totals[order[i]]
  {
    hide NoRepeats;
    all, unknown, rest, order := null, null, [], [];
    OneMore([], UNKNOWN_METHOD);
    var left := totals.Keys;
    while left != {}
      invariant left <= totals.Keys
      invariant forall k :: k in totals ==>
        totals[k].avgTimeout == if k in timeouts && k !in left then timeouts[k] else old(totals[k].avgTimeout)
      invariant all == if Joins(timeouts, totals, ALL_METHOD) && ALL_METHOD !in left then totals[ALL_METHOD] else null
      invariant unknown ==
        if Joins(timeouts, totals, UNKNOWN_METHOD) && UNKNOWN_METHOD !in left then totals[UNKNOWN_METHOD] else null
      invariant NoRepeats(order) && forall k :: k in order <==> Ordinary(timeouts, totals, k) && k !in left
      invariant |rest| == |order| && forall i :: 0 <= i < |rest| ==> order[i] in totals && rest[i] == totals[order[i]]
      decreases |left|
    {
      var inter :| inter in left;
      left := left - {inter};
      if inter in timeouts {
        totals[inter].avgTimeout := timeouts[inter];
        if inter == ALL_METHOD {
          all := totals[inter];
        } else if inter == UNKNOWN_METHOD {
          unknown := totals[inter];
        } else {
          rest := rest + [totals[inter]];
          OneMore(order, inter);
          order := order + [inter];
        }
      }
    }
  }

  // ---------------------------------------------------------------- unlabelled methods, single samples

  /** Series without a method count under the unknown one, along with those labelled so; all others under their own. */
  lemma {:induction false} NamedRequests(series: seq<Series<string>>, key: string, results: Option<set<string>>)
    ensures Requests(Named(series), None, results) == Requests(series, None, results)
    ensures key == "" ==> Requests(Named(series), Some(key), results) == 0
    ensures key == UNKNOWN_METHOD ==>
      Requests(Named(series), Some(key), results) ==
        Requests(series, Some(key), results) + Requests(series, Some(""), results)
    ensures key != "" && key != UNKNOWN_METHOD ==>
      Requests(Named(series), Some(key), results) == Requests(series, Some(key), results)
    decreases |series|
  {
    hide Sum;
    if series != [] {
      var front := series[..|series| - 1];
      assert Named(series)[..|series| - 1] == Named(front);
      NamedRequests(front, key, results);
    }
  }

  lemma OneDelay(v: real)
    ensures TotalDelay([Took(v)]) == v && Samples([Took(v)]) == 1
    ensures TotalDelay([Missing]) == 0.0 && Samples([Missing]) == 0
  {
    assert [Took(v)][..0] == [] && [Missing][..0] == [];
    NoDelays();
  }

  /** The mean of samples is their sum over their number; without any it is 0. */
  lemma {:induction false} MeanIs(values: seq<Delay>)
    ensures Samples(values) == 0 ==> Mean(values) == 0.0
    ensures Samples(values) > 0 ==> Mean(values) == TotalDelay(values) / Samples(values) as real
  {
  }

  lemma {:induction false} AllValuesSplit(a: seq<Delays>, b: seq<Delays>)
    ensures AllValues(a + b) == AllValues(a) + AllValues(b)
    decreases |b|
  {
    if b == [] {
      assert a + b == a;
    } else {
      assert (a + b)[..|a + b| - 1] == a + b[..|b| - 1];
      AllValuesSplit(a, b[..|b| - 1]);
    }
  }

  /** Every sample of every series goes into the delay of all methods: a series in two parts changes nothing. */
  lemma {:induction false} PartsAverageTheSame(a: seq<Delays>, d: Delays, more: seq<Delay>)
    ensures Mean(AllValues(a + [d.(values := d.values + more)])) == Mean(AllValues(a + [d] + [d.(values := more)]))
    ensures AllValues([d]) == d.values
  {
    hide Mean;
    AllValuesSplit(a, [d.(values := d.values + more)]);
    AllValuesSplit(a + [d], [d.(values := more)]);
    AllValuesSplit(a, [d]);
    AllValuesOne(d);
    AllValuesOne(d.(values := more));
    AllValuesOne(d.(values := d.values + more));
    assert AllValues(a) + (d.values + more) == AllValues(a) + d.values + more;
  }

  lemma AllValuesOne(d: Delays)
    ensures AllValues([d]) == d.values
  {
    assert [d][..0] == [] && [] + d.values == d.values;
  }
}
