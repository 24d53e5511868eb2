/**
 A page keeps its attributes and the URL's parameters in step, both ways: a new URL feeds the
 attributes, and a changed attribute is written back to the URL 100 ms later.

 A handler runs to its next wait in one step. What the browser delivers, a new URL or the
 expiry of the delay, arrives between handlers; the actions other sagas dispatch in reaction
 may fall between the feeding actions.
 */
module RouteSync {
  datatype Param<!V> = Param(key: string, parse: V -> V)

  type Values<V> = map<string, V>

  /**
   `routes` is the route duck's store, `last` what its watcher saw last, `url` what it handed
   last to the writer of the URL, `attrs` what the page's selectors give. `pending` is the running 100 ms delay.
   `feed` are the actions the watcher of CHANGE still has to put while it is `feeding`.
   */
  datatype State<V> = State(
    routes: Values<V>,
    last: Values<V>,
    url: Values<V>,
    attrs: Values<V>,
    pending: bool,
    feeding: bool,
    feed: seq<(string, V)>,
    initialized: bool)

  datatype Event<V> =
    | SetRoutes(payload: Values<V>)
    | Feed
    | FeedEnds
    | AttrsChange(attrs: Values<V>)
    | WriteBack

  ghost predicate Distinct<V>(params: seq<Param<V>>) {
    forall i, j :: 0 <= i < j < |params| ==> params[i].key != params[j].key
  }

  function Keys<V>(params: seq<Param<V>>): set<string> {
    set i | 0 <= i < |params| :: params[i].key
  }

  /** The parsed values of the parameters that `values` holds. */
  function Formula<V>(params: seq<Param<V>>, values: Values<V>): Values<V> {
    if params == [] then map[]
    else
      var front, last := Formula(params[..|params| - 1], values), params[|params| - 1];
      if last.key in values then front[last.key := last.parse(values[last.key])] else front
  }

  /** The parameters whose value changed, went away or is new. */
  function Changes<V(==)>(params: seq<Param<V>>, last: Values<V>, cur: Values<V>): seq<(string, V)> {
    if params == [] then []
    else
      var front, key := Changes(params[..|params| - 1], last, cur), params[|params| - 1].key;
      if key in cur && (key !in last || last[key] != cur[key]) then front + [(key, cur[key])] else front
  }

  function Initial<V>(attrs: Values<V>): State<V> {
    State(map[], map[], map[], attrs, false, false, [], false)
  }

  predicate Enabled<V>(params: seq<Param<V>>, s: State<V>, e: Event<V>) {
    match e
    case SetRoutes(payload) => !s.feeding && payload.Keys == Keys(params)
    case Feed => s.feeding && s.feed != []
    case FeedEnds => s.feeding && s.feed == []
    case AttrsChange(attrs) => attrs.Keys == Keys(params)
    case WriteBack => s.pending && !s.feeding
  }

  function Step<V(==)>(params: seq<Param<V>>, s: State<V>, e: Event<V>): State<V>
    requires Enabled(params, s, e)
  {
    match e
    case SetRoutes(payload) =>
      // The creator applies the parsers once, the reducer again.
      var cur := Formula(params, Formula(params, payload));
      var changes := Changes(params, s.last, cur);
      s.(routes := cur, last := cur, feeding := changes != [], feed := changes,
         url := if changes != [] then cur else s.url)
    case Feed => s.(attrs := s.attrs[s.feed[0].0 := s.feed[0].1], feed := s.feed[1..])
    case FeedEnds => s.(feeding := false, initialized := true)
    case AttrsChange(attrs) => s.(attrs := attrs, pending := true)
    case WriteBack =>
      var cur := s.routes + Formula(params, s.attrs);
      s.(routes := cur, last := cur, pending := false,
         url := if Changes(params, s.last, cur) != [] then cur else s.url)
  }

  predicate Legal<V(==)>(params: seq<Param<V>>, s: State<V>, events: seq<Event<V>>)
    decreases |events|
  {
    events == [] ||
    (Enabled(params, s, events[0]) && Legal(params, Step(params, s, events[0]), events[1..]))
  }

  function Run<V(==)>(params: seq<Param<V>>, s: State<V>, events: seq<Event<V>>): State<V>
    requires Legal(params, s, events)
    decreases |events|
  {
    if events == [] then s else Run(params, Step(params, s, events[0]), events[1..])
  }

  // ---------------------------------------------------------------- the two folds

  lemma {:induction false} FormulaKeys<V>(params: seq<Param<V>>, values: Values<V>)
    ensures Formula(params, values).Keys == Keys(params) * values.Keys
    decreases |params|
  {
    if params != [] {
      var front := params[..|params| - 1];
      FormulaKeys(front, values);
      KeysGrow(front, params[|params| - 1]);
      assert params == front + [params[|params| - 1]];
    }
  }

  lemma KeysGrow<V>(front: seq<Param<V>>, last: Param<V>)
    ensures Keys(front + [last]) == Keys(front) + {last.key}
  {
    var params := front + [last];
    forall k | k in Keys(front)
      ensures k in Keys(params)
    {
      var i :| 0 <= i < |front| && front[i].key == k;
      assert params[i].key == k;
    }
    assert params[|front|].key == last.key;
  }

  lemma {:induction false} FormulaValue<V>(params: seq<Param<V>>, values: Values<V>, i: nat)
    requires Distinct(params) && i < |params| && params[i].key in values
    ensures params[i].key in Formula(params, values)
    ensures Formula(params, values)[params[i].key] == params[i].parse(values[params[i].key])
    decreases |params|
  {
    if i < |params| - 1 {
      FormulaValue(params[..|params| - 1], values, i);
    }
  }

  /** `v` is a change of the parameter `k` exactly when `k` has the value `v` now and had not before. */
  lemma {:induction false} ChangesAre<V>(params: seq<Param<V>>, last: Values<V>, cur: Values<V>, k: string, v: V)
    ensures (k, v) in Changes(params, last, cur) <==>
      k in Keys(params) && k in cur && cur[k] == v && (k !in last || last[k] != v)
    decreases |params|
  {
    if params != [] {
      var front := params[..|params| - 1];
      ChangesAre(front, last, cur, k, v);
      KeysGrow(front, params[|params| - 1]);
      assert params == front + [params[|params| - 1]];
    }
  }

  lemma {:induction false} FewChanges<V>(params: seq<Param<V>>, last: Values<V>, cur: Values<V>)
    ensures |Changes(params, last, cur)| <= |params|
    decreases |params|
  {
    if params != [] {
      FewChanges(params[..|params| - 1], last, cur);
    }
  }

  lemma {:induction false} NoChanges<V>(params: seq<Param<V>>, last: Values<V>, cur: Values<V>)
    requires cur.Keys == Keys(params) && last.Keys <= cur.Keys
    ensures Changes(params, last, cur) == [] <==> last == cur
  {
    hide Changes;
    var changes := Changes(params, last, cur);
    if changes == [] {
      forall k | k in cur
        ensures k in last && last[k] == cur[k]
      {
        ChangesAre(params, last, cur, k, cur[k]);
      }
    } else {
      ChangesAre(params, last, cur, changes[0].0, changes[0].1);
    }
  }

  // ---------------------------------------------------------------- safety

  predicate Fed<V(==)>(s: State<V>, k: string) {
    exists i :: 0 <= i < |s.feed| && s.feed[i].0 == k
  }

  /** The parameter's two sides agree, up to its parser, or something under way will see to it. */
  predicate InStep<V(==)>(s: State<V>, p: Param<V>)
    requires p.key in s.routes && p.key in s.attrs
  {
    s.pending || Fed(s, p.key) || s.attrs[p.key] == s.routes[p.key] || p.parse(s.attrs[p.key]) == s.routes[p.key]
  }

  ghost predicate Inv<V>(params: seq<Param<V>>, s: State<V>) {
    s.last == s.routes && s.url == s.routes && s.attrs.Keys == Keys(params) &&
    (!s.feeding ==> s.feed == []) && (s.initialized || s.feeding ==> s.routes.Keys == Keys(params)) &&
    (forall i :: 0 <= i < |s.feed| ==> s.feed[i].0 in s.routes && s.routes[s.feed[i].0] == s.feed[i].1) &&
    (s.routes == map[] ||
     (s.routes.Keys == Keys(params) &&
      forall i :: 0 <= i < |params| ==>
        params[i].key in s.routes && params[i].key in s.attrs && InStep(s, params[i])))
  }

  lemma KeyIn<V>(params: seq<Param<V>>, i: nat)
    requires i < |params|
    ensures params[i].key in Keys(params)
  {
  }

  lemma {:induction false} SetCur<V>(params: seq<Param<V>>, payload: Values<V>)
    requires payload.Keys == Keys(params)
    ensures Formula(params, Formula(params, payload)).Keys == Keys(params)
  {
    FormulaKeys(params, payload);
    FormulaKeys(params, Formula(params, payload));
  }

  /** What the new routes change is fed, and the rest stays in step. */
  lemma {:induction false} SetInStep<V>(params: seq<Param<V>>, s: State<V>, cur: Values<V>, i: nat)
    requires i < |params| && cur.Keys == s.attrs.Keys == Keys(params) && Inv(params, s) && !s.feeding
    ensures params[i].key in cur && params[i].key in s.attrs
    ensures InStep(s.(routes := cur, feed := Changes(params, s.last, cur)), params[i])
  {
    hide Changes;
    var k := params[i].key;
    KeyIn(params, i);
    ChangesAre(params, s.last, cur, k, cur[k]);
  }

  lemma SetKeeps<V>(params: seq<Param<V>>, s: State<V>, payload: Values<V>)
    requires Inv(params, s) && Enabled(params, s, SetRoutes(payload))
    ensures Inv(params, Step(params, s, SetRoutes(payload)))
  {
    hide Formula, Changes, InStep;
    SetCur(params, payload);
    var cur := Formula(params, Formula(params, payload));
    NoChanges(params, s.last, cur);
    var t := Step(params, s, SetRoutes(payload));
    forall i | 0 <= i < |t.feed|
      ensures t.feed[i].0 in t.routes && t.routes[t.feed[i].0] == t.feed[i].1
    {
      ChangesAre(params, s.last, cur, t.feed[i].0, t.feed[i].1);
    }
    forall i | 0 <= i < |params|
      ensures params[i].key in t.routes && params[i].key in t.attrs && InStep(t, params[i])
    {
      SetInStep(params, s, cur, i);
      OnlyFeedMatters(s.(routes := cur, feed := Changes(params, s.last, cur)), t, params[i]);
    }
  }

  lemma OnlyFeedMatters<V>(s: State<V>, t: State<V>, p: Param<V>)
    requires p.key in s.routes && p.key in s.attrs && InStep(s, p)
    requires s.routes == t.routes && s.attrs == t.attrs && s.pending == t.pending && s.feed == t.feed
    ensures InStep(t, p)
  {
  }

  lemma FeedInStep<V>(s: State<V>, p: Param<V>)
    requires s.feed != [] && p.key in s.routes && p.key in s.attrs && InStep(s, p)
    requires s.feed[0].0 in s.routes && s.routes[s.feed[0].0] == s.feed[0].1
    ensures InStep(s.(attrs := s.attrs[s.feed[0].0 := s.feed[0].1], feed := s.feed[1..]), p)
  {
  }

  lemma FeedKeeps<V>(params: seq<Param<V>>, s: State<V>)
    requires Inv(params, s) && Enabled(params, s, Feed)
    ensures Inv(params, Step(params, s, Feed))
  {
    hide InStep;
    var t := Step(params, s, Feed);
    assert s.feed[0].0 in s.routes;
    forall i | 0 <= i < |params|
      ensures params[i].key in t.routes && params[i].key in t.attrs && InStep(t, params[i])
    {
      FeedInStep(s, params[i]);
    }
  }

  lemma WriteBackKeeps<V>(params: seq<Param<V>>, s: State<V>)
    requires Distinct(params) && Inv(params, s) && Enabled(params, s, WriteBack)
    ensures Inv(params, Step(params, s, WriteBack))
  {
    hide Formula, Changes;
    FormulaKeys(params, s.attrs);
    var t := Step(params, s, WriteBack);
    assert t.routes == Formula(params, s.attrs);
    NoChanges(params, s.last, t.routes);
    forall i | 0 <= i < |params|
      ensures params[i].key in t.routes && params[i].key in t.attrs && InStep(t, params[i])
    {
      KeyIn(params, i);
      FormulaValue(params, s.attrs, i);
    }
  }

  lemma StepKeepsInv<V>(params: seq<Param<V>>, s: State<V>, e: Event<V>)
    requires Distinct(params) && Inv(params, s) && Enabled(params, s, e)
    ensures Inv(params, Step(params, s, e))
  {
    hide Formula, Changes, Inv, InStep;
    match e
    case SetRoutes(payload) => SetKeeps(params, s, payload);
    case Feed => FeedKeeps(params, s);
    case FeedEnds => FeedEndsKeeps(params, s);
    case AttrsChange(attrs) => AttrsChangeKeeps(params, s, attrs);
    case WriteBack => WriteBackKeeps(params, s);
  }

  lemma FeedEndsKeeps<V>(params: seq<Param<V>>, s: State<V>)
    requires Inv(params, s) && Enabled(params, s, FeedEnds)
    ensures Inv(params, Step(params, s, FeedEnds))
  {
  }

  lemma AttrsChangeKeeps<V>(params: seq<Param<V>>, s: State<V>, attrs: Values<V>)
    requires Inv(params, s) && Enabled(params, s, AttrsChange(attrs))
    ensures Inv(params, Step(params, s, AttrsChange(attrs)))
  {
  }

  /** In every run, from any attributes, the invariant holds. */
  lemma {:induction false} RunKeepsInv<V>(params: seq<Param<V>>, s: State<V>, events: seq<Event<V>>)
    requires Distinct(params) && Inv(params, s) && Legal(params, s, events)
    ensures Inv(params, Run(params, s, events))
    decreases |events|
  {
    hide Inv, Step, Enabled;
    if events != [] {
      StepKeepsInv(params, s, events[0]);
      RunKeepsInv(params, Step(params, s, events[0]), events[1..]);
    }
  }

  // ---------------------------------------------------------------- both sides agree

  /** The parsers leave these values as they are. */
  ghost predicate Fixed<V>(params: seq<Param<V>>, values: Values<V>) {
    forall i :: 0 <= i < |params| ==>
      params[i].key in values && params[i].parse(values[params[i].key]) == values[params[i].key]
  }

  ghost predicate Idempotent<V(!new)>(params: seq<Param<V>>) {
    forall i, v :: 0 <= i < |params| ==> params[i].parse(params[i].parse(v)) == params[i].parse(v)
  }

  /** Pages change attributes only to values their parsers leave alone. */
  ghost predicate Tame<V>(params: seq<Param<V>>, e: Event<V>) {
    e.AttrsChange? ==> Fixed(params, e.attrs)
  }

  lemma SameValues<V>(params: seq<Param<V>>, a: Values<V>, b: Values<V>)
    requires a.Keys == b.Keys == Keys(params)
    requires forall i :: 0 <= i < |params| ==>
      params[i].key in a && params[i].key in b && a[params[i].key] == b[params[i].key]
    ensures a == b
  {
  }

  /** A write-back brings both sides together exactly when the parsers leave every attribute alone. */
  lemma WriteBackAgreesIff<V>(params: seq<Param<V>>, s: State<V>)
    requires Distinct(params) && Inv(params, s) && Enabled(params, s, WriteBack)
    ensures var t := Step(params, s, WriteBack);
      t.routes == t.attrs <==> Fixed(params, s.attrs)
  {
    hide Formula, Changes, InStep;
    FormulaKeys(params, s.attrs);
    var t := Step(params, s, WriteBack);
    assert t.routes == Formula(params, s.attrs);
    forall i | 0 <= i < |params|
      ensures params[i].key in s.attrs && params[i].key in t.routes
      ensures t.routes[params[i].key] == params[i].parse(s.attrs[params[i].key])
    {
      KeyIn(params, i);
      FormulaValue(params, s.attrs, i);
    }
    if Fixed(params, s.attrs) {
      SameValues(params, t.routes, t.attrs);
    }
  }

  lemma SettledAgrees<V>(params: seq<Param<V>>, s: State<V>)
    requires Inv(params, s) && Fixed(params, s.attrs)
    requires s.initialized && !s.pending && !s.feeding
    ensures s.attrs == s.routes
  {
  }

  /** Attributes and nonempty routes hold only values their parsers leave alone. */
  ghost predicate AllFixed<V>(params: seq<Param<V>>, s: State<V>) {
    Fixed(params, s.attrs) && (s.routes != map[] ==> Fixed(params, s.routes))
  }

  lemma {:induction false} ParsedIsFixed<V(!new)>(params: seq<Param<V>>, values: Values<V>)
    requires Distinct(params) && Idempotent(params) && values.Keys == Keys(params)
    ensures Fixed(params, Formula(params, values))
  {
    hide Formula;
    FormulaKeys(params, values);
    forall i | 0 <= i < |params|
      ensures params[i].key in Formula(params, values)
      ensures var v := Formula(params, values)[params[i].key]; params[i].parse(v) == v
    {
      KeyIn(params, i);
      FormulaValue(params, values, i);
    }
  }

  lemma FixedFeed<V>(params: seq<Param<V>>, attrs: Values<V>, routes: Values<V>, k: string)
    requires Fixed(params, attrs) && Fixed(params, routes) && k in routes
    ensures Fixed(params, attrs[k := routes[k]])
  {
  }

  lemma {:induction false} FixedMerge<V(!new)>(params: seq<Param<V>>, s: State<V>)
    requires Distinct(params) && Idempotent(params) && Inv(params, s)
    ensures Fixed(params, s.routes + Formula(params, s.attrs))
  {
    hide Formula, InStep;
    FormulaKeys(params, s.attrs);
    assert s.routes + Formula(params, s.attrs) == Formula(params, s.attrs);
    ParsedIsFixed(params, s.attrs);
  }

  lemma StepKeepsFixed<V(!new)>(params: seq<Param<V>>, s: State<V>, e: Event<V>)
    requires Distinct(params) && Idempotent(params) && Inv(params, s) && AllFixed(params, s)
    requires Enabled(params, s, e) && Tame(params, e)
    ensures AllFixed(params, Step(params, s, e))
  {
    hide Formula, Changes, InStep, Fixed, Idempotent, Distinct;
    match e
    case SetRoutes(payload) =>
      FormulaKeys(params, payload);
      ParsedIsFixed(params, Formula(params, payload));
    case Feed =>
      assert s.feed[0].0 in s.routes;
      FixedFeed(params, s.attrs, s.routes, s.feed[0].0);
    case FeedEnds =>
    case AttrsChange(attrs) =>
    case WriteBack => FixedMerge(params, s);
  }

  lemma {:induction false} RunKeepsFixed<V(!new)>(params: seq<Param<V>>, s: State<V>, events: seq<Event<V>>)
    requires Distinct(params) && Idempotent(params) && Inv(params, s) && AllFixed(params, s)
    requires Legal(params, s, events) && forall i :: 0 <= i < |events| ==> Tame(params, events[i])
    ensures Inv(params, Run(params, s, events)) && AllFixed(params, Run(params, s, events))
    decreases |events|
  {
    hide Inv, Step, Enabled, AllFixed, Idempotent, Distinct, Tame;
    if events != [] {
      assert Tame(params, events[0]);
      StepKeepsInv(params, s, events[0]);
      StepKeepsFixed(params, s, events[0]);
      RunKeepsFixed(params, Step(params, s, events[0]), events[1..]);
    }
  }

  /**
   Whatever order new URLs, attribute changes, feeding and write-backs came in: once the page
   is initialised, the attributes equal the routes unless a write-back or a feed is under way.
   */
  lemma {:induction false} RunAgrees<V(!new)>(params: seq<Param<V>>, attrs: Values<V>, events: seq<Event<V>>)
    requires Distinct(params) && Idempotent(params) && attrs.Keys == Keys(params) && Fixed(params, attrs)
    requires Legal(params, Initial(attrs), events) && forall i :: 0 <= i < |events| ==> Tame(params, events[i])
    ensures var end := Run(params, Initial(attrs), events);
      end.initialized && !end.pending && !end.feeding ==> end.attrs == end.routes == end.url
  {
    hide Run, Legal, Fixed, Idempotent, Distinct, Tame;
    RunKeepsFixed(params, Initial(attrs), events);
    var end := Run(params, Initial(attrs), events);
    if end.initialized && !end.pending && !end.feeding {
      SettledAgrees(params, end);
    }
  }

  // ---------------------------------------------------------------- the URL's values arrive

  ghost predicate EachOnce<V>(changes: seq<(string, V)>) {
    forall i, j :: 0 <= i < j < |changes| ==> changes[i].0 != changes[j].0
  }

  lemma {:induction false} ChangedOnce<V>(params: seq<Param<V>>, last: Values<V>, cur: Values<V>)
    requires Distinct(params)
    ensures EachOnce(Changes(params, last, cur))
    decreases |params|
  {
    if params != [] {
      var front, key := params[..|params| - 1], params[|params| - 1].key;
      ChangedOnce(front, last, cur);
      KeyIsLast(params);
      var changes := Changes(front, last, cur);
      forall i | 0 <= i < |changes|
        ensures changes[i].0 != key
      {
        ChangesAre(front, last, cur, changes[i].0, changes[i].1);
      }
    }
  }

  lemma KeyIsLast<V>(params: seq<Param<V>>)
    requires params != [] && Distinct(params)
    ensures params[|params| - 1].key !in Keys(params[..|params| - 1])
  {
  }

  /**
   A new URL: the routes become its values, each through the parser of the creator and that of
   the reducer, and what is to be fed is every parameter whose value is new, once.
   */
  lemma SetRoutesIs<V>(params: seq<Param<V>>, s: State<V>, payload: Values<V>)
    requires Distinct(params) && Inv(params, s) && Enabled(params, s, SetRoutes(payload))
    ensures var t := Step(params, s, SetRoutes(payload));
      t.routes.Keys == Keys(params) && t.attrs == s.attrs && t.pending == s.pending && (t.feeding <==> t.feed != [])
    ensures var t := Step(params, s, SetRoutes(payload));
      forall i :: 0 <= i < |params| ==>
        params[i].key in t.routes && params[i].key in payload &&
        t.routes[params[i].key] == params[i].parse(params[i].parse(payload[params[i].key]))
    ensures var t := Step(params, s, SetRoutes(payload));
      (forall k, v :: (k, v) in t.feed <==>
        k in t.routes && t.routes[k] == v && (k !in s.routes || s.routes[k] != v)) &&
      EachOnce(t.feed)
  {
    hide Formula, Changes, InStep, Distinct;
    SetCur(params, payload);
    FormulaKeys(params, payload);
    var cur := Formula(params, Formula(params, payload));
    forall i | 0 <= i < |params|
      ensures params[i].key in cur && params[i].key in payload
      ensures cur[params[i].key] == params[i].parse(params[i].parse(payload[params[i].key]))
    {
      KeyIn(params, i);
      FormulaValue(params, payload, i);
      FormulaValue(params, Formula(params, payload), i);
    }
    forall k, v
      ensures (k, v) in Changes(params, s.last, cur) <==>
        k in cur && cur[k] == v && (k !in s.routes || s.routes[k] != v)
    {
      ChangesAre(params, s.last, cur, k, v);
    }
    ChangedOnce(params, s.last, cur);
  }

  /** Feeding alone. */
  predicate Feeds<V>(e: Event<V>) {
    e.Feed? || e.FeedEnds?
  }

  lemma FedStep<V>(s: State<V>, k: string)
    requires s.feed != []
    ensures Fed(s, k) <==> s.feed[0].0 == k || Fed(s.(feed := s.feed[1..]), k)
  {
    if i :| 0 <= i < |s.feed| - 1 && s.feed[1..][i].0 == k {
      assert s.feed[i + 1].0 == k;
    }
    if i :| 0 < i < |s.feed| && s.feed[i].0 == k {
      assert s.feed[1..][i - 1].0 == k;
    }
  }

  /** Once a feed has ended, the attributes fed hold the routes' values and the others what they held. */
  lemma {:induction false} FedRun<V>(params: seq<Param<V>>, s: State<V>, events: seq<Event<V>>, k: string)
    requires Distinct(params) && Inv(params, s) && Legal(params, s, events) && k in s.attrs
    requires forall i :: 0 <= i < |events| ==> Feeds(events[i])
    requires !Run(params, s, events).feeding
    ensures var end := Run(params, s, events);
      end.routes == s.routes && end.pending == s.pending && k in end.attrs && (Fed(s, k) ==> k in s.routes) &&
      end.attrs[k] == if Fed(s, k) then s.routes[k] else s.attrs[k]
    decreases |events|
  {
    hide Formula, Changes, Distinct;
    if events != [] {
      assert Feeds(events[0]);
      StepKeepsInv(params, s, events[0]);
      var next := Step(params, s, events[0]);
      FedRun(params, next, events[1..], k);
      if events[0].Feed? {
        FedStep(s, k);
        SameFeedFed(s.(feed := s.feed[1..]), next, k);
      } else {
        SameFeedFed(s, next, k);
      }
    }
  }

  lemma SameFeedFed<V>(s: State<V>, t: State<V>, k: string)
    requires s.feed == t.feed
    ensures Fed(s, k) == Fed(t, k)
  {
  }

  /**
   After a new URL and the feed it starts, every parameter's route has the URL's value; so has its
   attribute if that value was new, and else the attribute is as it was.
   */
  lemma {:induction false} UrlIsFed<V>(params: seq<Param<V>>, s: State<V>, payload: Values<V>, events: seq<Event<V>>,
                                       i: nat)
    requires Distinct(params) && Inv(params, s) && Enabled(params, s, SetRoutes(payload)) && i < |params|
    requires var t := Step(params, s, SetRoutes(payload));
      Legal(params, t, events) && !Run(params, t, events).feeding
    requires forall j :: 0 <= j < |events| ==> Feeds(events[j])
    ensures var end := Run(params, Step(params, s, SetRoutes(payload)), events);
      var p, k := params[i], params[i].key;
      k in payload && k in end.routes && k in end.attrs && k in s.attrs &&
      var v := p.parse(p.parse(payload[k]));
      end.routes[k] == v && end.attrs[k] == if k in s.routes && s.routes[k] == v then s.attrs[k] else v
  {
    hide Formula, Changes, InStep, Distinct, Legal, Run, Fed, Step;
    var t, k := Step(params, s, SetRoutes(payload)), params[i].key;
    SetRoutesIs(params, s, payload);
    KeyIn(params, i);
    SetKeeps(params, s, payload);
    FedRun(params, t, events, k);
    FedIsListed(t, k);
    assert Fed(t, k) <==> (k, t.routes[k]) in t.feed;
  }

  lemma FedIsListed<V>(s: State<V>, k: string)
    ensures Fed(s, k) <==> exists v :: (k, v) in s.feed
  {
    if Fed(s, k) {
      var i :| 0 <= i < |s.feed| && s.feed[i].0 == k;
      assert (k, s.feed[i].1) in s.feed;
    }
    if v :| (k, v) in s.feed {
      var i :| 0 <= i < |s.feed| && s.feed[i] == (k, v);
    }
  }

  /**
   Over every run: once the last URL has been fed, with nothing changed or written back since,
   and nothing waiting to be written back when it came, routes and attributes hold its values.
   */
  lemma {:induction false} LastUrlHolds<V(!new)>(params: seq<Param<V>>, attrs: Values<V>, before: seq<Event<V>>,
                                          payload: Values<V>, events: seq<Event<V>>)
    requires Distinct(params) && Idempotent(params) && attrs.Keys == Keys(params) && Fixed(params, attrs)
    requires Legal(params, Initial(attrs), before) && forall i :: 0 <= i < |before| ==> Tame(params, before[i])
    requires !Run(params, Initial(attrs), before).pending
    requires Enabled(params, Run(params, Initial(attrs), before), SetRoutes(payload))
    requires var t := Step(params, Run(params, Initial(attrs), before), SetRoutes(payload));
      Legal(params, t, events) && !Run(params, t, events).feeding
    requires forall j :: 0 <= j < |events| ==> Feeds(events[j])
    ensures var end := Run(params, Step(params, Run(params, Initial(attrs), before), SetRoutes(payload)), events);
      forall i :: 0 <= i < |params| ==>
        params[i].key in payload && params[i].key in end.routes && params[i].key in end.attrs &&
        end.routes[params[i].key] == end.attrs[params[i].key] ==
          params[i].parse(params[i].parse(payload[params[i].key]))
  {
    hide Run, Legal, Fixed, Idempotent, Distinct, Tame, Step, Enabled, Inv, AllFixed;
    InitiallyFixed(params, attrs);
    RunKeepsFixed(params, Initial(attrs), before);
    var s := Run(params, Initial(attrs), before);
    NotFeeding(params, s, payload);
    forall i | 0 <= i < |params|
      ensures var end := Run(params, Step(params, s, SetRoutes(payload)), events);
        params[i].key in payload && params[i].key in end.routes && params[i].key in end.attrs &&
        end.routes[params[i].key] == end.attrs[params[i].key] ==
          params[i].parse(params[i].parse(payload[params[i].key]))
    {
      UrlIsFed(params, s, payload, events, i);
      SettledHere(params, s, i);
    }
  }

  lemma InitiallyFixed<V>(params: seq<Param<V>>, attrs: Values<V>)
    requires attrs.Keys == Keys(params) && Fixed(params, attrs)
    ensures Inv(params, Initial(attrs)) && AllFixed(params, Initial(attrs))
  {
  }

  lemma NotFeeding<V>(params: seq<Param<V>>, s: State<V>, payload: Values<V>)
    requires Enabled(params, s, SetRoutes(payload))
    ensures !s.feeding
  {
  }

  lemma SettledHere<V>(params: seq<Param<V>>, s: State<V>, i: nat)
    requires Inv(params, s) && AllFixed(params, s) && !s.pending && !s.feeding && i < |params|
    ensures params[i].key in s.routes ==> params[i].key in s.attrs && s.attrs[params[i].key] == s.routes[params[i].key]
  {
  }

  /** What the user changes is what is written back, through the parsers, and handed to the URL. */
  lemma ChangeIsWrittenBack<V>(params: seq<Param<V>>, s: State<V>, attrs: Values<V>, i: nat)
    requires Distinct(params) && Inv(params, s) && Enabled(params, s, AttrsChange(attrs)) && !s.feeding && i < |params|
    ensures var changed := Step(params, s, AttrsChange(attrs));
      changed.pending && changed.attrs == attrs && changed.routes == s.routes && Enabled(params, changed, WriteBack)
    ensures var t := Step(params, Step(params, s, AttrsChange(attrs)), WriteBack);
      var p, k := params[i], params[i].key;
      !t.pending && !t.feeding && t.attrs == attrs && t.url == t.routes && k in attrs && k in t.routes &&
      t.routes[k] == p.parse(attrs[k])
  {
    hide Formula, Changes, InStep, Distinct;
    AttrsChangeKeeps(params, s, attrs);
    WriteBackKeeps(params, Step(params, s, AttrsChange(attrs)));
    KeyIn(params, i);
    FormulaKeys(params, attrs);
    FormulaValue(params, attrs, i);
  }

  // ---------------------------------------------------------------- no endless ping-pong

  /** What the page does by itself; the rest comes from the user and the browser. */
  predicate Internal<V>(e: Event<V>) {
    e.Feed? || e.FeedEnds? || e.WriteBack?
  }

  /** How many steps of its own the page has before it. */
  function Weight<V>(s: State<V>): nat {
    |s.feed| + (if s.feeding then 1 else 0) + if s.pending then 1 else 0
  }

  /** What an event may add: a new URL one action a parameter and an end, a change one write-back. */
  function Budget<V>(params: seq<Param<V>>, e: Event<V>): nat {
    match e
    case SetRoutes(_) => |params| + 1
    case AttrsChange(_) => 1
    case _ => 0
  }

  function Budgets<V>(params: seq<Param<V>>, events: seq<Event<V>>): nat {
    if events == [] then 0 else Budget(params, events[0]) + Budgets(params, events[1..])
  }

  function InternalSteps<V>(events: seq<Event<V>>): nat {
    if events == [] then 0 else (if Internal(events[0]) then 1 else 0) + InternalSteps(events[1..])
  }

  lemma StepWeighs<V>(params: seq<Param<V>>, s: State<V>, e: Event<V>)
    requires Enabled(params, s, e) && (!s.feeding ==> s.feed == [])
    ensures Weight(Step(params, s, e)) + (if Internal(e) then 1 else 0) <= Weight(s) + Budget(params, e)
    ensures !Step(params, s, e).feeding ==> Step(params, s, e).feed == []
  {
    hide Changes, Formula;
    if e.SetRoutes? {
      FewChanges(params, s.last, Formula(params, Formula(params, e.payload)));
    }
  }

  /**
   Over every run the page takes at most |params| + 1 steps of its own for each new URL and one
   for each attribute change: feeding never causes a write-back, a write-back never feeds.
   */
  lemma {:induction false} RunIsBounded<V>(params: seq<Param<V>>, s: State<V>, events: seq<Event<V>>)
    requires Legal(params, s, events) && (!s.feeding ==> s.feed == [])
    ensures InternalSteps(events) + Weight(Run(params, s, events)) <= Weight(s) + Budgets(params, events)
    decreases |events|
  {
    hide Step, Enabled, Weight, Budget, Internal;
    if events != [] {
      StepWeighs(params, s, events[0]);
      RunIsBounded(params, Step(params, s, events[0]), events[1..]);
    }
  }

  /** The page has a step of its own to take exactly when something is under way. */
  lemma NeverStuck<V>(params: seq<Param<V>>, s: State<V>)
    requires Inv(params, s)
    ensures s.pending || s.feeding <==> exists e :: Internal(e) && Enabled(params, s, e)
    ensures s.pending || s.feeding <==> Weight(s) > 0
  {
    if s.feeding {
      assert Internal<V>(Feed) && Internal<V>(FeedEnds);
      assert Enabled(params, s, Feed) || Enabled(params, s, FeedEnds);
    } else if s.pending {
      assert Internal<V>(WriteBack) && Enabled(params, s, WriteBack);
    }
  }

  // ---------------------------------------------------------------- when a new URL feeds

  /** A new URL feeds the attributes exactly when its parsed parameters are not the routes already. */
  lemma {:induction false} SetFeedsIff<V>(params: seq<Param<V>>, s: State<V>, payload: Values<V>)
    requires Inv(params, s) && Enabled(params, s, SetRoutes(payload))
    ensures Step(params, s, SetRoutes(payload)).feeding <==> Formula(params, Formula(params, payload)) != s.routes
  {
    hide Formula, Changes, InStep;
    SetCur(params, payload);
    NoChanges(params, s.last, Formula(params, Formula(params, payload)));
  }

  lemma {:induction false} FixedFormula<V>(params: seq<Param<V>>, values: Values<V>)
    requires Distinct(params) && Fixed(params, values) && values.Keys == Keys(params)
    ensures Formula(params, values) == values
  {
    hide Formula;
    FormulaKeys(params, values);
    forall i | 0 <= i < |params|
      ensures params[i].key in Formula(params, values) && params[i].key in values
      ensures Formula(params, values)[params[i].key] == values[params[i].key]
    {
      KeyIn(params, i);
      FormulaValue(params, values, i);
    }
    SameValues(params, Formula(params, values), values);
  }

  /** The browser's echo of a URL the page wrote itself changes nothing. */
  lemma EchoIsSilent<V>(params: seq<Param<V>>, s: State<V>)
    requires Distinct(params) && Inv(params, s) && !s.feeding
    requires s.routes.Keys == Keys(params) && Fixed(params, s.routes)
    ensures Enabled(params, s, SetRoutes(s.routes)) && Step(params, s, SetRoutes(s.routes)) == s
  {
    hide Formula, Changes, InStep, Fixed;
    FixedFormula(params, s.routes);
    NoChanges(params, s.last, s.routes);
  }

  /** The first URL, coming before any write-back, always feeds. */
  lemma FirstUrlFeeds<V>(params: seq<Param<V>>, s: State<V>, payload: Values<V>)
    requires Inv(params, s) && Enabled(params, s, SetRoutes(payload)) && params != [] && s.routes == map[]
    ensures Step(params, s, SetRoutes(payload)).feeding
  {
    hide Formula, Changes, InStep;
    SetCur(params, payload);
    KeyIn(params, 0);
    assert params[0].key in Formula(params, Formula(params, payload));
    SetFeedsIff(params, s, payload);
  }

  /** A new URL says something else than the routes. */
  predicate SaysNew<V(==)>(params: seq<Param<V>>, s: State<V>, e: Event<V>) {
    e.SetRoutes? && Formula(params, Formula(params, e.payload)) != s.routes
  }

  /** Some new URL said something else than the routes, and a feed ended after it. */
  predicate UrlWasFed<V(==)>(params: seq<Param<V>>, s: State<V>, events: seq<Event<V>>)
    requires Legal(params, s, events)
    decreases |events|
  {
    events != [] &&
    ((SaysNew(params, s, events[0]) && FeedEnds in events[1..]) ||
     UrlWasFed(params, Step(params, s, events[0]), events[1..]))
  }

  lemma FeedEndsStep<V>(events: seq<Event<V>>)
    requires events != []
    ensures FeedEnds in events <==> events[0].FeedEnds? || FeedEnds in events[1..]
  {
    assert events == [events[0]] + events[1..];
  }

  /** What ends is the feed under way, or one a later URL starts. */
  lemma {:induction false} InitializedFrom<V>(params: seq<Param<V>>, s: State<V>, events: seq<Event<V>>)
    requires Distinct(params) && Inv(params, s) && Legal(params, s, events)
    ensures Run(params, s, events).initialized <==>
      s.initialized || (s.feeding && FeedEnds in events) || UrlWasFed(params, s, events)
    decreases |events|
  {
    hide Inv, Formula, Changes, Distinct;
    if events != [] {
      var e := events[0];
      FeedEndsStep(events);
      StepKeepsInv(params, s, e);
      InitializedFrom(params, Step(params, s, e), events[1..]);
      if e.SetRoutes? {
        SetFeedsIff(params, s, e.payload);
      }
    }
  }

  /** Over every run the page is initialised exactly when some URL that said something new has been fed. */
  lemma {:induction false} InitializedIff<V>(params: seq<Param<V>>, attrs: Values<V>, events: seq<Event<V>>)
    requires Distinct(params) && attrs.Keys == Keys(params) && Legal(params, Initial(attrs), events)
    ensures Run(params, Initial(attrs), events).initialized <==> UrlWasFed(params, Initial(attrs), events)
  {
    hide Run, Legal, UrlWasFed, Distinct;
    InitializedFrom(params, Initial(attrs), events);
  }

  /** A page that is told its URL at the start is initialised as soon as a feed has ended. */
  lemma {:induction false} FirstUrlInitializes<V>(params: seq<Param<V>>, attrs: Values<V>, events: seq<Event<V>>)
    requires Distinct(params) && params != [] && attrs.Keys == Keys(params) && Legal(params, Initial(attrs), events)
    requires events != [] && events[0].SetRoutes?
    ensures Run(params, Initial(attrs), events).initialized <==> FeedEnds in events
  {
    hide Formula, Changes, Distinct;
    var s := Initial(attrs);
    FirstUrlFeeds(params, s, events[0].payload);
    StepKeepsInv(params, s, events[0]);
    FeedEndsStep(events);
    InitializedFrom(params, Step(params, s, events[0]), events[1..]);
    if UrlWasFed(params, Step(params, s, events[0]), events[1..]) {
      NoFeedNoUrl(params, Step(params, s, events[0]), events[1..]);
    }
  }

  lemma {:induction false} NoFeedNoUrl<V>(params: seq<Param<V>>, s: State<V>, events: seq<Event<V>>)
    requires Legal(params, s, events) && UrlWasFed(params, s, events)
    ensures FeedEnds in events
    decreases |events|
  {
    hide Step, Enabled, Formula;
    FeedEndsStep(events);
    if !(FeedEnds in events[1..]) {
      NoFeedNoUrl(params, Step(params, s, events[0]), events[1..]);
    }
  }
}
