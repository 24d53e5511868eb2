/**
 Loading one piece of data: FETCH and RELOAD cancel the fetch under way and start a new one,
 which waits a buffer time, spawns the load and joins it. A spawned load is not cancelled with
 its fetch, so loads end in any order, and also when nobody waits for them any more.

 `deferLoading` is at its default, 0. Fetches are numbered as they start and loads as they are
 spawned.
 */
module Fetcher {
  import opened Strings

  datatype Store<P, X> = Store(filter: Option<P>, data: Option<X>, error: Option<string>, loading: bool)

  datatype Action<P, X> =
    | Fetch(fetched: P)
    | FetchStart(param: P)
    | FetchDone(payload: Option<X>)
    | FetchFail(reason: string)
    | Reset
    | Reload

  /** The reducers, one per field. */
  function Reduce<P, X>(s: Store<P, X>, a: Action<P, X>): Store<P, X> {
    Store(
      if a.FetchStart? then Some(a.param) else s.filter,
      if a.Reset? || a.FetchFail? then None else if a.FetchDone? then a.payload else s.data,
      if a.Reset? || a.Fetch? || a.FetchDone? then None else if a.FetchFail? then Some(a.reason) else s.error,
      if a.FetchStart? then true else if a.Reset? || a.FetchDone? || a.FetchFail? then false else s.loading)
  }

  /** How a load ends; the data may be null. */
  datatype Result<X> = Good(data: Option<X>) | Bad(error: string)

  datatype Load<P> = Load(fetch: nat, param: P)

  /** The saga of the live fetch and where it waits. */
  datatype Task<P> = Idle | Buffering(param: P) | Joining(load: nat)

  /**
   `watching` is the parameter of the last FETCH, whose saga listens to RELOAD. `source` is the
   load whose data is installed.
   */
  datatype State<P, X> = State(
    store: Store<P, X>,
    watching: Option<P>,
    task: Task<P>,
    started: nat,
    loads: seq<Load<P>>,
    results: map<nat, Result<X>>,
    source: Option<nat>)

  datatype Event<P, X> =
    | UserFetch(param: P)
    | UserReload
    | UserReset
    | BufferEnds
    | LoadEnds(load: nat, result: Result<X>)

  const DEFAULT_ERROR := "load failed"

  function Initial<P, X>(): State<P, X> {
    State(Store(None, None, None, false), None, Idle, 0, [], map[], None)
  }

  function Start<P, X>(s: State<P, X>, param: P): State<P, X> {
    s.(store := Reduce(s.store, FetchStart(param)), task := Buffering(param), started := s.started + 1)
  }

  function Report<X>(result: Result<X>): Result<X> {
    if result.Bad? && result.error == "" then Bad(DEFAULT_ERROR) else result
  }

  function Install<P, X>(store: Store<P, X>, result: Result<X>): Store<P, X> {
    match Report(result)
    case Good(data) => Reduce(store, FetchDone(data))
    case Bad(error) => Reduce(store, FetchFail(error))
  }

  predicate Enabled<P, X>(s: State<P, X>, e: Event<P, X>) {
    match e
    case BufferEnds => s.task.Buffering?
    case LoadEnds(i, _) => i < |s.loads| && i !in s.results
    case _ => true
  }

  function Step<P, X>(s: State<P, X>, e: Event<P, X>): State<P, X>
    requires Enabled(s, e)
  {
    match e
    case UserFetch(p) => Start(s.(store := Reduce(s.store, Fetch(p)), watching := Some(p)), p)
    case UserReload =>
      var t := s.(store := Reduce(s.store, Reload));
      if s.watching.Some? then Start(t, s.watching.value) else t
    case UserReset => s.(store := Reduce(s.store, Reset), source := None)
    case BufferEnds => s.(loads := s.loads + [Load(s.started, s.task.param)], task := Joining(|s.loads|))
    case LoadEnds(i, result) =>
      var t := s.(results := s.results[i := result]);
      if s.task == Joining(i) then
        var store := Install(s.store, result);
        t.(store := store, task := Idle, source := if store.data.Some? then Some(i) else None)
      else t
  }

  predicate Legal<P, X>(s: State<P, X>, events: seq<Event<P, X>>)
    decreases |events|
  {
    events == [] || (Enabled(s, events[0]) && Legal(Step(s, events[0]), events[1..]))
  }

  function Run<P, X>(s: State<P, X>, events: seq<Event<P, X>>): State<P, X>
    requires Legal(s, events)
    decreases |events|
  {
    if events == [] then s else Run(Step(s, events[0]), events[1..])
  }

  // ---------------------------------------------------------------- the latest fetch wins

  predicate Shows<P, X(==)>(store: Store<P, X>, result: Result<X>) {
    match Report(result)
    case Good(data) => store.data == data && store.error.None?
    case Bad(error) => store.data.None? && store.error == Some(error)
  }

  predicate Blank<P, X>(store: Store<P, X>) {
    store.data.None? && store.error.None?
  }

  /** The live fetch is the last one started, and asks for the stored filter. */
  predicate Current<P(==), X>(s: State<P, X>) {
    (s.task.Buffering? ==> s.started > 0 && s.store.filter == Some(s.task.param)) &&
    (s.task.Joining? ==>
      s.task.load == |s.loads| - 1 && s.task.load !in s.results &&
      s.loads[s.task.load].fetch == s.started && s.store.filter == Some(s.loads[s.task.load].param)) &&
    (s.task.Idle? && s.started > 0 ==>
      |s.loads| > 0 && |s.loads| - 1 in s.results && s.loads[|s.loads| - 1].fetch == s.started &&
      s.store.filter == Some(s.loads[|s.loads| - 1].param))
  }

  predicate Inv<P(==), X(==)>(s: State<P, X>) {
    Current(s) &&
    (s.started == 0 ==> s.task.Idle? && s.store == Store(None, None, None, false)) &&
    (s.watching.Some? ==> s.started > 0 && s.store.filter == s.watching) &&
    (s.watching.None? ==> s.started == 0) &&
    (forall i :: i in s.results ==> i < |s.loads|) &&
    (s.task.Idle? && s.started > 0 ==> Blank(s.store) || Shows(s.store, s.results[|s.loads| - 1])) &&
    !(s.store.data.Some? && s.store.error.Some?) &&
    (s.store.loading ==> !s.task.Idle?)
  }

  /** Each fetch spawns at most one load, in the order the fetches start. */
  ghost predicate InOrder<P, X>(s: State<P, X>) {
    (forall i, j :: 0 <= i < j < |s.loads| ==> s.loads[i].fetch < s.loads[j].fetch) &&
    (forall i :: 0 <= i < |s.loads| ==> 0 < s.loads[i].fetch <= s.started) &&
    (s.task.Buffering? ==> forall i :: 0 <= i < |s.loads| ==> s.loads[i].fetch < s.started)
  }

  lemma StepKeepsInv<P, X>(s: State<P, X>, e: Event<P, X>)
    requires Inv(s) && Enabled(s, e)
    ensures Inv(Step(s, e))
  {
  }

  lemma StepKeepsOrder<P, X>(s: State<P, X>, e: Event<P, X>)
    requires InOrder(s) && Current(s) && Enabled(s, e)
    ensures InOrder(Step(s, e))
  {
    hide Reduce, Install;
  }

  /**
   In every run of FETCH, RELOAD and RESET with loads ending in any order: the live fetch is the
   latest, data and error are never both set, and once no fetch is live the store shows the
   result of the latest fetch, for the stored filter, or has been reset since.
   */
  lemma {:induction false} RunKeepsInv<P, X>(s: State<P, X>, events: seq<Event<P, X>>)
    requires Inv(s) && InOrder(s) && Legal(s, events)
    ensures Inv(Run(s, events)) && InOrder(Run(s, events))
    decreases |events|
  {
    hide Inv, InOrder, Step, Enabled;
    if events != [] {
      StepKeepsInv(s, events[0]);
      InvCurrent(s);
      StepKeepsOrder(s, events[0]);
      RunKeepsInv(Step(s, events[0]), events[1..]);
    }
  }

  lemma InvCurrent<P, X>(s: State<P, X>)
    requires Inv(s)
    ensures Current(s)
  {
  }

  lemma InitialInv<P, X>()
    ensures Inv(Initial<P, X>()) && InOrder(Initial<P, X>())
  {
  }

  /** A load that ends changes the store as its result does if its fetch is the latest one, and else not at all. */
  lemma OnlyTheLatestInstalls<P, X>(s: State<P, X>, i: nat, result: Result<X>)
    requires Inv(s) && InOrder(s) && Enabled(s, LoadEnds(i, result))
    ensures var t := Step(s, LoadEnds(i, result));
      if s.loads[i].fetch == s.started then
        s.store.filter == Some(s.loads[i].param) && t.task.Idle? && Shows(t.store, result)
      else t.store == s.store && t.task == s.task
  {
  }

  /** What the latest load leaves: its data and no error, or no data and its error, an empty one giving the default. */
  lemma LoadLeaves<P, X>(s: State<P, X>, i: nat, result: Result<X>)
    requires Inv(s) && InOrder(s) && Enabled(s, LoadEnds(i, result)) && s.loads[i].fetch == s.started
    ensures var t, filter := Step(s, LoadEnds(i, result)), Some(s.loads[i].param);
      t.store ==
        match result
        case Good(data) => Store(filter, data, None, false)
        case Bad(error) => Store(filter, None, Some(if error == "" then DEFAULT_ERROR else error), false)
  {
    OnlyTheLatestInstalls(s, i, result);
  }

  // ---------------------------------------------------------------- what the actions asked for is what is fetched

  function LastFetched<P, X>(events: seq<Event<P, X>>): Option<P> {
    if events == [] then None
    else
      var last := events[|events| - 1];
      if last.UserFetch? then Some(last.param) else LastFetched(events[..|events| - 1])
  }

  /** FETCH starts a fetch, and so does RELOAD once there was one. */
  predicate Starts<P, X>(before: seq<Event<P, X>>, e: Event<P, X>) {
    e.UserFetch? || (e.UserReload? && LastFetched(before).Some?)
  }

  function Fetches<P, X>(events: seq<Event<P, X>>): nat {
    if events == [] then 0
    else
      var front, last := events[..|events| - 1], events[|events| - 1];
      Fetches(front) + if Starts(front, last) then 1 else 0
  }

  /** A RESET came after the last start. */
  predicate ResetSince<P, X>(events: seq<Event<P, X>>) {
    events != [] &&
    var front, last := events[..|events| - 1], events[|events| - 1];
    last.UserReset? || (!Starts(front, last) && ResetSince(front))
  }

  lemma {:induction false} LegalSnoc<P, X>(s: State<P, X>, events: seq<Event<P, X>>)
    requires events != [] && Legal(s, events)
    ensures var front, last := events[..|events| - 1], events[|events| - 1];
      Legal(s, front) && Enabled(Run(s, front), last) && Run(s, events) == Step(Run(s, front), last)
    decreases |events|
  {
    hide Step, Enabled;
    var front := events[..|events| - 1];
    if |events| > 1 {
      assert events[1..][..|events| - 2] == front[1..];
      LegalSnoc(Step(s, events[0]), events[1..]);
    }
  }

  /** What the fetcher does is what it was last told: how many fetches, for what, and loading while one goes on. */
  ghost predicate DoesAsTold<P, X>(s: State<P, X>, events: seq<Event<P, X>>) {
    s.started == Fetches(events) && s.watching == LastFetched(events) && s.store.filter == LastFetched(events) &&
    (s.store.loading <==> !s.task.Idle? && !ResetSince(events))
  }

  lemma HistoryStep<P, X>(events: seq<Event<P, X>>)
    requires events != []
    ensures var front, last := events[..|events| - 1], events[|events| - 1];
      LastFetched(events) == (if last.UserFetch? then Some(last.param) else LastFetched(front)) &&
      Fetches(events) == Fetches(front) + (if Starts(front, last) then 1 else 0) &&
      (ResetSince(events) <==> last.UserReset? || (!Starts(front, last) && ResetSince(front)))
  {
  }

  lemma StepDoesAsTold<P, X>(s: State<P, X>, events: seq<Event<P, X>>)
    requires events != [] && DoesAsTold(s, events[..|events| - 1]) && Enabled(s, events[|events| - 1])
    ensures DoesAsTold(Step(s, events[|events| - 1]), events)
  {
    hide LastFetched, Fetches, ResetSince;
    HistoryStep(events);
  }

  /** Over every run the fetches started are the FETCHes and the RELOADs after the first, of the last FETCH's query. */
  lemma {:induction false} RunDoesAsTold<P, X>(events: seq<Event<P, X>>)
    requires Legal(Initial<P, X>(), events)
    ensures DoesAsTold(Run(Initial(), events), events)
    decreases |events|
  {
    hide DoesAsTold, Legal, Run, Step, Enabled;
    if events == [] {
      NothingTold<P, X>();
    } else {
      LegalSnoc(Initial(), events);
      RunDoesAsTold(events[..|events| - 1]);
      StepDoesAsTold(Run(Initial(), events[..|events| - 1]), events);
    }
  }

  lemma NothingTold<P, X>()
    ensures Legal(Initial<P, X>(), []) && DoesAsTold(Run(Initial<P, X>(), []), [])
  {
  }

  /**
   RELOAD starts a fetch of the last FETCH's parameter, as that FETCH would again, except that it
   leaves an error on show; the old data stays with either.
   */
  lemma ReloadFetchesAgain<P, X>(s: State<P, X>)
    requires s.watching.Some?
    ensures var t, u := Step(s, UserReload), Step(s, UserFetch(s.watching.value));
      t.task == u.task == Buffering(s.watching.value) && t.started == u.started == s.started + 1 &&
      t.store == Store(s.watching, s.store.data, s.store.error, true) && u.store == t.store.(error := None) &&
      Enabled(t, BufferEnds) && Step(t, BufferEnds).loads == s.loads + [Load(t.started, s.watching.value)]
  {
  }

  // ---------------------------------------------------------------- whether the data answers the filter

  /** Data is always what some load ended with, and once no fetch is live it is the latest one's. */
  predicate Sourced<P, X(==)>(s: State<P, X>) {
    (s.store.data.Some? <==> s.source.Some?) &&
    (s.source.Some? ==>
      s.source.value < |s.loads| && s.source.value in s.results && s.results[s.source.value] == Good(s.store.data)) &&
    (s.source.Some? && s.task.Idle? ==> s.source.value == |s.loads| - 1)
  }

  lemma StepKeepsSourced<P, X>(s: State<P, X>, e: Event<P, X>)
    requires Inv(s) && Sourced(s) && Enabled(s, e)
    ensures Sourced(Step(s, e))
  {
  }

  lemma {:induction false} RunKeepsSourced<P, X>(s: State<P, X>, events: seq<Event<P, X>>)
    requires Inv(s) && InOrder(s) && Sourced(s) && Legal(s, events)
    ensures Sourced(Run(s, events))
    decreases |events|
  {
    hide Inv, InOrder, Sourced, Step, Enabled;
    if events != [] {
      StepKeepsInv(s, events[0]);
      InvCurrent(s);
      StepKeepsOrder(s, events[0]);
      StepKeepsSourced(s, events[0]);
      RunKeepsSourced(Step(s, events[0]), events[1..]);
    }
  }

  /** What every good load brought is what the server says for its parameter. */
  predicate Served<P, X(==)>(s: State<P, X>, server: P -> Option<X>) {
    forall i :: i in s.results && i < |s.loads| && s.results[i].Good? ==> s.results[i].data == server(s.loads[i].param)
  }

  /**
   Over every run of FETCH, RELOAD and RESET, overlapping or not: the data shown is what the
   server says for the stored filter exactly when it says the same for the load the data came
   from. That is always so when no fetch is live; while one is, old data stays.
   */
  lemma {:induction false} DataAnswersIff<P(!new), X>(events: seq<Event<P, X>>, server: P -> Option<X>)
    requires Legal(Initial(), events)
    requires var s := Run(Initial(), events); Served(s, server) && s.store.data.Some?
    ensures var s := Run(Initial(), events);
      s.store.filter.Some? && s.source.Some? && s.source.value < |s.loads| &&
      (s.store.data == server(s.store.filter.value) <==>
        server(s.loads[s.source.value].param) == server(s.store.filter.value)) &&
      ((forall p, q :: server(p) == server(q) ==> p == q) ==>
        (s.store.data == server(s.store.filter.value) <==> s.loads[s.source.value].param == s.store.filter.value)) &&
      (s.task.Idle? ==> s.loads[s.source.value].param == s.store.filter.value)
  {
    hide Run, Legal;
    InitialInv<P, X>();
    RunKeepsInv(Initial(), events);
    RunKeepsSourced(Initial(), events);
  }

  /** Data of one filter is shown under another while the fetch for that one is under way. */
  lemma StaleWhileFetching<P, X>(p: P, q: P, data: X)
    requires p != q
    ensures var events := [UserFetch(p), BufferEnds, LoadEnds(0, Good(Some(data))), UserFetch(q)];
      Legal(Initial(), events) &&
      var s := Run(Initial(), events);
      s.store.data == Some(data) && s.store.filter == Some(q) && s.source == Some(0) && s.loads == [Load(1, p)]
  {
    var ends: Event<P, X> := LoadEnds(0, Good(Some(data)));
    var s0 := Initial<P, X>();
    var s1 := Step(s0, UserFetch(p));
    var s2 := Step(s1, BufferEnds);
    var s3 := Step(s2, ends);
    RunOne(s3, UserFetch(q), []);
    RunOne(s2, ends, [UserFetch(q)]);
    RunOne(s1, BufferEnds, [ends, UserFetch(q)]);
    RunOne(s0, UserFetch(p), [BufferEnds, ends, UserFetch(q)]);
  }

  // ---------------------------------------------------------------- what RESET does not do

  /** Nothing that starts a fetch. */
  predicate Quiet<P, X>(e: Event<P, X>) {
    !e.UserFetch? && !e.UserReload?
  }

  ghost predicate QuietRun<P, X>(s: State<P, X>, events: seq<Event<P, X>>) {
    Legal(s, events) && forall i :: 0 <= i < |events| ==> Quiet(events[i])
  }

  /** Whatever ends, the store is empty and stays so until the next FETCH or RELOAD. */
  ghost predicate StaysBlank<P(!new), X(!new)>(s: State<P, X>) {
    forall events :: QuietRun(s, events) ==> Blank(Run(s, events).store)
  }

  lemma {:induction false} IdleStaysBlank<P, X>(s: State<P, X>, events: seq<Event<P, X>>)
    requires s.task.Idle? && Blank(s.store) && QuietRun(s, events)
    ensures Blank(Run(s, events).store)
    decreases |events|
  {
    if events != [] {
      assert Quiet(events[0]);
      IdleStaysBlank(Step(s, events[0]), events[1..]);
    }
  }

  /** A fetch that is live still reports, an error say. */
  lemma LiveFetchReports<P, X>(s: State<P, X>) returns (events: seq<Event<P, X>>)
    requires Inv(s) && !s.task.Idle?
    ensures QuietRun(s, events) && !Blank(Run(s, events).store)
  {
    if s.task.Joining? {
      events := [LoadEnds(s.task.load, Bad(""))];
      RunOne(s, events[0], []);
    } else {
      var ends: Event<P, X> := LoadEnds(|s.loads|, Bad(""));
      var t := Step(s, BufferEnds);
      RunOne(t, ends, []);
      RunOne(s, BufferEnds, [ends]);
      events := [BufferEnds, ends];
    }
  }

  lemma {:induction false} RunOne<P, X>(s: State<P, X>, e: Event<P, X>, rest: seq<Event<P, X>>)
    requires Enabled(s, e) && Legal(Step(s, e), rest)
    ensures Legal(s, [e] + rest)
    ensures Run(s, [e] + rest) == Run(Step(s, e), rest)
  {
    hide Step, Enabled;
    assert ([e] + rest)[1..] == rest;
  }

  /** In every reachable state: RESET empties the store until the next FETCH or RELOAD exactly when no fetch is live. */
  lemma ResetStaysIff<P(!new), X(!new)>(s: State<P, X>)
    requires Inv(s)
    ensures Blank(Step(s, UserReset).store)
    ensures StaysBlank(Step(s, UserReset)) <==> s.task.Idle?
  {
    hide Inv;
    var t := Step(s, UserReset);
    StepKeepsInv(s, UserReset);
    if s.task.Idle? {
      forall events | QuietRun(t, events)
        ensures Blank(Run(t, events).store)
      {
        IdleStaysBlank(t, events);
      }
    } else {
      var events := LiveFetchReports(t);
    }
  }

  /** RELOAD before the first FETCH does nothing. */
  lemma EarlyReloadIsIgnored<P, X>(s: State<P, X>)
    requires Inv(s) && s.started == 0
    ensures Step(s, UserReload) == s
  {
  }
}
