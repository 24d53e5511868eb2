/**
 The searchable, paged list: a store of reducers and the sagas that load, search and fetch
 the next page. The saga of a newer LOAD, RELOAD or SEARCH cancels the older one, so a
 response reaches the store only while the search that asked for it is still the live one.
 A handler runs to its next wait in one step.
 */
module SearchList {
  import opened Strings

  /** The server's whole answer for every query, and the page size. */
  datatype Server<!Param, !Keyword, Item> = Server(
    results: (Param, Keyword) -> seq<Item>,
    pageSize: nat,
    defaultKeyword: Keyword)

  datatype Store<Param, Keyword, Item> = Store(
    param: Option<Param>,
    pendingKeyword: Keyword,
    keyword: Keyword,
    list: Option<seq<Item>>,
    totalCount: Option<nat>,
    nomore: bool,
    loadingMore: bool)

  datatype Action<Param, Keyword, Item> =
    | Load(loaded: Param)
    | LoadStart(param: Param)
    | SetPendingSearchParams(pending: Keyword)
    | Search(keyword: Keyword)
    | Reset
    | Reload
    | SearchDone(done: Keyword)
    | SetList(list: seq<Item>)
    | SetTotalCount(total: nat)
    | More
    | NoMore

  /** The reducers, one per field. */
  function Reduce<Param, Keyword, Item>(s: Store<Param, Keyword, Item>, a: Action<Param, Keyword, Item>,
                                        initial: Keyword)
    : Store<Param, Keyword, Item>
  {
    Store(
      if a.LoadStart? then Some(a.param) else s.param,
      match a
        case SetPendingSearchParams(k) => k
        case Search(k) => k
        case LoadStart(_) => initial
        case Reset => initial
        case _ => s.pendingKeyword,
      match a
        case SearchDone(k) => k
        case LoadStart(_) => initial
        case Reset => initial
        case _ => s.keyword,
      match a
        case SetList(list) => Some(list)
        case LoadStart(_) => None
        case Search(_) => None
        case Reset => None
        case _ => s.list,
      match a
        case SetTotalCount(n) => Some(n)
        case LoadStart(_) => None
        case Reset => None
        case Search(_) => None
        case _ => s.totalCount,
      if a.NoMore? then true
      else if a.LoadStart? || a.Reset? || a.Search? || a.Reload? then false else s.nomore,
      if a.More? then true
      else if a.SetList? || a.LoadStart? || a.Reset? || a.Search? || a.Reload? then false else s.loadingMore)
  }

  /** The search saga: its local variables and where it waits. `pages` counts its successful fetches. */
  datatype Task<Param, Keyword, Item> =
    | Idle
    | Fetching(baseParam: Param, keyword: Keyword, list: seq<Item>, pages: nat)
    | AwaitingMore(baseParam: Param, keyword: Keyword, list: seq<Item>, pages: nat)
    | Finished(baseParam: Param, keyword: Keyword, list: seq<Item>, pages: nat)

  /** `watching` is the parameter of the live LOAD, whose sagas listen to RELOAD and SEARCH. */
  datatype State<Param, Keyword, Item> = State(
    store: Store<Param, Keyword, Item>,
    watching: Option<Param>,
    task: Task<Param, Keyword, Item>)

  /** What the outside can do next: dispatch an action, or settle the request of the live search. */
  datatype Event<Param, Keyword, Item> =
    | UserLoad(param: Param)
    | UserReload
    | UserReset
    | UserInput(keyword: Keyword)
    | UserSearch(keyword: Keyword)
    | UserMore
    | PageArrives
    | PageFails

  function Initial<Param, Keyword, Item>(server: Server<Param, Keyword, Item>): State<Param, Keyword, Item> {
    State(Store(None, server.defaultKeyword, server.defaultKeyword, None, None, false, false), None, Idle)
  }

  /** The page the server answers with. */
  function Page<Item>(all: seq<Item>, offset: nat, limit: nat): seq<Item> {
    if offset >= |all| then [] else if offset + limit <= |all| then all[offset..offset + limit] else all[offset..]
  }

  /** A new search starts with the pending keyword and an empty list of its own. */
  function StartSearch<Param, Keyword, Item>(store: Store<Param, Keyword, Item>, baseParam: Param)
    : Task<Param, Keyword, Item>
  {
    Fetching(baseParam, store.pendingKeyword, [], 0)
  }

  function StartLoad<Param, Keyword, Item>(server: Server<Param, Keyword, Item>, s: Store<Param, Keyword, Item>,
                                           param: Param)
    : State<Param, Keyword, Item>
  {
    var store := Reduce(s, LoadStart(param), server.defaultKeyword);
    State(store, Some(param), StartSearch(store, param))
  }

  /** The live search receives a page: it installs keyword, list and count, and stops when the list is whole. */
  function Receive<Param, Keyword, Item>(server: Server<Param, Keyword, Item>, s: State<Param, Keyword, Item>)
    : State<Param, Keyword, Item>
    requires s.task.Fetching?
  {
    var Fetching(baseParam, keyword, list, pages) := s.task;
    var all := server.results(baseParam, keyword);
    var whole := list + Page(all, |list|, server.pageSize);
    var done := Reduce(s.store, SearchDone(keyword), server.defaultKeyword);
    var listed := Reduce(done, SetList(whole), server.defaultKeyword);
    var counted :=
      if listed.totalCount == Some(|all|) then listed else Reduce(listed, SetTotalCount(|all|), server.defaultKeyword);
    if |whole| == |all| then
      s.(store := Reduce(counted, NoMore, server.defaultKeyword),
         task := Finished(baseParam, keyword, whole, pages + 1))
    else
      s.(store := counted, task := AwaitingMore(baseParam, keyword, whole, pages + 1))
  }

  function Step<Param, Keyword, Item>(server: Server<Param, Keyword, Item>, s: State<Param, Keyword, Item>,
                                      e: Event<Param, Keyword, Item>): State<Param, Keyword, Item> {
    match e
    case UserLoad(p) => StartLoad(server, Reduce(s.store, Load(p), server.defaultKeyword), p)
    case UserReload =>
      var store := Reduce(s.store, Reload, server.defaultKeyword);
      if s.watching.Some? then StartLoad(server, store, s.watching.value) else s.(store := store)
    case UserReset => s.(store := Reduce(s.store, Reset, server.defaultKeyword))
    case UserInput(k) => s.(store := Reduce(s.store, SetPendingSearchParams(k), server.defaultKeyword))
    case UserSearch(k) =>
      var store := Reduce(s.store, Search(k), server.defaultKeyword);
      if s.watching.Some? then s.(store := store, task := StartSearch(store, s.watching.value)) else s.(store := store)
    case UserMore =>
      var store := Reduce(s.store, More, server.defaultKeyword);
      if s.task.AwaitingMore? then
        s.(store := store, task := Fetching(s.task.baseParam, s.task.keyword, s.task.list, s.task.pages))
      else s.(store := store)
    case PageArrives => if s.task.Fetching? then Receive(server, s) else s
    case PageFails =>
      if s.task.Fetching? then
        s.(task := AwaitingMore(s.task.baseParam, s.task.keyword, s.task.list, s.task.pages))
      else s
  }

  // ---------------------------------------------------------------- what every run keeps

  predicate Prefix<Item(==)>(a: seq<Item>, b: seq<Item>) {
    |a| <= |b| && a == b[..|a|]
  }

  /** The list shown begins the server's answer to the query shown, and is the whole of it once `nomore` says so. */
  ghost predicate ShowsOneQuery<Param, Keyword, Item>(server: Server<Param, Keyword, Item>,
                                                      s: Store<Param, Keyword, Item>) {
    (s.list.Some? ==> s.param.Some? && Prefix(s.list.value, server.results(s.param.value, s.keyword))) &&
    (s.nomore ==> s.list.Some? && s.list.value == server.results(s.param.value, s.keyword)) &&
    (s.totalCount.Some? ==> s.param.Some? && s.totalCount.value == |server.results(s.param.value, s.keyword)|)
  }

  /** After `pages` successful fetches the search holds that many pages of its own query. */
  ghost predicate Paged<Param, Keyword, Item>(server: Server<Param, Keyword, Item>, t: Task<Param, Keyword, Item>)
    requires !t.Idle?
  {
    var all := server.results(t.baseParam, t.keyword);
    Prefix(t.list, all) &&
    |t.list| == (if t.pages * server.pageSize < |all| then t.pages * server.pageSize else |all|) &&
    (t.Finished? ==> t.list == all && 0 < t.pages && (t.pages == 1 || (t.pages - 1) * server.pageSize < |all|)) &&
    (!t.Finished? && t.pages > 0 ==> t.pages * server.pageSize < |all|)
  }

  ghost predicate Inv<Param, Keyword, Item>(server: Server<Param, Keyword, Item>, s: State<Param, Keyword, Item>) {
    ShowsOneQuery(server, s.store) && s.store.param == s.watching &&
    (!s.task.Idle? ==> s.watching == Some(s.task.baseParam) && Paged(server, s.task)) &&
    (s.watching.None? ==> s.task.Idle?) && (s.store.nomore ==> s.task.Finished?)
  }

  lemma PageExtends<Item>(all: seq<Item>, pages: nat, size: nat)
    requires size > 0 && (pages > 0 ==> pages * size < |all|)
    ensures var offset := if pages * size < |all| then pages * size else |all|;
      var whole := all[..offset] + Page(all, offset, size);
      Prefix(whole, all) && (|whole| == |all| ==> whole == all) &&
      |whole| == (if (pages + 1) * size < |all| then (pages + 1) * size else |all|)
  {
  }

  lemma ReceiveKeepsInv<Param, Keyword, Item>(server: Server<Param, Keyword, Item>, s: State<Param, Keyword, Item>)
    requires server.pageSize > 0 && Inv(server, s) && s.task.Fetching?
    ensures Inv(server, Receive(server, s))
    ensures Receive(server, s).task.pages == s.task.pages + 1
    ensures Receive(server, s).task.Finished? ==> Receive(server, s).store.nomore
  {
    hide Page;
    var all := server.results(s.task.baseParam, s.task.keyword);
    PageExtends(all, s.task.pages, server.pageSize);
    assert s.task.list == all[..|s.task.list|];
    var after := Receive(server, s);
    assert after.task.pages - 1 == s.task.pages;
    assert Paged(server, after.task);
    assert ShowsOneQuery(server, after.store);
  }

  /** Every event keeps the invariant, in whatever order they come. */
  lemma StepKeepsInv<Param, Keyword, Item>(server: Server<Param, Keyword, Item>, s: State<Param, Keyword, Item>,
                                           e: Event<Param, Keyword, Item>)
    requires server.pageSize > 0 && Inv(server, s)
    ensures Inv(server, Step(server, s, e))
  {
    hide Receive;
    if e.PageArrives? && s.task.Fetching? {
      ReceiveKeepsInv(server, s);
    }
  }

  function Run<Param, Keyword, Item>(server: Server<Param, Keyword, Item>, s: State<Param, Keyword, Item>,
                                     events: seq<Event<Param, Keyword, Item>>): State<Param, Keyword, Item>
    decreases |events|
  {
    if events == [] then s else Run(server, Step(server, s, events[0]), events[1..])
  }

  lemma {:induction false} RunKeepsInv<Param, Keyword, Item>(
    server: Server<Param, Keyword, Item>, s: State<Param, Keyword, Item>, events: seq<Event<Param, Keyword, Item>>)
    requires server.pageSize > 0 && Inv(server, s)
    ensures Inv(server, Run(server, s, events))
    decreases |events|
  {
    hide Inv, Step;
    if events != [] {
      StepKeepsInv(server, s, events[0]);
      RunKeepsInv(server, Step(server, s, events[0]), events[1..]);
    }
  }

  /** Over every run the list is never a mix of two searches. */
  lemma {:induction false} NeverAMix<Param, Keyword, Item>(server: Server<Param, Keyword, Item>,
                                                           events: seq<Event<Param, Keyword, Item>>)
    requires server.pageSize > 0
    ensures ShowsOneQuery(server, Run(server, Initial(server), events).store)
  {
    hide Run;
    RunKeepsInv(server, Initial(server), events);
  }

  // ---------------------------------------------------------------- the query shown is the one asked for

  /** What SEARCH said last, unless LOAD or RELOAD came later: then the default. */
  function LastSearched<Param, Keyword, Item>(server: Server<Param, Keyword, Item>,
                                              events: seq<Event<Param, Keyword, Item>>): Keyword {
    if events == [] then server.defaultKeyword
    else
      var last := events[|events| - 1];
      if last.UserSearch? then last.keyword
      else if last.UserLoad? || last.UserReload? then server.defaultKeyword
      else LastSearched(server, events[..|events| - 1])
  }

  /** What the pending keyword is: the last one typed or searched for, unless it was set back later. */
  function LastTyped<Param, Keyword, Item>(server: Server<Param, Keyword, Item>,
                                           events: seq<Event<Param, Keyword, Item>>): Keyword {
    if events == [] then server.defaultKeyword
    else
      var front, last := events[..|events| - 1], events[|events| - 1];
      if last.UserSearch? || last.UserInput? then last.keyword
      else if last.UserLoad? || last.UserReset? then server.defaultKeyword
      else if last.UserReload? && LastLoaded(front).Some? then server.defaultKeyword
      else LastTyped(server, front)
  }

  function LastLoaded<Param, Keyword, Item>(events: seq<Event<Param, Keyword, Item>>): Option<Param> {
    if events == [] then None
    else
      var last := events[|events| - 1];
      if last.UserLoad? then Some(last.param) else LastLoaded(events[..|events| - 1])
  }

  lemma {:induction false} RunSnoc<Param, Keyword, Item>(server: Server<Param, Keyword, Item>,
                                                         s: State<Param, Keyword, Item>,
                                                         events: seq<Event<Param, Keyword, Item>>)
    requires events != []
    ensures Run(server, s, events) == Step(server, Run(server, s, events[..|events| - 1]), events[|events| - 1])
    decreases |events|
  {
    hide Step;
    var front := events[..|events| - 1];
    if |events| > 1 {
      assert events[1..][..|events| - 2] == front[1..];
      RunSnoc(server, Step(server, s, events[0]), events[1..]);
    }
  }

  /** The live search asks the last LOAD's parameter for the keyword the user searched for last. */
  ghost predicate AsksLast<Param, Keyword, Item>(server: Server<Param, Keyword, Item>, s: State<Param, Keyword, Item>,
                                                 events: seq<Event<Param, Keyword, Item>>) {
    s.watching == LastLoaded(events) && s.store.param == LastLoaded(events) &&
    s.store.pendingKeyword == LastTyped(server, events) &&
    (s.task.Idle? <==> LastLoaded(events).None?) &&
    (!s.task.Idle? ==> s.task.keyword == LastSearched(server, events) && Some(s.task.baseParam) == LastLoaded(events))
  }

  /** Over every run the live search is the one asked for last. */
  lemma {:induction false} RunAsksLast<Param, Keyword, Item>(server: Server<Param, Keyword, Item>,
                                                             events: seq<Event<Param, Keyword, Item>>)
    ensures AsksLast(server, Run(server, Initial(server), events), events)
    decreases |events|
  {
    hide Run, LastTyped, LastLoaded, LastSearched;
    if events == [] {
      InitiallyAsksNothing(server);
    } else {
      var front := events[..|events| - 1];
      RunAsksLast(server, front);
      RunSnoc(server, Initial(server), events);
      LastStep(server, events);
    }
  }

  lemma {:induction false} InitiallyAsksNothing<Param, Keyword, Item>(server: Server<Param, Keyword, Item>)
    ensures Run(server, Initial(server), []) == Initial(server)
    ensures AsksLast(server, Initial(server), [])
  {
  }

  lemma LastStep<Param, Keyword, Item>(server: Server<Param, Keyword, Item>, events: seq<Event<Param, Keyword, Item>>)
    requires events != []
    ensures var front, last := events[..|events| - 1], events[|events| - 1];
      LastSearched(server, events) ==
        (if last.UserSearch? then last.keyword
         else if last.UserLoad? || last.UserReload? then server.defaultKeyword else LastSearched(server, front)) &&
      LastTyped(server, events) ==
        (if last.UserSearch? || last.UserInput? then last.keyword
         else if last.UserLoad? || last.UserReset? then server.defaultKeyword
         else if last.UserReload? && LastLoaded(front).Some? then server.defaultKeyword
         else LastTyped(server, front)) &&
      LastLoaded(events) == if last.UserLoad? then Some(last.param) else LastLoaded(front)
  {
  }

  /** SEARCH, LOAD and RELOAD each start over with an empty list and their keyword. */
  lemma SearchStarts<Param, Keyword, Item>(server: Server<Param, Keyword, Item>, s: State<Param, Keyword, Item>,
                                           keyword: Keyword, param: Param)
    ensures var t := Step(server, s, UserSearch(keyword));
      t.store.list.None? && t.store.totalCount.None? && !t.store.nomore && !t.store.loadingMore &&
      (s.watching.Some? ==> t.task == Fetching(s.watching.value, keyword, [], 0))
    ensures var t := Step(server, s, UserLoad(param));
      t.task == Fetching(param, server.defaultKeyword, [], 0) &&
      t.store == Store(Some(param), server.defaultKeyword, server.defaultKeyword, None, None, false, false)
    ensures s.watching.Some? ==> Step(server, s, UserReload) == Step(server, s, UserLoad(s.watching.value))
    ensures var t := Step(server, s, UserReset);
      t.task == s.task && t.watching == s.watching &&
      t.store == Store(s.store.param, server.defaultKeyword, server.defaultKeyword, None, None, false, false)
  {
  }

  /**
   Over every run, whatever was typed, reset or failed in between: the page that arrives shows the
   answer to what was searched for last, as far as it has been fetched, with its whole count.
   */
  lemma {:induction false} ArrivalShowsWhatWasAsked<Param, Keyword, Item>(server: Server<Param, Keyword, Item>,
                                                                          events: seq<Event<Param, Keyword, Item>>)
    requires server.pageSize > 0 && Run(server, Initial(server), events).task.Fetching?
    ensures var s := Run(server, Initial(server), events);
      var t := Step(server, s, PageArrives);
      t.store.keyword == LastSearched(server, events) && t.store.param == LastLoaded(events) && t.store.param.Some? &&
      var all := server.results(t.store.param.value, t.store.keyword);
      var shown := (s.task.pages + 1) * server.pageSize;
      t.store.list == Some(if shown < |all| then all[..shown] else all) && t.store.totalCount == Some(|all|) &&
      (t.store.nomore <==> shown >= |all|) && !t.store.loadingMore
  {
    hide Run, LastSearched, LastLoaded, LastTyped;
    RunAsksLast(server, events);
    RunKeepsInv(server, Initial(server), events);
    ArrivalShows(server, Run(server, Initial(server), events));
  }

  lemma ArrivalShows<Param, Keyword, Item>(server: Server<Param, Keyword, Item>, s: State<Param, Keyword, Item>)
    requires server.pageSize > 0 && Inv(server, s) && s.task.Fetching?
    ensures var t := Step(server, s, PageArrives);
      var all := server.results(s.task.baseParam, s.task.keyword);
      var shown := (s.task.pages + 1) * server.pageSize;
      t.store.keyword == s.task.keyword && t.store.param == Some(s.task.baseParam) &&
      t.store.list == Some(if shown < |all| then all[..shown] else all) && t.store.totalCount == Some(|all|) &&
      (t.store.nomore <==> shown >= |all|) && !t.store.loadingMore
  {
    hide Page;
    var all := server.results(s.task.baseParam, s.task.keyword);
    PageExtends(all, s.task.pages, server.pageSize);
    assert s.task.list == all[..|s.task.list|];
  }

  /**
   MORE shows as loading until a page arrives or the list starts over; typing, a failed page and, but
   for the marks, a RELOAD without a list leave the list as it is.
   */
  lemma LoadingMore<Param, Keyword, Item>(server: Server<Param, Keyword, Item>, s: State<Param, Keyword, Item>,
                                          keyword: Keyword)
    ensures Step(server, s, UserInput(keyword)) == s.(store := s.store.(pendingKeyword := keyword))
    ensures s.watching.None? ==>
      Step(server, s, UserReload) == s.(store := s.store.(nomore := false, loadingMore := false))
    ensures Step(server, s, UserMore).store == s.store.(loadingMore := true)
    ensures Step(server, s, PageFails).store == s.store
    ensures s.task.AwaitingMore? ==>
      var t := Step(server, Step(server, s, UserMore), PageFails);
      t.task == s.task && t.store == s.store.(loadingMore := true)
  {
  }

  // ---------------------------------------------------------------- paging ends

  /** One page for an empty answer, else as many as it takes. */
  function PagesFor(total: nat, size: nat): nat
    requires size > 0
  {
    if total == 0 then 1 else (total + size - 1) / size
  }

  lemma MulMonotone(a: nat, b: nat, c: nat)
    requires a <= b
    ensures a * c <= b * c
  {
  }

  lemma CeilingBounds(total: nat, size: nat)
    requires size > 0 && total > 0
    ensures PagesFor(total, size) >= 1
    ensures (PagesFor(total, size) - 1) * size < total <= PagesFor(total, size) * size
  {
  }

  /** `pages` pages fall short of the answer exactly while they are fewer than it takes. */
  lemma FallsShort(total: nat, size: nat, pages: nat)
    requires size > 0 && 0 < pages
    ensures pages * size < total <==> pages < PagesFor(total, size)
  {
    hide PagesFor;
    if total > 0 {
      CeilingBounds(total, size);
      var q := PagesFor(total, size);
      if pages < q {
        MulMonotone(pages, q - 1, size);
      } else {
        MulMonotone(q, pages, size);
      }
    } else {
      EmptyTakesOne(size);
    }
  }

  lemma EmptyTakesOne(size: nat)
    requires size > 0
    ensures PagesFor(0, size) == 1
  {
  }

  /** No search fetches more pages than its answer has, and the last of them finishes it. */
  lemma PagesAreBounded<Param, Keyword, Item>(server: Server<Param, Keyword, Item>, s: State<Param, Keyword, Item>)
    requires server.pageSize > 0 && Inv(server, s) && !s.task.Idle?
    ensures var enough := PagesFor(|server.results(s.task.baseParam, s.task.keyword)|, server.pageSize);
      s.task.pages <= enough && (s.task.Finished? <==> s.task.pages == enough)
  {
    hide PagesFor;
    var total := |server.results(s.task.baseParam, s.task.keyword)|;
    if total > 0 {
      CeilingBounds(total, server.pageSize);
    } else {
      EmptyTakesOne(server.pageSize);
    }
    if s.task.pages > 0 {
      FallsShort(total, server.pageSize, s.task.pages);
    }
    if s.task.pages > 1 {
      FallsShort(total, server.pageSize, s.task.pages - 1);
    }
  }

  /** The user asks for more and the request fails, `failures` times, until the page arrives. */
  function Ask<Param, Keyword, Item>(failures: nat): seq<Event<Param, Keyword, Item>> {
    if failures == 0 then [UserMore, PageArrives] else [UserMore, PageFails] + Ask(failures - 1)
  }

  /** One page asked for after another, each with its own number of failures first. */
  function AskForMore<Param, Keyword, Item>(failures: seq<nat>): seq<Event<Param, Keyword, Item>> {
    if failures == [] then [] else Ask(failures[0]) + AskForMore(failures[1..])
  }

  /** A failed page leaves the store as it is and asking again repeats the request: only what arrives matters. */
  lemma {:induction false} FailuresLoseNothing<Param, Keyword, Item>(
    server: Server<Param, Keyword, Item>, s: State<Param, Keyword, Item>, failures: nat,
    rest: seq<Event<Param, Keyword, Item>>)
    requires s.task.AwaitingMore?
    ensures Run(server, s, Ask(failures) + rest) ==
      Run(server, Step(server, Step(server, s, UserMore), PageArrives), rest)
    decreases failures
  {
    hide Receive;
    var events := Ask(failures) + rest;
    var asked := Step(server, s, UserMore);
    if failures == 0 {
      assert events[1..][1..] == rest;
    } else {
      var failed := Step(server, asked, PageFails);
      assert failed.store == asked.store;
      assert Step(server, failed, UserMore) == asked;
      assert events[1..][1..] == Ask(failures - 1) + rest;
      FailuresLoseNothing(server, failed, failures - 1, rest);
    }
  }

  lemma AskOnce<Param, Keyword, Item>(server: Server<Param, Keyword, Item>, s: State<Param, Keyword, Item>)
    requires server.pageSize > 0 && Inv(server, s) && s.task.AwaitingMore?
    ensures var next := Step(server, Step(server, s, UserMore), PageArrives);
      Inv(server, next) && next.task.pages == s.task.pages + 1 && !next.task.Idle? && !next.task.Fetching? &&
      next.task.baseParam == s.task.baseParam && next.task.keyword == s.task.keyword &&
      next.store.list == Some(next.task.list) && next.store.param == Some(next.task.baseParam) &&
      next.store.keyword == next.task.keyword && (next.task.Finished? ==> next.store.nomore)
  {
    var asked := Step(server, s, UserMore);
    StepKeepsInv(server, s, UserMore);
    ReceiveKeepsInv(server, asked);
  }

  /** Asking for exactly the missing pages, through any failures, brings the whole answer and reports it whole. */
  lemma {:induction false} AskingFinishes<Param, Keyword, Item>(
    server: Server<Param, Keyword, Item>, s: State<Param, Keyword, Item>, failures: seq<nat>)
    requires server.pageSize > 0 && Inv(server, s) && s.task.AwaitingMore? && failures != []
    requires s.task.pages + |failures| == PagesFor(|server.results(s.task.baseParam, s.task.keyword)|, server.pageSize)
    ensures var after := Run(server, s, AskForMore(failures));
      after.task.Finished? && after.store.nomore &&
      after.store.list == Some(server.results(s.task.baseParam, s.task.keyword)) &&
      after.store.keyword == s.task.keyword
    decreases |failures|
  {
    hide Inv, Step, PagesFor, Ask, Run;
    var next := Step(server, Step(server, s, UserMore), PageArrives);
    FailuresLoseNothing(server, s, failures[0], AskForMore(failures[1..]));
    AskOnce(server, s);
    PagesAreBounded(server, next);
    if |failures| == 1 {
      FinishedHoldsAll(server, next);
      assert AskForMore<Param, Keyword, Item>(failures[1..]) == [];
      RunNothing(server, next);
    } else {
      AskingFinishes(server, next, failures[1..]);
    }
  }

  lemma {:induction false} RunNothing<Param, Keyword, Item>(server: Server<Param, Keyword, Item>,
                                                            s: State<Param, Keyword, Item>)
    ensures Run(server, s, []) == s
  {
  }

  lemma FinishedHoldsAll<Param, Keyword, Item>(server: Server<Param, Keyword, Item>, s: State<Param, Keyword, Item>)
    requires Inv(server, s) && s.task.Finished?
    ensures s.task.list == server.results(s.task.baseParam, s.task.keyword)
  {
  }
}
