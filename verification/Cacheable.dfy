/**
 Caching the results of a function by its arguments: `once` over the `ttl` cache, whose entries
 expire, and over the `untilChange` cache.

 Arguments are given as their JSON text. `None` is any falsy result, which is never cached. The
 function may answer differently at different times. Expiry timers fire when their time comes,
 before anything else that happens at or after that time.
 */
module Cacheable {
  import opened Strings

  type Function<!R> = (string, nat) -> Option<R>

  datatype Timer = Timer(key: string, due: nat)

  /** One call of the function. */
  datatype Call<R> = Call(key: string, at: nat, result: Option<R>)

  datatype State<R> = State(resultMap: map<string, R>, timers: seq<Timer>, now: nat, calls: seq<Call<R>>)

  function Empty<R>(): State<R> {
    State(map[], [], 0, [])
  }

  function Lookup<R>(m: map<string, R>, key: string): Option<R> {
    if key in m then Some(m[key]) else None
  }

  function Stored<R>(ms: nat, s: State<R>, key: string, result: Option<R>): State<R> {
    if result.None? then s
    else s.(resultMap := s.resultMap[key := result.value], timers := s.timers + [Timer(key, s.now + ms)])
  }

  /** A call through the cache: the function runs when nothing is stored. */
  function Called<R>(ms: nat, s: State<R>, f: Function<R>, key: string): State<R> {
    if key in s.resultMap then s
    else
      var result := f(key, s.now);
      Stored(ms, s.(calls := s.calls + [Call(key, s.now, result)]), key, result)
  }

  function Answer<R>(ms: nat, s: State<R>, f: Function<R>, key: string): Option<R> {
    Lookup(Called(ms, s, f, key).resultMap, key)
  }

  function Due(timers: seq<Timer>, now: nat): set<string> {
    if timers == [] then {}
    else
      var last := timers[|timers| - 1];
      Due(timers[..|timers| - 1], now) + if last.due <= now then {last.key} else {}
  }

  function Waiting(timers: seq<Timer>, now: nat): seq<Timer> {
    if timers == [] then []
    else
      var last := timers[|timers| - 1];
      Waiting(timers[..|timers| - 1], now) + if last.due <= now then [] else [last]
  }

  function Advanced<R>(s: State<R>, d: nat): State<R> {
    State(s.resultMap - Due(s.timers, s.now + d), Waiting(s.timers, s.now + d), s.now + d, s.calls)
  }

  lemma {:induction false} NothingPending(now: nat)
    ensures Due([], now) == {} && Waiting([], now) == []
  {
  }

  lemma {:induction false} PendingStep(timers: seq<Timer>, i: nat, now: nat)
    requires i < |timers|
    ensures Due(timers[..i + 1], now) == Due(timers[..i], now) + if timers[i].due <= now then {timers[i].key} else {}
    ensures Waiting(timers[..i + 1], now) ==
      Waiting(timers[..i], now) + if timers[i].due <= now then [] else [timers[i]]
  {
    assert timers[..i + 1][..i] == timers[..i];
  }

  class TtlCache<R> {
    const ms: nat
    var resultMap: map<string, R>
    var timers: seq<Timer>
    var now: nat
    ghost var calls: seq<Call<R>>

    constructor (ms: nat)
      ensures this.ms == ms && View() == Empty()
    {
      this.ms := ms;
      resultMap, timers, now := map[], [], 0;
      calls := [];
    }

    ghost function View(): State<R>
      reads this
    {
      State.State(resultMap, timers, now, calls)
    }

    /** The cache method: stores a result if there is one, and reads. */
    method Cache(key: string, result: Option<R>) returns (r: Option<R>)
      modifies this`resultMap, this`timers
      ensures View() == Stored(ms, old(View()), key, result)
      ensures r == Lookup(resultMap, key)
    {
      if result.Some? {
        resultMap := resultMap[key := result.value];
        timers := timers + [Timer(key, now + ms)];
      }
      r := Lookup(resultMap, key);
    }

    /** What `once` makes of the function. */
    method Once(f: Function<R>, key: string) returns (r: Option<R>)
      modifies this
      ensures View() == Called(ms, old(View()), f, key)
      ensures r == Answer(ms, old(View()), f, key)
    {
      r := Cache(key, None);
      if r.None? {
        var result := f(key, now);
        calls := calls + [Call(key, now, result)];
        r := Cache(key, result);
      }
    }

    /** Time passes, and the timers that are due delete their entries. */
    method Advance(d: nat)
      modifies this
      ensures View() == Advanced(old(View()), d)
    {
      hide Due, Waiting;
      now := now + d;
      var pending := timers;
      timers := [];
      NothingPending(now);
      for i := 0 to |pending|
        invariant now == old(now) + d && calls == old(calls)
        invariant resultMap == old(resultMap) - Due(pending[..i], now)
        invariant timers == Waiting(pending[..i], now)
      {
        PendingStep(pending, i, now);
        if pending[i].due <= now {
          resultMap := resultMap - {pending[i].key};
        } else {
          timers := timers + [pending[i]];
        }
      }
      assert pending[..|pending|] == pending;
    }
  }

  datatype Event = CallFor(key: string) | Wait(d: nat)

  function Step<R>(ms: nat, s: State<R>, f: Function<R>, e: Event): State<R> {
    if e.CallFor? then Called(ms, s, f, e.key) else Advanced(s, e.d)
  }

  function Run<R>(ms: nat, s: State<R>, f: Function<R>, events: seq<Event>): State<R>
    decreases |events|
  {
    if events == [] then s else Run(ms, Step(ms, s, f, events[0]), f, events[1..])
  }

  // ---------------------------------------------------------------- every entry is a recent result

  /** The timer stands for the entry of its key: what a call of the function gave when it was stored. */
  predicate Backs<R(==)>(ms: nat, s: State<R>, f: Function<R>, t: Timer) {
    ms <= t.due && t.due - ms <= s.now <= t.due &&
    t.key in s.resultMap && f(t.key, t.due - ms) == Some(s.resultMap[t.key]) &&
    Call(t.key, t.due - ms, Some(s.resultMap[t.key])) in s.calls
  }

  ghost predicate DistinctKeys(timers: seq<Timer>) {
    forall i, j :: 0 <= i < j < |timers| ==> timers[i].key != timers[j].key
  }

  /** Every entry has exactly one pending expiry, and no expiry is without its entry. */
  ghost predicate Inv<R>(ms: nat, s: State<R>, f: Function<R>) {
    (forall t :: t in s.timers ==> Backs(ms, s, f, t)) &&
    DistinctKeys(s.timers) &&
    forall k :: k in s.resultMap ==> exists t :: t in s.timers && t.key == k
  }

  lemma {:induction false} WaitingAre(timers: seq<Timer>, now: nat, t: Timer)
    ensures t in Waiting(timers, now) <==> t in timers && t.due > now
    decreases |timers|
  {
    if timers != [] {
      WaitingAre(timers[..|timers| - 1], now, t);
      assert timers == timers[..|timers| - 1] + [timers[|timers| - 1]];
    }
  }

  lemma {:induction false} DueAre(timers: seq<Timer>, now: nat, k: string)
    ensures k in Due(timers, now) <==> exists t :: t in timers && t.key == k && t.due <= now
    decreases |timers|
  {
    if timers != [] {
      var front := timers[..|timers| - 1];
      DueAre(front, now, k);
      assert timers == front + [timers[|timers| - 1]];
    }
  }

  lemma {:induction false} WaitingDistinct(timers: seq<Timer>, now: nat)
    requires DistinctKeys(timers)
    ensures DistinctKeys(Waiting(timers, now))
    decreases |timers|
  {
    if timers != [] {
      var front, last := timers[..|timers| - 1], timers[|timers| - 1];
      WaitingDistinct(front, now);
      forall i | 0 <= i < |Waiting(front, now)|
        ensures Waiting(front, now)[i].key != last.key
      {
        WaitingAre(front, now, Waiting(front, now)[i]);
      }
    }
  }

  lemma SameTimer(timers: seq<Timer>, t: Timer, u: Timer)
    requires DistinctKeys(timers) && t in timers && u in timers && t.key == u.key
    ensures t == u
  {
  }

  /** A timer that is not due keeps its entry. */
  lemma {:induction false} StillBacked<R>(ms: nat, s: State<R>, f: Function<R>, d: nat, t: Timer)
    requires Inv(ms, s, f) && t in Waiting(s.timers, s.now + d)
    ensures t in s.timers && Backs(ms, Advanced(s, d), f, t)
  {
    hide DistinctKeys, Waiting, Due;
    WaitingAre(s.timers, s.now + d, t);
    DueAre(s.timers, s.now + d, t.key);
    if t.key in Due(s.timers, s.now + d) {
      var u :| u in s.timers && u.key == t.key && u.due <= s.now + d;
      SameTimer(s.timers, t, u);
    }
  }

  lemma AdvanceKeepsInv<R>(ms: nat, s: State<R>, f: Function<R>, d: nat)
    requires Inv(ms, s, f)
    ensures Inv(ms, Advanced(s, d), f)
  {
    hide DistinctKeys, Waiting, Due, Backs;
    var now := s.now + d;
    WaitingDistinct(s.timers, now);
    forall t | t in Waiting(s.timers, now)
      ensures Backs(ms, Advanced(s, d), f, t)
    {
      StillBacked(ms, s, f, d, t);
    }
    forall k | k in s.resultMap && k !in Due(s.timers, now)
      ensures exists t :: t in Waiting(s.timers, now) && t.key == k
    {
      var t :| t in s.timers && t.key == k;
      DueAre(s.timers, now, k);
      WaitingAre(s.timers, now, t);
    }
  }

  lemma CallKeepsInv<R>(ms: nat, s: State<R>, f: Function<R>, key: string)
    requires Inv(ms, s, f)
    ensures Inv(ms, Called(ms, s, f, key), f)
  {
    var r := Called(ms, s, f, key);
    if key !in s.resultMap && f(key, s.now).Some? {
      var added := Timer(key, s.now + ms);
      forall t | t in s.timers
        ensures t.key != key
      {
        assert Backs(ms, s, f, t);
      }
      forall t | t in r.timers
        ensures Backs(ms, r, f, t)
      {
        assert t == added || t in s.timers;
      }
      forall k | k in r.resultMap
        ensures exists t :: t in r.timers && t.key == k
      {
        if k == key {
          assert added in r.timers;
        } else {
          var t :| t in s.timers && t.key == k;
          assert t in r.timers;
        }
      }
    }
  }

  lemma EmptyInv<R>(ms: nat, f: Function<R>)
    ensures Inv(ms, Empty(), f)
  {
  }

  lemma {:induction false} RunKeepsInv<R>(ms: nat, s: State<R>, f: Function<R>, events: seq<Event>)
    requires Inv(ms, s, f)
    ensures Inv(ms, Run(ms, s, f, events), f)
    decreases |events|
  {
    hide Inv, Called, Advanced;
    if events != [] {
      if events[0].CallFor? {
        CallKeepsInv(ms, s, f, events[0].key);
      } else {
        AdvanceKeepsInv(ms, s, f, events[0].d);
      }
      RunKeepsInv(ms, Step(ms, s, f, events[0]), f, events[1..]);
    }
  }

  /** After any run, a call is answered with what a call of the function on the same arguments gave at most `ms` ago. */
  lemma AnswersAreRecent<R>(ms: nat, f: Function<R>, events: seq<Event>, key: string) returns (at: nat)
    ensures var s := Run(ms, Empty(), f, events);
      s.now - ms <= at <= s.now && Answer(ms, s, f, key) == f(key, at) &&
      Call(key, at, f(key, at)) in Called(ms, s, f, key).calls
  {
    hide Run, DistinctKeys;
    EmptyInv(ms, f);
    RunKeepsInv(ms, Empty(), f, events);
    var s := Run(ms, Empty(), f, events);
    at := s.now;
    if key in s.resultMap {
      var t :| t in s.timers && t.key == key;
      assert Backs(ms, s, f, t);
      at := t.due - ms;
    }
  }

  // ---------------------------------------------------------------- and the function runs no more than it must

  function TotalWait(events: seq<Event>): nat {
    if events == [] then 0 else (if events[0].Wait? then events[0].d else 0) + TotalWait(events[1..])
  }

  ghost predicate SameCalls<R>(before: seq<Call<R>>, after: seq<Call<R>>, key: string) {
    |before| <= |after| && after[..|before|] == before &&
    forall i :: |before| <= i < |after| ==> after[i].key != key
  }

  lemma CallKeepsEntry<R>(ms: nat, s: State<R>, f: Function<R>, key: string, t: Timer)
    requires Inv(ms, s, f) && t in s.timers
    ensures var r := Called(ms, s, f, key);
      t in r.timers && t.key in s.resultMap && t.key in r.resultMap && r.resultMap[t.key] == s.resultMap[t.key] &&
      r.now == s.now && SameCalls(s.calls, r.calls, t.key)
  {
  }

  lemma WaitKeepsEntry<R>(ms: nat, s: State<R>, f: Function<R>, d: nat, t: Timer)
    requires Inv(ms, s, f) && t in s.timers && s.now + d < t.due
    ensures var r := Advanced(s, d);
      t in r.timers && t.key in s.resultMap && t.key in r.resultMap && r.resultMap[t.key] == s.resultMap[t.key] &&
      r.now == s.now + d && r.calls == s.calls
  {
    hide DistinctKeys, Waiting, Due;
    assert Backs(ms, s, f, t);
    WaitingAre(s.timers, s.now + d, t);
    StillBacked(ms, s, f, d, t);
  }

  lemma SameCallsChain<R>(a: seq<Call<R>>, b: seq<Call<R>>, c: seq<Call<R>>, key: string)
    requires SameCalls(a, b, key) && SameCalls(b, c, key)
    ensures SameCalls(a, c, key)
  {
  }

  /** Until the entry expires it stays as it is and the function does not run for its key. */
  lemma {:induction false} EntryLives<R>(ms: nat, s: State<R>, f: Function<R>, events: seq<Event>, t: Timer)
    requires Inv(ms, s, f) && t in s.timers && s.now + TotalWait(events) < t.due
    ensures var r := Run(ms, s, f, events);
      t.key in s.resultMap && t.key in r.resultMap && r.resultMap[t.key] == s.resultMap[t.key] &&
      SameCalls(s.calls, r.calls, t.key)
    decreases |events|
  {
    hide Inv, Called, Advanced, SameCalls;
    NoNewCalls(s.calls, t.key);
    if events == [] {
      TimerHasEntry(ms, s, f, t);
    } else {
      var next := Step(ms, s, f, events[0]);
      if events[0].CallFor? {
        CallKeepsInv(ms, s, f, events[0].key);
        CallKeepsEntry(ms, s, f, events[0].key, t);
      } else {
        AdvanceKeepsInv(ms, s, f, events[0].d);
        WaitKeepsEntry(ms, s, f, events[0].d, t);
      }
      EntryLives(ms, next, f, events[1..], t);
      SameCallsChain(s.calls, next.calls, Run(ms, next, f, events[1..]).calls, t.key);
    }
  }

  lemma NoNewCalls<R>(calls: seq<Call<R>>, key: string)
    ensures SameCalls(calls, calls, key)
  {
  }

  lemma TimerHasEntry<R>(ms: nat, s: State<R>, f: Function<R>, t: Timer)
    requires Inv(ms, s, f) && t in s.timers
    ensures t.key in s.resultMap
  {
  }

  /** Time is what was waited. */
  lemma {:induction false} TimePasses<R>(ms: nat, s: State<R>, f: Function<R>, events: seq<Event>)
    ensures Run(ms, s, f, events).now == s.now + TotalWait(events)
    decreases |events|
  {
    hide Due, Waiting;
    if events != [] {
      TimePasses(ms, Step(ms, s, f, events[0]), f, events[1..]);
    }
  }

  /** When its time comes the entry is gone, and the next call runs the function again. */
  lemma EntryExpires<R>(ms: nat, s: State<R>, f: Function<R>, d: nat, t: Timer)
    requires t in s.timers && s.now + d >= t.due
    ensures t.key !in Advanced(s, d).resultMap
    ensures Called(ms, Advanced(s, d), f, t.key).calls ==
      s.calls + [Call(t.key, s.now + d, f(t.key, s.now + d))]
  {
    hide Waiting, Due;
    DueAre(s.timers, s.now + d, t.key);
  }

  /** A result that was stored keeps the function from running for its key for `ms`. */
  ghost predicate Spaced<R>(ms: nat, s: State<R>) {
    (forall c :: c in s.calls ==> c.at <= s.now) &&
    (forall c :: c in s.calls && c.result.Some? && s.now < c.at + ms ==> Timer(c.key, c.at + ms) in s.timers) &&
    forall i, j :: 0 <= i < j < |s.calls| && s.calls[i].key == s.calls[j].key && s.calls[i].result.Some? ==>
      s.calls[i].at + ms <= s.calls[j].at
  }

  lemma CallKeepsSpaced<R>(ms: nat, s: State<R>, f: Function<R>, key: string)
    requires Inv(ms, s, f) && Spaced(ms, s)
    ensures Spaced(ms, Called(ms, s, f, key))
  {
    hide Inv, Backs, DistinctKeys;
    if key !in s.resultMap {
      forall i | 0 <= i < |s.calls| && s.calls[i].result.Some? && s.calls[i].key == key
        ensures s.calls[i].at + ms <= s.now
      {
        NoTimer(ms, s, f, key, s.calls[i].at + ms);
        assert s.calls[i] in s.calls;
      }
      var r := Called(ms, s, f, key);
      forall c | c in r.calls
        ensures c.at <= r.now && (c.result.Some? && r.now < c.at + ms ==> Timer(c.key, c.at + ms) in r.timers)
      {
        assert c in s.calls || c == r.calls[|s.calls|];
      }
    }
  }

  lemma NoTimer<R>(ms: nat, s: State<R>, f: Function<R>, key: string, due: nat)
    requires Inv(ms, s, f) && key !in s.resultMap
    ensures Timer(key, due) !in s.timers
  {
    hide DistinctKeys;
    assert Timer(key, due) in s.timers ==> Backs(ms, s, f, Timer(key, due));
  }

  lemma AdvanceKeepsSpaced<R>(ms: nat, s: State<R>, d: nat)
    requires Spaced(ms, s)
    ensures Spaced(ms, Advanced(s, d))
  {
    hide Waiting, Due;
    forall c | c in s.calls && c.result.Some? && s.now + d < c.at + ms
      ensures Timer(c.key, c.at + ms) in Waiting(s.timers, s.now + d)
    {
      WaitingAre(s.timers, s.now + d, Timer(c.key, c.at + ms));
    }
  }

  lemma {:induction false} RunKeepsSpaced<R>(ms: nat, s: State<R>, f: Function<R>, events: seq<Event>)
    requires Inv(ms, s, f) && Spaced(ms, s)
    ensures Spaced(ms, Run(ms, s, f, events))
    decreases |events|
  {
    hide Inv, Spaced, Called, Advanced;
    if events != [] {
      if events[0].CallFor? {
        CallKeepsInv(ms, s, f, events[0].key);
        CallKeepsSpaced(ms, s, f, events[0].key);
      } else {
        AdvanceKeepsInv(ms, s, f, events[0].d);
        AdvanceKeepsSpaced(ms, s, events[0].d);
      }
      RunKeepsSpaced(ms, Step(ms, s, f, events[0]), f, events[1..]);
    }
  }

  /** Over every timed run the function runs at most once per key between a stored result and its expiry. */
  lemma {:induction false} AtMostOncePerExpiry<R>(ms: nat, f: Function<R>, events: seq<Event>, i: nat, j: nat)
    requires var calls := Run(ms, Empty(), f, events).calls;
      i < j < |calls| && calls[i].key == calls[j].key && calls[i].result.Some?
    ensures var calls := Run(ms, Empty(), f, events).calls; calls[i].at + ms <= calls[j].at
  {
    hide Run;
    EmptyInv(ms, f);
    RunKeepsSpaced(ms, Empty(), f, events);
  }

  // ---------------------------------------------------------------- untilChange

  /** The cache of the last arguments and result; nothing ever sets `lastArgs`. */
  class LastCache<R> {
    var lastArgs: Option<string>
    var lastResult: Option<R>
    ghost var calls: nat

    constructor ()
      ensures lastArgs == None && lastResult == None && calls == 0
    {
      lastArgs, lastResult, calls := None, None, 0;
    }

    method Cache(key: string, result: Option<R>) returns (r: Option<R>)
      modifies this`lastResult
      ensures r == if result.Some? then result else if lastArgs == Some(key) then old(lastResult) else None
    {
      if result.Some? {
        lastResult := result;
        return result;
      }
      r := if lastArgs == Some(key) then lastResult else None;
    }

    /**
     Contrary to its documentation this never reuses a result: from a new cache on, every call
     runs the function and answers with what it gives.
     */
    method Once(f: Function<R>, key: string, now: nat) returns (r: Option<R>)
      requires lastArgs.None?
      modifies this
      ensures lastArgs.None? && calls == old(calls) + 1
      ensures r == f(key, now)
    {
      r := Cache(key, None);
      if r.None? {
        calls := calls + 1;
        r := Cache(key, f(key, now));
      }
    }
  }
}
