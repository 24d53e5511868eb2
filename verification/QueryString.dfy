/**
 Page parameters in the URL: `stringify` writes them as a query string, leaving out defaults,
 and `parse` reads them back.
 */
module QueryString {
  import opened Strings
  import PercentEncoding

  /** A parameter value: text as it stands in the URL, or anything the page makes of it. */
  datatype Value<T> = Text(text: string) | Made(value: T)

  datatype Param<!T(==)> = Param(
    key: string,
    route: string,
    defaults: Value<T>,
    alwaysVisible: bool,
    parse: Value<T> -> Value<T>,
    stringify: Value<T> -> string)

  type Routes<T> = map<string, Value<T>>

  /** Whether the parameter appears in the URL: defined, and not merely the default. */
  predicate Shown<T>(p: Param<T>, routes: Routes<T>) {
    p.key in routes && (p.alwaysVisible || routes[p.key] != p.defaults)
  }

  function Pair<T>(p: Param<T>, value: Value<T>): string {
    PercentEncoding.Encode(p.route) + "=" + PercentEncoding.Encode(p.stringify(value))
  }

  function Pairs<T>(params: seq<Param<T>>, routes: Routes<T>): seq<string> {
    if params == [] then []
    else
      var front, last := params[..|params| - 1], params[|params| - 1];
      Pairs(front, routes) + if Shown(last, routes) then [Pair(last, routes[last.key])] else []
  }

  function Stringify<T>(params: seq<Param<T>>, routes: Routes<T>): string {
    var qs := Join(Pairs(params, routes), "&");
    if qs != "" then "?" + qs else ""
  }

  /** One `key=value` piece, decoded; a piece without `=` has the value `undefined`. */
  function Binding(kv: string): Option<(string, string)> {
    var pieces := Split(kv, '=');
    var k := PercentEncoding.Decode(pieces[0]);
    var v := if |pieces| > 1 then PercentEncoding.Decode(pieces[1]) else Some("undefined");
    if k.None? || v.None? then None else Some((k.value, v.value))
  }

  /** The object the pieces fill in order; `None` is the exception of a malformed escape. */
  function Bindings(kvs: seq<string>): Option<map<string, string>> {
    if kvs == [] then Some(map[])
    else
      var front, last := Bindings(kvs[..|kvs| - 1]), Binding(kvs[|kvs| - 1]);
      if front.None? || last.None? then None else Some(front.value[last.value.0 := last.value.1])
  }

  function ValueOf<T>(p: Param<T>, values: map<string, string>): Value<T> {
    p.parse(if p.route in values then Text(values[p.route]) else p.defaults)
  }

  function Collect<T>(params: seq<Param<T>>, values: map<string, string>): Routes<T> {
    if params == [] then map[]
    else
      var last := params[|params| - 1];
      Collect(params[..|params| - 1], values)[last.key := ValueOf(last, values)]
  }

  function QueryOf(url: string): string {
    var pieces := Split(url, '?');
    if |pieces| > 1 then pieces[1] else ""
  }

  /** What parsing means. */
  function Parsed<T>(params: seq<Param<T>>, url: string): Option<Routes<T>> {
    var values := Bindings(Split(QueryOf(url), '&'));
    if values.None? then None else Some(Collect(params, values.value))
  }

  method Parse<T>(params: seq<Param<T>>, url: string) returns (routes: Option<Routes<T>>)
    ensures routes == Parsed(params, url)
  {
    hide Binding, Split;
    var kvs := Split(QueryOf(url), '&');
    var values: map<string, string> := map[];
    for i := 0 to |kvs|
      invariant Bindings(kvs[..i]) == Some(values)
    {
      assert kvs[..i + 1][..i] == kvs[..i];
      var binding := Binding(kvs[i]);
      if binding.None? {
        MalformedPiece(kvs, i);
        return None;
      }
      values := values[binding.value.0 := binding.value.1];
    }
    assert kvs[..|kvs|] == kvs;
    var filled: Routes<T> := map[];
    for i := 0 to |params|
      invariant Collect(params[..i], values) == filled
    {
      assert params[..i + 1][..i] == params[..i];
      filled := filled[params[i].key := ValueOf(params[i], values)];
    }
    assert params[..|params|] == params;
    return Some(filled);
  }

  /** One malformed piece makes the whole parse throw. */
  lemma {:induction false} MalformedPiece(kvs: seq<string>, i: nat)
    requires i < |kvs| && Binding(kvs[i]).None?
    ensures Bindings(kvs).None?
    decreases |kvs|
  {
    hide Binding;
    if i < |kvs| - 1 {
      MalformedPiece(kvs[..|kvs| - 1], i);
    }
  }

  // ---------------------------------------------------------------- round trip

  /** Parameter lists as pages write them: every key and every nonempty URL name once. */
  ghost predicate WellFormed<T(!new)>(params: seq<Param<T>>) {
    (forall i :: 0 <= i < |params| ==> params[i].route != "") &&
    forall i, j :: 0 <= i < j < |params| ==> params[i].key != params[j].key && params[i].route != params[j].route
  }

  /** The parameter's own pair of functions gives back the value and the default. */
  ghost predicate Faithful<T(!new)>(p: Param<T>, value: Value<T>) {
    p.parse(Text(p.stringify(value))) == value && p.parse(p.defaults) == p.defaults
  }

  lemma PairIsPlain<T>(p: Param<T>, value: Value<T>)
    ensures Pair(p, value) != "" && '&' !in Pair(p, value) && '?' !in Pair(p, value)
    ensures Binding(Pair(p, value)) == Some((p.route, p.stringify(value)))
  {
    hide PercentEncoding.Encode, PercentEncoding.Decode, Split;
    var k, v := PercentEncoding.Encode(p.route), PercentEncoding.Encode(p.stringify(value));
    PercentEncoding.EncodedIsPlain(p.route);
    PercentEncoding.EncodedIsPlain(p.stringify(value));
    assert '=' !in k && '=' !in v && '&' !in k && '&' !in v && '?' !in k && '?' !in v;
    PercentEncoding.DecodeEncode(p.route);
    PercentEncoding.DecodeEncode(p.stringify(value));
    assert Pair(p, value) == k + ['='] + v;
    SplitHead(k, v, '=');
    SplitHead(v, "", '=');
  }

  lemma {:induction false} PairsArePlain<T>(params: seq<Param<T>>, routes: Routes<T>)
    ensures forall i :: 0 <= i < |Pairs(params, routes)| ==>
      Pairs(params, routes)[i] != "" && '&' !in Pairs(params, routes)[i] && '?' !in Pairs(params, routes)[i]
    decreases |params|
  {
    hide Pair, Shown;
    if params != [] {
      var front, last := params[..|params| - 1], params[|params| - 1];
      PairsArePlain(front, routes);
      if Shown(last, routes) {
        ShownIsDefined(last, routes);
        PairIsPlain(last, routes[last.key]);
      }
    }
  }

  lemma ShownIsDefined<T>(p: Param<T>, routes: Routes<T>)
    requires Shown(p, routes)
    ensures p.key in routes
  {
  }

  /** What the written pairs bind: the URL name of each parameter shown, to its text. */
  ghost predicate Binds<T(!new)>(values: map<string, string>, params: seq<Param<T>>, routes: Routes<T>) {
    (forall i :: 0 <= i < |params| && Shown(params[i], routes) ==>
      params[i].route in values && values[params[i].route] == params[i].stringify(routes[params[i].key])) &&
    forall name :: name in values ==>
      exists i :: 0 <= i < |params| && Shown(params[i], routes) && params[i].route == name
  }

  lemma {:induction false} PairsBind<T(!new)>(params: seq<Param<T>>, routes: Routes<T>)
    requires WellFormed(params)
    ensures Bindings(Pairs(params, routes)).Some?
    ensures Binds(Bindings(Pairs(params, routes)).value, params, routes)
    decreases |params|
  {
    hide Pair, Binding, Shown, Bindings, Binds;
    if params == [] {
      NothingBinds(params, routes);
    } else {
      var front, last := params[..|params| - 1], params[|params| - 1];
      PairsBind(front, routes);
      var pairs := Pairs(front, routes);
      if Shown(last, routes) {
        ShownIsDefined(last, routes);
        PairIsPlain(last, routes[last.key]);
        BindingsAppend(pairs, Pair(last, routes[last.key]));
      } else {
        assert Pairs(params, routes) == pairs;
      }
      BindsOneMore(Bindings(pairs).value, front, last, routes);
      assert params == front + [last];
    }
  }

  lemma {:induction false} NothingBinds<T(!new)>(params: seq<Param<T>>, routes: Routes<T>)
    requires params == []
    ensures Pairs(params, routes) == [] && Bindings([]) == Some(map[]) && Binds(map[], params, routes)
  {
  }

  lemma {:induction false} BindingsAppend(kvs: seq<string>, kv: string)
    requires Bindings(kvs).Some? && Binding(kv).Some?
    ensures Bindings(kvs + [kv]) == Some(Bindings(kvs).value[Binding(kv).value.0 := Binding(kv).value.1])
  {
  }

  lemma BindsOneMore<T(!new)>(values: map<string, string>, front: seq<Param<T>>, last: Param<T>, routes: Routes<T>)
    requires WellFormed(front + [last]) && Binds(values, front, routes)
    ensures !Shown(last, routes) ==> Binds(values, front + [last], routes)
    ensures Shown(last, routes) ==> last.key in routes
    ensures Shown(last, routes) ==>
      Binds(values[last.route := last.stringify(routes[last.key])], front + [last], routes)
  {
    var params := front + [last];
    assert forall i :: 0 <= i < |front| ==> params[i] == front[i];
    assert params[|front|] == last;
    assert forall i :: 0 <= i < |front| ==> params[i].route != params[|front|].route;
    if Shown(last, routes) {
      ShownIsDefined(last, routes);
    }
  }

  lemma {:induction false} JoinedIsPlain(pieces: seq<string>)
    requires forall i :: 0 <= i < |pieces| ==> pieces[i] != "" && '?' !in pieces[i]
    ensures '?' !in Join(pieces, "&") && (pieces != [] ==> Join(pieces, "&") != "")
  {
    if |pieces| > 1 {
      JoinedIsPlain(pieces[1..]);
    }
  }

  lemma {:induction false} QueryOfStringified<T>(params: seq<Param<T>>, routes: Routes<T>, base: string)
    requires '?' !in base
    ensures QueryOf(base + Stringify(params, routes)) == Join(Pairs(params, routes), "&")
  {
    hide Split, Pairs, Join;
    PairsArePlain(params, routes);
    JoinedIsPlain(Pairs(params, routes));
    var qs := Join(Pairs(params, routes), "&");
    SplitHead(base, qs, '?');
    SplitHead(qs, "", '?');
    if qs == "" {
      assert base + Stringify(params, routes) == base;
    } else {
      assert base + Stringify(params, routes) == base + ['?'] + qs;
    }
  }

  /** The bindings read back from a written query string are those of the parameters shown. */
  lemma {:induction false} BindingsReadBack<T(!new)>(params: seq<Param<T>>, routes: Routes<T>)
    requires WellFormed(params)
    ensures var kvs := Split(Join(Pairs(params, routes), "&"), '&');
      Bindings(kvs).Some? && BindsNamed(Bindings(kvs).value, params, routes)
  {
    hide Split, Pairs, Join, Binding, Shown;
    PairsArePlain(params, routes);
    PairsBind(params, routes);
    var pairs := Pairs(params, routes);
    if pairs != [] {
      SplitJoin(pairs, '&');
    } else {
      EmptyQuery(params, routes);
    }
  }

  /** As `Binds`, for the nonempty names; an empty query binds the empty name to `undefined`. */
  ghost predicate BindsNamed<T(!new)>(values: map<string, string>, params: seq<Param<T>>, routes: Routes<T>) {
    (forall i :: 0 <= i < |params| && Shown(params[i], routes) ==>
      params[i].route in values && values[params[i].route] == params[i].stringify(routes[params[i].key])) &&
    forall name :: name in values && name != "" ==>
      exists i :: 0 <= i < |params| && Shown(params[i], routes) && params[i].route == name
  }

  lemma EmptyQuery<T(!new)>(params: seq<Param<T>>, routes: Routes<T>)
    requires Binds(map[], params, routes)
    ensures Bindings(Split(Join([], "&"), '&')) == Some(map["" := "undefined"])
    ensures BindsNamed(map["" := "undefined"], params, routes)
  {
  }

  lemma {:induction false} CollectedKeys<T>(params: seq<Param<T>>, values: map<string, string>)
    ensures forall i :: 0 <= i < |params| ==> params[i].key in Collect(params, values)
    ensures forall k :: k in Collect(params, values) ==> exists i :: 0 <= i < |params| && params[i].key == k
    decreases |params|
  {
    hide ValueOf;
    if params != [] {
      var front, last := params[..|params| - 1], params[|params| - 1];
      CollectedKeys(front, values);
      forall k | k in Collect(params, values)
        ensures exists i :: 0 <= i < |params| && params[i].key == k
      {
        if k in Collect(front, values) {
          var i :| 0 <= i < |front| && front[i].key == k;
          assert params[i].key == k;
        } else {
          assert params[|params| - 1].key == k;
        }
      }
    }
  }

  lemma {:induction false} CollectedValues<T>(params: seq<Param<T>>, values: map<string, string>, routes: Routes<T>)
    requires forall i :: 0 <= i < |params| ==>
      params[i].key in routes && ValueOf(params[i], values) == routes[params[i].key]
    ensures forall k :: k in Collect(params, values) ==> k in routes && Collect(params, values)[k] == routes[k]
    decreases |params|
  {
    hide ValueOf;
    if params != [] {
      CollectedValues(params[..|params| - 1], values, routes);
    }
  }

  lemma ReadBackValue<T(!new)>(values: map<string, string>, params: seq<Param<T>>, routes: Routes<T>, i: nat)
    requires WellFormed(params) && BindsNamed(values, params, routes) && i < |params|
    requires params[i].key in routes && Faithful(params[i], routes[params[i].key])
    ensures ValueOf(params[i], values) == routes[params[i].key]
  {
  }

  /**
   Reading back what was written gives the same values, for every assignment of a value to
   every parameter: defaults are left out and come back as defaults.
   */
  lemma RoundTrip<T(!new)>(params: seq<Param<T>>, routes: Routes<T>, base: string)
    requires WellFormed(params) && '?' !in base
    requires forall k :: k in routes <==> exists i :: 0 <= i < |params| && params[i].key == k
    requires forall i :: 0 <= i < |params| ==> params[i].key in routes && Faithful(params[i], routes[params[i].key])
    ensures Parsed(params, base + Stringify(params, routes)) == Some(routes)
  {
    hide Stringify, QueryOf, Split, Join, Pairs, Bindings, BindsNamed, ValueOf, Collect, Faithful;
    QueryOfStringified(params, routes, base);
    BindingsReadBack(params, routes);
    var values := Bindings(Split(QueryOf(base + Stringify(params, routes)), '&')).value;
    forall i | 0 <= i < |params|
      ensures ValueOf(params[i], values) == routes[params[i].key]
    {
      ReadBackValue(values, params, routes, i);
    }
    CollectedKeys(params, values);
    CollectedValues(params, values, routes);
    assert Collect(params, values) == routes;
  }

  // ---------------------------------------------------------------- what the URL shows

  ghost predicate SomeMalformed(kvs: seq<string>) {
    exists i :: 0 <= i < |kvs| && Binding(kvs[i]).None?
  }

  /** Parsing throws exactly when some piece has a malformed escape. */
  lemma {:induction false} MalformedIff(kvs: seq<string>)
    ensures Bindings(kvs).None? <==> SomeMalformed(kvs)
    decreases |kvs|
  {
    hide Binding;
    if kvs != [] {
      var front := kvs[..|kvs| - 1];
      MalformedIff(front);
      if i :| 0 <= i < |kvs| && Binding(kvs[i]).None? {
        MalformedPiece(kvs, i);
      }
    }
  }

  /**
   A parameter stands in the written URL exactly when it is defined and, unless it is always
   visible, not merely its default; and then with its own text.
   */
  lemma AppearsIff<T(!new)>(params: seq<Param<T>>, routes: Routes<T>, base: string, i: nat)
    requires WellFormed(params) && '?' !in base && i < |params|
    ensures var values, p := Bindings(Split(QueryOf(base + Stringify(params, routes)), '&')), params[i];
      values.Some? &&
      (p.route in values.value <==> p.key in routes && (routes[p.key] != p.defaults || p.alwaysVisible)) &&
      (p.route in values.value ==> values.value[p.route] == p.stringify(routes[p.key]))
  {
    hide Stringify, QueryOf, Split, Join, Pairs, Bindings;
    QueryOfStringified(params, routes, base);
    BindingsReadBack(params, routes);
    var values := Bindings(Split(Join(Pairs(params, routes), "&"), '&')).value;
    if params[i].route in values {
      BoundIsShown(values, params, routes, i);
    }
  }

  lemma BoundIsShown<T(!new)>(values: map<string, string>, params: seq<Param<T>>, routes: Routes<T>, i: nat)
    requires WellFormed(params) && BindsNamed(values, params, routes)
    requires i < |params| && params[i].route in values
    ensures Shown(params[i], routes)
  {
    var j :| 0 <= j < |params| && Shown(params[j], routes) && params[j].route == params[i].route;
    assert j == i;
  }

  /** Parameters are written in their order, each as its encoded name and text. */
  lemma {:induction false} PairsSplit<T>(a: seq<Param<T>>, p: Param<T>, b: seq<Param<T>>, routes: Routes<T>)
    ensures p.key in routes && routes[p.key] != p.defaults ==>
      Pairs(a + [p] + b, routes) == Pairs(a, routes) +
        [PercentEncoding.Encode(p.route) + "=" + PercentEncoding.Encode(p.stringify(routes[p.key]))] + Pairs(b, routes)
    ensures p.key !in routes ==> Pairs(a + [p] + b, routes) == Pairs(a, routes) + Pairs(b, routes)
    decreases |b|
  {
    hide PercentEncoding.Encode;
    var all := a + [p] + b;
    if b == [] {
      assert all == a + [p] && (a + [p])[..|a|] == a;
    } else {
      var front := b[..|b| - 1];
      assert all[..|all| - 1] == a + [p] + front && all[|all| - 1] == b[|b| - 1];
      PairsSplit(a, p, front, routes);
    }
  }

  // ---------------------------------------------------------------- what any URL parses to

  /** The query is what stands between the first `?` and the next one. */
  lemma QueryForms(base: string, qs: string, rest: string)
    requires '?' !in base && '?' !in qs
    ensures QueryOf(base) == "" && QueryOf(base + "?" + qs) == qs && QueryOf(base + "?" + qs + "?" + rest) == qs
  {
    hide Split;
    SplitHead(base, "", '?');
    SplitHead(base, qs, '?');
    SplitHead(qs, "", '?');
    SplitHead(base, qs + "?" + rest, '?');
    SplitHead(qs, rest, '?');
    assert base + "?" + qs == base + ['?'] + qs;
    assert qs + "?" + rest == qs + ['?'] + rest;
    assert base + "?" + qs + "?" + rest == base + ['?'] + (qs + "?" + rest);
  }

  /** A piece binds its name to what follows up to another `=`, or to `undefined`. */
  lemma {:induction false} PieceForms(name: string, text: string, rest: string)
    requires '=' !in name && '=' !in text
    ensures var k, v := PercentEncoding.Decode(name), PercentEncoding.Decode(text);
      Binding(name) == (if k.None? then None else Some((k.value, "undefined"))) &&
      Binding(name + "=" + text) == (if k.None? || v.None? then None else Some((k.value, v.value))) &&
      Binding(name + "=" + text + "=" + rest) == Binding(name + "=" + text)
  {
    hide Split, PercentEncoding.Decode;
    SplitHead(name, "", '=');
    SplitHead(name, text, '=');
    SplitHead(text, "", '=');
    SplitHead(name, text + "=" + rest, '=');
    SplitHead(text, rest, '=');
    assert name + "=" + text == name + ['='] + text;
    assert text + "=" + rest == text + ['='] + rest;
    assert name + "=" + text + "=" + rest == name + ['='] + (text + "=" + rest);
  }

  /** The piece is the last one that binds the name. */
  predicate BindsLast(kvs: seq<string>, i: nat, name: string) {
    i < |kvs| && Binding(kvs[i]).Some? && Binding(kvs[i]).value.0 == name && !BindsSome(kvs[i + 1..], name)
  }

  predicate BindsSome(kvs: seq<string>, name: string) {
    exists i :: 0 <= i < |kvs| && Binding(kvs[i]).Some? && Binding(kvs[i]).value.0 == name
  }

  lemma {:induction false} LastBindingHolds(kvs: seq<string>, i: nat, name: string)
    requires Bindings(kvs).Some?
    ensures BindsLast(kvs, i, name) ==>
      name in Bindings(kvs).value && Bindings(kvs).value[name] == Binding(kvs[i]).value.1
    ensures name in Bindings(kvs).value <==> BindsSome(kvs, name)
    decreases |kvs|
  {
    hide Binding;
    if kvs != [] {
      var front, last := kvs[..|kvs| - 1], kvs[|kvs| - 1];
      assert kvs == front + [last];
      LastBindingHolds(front, i, name);
      BindsSomeSplit(front, last, name);
      if i < |front| {
        assert kvs[i + 1..] == front[i + 1..] + [last];
        BindsSomeSplit(front[i + 1..], last, name);
      }
    }
  }

  lemma BindsSomeSplit(front: seq<string>, last: string, name: string)
    ensures BindsSome(front + [last], name) <==>
      BindsSome(front, name) || (Binding(last).Some? && Binding(last).value.0 == name)
  {
    hide Binding;
    var kvs := front + [last];
    assert kvs[|front|] == last;
    if BindsSome(front, name) {
      var i :| 0 <= i < |front| && Binding(front[i]).Some? && Binding(front[i]).value.0 == name;
      assert kvs[i] == front[i];
    }
  }

  lemma {:induction false} Collected<T>(params: seq<Param<T>>, values: map<string, string>, i: nat)
    requires i < |params| && forall j :: i < j < |params| ==> params[j].key != params[i].key
    ensures params[i].key in Collect(params, values) &&
      Collect(params, values)[params[i].key] == ValueOf(params[i], values)
    decreases |params|
  {
    hide ValueOf;
    if i < |params| - 1 {
      Collected(params[..|params| - 1], values, i);
    }
  }

  /**
   For every URL: parsing throws exactly when a piece of the query is malformed, and otherwise each
   parameter has the parsed text of the last piece of its name, or its parsed default without one.
   */
  lemma ParsedIs<T(!new)>(params: seq<Param<T>>, url: string, i: nat)
    requires WellFormed(params) && i < |params|
    ensures var kvs, p, routes := Split(QueryOf(url), '&'), params[i], Parsed(params, url);
      (routes.None? <==> SomeMalformed(kvs)) &&
      (routes.Some? ==>
        p.key in routes.value &&
        (!BindsSome(kvs, p.route) ==> routes.value[p.key] == p.parse(p.defaults)) &&
        forall n: nat :: BindsLast(kvs, n, p.route) ==>
          routes.value[p.key] == p.parse(Text(Binding(kvs[n]).value.1)))
  {
    hide Split, Binding, Bindings, BindsSome, Collect;
    var kvs, p := Split(QueryOf(url), '&'), params[i];
    MalformedIff(kvs);
    if Bindings(kvs).Some? {
      Collected(params, Bindings(kvs).value, i);
      LastBindingHolds(kvs, 0, p.route);
      forall n: nat | BindsLast(kvs, n, p.route)
        ensures p.route in Bindings(kvs).value && Bindings(kvs).value[p.route] == Binding(kvs[n]).value.1
      {
        LastBindingHolds(kvs, n, p.route);
      }
    }
  }
}
