/**
 The tree store of a form: JavaScript values read and edited by path. `null`, `undefined`,
 a missing key and an array hole are all `Absent`.
 */
module FormTree {

  datatype Js =
    | Absent
    | Text(s: string)
    | Number(n: int)
    | Flag(b: bool)
    | Obj(fields: map<string, Js>)
    | Arr(items: seq<Js>)

  datatype Key = Name(name: string) | Index(i: nat)

  type Path = seq<Key>

  predicate Truthy(d: Js) {
    match d
    case Absent => false
    case Text(s) => s != ""
    case Number(n) => n != 0
    case Flag(b) => b
    case _ => true
  }

  function Child(d: Js, k: Key): Js {
    if k.Name? && d.Obj? && k.name in d.fields then d.fields[k.name]
    else if k.Index? && d.Arr? && k.i < |d.items| then d.items[k.i]
    else Absent
  }

  function Pick(d: Js, path: Path): Js
    decreases |path|
  {
    if path == [] then d else Pick(Child(d, path[0]), path[1..])
  }

  /**
   Whether a key addresses the value in its own kind. A falsy value gives way to a new container,
   and a flag or number to a new object.
   */
  predicate Accepts(d: Js, k: Key) {
    Truthy(d) ==> if k.Index? then d.Arr? else d.Obj? || d.Flag? || d.Number?
  }

  /** The path goes through objects by name and through arrays by number. */
  predicate Fits(d: Js, path: Path)
    decreases |path|
  {
    path == [] || (Accepts(d, path[0]) && Fits(Child(d, path[0]), path[1..]))
  }

  predicate FitsArray(d: Js, path: Path) {
    Fits(d, path) && Accepts(Pick(d, path), Index(0))
  }

  function Blanks(n: nat): (s: seq<Js>)
    ensures |s| == n && forall i :: 0 <= i < n ==> s[i] == Absent
  {
    if n == 0 then [] else Blanks(n - 1) + [Absent]
  }

  /** Assigning to an array index past the end leaves holes before it. */
  function SetAt(s: seq<Js>, i: nat, v: Js): (t: seq<Js>)
    ensures |t| == (if i < |s| then |s| else i + 1) && t[i] == v
    ensures forall j :: 0 <= j < |t| && j != i ==> t[j] == if j < |s| then s[j] else Absent
  {
    if i < |s| then s[i := v] else s + Blanks(i - |s|) + [v]
  }

  function Container(d: Js, k: Key): (c: Js)
    requires Accepts(d, k)
    ensures if k.Index? then c.Arr? else c.Obj?
    ensures forall key :: Child(c, key) == Child(d, key)
  {
    if d.Obj? || d.Arr? then d else if k.Index? then Arr([]) else Obj(map[])
  }

  function SetChild(d: Js, k: Key, v: Js): (r: Js)
    requires if k.Index? then d.Arr? else d.Obj?
    ensures if k.Index? then r.Arr? else r.Obj?
    ensures forall key :: Child(r, key) == if key == k then v else Child(d, key)
  {
    match k
    case Index(i) => Arr(SetAt(d.items, i, v))
    case Name(name) => Obj(d.fields[name := v])
  }

  function Update(d: Js, path: Path, v: Js): Js
    requires Fits(d, path)
    decreases |path|
  {
    if path == [] then v
    else
      var data := Container(d, path[0]);
      var old_ := Child(data, path[0]);
      var new_ := Update(old_, path[1..], v);
      if old_ != new_ then SetChild(data, path[0], new_) else if Truthy(d) then d else data
  }

  /** JavaScript's `splice` clamps its start and its delete count to the array. */
  function Start(length: nat, index: nat): (start: nat)
    ensures start <= length
  {
    if index < length then index else length
  }

  function End(length: nat, index: nat, count: nat): (end: nat)
    ensures Start(length, index) <= end <= length
  {
    if Start(length, index) + count < length then Start(length, index) + count else length
  }

  function Splice<T>(s: seq<T>, index: nat, count: nat, values: seq<T>): seq<T> {
    s[..Start(|s|, index)] + values + s[End(|s|, index, count)..]
  }

  /** What `splice` does: `count` entries from `index` on, or as many as there are, give way to the values. */
  lemma SpliceIs<T>(s: seq<T>, index: nat, count: nat, values: seq<T>)
    ensures index <= |s| ==>
      Splice(s, index, count, values) ==
        s[..index] + values + if index + count <= |s| then s[index + count..] else []
    ensures index > |s| ==> Splice(s, index, count, values) == s + values
  {
  }

  predicate AllAbsent(values: seq<Js>) {
    forall i :: 0 <= i < |values| ==> values[i] == Absent
  }

  lemma OnlyHoles(values: seq<Js>)
    ensures AllAbsent(values) <==> forall x :: x in values ==> x == Absent
  {
    if AllAbsent(values) {
      forall x | x in values
        ensures x == Absent
      {
        var i :| 0 <= i < |values| && values[i] == x;
      }
    } else {
      var i :| 0 <= i < |values| && values[i] != Absent;
      assert values[i] in values;
    }
  }

  /**
   The path leads to an array or to nothing. Where nothing is to be written it need not lead
   there through objects and arrays only.
   */
  predicate FitsSplice(d: Js, path: Path, values: seq<Js>) {
    Accepts(Pick(d, path), Index(0)) && (AllAbsent(values) || Fits(d, path))
  }

  /** Something truthy is found only through objects by name and arrays by number. */
  lemma {:induction false} PickThrough(d: Js, path: Path)
    requires Truthy(Pick(d, path))
    ensures Fits(d, path)
    decreases |path|
  {
    if path != [] {
      AbsentLeadsNowhere(path[1..]);
      PickThrough(Child(d, path[0]), path[1..]);
    }
  }

  lemma {:induction false} AbsentLeadsNowhere(p: Path)
    ensures Pick(Absent, p) == Absent && Fits(Absent, p)
    decreases |p|
  {
    if p != [] {
      AbsentLeadsNowhere(p[1..]);
    }
  }

  function SpliceByPath(d: Js, path: Path, index: nat, count: nat, values: seq<Js>): Js
    requires FitsSplice(d, path, values)
  {
    var old_ := Pick(d, path);
    if !Truthy(old_) && AllAbsent(values) then d
    else
      assert Fits(d, path) by { if Truthy(old_) { PickThrough(d, path); } }
      var arr := if Truthy(old_) then old_.items else Blanks(index);
      Update(d, path, Arr(Splice(arr, index, count, values)))
  }

  /** What deleting a path demands of the tree: a number deletes from an array, a name from an object. */
  predicate FitsDelete(d: Js, path: Path) {
    path != [] &&
    var host := Pick(d, path[..|path| - 1]);
    Truthy(host) ==> if path[|path| - 1].Index? then host.Arr? else host.Obj?
  }

  function DeleteByPath(d: Js, path: Path): Js
    requires FitsDelete(d, path)
  {
    var host, last := path[..|path| - 1], path[|path| - 1];
    var old_ := Pick(d, host);
    if !Truthy(old_) then d
    else if last.Index? then SpliceByPath(d, host, last.i, 1, [])
    else if last.name !in old_.fields then d
    else
      PickThrough(d, host);
      Update(d, host, Obj(old_.fields - {last.name}))
  }

  // ---------------------------------------------------------------- laws

  /** Neither path leads through the other; a node being an object or an array, they part by keys of one kind. */
  predicate Disjoint(p: Path, q: Path) {
    p != [] && q != [] && if p[0] == q[0] then Disjoint(p[1..], q[1..]) else p[0].Index? == q[0].Index?
  }

  lemma {:induction false} PickOfPrefix(d: Js, p: Path, q: Path)
    ensures Pick(d, p + q) == Pick(Pick(d, p), q)
    ensures Fits(d, p + q) <==> Fits(d, p) && Fits(Pick(d, p), q)
    decreases |p|
  {
    if p == [] {
      assert p + q == q;
    } else {
      assert (p + q)[1..] == p[1..] + q;
      PickOfPrefix(Child(d, p[0]), p[1..], q);
    }
  }

  /** The child an update leaves under its first key, and under any other. */
  lemma {:induction false} UpdatedChild(d: Js, path: Path, v: Js, key: Key)
    requires path != [] && Fits(d, path)
    ensures Child(Update(d, path, v), key) ==
      if key == path[0] then Update(Child(d, path[0]), path[1..], v) else Child(d, key)
    ensures Accepts(Update(d, path, v), path[0]) && (key.Index? == path[0].Index? ==> Accepts(Update(d, path, v), key))
  {
  }

  /** An update is an update of what its path leads through: put-get is the case of an empty `q`. */
  lemma {:induction false} UpdateInside(d: Js, p: Path, q: Path, v: Js)
    requires Fits(d, p + q)
    ensures Fits(Pick(d, p), q)
    ensures Pick(Update(d, p + q, v), p) == Update(Pick(d, p), q, v)
    ensures Fits(Update(d, p + q, v), p)
    decreases |p|
  {
    PickOfPrefix(d, p, q);
    if p == [] {
      assert p + q == q;
    } else {
      assert (p + q)[1..] == p[1..] + q;
      UpdatedChild(d, p + q, v, p[0]);
      hide Update, SetChild, Container;
      UpdateInside(Child(d, p[0]), p[1..], q, v);
    }
  }

  lemma FalsyAre(d: Js)
    ensures !Truthy(d) <==> d in {Absent, Text(""), Number(0), Flag(false)}
  {
  }

  /** Putting back what is there changes nothing, except that a falsy host gives way to an empty object or array. */
  lemma {:induction false} PutBack(d: Js, p: Path, k: Key)
    requires Fits(d, p + [k]) && forall i :: 0 <= i < |p| ==> Truthy(Pick(d, p[..i]))
    ensures p == [] && !Truthy(d) ==> Update(d, [k], Absent) == if k.Index? then Arr([]) else Obj(map[])
    ensures Truthy(Pick(d, p)) ==> Update(d, p + [k], Pick(d, p + [k])) == d
    decreases |p|
  {
    if p != [] {
      assert (p + [k])[1..] == p[1..] + [k];
      forall i | 0 <= i < |p[1..]|
        ensures Truthy(Pick(Child(d, p[0]), p[1..][..i]))
      {
        assert p[..i + 1][1..] == p[1..][..i];
      }
      PutBack(Child(d, p[0]), p[1..], k);
      assert p[..0] == [];
    }
  }

  lemma {:induction false} PutGet(d: Js, p: Path, v: Js)
    requires Fits(d, p)
    ensures Pick(Update(d, p, v), p) == v && Fits(Update(d, p, v), p)
  {
    assert p + [] == p;
    UpdateInside(d, p, [], v);
  }

  /** An update is invisible from every disjoint path. */
  lemma {:induction false} UpdateElsewhere(d: Js, p: Path, v: Js, q: Path)
    requires Fits(d, p) && Disjoint(p, q)
    ensures Pick(Update(d, p, v), q) == Pick(d, q)
    ensures Fits(d, q) ==> Fits(Update(d, p, v), q)
    decreases |p|
  {
    hide Update;
    UpdatedChild(d, p, v, q[0]);
    if p[0] == q[0] {
      UpdateElsewhere(Child(d, p[0]), p[1..], v, q[1..]);
    }
  }

  /** The edits a reducer makes at a path. */
  datatype Edit = Keep | Put(value: Js) | SpliceIn(index: nat, count: nat, values: seq<Js>) | Remove

  predicate FitsEdit(d: Js, path: Path, e: Edit) {
    match e
    case Keep => true
    case Put(_) => Fits(d, path)
    case SpliceIn(_, _, values) => FitsSplice(d, path, values)
    case Remove => FitsDelete(d, path)
  }

  function Apply(d: Js, path: Path, e: Edit): Js
    requires FitsEdit(d, path, e)
  {
    match e
    case Keep => d
    case Put(v) => Update(d, path, v)
    case SpliceIn(index, count, values) => SpliceByPath(d, path, index, count, values)
    case Remove => DeleteByPath(d, path)
  }

  /** An edit below `p` is the same edit of what `p` leads to. */
  lemma {:induction false} ApplyInside(d: Js, p: Path, q: Path, e: Edit)
    requires FitsEdit(d, p + q, e) && (e.Remove? ==> q != [])
    ensures FitsEdit(Pick(d, p), q, e)
    ensures Pick(Apply(d, p + q, e), p) == Apply(Pick(d, p), q, e)
    ensures Fits(d, p) ==> Fits(Apply(d, p + q, e), p)
  {
    hide Update, Fits, Pick;
    match e
    case Keep =>
    case Put(v) => UpdateInside(d, p, q, v);
    case SpliceIn(index, count, values) => SpliceInside(d, p, q, index, count, values);
    case Remove => DeleteInside(d, p, q);
  }

  lemma {:induction false} SpliceInside(d: Js, p: Path, q: Path, index: nat, count: nat, values: seq<Js>)
    requires FitsSplice(d, p + q, values)
    ensures FitsSplice(Pick(d, p), q, values)
    ensures Pick(SpliceByPath(d, p + q, index, count, values), p) == SpliceByPath(Pick(d, p), q, index, count, values)
    ensures Fits(d, p) ==> Fits(SpliceByPath(d, p + q, index, count, values), p)
  {
    hide Update, Fits, Pick, Splice;
    PickOfPrefix(d, p, q);
    var old_ := Pick(d, p + q);
    if Truthy(old_) || !AllAbsent(values) {
      if Truthy(old_) {
        PickThrough(d, p + q);
      }
      var arr := if Truthy(old_) then old_.items else Blanks(index);
      UpdateInside(d, p, q, Arr(Splice(arr, index, count, values)));
    }
  }

  lemma {:induction false} DeleteInside(d: Js, p: Path, q: Path)
    requires FitsDelete(d, p + q) && q != []
    ensures FitsDelete(Pick(d, p), q)
    ensures Pick(DeleteByPath(d, p + q), p) == DeleteByPath(Pick(d, p), q)
    ensures Fits(d, p) ==> Fits(DeleteByPath(d, p + q), p)
  {
    hide Update, Fits, Pick, SpliceByPath;
    var host, last := q[..|q| - 1], q[|q| - 1];
    assert (p + q)[..|p + q| - 1] == p + host;
    PickOfPrefix(d, p, host);
    var old_ := Pick(d, p + host);
    if Truthy(old_) {
      PickThrough(d, p + host);
      if last.Index? {
        SpliceInside(d, p, host, last.i, 1, []);
      } else if last.name in old_.fields {
        UpdateInside(d, p, host, Obj(old_.fields - {last.name}));
      }
    }
  }

  /** What an edit may disturb: all of an array it deletes from, otherwise what its path leads to. */
  function Footprint(path: Path, e: Edit): Path {
    if e.Remove? && path != [] && path[|path| - 1].Index? then path[..|path| - 1] else path
  }

  lemma {:induction false} DeleteElsewhere(d: Js, path: Path, r: Path)
    requires FitsDelete(d, path) && Disjoint(Footprint(path, Remove), r)
    ensures Pick(DeleteByPath(d, path), r) == Pick(d, r)
    ensures Fits(d, r) ==> Fits(DeleteByPath(d, path), r)
  {
    hide Update, Fits, Pick, Disjoint, Splice, SpliceByPath;
    var host, last := path[..|path| - 1], path[|path| - 1];
    var old_ := Pick(d, host);
    if Truthy(old_) {
      PickThrough(d, host);
      if last.Index? {
        SpliceElsewhere(d, host, last.i, 1, [], r);
      } else if last.name in old_.fields {
        assert path == host + [last];
        DropFieldElsewhere(d, host, last.name, r);
      }
    }
  }

  /** An edit is invisible from every path disjoint from its footprint. */
  lemma {:induction false} ApplyElsewhere(d: Js, path: Path, e: Edit, r: Path)
    requires FitsEdit(d, path, e) && Disjoint(Footprint(path, e), r)
    ensures Pick(Apply(d, path, e), r) == Pick(d, r)
    ensures Fits(d, r) ==> Fits(Apply(d, path, e), r)
  {
    hide Update, Fits, Pick, Disjoint, Splice, SpliceByPath, DeleteByPath;
    match e
    case Keep =>
    case Put(v) => UpdateElsewhere(d, path, v, r);
    case SpliceIn(index, count, values) => SpliceElsewhere(d, path, index, count, values, r);
    case Remove => DeleteElsewhere(d, path, r);
  }

  lemma {:induction false} SpliceElsewhere(d: Js, path: Path, index: nat, count: nat, values: seq<Js>, r: Path)
    requires FitsSplice(d, path, values) && Disjoint(path, r)
    ensures Pick(SpliceByPath(d, path, index, count, values), r) == Pick(d, r)
    ensures Fits(d, r) ==> Fits(SpliceByPath(d, path, index, count, values), r)
  {
    hide Update, Fits, Pick, Disjoint, Splice;
    var old_ := Pick(d, path);
    if Truthy(old_) || !AllAbsent(values) {
      if Truthy(old_) {
        PickThrough(d, path);
      }
      var arr := if Truthy(old_) then old_.items else Blanks(index);
      UpdateElsewhere(d, path, Arr(Splice(arr, index, count, values)), r);
    }
  }

  lemma {:induction false} DropFieldElsewhere(d: Js, host: Path, name: string, r: Path)
    requires Fits(d, host) && Pick(d, host).Obj? && Disjoint(host + [Name(name)], r)
    ensures var result := Update(d, host, Obj(Pick(d, host).fields - {name}));
      Pick(result, r) == Pick(d, r) && (Fits(d, r) ==> Fits(result, r))
    decreases |host|
  {
    hide Update;
    var path := host + [Name(name)];
    if host == [] {
      PutGet(d, [], Obj(d.fields - {name}));
    } else {
      assert path[1..] == host[1..] + [Name(name)];
      UpdatedChild(d, host, Obj(Pick(d, host).fields - {name}), r[0]);
      if r[0] == host[0] {
        DropFieldElsewhere(Child(d, host[0]), host[1..], name, r[1..]);
      }
    }
  }

  /** After a deletion by name nothing is found under it, and everything is under any other name. */
  lemma {:induction false} DeletedIsGone(d: Js, host: Path, name: string, other: string)
    requires FitsDelete(d, host + [Name(name)]) && other != name
    ensures var after := DeleteByPath(d, host + [Name(name)]);
      Pick(after, host + [Name(name)]) == Absent &&
      Pick(after, host + [Name(other)]) == Pick(d, host + [Name(other)])
  {
    hide Update, Fits, Pick;
    var path := host + [Name(name)];
    assert path[..|path| - 1] == host;
    var after := DeleteByPath(d, path);
    PickLast(d, host, name);
    PickLast(d, host, other);
    PickLast(after, host, name);
    PickLast(after, host, other);
    var old_ := Pick(d, host);
    if Truthy(old_) && name in old_.fields {
      PickThrough(d, host);
      PutGet(d, host, Obj(old_.fields - {name}));
    }
  }

  lemma {:induction false} PickLast(d: Js, host: Path, name: string)
    ensures Pick(d, host + [Name(name)]) == Child(Pick(d, host), Name(name))
  {
    PickOfPrefix(d, host, [Name(name)]);
    assert Pick(Pick(d, host), [Name(name)]) == Child(Pick(d, host), Name(name));
  }
}
