/** Python values as they travel through payload dictionaries: JSON conversion and recursive merge. */
module Values {
  import opened Outcomes

  /** `K` is the type of dictionary keys. Enum members carry their string value. */
  datatype Value<!K(==)> =
    | Null
    | Bool(b: bool)
    | Int(n: int)
    | Float(x: real)
    | Str(s: string)
    | Member(value: string)
    | List(items: seq<Value<K>>)
    | Tuple(items: seq<Value<K>>)
    | Dict(entries: map<K, Value<K>>)

  // ---------- JSON conversion ----------

  /** Enum members become their values and tuples become lists, at every depth. */
  function Jsonable<K>(v: Value<K>): (r: Value<K>)
    ensures v.Dict? ==> r.Dict? && r.entries.Keys == v.entries.Keys
  {
    match v
    case Member(s) => Str(s)
    case Dict(m) => Dict(map k | k in m :: Jsonable(m[k]))
    case List(items) => List(JsonableAll(items))
    case Tuple(items) => List(JsonableAll(items))
    case _ => v
  }

  function JsonableAll<K>(vs: seq<Value<K>>): (r: seq<Value<K>>)
    ensures |r| == |vs| && forall i :: 0 <= i < |vs| ==> r[i] == Jsonable(vs[i])
  {
    if vs == [] then [] else [Jsonable(vs[0])] + JsonableAll(vs[1..])
  }

  /** Only what JSON can hold. */
  ghost predicate IsJson<K>(v: Value<K>) {
    match v
    case Member(_) => false
    case Tuple(_) => false
    case List(items) => forall i :: 0 <= i < |items| ==> IsJson(items[i])
    case Dict(m) => forall k :: k in m ==> IsJson(m[k])
    case _ => true
  }

  lemma {:induction false} JsonableIsJson<K>(v: Value<K>)
    ensures IsJson(Jsonable(v))
  {
    match v
    case Dict(m) =>
      forall k | k in m ensures IsJson(Jsonable(m[k])) { JsonableIsJson(m[k]); }
    case List(items) =>
      forall i | 0 <= i < |items| ensures IsJson(Jsonable(items[i])) { JsonableIsJson(items[i]); }
    case Tuple(items) =>
      forall i | 0 <= i < |items| ensures IsJson(Jsonable(items[i])) { JsonableIsJson(items[i]); }
    case _ =>
  }

  /** Converting what is JSON already changes nothing. */
  lemma {:induction false} JsonableFixesJson<K>(v: Value<K>)
    requires IsJson(v)
    ensures Jsonable(v) == v
  {
    match v
    case Dict(m) =>
      forall k | k in m ensures Jsonable(m[k]) == m[k] { JsonableFixesJson(m[k]); }
      assert Jsonable(v).entries == m;
    case List(items) =>
      forall i | 0 <= i < |items| ensures Jsonable(items[i]) == items[i] { JsonableFixesJson(items[i]); }
      assert Jsonable(v).items == items;
    case _ =>
  }

  /** Converting twice is converting once. */
  lemma {:induction false} JsonableIdempotent<K>(v: Value<K>)
    ensures Jsonable(Jsonable(v)) == Jsonable(v)
  {
    JsonableIsJson(v);
    JsonableFixesJson(Jsonable(v));
  }

  // ---------- Equality ----------

  /** Booleans, integers and floats are numbers to Python's `==`. */
  function Amount<K>(v: Value<K>): Option<real> {
    match v
    case Bool(b) => Some(if b then 1.0 else 0.0)
    case Int(n) => Some(n as real)
    case Float(x) => Some(x)
    case _ => None
  }

  /** Members of a string enum equal their text. */
  function Characters<K>(v: Value<K>): Option<string> {
    match v
    case Str(s) => Some(s)
    case Member(s) => Some(s)
    case _ => None
  }

  /** Python's `==`: coarser than identity on numbers and texts, but a list never equals a tuple. */
  predicate Same<K(==)>(v: Value<K>, w: Value<K>) {
    match v
    case Dict(m) => w.Dict? && m.Keys == w.entries.Keys && forall k | k in m :: Same(m[k], w.entries[k])
    case List(vs) => w.List? && |vs| == |w.items| && forall i | 0 <= i < |vs| :: Same(vs[i], w.items[i])
    case Tuple(vs) => w.Tuple? && |vs| == |w.items| && forall i | 0 <= i < |vs| :: Same(vs[i], w.items[i])
    case Null => w.Null?
    case _ =>
      if Amount(v).Some? then Amount(w) == Amount(v) else Characters(w) == Characters(v)
  }

  lemma {:induction false} SameAsItself<K>(v: Value<K>)
    ensures Same(v, v)
  {
    match v
    case Dict(m) =>
      forall k | k in m ensures Same(m[k], m[k]) { SameAsItself(m[k]); }
    case List(vs) =>
      forall i | 0 <= i < |vs| ensures Same(vs[i], vs[i]) { SameAsItself(vs[i]); }
    case Tuple(vs) =>
      forall i | 0 <= i < |vs| ensures Same(vs[i], vs[i]) { SameAsItself(vs[i]); }
    case _ =>
  }

  /** No tuple at any depth. */
  ghost predicate TupleFree<K>(v: Value<K>) {
    match v
    case Tuple(_) => false
    case List(items) => forall i :: 0 <= i < |items| ==> TupleFree(items[i])
    case Dict(m) => forall k :: k in m ==> TupleFree(m[k])
    case _ => true
  }

  lemma {:induction false} JsonIsTupleFree<K>(v: Value<K>)
    requires IsJson(v)
    ensures TupleFree(v)
  {
    match v
    case Dict(m) =>
      forall k | k in m ensures TupleFree(m[k]) { JsonIsTupleFree(m[k]); }
    case List(items) =>
      forall i | 0 <= i < |items| ensures TupleFree(items[i]) { JsonIsTupleFree(items[i]); }
    case _ =>
  }

  /** A value equals a JSON value exactly when its JSON form does and it holds no tuple. */
  lemma {:induction false} SameAsJsonIff<K>(v: Value<K>, j: Value<K>)
    requires IsJson(j)
    ensures Same(v, j) <==> Same(Jsonable(v), j) && TupleFree(v)
  {
    match v
    case Dict(m) =>
      if j.Dict? && m.Keys == j.entries.Keys {
        forall k | k in m ensures Same(m[k], j.entries[k]) <==> Same(Jsonable(m[k]), j.entries[k]) && TupleFree(m[k]) {
          SameAsJsonIff(m[k], j.entries[k]);
        }
      }
    case List(items) =>
      if j.List? && |items| == |j.items| {
        forall i | 0 <= i < |items|
          ensures Same(items[i], j.items[i]) <==> Same(Jsonable(items[i]), j.items[i]) && TupleFree(items[i])
        {
          SameAsJsonIff(items[i], j.items[i]);
        }
      }
    case _ =>
  }

  // ---------- Recursive merge ----------

  /** Two values merge recursively when both are dictionaries; otherwise the override wins. */
  function MergeValue<K>(base: Option<Value<K>>, over: Value<K>): Value<K>
    decreases over, 1
  {
    if over.Dict? && base.Some? && base.value.Dict? then
      Dict(Merge(base.value.entries, over))
    else over
  }

  function Merge<K>(base: map<K, Value<K>>, over: Value<K>): (r: map<K, Value<K>>)
    requires over.Dict?
    ensures r.Keys == base.Keys + over.entries.Keys
    decreases over, 0
  {
    map k | k in base.Keys + over.entries.Keys ::
      if k in over.entries then MergeValue(if k in base then Some(base[k]) else None, over.entries[k])
      else base[k]
  }

  /** The fixture overlay: a copy of the base, updated key by key. */
  method DeepMerge<K(==)>(base: map<K, Value<K>>, over: Value<K>) returns (merged: map<K, Value<K>>)
    requires over.Dict?
    ensures merged == Merge(base, over)
    decreases over
  {
    merged := base;
    var rest := over.entries.Keys;
    while rest != {}
      invariant rest <= over.entries.Keys
      invariant merged.Keys == base.Keys + (over.entries.Keys - rest)
      invariant forall k :: k in merged && k in over.entries && k !in rest ==>
                  merged[k] == MergeValue(if k in base then Some(base[k]) else None, over.entries[k])
      invariant forall k :: k in merged && (k !in over.entries || k in rest) ==> merged[k] == base[k]
    {
      var key :| key in rest;
      var value := over.entries[key];
      if value.Dict? && key in merged && merged[key].Dict? {
        var inner := DeepMerge(merged[key].entries, value);
        merged := merged[key := Dict(inner)];
      } else {
        merged := merged[key := value];
      }
      rest := rest - {key};
    }
  }

  /** What a path of keys leads to. */
  function At<K>(v: Value<K>, path: seq<K>): Option<Value<K>> {
    if path == [] then Some(v)
    else if v.Dict? && path[0] in v.entries then At(v.entries[path[0]], path[1..])
    else None
  }

  /** The path runs through something in `v` that is not a dictionary. */
  predicate Blocked<K>(v: Value<K>, path: seq<K>) {
    path != [] &&
    (!v.Dict? || (path[0] in v.entries && Blocked(v.entries[path[0]], path[1..])))
  }

  /**
   * Path semantics, for every path: where the override has a value it is merged with the base's value there;
   * below a non-dictionary override nothing of the base survives; every other path keeps the base.
   */
  lemma {:induction false} MergeAt<K>(base: Value<K>, over: Value<K>, path: seq<K>)
    ensures At(MergeValue(Some(base), over), path) ==
            if At(over, path).Some? then Some(MergeValue(At(base, path), At(over, path).value))
            else if Blocked(over, path) then None
            else At(base, path)
    decreases path
  {
    if path != [] && over.Dict? && base.Dict? {
      var k := path[0];
      if k in over.entries && k in base.entries {
        MergeAt(base.entries[k], over.entries[k], path[1..]);
      } else if k in over.entries {
        assert Merge(base.entries, over)[k] == over.entries[k];
      }
    }
  }

  /** Some proper prefix of the path leads to something that is not a dictionary. */
  ghost predicate StopsEarly<K>(v: Value<K>, path: seq<K>) {
    exists n :: 0 <= n < |path| && At(v, path[..n]).Some? && !At(v, path[..n]).value.Dict?
  }

  lemma {:induction false} BlockedIff<K>(v: Value<K>, path: seq<K>)
    ensures Blocked(v, path) <==> StopsEarly(v, path)
    decreases path
  {
    if path != [] {
      if !v.Dict? {
        assert At(v, path[..0]).Some? && !At(v, path[..0]).value.Dict?;
      } else if path[0] in v.entries {
        var inner, rest := v.entries[path[0]], path[1..];
        BlockedIff(inner, rest);
        forall n | 0 <= n < |rest| ensures At(v, path[..n + 1]) == At(inner, rest[..n]) {
          assert path[..n + 1][0] == path[0] && path[..n + 1][1..] == rest[..n];
        }
        if n :| 0 <= n < |rest| && At(inner, rest[..n]).Some? && !At(inner, rest[..n]).value.Dict? {
          assert At(v, path[..n + 1]) == At(inner, rest[..n]);
        }
        if n :| 0 <= n < |path| && At(v, path[..n]).Some? && !At(v, path[..n]).value.Dict? {
          assert n > 0 && At(v, path[..n]) == At(inner, rest[..n - 1]);
        }
      } else {
        forall n | 0 < n < |path| ensures At(v, path[..n]).None? { assert path[..n][0] == path[0]; }
      }
    }
  }

  predicate IsDict<K>(v: Option<Value<K>>) {
    v.Some? && v.value.Dict?
  }

  /**
   * What merging two dictionaries leaves at any path. Where the override has something that is not a dictionary, or a
   * dictionary where the base has none, it wins. Two dictionaries leave one with the keys of both. Below a place where
   * the override stops, nothing is left; every other path keeps the base.
   */
  lemma MergedDictionaries<K>(base: Value<K>, over: Value<K>, path: seq<K>)
    requires base.Dict? && over.Dict?
    ensures var before, wanted, after := At(base, path), At(over, path), At(Dict(Merge(base.entries, over)), path);
            && (wanted.Some? && !(IsDict(wanted) && IsDict(before)) ==> after == wanted)
            && (IsDict(wanted) && IsDict(before) ==>
                 IsDict(after) && after.value.entries.Keys == before.value.entries.Keys + wanted.value.entries.Keys)
            && (wanted.None? && StopsEarly(over, path) ==> after.None?)
            && (wanted.None? && !StopsEarly(over, path) ==> after == before)
  {
    MergeAt(base, over, path);
    BlockedIff(over, path);
  }

  lemma {:induction false} MergeEmpty<K>(base: map<K, Value<K>>)
    ensures Merge(base, Dict(map[])) == base
  {
    assert Merge(base, Dict(map[])).Keys == base.Keys;
  }

  lemma {:induction false} MergeSelf<K>(v: Value<K>)
    ensures MergeValue(Some(v), v) == v
  {
    if v.Dict? {
      forall k | k in v.entries ensures MergeValue(Some(v.entries[k]), v.entries[k]) == v.entries[k] {
        MergeSelf(v.entries[k]);
      }
      assert Merge(v.entries, v) == v.entries;
    }
  }

  /** Applying the same override twice is applying it once. */
  lemma {:induction false} MergeTwice<K>(base: Option<Value<K>>, over: Value<K>)
    ensures MergeValue(Some(MergeValue(base, over)), over) == MergeValue(base, over)
    decreases over
  {
    if over.Dict? && base.Some? && base.value.Dict? {
      var b := base.value.entries;
      var once := Merge(b, over);
      forall k | k in over.entries
        ensures MergeValue(Some(once[k]), over.entries[k]) == once[k]
      {
        MergeTwice(if k in b then Some(b[k]) else None, over.entries[k]);
      }
      assert Merge(once, over) == once;
    } else {
      MergeSelf(over);
    }
  }
}
