/** Python data as the producers see it after json.load / before json.dump:
    None, booleans, integers, strings, lists and dicts.  A dict is an ordered
    sequence of (key, value) entries, because Python dicts iterate in
    insertion order and the producers' outputs depend on that order. */
module Json {
  import opened Py
  import Strs

  datatype Value =
    | Null
    | Bool(b: bool)
    | Int(i: int)
    | Str(s: string)
    | Arr(items: seq<Value>)
    | Obj(fields: seq<(string, Value)>)

  type Fields = seq<(string, Value)>

  // ---------------------------------------------------------------------
  // dict operations on an ordered entry sequence

  function Keys(f: Fields): (r: seq<string>)
    ensures |r| == |f|
    ensures forall i :: 0 <= i < |f| ==> r[i] == f[i].0
  {
    seq(|f|, i requires 0 <= i < |f| => f[i].0)
  }

  /** A Python dict never holds the same key twice. */
  predicate DistinctKeys(f: Fields) {
    forall i, j :: 0 <= i < j < |f| ==> f[i].0 != f[j].0
  }

  predicate HasKey(f: Fields, k: string) {
    exists i :: 0 <= i < |f| && f[i].0 == k
  }

  /** Position of the entry for k, or |f| when there is none. */
  function IndexOf(f: Fields, k: string): (r: nat)
    ensures r <= |f|
    ensures r < |f| ==> f[r].0 == k
    ensures forall i :: 0 <= i < r ==> f[i].0 != k
  {
    if |f| == 0 then 0
    else if f[0].0 == k then 0
    else 1 + IndexOf(f[1..], k)
  }

  lemma IndexOfHas(f: Fields, k: string)
    ensures IndexOf(f, k) < |f| <==> HasKey(f, k)
  {
  }

  /** d.get(k): the value stored under k, or None. */
  function Get(f: Fields, k: string): (r: Option<Value>)
    ensures r.Some? <==> HasKey(f, k)
    ensures r.Some? ==> exists i :: 0 <= i < |f| && f[i] == (k, r.value)
  {
    IndexOfHas(f, k);
    var i := IndexOf(f, k);
    if i < |f| then Some(f[i].1) else None
  }

  /** d[k] = v: overwrite the entry in place, or append a new one. */
  function Put(f: Fields, k: string, v: Value): Fields
    decreases |f|
  {
    if f == [] then [(k, v)]
    else if f[0].0 == k then [(k, v)] + f[1..]
    else [f[0]] + Put(f[1..], k, v)
  }

  /** d[k] = v writes at the position of the entry for k, or at the end. */
  lemma {:induction false} PutIndex(f: Fields, k: string, v: Value)
    ensures var i := IndexOf(f, k);
            Put(f, k, v) == if i < |f| then f[i := (k, v)] else f + [(k, v)]
    decreases |f|
  {
    if f != [] && f[0].0 != k {
      PutIndex(f[1..], k, v);
      var i := IndexOf(f[1..], k);
      if i < |f| - 1 {
        assert [f[0]] + f[1..][i := (k, v)] == f[i + 1 := (k, v)];
      } else {
        assert [f[0]] + (f[1..] + [(k, v)]) == f + [(k, v)];
      }
    } else if f != [] {
      assert [(k, v)] + f[1..] == f[0 := (k, v)];
    }
  }

  /** After d[k] = v, k reads v and every other key reads what it read
      before. */
  lemma PutGet(f: Fields, k: string, v: Value)
    ensures Get(Put(f, k, v), k) == Some(v)
    ensures forall k2 :: k2 != k ==> Get(Put(f, k, v), k2) == Get(f, k2)
  {
    IndexOfHas(f, k);
    PutIndex(f, k, v);
    var i := IndexOf(f, k);
    var r := Put(f, k, v);
    assert IndexOf(r, k) == i by {
      IndexOfAt(r, k, i);
    }
    forall k2 | k2 != k
      ensures Get(r, k2) == Get(f, k2)
    {
      PutOther(f, r, k, k2, i);
    }
  }

  /** d[k] = a; d[k] = b is d[k] = b. */
  lemma {:induction false} PutPut(f: Fields, k: string, a: Value, b: Value)
    ensures Put(Put(f, k, a), k, b) == Put(f, k, b)
    decreases |f|
  {
    if f != [] && f[0].0 != k {
      PutPut(f[1..], k, a, b);
      assert Put(f, k, a)[1..] == Put(f[1..], k, a);
    }
  }

  /** d[k] = v keeps the order of the keys and appends k when it is new. */
  lemma PutKeys(f: Fields, k: string, v: Value)
    ensures HasKey(f, k) ==> Keys(Put(f, k, v)) == Keys(f)
    ensures !HasKey(f, k) ==> Keys(Put(f, k, v)) == Keys(f) + [k]
  {
    PutIndex(f, k, v);
    IndexOfHas(f, k);
  }

  /** The entry for k is the one at i when no earlier entry has key k. */
  lemma IndexOfAt(r: Fields, k: string, i: nat)
    requires i < |r| && r[i].0 == k
    requires forall j :: 0 <= j < i ==> r[j].0 != k
    ensures IndexOf(r, k) == i
  {
  }

  /** d[k] = v where the entry for k sits at i. */
  lemma PutAt(f: Fields, i: nat, k: string, v: Value)
    requires i < |f| && f[i].0 == k && forall j :: 0 <= j < i ==> f[j].0 != k
    ensures Put(f, k, v) == f[i := (k, v)]
  {
    IndexOfAt(f, k, i);
    PutIndex(f, k, v);
  }

  lemma {:induction false} PutOther(f: Fields, r: Fields, k: string, k2: string, i: nat)
    requires k2 != k && i <= |f|
    requires |r| == |f| || (i == |f| && |r| == |f| + 1)
    requires forall j :: 0 <= j < |f| && j != i ==> r[j] == f[j]
    requires i < |r| && r[i].0 == k
    requires i < |f| ==> f[i].0 == k
    ensures Get(r, k2) == Get(f, k2)
    decreases |f|
  {
    if |f| > 0 {
      if f[0].0 != k2 {
        if i == 0 {
          assert r[0].0 == k;
          PutTail(f, r, k, k2);
        } else {
          PutOther(f[1..], r[1..], k, k2, i - 1);
        }
      }
    } else {
      assert IndexOf(r, k2) == 1 by { assert r[1..] == []; }
    }
  }

  lemma PutTail(f: Fields, r: Fields, k: string, k2: string)
    requires |f| > 0 && |r| == |f| && r[1..] == f[1..]
    requires r[0].0 == k && f[0].0 == k && k2 != k
    ensures Get(r, k2) == Get(f, k2)
  {
  }

  /** del d[k] for a key that is present (absent keys raise KeyError at the
      call sites that use this). */
  function Del(f: Fields, k: string): (r: Fields)
    ensures forall e :: e in r <==> e in f && e.0 != k
    ensures |r| <= |f|
  {
    if |f| == 0 then []
    else if f[0].0 == k then Del(f[1..], k)
    else [f[0]] + Del(f[1..], k)
  }

  /** del d[k]: k is gone and every other key reads what it read before. */
  lemma {:induction false} DelGet(f: Fields, k: string, k2: string)
    ensures Get(Del(f, k), k2) == if k2 == k then None else Get(f, k2)
    decreases |f|
  {
    if f != [] && k2 != k {
      var t := f[1..];
      DelGet(t, k, k2);
      assert Get(f, k2) == (if f[0].0 == k2 then Some(f[0].1) else Get(t, k2)) by {
        if f[0].0 != k2 {
          assert IndexOf(f, k2) == 1 + IndexOf(t, k2);
        }
      }
      if f[0].0 != k {
        var r := [f[0]] + Del(t, k);
        assert Del(f, k) == r;
        assert r[1..] == Del(t, k);
        if f[0].0 != k2 {
          assert IndexOf(r, k2) == 1 + IndexOf(Del(t, k), k2);
        }
      }
    }
  }

  /** del d[k] keeps a dict's keys distinct. */
  lemma {:induction false} DelDistinct(f: Fields, k: string)
    requires DistinctKeys(f)
    ensures DistinctKeys(Del(f, k))
    decreases |f|
  {
    if f != [] {
      var t := f[1..];
      assert DistinctKeys(t) by {
        forall i, j | 0 <= i < j < |t| ensures t[i].0 != t[j].0 {
          assert t[i] == f[i + 1] && t[j] == f[j + 1];
        }
      }
      DelDistinct(t, k);
      if f[0].0 != k {
        var d := Del(t, k);
        forall e | e in d ensures e.0 != f[0].0 {
          var m :| 0 <= m < |t| && t[m] == e;
          assert f[m + 1] == e;
        }
        ConsDistinct(f[0], d);
      }
    }
  }

  /** An entry in front of a dict that does not hold its key. */
  lemma ConsDistinct(e: (string, Value), d: Fields)
    requires DistinctKeys(d) && forall x :: x in d ==> x.0 != e.0
    ensures DistinctKeys([e] + d)
  {
    var r := [e] + d;
    forall i, j | 0 <= i < j < |r| ensures r[i].0 != r[j].0 {
      assert r[j] == d[j - 1];
      if i > 0 {
        assert r[i] == d[i - 1];
      }
    }
  }

  /** d.update(g): put every entry of g, in g's order. */
  function Update(f: Fields, g: Fields): (r: Fields)
    decreases |g|
  {
    if |g| == 0 then f
    else Update(Put(f, g[0].0, g[0].1), g[1..])
  }

  /** After d.update(g), every key of g reads g's value and every other key
      reads what it read before. */
  lemma {:induction false} GetUpdate(f: Fields, g: Fields, k: string)
    requires DistinctKeys(g)
    ensures Get(Update(f, g), k) == if HasKey(g, k) then Get(g, k) else Get(f, k)
    decreases |g|
  {
    if |g| > 0 {
      GetUpdate(Put(f, g[0].0, g[0].1), g[1..], k);
      PutGet(f, g[0].0, g[0].1);
      if g[0].0 == k {
        assert !HasKey(g[1..], k);
      } else {
        assert HasKey(g, k) <==> HasKey(g[1..], k) by {
          if HasKey(g, k) {
            var i :| 0 <= i < |g| && g[i].0 == k;
            assert g[1..][i - 1].0 == k;
          }
        }
      }
    }
  }

  /** The value the last entry with key k carries, if any. */
  function Last(g: Fields, k: string): Option<Value>
    decreases |g|
  {
    if g == [] then None
    else if g[|g| - 1].0 == k then Some(g[|g| - 1].1)
    else Last(g[..|g| - 1], k)
  }

  /** Last seen from the front: a later entry for k hides the first one. */
  lemma {:induction false} LastCons(g: Fields, k: string)
    requires g != []
    ensures Last(g, k) == if Last(g[1..], k).Some? then Last(g[1..], k)
                          else if g[0].0 == k then Some(g[0].1) else None
    decreases |g|
  {
    if |g| > 1 && g[|g| - 1].0 != k {
      var init := g[..|g| - 1];
      assert init[1..] == g[1..][..|g[1..]| - 1];
      LastCons(init, k);
    } else if |g| == 1 {
      assert g[1..] == [];
    }
  }

  /** After d.update(g), a key of g reads the value of its last entry in g,
      repeated keys included; every other key reads what it read before. */
  lemma {:induction false} GetUpdateLast(f: Fields, g: Fields, k: string)
    ensures Get(Update(f, g), k) == if Last(g, k).Some? then Last(g, k) else Get(f, k)
    decreases |g|
  {
    if |g| > 0 {
      GetUpdateLast(Put(f, g[0].0, g[0].1), g[1..], k);
      PutGet(f, g[0].0, g[0].1);
      LastCons(g, k);
    }
  }

  /** Putting a value a key already reads leaves the dict as it is. */
  lemma {:induction false} PutSame(f: Fields, k: string, v: Value)
    requires Get(f, k) == Some(v)
    ensures Put(f, k, v) == f
  {
    PutIndex(f, k, v);
    IndexOfHas(f, k);
  }

  /** Updating with entries that are all already present changes nothing. */
  lemma {:induction false} UpdateNoop(f: Fields, g: Fields)
    requires forall i :: 0 <= i < |g| ==> Get(f, g[i].0) == Some(g[i].1)
    ensures Update(f, g) == f
    decreases |g|
  {
    if |g| > 0 {
      PutSame(f, g[0].0, g[0].1);
      UpdateNoop(f, g[1..]);
    }
  }

  /** d.update(g) twice is d.update(g) once. */
  lemma UpdateIdempotent(f: Fields, g: Fields)
    requires DistinctKeys(g)
    ensures Update(Update(f, g), g) == Update(f, g)
  {
    forall i | 0 <= i < |g|
      ensures Get(Update(f, g), g[i].0) == Some(g[i].1)
    {
      GetUpdate(f, g, g[i].0);
      GetDistinct(g, i);
    }
    UpdateNoop(Update(f, g), g);
  }

  lemma GetDistinct(g: Fields, i: nat)
    requires DistinctKeys(g) && i < |g|
    ensures Get(g, g[i].0) == Some(g[i].1)
  {
    IndexOfHas(g, g[i].0);
  }

  /** Updating with entries whose keys are new and distinct appends them in
      order. */
  lemma {:induction false} UpdateFresh(f: Fields, g: Fields)
    requires DistinctKeys(g)
    requires forall i :: 0 <= i < |g| ==> !HasKey(f, g[i].0)
    ensures Update(f, g) == f + g
    decreases |g|
  {
    if |g| > 0 {
      var f1 := f + [g[0]];
      var rest := g[1..];
      UpdateCons(f, g);
      FreshTail(f, g);
      UpdateFresh(f1, rest);
      ShiftFirst(f, g);
    }
  }

  lemma FreshTail(f: Fields, g: Fields)
    requires |g| > 0 && DistinctKeys(g)
    requires forall i :: 0 <= i < |g| ==> !HasKey(f, g[i].0)
    ensures DistinctKeys(g[1..])
    ensures forall i :: 0 <= i < |g| - 1 ==> !HasKey(f + [g[0]], g[1..][i].0)
  {
    var rest := g[1..];
    assert forall i :: 0 <= i < |rest| ==> rest[i] == g[i + 1];
    forall i | 0 <= i < |rest|
      ensures !HasKey(f + [g[0]], rest[i].0)
    {
      HasKeySnoc(f, g[0], g[i + 1].0);
    }
  }

  lemma ShiftFirst(f: Fields, g: Fields)
    requires |g| > 0
    ensures (f + [g[0]]) + g[1..] == f + g
  {
    assert [g[0]] + g[1..] == g;
  }

  lemma UpdateCons(f: Fields, g: Fields)
    requires |g| > 0 && !HasKey(f, g[0].0)
    ensures Update(f, g) == Update(f + [g[0]], g[1..])
  {
    PutFresh(f, g[0].0, g[0].1);
  }

  lemma PutFresh(f: Fields, k: string, v: Value)
    requires !HasKey(f, k)
    ensures Put(f, k, v) == f + [(k, v)]
  {
    PutIndex(f, k, v);
    IndexOfHas(f, k);
  }

  lemma HasKeySnoc(f: Fields, e: (string, Value), k: string)
    ensures HasKey(f + [e], k) <==> HasKey(f, k) || e.0 == k
  {
    var f1 := f + [e];
    if HasKey(f, k) {
      var j :| 0 <= j < |f| && f[j].0 == k;
      assert f1[j] == f[j];
    }
    if e.0 == k {
      assert f1[|f|] == e;
    }
    if HasKey(f1, k) {
      var j :| 0 <= j < |f1| && f1[j].0 == k;
      if j < |f| {
        assert f[j] == f1[j];
      }
    }
  }

  /** Put keeps a dict's keys distinct. */
  lemma PutDistinct(f: Fields, k: string, v: Value)
    requires DistinctKeys(f)
    ensures DistinctKeys(Put(f, k, v))
  {
    PutIndex(f, k, v);
    var r := Put(f, k, v);
    assert forall i :: 0 <= i < |r| ==> r[i].0 == Keys(r)[i];
    if !HasKey(f, k) {
      assert forall i :: 0 <= i < |f| ==> Keys(r)[i] == Keys(f)[i];
    }
  }

  /** The dict literal {a: x, b: y} for distinct keys. */
  lemma PairSpec(a: string, x: Value, b: string, y: Value)
    requires a != b
    ensures var f := [(a, x), (b, y)];
      Keys(f) == [a, b] && DistinctKeys(f) && Get(f, a) == Some(x) && Get(f, b) == Some(y)
  {
    var f := [(a, x), (b, y)];
    assert IndexOf(f, a) == 0;
    assert IndexOf(f, b) == 1 by {
      assert f[1..] == [(b, y)];
    }
  }

  /** d[k] = v on a dict with distinct keys: k reads v, every other key
      reads what it read before, no key but k is added, and the keys stay
      distinct. */
  lemma PutSpec(f: Fields, k: string, v: Value)
    requires DistinctKeys(f)
    ensures var r := Put(f, k, v);
      Get(r, k) == Some(v) &&
      (forall k2 :: k2 != k ==> Get(r, k2) == Get(f, k2)) &&
      (forall k2 :: k2 in Keys(r) ==> k2 in Keys(f) || k2 == k) &&
      DistinctKeys(r)
  {
    PutGet(f, k, v);
    PutKeys(f, k, v);
    PutDistinct(f, k, v);
  }

  // ---------------------------------------------------------------------
  // the Python operators the producers apply to values

  /** Python cannot hash a list or a dict, so neither can key a dict. */
  predicate Hashable(v: Value) {
    !v.Arr? && !v.Obj?
  }

  /** bool(v). */
  predicate Truthy(v: Value) {
    match v
    case Null => false
    case Bool(b) => b
    case Int(i) => i != 0
    case Str(s) => s != ""
    case Arr(items) => items != []
    case Obj(fields) => fields != []
  }

  /** The expression `k in v` for a string k. */
  function In(k: string, v: Value): (r: Result<bool>)
  {
    match v
    case Obj(f) => Ok(HasKey(f, k))
    case Arr(items) => Ok(Str(k) in items)
    case Str(s) => Ok(Strs.Contains(s, k))
    case _ => Err(TypeError)
  }

  /** The expression `v[k]` for a string k. */
  function Index(v: Value, k: string): (r: Result<Value>)
  {
    match v
    case Obj(f) => if HasKey(f, k) then Ok(Get(f, k).value) else Err(KeyError(k))
    case _ => Err(TypeError)
  }

  /** d.get(k, default) on a dict's entries. */
  function GetDefault(f: Fields, k: string, d: Value): (r: Value)
  {
    match Get(f, k)
    case Some(v) => v
    case None => d
  }

  /** The expression `v.get(k, d)`; only dicts have a get method. */
  function GetOr(v: Value, k: string, d: Value): (r: Result<Value>)
  {
    match v
    case Obj(f) => if HasKey(f, k) then Ok(Get(f, k).value) else Ok(d)
    case _ => Err(AttributeError)
  }

  /** What `for x in v` visits: a list's items, a dict's keys, a string's
      characters; anything else is not iterable. */
  function Iter(v: Value): (r: Result<seq<Value>>)
  {
    match v
    case Arr(items) => Ok(items)
    case Obj(f) => Ok(seq(|f|, i requires 0 <= i < |f| => Str(f[i].0)))
    case Str(s) => Ok(seq(|s|, i requires 0 <= i < |s| => Str([s[i]])))
    case _ => Err(TypeError)
  }

  /** '{}'.format(v) for a scalar value; containers are not modelled. */
  function Format(v: Value): (r: Result<string>)
  {
    match v
    case Null => Ok("None")
    case Bool(b) => Ok(if b then "True" else "False")
    case Int(i) => Ok(Strs.IntToStr(i))
    case Str(s) => Ok(s)
    case _ => Err(Unsupported)
  }

  /** The value Python's `x or None` yields. */
  function OrNone(v: Value): (r: Value)
  {
    if Truthy(v) then v else Null
  }

  /** A Python Optional[str] as a value: None or the string. */
  function OptStr(o: Option<string>): (r: Value)
  {
    match o
    case None => Null
    case Some(s) => Str(s)
  }

  function StrList(xs: seq<string>): (r: Value)
  {
    Arr(seq(|xs|, i requires 0 <= i < |xs| => Str(xs[i])))
  }
}
