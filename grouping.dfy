/** Grouping keyed values into lists, the way the producers fill a
    defaultdict(list) or setdefault a per-host entry and append to it: each
    key maps to the values that came with it, in arrival order. */
module Grouping {
  import opened Py

  /** The values paired with key k, in order. */
  function Members<K(==), V>(pairs: seq<(K, V)>, k: K): (r: seq<V>)
    ensures |r| <= |pairs|
  {
    if pairs == [] then []
    else
      var n := |pairs| - 1;
      Members(pairs[..n], k) + (if pairs[n].0 == k then [pairs[n].1] else [])
  }

  /** The keys in order of first appearance. */
  function FirstKeys<K(==), V>(pairs: seq<(K, V)>): seq<K> {
    if pairs == [] then []
    else
      var n := |pairs| - 1;
      var ks := FirstKeys(pairs[..n]);
      if pairs[n].0 in ks then ks else ks + [pairs[n].0]
  }

  /** The set of keys. */
  function KeySet<K(==), V>(pairs: seq<(K, V)>): set<K> {
    set i | 0 <= i < |pairs| :: pairs[i].0
  }

  /** The dict of lists after appending each value under its key. */
  function Group<K(==), V>(pairs: seq<(K, V)>): map<K, seq<V>> {
    if pairs == [] then map[]
    else
      var n := |pairs| - 1;
      var g := Group(pairs[..n]);
      var k := pairs[n].0;
      g[k := (if k in g then g[k] else []) + [pairs[n].1]]
  }

  /** Appending one value under its key. */
  lemma GroupSnoc<K, V>(pairs: seq<(K, V)>, p: (K, V))
    ensures var g := Group(pairs);
      Group(pairs + [p]) == g[p.0 := (if p.0 in g then g[p.0] else []) + [p.1]]
  {
    assert (pairs + [p])[..|pairs|] == pairs;
  }

  predicate Distinct<K(==)>(ks: seq<K>) {
    forall i, j :: 0 <= i < j < |ks| ==> ks[i] != ks[j]
  }

  /** One more pair adds its value at the end of its own key's list and
      leaves every other key's list alone. */
  lemma MembersSnoc<K, V>(pairs: seq<(K, V)>, p: (K, V), k: K)
    ensures Members(pairs + [p], k) == Members(pairs, k) + (if p.0 == k then [p.1] else [])
  {
    assert (pairs + [p])[..|pairs|] == pairs;
  }

  /** The keys of first appearance are distinct, and they are exactly the
      keys with at least one value. */
  lemma {:induction false} FirstKeysSpec<K, V>(pairs: seq<(K, V)>, k: K)
    ensures Distinct(FirstKeys(pairs))
    ensures k in FirstKeys(pairs) <==> Members(pairs, k) != []
    ensures k in FirstKeys(pairs) <==> k in KeySet(pairs)
    decreases |pairs|
  {
    if pairs != [] {
      var n := |pairs| - 1;
      FirstKeysSpec(pairs[..n], k);
      MembersSnoc(pairs[..n], pairs[n], k);
      assert pairs[..n] + [pairs[n]] == pairs;
      assert KeySet(pairs) == KeySet(pairs[..n]) + {pairs[n].0} by {
        forall x | x in KeySet(pairs) ensures x in KeySet(pairs[..n]) + {pairs[n].0} {
          var i :| 0 <= i < |pairs| && pairs[i].0 == x;
          if i < n {
            assert pairs[..n][i].0 == x;
          }
        }
        forall x | x in KeySet(pairs[..n]) ensures x in KeySet(pairs) {
          var i :| 0 <= i < n && pairs[..n][i].0 == x;
          assert pairs[i].0 == x;
        }
      }
      var ks := FirstKeys(pairs[..n]);
      if pairs[n].0 !in ks {
        forall x | x in ks ensures x != pairs[n].0 {
        }
        FirstKeysSpec(pairs[..n], pairs[n].0);
      }
    }
  }

  /** The dict holds a list for exactly the keys that occur, and each list
      is that key's values in arrival order. */
  lemma {:induction false} GroupSpec<K, V>(pairs: seq<(K, V)>, k: K)
    ensures k in Group(pairs) <==> k in KeySet(pairs)
    ensures k in Group(pairs) ==> Group(pairs)[k] == Members(pairs, k)
    decreases |pairs|
  {
    FirstKeysSpec(pairs, k);
    if pairs != [] {
      var n := |pairs| - 1;
      GroupSpec(pairs[..n], k);
      FirstKeysSpec(pairs[..n], k);
      MembersSnoc(pairs[..n], pairs[n], k);
      assert pairs[..n] + [pairs[n]] == pairs;
    }
  }

  /** The total length of the lists of the given keys. */
  function SumMembers<K(==), V>(pairs: seq<(K, V)>, ks: seq<K>): nat {
    if ks == [] then 0 else |Members(pairs, ks[0])| + SumMembers(pairs, ks[1..])
  }

  /** Adding a pair adds one to the total over distinct keys exactly when
      its key is among them. */
  lemma {:induction false} SumMembersSnoc<K, V>(pairs: seq<(K, V)>, p: (K, V), ks: seq<K>)
    requires Distinct(ks)
    ensures SumMembers(pairs + [p], ks) == SumMembers(pairs, ks) + (if p.0 in ks then 1 else 0)
    decreases |ks|
  {
    if ks != [] {
      MembersSnoc(pairs, p, ks[0]);
      SumMembersSnoc(pairs, p, ks[1..]);
      assert p.0 in ks <==> p.0 == ks[0] || p.0 in ks[1..];
      assert p.0 == ks[0] ==> p.0 !in ks[1..];
    }
  }

  /** The total over keys listed one after another. */
  lemma {:induction false} SumMembersAppend<K, V>(pairs: seq<(K, V)>, ks: seq<K>, k: K)
    ensures SumMembers(pairs, ks + [k]) == SumMembers(pairs, ks) + |Members(pairs, k)|
    decreases |ks|
  {
    if ks != [] {
      assert (ks + [k])[1..] == ks[1..] + [k];
      SumMembersAppend(pairs, ks[1..], k);
    }
  }

  /** Every value lands in exactly one list: the lists of the distinct keys
      together hold as many values as there were pairs. */
  lemma {:induction false} EveryValueOnce<K, V>(pairs: seq<(K, V)>)
    ensures SumMembers(pairs, FirstKeys(pairs)) == |pairs|
    decreases |pairs|
  {
    if pairs != [] {
      var n := |pairs| - 1;
      var q := pairs[..n];
      var p := pairs[n];
      assert q + [p] == pairs;
      EveryValueOnce(q);
      FirstKeysSpec(q, p.0);
      var ks := FirstKeys(q);
      SumMembersSnoc(q, p, ks);
      if p.0 !in ks {
        SumMembersAppend(pairs, ks, p.0);
        MembersSnoc(q, p, p.0);
      }
    }
  }

  // ---------------------------------------------------------------------
  // a loop that turns each item into a value and stops at the first
  // exception

  /** The values of the items, in order, or the error of the first item
      that raises. */
  function TryAll<A, T>(parse: A -> Result<T>, xs: seq<A>): Result<seq<T>> {
    if xs == [] then Ok([])
    else
      match TryAll(parse, xs[..|xs| - 1])
      case Err(e) => Err(e)
      case Ok(vs) =>
        match parse(xs[|xs| - 1])
        case Err(e) => Err(e)
        case Ok(v) => Ok(vs + [v])
  }

  /** One more item: its value goes at the end, or its error ends it all. */
  lemma TryAllSnoc<A, T>(parse: A -> Result<T>, xs: seq<A>, i: nat)
    requires i < |xs| && TryAll(parse, xs[..i]).Ok?
    ensures TryAll(parse, xs[..i + 1]) ==
      if parse(xs[i]).Err? then Err(parse(xs[i]).error) else Ok(TryAll(parse, xs[..i]).value + [parse(xs[i]).value])
  {
    assert xs[..i + 1][..i] == xs[..i];
  }

  /** An item that raises ends the loop with its error. */
  lemma {:induction false} TryAllStop<A, T>(parse: A -> Result<T>, xs: seq<A>, i: nat)
    requires i < |xs| && TryAll(parse, xs[..i]).Ok? && parse(xs[i]).Err?
    ensures TryAll(parse, xs) == Err(parse(xs[i]).error)
    decreases |xs|
  {
    var n := |xs| - 1;
    if i < n {
      assert xs[..n][..i] == xs[..i] && xs[..n][i] == xs[i];
      TryAllStop(parse, xs[..n], i);
    } else {
      assert xs[..n] == xs[..i];
    }
  }

  /** Items that all succeed give one value each, in order. */
  lemma {:induction false} TryAllOk<A, T>(parse: A -> Result<T>, xs: seq<A>)
    requires forall j :: 0 <= j < |xs| ==> parse(xs[j]).Ok?
    ensures TryAll(parse, xs).Ok?
    ensures |TryAll(parse, xs).value| == |xs|
    ensures forall j :: 0 <= j < |xs| ==> TryAll(parse, xs).value[j] == parse(xs[j]).value
    decreases |xs|
  {
    if xs != [] {
      var n := |xs| - 1;
      TryAllOk(parse, xs[..n]);
      var vs := TryAll(parse, xs[..n]).value;
      forall j | 0 <= j < |xs| ensures (vs + [parse(xs[n]).value])[j] == parse(xs[j]).value {
        if j < n {
          assert xs[..n][j] == xs[j];
        }
      }
    }
  }

  /** When the loop gets through, no item raised. */
  lemma {:induction false} TryAllAllOk<A, T>(parse: A -> Result<T>, xs: seq<A>, j: nat)
    requires TryAll(parse, xs).Ok? && j < |xs|
    ensures parse(xs[j]).Ok?
    decreases |xs|
  {
    var n := |xs| - 1;
    if j < n {
      assert xs[..n][j] == xs[j];
      TryAllAllOk(parse, xs[..n], j);
    }
  }

  /** Where the loop stops: the first item that raises, or the end. */
  function FirstErr<A, T>(parse: A -> Result<T>, xs: seq<A>): (k: nat)
    ensures k <= |xs|
    ensures forall j :: 0 <= j < k ==> parse(xs[j]).Ok?
    ensures k < |xs| ==> parse(xs[k]).Err?
  {
    if xs == [] then 0
    else if parse(xs[0]).Err? then 0
    else
      var k := FirstErr(parse, xs[1..]);
      assert forall j :: 1 <= j < 1 + k ==> xs[j] == xs[1..][j - 1];
      1 + k
  }

  /** The loop gets through exactly when it stops at the end, and
      otherwise raises the error of the item it stops at. */
  lemma FirstErrSpec<A, T>(parse: A -> Result<T>, xs: seq<A>)
    ensures var k := FirstErr(parse, xs);
      && (TryAll(parse, xs).Ok? <==> k == |xs|)
      && (k < |xs| ==> TryAll(parse, xs) == Err(parse(xs[k]).error))
  {
    var k := FirstErr(parse, xs);
    if k == |xs| {
      TryAllOk(parse, xs);
    } else {
      TryAllOk(parse, xs[..k]);
      TryAllStop(parse, xs, k);
    }
  }

  /** After a prefix that gets through, an item that raises is where the
      loop stops. */
  lemma FirstErrAt<A, T>(parse: A -> Result<T>, xs: seq<A>, i: nat)
    requires i < |xs| && TryAll(parse, xs[..i]).Ok? && parse(xs[i]).Err?
    ensures FirstErr(parse, xs) == i
  {
    forall j | 0 <= j < i
      ensures parse(xs[j]).Ok?
    {
      TryAllAllOk(parse, xs[..i], j);
      assert xs[..i][j] == xs[j];
    }
  }
}
