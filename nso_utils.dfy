/** The NSO helpers: dotted-path lookup (find), recursive key search
    (find_all, find_first) and the loopback prefix cleaner. */
module NsoUtils {
  import opened Py
  import opened Json
  import Strs

  // ---------------------------------------------------------------------
  // find

  /** The loop of find over the remaining path segments: a segment that is
      not `in` the current element yields the default; otherwise the
      element becomes elm[p]. */
  function FindPath(ps: seq<string>, elm: Value, default: Value): Result<Value>
    decreases |ps|
  {
    if ps == [] then Ok(elm)
    else
      var present :- In(ps[0], elm);
      if !present then Ok(default)
      else
        var next :- Index(elm, ps[0]);
        FindPath(ps[1..], next, default)
  }

  /** find(what, data, delimiter, default): an empty delimiter makes
      str.split raise ValueError. */
  function Find(what: string, data: Value, delimiter: string, default: Value): Result<Value> {
    if delimiter == "" then Err(ValueError)
    else FindPath(Strs.SplitSep(what, delimiter), data, default)
  }

  /** find as written: a loop that reassigns elm and breaks out on the
      first missing segment. */
  method FindLoop(what: string, data: Value, delimiter: string, default: Value) returns (r: Result<Value>)
    ensures r == Find(what, data, delimiter, default)
  {
    if delimiter == "" {
      return Err(ValueError);
    }
    var paths := Strs.SplitSep(what, delimiter);
    var elm := data;
    var i := 0;
    while i < |paths|
      invariant 0 <= i <= |paths|
      invariant FindPath(paths, data, default) == FindPath(paths[i..], elm, default)
    {
      var p := paths[i];
      var present := In(p, elm);
      if present.Err? {
        return Err(present.error);
      }
      if !present.value {
        elm := default;
        break;
      }
      var next := Index(elm, p);
      if next.Err? {
        return Err(next.error);
      }
      assert paths[i..][1..] == paths[i + 1..];
      elm := next.value;
      i := i + 1;
    }
    r := Ok(elm);
  }

  /** Reference reading of a path through nested dicts only. */
  datatype Walked = Found(v: Value) | Missing | NotDict

  function Walk(ps: seq<string>, elm: Value): Walked
    decreases |ps|
  {
    if ps == [] then Found(elm)
    else if !elm.Obj? then NotDict
    else match Get(elm.fields, ps[0])
      case None => Missing
      case Some(next) => Walk(ps[1..], next)
  }

  /** Through nested dicts, find follows every segment, and returns the
      default as soon as a segment is missing. */
  lemma {:induction false} FindWalk(ps: seq<string>, elm: Value, default: Value)
    ensures Walk(ps, elm).Found? ==> FindPath(ps, elm, default) == Ok(Walk(ps, elm).v)
    ensures Walk(ps, elm).Missing? ==> FindPath(ps, elm, default) == Ok(default)
    decreases |ps|
  {
    if ps != [] && elm.Obj? {
      if HasKey(elm.fields, ps[0]) {
        FindWalk(ps[1..], Get(elm.fields, ps[0]).value, default);
      }
    }
  }

  /** A path without the delimiter is a single key, so keys containing
      '.' are reachable with another delimiter. */
  lemma OneSegment(what: string, data: Value, delimiter: string, default: Value)
    requires delimiter != "" && !Strs.Contains(what, delimiter)
    ensures Find(what, data, delimiter, default) == FindPath([what], data, default)
  {
    var i := Strs.Find(what, delimiter);
    if i < |what| {
      assert Strs.OccursAt(what, delimiter, i) by {
        assert what[i..][..|delimiter|] == what[i..i + |delimiter|];
      }
      Strs.ContainsAt(what, delimiter);
    }
  }

  /** A one-segment find on a dict is data.get(key, default). */
  lemma FindKey(key: string, data: Value, default: Value)
    requires data.Obj?
    ensures FindPath([key], data, default) ==
            Ok(if HasKey(data.fields, key) then Get(data.fields, key).value else default)
  {
    FindWalk([key], data, default);
  }

  // ---------------------------------------------------------------------
  // find_all

  /** Every value stored under key what, searching lists and dicts in
      order and not looking inside a value that matched. */
  function AllUnder(what: string, v: Value): seq<Value>
    decreases v, 2
  {
    match v
    case Arr(items) => AllItems(what, items)
    case Obj(fields) => AllFields(what, fields)
    case _ => []
  }

  function AllItems(what: string, items: seq<Value>): seq<Value>
    decreases items, 1
  {
    if items == [] then []
    else AllItems(what, items[..|items| - 1]) + AllUnder(what, items[|items| - 1])
  }

  function AllFields(what: string, fields: seq<(string, Value)>): seq<Value>
    decreases fields, 1
  {
    if fields == [] then []
    else
      var e := fields[|fields| - 1];
      assert e in fields && e.1 < e;
      AllFields(what, fields[..|fields| - 1]) + (if e.0 == what then [e.1] else AllUnder(what, e.1))
  }

  /** find_all(what, data, result): appends to result, in traversal order,
      every value stored under what. */
  method FindAll(what: string, data: Value, result: seq<Value>) returns (r: seq<Value>)
    ensures r == result + AllUnder(what, data)
    decreases data
  {
    r := result;
    if data.Arr? {
      var items := data.items;
      for i := 0 to |items|
        invariant r == result + AllItems(what, items[..i])
      {
        assert items[..i + 1][..i] == items[..i];
        r := FindAll(what, items[i], r);
      }
      assert items[..|items|] == items;
    }
    if data.Obj? {
      var fields := data.fields;
      for i := 0 to |fields|
        invariant r == result + AllFields(what, fields[..i])
      {
        assert fields[..i + 1][..i] == fields[..i];
        var (k, v) := fields[i];
        if k == what {
          r := r + [v];
        } else {
          r := FindAll(what, v, r);
        }
      }
      assert fields[..|fields|] == fields;
    }
  }

  /** Every (key, value) entry of v at any depth, in traversal order: the
      reference against which find_all is read. */
  function Entries(v: Value): seq<(string, Value)>
    decreases v, 2
  {
    match v
    case Arr(items) => ItemEntries(items)
    case Obj(fields) => FieldEntries(fields)
    case _ => []
  }

  function ItemEntries(items: seq<Value>): seq<(string, Value)>
    decreases items, 1
  {
    if items == [] then []
    else ItemEntries(items[..|items| - 1]) + Entries(items[|items| - 1])
  }

  function FieldEntries(fields: seq<(string, Value)>): seq<(string, Value)>
    decreases fields, 1
  {
    if fields == [] then []
    else
      var e := fields[|fields| - 1];
      assert e in fields && e.1 < e;
      FieldEntries(fields[..|fields| - 1]) + [e] + Entries(e.1)
  }

  /** Everything find_all returns is stored under what somewhere in data. */
  lemma {:induction false} AllUnderSound(what: string, v: Value)
    ensures forall x :: x in AllUnder(what, v) ==> (what, x) in Entries(v)
    decreases v, 2
  {
    match v
    case Arr(items) => ItemsSound(what, items);
    case Obj(fields) => FieldsSound(what, fields);
    case _ =>
  }

  lemma {:induction false} ItemsSound(what: string, items: seq<Value>)
    ensures forall x :: x in AllItems(what, items) ==> (what, x) in ItemEntries(items)
    decreases items, 1
  {
    if items != [] {
      ItemsSound(what, items[..|items| - 1]);
      AllUnderSound(what, items[|items| - 1]);
    }
  }

  lemma {:induction false} FieldsSound(what: string, fields: seq<(string, Value)>)
    ensures forall x :: x in AllFields(what, fields) ==> (what, x) in FieldEntries(fields)
    decreases fields, 1
  {
    if fields != [] {
      var e := fields[|fields| - 1];
      assert e in fields && e.1 < e;
      FieldsSound(what, fields[..|fields| - 1]);
      AllUnderSound(what, e.1);
    }
  }

  /** find_all finds something only when some entry anywhere in data is
      stored under what. */
  lemma NoKeyNothing(what: string, v: Value)
    ensures AllUnder(what, v) != [] ==> exists e :: e in Entries(v) && e.0 == what
  {
    var all := AllUnder(what, v);
    if all != [] {
      AllUnderSound(what, v);
      assert (what, all[0]) in Entries(v);
    }
  }

  /** Each value of a top-level entry under what is found, whatever it
      holds, and nothing below it is searched. */
  lemma {:induction false} TopLevelFound(what: string, fields: seq<(string, Value)>, x: Value)
    ensures AllFields(what, fields + [(what, x)]) == AllFields(what, fields) + [x]
    ensures (what, x) in fields ==> x in AllFields(what, fields)
    decreases |fields|
  {
    assert (fields + [(what, x)])[..|fields|] == fields;
    if fields != [] && (what, x) in fields {
      var init := fields[..|fields| - 1];
      if fields[|fields| - 1] != (what, x) {
        assert (what, x) in init by {
          assert fields == init + [fields[|fields| - 1]];
        }
        TopLevelFound(what, init, x);
      }
    }
  }

  /** find_first(what, data, default): the first value find_all returns,
      or the default when it returns nothing. */
  method FindFirst(what: string, data: Value, default: Value) returns (r: Value)
    ensures AllUnder(what, data) == [] ==> r == default
    ensures AllUnder(what, data) != [] ==> r == AllUnder(what, data)[0]
    ensures r == default || (what, r) in Entries(data)
  {
    var result := FindAll(what, data, []);
    assert result == AllUnder(what, data);
    AllUnderSound(what, data);
    if |result| > 0 {
      r := result[0];
    } else {
      r := default;
    }
  }

  /** The value find_first denotes, for use in expressions. */
  function First(what: string, data: Value, default: Value): Value {
    var all := AllUnder(what, data);
    if all != [] then all[0] else default
  }

  // ---------------------------------------------------------------------
  // hostname_clean

  /** hostname_clean(host): host.replace('lo0.', ''). */
  function HostnameClean(host: string): string {
    Strs.ReplaceAll(host, "lo0.", "")
  }

  /** A leading 'lo0.' goes, a host without 'lo0.' is kept, and cleaning
      never lengthens the name. */
  lemma HostnameCleanSpec(host: string)
    ensures HostnameClean("lo0." + host) == HostnameClean(host)
    ensures !Strs.Contains(host, "lo0.") ==> HostnameClean(host) == host
    ensures |HostnameClean(host)| <= |host|
  {
    Strs.ReplaceFront("lo0.", host, "");
    assert "" + HostnameClean(host) == HostnameClean(host);
    if !Strs.Contains(host, "lo0.") {
      Strs.ReplaceAbsent(host, "lo0.", "");
    }
    Strs.RemoveShortens(host, "lo0.");
  }
}
