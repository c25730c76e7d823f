/** ssh_cmd/converters/list_converter.py: turn the output lines of a remote
    command into per-host documents {'host': {'name', 'version', <producer>}}. */
module ListConverter {
  import opened Py
  import opened Json
  import Strs

  /** doc['host'][k], when doc is a dict whose host entry is a dict holding
      k. */
  function HostGet(doc: Value, k: string): Option<Value> {
    if doc.Obj? then
      match Get(doc.fields, "host")
      case Some(Obj(h)) => Get(h, k)
      case _ => None
    else None
  }

  /** to_nerds(host, producer_name, value): the dict literal with keys name,
      version and producer_name, a later key overwriting an earlier equal
      one in place. */
  function ToNerds(host: Value, producer: string, value: Value): (r: Value)
    ensures r.Obj? && Keys(r.fields) == ["host"] && r.fields[0].1.Obj?
    ensures HostGet(r, producer) == Some(value)
    ensures producer != "name" ==> HostGet(r, "name") == Some(host)
    ensures producer != "version" ==> HostGet(r, "version") == Some(Int(1))
    ensures forall k :: k in Keys(r.fields[0].1.fields) ==> k == "name" || k == "version" || k == producer
    ensures DistinctKeys(r.fields[0].1.fields)
  {
    var base := [("name", host), ("version", Int(1))];
    PairSpec("name", host, "version", Int(1));
    assert forall k :: k in Keys(base) ==> k == "name" || k == "version";
    PutSpec(base, producer, value);
    var h := Put(base, producer, value);
    var r := Obj([("host", Obj(h))]);
    assert Get(r.fields, "host") == Some(Obj(h));
    r
  }

  /** list_to_hosts(hosts, producer_name, template): one document per host,
      in input order, each holding the same template. */
  function ListToHosts(hosts: seq<Value>, producer: string, template: Value): (r: seq<Value>)
    ensures |r| == |hosts|
    ensures forall i :: 0 <= i < |hosts| ==> HostGet(r[i], producer) == Some(template)
    ensures producer != "name" ==> forall i :: 0 <= i < |hosts| ==> HostGet(r[i], "name") == Some(hosts[i])
  {
    seq(|hosts|, i requires 0 <= i < |hosts| => ToNerds(hosts[i], producer, template))
  }

  /** to_list(host, _list, producer_name, list_key): the list wrapped under
      list_key. */
  function ToList(host: Value, list: seq<Value>, producer: string, listKey: string): (r: Value)
    ensures HostGet(r, producer) == Some(Obj([(listKey, Arr(list))]))
    ensures producer != "name" ==> HostGet(r, "name") == Some(host)
  {
    ToNerds(host, producer, Obj([(listKey, Arr(list))]))
  }

  /** One (k, v) of the dict comprehension in split: the line cut at every
      separator must give exactly two parts, both stripped. */
  function SplitLine(line: string, sep: string): (r: Result<(string, string)>)
    ensures r.Ok? <==> sep != "" && |Strs.SplitSep(line, sep)| == 2
    ensures r.Err? ==> r.error == ValueError
  {
    if sep == "" then Err(ValueError)
    else
      var parts := Strs.SplitSep(line, sep);
      if |parts| != 2 then Err(ValueError) else Ok((Strs.Strip(parts[0]), Strs.Strip(parts[1])))
  }

  /** The dict split builds, entry by entry in line order. */
  function SplitFields(lines: seq<string>, sep: string): Result<Fields> {
    if lines == [] then Ok([])
    else
      var f :- SplitFields(lines[..|lines| - 1], sep);
      var kv :- SplitLine(lines[|lines| - 1], sep);
      Ok(Put(f, kv.0, Str(kv.1)))
  }

  /** split(host, producer_name, _list, seperator). */
  function Split(host: Value, producer: string, lines: seq<string>, sep: string): Result<Value> {
    var f :- SplitFields(lines, sep);
    Ok(ToNerds(host, producer, Obj(f)))
  }

  /** A line whose only separator comes after a and before b gives the key
      a and the value b, both stripped. */
  lemma SplitLineCut(a: string, sep: string, b: string)
    requires sep != ""
    requires forall i :: 0 <= i < |a| ==> !Strs.StartsWith((a + sep + b)[i..], sep)
    requires !Strs.Contains(b, sep)
    ensures SplitLine(a + sep + b, sep) == Ok((Strs.Strip(a), Strs.Strip(b)))
  {
    SplitSepTwo(a, sep, b);
  }

  /** The pieces of a line whose only separator comes after a. */
  lemma SplitSepTwo(a: string, sep: string, b: string)
    requires sep != ""
    requires forall i :: 0 <= i < |a| ==> !Strs.StartsWith((a + sep + b)[i..], sep)
    requires !Strs.Contains(b, sep)
    ensures Strs.SplitSep(a + sep + b, sep) == [a, b]
  {
    var line := a + sep + b;
    Strs.ConcatSlices(a, sep, b);
    assert Strs.Find(line, sep) == |a| by {
      FindIs(line, sep, |a|);
    }
    assert Strs.SplitSep(b, sep) == [b] by {
      Strs.FindAbsent(b, sep);
      Strs.SplitSepWhole(b, sep);
    }
    Strs.SplitSepCut(line, sep);
  }

  /** The first occurrence found is the one at i when none starts before. */
  lemma FindIs(s: string, p: string, i: nat)
    requires i < |s| && Strs.StartsWith(s[i..], p)
    requires forall j :: 0 <= j < i ==> !Strs.StartsWith(s[j..], p)
    ensures Strs.Find(s, p) == i
  {
  }

  /** Every line cuts into exactly two parts. */
  predicate AllCut(lines: seq<string>, sep: string) {
    forall i :: 0 <= i < |lines| ==> SplitLine(lines[i], sep).Ok?
  }

  /** split succeeds exactly when every line cuts into two parts. */
  lemma {:induction false} SplitFieldsOk(lines: seq<string>, sep: string)
    ensures SplitFields(lines, sep).Ok? <==> AllCut(lines, sep)
    decreases |lines|
  {
    if lines != [] {
      var init := lines[..|lines| - 1];
      SplitFieldsOk(init, sep);
      SnocAll(lines, sep);
    }
  }

  /** Every line cuts exactly when every line but the last does and the
      last does. */
  lemma SnocAll(lines: seq<string>, sep: string)
    requires lines != []
    ensures AllCut(lines, sep) <==> AllCut(lines[..|lines| - 1], sep) && SplitLine(lines[|lines| - 1], sep).Ok?
  {
    var init := lines[..|lines| - 1];
    if AllCut(init, sep) && SplitLine(lines[|lines| - 1], sep).Ok? {
      forall i | 0 <= i < |lines|
        ensures SplitLine(lines[i], sep).Ok?
      {
        if i < |init| {
          assert init[i] == lines[i];
        }
      }
    }
    if AllCut(lines, sep) {
      forall i | 0 <= i < |init|
        ensures SplitLine(init[i], sep).Ok?
      {
        assert init[i] == lines[i];
      }
    }
  }

  /** The value the last line with key k gives, when there is one. */
  function LastValue(lines: seq<string>, sep: string, k: string): Option<Value> {
    if lines == [] then None
    else
      var kv := SplitLine(lines[|lines| - 1], sep);
      if kv.Ok? && kv.value.0 == k then Some(Str(kv.value.1))
      else LastValue(lines[..|lines| - 1], sep, k)
  }

  /** Each key of split's dict reads the value of its last line: a repeated
      key keeps its last value; and the keys are distinct. */
  lemma {:induction false} SplitFieldsLast(lines: seq<string>, sep: string, k: string)
    requires SplitFields(lines, sep).Ok?
    ensures Get(SplitFields(lines, sep).value, k) == LastValue(lines, sep, k)
    ensures DistinctKeys(SplitFields(lines, sep).value)
    decreases |lines|
  {
    if lines != [] {
      var init := lines[..|lines| - 1];
      var last := lines[|lines| - 1];
      assert SplitFields(init, sep).Ok? && SplitLine(last, sep).Ok?;
      var f := SplitFields(init, sep).value;
      var kv := SplitLine(last, sep).value;
      assert SplitFields(lines, sep).value == Put(f, kv.0, Str(kv.1));
      assert LastValue(lines, sep, k) == if kv.0 == k then Some(Str(kv.1)) else LastValue(init, sep, k);
      SplitFieldsLast(init, sep, k);
      PutSpec(f, kv.0, Str(kv.1));
    }
  }

  /** split fails with ValueError when a line does not cut into two parts,
      and otherwise stores the parsed dict under the producer key. */
  lemma SplitSpec(host: Value, producer: string, lines: seq<string>, sep: string, k: string)
    ensures (exists i :: 0 <= i < |lines| && SplitLine(lines[i], sep).Err?) ==> Split(host, producer, lines, sep) == Err(ValueError)
    ensures Split(host, producer, lines, sep).Ok? ==>
              && HostGet(Split(host, producer, lines, sep).value, producer).Some?
              && HostGet(Split(host, producer, lines, sep).value, producer).value.Obj?
              && Get(HostGet(Split(host, producer, lines, sep).value, producer).value.fields, k) == LastValue(lines, sep, k)
  {
    SplitFieldsOk(lines, sep);
    SplitFieldsErr(lines, sep);
    if SplitFields(lines, sep).Ok? {
      SplitFieldsLast(lines, sep, k);
    }
  }

  /** The only error split raises is ValueError. */
  lemma {:induction false} SplitFieldsErr(lines: seq<string>, sep: string)
    ensures SplitFields(lines, sep).Err? ==> SplitFields(lines, sep).error == ValueError
    decreases |lines|
  {
    if lines != [] {
      SplitFieldsErr(lines[..|lines| - 1], sep);
    }
  }
}
