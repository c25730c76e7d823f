/** producers/nagiosxi_api/nagiosxi_api.py: the service status records the
    NagiosXI API answers with, cut down to the wanted columns and grouped
    into one NERDS document per host_name.  The producer runs under
    Python 3, so its dicts keep insertion order and the documents come out
    in the order their hosts first appear. */
module NagiosxiApi {
  import opened Py
  import opened Json
  import opened Grouping
  import Nerds

  // ---------------------------------------------------------------------
  // only_fields

  /** COLUMNS: the service fields kept, host fields first. */
  const Columns: seq<string> :=
    ["host_name", "host_address", "host_alias", "check_command", "name",
     "display_name", "last_check", "performance_data", "status_text"]

  /** MAPPING: the fields renamed on the way. */
  const Mapping: map<string, string> :=
    map["name" := "description", "status_text" := "plugin_output", "performance_data" := "perf_data"]

  /** rename.get(key, key). */
  function Rename(rename: map<string, string>, key: string): string {
    if key in rename then rename[key] else key
  }

  /** The output key of each key, in order. */
  function Renamed(keys: seq<string>, rename: map<string, string>): (r: seq<string>)
    ensures |r| == |keys| && forall i :: 0 <= i < |keys| ==> r[i] == Rename(rename, keys[i])
  {
    seq(|keys|, i requires 0 <= i < |keys| => Rename(rename, keys[i]))
  }

  /** The dict comprehension after its first n keys: each stores
      _dict.get(key) under the renamed key. */
  function Pick(f: Fields, keys: seq<string>, rename: map<string, string>, n: nat): Fields
    requires n <= |keys|
  {
    if n == 0 then []
    else Put(Pick(f, keys, rename, n - 1), Rename(rename, keys[n - 1]), GetDefault(f, keys[n - 1], Null))
  }

  /** only_fields(_dict, keys, rename).  The comprehension calls
      _dict.get once it has a key, and only a dict has get. */
  function OnlyFields(d: Value, keys: seq<string>, rename: map<string, string>): Result<Fields> {
    if keys == [] then Ok([])
    else if !d.Obj? then Err(AttributeError)
    else Ok(Pick(d.fields, keys, rename, |keys|))
  }

  /** One entry per key, in the order of keys: the renamed key and the
      input's value for the original key, None when it has none. */
  function Picked(f: Fields, keys: seq<string>, rename: map<string, string>, n: nat): (r: Fields)
    requires n <= |keys|
    ensures |r| == n
  {
    seq(n, i requires 0 <= i < n => (Rename(rename, keys[i]), GetDefault(f, keys[i], Null)))
  }

  /** While the renamed keys are distinct the comprehension adds one entry
      per key, at the end. */
  lemma {:induction false} PickSpec(f: Fields, keys: seq<string>, rename: map<string, string>, n: nat)
    requires n <= |keys| && Distinct(Renamed(keys, rename))
    ensures Pick(f, keys, rename, n) == Picked(f, keys, rename, n)
    decreases n
  {
    if n > 0 {
      var prev := Pick(f, keys, rename, n - 1);
      var k := Rename(rename, keys[n - 1]);
      PickSpec(f, keys, rename, n - 1);
      assert !HasKey(prev, k) by {
        forall j | 0 <= j < n - 1 ensures prev[j].0 != k {
          assert prev[j].0 == Renamed(keys, rename)[j];
        }
      }
      PutFresh(prev, k, GetDefault(f, keys[n - 1], Null));
      PickedSnoc(f, keys, rename, n);
    }
  }

  /** One more key adds one entry at the end. */
  lemma PickedSnoc(f: Fields, keys: seq<string>, rename: map<string, string>, n: nat)
    requires 0 < n <= |keys|
    ensures Picked(f, keys, rename, n)
         == Picked(f, keys, rename, n - 1) + [(Rename(rename, keys[n - 1]), GetDefault(f, keys[n - 1], Null))]
  {
    var a := Picked(f, keys, rename, n);
    var b := Picked(f, keys, rename, n - 1);
    forall i | 0 <= i < n - 1 ensures a[i] == b[i] {
    }
  }

  /** only_fields on a dict: its keys are the renamed keys in order, and
      each reads the input's value for the original key or None. */
  lemma OnlyFieldsSpec(d: Value, keys: seq<string>, rename: map<string, string>)
    requires d.Obj? && Distinct(Renamed(keys, rename))
    ensures OnlyFields(d, keys, rename) == Ok(Picked(d.fields, keys, rename, |keys|))
    ensures Keys(OnlyFields(d, keys, rename).value) == Renamed(keys, rename)
  {
    PickSpec(d.fields, keys, rename, |keys|);
  }

  /** The keys of only_fields with COLUMNS and MAPPING. */
  const ServiceKeys: seq<string> :=
    ["host_name", "host_address", "host_alias", "check_command", "description",
     "display_name", "last_check", "perf_data", "plugin_output"]

  /** The nine keys are distinct. */
  lemma ServiceKeysDistinct()
    ensures Distinct(ServiceKeys)
  {
    var k := ServiceKeys;
    forall i, j | 0 <= i < j < |k| ensures k[i] != k[j] {
      assert |k[i]| != |k[j]| || k[i][0] != k[j][0];
    }
  }

  /** MAPPING renames three of COLUMNS and leaves the other six alone. */
  lemma DefaultRenamed()
    ensures Renamed(Columns, Mapping) == ServiceKeys
  {
    var r := Renamed(Columns, Mapping);
    assert r[4] == "description" && r[7] == "perf_data" && r[8] == "plugin_output";
    assert "host_name" !in Mapping && "host_address" !in Mapping && "host_alias" !in Mapping;
    assert "check_command" !in Mapping && "display_name" !in Mapping && "last_check" !in Mapping;
  }

  /** only_fields(service) with its defaults has the nine keys, in order. */
  lemma OnlyFieldsDefault(d: Value)
    requires d.Obj?
    ensures var r := OnlyFields(d, Columns, Mapping);
      r.Ok? && Keys(r.value) == ServiceKeys && DistinctKeys(r.value)
  {
    DefaultRenamed();
    ServiceKeysDistinct();
    OnlyFieldsSpec(d, Columns, Mapping);
    var r := OnlyFields(d, Columns, Mapping).value;
    assert forall i :: 0 <= i < |r| ==> r[i].0 == ServiceKeys[i];
  }

  /** description, perf_data and plugin_output read name,
      performance_data and status_text. */
  lemma OnlyFieldsRenamed(d: Value)
    requires d.Obj?
    ensures var r := OnlyFields(d, Columns, Mapping);
      && r.Ok? && |r.value| == 9
      && r.value[4] == ("description", GetDefault(d.fields, "name", Null))
      && r.value[7] == ("perf_data", GetDefault(d.fields, "performance_data", Null))
      && r.value[8] == ("plugin_output", GetDefault(d.fields, "status_text", Null))
  {
    DefaultRenamed();
    ServiceKeysDistinct();
    OnlyFieldsSpec(d, Columns, Mapping);
    assert Columns[4] == "name" && Columns[7] == "performance_data" && Columns[8] == "status_text";
  }

  // ---------------------------------------------------------------------
  // the documents

  /** The checks as JSON objects. */
  function Objs(checks: seq<Fields>): (r: seq<Value>)
    ensures |r| == |checks| && forall i :: 0 <= i < |checks| ==> r[i] == Obj(checks[i])
  {
    seq(|checks|, i requires 0 <= i < |checks| => Obj(checks[i]))
  }

  /** The nagiosxi_api payload of a host's document. */
  function Payload(name: Value, alias: Value, address: Value, checks: seq<Fields>): Fields {
    [("host_name", name), ("host_alias", alias), ("host_address", address), ("checks", Arr(Objs(checks)))]
  }

  /** The payload has its four keys, each reading what it was given. */
  lemma PayloadSpec(name: Value, alias: Value, address: Value, checks: seq<Fields>)
    ensures var p := Payload(name, alias, address, checks);
      && Keys(p) == ["host_name", "host_alias", "host_address", "checks"] && DistinctKeys(p)
      && Get(p, "host_name") == Some(name) && Get(p, "host_alias") == Some(alias)
      && Get(p, "host_address") == Some(address) && Get(p, "checks") == Some(Arr(Objs(checks)))
  {
    var p := Payload(name, alias, address, checks);
    IndexOfAt(p, "host_alias", 1);
    IndexOfAt(p, "host_address", 2);
    IndexOfAt(p, "checks", 3);
  }

  /** nerds_base(host_name, host_address, host_alias): a document named
      after the host whose nagiosxi_api payload repeats the host fields
      and has no checks yet. */
  function NerdsBase(name: Value, address: Value, alias: Value): (r: Value)
    ensures r.Obj? && |r.fields| == 1 && r.fields[0].0 == "host" && r.fields[0].1.Obj?
    ensures var host := r.fields[0].1.fields;
      && Get(host, "name") == Some(name) && Get(host, "version") == Some(Int(1))
      && Get(host, "nagiosxi_api") == Some(Obj(Payload(name, alias, address, [])))
  {
    var r := Nerds.ToNerds(name, Some("nagiosxi_api"), Obj(Payload(name, alias, address, [])));
    assert |Keys(r.fields)| == 1;
    r
  }

  /** A host's document while the services are processed. */
  datatype HostDoc = HostDoc(name: Value, address: Value, alias: Value, checks: seq<Fields>)

  /** The envelope's entries for a host: version, name, then the payload. */
  function HostFields(d: HostDoc): Fields {
    [("version", Int(1)), ("name", d.name), ("nagiosxi_api", Obj(Payload(d.name, d.alias, d.address, d.checks)))]
  }

  /** The document as JSON. */
  function Document(d: HostDoc): Value {
    Obj([("host", Obj(HostFields(d)))])
  }

  /** The document is to_nerds of its payload under producer nagiosxi_api. */
  lemma DocumentToNerds(d: HostDoc)
    ensures Document(d) == Nerds.ToNerds(d.name, Some("nagiosxi_api"), Obj(Payload(d.name, d.alias, d.address, d.checks)))
  {
    var base := [("version", Int(1)), ("name", d.name)];
    var data := Obj(Payload(d.name, d.alias, d.address, d.checks));
    assert Nerds.ProducerSet(Some("nagiosxi_api"));
    assert !HasKey(base, "nagiosxi_api");
    PutFresh(base, "nagiosxi_api", data);
    assert base + [("nagiosxi_api", data)] == HostFields(d);
  }

  /** A host's document starts out as nerds_base. */
  lemma DocumentBase(name: Value, address: Value, alias: Value)
    ensures Document(HostDoc(name, address, alias, [])) == NerdsBase(name, address, alias)
  {
    DocumentToNerds(HostDoc(name, address, alias, []));
  }

  /** _service['host']['nagiosxi_api']['checks'].append(service) on a
      document held in _dict. */
  function AppendCheck(doc: Value, check: Fields): Result<Value> {
    var host :- Index(doc, "host");
    var payload :- Index(host, "nagiosxi_api");
    var checks :- Index(payload, "checks");
    if !checks.Arr? then Err(AttributeError)
    else
      var payload' := Put(payload.fields, "checks", Arr(checks.items + [Obj(check)]));
      var host' := Put(host.fields, "nagiosxi_api", Obj(payload'));
      Ok(Obj(Put(doc.fields, "host", Obj(host'))))
  }

  /** Storing the longer checks list in the payload. */
  lemma PayloadAppend(d: HostDoc, check: Fields)
    ensures Put(Payload(d.name, d.alias, d.address, d.checks), "checks", Arr(Objs(d.checks) + [Obj(check)]))
         == Payload(d.name, d.alias, d.address, d.checks + [check])
  {
    var p := Payload(d.name, d.alias, d.address, d.checks);
    PutAt(p, 3, "checks", Arr(Objs(d.checks) + [Obj(check)]));
    assert Objs(d.checks) + [Obj(check)] == Objs(d.checks + [check]);
    assert p[3 := ("checks", Arr(Objs(d.checks + [check])))] == Payload(d.name, d.alias, d.address, d.checks + [check]);
  }

  /** The three lookups the append makes. */
  lemma AppendLookups(d: HostDoc)
    ensures Index(Document(d), "host") == Ok(Obj(HostFields(d)))
    ensures Index(Obj(HostFields(d)), "nagiosxi_api") == Ok(Obj(Payload(d.name, d.alias, d.address, d.checks)))
    ensures Index(Obj(Payload(d.name, d.alias, d.address, d.checks)), "checks") == Ok(Arr(Objs(d.checks)))
  {
    IndexOfAt(Document(d).fields, "host", 0);
    IndexOfAt(HostFields(d), "nagiosxi_api", 2);
    IndexOfAt(Payload(d.name, d.alias, d.address, d.checks), "checks", 3);
  }

  /** Appending a check to a host's document appends it to the host's
      checks and changes nothing else. */
  lemma AppendCheckSpec(d: HostDoc, check: Fields)
    ensures AppendCheck(Document(d), check) == Ok(Document(d.(checks := d.checks + [check])))
  {
    var d' := d.(checks := d.checks + [check]);
    var p' := Payload(d.name, d.alias, d.address, d'.checks);
    AppendLookups(d);
    PayloadAppend(d, check);
    assert Put(HostFields(d), "nagiosxi_api", Obj(p')) == HostFields(d') by {
      PutAt(HostFields(d), 2, "nagiosxi_api", Obj(p'));
    }
    assert Put(Document(d).fields, "host", Obj(HostFields(d'))) == Document(d').fields by {
      PutAt(Document(d).fields, 0, "host", Obj(HostFields(d')));
    }
  }

  // ---------------------------------------------------------------------
  // one service

  /** What one service contributes: its host's identity and the check the
      service becomes. */
  datatype Entry = Entry(host: Value, address: Value, alias: Value, check: Fields)

  /** The service dict after the pops that ran: host_name, then
      host_address (not reached when host_name is missing), then
      host_alias. */
  function Popped(s: Fields): Fields {
    if !HasKey(s, "host_name") then s
    else
      var s1 := Del(s, "host_name");
      if !HasKey(s1, "host_address") then s1
      else Del(Del(s1, "host_address"), "host_alias")
  }

  /** The loop body up to the append.  service.pop('host_name') and
      service.pop('host_address') raise KeyError, host_alias defaults to
      None, and `host_name not in _dict` hashes the host name. */
  function ServiceEntry(s: Fields): Result<Entry> {
    if !HasKey(s, "host_name") then Err(KeyError("host_name"))
    else
      var s1 := Del(s, "host_name");
      if !HasKey(s1, "host_address") then Err(KeyError("host_address"))
      else
        var name := Get(s, "host_name").value;
        var s2 := Del(s1, "host_address");
        if !Hashable(name) then Err(TypeError)
        else Ok(Entry(name, Get(s1, "host_address").value, GetDefault(s2, "host_alias", Null), Popped(s)))
  }

  /** A service raises KeyError when it lacks host_name or host_address,
      TypeError for a list or dict host name, and otherwise its check is
      the service without the three host keys: every other key reads what
      it read before. */
  lemma ServiceEntrySpec(s: Fields, k: string)
    ensures var r := ServiceEntry(s);
      && (!HasKey(s, "host_name") ==> r == Err(KeyError("host_name")) && Popped(s) == s)
      && (HasKey(s, "host_name") && !HasKey(s, "host_address") ==> r == Err(KeyError("host_address")))
      && (r.Ok? <==> HasKey(s, "host_name") && HasKey(s, "host_address") && Hashable(Get(s, "host_name").value))
      && (r.Ok? ==> Some(r.value.host) == Get(s, "host_name") && Some(r.value.address) == Get(s, "host_address")
                    && (HasKey(s, "host_alias") ==> Some(r.value.alias) == Get(s, "host_alias"))
                    && (!HasKey(s, "host_alias") ==> r.value.alias == Null))
      && (r.Ok? ==> r.value.check == Popped(s) && Get(Popped(s), k) ==
                    (if k == "host_name" || k == "host_address" || k == "host_alias" then None else Get(s, k)))
  {
    var s1 := Del(s, "host_name");
    var s2 := Del(s1, "host_address");
    DelGet(s, "host_name", k);
    DelGet(s1, "host_address", k);
    DelGet(s2, "host_alias", k);
    DelGet(s, "host_name", "host_address");
    DelGet(s, "host_name", "host_alias");
    DelGet(s1, "host_address", "host_alias");
    assert HasKey(s1, "host_address") <==> Get(s1, "host_address").Some?;
    assert HasKey(s, "host_address") <==> Get(s, "host_address").Some?;
    assert HasKey(s2, "host_alias") <==> Get(s2, "host_alias").Some?;
    assert HasKey(s, "host_alias") <==> Get(s, "host_alias").Some?;
  }

  // ---------------------------------------------------------------------
  // the per-host documents

  /** The host names of the documents, in _dict's order. */
  function Names(docs: seq<HostDoc>): (r: seq<Value>)
    ensures |r| == |docs| && forall i :: 0 <= i < |docs| ==> r[i] == docs[i].name
  {
    seq(|docs|, i requires 0 <= i < |docs| => docs[i].name)
  }

  /** Where h sits among the keys, or the end when it is not there. */
  function Position(ks: seq<Value>, h: Value): (r: nat)
    ensures r <= |ks| && (r < |ks| ==> ks[r] == h)
    ensures forall j :: 0 <= j < r ==> ks[j] != h
  {
    if ks == [] then 0
    else if ks[0] == h then 0
    else
      var r := Position(ks[1..], h);
      assert forall j :: 1 <= j < 1 + r ==> ks[j] == ks[1..][j - 1];
      1 + r
  }

  /** _dict after one service: a host not seen yet gets nerds_base at the
      end, and the check goes at the end of its host's checks. */
  function Step(docs: seq<HostDoc>, e: Entry): seq<HostDoc> {
    var i := Position(Names(docs), e.host);
    var docs' := if i < |docs| then docs else docs + [HostDoc(e.host, e.address, e.alias, [])];
    docs'[i := docs'[i].(checks := docs'[i].checks + [e.check])]
  }

  /** _dict after the entries of es, in order. */
  function Collect(es: seq<Entry>): seq<HostDoc> {
    if es == [] then [] else Step(Collect(es[..|es| - 1]), es[|es| - 1])
  }

  /** _dict's items as JSON. */
  function Items(docs: seq<HostDoc>): (r: seq<(Value, Value)>)
    ensures |r| == |docs| && forall i :: 0 <= i < |docs| ==> r[i] == (docs[i].name, Document(docs[i]))
  {
    seq(|docs|, i requires 0 <= i < |docs| => (docs[i].name, Document(docs[i])))
  }

  /** _dict.values(). */
  function Values(docs: seq<HostDoc>): (r: seq<Value>)
    ensures |r| == |docs| && forall i :: 0 <= i < |docs| ==> r[i] == Document(docs[i])
  {
    seq(|docs|, i requires 0 <= i < |docs| => Document(docs[i]))
  }

  /** ServiceEntry as the parser the loop applies to each service. */
  function ServiceParser(): Fields -> Result<Entry> {
    s => ServiceEntry(s)
  }

  /** nerds_format(services): the documents in order of first appearance
      of their host, or the error of the first service that raises. */
  function NerdsFormatSpec(services: seq<Fields>): Result<seq<Value>> {
    var es :- TryAll(ServiceParser(), services);
    Ok(Values(Collect(es)))
  }

  /** The services with the pops run on the first n. */
  function PoppedPrefix(services: seq<Fields>, n: nat): (r: seq<Fields>)
    ensures |r| == |services|
  {
    seq(|services|, j requires 0 <= j < |services| => if j < n then Popped(services[j]) else services[j])
  }

  /** The services after nerds_format: the pops ran on every service up
      to the one that raised, and the rest are untouched. */
  function AfterPops(services: seq<Fields>): seq<Fields> {
    PoppedPrefix(services, FirstErr(ServiceParser(), services) + 1)
  }

  /** The pops on one more service. */
  lemma PopOne(cur: seq<Fields>, services: seq<Fields>, i: nat)
    requires cur == PoppedPrefix(services, i) && i < |services|
    ensures cur[i] == services[i]
    ensures cur[i := Popped(services[i])] == PoppedPrefix(services, i + 1)
  {
  }

  /** _dict gains the entry one more service makes. */
  lemma CollectSnoc(es: seq<Entry>, e: Entry)
    ensures Collect(es + [e]) == Step(Collect(es), e)
  {
    assert (es + [e])[..|es|] == es;
  }

  // ---------------------------------------------------------------------
  // the loop

  /** The three pops and the hash of the host name. */
  method PopHost(service: Fields) returns (r: Result<Entry>, popped: Fields)
    ensures r == ServiceEntry(service) && popped == Popped(service)
  {
    if !HasKey(service, "host_name") {
      return Err(KeyError("host_name")), service;
    }
    var name := Get(service, "host_name").value;
    var s := Del(service, "host_name");
    if !HasKey(s, "host_address") {
      return Err(KeyError("host_address")), s;
    }
    var address := Get(s, "host_address").value;
    s := Del(s, "host_address");
    var alias := GetDefault(s, "host_alias", Null);
    s := Del(s, "host_alias");
    if !Hashable(name) {
      return Err(TypeError), s;
    }
    return Ok(Entry(name, address, alias, s)), s;
  }

  /** The lookup in _dict, nerds_base for a new host, and the append. */
  method AddCheck(dict: seq<(Value, Value)>, e: Entry, ghost docs: seq<HostDoc>)
    returns (d: seq<(Value, Value)>)
    requires dict == Items(docs)
    ensures d == Items(Step(docs, e))
  {
    var keys := seq(|dict|, j requires 0 <= j < |dict| => dict[j].0);
    assert keys == Names(docs);
    var i := Position(keys, e.host);
    d := dict;
    ghost var docs' := docs;
    if i == |dict| {
      DocumentBase(e.host, e.address, e.alias);
      d := dict + [(e.host, NerdsBase(e.host, e.address, e.alias))];
      docs' := docs + [HostDoc(e.host, e.address, e.alias, [])];
    }
    assert d == Items(docs');
    AppendCheckSpec(docs'[i], e.check);
    var doc := AppendCheck(d[i].1, e.check);
    d := d[i := (e.host, doc.value)];
    assert d == Items(docs'[i := docs'[i].(checks := docs'[i].checks + [e.check])]);
  }

  /** nerds_format, as the loop the source runs over a list of service
      dicts that it pops in place. */
  method NerdsFormat(services: array<Fields>) returns (r: Result<seq<Value>>)
    modifies services
    ensures r == NerdsFormatSpec(old(services[..]))
    ensures services[..] == AfterPops(old(services[..]))
  {
    ghost var ss := services[..];
    var dict: seq<(Value, Value)> := [];
    ghost var es: seq<Entry> := [];
    for i := 0 to services.Length
      invariant services[..] == PoppedPrefix(ss, i)
      invariant TryAll(ServiceParser(), ss[..i]) == Ok(es)
      invariant dict == Items(Collect(es))
    {
      TryAllSnoc(ServiceParser(), ss, i);
      PopOne(services[..], ss, i);
      var next, popped := PopHost(services[i]);
      services[i] := popped;
      if next.Err? {
        TryAllStop(ServiceParser(), ss, i);
        FirstErrAt(ServiceParser(), ss, i);
        return Err(next.error);
      }
      dict := AddCheck(dict, next.value, Collect(es));
      CollectSnoc(es, next.value);
      es := es + [next.value];
    }
    assert ss[..services.Length] == ss;
    FirstErrSpec(ServiceParser(), ss);
    r := Ok(seq(|dict|, j requires 0 <= j < |dict| => dict[j].1));
    assert r.value == Values(Collect(es));
  }

  // ---------------------------------------------------------------------
  // what nerds_format promises

  /** Each entry's host and check, as Grouping sees them. */
  function Pairs(es: seq<Entry>): (r: seq<(Value, Fields)>)
    ensures |r| == |es| && forall i :: 0 <= i < |es| ==> r[i] == (es[i].host, es[i].check)
  {
    seq(|es|, i requires 0 <= i < |es| => (es[i].host, es[i].check))
  }

  /** The pairs of es without its last entry. */
  lemma PairsInit(es: seq<Entry>)
    requires es != []
    ensures Pairs(es)[..|es| - 1] == Pairs(es[..|es| - 1])
  {
  }

  /** A new host is added at the end of _dict; a known one keeps its
      place. */
  lemma StepNames(docs: seq<HostDoc>, e: Entry)
    ensures Names(Step(docs, e)) == if e.host in Names(docs) then Names(docs) else Names(docs) + [e.host]
  {
    var i := Position(Names(docs), e.host);
    assert i < |docs| <==> e.host in Names(docs);
  }

  /** _dict's keys are the host names in order of first appearance. */
  lemma {:induction false} CollectNames(es: seq<Entry>)
    ensures Names(Collect(es)) == FirstKeys(Pairs(es))
    decreases |es|
  {
    if es != [] {
      var n := |es| - 1;
      CollectNames(es[..n]);
      StepNames(Collect(es[..n]), es[n]);
      PairsInit(es);
    }
  }

  /** _dict's keys are distinct. */
  lemma CollectDistinct(es: seq<Entry>)
    ensures Distinct(Names(Collect(es)))
  {
    CollectNames(es);
    FirstKeysSpec(Pairs(es), Null);
  }

  /** Each host's checks are the checks of its services, in order. */
  lemma {:induction false} CollectChecks(es: seq<Entry>, k: nat)
    requires k < |Collect(es)|
    ensures Collect(es)[k].checks == Members(Pairs(es), Collect(es)[k].name)
    decreases |es|
  {
    var n := |es| - 1;
    var docs := Collect(es[..n]);
    var e := es[n];
    var i := Position(Names(docs), e.host);
    PairsInit(es);
    assert Pairs(es) == Pairs(es[..n]) + [(e.host, e.check)];
    MembersSnoc(Pairs(es[..n]), (e.host, e.check), Collect(es)[k].name);
    if k < |docs| {
      CollectChecks(es[..n], k);
      if k != i {
        CollectDistinct(es[..n]);
        assert Collect(es)[k] == docs[k];
        assert docs[k].name != e.host by {
          if i < |docs| {
            assert Names(docs)[k] != Names(docs)[i];
          }
        }
      }
    } else {
      assert Members(Pairs(es[..n]), e.host) == [] by {
        CollectNames(es[..n]);
        FirstKeysSpec(Pairs(es[..n]), e.host);
      }
    }
  }

  /** A new host gets a document of its own at the end. */
  lemma StepNew(docs: seq<HostDoc>, e: Entry)
    requires e.host !in Names(docs)
    ensures Step(docs, e) == docs + [HostDoc(e.host, e.address, e.alias, [e.check])]
  {
    assert Position(Names(docs), e.host) == |docs|;
    var docs' := docs + [HostDoc(e.host, e.address, e.alias, [])];
    assert [] + [e.check] == [e.check];
    assert docs'[|docs| := docs'[|docs|].(checks := docs'[|docs|].checks + [e.check])]
        == docs + [HostDoc(e.host, e.address, e.alias, [e.check])];
  }

  /** One more service changes no document's host fields: only the
      checks grow, and a new host's document goes at the end. */
  lemma StepKeep(docs: seq<HostDoc>, e: Entry)
    ensures |Step(docs, e)| == |docs| + (if e.host in Names(docs) then 0 else 1)
    ensures forall k :: 0 <= k < |docs| ==>
      Step(docs, e)[k] == docs[k].(checks := Step(docs, e)[k].checks)
    ensures |docs| < |Step(docs, e)| ==> Step(docs, e)[|docs|].name == e.host
  {
    var i := Position(Names(docs), e.host);
    assert i < |docs| <==> e.host in Names(docs);
  }

  /** The last entry's host, seen for the first time, gets its document
      from that entry. */
  lemma CollectFirstNew(es: seq<Entry>, k: nat)
    requires es != [] && forall j :: 0 <= j < |es| - 1 ==> es[j].host != es[|es| - 1].host
    requires k < |Collect(es)| && Collect(es)[k].name == es[|es| - 1].host
    ensures Collect(es)[k].address == es[|es| - 1].address && Collect(es)[k].alias == es[|es| - 1].alias
  {
    var n := |es| - 1;
    var docs := Collect(es[..n]);
    var h := es[n].host;
    assert Collect(es) == Step(docs, es[n]);
    CollectNames(es[..n]);
    FirstKeysSpec(Pairs(es[..n]), h);
    assert h !in Names(docs) by {
      assert h !in KeySet(Pairs(es[..n])) by {
        forall j | 0 <= j < n
          ensures Pairs(es[..n])[j].0 != h
        {
          assert es[..n][j] == es[j];
        }
      }
    }
    StepNew(docs, es[n]);
    assert k == |docs|;
  }

  /** A host's address and alias come from its first service. */
  lemma {:induction false} CollectFirst(es: seq<Entry>, i: nat, k: nat)
    requires i < |es| && forall j :: 0 <= j < i ==> es[j].host != es[i].host
    requires k < |Collect(es)| && Collect(es)[k].name == es[i].host
    ensures Collect(es)[k].address == es[i].address && Collect(es)[k].alias == es[i].alias
    decreases |es|
  {
    var n := |es| - 1;
    var docs := Collect(es[..n]);
    var h := es[i].host;
    if i == n {
      CollectFirstNew(es, k);
    } else {
      assert Collect(es) == Step(docs, es[n]);
      CollectNames(es[..n]);
      FirstKeysSpec(Pairs(es[..n]), h);
      assert h in Names(docs) by {
        assert es[..n][i] == es[i];
        assert Pairs(es[..n])[i].0 == h;
      }
      StepKeep(docs, es[n]);
      assert k < |docs|;
      assert es[..n][i] == es[i];
      CollectFirst(es[..n], i, k);
    }
  }

  /** nerds_format succeeds exactly when no service raises, with one entry
      per service. */
  lemma NerdsFormatOk(services: seq<Fields>)
    ensures NerdsFormatSpec(services).Ok? <==> forall j :: 0 <= j < |services| ==> ServiceEntry(services[j]).Ok?
    ensures NerdsFormatSpec(services).Ok? ==>
      var es := TryAll(ServiceParser(), services).value;
      |es| == |services| && forall j :: 0 <= j < |services| ==> ServiceEntry(services[j]) == Ok(es[j])
  {
    if forall j :: 0 <= j < |services| ==> ServiceEntry(services[j]).Ok? {
      TryAllOk(ServiceParser(), services);
    } else if NerdsFormatSpec(services).Ok? {
      var j :| 0 <= j < |services| && ServiceEntry(services[j]).Err?;
      TryAllAllOk(ServiceParser(), services, j);
    }
  }

  /** nerds_format raises the error of the first service that raises. */
  lemma NerdsFormatError(services: seq<Fields>, i: nat)
    requires i < |services| && ServiceEntry(services[i]).Err?
    requires forall j :: 0 <= j < i ==> ServiceEntry(services[j]).Ok?
    ensures NerdsFormatSpec(services) == Err(ServiceEntry(services[i]).error)
  {
    TryAllOk(ServiceParser(), services[..i]);
    TryAllStop(ServiceParser(), services, i);
  }

  /** There is one document per distinct host_name, in order of first
      appearance, and each holds the checks of its host's services in
      order. */
  lemma NerdsFormatHosts(services: seq<Fields>)
    requires NerdsFormatSpec(services).Ok?
    ensures var es := TryAll(ServiceParser(), services).value; var docs := Collect(es);
      && NerdsFormatSpec(services).value == Values(docs)
      && Names(docs) == FirstKeys(Pairs(es)) && Distinct(Names(docs))
      && forall k :: 0 <= k < |docs| ==> docs[k].checks == Members(Pairs(es), docs[k].name)
  {
    var es := TryAll(ServiceParser(), services).value;
    CollectNames(es);
    CollectDistinct(es);
    forall k | 0 <= k < |Collect(es)|
      ensures Collect(es)[k].checks == Members(Pairs(es), Collect(es)[k].name)
    {
      CollectChecks(es, k);
    }
  }

  /** A host's host_address and host_alias come from its first service. */
  lemma NerdsFormatFirstService(services: seq<Fields>, i: nat, k: nat)
    requires NerdsFormatSpec(services).Ok? && i < |services|
    requires forall j :: 0 <= j <= i ==> ServiceEntry(services[j]).Ok?
    requires forall j :: 0 <= j < i ==> ServiceEntry(services[j]).value.host != ServiceEntry(services[i]).value.host
    requires var docs := Collect(TryAll(ServiceParser(), services).value);
      k < |docs| && docs[k].name == ServiceEntry(services[i]).value.host
    ensures var e := ServiceEntry(services[i]).value; var docs := Collect(TryAll(ServiceParser(), services).value);
      docs[k].address == e.address && docs[k].alias == e.alias
  {
    NerdsFormatOk(services);
    CollectFirst(TryAll(ServiceParser(), services).value, i, k);
  }

  /** After nerds_format the services it got through have lost host_name,
      host_address and host_alias and keep every other key; the services
      after the one that raised are untouched. */
  lemma AfterPopsSpec(services: seq<Fields>, j: nat, key: string)
    requires j < |services|
    ensures var stop := FirstErr(ServiceParser(), services);
      && (j < stop ==> Get(AfterPops(services)[j], key) ==
                       if key == "host_name" || key == "host_address" || key == "host_alias" then None
                       else Get(services[j], key))
      && (j > stop ==> AfterPops(services)[j] == services[j])
  {
    ServiceEntrySpec(services[j], key);
  }
}
