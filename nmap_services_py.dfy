/** producers/nmap_services_py/nmap_services_py.py: one host's python-nmap
    scan result turned into a NERDS document, and the merge of two such
    documents for a host scanned under several addresses.  The merge
    builds its lists through `list(set(...))`, whose order is not defined,
    so the properties below speak of keys and members, not of positions. */
module NmapServicesPy {
  import opened Py
  import opened Json
  import opened Grouping
  import Nerds
  import opened NerdsStore
  import NerdsFile

  // ---------------------------------------------------------------------
  // first

  /** first(what): the head of a non-empty list, None for an empty one,
      and anything that is not a list unchanged. */
  function First(what: Value): (r: Value)
  {
    match what
    case Arr(items) => if |items| > 0 then items[0] else Null
    case _ => what
  }

  // ---------------------------------------------------------------------
  // nerds_format

  /** `data and data.get('scan')`, then data['scan'][host]: None when data
      or its scan entry is falsy, AttributeError for a truthy data that
      is not a dict, and whatever indexing the scan by host raises. */
  function HostData(host: string, data: Value): Result<Option<Value>> {
    if !Truthy(data) then Ok(None)
    else
      var scan :- GetOr(data, "scan", Null);
      if !Truthy(scan) then Ok(None)
      else
        var hd :- Index(scan, host);
        Ok(Some(hd))
  }

  /** h['name'] for one entry of host_data['hostnames']. */
  function NameOf(h: Value): Result<Value> {
    Index(h, "name")
  }

  /** The hostnames: [host_data['hostname']] when that key is there, else
      the names of host_data['hostnames'].  Only a dict gets through:
      `in` on a list or string works, but indexing either by a string
      raises. */
  function Hostnames(hd: Value): (r: Result<seq<Value>>)
    ensures r.Ok? ==> hd.Obj?
  {
    var has :- In("hostname", hd);
    if has then
      var h :- Index(hd, "hostname");
      Ok([h])
    else
      var hs :- Index(hd, "hostnames");
      var items :- Iter(hs);
      TryAll(NameOf, items)
  }

  /** The transport protocols copied into services[host]. */
  const Protocols: seq<string> := ["tcp", "udp", "ip", "sctp"]

  /** The entries for the first n of keys that f has, copied in order. */
  function CopyPresent(f: Fields, keys: seq<string>, n: nat): Fields
    requires n <= |keys|
  {
    if n == 0 then []
    else
      var c := CopyPresent(f, keys, n - 1);
      if HasKey(f, keys[n - 1]) then Put(c, keys[n - 1], Get(f, keys[n - 1]).value) else c
  }

  /** The os entry: first() of osclass and of osmatch, when present. */
  function Os(f: Fields): Fields {
    var c := if HasKey(f, "osclass") then [("class", First(Get(f, "osclass").value))] else [];
    if HasKey(f, "osmatch") then Put(c, "match", First(Get(f, "osmatch").value)) else c
  }

  /** The dict literal nerds_format starts from. */
  function ScanBase(host: string, f: Fields, hostnames: seq<Value>): Fields {
    [("addresses", Arr([Str(host)])), ("hostnames", Arr(hostnames)), ("os", Obj(Os(f))),
     ("services", Obj([(host, Obj(CopyPresent(f, Protocols, |Protocols|)))]))]
  }

  /** The nmap_services_py payload; uptime is what host_data.uptime()
      returns, a call into python-nmap. */
  function ScanPayload(host: string, f: Fields, hostnames: seq<Value>, uptime: Value): Fields {
    var p := ScanBase(host, f, hostnames);
    if HasKey(f, "uptime") then Put(p, "uptime", uptime) else p
  }

  /** Lines 71-78: each protocol present in host_data goes into
      services[host], in the order of the four if statements. */
  method CopyProtocols(f: Fields) returns (services: Fields)
    ensures services == CopyPresent(f, Protocols, |Protocols|)
  {
    services := [];
    if HasKey(f, "tcp") {
      services := Put(services, "tcp", Get(f, "tcp").value);
    }
    assert services == CopyPresent(f, Protocols, 1);
    if HasKey(f, "udp") {
      services := Put(services, "udp", Get(f, "udp").value);
    }
    assert services == CopyPresent(f, Protocols, 2);
    if HasKey(f, "ip") {
      services := Put(services, "ip", Get(f, "ip").value);
    }
    assert services == CopyPresent(f, Protocols, 3);
    if HasKey(f, "sctp") {
      services := Put(services, "sctp", Get(f, "sctp").value);
    }
  }

  /** Lines 80-83: first() of osclass and of osmatch into os. */
  method OsEntry(f: Fields) returns (os: Fields)
    ensures os == Os(f)
  {
    os := [];
    if HasKey(f, "osclass") {
      os := Put(os, "class", First(Get(f, "osclass").value));
    }
    if HasKey(f, "osmatch") {
      os := Put(os, "match", First(Get(f, "osmatch").value));
    }
  }

  /** Lines 57-83 as the statements run: the dict literal with empty os
      and services[host], then uptime, then the services and the os
      entries, which the source fills in place and the model writes back. */
  method BuildPayload(host: string, f: Fields, hostnames: seq<Value>, uptime: Value) returns (p: Fields)
    ensures p == ScanPayload(host, f, hostnames, uptime)
  {
    p := [("addresses", Arr([Str(host)])), ("hostnames", Arr(hostnames)), ("os", Obj([])),
          ("services", Obj([(host, Obj([]))]))];
    ghost var p0 := p;
    if HasKey(f, "uptime") {
      p := Put(p, "uptime", uptime);
      PutFresh(p0, "uptime", uptime);
    }
    var services := CopyProtocols(f);
    PutAt(p, 3, "services", Obj([(host, Obj(services))]));
    p := Put(p, "services", Obj([(host, Obj(services))]));
    var os := OsEntry(f);
    PutAt(p, 2, "os", Obj(os));
    p := Put(p, "os", Obj(os));
    ghost var base := ScanBase(host, f, hostnames);
    assert p[..4] == base;
    if HasKey(f, "uptime") {
      assert p == base + [("uptime", uptime)];
      PutFresh(base, "uptime", uptime);
    } else {
      assert p == base;
    }
  }

  /** nerds_format(host, data); Null stands for the None it returns when
      there is nothing to report. */
  function NerdsFormat(host: string, data: Value, uptime: Value): Result<Value> {
    var found :- HostData(host, data);
    if found.None? then Ok(Null)
    else
      var hostnames :- Hostnames(found.value);
      if hostnames == [] then Ok(Null)
      else Ok(Nerds.ToNerds(hostnames[0], Some("nmap_services_py"),
                            Obj(ScanPayload(host, found.value.fields, hostnames, uptime))))
  }

  /** The entries copied are exactly those of the listed keys that f has,
      each with f's value. */
  lemma {:induction false} CopyPresentSpec(f: Fields, keys: seq<string>, n: nat, k: string)
    requires n <= |keys|
    ensures Get(CopyPresent(f, keys, n), k) == if k in keys[..n] then Get(f, k) else None
    decreases n
  {
    if n > 0 {
      var c := CopyPresent(f, keys, n - 1);
      CopyPresentSpec(f, keys, n - 1, k);
      assert keys[..n] == keys[..n - 1] + [keys[n - 1]];
      if HasKey(f, keys[n - 1]) {
        PutGet(c, keys[n - 1], Get(f, keys[n - 1]).value);
      } else {
        assert Get(f, keys[n - 1]) == None;
      }
    } else {
      assert Get([], k) == None;
    }
  }

  /** services[host] holds exactly those of tcp, udp, ip and sctp that the
      scan reports, with the scan's values. */
  lemma ServicesSpec(f: Fields, k: string)
    ensures Get(CopyPresent(f, Protocols, |Protocols|), k) ==
      if k == "tcp" || k == "udp" || k == "ip" || k == "sctp" then Get(f, k) else None
  {
    CopyPresentSpec(f, Protocols, |Protocols|, k);
    assert Protocols[..|Protocols|] == Protocols;
    assert k in Protocols <==> k == "tcp" || k == "udp" || k == "ip" || k == "sctp";
  }

  /** os['class'] and os['match'] are set exactly when the scan has
      osclass and osmatch, to first() of them. */
  lemma OsSpec(f: Fields)
    ensures Get(Os(f), "class") == if HasKey(f, "osclass") then Some(First(Get(f, "osclass").value)) else None
    ensures Get(Os(f), "match") == if HasKey(f, "osmatch") then Some(First(Get(f, "osmatch").value)) else None
    ensures forall k :: k in Keys(Os(f)) ==> k == "class" || k == "match"
  {
    var c := if HasKey(f, "osclass") then [("class", First(Get(f, "osclass").value))] else [];
    assert Get(c, "match") == None;
    if HasKey(f, "osmatch") {
      PutSpec(c, "match", First(Get(f, "osmatch").value));
    }
  }

  /** The dict literal's four entries. */
  lemma ScanBaseSpec(host: string, f: Fields, hostnames: seq<Value>)
    ensures var p := ScanBase(host, f, hostnames);
      && Keys(p) == ["addresses", "hostnames", "os", "services"]
      && Get(p, "addresses") == Some(Arr([Str(host)]))
      && Get(p, "hostnames") == Some(Arr(hostnames))
      && Get(p, "os") == Some(Obj(Os(f)))
      && Get(p, "services") == Some(Obj([(host, Obj(CopyPresent(f, Protocols, |Protocols|)))]))
  {
    var p := ScanBase(host, f, hostnames);
    IndexOfAt(p, "hostnames", 1);
    IndexOfAt(p, "os", 2);
    IndexOfAt(p, "services", 3);
  }

  /** The payload's addresses, hostnames, os and services, and uptime
      exactly when the scan reports one. */
  lemma ScanPayloadSpec(host: string, f: Fields, hostnames: seq<Value>, uptime: Value)
    ensures var p := ScanPayload(host, f, hostnames, uptime);
      && Get(p, "addresses") == Some(Arr([Str(host)]))
      && Get(p, "hostnames") == Some(Arr(hostnames))
      && Get(p, "os") == Some(Obj(Os(f)))
      && Get(p, "services") == Some(Obj([(host, Obj(CopyPresent(f, Protocols, |Protocols|)))]))
      && Get(p, "uptime") == if HasKey(f, "uptime") then Some(uptime) else None
  {
    var p := ScanBase(host, f, hostnames);
    ScanBaseSpec(host, f, hostnames);
    assert !HasKey(p, "uptime") by {
      assert "uptime" !in Keys(p);
    }
    PutGet(p, "uptime", uptime);
  }

  /** nerds_format reports nothing for a falsy data or scan entry and for
      a host without hostnames, raises AttributeError for a truthy data
      that is not a dict, and KeyError for a host the scan lacks. */
  lemma NerdsFormatNothing(host: string, data: Value, uptime: Value)
    ensures !Truthy(data) ==> NerdsFormat(host, data, uptime) == Ok(Null)
    ensures Truthy(data) && !data.Obj? ==> NerdsFormat(host, data, uptime) == Err(AttributeError)
    ensures data.Obj? && Truthy(data) && !Truthy(GetDefault(data.fields, "scan", Null)) ==>
              NerdsFormat(host, data, uptime) == Ok(Null)
    ensures data.Obj? && Truthy(data) && Truthy(GetDefault(data.fields, "scan", Null))
            && GetDefault(data.fields, "scan", Null).Obj? && !HasKey(GetDefault(data.fields, "scan", Null).fields, host) ==>
              NerdsFormat(host, data, uptime) == Err(KeyError(host))
    ensures HostData(host, data).Ok? && HostData(host, data).value.Some?
            && Hostnames(HostData(host, data).value.value) == Ok([]) ==>
              NerdsFormat(host, data, uptime) == Ok(Null)
  {
  }

  /** A host_data with a 'hostname' key names the host by it alone;
      otherwise the hostnames are the 'name' of each entry of
      host_data['hostnames'], in order, and an entry without one raises. */
  lemma HostnamesSpec(f: Fields)
    ensures HasKey(f, "hostname") ==> Hostnames(Obj(f)) == Ok([Get(f, "hostname").value])
    ensures !HasKey(f, "hostname") && !HasKey(f, "hostnames") ==> Hostnames(Obj(f)) == Err(KeyError("hostnames"))
    ensures !HasKey(f, "hostname") && HasKey(f, "hostnames") && Get(f, "hostnames").value.Arr? ==>
      (var items := Get(f, "hostnames").value.items;
       && (Hostnames(Obj(f)).Ok? <==> forall i :: 0 <= i < |items| ==> items[i].Obj? && HasKey(items[i].fields, "name"))
       && (Hostnames(Obj(f)).Ok? ==>
             && |Hostnames(Obj(f)).value| == |items|
             && forall i :: 0 <= i < |items| ==> Some(Hostnames(Obj(f)).value[i]) == Get(items[i].fields, "name")))
  {
    if !HasKey(f, "hostname") && HasKey(f, "hostnames") && Get(f, "hostnames").value.Arr? {
      var items := Get(f, "hostnames").value.items;
      assert Hostnames(Obj(f)) == TryAll(NameOf, items);
      if forall i :: 0 <= i < |items| ==> NameOf(items[i]).Ok? {
        TryAllOk(NameOf, items);
      } else if TryAll(NameOf, items).Ok? {
        var i :| 0 <= i < |items| && NameOf(items[i]).Err?;
        TryAllAllOk(NameOf, items, i);
      }
    }
  }

  /** A reported host's document is named after its first hostname under
      producer nmap_services_py, and carries the payload. */
  lemma NerdsFormatDocument(host: string, data: Value, uptime: Value)
    requires NerdsFormat(host, data, uptime).Ok? && NerdsFormat(host, data, uptime).value != Null
    ensures var hd := HostData(host, data).value.value; var hs := Hostnames(hd).value;
      && hs != []
      && var doc := NerdsFormat(host, data, uptime).value;
      && doc.Obj? && Keys(doc.fields) == ["host"]
      && var h := doc.fields[0].1;
      && h.Obj? && Get(h.fields, "name") == Some(hs[0]) && Get(h.fields, "version") == Some(Int(1))
      && Get(h.fields, "nmap_services_py") == Some(Obj(ScanPayload(host, hd.fields, hs, uptime)))
  {
  }

  // ---------------------------------------------------------------------
  // merge_nmap_services

  /** The members of xs, each once, in order of first appearance. */
  function Unique(xs: seq<Value>): seq<Value> {
    if xs == [] then []
    else
      var u := Unique(xs[..|xs| - 1]);
      if xs[|xs| - 1] in u then u else u + [xs[|xs| - 1]]
  }

  /** list(set(xs)): a set of hashable values.  Python gives the members
      in no fixed order; the model keeps first appearances. */
  function ListSet(xs: seq<Value>): Result<seq<Value>> {
    if exists i :: 0 <= i < |xs| && !Hashable(xs[i]) then Err(TypeError) else Ok(Unique(xs))
  }

  /** Unique keeps every member, adds none, and repeats none. */
  lemma {:induction false} UniqueSpec(xs: seq<Value>)
    ensures forall x :: x in Unique(xs) <==> x in xs
    ensures Distinct(Unique(xs))
    decreases |xs|
  {
    if xs != [] {
      var n := |xs| - 1;
      UniqueSpec(xs[..n]);
      assert xs == xs[..n] + [xs[n]];
    }
  }

  /** seq[0]: a list's or a string's first item, IndexError when empty,
      and KeyError for a dict, whose keys here are strings. */
  function Item0(v: Value): Result<Value> {
    match v
    case Arr(items) => if items == [] then Err(IndexError) else Ok(items[0])
    case Str(s) => if s == [] then Err(IndexError) else Ok(Str([s[0]]))
    case Obj(_) => Err(KeyError("0"))
    case _ => Err(TypeError)
  }

  /** Lines 106-107: old['hostnames'] extended by new['hostnames'], then
      replaced by list(set(...)). */
  function ExtendHostnames(newP: Value, oldP: Value): (r: Result<Fields>)
    ensures r.Ok? ==> oldP.Obj? && forall k :: k != "hostnames" ==> Get(r.value, k) == Get(oldP.fields, k)
  {
    var oldH :- Index(oldP, "hostnames");
    if !oldH.Arr? then Err(AttributeError)
    else
      var newH :- Index(newP, "hostnames");
      var extra :- Iter(newH);
      var hostnames :- ListSet(oldH.items + extra);
      PutGet(oldP.fields, "hostnames", Arr(hostnames));
      Ok(Put(oldP.fields, "hostnames", Arr(hostnames)))
  }

  /** Lines 108-109: new_address appended to old['addresses'], which is
      then replaced by list(set(...)). */
  function AppendAddress(old1: Fields, a: Value): (r: Result<Fields>)
    ensures r.Ok? ==> forall k :: k != "addresses" ==> Get(r.value, k) == Get(old1, k)
  {
    var oldA :- Index(Obj(old1), "addresses");
    if !oldA.Arr? then Err(AttributeError)
    else
      var addresses :- ListSet(oldA.items + [a]);
      PutGet(old1, "addresses", Arr(addresses));
      Ok(Put(old1, "addresses", Arr(addresses)))
  }

  /** Line 110: old['services'][new_address] = new['services'][new_address],
      right-hand side first.  A new_address that is not a string is not
      modelled. */
  function CopyServices(newP: Value, old2: Fields, a: Value): (r: Result<Fields>)
    ensures r.Ok? ==> forall k :: k != "services" ==> Get(r.value, k) == Get(old2, k)
  {
    var newS :- Index(newP, "services");
    if !a.Str? then Err(Unsupported)
    else
      var svc :- Index(newS, a.s);
      var oldS :- Index(Obj(old2), "services");
      if !oldS.Obj? then Err(TypeError)
      else
        PutGet(old2, "services", Obj(Put(oldS.fields, a.s, svc)));
        Ok(Put(old2, "services", Obj(Put(oldS.fields, a.s, svc))))
  }

  /** Lines 103-110 on the two payloads, newP (d1's, `new`) and oldP
      (d2's, `old`). */
  function MergePayload(newP: Value, oldP: Value): Result<Fields> {
    var addrs :- Index(newP, "addresses");
    var a :- Item0(addrs);
    var old1 :- ExtendHostnames(newP, oldP);
    var old2 :- AppendAddress(old1, a);
    CopyServices(newP, old2, a)
  }

  /** merge_nmap_services(d1, d2): d2 with its nmap_services_py payload
      merged with d1's. */
  function Merge(d1: Value, d2: Value): Result<Value> {
    var host1 :- Index(d1, "host");
    var newP :- Index(host1, "nmap_services_py");
    var host2 :- Index(d2, "host");
    var oldP :- Index(host2, "nmap_services_py");
    var p :- MergePayload(newP, oldP);
    Ok(Obj(Put(d2.fields, "host", Obj(Put(host2.fields, "nmap_services_py", Obj(p))))))
  }

  /** After line 107 the hostnames are every old and every new hostname,
      each once; an unhashable one raises TypeError. */
  lemma ExtendHostnamesSpec(newP: Value, oldP: Value, oldH: seq<Value>, newH: seq<Value>)
    requires Index(oldP, "hostnames") == Ok(Arr(oldH))
    requires Index(newP, "hostnames").Ok? && Iter(Index(newP, "hostnames").value) == Ok(newH)
    ensures var r := ExtendHostnames(newP, oldP);
      && (r.Ok? <==> forall x :: x in oldH + newH ==> Hashable(x))
      && (r.Ok? ==> var h := Get(r.value, "hostnames");
            && h.Some? && h.value.Arr? && Distinct(h.value.items)
            && forall x :: x in h.value.items <==> x in oldH || x in newH)
  {
    UniqueSpec(oldH + newH);
    PutGet(oldP.fields, "hostnames", Arr(Unique(oldH + newH)));
    assert (forall x :: x in oldH + newH ==> Hashable(x)) <==>
           !exists i :: 0 <= i < |oldH + newH| && !Hashable((oldH + newH)[i]);
  }

  /** After line 109 the addresses are every old address and
      new_address, each once; an unhashable one raises TypeError. */
  lemma AppendAddressSpec(old1: Fields, a: Value, oldA: seq<Value>)
    requires Index(Obj(old1), "addresses") == Ok(Arr(oldA))
    ensures var r := AppendAddress(old1, a);
      && (r.Ok? <==> Hashable(a) && forall x :: x in oldA ==> Hashable(x))
      && (r.Ok? ==> var h := Get(r.value, "addresses");
            && h.Some? && h.value.Arr? && Distinct(h.value.items)
            && forall x :: x in h.value.items <==> x in oldA || x == a)
  {
    UniqueSpec(oldA + [a]);
    PutGet(old1, "addresses", Arr(Unique(oldA + [a])));
    assert (Hashable(a) && forall x :: x in oldA ==> Hashable(x)) <==>
           !exists i :: 0 <= i < |oldA + [a]| && !Hashable((oldA + [a])[i]);
  }

  /** After line 110 old's services for new_address are new's, and every
      other address's services are untouched. */
  lemma CopyServicesSpec(newP: Value, old2: Fields, a: string, newS: Value, oldS: Fields, k: string)
    requires Index(newP, "services") == Ok(newS) && Index(Obj(old2), "services") == Ok(Obj(oldS))
    requires CopyServices(newP, old2, Str(a)).Ok?
    ensures var h := Get(CopyServices(newP, old2, Str(a)).value, "services");
      && h.Some? && h.value.Obj?
      && Some(Index(newS, a).value) == Get(h.value.fields, a)
      && (k != a ==> Get(h.value.fields, k) == Get(oldS, k))
  {
    var svc := Index(newS, a).value;
    PutGet(old2, "services", Obj(Put(oldS, a, svc)));
    PutGet(oldS, a, svc);
  }

  /** A merge raises IndexError when new has no addresses, and leaves
      every key of old's payload but hostnames, addresses and services
      as it was. */
  lemma MergePayloadSpec(newP: Value, oldP: Value, k: string)
    ensures Index(newP, "addresses") == Ok(Arr([])) ==> MergePayload(newP, oldP) == Err(IndexError)
    ensures MergePayload(newP, oldP).Ok? && k != "hostnames" && k != "addresses" && k != "services" ==>
      oldP.Obj? && Get(MergePayload(newP, oldP).value, k) == Get(oldP.fields, k)
  {
  }

  /** merge_nmap_services puts the merged payload under d2's host and
      changes nothing else in d2. */
  lemma MergeSpec(d1: Value, d2: Value, k: string)
    requires Merge(d1, d2).Ok?
    ensures var newP := Index(Index(d1, "host").value, "nmap_services_py").value;
      var host2 := Index(d2, "host").value;
      var oldP := Index(host2, "nmap_services_py").value;
      var r := Merge(d1, d2).value;
      && MergePayload(newP, oldP).Ok?
      && r.Obj? && host2.Obj?
      && Index(r, "host").Ok? && Index(Index(r, "host").value, "nmap_services_py") == Ok(Obj(MergePayload(newP, oldP).value))
      && (k != "host" ==> Get(r.fields, k) == Get(d2.fields, k))
      && (k != "nmap_services_py" ==> Get(Index(r, "host").value.fields, k) == Get(host2.fields, k))
  {
    var host2 := Index(d2, "host").value;
    var newP := Index(Index(d1, "host").value, "nmap_services_py").value;
    var oldP := Index(host2, "nmap_services_py").value;
    var p := MergePayload(newP, oldP).value;
    var h := Put(host2.fields, "nmap_services_py", Obj(p));
    PutGet(host2.fields, "nmap_services_py", Obj(p));
    PutGet(d2.fields, "host", Obj(h));
  }

  // ---------------------------------------------------------------------
  // output

  /** output(d, out_dir, no_write) as written (lines 118-122).  Line 12
      imports the save_to_json of utils/file.py, which takes two
      arguments, so the call with merge_nmap_services raises TypeError
      before anything is written.  Printing is left out. */
  method OutputAsWritten(d: Directory, doc: Value, noWrite: bool) returns (r: Result<()>)
    ensures noWrite ==> r == Ok(())
    ensures !noWrite ==> r == Err(TypeError)
  {
    if noWrite {
      r := Ok(());
    } else {
      r := Err(TypeError);
    }
  }

  /** output(d, out_dir, no_write) as evidently intended: the document is
      saved by the save_to_json that takes a merge argument
      (nerds_utils/file.py), with merge_nmap_services as that argument. */
  method Output(d: Directory, doc: Value, noWrite: bool) returns (r: Result<()>)
    modifies d
    ensures noWrite ==> r == Ok(()) && d.files == old(d.files) && d.present == old(d.present)
    ensures !noWrite ==> d.present && (r.Ok? <==> NerdsFile.Target(old(d.files), doc, Merge).Ok?)
    ensures !noWrite && r.Ok? ==> d.files == Written(old(d.files), NerdsFile.Target(old(d.files), doc, Merge).value)
    ensures !noWrite && r.Err? ==> d.files == old(d.files)
  {
    if noWrite {
      return Ok(());
    }
    r := NerdsFile.SaveToJson(d, doc, Merge);
  }

  /** d['host']['nmap_services_py'], None where a step is missing. */
  function Payload(d: Value): Value {
    match Index(d, "host")
    case Err(_) => Null
    case Ok(h) => if Index(h, "nmap_services_py").Ok? then Index(h, "nmap_services_py").value else Null
  }

  /** p[key], None where p is not a dict or has no key. */
  function Field(p: Value, key: string): Value {
    if Index(p, key).Ok? then Index(p, key).value else Null
  }

  /** d['host']['nmap_services_py'][key], None where a step is missing. */
  function PayloadValue(d: Value, key: string): Value {
    Field(Payload(d), key)
  }

  /** v[k] on a dict v; None where v is not a dict or has no key k. */
  function Entry(v: Value, k: string): Option<Value> {
    if v.Obj? then Get(v.fields, k) else None
  }

  /** What a loop over PayloadValue(d, key) sees; [] when it cannot loop. */
  function PayloadItems(d: Value, key: string): seq<Value> {
    var v := PayloadValue(d, key);
    if Iter(v).Ok? then Iter(v).value else []
  }

  /** Saving a scan over the stored document of its host merges the two:
      the file then holds the scan's document whose hostnames are those of
      both, whose addresses are the scan's and the stored first address,
      and whose services for that address are the stored ones, every
      other address keeping the scan's. */
  lemma OutputMerges(files: map<string, Stored>, doc: Value, fileName: string, cur: Value, saved: Value,
                     x: Value, a: string, k: string)
    requires fileName in files && files[fileName] == Doc(cur)
    requires NerdsFile.Target(files, doc, Merge) == Ok(Some((fileName, saved)))
    ensures Merge(cur, doc) == Ok(saved)
    ensures x in PayloadItems(saved, "hostnames") <==>
      x in PayloadItems(doc, "hostnames") || x in PayloadItems(cur, "hostnames")
    ensures x in PayloadItems(saved, "addresses") <==>
      x in PayloadItems(doc, "addresses") || Item0(PayloadValue(cur, "addresses")) == Ok(x)
    ensures Item0(PayloadValue(cur, "addresses")) == Ok(Str(a)) ==>
      && Entry(PayloadValue(saved, "services"), a) == Entry(PayloadValue(cur, "services"), a)
      && (k != a ==> Entry(PayloadValue(saved, "services"), k) == Entry(PayloadValue(doc, "services"), k))
  {
    NerdsFile.TargetStored(files, doc, Merge, fileName, cur, saved);
    MergedHostnames(cur, doc, x);
    MergedAddresses(cur, doc, x);
    MergedServices(cur, doc, a, k);
  }

  /** The payloads of a merge's two documents, and the payload of the
      result, as MergePayload builds it. */
  lemma MergedPayload(d1: Value, d2: Value)
    requires Merge(d1, d2).Ok?
    ensures MergePayload(Payload(d1), Payload(d2)).Ok?
    ensures Payload(Merge(d1, d2).value) == Obj(MergePayload(Payload(d1), Payload(d2)).value)
  {
    MergeSpec(d1, d2, "host");
  }

  lemma PayloadHostnames(newP: Value, oldP: Value, x: Value)
    requires MergePayload(newP, oldP).Ok?
    ensures Index(oldP, "hostnames").Ok? && Index(oldP, "hostnames").value.Arr?
    ensures Index(newP, "hostnames").Ok? && Iter(Index(newP, "hostnames").value).Ok?
    ensures var h := Index(Obj(MergePayload(newP, oldP).value), "hostnames");
      h.Ok? && h.value.Arr? &&
      (x in h.value.items <==> x in Index(oldP, "hostnames").value.items || x in Iter(Index(newP, "hostnames").value).value)
  {
    var a0 := Item0(Index(newP, "addresses").value).value;
    var old1 := ExtendHostnames(newP, oldP).value;
    var old2 := AppendAddress(old1, a0).value;
    assert Get(MergePayload(newP, oldP).value, "hostnames") == Get(old2, "hostnames") == Get(old1, "hostnames");
    ExtendHostnamesSpec(newP, oldP, Index(oldP, "hostnames").value.items, Iter(Index(newP, "hostnames").value).value);
  }

  lemma PayloadAddresses(newP: Value, oldP: Value, x: Value)
    requires MergePayload(newP, oldP).Ok?
    ensures Index(oldP, "addresses").Ok? && Index(oldP, "addresses").value.Arr?
    ensures Index(newP, "addresses").Ok?
    ensures var h := Index(Obj(MergePayload(newP, oldP).value), "addresses");
      h.Ok? && h.value.Arr? &&
      (x in h.value.items <==> x in Index(oldP, "addresses").value.items || Item0(Index(newP, "addresses").value) == Ok(x))
  {
    var a0 := Item0(Index(newP, "addresses").value).value;
    var old1 := ExtendHostnames(newP, oldP).value;
    var old2 := AppendAddress(old1, a0).value;
    assert Get(MergePayload(newP, oldP).value, "addresses") == Get(old2, "addresses");
    assert Get(old1, "addresses") == Get(oldP.fields, "addresses");
    AppendAddressSpec(old1, a0, Index(oldP, "addresses").value.items);
  }

  lemma PayloadServices(newP: Value, oldP: Value, a: string, k: string)
    requires MergePayload(newP, oldP).Ok?
    requires Item0(Field(newP, "addresses")) == Ok(Str(a))
    ensures var h := Field(Obj(MergePayload(newP, oldP).value), "services");
      && Entry(h, a) == Entry(Field(newP, "services"), a)
      && (k != a ==> Entry(h, k) == Entry(Field(oldP, "services"), k))
  {
    var old1 := ExtendHostnames(newP, oldP).value;
    var old2 := AppendAddress(old1, Str(a)).value;
    ServicesChain(newP, oldP, a, old1, old2);
    CopyServicesEntries(newP, old2, a, k);
    assert Field(Obj(old2), "services") == Field(oldP, "services");
  }

  /** CopyServicesSpec read through Field and Entry. */
  lemma CopyServicesEntries(newP: Value, old2: Fields, a: string, k: string)
    requires CopyServices(newP, old2, Str(a)).Ok?
    ensures var h := Field(Obj(CopyServices(newP, old2, Str(a)).value), "services");
      && Entry(h, a) == Entry(Field(newP, "services"), a)
      && (k != a ==> Entry(h, k) == Entry(Field(Obj(old2), "services"), k))
  {
    var newS := Index(newP, "services").value;
    var oldS := Index(Obj(old2), "services").value;
    CopyServicesSpec(newP, old2, a, newS, oldS.fields, k);
  }

  /** The services that line 110 updates are old's, untouched by lines
      106-109. */
  lemma ServicesChain(newP: Value, oldP: Value, a: string, old1: Fields, old2: Fields)
    requires MergePayload(newP, oldP).Ok?
    requires Item0(Field(newP, "addresses")) == Ok(Str(a))
    requires ExtendHostnames(newP, oldP) == Ok(old1) && AppendAddress(old1, Str(a)) == Ok(old2)
    ensures MergePayload(newP, oldP) == CopyServices(newP, old2, Str(a))
    ensures oldP.Obj? && Get(old2, "services") == Get(oldP.fields, "services")
  {
  }

  lemma MergedHostnames(d1: Value, d2: Value, x: Value)
    requires Merge(d1, d2).Ok?
    ensures x in PayloadItems(Merge(d1, d2).value, "hostnames") <==>
      x in PayloadItems(d2, "hostnames") || x in PayloadItems(d1, "hostnames")
  {
    MergedPayload(d1, d2);
    PayloadHostnames(Payload(d1), Payload(d2), x);
  }

  lemma MergedAddresses(d1: Value, d2: Value, x: Value)
    requires Merge(d1, d2).Ok?
    ensures x in PayloadItems(Merge(d1, d2).value, "addresses") <==>
      x in PayloadItems(d2, "addresses") || Item0(PayloadValue(d1, "addresses")) == Ok(x)
  {
    MergedPayload(d1, d2);
    PayloadAddresses(Payload(d1), Payload(d2), x);
  }

  lemma MergedServices(d1: Value, d2: Value, a: string, k: string)
    requires Merge(d1, d2).Ok?
    ensures Item0(PayloadValue(d1, "addresses")) == Ok(Str(a)) ==>
      && Entry(PayloadValue(Merge(d1, d2).value, "services"), a) == Entry(PayloadValue(d1, "services"), a)
      && (k != a ==> Entry(PayloadValue(Merge(d1, d2).value, "services"), k) == Entry(PayloadValue(d2, "services"), k))
  {
    var newP, oldP := Payload(d1), Payload(d2);
    MergedPayload(d1, d2);
    if Item0(PayloadValue(d1, "addresses")) == Ok(Str(a)) {
      PayloadServices(newP, oldP, a, k);
    }
  }
}
