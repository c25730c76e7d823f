/** The Arista extractor over NSO device JSON: Ethernet interfaces, the
    switch identity and its EOS version. */
module NsoArista {
  import opened Py
  import opened Json
  import opened NsoUtils
  import Strs

  /** The NSO paths read by the extractor, written segment by segment
      around the "." that find splits them on. */
  const EthernetPath := "tailf-ned-arista-dcs:interface" + "." + "Ethernet"
  const BootSystemPath := "config" + "." + "tailf-ned-arista-dcs:boot" + "." + "system"
  const BootPath := "tailf-ncs:device" + "." + "config" + "." + "tailf-ned-arista-dcs:boot"

  datatype EthInterface = EthInterface(name: string, description: Value)

  datatype Switch = Switch(name: string, version: string)

  /** eos_version: the boot image name without 'flash:/' and '.swi'. */
  function EosVersion(data: string): string {
    Strs.ReplaceAll(Strs.ReplaceAll(data, "flash:/", ""), ".swi", "")
  }

  /** An image path flash:/v.swi gives v, for a v in which neither marker
      occurs before the suffix. */
  lemma EosVersionStrips(v: string)
    requires !Strs.Contains(v + ".swi", "flash:/")
    requires forall i :: 0 <= i < |v| ==> !Strs.StartsWith((v + ".swi")[i..], ".swi")
    ensures EosVersion("flash:/" + v + ".swi") == v
  {
    StripAffixes("flash:/", v, ".swi");
  }

  /** Removing a prefix p, then a suffix q, from p + v + q gives v back
      when neither occurs earlier than where it was put. */
  lemma StripAffixes(p: string, v: string, q: string)
    requires p != [] && q != []
    requires !Strs.Contains(v + q, p)
    requires forall i :: 0 <= i < |v| ==> !Strs.StartsWith((v + q)[i..], q)
    ensures Strs.ReplaceAll(Strs.ReplaceAll(p + v + q, p, ""), q, "") == v
  {
    StripPrefix(p, v + q);
    assert p + (v + q) == p + v + q;
    StripSuffix(v, q);
  }

  /** Removing p from p + w, when p does not occur in w, gives w. */
  lemma StripPrefix(p: string, w: string)
    requires p != [] && !Strs.Contains(w, p)
    ensures Strs.ReplaceAll(p + w, p, "") == w
  {
    Strs.ReplaceFront(p, w, "");
    Strs.ReplaceAbsent(w, p, "");
    assert "" + w == w;
  }

  /** Removing q from v + q, when no q starts inside v, gives v. */
  lemma StripSuffix(v: string, q: string)
    requires q != []
    requires forall i :: 0 <= i < |v| ==> !Strs.StartsWith((v + q)[i..], q)
    ensures Strs.ReplaceAll(v + q, q, "") == v
  {
    assert v + q == v + q + "";
    Strs.ReplaceUpTo(v, q, "", "");
    assert Strs.ReplaceAll("", q, "") == "";
    assert v + "" + "" == v;
  }

  /** parse_interface: named 'et' followed by the entry's name. */
  function ParseInterface(data: Value): Result<EthInterface> {
    var name :- Index(data, "name");
    var text :- Format(name);
    Ok(EthInterface("et" + text, GetDefault(data.fields, "description", Null)))
  }

  /** parse_interfaces: one interface per Ethernet entry, [] when the path
      is missing. */
  function ParseInterfaces(data: Value): Result<seq<EthInterface>> {
    var found :- Find(EthernetPath, data, ".", Arr([]));
    var items :- Iter(found);
    MapInterfaces(items)
  }

  function MapInterfaces(items: seq<Value>): (r: Result<seq<EthInterface>>)
    ensures r.Ok? ==> |r.value| == |items|
  {
    if items == [] then Ok([])
    else
      var init :- MapInterfaces(items[..|items| - 1]);
      var i :- ParseInterface(items[|items| - 1]);
      Ok(init + [i])
  }

  /** The k-th interface is named after the k-th entry's name. */
  lemma {:induction false} MapInterfacesAt(items: seq<Value>, k: nat, name: string)
    requires k < |items| && MapInterfaces(items).Ok?
    requires items[k].Obj? && Get(items[k].fields, "name") == Some(Str(name))
    ensures MapInterfaces(items).value[k].name == "et" + name
    ensures !HasKey(items[k].fields, "description") ==> MapInterfaces(items).value[k].description == Null
    decreases |items|
  {
    var init := items[..|items| - 1];
    if k < |items| - 1 {
      MapInterfacesAt(init, k, name);
    }
  }

  /** Without the Ethernet path the switch has no interfaces. */
  lemma InterfacesMissing(data: Value)
    requires Walk(Strs.SplitSep(EthernetPath, "."), data).Missing?
    ensures ParseInterfaces(data) == Ok([])
  {
    FindWalk(Strs.SplitSep(EthernetPath, "."), data, Arr([]));
  }

  /** parse_switch: named by the address with 'lo0.' removed; the version
      comes from boot.system, '' when it is missing. */
  function ParseSwitch(data: Value): Result<Switch> {
    var switchData :- Index(data, "tailf-ncs:device");
    var address :- Index(switchData, "address");
    if !address.Str? then Err(AttributeError)
    else
      var system :- Find(BootSystemPath, switchData, ".", Str(""));
      if !system.Str? then Err(AttributeError)
      else Ok(Switch(HostnameClean(address.s), EosVersion(system.s)))
  }

  /** Without boot.system the version is the empty string. */
  lemma VersionMissing(data: Fields, dev: Fields)
    requires Get(data, "tailf-ncs:device") == Some(Obj(dev))
    requires HasKey(dev, "address") && Get(dev, "address").value.Str?
    requires Walk(Strs.SplitSep(BootSystemPath, "."), Obj(dev)).Missing?
    ensures ParseSwitch(Obj(data)).Ok?
    ensures ParseSwitch(Obj(data)).value.version == ""
  {
    assert Index(Obj(data), "tailf-ncs:device") == Ok(Obj(dev));
    FindWalk(Strs.SplitSep(BootSystemPath, "."), Obj(dev), Str(""));
  }

  /** is_arista: the boot path resolves to something other than None. */
  function IsArista(data: Value): Result<bool> {
    var found :- Find(BootPath, data, ".", Null);
    Ok(found != Null)
  }

  /** is_arista holds for a document whose boot path leads through dicts to
      a non-None value, and fails for one where a segment is missing. */
  lemma IsAristaSpec(data: Value)
    ensures Walk(Strs.SplitSep(BootPath, "."), data).Found? ==>
      IsArista(data) == Ok(Walk(Strs.SplitSep(BootPath, "."), data).v != Null)
    ensures Walk(Strs.SplitSep(BootPath, "."), data).Missing? ==> IsArista(data) == Ok(false)
  {
    FindWalk(Strs.SplitSep(BootPath, "."), data, Null);
  }
}
