/** The Junos extractor over NSO device JSON: interfaces with their units
    and tunnels, BGP sessions flattened from group onto neighbour, and the
    router identity. */
module NsoJunos {
  import opened Py
  import opened Json
  import opened NsoUtils
  import Strs

  /** The NSO paths read by the extractor, written segment by segment
      around the "." that find splits them on. */
  const InterfacesPath := "junos:interfaces" + "." + "interface"
  const BgpGroupPath := "junos:bgp" + "." + "group"
  const ConfigurationPath := "tailf-ncs:device" + "." + "config" + "." + "junos:configuration"
  const VersionPath := "config" + "." + "junos:configuration" + "." + "version"
  const TunnelSourcePath := "tunnel" + "." + "source"
  const TunnelDestinationPath := "tunnel" + "." + "destination"

  /** A unit entry of unitdict. */
  datatype NsoUnit = NsoUnit(unit: Value, description: Value, vlanid: Value, address: seq<Value>)

  /** A tunneldict entry. */
  datatype NsoTunnel = NsoTunnel(source: Value, destination: Value)

  datatype JunosInterface = JunosInterface(
    name: Value, description: Value, vlantagging: bool,
    unitdict: seq<NsoUnit>, bundle: Value, tunneldict: seq<NsoTunnel>)

  datatype NsoPeering = NsoPeering(
    peerType: Value, group: Value, remoteAddress: Value, description: Value,
    localAddress: Value, asNumber: Value)

  datatype NsoRouter = NsoRouter(name: string, version: Value)

  /** The address names of a unit: every 'name' below every 'address'. */
  function UnitAddresses(item: Value): seq<Value> {
    AllUnder("name", Arr(AllUnder("address", item)))
  }

  /** parse_unit. */
  function ParseUnit(item: Value): Result<NsoUnit> {
    var unit :- Index(item, "name");
    var f := item.fields;
    Ok(NsoUnit(unit, GetDefault(f, "description", Null), GetDefault(f, "vlan-id", Null),
               UnitAddresses(item)))
  }

  /** Every address name is the 'name' of something found under an
      'address' key of the unit. */
  lemma UnitAddressesSound(item: Value, x: Value)
    requires x in UnitAddresses(item)
    ensures exists a :: ("address", a) in Entries(item) && ("name", x) in Entries(Arr(AllUnder("address", item)))
  {
    AllUnderSound("name", Arr(AllUnder("address", item)));
    AllUnderSound("address", item);
    var all := AllUnder("address", item);
    assert ("name", x) in Entries(Arr(all));
    assert ("name", x) in ItemEntries(all);
    NamedInSome(all, ("name", x));
    var k :| 0 <= k < |all| && ("name", x) in Entries(all[k]);
    assert all[k] in all;
    assert ("address", all[k]) in Entries(item);
  }

  lemma {:induction false} NamedInSome(items: seq<Value>, e: (string, Value))
    requires e in ItemEntries(items)
    ensures exists k :: 0 <= k < |items| && e in Entries(items[k])
    decreases |items|
  {
    var init := items[..|items| - 1];
    if e in ItemEntries(init) {
      NamedInSome(init, e);
      var k :| 0 <= k < |init| && e in Entries(init[k]);
      assert items[k] == init[k];
    } else {
      assert e in Entries(items[|items| - 1]);
    }
  }

  /** [parse_unit(u) for u in units]. */
  function ParseUnits(us: seq<Value>): (r: Result<seq<NsoUnit>>)
    ensures r.Ok? ==> |r.value| == |us|
  {
    if us == [] then Ok([])
    else
      var init :- ParseUnits(us[..|us| - 1]);
      var u :- ParseUnit(us[|us| - 1]);
      Ok(init + [u])
  }

  /** The tunneldict entry of one unit: None when the unit has no
      'tunnel'. */
  function TunnelOf(u: Value): (r: Result<Option<NsoTunnel>>)
    ensures u.Obj? ==> r.Ok? ==> (r.value.Some? <==> HasKey(u.fields, "tunnel"))
  {
    var has :- In("tunnel", u);
    if !has then Ok(None)
    else
      var source :- Find(TunnelSourcePath, u, ".", Null);
      var destination :- Find(TunnelDestinationPath, u, ".", Null);
      Ok(Some(NsoTunnel(source, destination)))
  }

  /** The tunneldict comprehension, in unit order. */
  function Tunnels(us: seq<Value>): (r: Result<seq<NsoTunnel>>)
    ensures r.Ok? ==> |r.value| <= |us|
  {
    if us == [] then Ok([])
    else
      var init :- Tunnels(us[..|us| - 1]);
      var t :- TunnelOf(us[|us| - 1]);
      Ok(init + (if t.Some? then [t.value] else []))
  }

  /** The number of units that have a 'tunnel' key. */
  function TunnelUnits(us: seq<Value>): nat {
    if us == [] then 0
    else TunnelUnits(us[..|us| - 1]) + (if us[|us| - 1].Obj? && HasKey(us[|us| - 1].fields, "tunnel") then 1 else 0)
  }

  /** There is one tunnel entry per unit that has a 'tunnel' key. */
  lemma {:induction false} TunnelCount(us: seq<Value>)
    requires forall i :: 0 <= i < |us| ==> us[i].Obj?
    requires Tunnels(us).Ok?
    ensures |Tunnels(us).value| == TunnelUnits(us)
    decreases |us|
  {
    if us != [] {
      var init := us[..|us| - 1];
      assert forall i :: 0 <= i < |init| ==> init[i] == us[i];
      TunnelCount(init);
    }
  }

  /** parse_interface: the items of item.get('unit', []) feed both the
      unit list and the tunnel list. */
  function ParseInterface(item: Value): Result<JunosInterface> {
    var name :- Index(item, "name");
    var f := item.fields;
    var units :- Iter(GetDefault(f, "unit", Arr([])));
    var unitdict :- ParseUnits(units);
    var bundle := OrNone(First("bundle", item, Null));
    var tunneldict :- Tunnels(units);
    Ok(JunosInterface(name, GetDefault(f, "description", Null),
                      HasKey(f, "vlan-tagging") || HasKey(f, "flexible-vlan-tagging"),
                      unitdict, bundle, tunneldict))
  }

  /** On a dict: the name is the item's, vlantagging holds iff one of the
      two tagging keys is present, description is the item's or None when
      absent, bundle is the first 'bundle' value anywhere exactly when that
      is truthy and None otherwise, and there is one unit entry per unit. */
  lemma ParseInterfaceSpec(f: Fields, units: seq<Value>)
    requires HasKey(f, "name")
    requires Get(f, "unit") == Some(Arr(units))
    requires ParseInterface(Obj(f)).Ok?
    ensures var i := ParseInterface(Obj(f)).value;
      && (i.vlantagging <==> HasKey(f, "vlan-tagging") || HasKey(f, "flexible-vlan-tagging"))
      && i.name == Get(f, "name").value
      && (!HasKey(f, "description") ==> i.description == Null)
      && (HasKey(f, "description") ==> i.description == Get(f, "description").value)
      && |i.unitdict| == |units|
      && (i.bundle != Null ==> i.bundle == First("bundle", Obj(f), Null) && Truthy(i.bundle))
      && (Truthy(First("bundle", Obj(f), Null)) ==> i.bundle == First("bundle", Obj(f), Null))
  {
  }

  /** An interface without units has no unit and no tunnel entries. */
  lemma NoUnits(f: Fields)
    requires HasKey(f, "name") && !HasKey(f, "unit")
    ensures ParseInterface(Obj(f)).Ok?
    ensures ParseInterface(Obj(f)).value.unitdict == []
    ensures ParseInterface(Obj(f)).value.tunneldict == []
  {
  }

  /** parse_interfaces: one interface per item at junos:interfaces.interface;
      iterating the None that find returns for a missing path raises. */
  function ParseInterfaces(data: Value): Result<seq<JunosInterface>> {
    var found :- Find(InterfacesPath, data, ".", Null);
    var items :- Iter(found);
    MapInterfaces(items)
  }

  function MapInterfaces(items: seq<Value>): (r: Result<seq<JunosInterface>>)
    ensures r.Ok? ==> |r.value| == |items|
  {
    if items == [] then Ok([])
    else
      var init :- MapInterfaces(items[..|items| - 1]);
      var i :- ParseInterface(items[|items| - 1]);
      Ok(init + [i])
  }

  /** The k-th interface is built from the k-th item. */
  lemma {:induction false} MapInterfacesAt(items: seq<Value>, k: nat)
    requires k < |items| && MapInterfaces(items).Ok?
    ensures ParseInterface(items[k]) == Ok(MapInterfaces(items).value[k])
    decreases |items|
  {
    var init := items[..|items| - 1];
    if k < |items| - 1 {
      MapInterfacesAt(init, k);
    }
  }

  // ---------------------------------------------------------------------
  // parse_bgp_sessions

  /** One peering per neighbour, carrying the group's values; reading a
      neighbour that is not a dict raises AttributeError. */
  function NeighborPeerings(ns: seq<Value>, groupName: Value, groupType: Value, localAddress: Value)
    : (r: Result<seq<NsoPeering>>)
    ensures r.Ok? ==> |r.value| == |ns|
  {
    if forall k :: 0 <= k < |ns| ==> ns[k].Obj? then
      Ok(seq(|ns|, k requires 0 <= k < |ns| && ns[k].Obj? =>
                     PeeringOf(ns[k].fields, groupName, groupType, localAddress)))
    else Err(AttributeError)
  }

  /** The peering of one neighbour dict. */
  function PeeringOf(f: Fields, groupName: Value, groupType: Value, localAddress: Value): NsoPeering {
    NsoPeering(groupType, groupName, GetDefault(f, "name", Null),
               GetDefault(f, "description", Null), localAddress, GetDefault(f, "peer-as", Null))
  }

  /** A group's neighbours give peerings exactly when all of them are
      dicts; then the k-th peering carries the group's name, type and
      local-address, and the k-th neighbour's name, description and
      peer-as (None when absent). */
  lemma NeighborPeeringsSpec(ns: seq<Value>, groupName: Value, groupType: Value, localAddress: Value, k: nat)
    ensures var r := NeighborPeerings(ns, groupName, groupType, localAddress);
      (r.Ok? <==> forall i :: 0 <= i < |ns| ==> ns[i].Obj?) && (r.Err? ==> r.error == AttributeError)
    ensures var r := NeighborPeerings(ns, groupName, groupType, localAddress);
      r.Ok? && k < |ns| ==>
        |r.value| == |ns| && r.value[k].group == groupName && r.value[k].peerType == groupType
        && r.value[k].localAddress == localAddress
        && r.value[k].remoteAddress == GetDefault(ns[k].fields, "name", Null)
        && r.value[k].description == GetDefault(ns[k].fields, "description", Null)
        && r.value[k].asNumber == GetDefault(ns[k].fields, "peer-as", Null)
  {
  }

  /** The peerings of one group. */
  function GroupSessions(group: Value): Result<seq<NsoPeering>> {
    var groupName :- Index(group, "name");
    var f := group.fields;
    var ns :- Iter(GetDefault(f, "neighbor", Arr([])));
    NeighborPeerings(ns, groupName, GetDefault(f, "type", Null), GetDefault(f, "local-address", Null))
  }

  /** The groups' peerings concatenated in group order. */
  function Sessions(groups: seq<Value>): Result<seq<NsoPeering>> {
    if groups == [] then Ok([])
    else
      var init :- Sessions(groups[..|groups| - 1]);
      var g :- GroupSessions(groups[|groups| - 1]);
      Ok(init + g)
  }

  function BgpSessions(data: Value): Result<seq<NsoPeering>> {
    var found :- Find(BgpGroupPath, data, ".", Null);
    var groups :- Iter(found);
    Sessions(groups)
  }

  /** parse_bgp_sessions as written: a loop over the groups whose inner
      loop appends one peering per neighbour. */
  method ParseBgpSessions(data: Value) returns (r: Result<seq<NsoPeering>>)
    ensures r == BgpSessions(data)
  {
    var found := FindLoop(BgpGroupPath, data, ".", Null);
    if found.Err? {
      return Err(found.error);
    }
    var it := Iter(found.value);
    if it.Err? {
      return Err(it.error);
    }
    r := GroupLoop(it.value);
  }

  /** The loop over the groups of parse_bgp_sessions. */
  method GroupLoop(groups: seq<Value>) returns (r: Result<seq<NsoPeering>>)
    ensures r == Sessions(groups)
  {
    var peerings: seq<NsoPeering> := [];
    var i := 0;
    while i < |groups|
      invariant 0 <= i <= |groups|
      invariant Sessions(groups[..i]) == Ok(peerings)
    {
      SessionsSnoc(groups, i);
      var more := GroupLoopBody(groups[i]);
      if more.Err? {
        SessionsErrSticky(groups, i + 1);
        return Err(more.error);
      }
      peerings := peerings + more.value;
      i := i + 1;
    }
    assert groups[..|groups|] == groups;
    r := Ok(peerings);
  }

  lemma SessionsSnoc(groups: seq<Value>, i: nat)
    requires i < |groups| && Sessions(groups[..i]).Ok?
    ensures var g := GroupSessions(groups[i]);
      Sessions(groups[..i + 1]) == if g.Ok? then Ok(Sessions(groups[..i]).value + g.value) else Err(g.error)
  {
    assert groups[..i + 1][..i] == groups[..i];
  }

  /** One pass of the group loop: the group's name (a group without one
      raises), its neighbour list, and the neighbour loop. */
  method GroupLoopBody(group: Value) returns (r: Result<seq<NsoPeering>>)
    ensures r == GroupSessions(group)
  {
    var name := Index(group, "name");
    if name.Err? {
      return Err(name.error);
    }
    var nit := Iter(GetDefault(group.fields, "neighbor", Arr([])));
    if nit.Err? {
      return Err(nit.error);
    }
    r := NeighborLoop(nit.value, name.value, GetDefault(group.fields, "type", Null),
                      GetDefault(group.fields, "local-address", Null));
  }

  /** The inner loop of parse_bgp_sessions: one peering per neighbour, in
      order; a neighbour that is not a dict raises.  The source appends
      each peering straight onto the outer list; here the group's
      peerings are collected and the caller appends them. */
  method NeighborLoop(ns: seq<Value>, groupName: Value, groupType: Value, localAddress: Value)
    returns (r: Result<seq<NsoPeering>>)
    ensures r == NeighborPeerings(ns, groupName, groupType, localAddress)
  {
    var out: seq<NsoPeering> := [];
    var j := 0;
    while j < |ns|
      invariant 0 <= j <= |ns| && |out| == j
      invariant Agree(ns, groupName, groupType, localAddress, out)
    {
      var peering := NeighborPeering(ns[j], groupName, groupType, localAddress);
      if peering.Err? {
        assert !ns[j].Obj?;
        return Err(peering.error);
      }
      AgreeSnoc(ns, groupName, groupType, localAddress, out, peering.value);
      out := out + [peering.value];
      j := j + 1;
    }
    NeighborPeeringsOk(ns, groupName, groupType, localAddress, out);
    r := Ok(out);
  }

  /** The loop invariant of NeighborLoop: out holds the peerings of the
      first |out| neighbours. */
  predicate Agree(ns: seq<Value>, groupName: Value, groupType: Value, localAddress: Value, out: seq<NsoPeering>) {
    |out| <= |ns|
    && (forall k :: 0 <= k < |out| ==> ns[k].Obj?)
    && (forall k :: 0 <= k < |out| ==> out[k] == PeeringOf(ns[k].fields, groupName, groupType, localAddress))
  }

  lemma AgreeSnoc(ns: seq<Value>, groupName: Value, groupType: Value, localAddress: Value,
                  out: seq<NsoPeering>, p: NsoPeering)
    requires Agree(ns, groupName, groupType, localAddress, out) && |out| < |ns| && ns[|out|].Obj?
    requires p == PeeringOf(ns[|out|].fields, groupName, groupType, localAddress)
    ensures Agree(ns, groupName, groupType, localAddress, out + [p])
  {
  }

  lemma NeighborPeeringsOk(ns: seq<Value>, groupName: Value, groupType: Value, localAddress: Value,
                           out: seq<NsoPeering>)
    requires |out| == |ns| && Agree(ns, groupName, groupType, localAddress, out)
    ensures NeighborPeerings(ns, groupName, groupType, localAddress) == Ok(out)
  {
    assert NeighborPeerings(ns, groupName, groupType, localAddress).value == out;
  }

  /** The loop body: the peering read from one neighbour dict; reading
      from anything else raises AttributeError. */
  method NeighborPeering(neighbor: Value, groupName: Value, groupType: Value, localAddress: Value)
    returns (r: Result<NsoPeering>)
    ensures neighbor.Obj? ==> r == Ok(PeeringOf(neighbor.fields, groupName, groupType, localAddress))
    ensures !neighbor.Obj? ==> r == Err(AttributeError)
  {
    if !neighbor.Obj? {
      return Err(AttributeError);
    }
    var f := neighbor.fields;
    r := Ok(NsoPeering(groupType, groupName, GetDefault(f, "name", Null),
                       GetDefault(f, "description", Null), localAddress,
                       GetDefault(f, "peer-as", Null)));
  }

  lemma {:induction false} SessionsErrSticky(groups: seq<Value>, i: nat)
    requires i <= |groups| && Sessions(groups[..i]).Err?
    ensures Sessions(groups) == Sessions(groups[..i])
    decreases |groups| - i
  {
    if i < |groups| {
      assert groups[..i + 1][..i] == groups[..i];
      SessionsErrSticky(groups, i + 1);
    } else {
      assert groups[..i] == groups;
    }
  }

  /** Each group contributes one peering per neighbour; the total is the
      sum over the groups. */
  function NeighborTotal(groups: seq<Value>): nat {
    if groups == [] then 0
    else
      var g := groups[|groups| - 1];
      NeighborTotal(groups[..|groups| - 1])
      + (if g.Obj? && Get(g.fields, "neighbor").Some? && Get(g.fields, "neighbor").value.Arr?
         then |Get(g.fields, "neighbor").value.items| else 0)
  }

  lemma {:induction false} SessionsCount(groups: seq<Value>)
    requires Sessions(groups).Ok?
    ensures |Sessions(groups).value| == NeighborTotal(groups)
    decreases |groups|
  {
    if groups != [] {
      SessionsCount(groups[..|groups| - 1]);
      GroupSessionsCount(groups[|groups| - 1]);
    }
  }

  /** A group gives one peering per item of its 'neighbor' list. */
  lemma GroupSessionsCount(g: Value)
    requires GroupSessions(g).Ok?
    ensures |GroupSessions(g).value|
         == if g.Obj? && Get(g.fields, "neighbor").Some? && Get(g.fields, "neighbor").value.Arr?
            then |Get(g.fields, "neighbor").value.items| else 0
  {
    var nv := GetDefault(g.fields, "neighbor", Arr([]));
    if nv.Str? || nv.Obj? {
      var ns := Iter(nv).value;
      assert forall k :: 0 <= k < |ns| ==> ns[k].Str?;
      StringsRaise(ns, Index(g, "name").value, GetDefault(g.fields, "type", Null),
                   GetDefault(g.fields, "local-address", Null));
    }
  }

  /** Iterating a string or a dict gives strings, and reading a neighbour
      that is a string raises. */
  lemma StringsRaise(ns: seq<Value>, groupName: Value, groupType: Value, localAddress: Value)
    requires forall k :: 0 <= k < |ns| ==> ns[k].Str?
    ensures NeighborPeerings(ns, groupName, groupType, localAddress).Ok? ==> ns == []
  {
    if ns != [] {
      assert !ns[0].Obj?;
    }
  }

  /** A document without the path raises TypeError in both parse_interfaces
      and parse_bgp_sessions, because find returns None and None is not
      iterable (the accompanying tests expect []). */
  lemma EmptyDocument(data: Value)
    requires data.Obj? && data.fields == []
    ensures ParseInterfaces(data) == Err(TypeError)
    ensures BgpSessions(data) == Err(TypeError)
  {
    MissingPath(InterfacesPath, data);
    MissingPath(BgpGroupPath, data);
    assert Iter(Null) == Err(TypeError);
  }

  /** find on an empty dict gives the default. */
  lemma MissingPath(path: string, data: Value)
    requires data.Obj? && data.fields == []
    ensures Find(path, data, ".", Null) == Ok(Null)
  {
    var ps := Strs.SplitSep(path, ".");
    assert ps != [];
  }

  /** A group without 'neighbor' contributes no peering. */
  lemma NoNeighbors(f: Fields)
    requires HasKey(f, "name") && !HasKey(f, "neighbor")
    ensures GroupSessions(Obj(f)) == Ok([])
  {
    assert NeighborPeerings([], Str(""), Null, Null).Ok?;
    NeighborPeeringsOk([], Get(f, "name").value, GetDefault(f, "type", Null), GetDefault(f, "local-address", Null), []);
  }

  // ---------------------------------------------------------------------
  // is_junos, parse_router

  /** is_junos: the configuration path resolves to something other than
      None. */
  function IsJunos(data: Value): Result<bool> {
    var found :- Find(ConfigurationPath, data, ".", Null);
    Ok(found != Null)
  }

  /** is_junos holds for a document whose configuration path leads through
      dicts to a non-None value, and fails for one where a segment is
      missing. */
  lemma IsJunosSpec(data: Value)
    ensures Walk(Strs.SplitSep(ConfigurationPath, "."), data).Found? ==>
      IsJunos(data) == Ok(Walk(Strs.SplitSep(ConfigurationPath, "."), data).v != Null)
    ensures Walk(Strs.SplitSep(ConfigurationPath, "."), data).Missing? ==> IsJunos(data) == Ok(false)
  {
    FindWalk(Strs.SplitSep(ConfigurationPath, "."), data, Null);
  }

  /** parse_router: named by the device address with 'lo0.' removed. */
  function ParseRouter(data: Value): Result<NsoRouter> {
    var routerData :- Index(data, "tailf-ncs:device");
    var address :- Index(routerData, "address");
    if !address.Str? then Err(AttributeError)
    else
      var version :- Find(VersionPath, routerData, ".", Null);
      Ok(NsoRouter(HostnameClean(address.s), version))
  }

  /** The loopback name lo0.h of a device gives a router named h. */
  lemma RouterName(dev: Fields, h: string, data: Fields)
    requires !Strs.Contains(h, "lo0.")
    requires Get(dev, "address") == Some(Str("lo0." + h))
    requires Get(data, "tailf-ncs:device") == Some(Obj(dev))
    requires ParseRouter(Obj(data)).Ok?
    ensures ParseRouter(Obj(data)).value.name == h
  {
    RouterNamed(dev, "lo0." + h, data);
    HostnameCleanSpec(h);
  }

  /** The router is named by the cleaned device address. */
  lemma RouterNamed(dev: Fields, a: string, data: Fields)
    requires Get(dev, "address") == Some(Str(a))
    requires Get(data, "tailf-ncs:device") == Some(Obj(dev))
    requires ParseRouter(Obj(data)).Ok?
    ensures ParseRouter(Obj(data)).value.name == HostnameClean(a)
  {
    assert Index(Obj(data), "tailf-ncs:device") == Ok(Obj(dev));
    assert Index(Obj(dev), "address") == Ok(Str(a));
  }
}
