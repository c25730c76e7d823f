/** The original monolithic Junos configuration parser of juniper_conf.py:
    it reads the host-name, then walks every <interface> element (when the
    configuration has an <interfaces> element at all), skipping names that
    contain '.', 'lo', 'all' or '*', and collects each kept interface's
    bundle, description, vlan tagging, tunnel and units.  Several of its
    temporaries outlive the iteration they were set in, and the model keeps
    that. */
module LegacyJuniperConf {
  import opened Py
  import opened Json
  import opened Xml
  import Strs

  datatype Tunnel = Tunnel(source: string, destination: string)

  /** One unitdict entry; `name` is the unit description, as in the source. */
  datatype Unit = Unit(unit: string, name: string, vlanid: string, address: seq<string>)

  datatype LegacyInterface = LegacyInterface(
    name: string, bundle: string, desc: string, vlantagging: bool,
    tunnels: seq<Tunnel>, units: seq<Unit>)

  datatype LegacyRouter = LegacyRouter(name: string, interfaces: seq<LegacyInterface>)

  const NoDescription := "No description set, fix me!"

  // ---------------------------------------------------------------------
  // get_firstchild

  /** get_firstchild(n, tag): the data of the first child of the first
      element tagged `tag` below n; None where the source raises
      AttributeError (no such element, no child, or a child without data). */
  function FirstChild(n: Node, tag: string): (r: Option<string>)
    ensures r.Some? ==> ByTag(n, tag) != []
  {
    var hs := ByTag(n, tag);
    if hs != [] && hs[0].node.Element? && hs[0].node.children != [] && hs[0].node.children[0].Text?
    then Some(hs[0].node.children[0].data)
    else None
  }

  /** An uncaught get_firstchild: its AttributeError escapes. */
  function Need(o: Option<string>): (r: Result<string>)
  {
    if o.Some? then Ok(o.value) else Err(AttributeError)
  }

  /** A caught get_firstchild: the variable keeps the value it had. */
  function OrElse(o: Option<string>, d: string): string {
    if o.Some? then o.value else d
  }

  // ---------------------------------------------------------------------
  // the units of one interface

  /** The names of a unit's addresses; a nameless address aborts the parse. */
  function AddressNames(addrs: seq<Node>): (r: Result<seq<string>>)
    ensures r.Ok? ==> |r.value| == |addrs|
  {
    if addrs == [] then Ok([])
    else
      var init :- AddressNames(addrs[..|addrs| - 1]);
      var a :- Need(FirstChild(addrs[|addrs| - 1], "name"));
      Ok(init + [a])
  }

  /** What one iteration of the unit loop reads from its unit. */
  datatype UnitView = UnitView(
    name: Option<string>, desc: Option<string>, vlan: Option<string>,
    addrs: Result<seq<string>>)

  function UnitViewOf(u: Node): UnitView {
    UnitView(FirstChild(u, "name"), FirstChild(u, "description"), FirstChild(u, "vlan-id"),
             AddressNames(Nodes(ByTag(u, "address"))))
  }

  function UnitViews(us: seq<Node>): (r: seq<UnitView>)
    ensures |r| == |us|
    ensures forall k :: 0 <= k < |us| ==> r[k] == UnitViewOf(us[k])
  {
    seq(|us|, k requires 0 <= k < |us| => UnitViewOf(us[k]))
  }

  /** The unit loop's state: the entries so far and the description and
      vlan-id temporaries, which are not reset between units. */
  datatype UnitAcc = UnitAcc(out: seq<Unit>, desc: string, vlan: string)

  /** One iteration: a nameless unit aborts (get_firstchild is not guarded
      there); a missing description or vlan-id keeps the previous value. */
  function UnitStep(a: UnitAcc, v: UnitView): Result<UnitAcc> {
    var name :- Need(v.name);
    var desc := OrElse(v.desc, a.desc);
    var vlan := OrElse(v.vlan, a.vlan);
    var addrs :- v.addrs;
    Ok(UnitAcc(a.out + [Unit(name, desc, vlan, addrs)], desc, vlan))
  }

  function UnitsFold(vs: seq<UnitView>): Result<UnitAcc> {
    if vs == [] then Ok(UnitAcc([], "", ""))
    else
      var p :- UnitsFold(vs[..|vs| - 1]);
      UnitStep(p, vs[|vs| - 1])
  }

  /** The unit loop over the units of one interface. */
  function Units(us: seq<Node>): Result<UnitAcc> {
    UnitsFold(UnitViews(us))
  }

  /** The description the carried temporary holds after the views `vs`:
      that of the last unit that had one, or '' when none had. */
  function LastDesc(vs: seq<UnitView>): string {
    if vs == [] then "" else OrElse(vs[|vs| - 1].desc, LastDesc(vs[..|vs| - 1]))
  }

  /** The same for the vlan-id temporary. */
  function LastVlan(vs: seq<UnitView>): string {
    if vs == [] then "" else OrElse(vs[|vs| - 1].vlan, LastVlan(vs[..|vs| - 1]))
  }

  /** After the unit loop, the carried temporaries hold the last
      description and vlan-id seen, and there is one entry per unit. */
  lemma {:induction false} UnitsFoldState(vs: seq<UnitView>)
    requires UnitsFold(vs).Ok?
    ensures |UnitsFold(vs).value.out| == |vs|
    ensures UnitsFold(vs).value.desc == LastDesc(vs)
    ensures UnitsFold(vs).value.vlan == LastVlan(vs)
    decreases |vs|
  {
    if vs != [] {
      UnitsFoldState(vs[..|vs| - 1]);
    }
  }

  /** Each unit entry names its unit, and its description and vlan-id are
      those of the nearest unit at or before it that has one: a unit without
      them inherits the previous unit's values. */
  lemma {:induction false} UnitsFoldAt(vs: seq<UnitView>, k: nat)
    requires UnitsFold(vs).Ok? && k < |vs|
    ensures k < |UnitsFold(vs).value.out|
    ensures var u := UnitsFold(vs).value.out[k];
      Some(u.unit) == vs[k].name && Ok(u.address) == vs[k].addrs
      && u.name == LastDesc(vs[..k + 1]) && u.vlanid == LastVlan(vs[..k + 1])
    decreases |vs|
  {
    var init := vs[..|vs| - 1];
    UnitsFoldState(init);
    UnitsFoldState(vs);
    if k == |vs| - 1 {
      assert vs[..k + 1] == vs;
      assert vs[..k + 1][..k] == init;
    } else {
      UnitsFoldAt(init, k);
      assert init[..k + 1] == vs[..k + 1];
    }
  }

  /** The same, read on the unit elements themselves. */
  lemma UnitsAt(us: seq<Node>, k: nat)
    requires Units(us).Ok? && k < |us|
    ensures k < |Units(us).value.out|
    ensures var u := Units(us).value.out[k];
      Some(u.unit) == FirstChild(us[k], "name")
      && Ok(u.address) == AddressNames(Nodes(ByTag(us[k], "address")))
      && u.name == LastDesc(UnitViews(us)[..k + 1]) && u.vlanid == LastVlan(UnitViews(us)[..k + 1])
  {
    UnitsFoldAt(UnitViews(us), k);
  }

  // ---------------------------------------------------------------------
  // one interface

  /** The Interface built for a kept <interface> element. */
  function BuildInterface(e: Node): Result<LegacyInterface> {
    var units :- Units(Nodes(ByTag(e, "unit")));
    var src := FirstChild(e, "source");
    var dst := FirstChild(e, "destination");
    Ok(LegacyInterface(
      OrElse(FirstChild(e, "name"), ""),
      OrElse(FirstChild(e, "bundle"), ""),
      OrElse(FirstChild(e, "description"), NoDescription),
      ByTag(e, "vlan-tagging") != [],
      if src.Some? && dst.Some? then [Tunnel(src.value, dst.value)] else [],
      units.out))
  }

  /** vlantagging is True exactly when a vlan-tagging element lies below;
      a missing description is the fix-me text; a tunnel entry exists
      exactly when both a source and a destination have text; there is one
      unit entry per unit element. */
  lemma BuildInterfaceSpec(e: Node)
    requires e.Element? && BuildInterface(e).Ok?
    ensures var i := BuildInterface(e).value;
      (i.vlantagging <==> exists d :: d in Desc(e.children) && Selects("vlan-tagging", d))
      && (FirstChild(e, "description").None? ==> i.desc == NoDescription)
      && (FirstChild(e, "description").Some? ==> i.desc == FirstChild(e, "description").value)
      && (|i.tunnels| == 1 <==> FirstChild(e, "source").Some? && FirstChild(e, "destination").Some?)
      && |i.tunnels| <= 1
      && |i.units| == |ByTag(e, "unit")|
  {
    ByTagExists(e, "vlan-tagging");
    UnitsFoldState(UnitViews(Nodes(ByTag(e, "unit"))));
  }

  // ---------------------------------------------------------------------
  // the interface loop

  /** The name filter: no '.', 'lo', 'all' or '*' in the name. */
  predicate Keep(t: string) {
    !Strs.Contains(t, ".") && !Strs.Contains(t, "lo") && !Strs.Contains(t, "all")
    && !Strs.Contains(t, "*")
  }

  /** What one iteration of the interface loop reads from its element: the
      name, and the interface it would build. */
  datatype IfaceView = IfaceView(name: Option<string>, built: Result<LegacyInterface>)

  function IfaceViewOf(e: Node): IfaceView {
    IfaceView(FirstChild(e, "name"), BuildInterface(e))
  }

  function IfaceViews(es: seq<Node>): (r: seq<IfaceView>)
    ensures |r| == |es|
    ensures forall k :: 0 <= k < |es| ==> r[k] == IfaceViewOf(es[k])
  {
    seq(|es|, k requires 0 <= k < |es| => IfaceViewOf(es[k]))
  }

  /** The interface loop's state: the interfaces so far and `temp`, the last
      name read, which is unbound (None) until one is read. */
  datatype IfaceAcc = IfaceAcc(out: seq<LegacyInterface>, temp: Option<string>)

  /** One iteration: an element without a readable name is judged by the
      previous element's name; the very first one raises NameError. */
  function IfaceStep(a: IfaceAcc, v: IfaceView): Result<IfaceAcc> {
    var temp := if v.name.Some? then v.name else a.temp;
    if temp.None? then Err(NameError("temp"))
    else if Keep(temp.value) then
      var i :- v.built;
      Ok(IfaceAcc(a.out + [i], temp))
    else Ok(IfaceAcc(a.out, temp))
  }

  function IfacesFold(vs: seq<IfaceView>): Result<IfaceAcc> {
    if vs == [] then Ok(IfaceAcc([], None))
    else
      var p :- IfacesFold(vs[..|vs| - 1]);
      IfaceStep(p, vs[|vs| - 1])
  }

  lemma KeepEmpty()
    ensures Keep("")
  {
  }

  /** The interface a view would build is named by the name it read. */
  predicate NamedAsRead(v: IfaceView) {
    v.built.Ok? ==> v.built.value.name == OrElse(v.name, "")
  }

  /** No emitted interface has a name with '.', 'lo', 'all' or '*', and at
      most one interface is emitted per element. */
  lemma {:induction false} IfacesFiltered(vs: seq<IfaceView>)
    requires IfacesFold(vs).Ok?
    requires forall k :: 0 <= k < |vs| ==> NamedAsRead(vs[k])
    ensures |IfacesFold(vs).value.out| <= |vs|
    ensures forall i :: 0 <= i < |IfacesFold(vs).value.out| ==> Keep(IfacesFold(vs).value.out[i].name)
    decreases |vs|
  {
    if vs != [] {
      var init := vs[..|vs| - 1];
      var v := vs[|vs| - 1];
      assert forall k :: 0 <= k < |init| ==> init[k] == vs[k];
      IfacesFiltered(init);
      assert NamedAsRead(v);
      KeepEmpty();
    }
  }

  // ---------------------------------------------------------------------
  // parse

  /** The host-name: the data of the first host-name element's first child.
      No host-name element raises IndexError (not caught); an element
      without text ends the run (sys.exit). */
  function Hostname(doc: Node): (r: Result<string>)
    ensures ByTag(doc, "host-name") == [] ==> r == Err(IndexError)
  {
    var hs := ByTag(doc, "host-name");
    if hs == [] then Err(IndexError)
    else
      var n := hs[0].node;
      if n.Element? && n.children != [] && n.children[0].Text? then
        var h := n.children[0].data;
        if Strs.Contains(h, "re0") || Strs.Contains(h, "re1") then
          Ok(Strs.ReplaceAll(Strs.ReplaceAll(h, "-re0", ""), "-re1", ""))
        else Ok(h)
      else Err(Exit)
  }

  /** The elements the interface loop visits: every <interface> in the
      whole document as soon as one <interfaces> element exists, none
      otherwise. */
  function InterfaceElements(doc: Node): seq<Node> {
    if ByTag(doc, "interfaces") != [] then Nodes(ByTag(doc, "interface")) else []
  }

  /** parse(xmldoc). */
  function Parse(doc: Node): Result<LegacyRouter> {
    var h :- Hostname(doc);
    var a :- IfacesFold(IfaceViews(InterfaceElements(doc)));
    Ok(LegacyRouter(h, a.out))
  }

  /** A host-name element without text ends the run. */
  lemma HostnameEmpty(doc: Node)
    requires ByTag(doc, "host-name") != []
    requires ByTag(doc, "host-name")[0].node.Element? && ByTag(doc, "host-name")[0].node.children == []
    ensures Parse(doc) == Err(Exit)
  {
  }

  /** Without an <interfaces> element the router has no interfaces. */
  lemma NoInterfacesElement(doc: Node)
    requires Hostname(doc).Ok? && ByTag(doc, "interfaces") == []
    ensures Parse(doc) == Ok(LegacyRouter(Hostname(doc).value, []))
  {
  }

  /** Every interface of a parsed router passed the name filter. */
  lemma ParseFiltered(doc: Node)
    requires Parse(doc).Ok?
    ensures forall i :: 0 <= i < |Parse(doc).value.interfaces| ==> Keep(Parse(doc).value.interfaces[i].name)
  {
    IfacesFiltered(IfaceViews(InterfaceElements(doc)));
  }

  /** Names that no routing-engine marker touches are kept as they are. */
  lemma HostnamePlain(doc: Node, h: string)
    requires ByTag(doc, "host-name") != []
    requires ByTag(doc, "host-name")[0].node == Element("host-name", [Text(h)])
    requires !Strs.Contains(h, "re0") && !Strs.Contains(h, "re1")
    ensures Hostname(doc) == Ok(h)
  {
  }

  // ---------------------------------------------------------------------
  // the loops as written

  /** The address loop of one unit. */
  method AddressLoop(addrs: seq<Node>) returns (r: Result<seq<string>>)
    ensures r == AddressNames(addrs)
  {
    var names: seq<string> := [];
    var i := 0;
    while i < |addrs|
      invariant 0 <= i <= |addrs|
      invariant AddressNames(addrs[..i]) == Ok(names)
    {
      assert addrs[..i + 1][..i] == addrs[..i];
      var a := FirstChild(addrs[i], "name");
      if a.None? {
        AddressErrSticky(addrs, i + 1);
        return Err(AttributeError);
      }
      names := names + [a.value];
      i := i + 1;
    }
    assert addrs[..i] == addrs;
    r := Ok(names);
  }

  lemma {:induction false} AddressErrSticky(addrs: seq<Node>, i: nat)
    requires i <= |addrs| && AddressNames(addrs[..i]).Err?
    ensures AddressNames(addrs) == AddressNames(addrs[..i])
    decreases |addrs| - i
  {
    if i < |addrs| {
      assert addrs[..i + 1][..i] == addrs[..i];
      AddressErrSticky(addrs, i + 1);
    } else {
      assert addrs[..i] == addrs;
    }
  }

  lemma {:induction false} UnitsErrSticky(vs: seq<UnitView>, i: nat)
    requires i <= |vs| && UnitsFold(vs[..i]).Err?
    ensures UnitsFold(vs) == UnitsFold(vs[..i])
    decreases |vs| - i
  {
    if i < |vs| {
      assert vs[..i + 1][..i] == vs[..i];
      UnitsErrSticky(vs, i + 1);
    } else {
      assert vs[..i] == vs;
    }
  }

  lemma {:induction false} IfacesErrSticky(vs: seq<IfaceView>, i: nat)
    requires i <= |vs| && IfacesFold(vs[..i]).Err?
    ensures IfacesFold(vs) == IfacesFold(vs[..i])
    decreases |vs| - i
  {
    if i < |vs| {
      assert vs[..i + 1][..i] == vs[..i];
      IfacesErrSticky(vs, i + 1);
    } else {
      assert vs[..i] == vs;
    }
  }

  lemma UnitsFoldSnoc(vs: seq<UnitView>, i: nat, a: UnitAcc)
    requires i < |vs| && UnitsFold(vs[..i]) == Ok(a)
    ensures UnitsFold(vs[..i + 1]) == UnitStep(a, vs[i])
  {
    assert vs[..i + 1][..i] == vs[..i];
  }

  lemma IfacesFoldSnoc(vs: seq<IfaceView>, i: nat, a: IfaceAcc)
    requires i < |vs| && IfacesFold(vs[..i]) == Ok(a)
    ensures IfacesFold(vs[..i + 1]) == IfaceStep(a, vs[i])
  {
    assert vs[..i + 1][..i] == vs[..i];
  }

  /** The unit loop of one interface, with its carried temporaries. */
  method UnitLoop(us: seq<Node>) returns (r: Result<seq<Unit>>)
    ensures Units(us).Ok? ==> r == Ok(Units(us).value.out)
    ensures Units(us).Err? ==> r == Err(Units(us).error)
  {
    ghost var vs := UnitViews(us);
    var out: seq<Unit> := [];
    var desctemp := "";
    var vlanidtemp := "";
    var i := 0;
    assert vs[..0] == [];
    while i < |us|
      invariant 0 <= i <= |us|
      invariant UnitsFold(vs[..i]) == Ok(UnitAcc(out, desctemp, vlanidtemp))
    {
      ghost var before := UnitAcc(out, desctemp, vlanidtemp);
      UnitsFoldSnoc(vs, i, before);
      var unit := us[i];
      var unittemp := FirstChild(unit, "name");
      assert vs[i].name == unittemp;
      if unittemp.None? {
        UnitsErrSticky(vs, i + 1);
        return Err(AttributeError);
      }
      var d := FirstChild(unit, "description");
      if d.Some? {
        desctemp := d.value;
      }
      var v := FirstChild(unit, "vlan-id");
      if v.Some? {
        vlanidtemp := v.value;
      }
      var nametemp := AddressLoop(Nodes(ByTag(unit, "address")));
      assert vs[i] == UnitView(unittemp, d, v, nametemp);
      if nametemp.Err? {
        UnitsErrSticky(vs, i + 1);
        return Err(nametemp.error);
      }
      out := out + [Unit(unittemp.value, desctemp, vlanidtemp, nametemp.value)];
      assert UnitStep(before, vs[i]) == Ok(UnitAcc(out, desctemp, vlanidtemp));
      var next := i + 1;
      assert UnitsFold(vs[..next]) == Ok(UnitAcc(out, desctemp, vlanidtemp));
      i := next;
    }
    assert vs[..i] == vs;
    r := Ok(out);
  }

  /** parse(xmldoc) as written: the hostname, then the interface loop with
      its filter and the field reads of each kept interface. */
  method ParseLegacy(doc: Node) returns (r: Result<LegacyRouter>)
    ensures r == Parse(doc)
  {
    var hostname := Hostname(doc);
    if hostname.Err? {
      return Err(hostname.error);
    }
    var acc := InterfaceLoop(InterfaceElements(doc));
    if acc.Err? {
      return Err(acc.error);
    }
    r := Ok(LegacyRouter(hostname.value, acc.value.out));
  }

  /** The interface loop over the elements, with its carried `temp`. */
  method InterfaceLoop(es: seq<Node>) returns (r: Result<IfaceAcc>)
    ensures r == IfacesFold(IfaceViews(es))
  {
    ghost var vs := IfaceViews(es);
    var acc := IfaceAcc([], None);
    var i := 0;
    while i < |es|
      invariant 0 <= i <= |es|
      invariant IfacesFold(vs[..i]) == Ok(acc)
    {
      IfacesFoldSnoc(vs, i, acc);
      assert vs[i] == IfaceViewOf(es[i]);
      var next := VisitInterface(es[i], acc);
      if next.Err? {
        IfacesErrSticky(vs, i + 1);
        return next;
      }
      acc := next.value;
      i := i + 1;
    }
    assert vs[..i] == vs;
    r := Ok(acc);
  }

  /** One pass of the interface loop: `temp` takes the element's name when
      it has one; a kept name builds the interface from the element. */
  method VisitInterface(elements: Node, a: IfaceAcc) returns (r: Result<IfaceAcc>)
    ensures r == IfaceStep(a, IfaceViewOf(elements))
  {
    var temp := a.temp;
    var t := FirstChild(elements, "name");
    if t.Some? {
      temp := t;
    }
    if temp.None? {
      return Err(NameError("temp"));
    }
    if !Keep(temp.value) {
      return Ok(IfaceAcc(a.out, temp));
    }
    var units := UnitLoop(Nodes(ByTag(elements, "unit")));
    if units.Err? {
      return Err(units.error);
    }
    var src := FirstChild(elements, "source");
    var dst := FirstChild(elements, "destination");
    var tempInterface := LegacyInterface(
      OrElse(FirstChild(elements, "name"), ""),
      OrElse(FirstChild(elements, "bundle"), ""),
      OrElse(FirstChild(elements, "description"), NoDescription),
      ByTag(elements, "vlan-tagging") != [],
      if src.Some? && dst.Some? then [Tunnel(src.value, dst.value)] else [],
      units.value);
    r := Ok(IfaceAcc(a.out + [tempInterface], temp));
  }

  // ---------------------------------------------------------------------
  // to_json

  function TunnelToJson(t: Tunnel): Value {
    Obj([("source", Str(t.source)), ("destination", Str(t.destination))])
  }

  function UnitToJson(u: Unit): Value {
    Obj([("unit", Str(u.unit)), ("name", Str(u.name)), ("vlanid", Str(u.vlanid)),
         ("address", StrList(u.address))])
  }

  /** Interface.to_json. */
  function InterfaceToJson(i: LegacyInterface): Value {
    Obj([("name", Str(i.name)), ("bundle", Str(i.bundle)), ("desc", Str(i.desc)),
         ("vlantagging", Bool(i.vlantagging)),
         ("tunnels", Arr(TunnelsJson(i.tunnels))), ("units", Arr(UnitsJson(i.units)))])
  }

  function TunnelsJson(ts: seq<Tunnel>): (r: seq<Value>)
    ensures |r| == |ts|
  {
    if ts == [] then [] else [TunnelToJson(ts[0])] + TunnelsJson(ts[1..])
  }

  function UnitsJson(us: seq<Unit>): (r: seq<Value>)
    ensures |r| == |us|
  {
    if us == [] then [] else [UnitToJson(us[0])] + UnitsJson(us[1..])
  }

  /** Router.to_json. */
  function RouterToJson(r: LegacyRouter): Value {
    Obj([("name", Str(r.name)),
         ("interfaces", Arr(seq(|r.interfaces|, k requires 0 <= k < |r.interfaces| =>
                                  InterfaceToJson(r.interfaces[k]))))])
  }

  function StrOf(v: Value): Option<string> {
    if v.Str? then Some(v.s) else None
  }

  function StrsOf(vs: seq<Value>): Option<seq<string>> {
    if vs == [] then Some([])
    else
      match (StrOf(vs[0]), StrsOf(vs[1..]))
      case (Some(x), Some(xs)) => Some([x] + xs)
      case _ => None
  }

  function TunnelFromJson(v: Value): Option<Tunnel> {
    if v.Obj? && Keys(v.fields) == ["source", "destination"] && v.fields[0].1.Str? && v.fields[1].1.Str?
    then Some(Tunnel(v.fields[0].1.s, v.fields[1].1.s))
    else None
  }

  function UnitFromJson(v: Value): Option<Unit> {
    if v.Obj? && Keys(v.fields) == ["unit", "name", "vlanid", "address"]
       && v.fields[0].1.Str? && v.fields[1].1.Str? && v.fields[2].1.Str? && v.fields[3].1.Arr?
    then
      match StrsOf(v.fields[3].1.items)
      case Some(a) => Some(Unit(v.fields[0].1.s, v.fields[1].1.s, v.fields[2].1.s, a))
      case None => None
    else None
  }

  function DecodeAll<T>(vs: seq<Value>, dec: Value -> Option<T>): Option<seq<T>> {
    if vs == [] then Some([])
    else
      match (dec(vs[0]), DecodeAll(vs[1..], dec))
      case (Some(x), Some(xs)) => Some([x] + xs)
      case _ => None
  }

  function InterfaceFromJson(v: Value): Option<LegacyInterface> {
    if v.Obj? && Keys(v.fields) == ["name", "bundle", "desc", "vlantagging", "tunnels", "units"]
       && v.fields[0].1.Str? && v.fields[1].1.Str? && v.fields[2].1.Str?
       && v.fields[3].1.Bool? && v.fields[4].1.Arr? && v.fields[5].1.Arr?
    then
      match (DecodeAll(v.fields[4].1.items, TunnelFromJson), DecodeAll(v.fields[5].1.items, UnitFromJson))
      case (Some(ts), Some(us)) =>
        Some(LegacyInterface(v.fields[0].1.s, v.fields[1].1.s, v.fields[2].1.s, v.fields[3].1.b, ts, us))
      case _ => None
    else None
  }

  lemma {:induction false} StrsRoundTrip(xs: seq<string>)
    ensures StrsOf(StrList(xs).items) == Some(xs)
    decreases |xs|
  {
    if xs != [] {
      assert StrList(xs).items[1..] == StrList(xs[1..]).items;
      StrsRoundTrip(xs[1..]);
      assert [xs[0]] + xs[1..] == xs;
    }
  }

  lemma {:induction false} TunnelsRoundTrip(ts: seq<Tunnel>)
    ensures DecodeAll(TunnelsJson(ts), TunnelFromJson) == Some(ts)
    decreases |ts|
  {
    if ts != [] {
      TunnelsRoundTrip(ts[1..]);
      assert [ts[0]] + ts[1..] == ts;
    }
  }

  lemma UnitRoundTrip(u: Unit)
    ensures UnitFromJson(UnitToJson(u)) == Some(u)
  {
    var f := UnitToJson(u).fields;
    assert Keys(f) == ["unit", "name", "vlanid", "address"] by {
      assert |Keys(f)| == 4;
      assert Keys(f)[0] == "unit" && Keys(f)[1] == "name" && Keys(f)[2] == "vlanid" && Keys(f)[3] == "address";
    }
    StrsRoundTrip(u.address);
  }

  lemma {:induction false} UnitsRoundTrip(us: seq<Unit>)
    ensures DecodeAll(UnitsJson(us), UnitFromJson) == Some(us)
    decreases |us|
  {
    if us != [] {
      UnitRoundTrip(us[0]);
      UnitsRoundTrip(us[1..]);
      assert [us[0]] + us[1..] == us;
    }
  }

  /** Interface.to_json has exactly the keys name, bundle, desc,
      vlantagging, tunnels and units, and loses nothing. */
  lemma InterfaceJsonRoundTrip(i: LegacyInterface)
    ensures Keys(InterfaceToJson(i).fields) == ["name", "bundle", "desc", "vlantagging", "tunnels", "units"]
    ensures InterfaceFromJson(InterfaceToJson(i)) == Some(i)
  {
    var f := InterfaceToJson(i).fields;
    assert Keys(f) == ["name", "bundle", "desc", "vlantagging", "tunnels", "units"] by {
      assert |Keys(f)| == 6;
      assert Keys(f)[0] == "name" && Keys(f)[1] == "bundle" && Keys(f)[2] == "desc";
      assert Keys(f)[3] == "vlantagging" && Keys(f)[4] == "tunnels" && Keys(f)[5] == "units";
    }
    TunnelsRoundTrip(i.tunnels);
    UnitsRoundTrip(i.units);
  }
}
