/** The records the Junos configuration parser fills in (Router, Interface,
    BgpPeering, Chassis, ChassisModule) and their to_json serialisers.
    Field values keep Python's dynamic typing as Json values: a field the
    parser never set holds the constructor's default ('' or None), one it
    set from an XML text holds a string or None. */
module JuniperModels {
  import opened Py
  import opened Json

  datatype Interface = Interface(
    name: Value, bundle: Value, description: Value, vlantagging: Value,
    tunnels: seq<Value>, units: seq<Value>, inactive: bool)

  datatype BgpPeering = BgpPeering(
    kind: Value, remoteAddress: Value, description: Value,
    localAddress: Value, group: Value, asNumber: Value)

  datatype ChassisModule = ChassisModule(
    name: Value, version: Value, partNumber: Value, serialNumber: Value,
    description: Value, modelNumber: Value, cleiCode: Value,
    subModules: seq<ChassisModule>)

  datatype Chassis = Chassis(
    name: Value, serialNumber: Value, description: Value,
    modules: seq<ChassisModule>)

  /** `hardware` is '' until a Chassis is attached (None here). */
  datatype Router = Router(
    name: Value, version: Value, model: Value,
    interfaces: seq<Interface>, bgpPeerings: seq<BgpPeering>,
    hardware: Option<Chassis>)

  // ---------------------------------------------------------------------
  // constructors with their defaults

  /** Interface(): every text field '', no tunnels, no units, not inactive. */
  function NewInterface(): (i: Interface)
  {
    Interface(Str(""), Str(""), Str(""), Str(""), [], [], false)
  }

  /** BgpPeering(): all six fields None. */
  function NewBgpPeering(): (p: BgpPeering)
  {
    BgpPeering(Null, Null, Null, Null, Null, Null)
  }

  /** ChassisModule(): seven '' fields and no sub-modules. */
  function NewChassisModule(): (m: ChassisModule)
  {
    ChassisModule(Str(""), Str(""), Str(""), Str(""), Str(""), Str(""), Str(""), [])
  }

  function NewChassis(): (c: Chassis)
  {
    Chassis(Str(""), Str(""), Str(""), [])
  }

  function NewRouter(): (r: Router)
  {
    Router(Str(""), Str(""), Str(""), [], [], None)
  }

  // ---------------------------------------------------------------------
  // to_json and the decoders that undo it

  const InterfaceKeys: seq<string> :=
    ["name", "bundle", "description", "vlantagging", "tunnels", "units", "inactive"]

  function InterfaceToJson(i: Interface): Value {
    Obj([("name", i.name), ("bundle", i.bundle), ("description", i.description),
         ("vlantagging", i.vlantagging), ("tunnels", Arr(i.tunnels)),
         ("units", Arr(i.units)), ("inactive", Bool(i.inactive))])
  }

  function InterfaceFromJson(v: Value): Option<Interface> {
    if v.Obj? && |v.fields| == 7 && Keys(v.fields) == InterfaceKeys
       && v.fields[4].1.Arr? && v.fields[5].1.Arr? && v.fields[6].1.Bool?
    then
      var f := v.fields;
      Some(Interface(f[0].1, f[1].1, f[2].1, f[3].1, f[4].1.items, f[5].1.items, f[6].1.b))
    else None
  }

  /** Interface.to_json yields exactly the seven keys, in order, and loses
      nothing: the interface can be read back from it. */
  lemma InterfaceJsonRoundTrip(i: Interface)
    ensures Keys(InterfaceToJson(i).fields) == InterfaceKeys
    ensures InterfaceFromJson(InterfaceToJson(i)) == Some(i)
  {
  }

  const BgpKeys: seq<string> :=
    ["type", "remote_address", "description", "local_address", "group", "as_number"]

  /** BgpPeering.to_json: a copy of the six attributes. */
  function BgpToJson(p: BgpPeering): Value {
    Obj([("type", p.kind), ("remote_address", p.remoteAddress),
         ("description", p.description), ("local_address", p.localAddress),
         ("group", p.group), ("as_number", p.asNumber)])
  }

  function BgpFromJson(v: Value): Option<BgpPeering> {
    if v.Obj? && |v.fields| == 6 && Keys(v.fields) == BgpKeys then
      var f := v.fields;
      Some(BgpPeering(f[0].1, f[1].1, f[2].1, f[3].1, f[4].1, f[5].1))
    else None
  }

  lemma BgpJsonRoundTrip(p: BgpPeering)
    ensures Keys(BgpToJson(p).fields) == BgpKeys
    ensures BgpFromJson(BgpToJson(p)) == Some(p)
  {
  }

  const ModuleKeys: seq<string> :=
    ["name", "version", "part_number", "serial_number", "description",
     "model_number", "clei_code", "sub_modules"]

  /** ChassisModule.to_json: the attributes, with sub_modules serialised
      recursively and in order. */
  function ModuleToJson(m: ChassisModule): Value
    decreases m, 1
  {
    Obj([("name", m.name), ("version", m.version), ("part_number", m.partNumber),
         ("serial_number", m.serialNumber), ("description", m.description),
         ("model_number", m.modelNumber), ("clei_code", m.cleiCode),
         ("sub_modules", Arr(ModulesToJson(m.subModules)))])
  }

  function ModulesToJson(ms: seq<ChassisModule>): (r: seq<Value>)
    ensures |r| == |ms|
    decreases ms, 0
  {
    if ms == [] then [] else [ModuleToJson(ms[0])] + ModulesToJson(ms[1..])
  }

  function ModuleFromJson(v: Value): Option<ChassisModule>
    decreases v, 1
  {
    if v.Obj? && |v.fields| == 8 && Keys(v.fields) == ModuleKeys && v.fields[7].1.Arr? then
      var f := v.fields;
      match ModulesFromJson(f[7].1.items)
      case None => None
      case Some(subs) =>
        Some(ChassisModule(f[0].1, f[1].1, f[2].1, f[3].1, f[4].1, f[5].1, f[6].1, subs))
    else None
  }

  function ModulesFromJson(vs: seq<Value>): Option<seq<ChassisModule>>
    decreases vs, 0
  {
    if vs == [] then Some([])
    else
      match ModuleFromJson(vs[0])
      case None => None
      case Some(m) =>
        match ModulesFromJson(vs[1..])
        case None => None
        case Some(ms) => Some([m] + ms)
  }

  /** Serialising a module tree loses nothing, at any depth. */
  lemma {:induction false} ModuleJsonRoundTrip(m: ChassisModule)
    ensures ModuleFromJson(ModuleToJson(m)) == Some(m)
    decreases m, 1
  {
    ModulesJsonRoundTrip(m.subModules);
  }

  lemma {:induction false} ModulesJsonRoundTrip(ms: seq<ChassisModule>)
    ensures ModulesFromJson(ModulesToJson(ms)) == Some(ms)
    decreases ms, 0
  {
    if ms != [] {
      ModuleJsonRoundTrip(ms[0]);
      ModulesJsonRoundTrip(ms[1..]);
      assert ModulesToJson(ms)[1..] == ModulesToJson(ms[1..]);
      assert [ms[0]] + ms[1..] == ms;
    }
  }

  /** Chassis.to_json as it is evidently meant to work: a fresh dict with the
      modules serialised, the chassis itself untouched. */
  function ChassisToJson(c: Chassis): Value {
    Obj([("name", c.name), ("serial_number", c.serialNumber),
         ("description", c.description), ("modules", Arr(ModulesToJson(c.modules)))])
  }

  function ChassisFromJson(v: Value): Option<Chassis> {
    if v.Obj? && |v.fields| == 4 && Keys(v.fields) == ["name", "serial_number", "description", "modules"]
       && v.fields[3].1.Arr?
    then
      var f := v.fields;
      match ModulesFromJson(f[3].1.items)
      case None => None
      case Some(ms) => Some(Chassis(f[0].1, f[1].1, f[2].1, ms))
    else None
  }

  lemma ChassisJsonRoundTrip(c: Chassis)
    ensures ChassisFromJson(ChassisToJson(c)) == Some(c)
  {
    ModulesJsonRoundTrip(c.modules);
  }

  function InterfacesToJson(xs: seq<Interface>): (r: seq<Value>)
    ensures |r| == |xs|
    ensures forall k :: 0 <= k < |xs| ==> r[k] == InterfaceToJson(xs[k])
  {
    seq(|xs|, k requires 0 <= k < |xs| => InterfaceToJson(xs[k]))
  }

  function BgpsToJson(ps: seq<BgpPeering>): (r: seq<Value>)
    ensures |r| == |ps|
    ensures forall k :: 0 <= k < |ps| ==> r[k] == BgpToJson(ps[k])
  {
    seq(|ps|, k requires 0 <= k < |ps| => BgpToJson(ps[k]))
  }

  /** Router.to_json: a copy of the attributes in their definition order,
      with interfaces and peerings serialised in list order and hardware
      serialised only when one is attached. */
  function RouterToJson(r: Router): Value {
    Obj([("name", r.name), ("version", r.version), ("model", r.model),
         ("interfaces", Arr(InterfacesToJson(r.interfaces))),
         ("bgp_peerings", Arr(BgpsToJson(r.bgpPeerings))),
         ("hardware", if r.hardware.Some? then ChassisToJson(r.hardware.value) else Str(""))])
  }

  function RouterFromJson(v: Value): Option<Router> {
    if v.Obj? && |v.fields| == 6
       && Keys(v.fields) == ["name", "version", "model", "interfaces", "bgp_peerings", "hardware"]
       && v.fields[3].1.Arr? && v.fields[4].1.Arr?
    then
      var f := v.fields;
      var ifs := DecodeAll(f[3].1.items, InterfaceFromJson);
      var ps := DecodeAll(f[4].1.items, BgpFromJson);
      var hw := if f[5].1 == Str("") then Some(None)
                else match ChassisFromJson(f[5].1)
                     case None => None
                     case Some(c) => Some(Some(c));
      if ifs.Some? && ps.Some? && hw.Some? then
        Some(Router(f[0].1, f[1].1, f[2].1, ifs.value, ps.value, hw.value))
      else None
    else None
  }

  function DecodeAll<T>(vs: seq<Value>, dec: Value -> Option<T>): Option<seq<T>> {
    if vs == [] then Some([])
    else
      match dec(vs[0])
      case None => None
      case Some(x) =>
        match DecodeAll(vs[1..], dec)
        case None => None
        case Some(xs) => Some([x] + xs)
  }

  lemma {:induction false} DecodeInterfaces(xs: seq<Interface>)
    ensures DecodeAll(InterfacesToJson(xs), InterfaceFromJson) == Some(xs)
    decreases |xs|
  {
    if xs != [] {
      InterfaceJsonRoundTrip(xs[0]);
      assert InterfacesToJson(xs)[1..] == InterfacesToJson(xs[1..]);
      DecodeInterfaces(xs[1..]);
      assert [xs[0]] + xs[1..] == xs;
    }
  }

  lemma {:induction false} DecodeBgps(ps: seq<BgpPeering>)
    ensures DecodeAll(BgpsToJson(ps), BgpFromJson) == Some(ps)
    decreases |ps|
  {
    if ps != [] {
      BgpJsonRoundTrip(ps[0]);
      assert BgpsToJson(ps)[1..] == BgpsToJson(ps[1..]);
      DecodeBgps(ps[1..]);
      assert [ps[0]] + ps[1..] == ps;
    }
  }

  /** Router.to_json loses nothing: interfaces, peerings (in order) and the
      hardware, when attached, are all recovered from it. */
  lemma RouterJsonRoundTrip(r: Router)
    ensures RouterFromJson(RouterToJson(r)) == Some(r)
  {
    var f := RouterToJson(r).fields;
    assert Keys(f) == ["name", "version", "model", "interfaces", "bgp_peerings", "hardware"];
    assert DecodeAll(f[3].1.items, InterfaceFromJson) == Some(r.interfaces) by {
      DecodeInterfaces(r.interfaces);
    }
    assert DecodeAll(f[4].1.items, BgpFromJson) == Some(r.bgpPeerings) by {
      DecodeBgps(r.bgpPeerings);
    }
    if r.hardware.Some? {
      var c := r.hardware.value;
      assert f[5].1 == ChassisToJson(c) && f[5].1 != Str("");
      ChassisJsonRoundTrip(c);
    }
  }

  // ---------------------------------------------------------------------
  // Chassis as an object: to_json writes through vars(self)

  /** What a Chassis object's `modules` attribute holds: the module objects
      it was given, or the dicts an earlier to_json stored there. */
  datatype ModuleSlot = Module(m: ChassisModule) | Serialised(v: Value)

  function Slots(ms: seq<ChassisModule>): (r: seq<ModuleSlot>)
    ensures |r| == |ms| && forall k :: 0 <= k < |ms| ==> r[k] == Module(ms[k])
  {
    seq(|ms|, k requires 0 <= k < |ms| => Module(ms[k]))
  }

  class ChassisObject {
    var name: Value
    var serialNumber: Value
    var description: Value
    var modules: seq<ModuleSlot>

    constructor (c: Chassis)
      ensures name == c.name && serialNumber == c.serialNumber
      ensures description == c.description && modules == Slots(c.modules)
    {
      name := c.name;
      serialNumber := c.serialNumber;
      description := c.description;
      modules := Slots(c.modules);
    }

    /** The dict view of the object, vars(self). */
    function Vars(): (r: Value)
      reads this
    {
      Obj([("name", name), ("serial_number", serialNumber), ("description", description),
           ("modules", Arr(SlotValues(modules)))])
    }

    /** The chassis the object still describes, if its modules are objects. */
    function AsChassis(): Option<Chassis>
      reads this
    {
      var ms := ModulesOf(modules);
      if ms.Some? then Some(Chassis(name, serialNumber, description, ms.value)) else None
    }

    /** Chassis.to_json as written: the returned dict is the object itself,
        and its modules attribute is overwritten by the serialised list.  A
        second call finds dicts where module objects were and raises. */
    method ToJsonAsWritten() returns (r: Result<ChassisObject>)
      modifies this
      ensures old(AsChassis()).Some? ==>
        r == Ok(this) && Vars() == ChassisToJson(old(AsChassis()).value)
        && name == old(name) && serialNumber == old(serialNumber)
        && description == old(description)
        && |modules| == |old(modules)| && forall k :: 0 <= k < |modules| ==> modules[k].Serialised?
      ensures old(AsChassis()).None? ==> r == Err(AttributeError) && unchanged(this)
    {
      var c := AsChassis();
      if c.Some? {
        var c := c.value;
        var out := seq(|c.modules|, k requires 0 <= k < |c.modules| => Serialised(ModulesToJson(c.modules)[k]));
        modules := out;
        assert SlotValues(modules) == ModulesToJson(c.modules);
        r := Ok(this);
      } else {
        r := Err(AttributeError);
      }
    }

    /** Chassis.to_json as evidently intended: a fresh dict, the object left
        as it was. */
    method ToJson() returns (r: Result<Value>)
      ensures AsChassis().Some? ==> r == Ok(ChassisToJson(AsChassis().value))
      ensures AsChassis().None? ==> r == Err(AttributeError)
    {
      var c := AsChassis();
      if c.Some? {
        r := Ok(ChassisToJson(c.value));
      } else {
        r := Err(AttributeError);
      }
    }
  }

  /** The module objects held in the slots, unless some slot holds a dict. */
  function ModulesOf(ss: seq<ModuleSlot>): (r: Option<seq<ChassisModule>>)
    ensures r.Some? <==> forall k :: 0 <= k < |ss| ==> ss[k].Module?
    ensures r.Some? ==> |r.value| == |ss| && forall k :: 0 <= k < |ss| ==> ss[k] == Module(r.value[k])
  {
    if forall k :: 0 <= k < |ss| ==> ss[k].Module? then
      Some(seq(|ss|, k requires 0 <= k < |ss| && ss[k].Module? => ss[k].m))
    else None
  }

  lemma SlotsModules(ms: seq<ChassisModule>)
    ensures ModulesOf(Slots(ms)) == Some(ms)
  {
    var r := ModulesOf(Slots(ms));
    assert r.value == ms;
  }

  function SlotValues(ss: seq<ModuleSlot>): (r: seq<Value>)
    ensures |r| == |ss|
  {
    seq(|ss|, k requires 0 <= k < |ss| =>
      match ss[k] case Module(m) => ModuleToJson(m) case Serialised(v) => v)
  }

  /** The chassis of the unit test for to_json safety. */
  function SampleChassis(): Chassis {
    var m := NewChassisModule().(name := Str("module"), partNumber := Str("part1"));
    Chassis(Str("Test"), Str("1234"), Str("Awesome chassis"), [m])
  }

  /** As written, renaming the returned dict renames the chassis object, and
      calling to_json a second time raises. */
  method RenameAfterToJsonAsWritten() returns (chassisName: Value, second: Result<ChassisObject>)
    ensures chassisName == Str("New name")
    ensures second == Err(AttributeError)
  {
    var c := new ChassisObject(SampleChassis());
    SlotsModules(SampleChassis().modules);
    assert c.AsChassis() == Some(SampleChassis());
    var r := c.ToJsonAsWritten();
    var out := r.value;
    out.name := Str("New name");
    chassisName := c.name;
    second := c.ToJsonAsWritten();
  }

  /** With the corrected to_json the object keeps its name whatever is done
      to the returned dict, and to_json can be called again with the same
      result. */
  method RenameAfterToJson() returns (chassisName: Value, first: Value, second: Result<Value>)
    ensures chassisName == Str("Test")
    ensures first.Obj? && Get(first.fields, "name") == Some(Str("New name"))
    ensures second == Ok(ChassisToJson(SampleChassis()))
  {
    var c := new ChassisObject(SampleChassis());
    SlotsModules(SampleChassis().modules);
    assert c.AsChassis() == Some(SampleChassis());
    var r := c.ToJson();
    first := Obj(Put(r.value.fields, "name", Str("New name")));
    chassisName := c.name;
    second := c.ToJson();
  }
}
