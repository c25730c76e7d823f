/** ChassisParser: builds a Chassis from a <chassis> element of the
    hardware inventory, with one ChassisModule per <chassis-module>
    descendant and, inside each module, sub-modules read recursively from
    the direct children whose node name contains "-module". */
module ChassisParser {
  import opened Py
  import opened Json
  import opened Xml
  import opened ElementParser
  import opened JuniperModels
  import Strs

  /** A direct child is a sub-module when its node name contains "-module". */
  predicate IsModuleNode(c: Node) {
    Strs.Contains(NodeName(c), "-module")
  }

  /** _create_module: the seven text fields are the text of the first
      descendant with the matching tag (None when there is none); the
      sub-modules are built by the same rule from the module children.
      The fields read only the wrapped node, never its parent tag, so the
      module is a function of the node alone. */
  function CreateModule(n: Node): ChassisModule
    decreases n, 1
  {
    var a := Wrap(n, None);
    ChassisModule(
      OptStr(FirstText(a, "name")), OptStr(FirstText(a, "version")),
      OptStr(FirstText(a, "part-number")), OptStr(FirstText(a, "serial-number")),
      OptStr(FirstText(a, "description")), OptStr(FirstText(a, "model-number")),
      OptStr(FirstText(a, "clei-code")),
      match n
      case Element(_, cs) => SubModules(cs)
      case Text(_) => [])
  }

  /** The comprehension over childNodes: one module per module child, in
      child order. */
  function SubModules(cs: seq<Node>): seq<ChassisModule>
    decreases cs, 0
  {
    if cs == [] then []
    else if IsModuleNode(cs[0]) then [CreateModule(cs[0])] + SubModules(cs[1..])
    else SubModules(cs[1..])
  }

  /** Reference definition: the module children, in order. */
  function ModuleChildren(cs: seq<Node>): (r: seq<Node>)
    ensures forall c :: c in r <==> c in cs && IsModuleNode(c)
  {
    if cs == [] then []
    else (if IsModuleNode(cs[0]) then [cs[0]] else []) + ModuleChildren(cs[1..])
  }

  function MapModules(ns: seq<Node>): (r: seq<ChassisModule>)
    ensures |r| == |ns|
  {
    if ns == [] then [] else [CreateModule(ns[0])] + MapModules(ns[1..])
  }

  /** sub_modules holds exactly one module per module child, in child order. */
  lemma {:induction false} SubModulesSpec(cs: seq<Node>)
    ensures SubModules(cs) == MapModules(ModuleChildren(cs))
    decreases |cs|
  {
    if cs != [] {
      SubModulesSpec(cs[1..]);
      if IsModuleNode(cs[0]) {
        assert ModuleChildren(cs) == [cs[0]] + ModuleChildren(cs[1..]);
        assert ([cs[0]] + ModuleChildren(cs[1..]))[1..] == ModuleChildren(cs[1..]);
      } else {
        assert ModuleChildren(cs) == ModuleChildren(cs[1..]);
      }
    }
  }

  /** A module without module children has no sub-modules. */
  lemma {:induction false} NoSubModules(cs: seq<Node>)
    requires forall i :: 0 <= i < |cs| ==> !IsModuleNode(cs[i])
    ensures SubModules(cs) == []
    decreases |cs|
  {
    if cs != [] {
      assert forall i :: 0 <= i < |cs| - 1 ==> cs[1..][i] == cs[i + 1];
      NoSubModules(cs[1..]);
    }
  }

  /** A field whose tag occurs nowhere below the module is None. */
  lemma ModuleFieldMissing(n: Node, tag: string)
    requires n.Element?
    requires forall d :: d in Desc(n.children) ==> !Selects(tag, d)
    ensures FirstText(Wrap(n, None), tag) == None
  {
    var a := Wrap(n, None);
    SearchSound(n.tag, n.children, tag);
    if |ByTag(n, tag)| > 0 {
      assert ByTag(n, tag)[0] in Search(n.tag, n.children, tag);
    }
    EmptyAbsorbs(tag, tag);
  }

  /** The module built from each accessor all() returned. */
  function ModulesOfAll(ms: seq<Accessor>): (r: seq<ChassisModule>)
    ensures |r| == |ms|
  {
    if ms == [] then []
    else ModulesOfAll(ms[..|ms| - 1]) + [CreateModule(NodeOf(ms[|ms| - 1]))]
  }

  /** The node an accessor wraps; all() never yields EmptyTree. */
  function NodeOf(a: Accessor): Node {
    if a.Wrap? then a.node else Text("")
  }

  lemma {:induction false} ModulesOfAllAt(ms: seq<Accessor>, k: nat)
    requires k < |ms|
    ensures ModulesOfAll(ms)[k] == CreateModule(NodeOf(ms[k]))
    decreases |ms|
  {
    var init := ms[..|ms| - 1];
    assert ModulesOfAll(ms) == ModulesOfAll(init) + [CreateModule(NodeOf(ms[|ms| - 1]))];
    if k < |ms| - 1 {
      ModulesOfAllAt(init, k);
      assert init[k] == ms[k];
    }
  }

  /** _create_chassis. */
  function CreateChassis(a: Accessor): Chassis {
    Chassis(OptStr(FirstText(a, "name")), OptStr(FirstText(a, "serial-number")),
            OptStr(FirstText(a, "description")), ModulesOfAll(All(a, "chassis-module")))
  }

  /** ChassisParser.parse: the chassis built from the first <chassis>. */
  function Parse(root: Node): Chassis {
    CreateChassis(First(Wrap(root, None), "chassis"))
  }

  /** ChassisParser.parseAll: one chassis per <chassis>, in document order. */
  function ParseAll(root: Node): (r: seq<Chassis>)
    ensures |r| == |All(Wrap(root, None), "chassis")|
  {
    ChassisList(All(Wrap(root, None), "chassis"))
  }

  function ChassisList(cs: seq<Accessor>): (r: seq<Chassis>)
    ensures |r| == |cs|
  {
    if cs == [] then [] else ChassisList(cs[..|cs| - 1]) + [CreateChassis(cs[|cs| - 1])]
  }

  lemma {:induction false} ChassisListAt(cs: seq<Accessor>, k: nat)
    requires k < |cs|
    ensures ChassisList(cs)[k] == CreateChassis(cs[k])
    decreases |cs|
  {
    var init := cs[..|cs| - 1];
    assert ChassisList(cs) == ChassisList(init) + [CreateChassis(cs[|cs| - 1])];
    if k < |cs| - 1 {
      ChassisListAt(init, k);
      assert init[k] == cs[k];
    }
  }

  /** parseAll lists the chassis of every <chassis> element in order, and
      parse gives the first of them when there is one. */
  lemma ParseAllSpec(root: Node, k: nat)
    requires k < |All(Wrap(root, None), "chassis")|
    ensures ParseAll(root)[k] == CreateChassis(All(Wrap(root, None), "chassis")[k])
    ensures Parse(root) == ParseAll(root)[0]
  {
    ChassisListAt(All(Wrap(root, None), "chassis"), k);
    ChassisListAt(All(Wrap(root, None), "chassis"), 0);
  }

  /** Without a <chassis> element the result has None name, serial number
      and description, and no modules. */
  lemma ParseMissing(root: Node)
    requires All(Wrap(root, None), "chassis") == []
    ensures Parse(root) == Chassis(Null, Null, Null, [])
  {
    EmptyAbsorbs("chassis", "name");
    EmptyAbsorbs("chassis", "serial-number");
    EmptyAbsorbs("chassis", "description");
  }

  /** modules holds one module per <chassis-module> below the chassis, in
      document order, each built from that element. */
  lemma ModulesSpec(a: Accessor, k: nat)
    requires a.Wrap? && k < |All(a, "chassis-module")|
    ensures |CreateChassis(a).modules| == |ByTag(a.node, "chassis-module")|
    ensures CreateChassis(a).modules[k] == CreateModule(ByTag(a.node, "chassis-module")[k].node)
  {
    ModulesOfAllAt(All(a, "chassis-module"), k);
    AllAt(a, "chassis-module", k);
  }

  /** A module whose first child is <name>t</name> is named t, and its
      sub-modules come from the children after it. */
  lemma NamedModule(t: string, tag: string, rest: seq<Node>)
    requires t != ""
    ensures var m := CreateModule(Element(tag, [Element("name", [Text(t)])] + rest));
      m.name == Str(t) && m.subModules == SubModules(rest)
  {
    var first := Element("name", [Text(t)]);
    var n := Element(tag, [first] + rest);
    var a := Wrap(n, None);
    assert Search(tag, [first] + rest, "name")[0] == Hit(tag, first);
    AllAt(a, "name", 0);
    assert ChildText([Text(t)]) == t;
    assert !IsModuleNode(first) by {
      Strs.ContainsAt("name", "-module");
    }
    assert ([first] + rest)[1..] == rest;
  }
}
