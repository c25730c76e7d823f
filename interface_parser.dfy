/** InterfaceParser: the interfaces configured under the top-level
    <interfaces> element, reconciled with an optional whitelist of
    physical interface names.  The whitelist is the caller's own list: a
    kept interface's name is removed from it in place, and the names left
    over are reported as bare interfaces after the configured ones. */
module InterfaceParser {
  import opened Py
  import opened Json
  import opened Xml
  import opened ElementParser
  import opened JuniperModels

  /** A Python list of names that the parser edits in place. */
  class NameList {
    var items: seq<string>

    constructor (xs: seq<string>)
      ensures items == xs
    {
      items := xs;
    }

    /** list.remove(x) for an x the list holds: drops its first occurrence. */
    method Remove(x: string)
      requires x in items
      modifies this
      ensures items == RemoveFirst(old(items), x)
    {
      var i := 0;
      while items[i] != x
        invariant 0 <= i < |items| && x in items[i..]
        invariant forall j :: 0 <= j < i ==> items[j] != x
        decreases |items| - i
      {
        i := i + 1;
      }
      RemoveFirstAt(items, x, i);
      items := items[..i] + items[i + 1..];
    }
  }

  /** The list without the first occurrence of x. */
  function RemoveFirst(xs: seq<string>, x: string): seq<string> {
    if xs == [] then []
    else if xs[0] == x then xs[1..]
    else [xs[0]] + RemoveFirst(xs[1..], x)
  }

  /** Removing x takes away one occurrence of it and keeps every other
      element; a list without x is left as it is. */
  lemma {:induction false} RemoveFirstSpec(xs: seq<string>, x: string)
    ensures x in xs ==> multiset(RemoveFirst(xs, x)) == multiset(xs) - multiset{x}
    ensures x !in xs ==> RemoveFirst(xs, x) == xs
    decreases |xs|
  {
    if xs != [] {
      assert xs == [xs[0]] + xs[1..];
      if xs[0] != x {
        RemoveFirstSpec(xs[1..], x);
      }
    }
  }

  lemma {:induction false} RemoveFirstAt(xs: seq<string>, x: string, i: nat)
    requires i < |xs| && xs[i] == x && forall j :: 0 <= j < i ==> xs[j] != x
    ensures RemoveFirst(xs, x) == xs[..i] + xs[i + 1..]
    decreases i
  {
    if i == 0 {
      assert xs[..0] + xs[1..] == xs[1..];
    } else {
      var t := xs[1..];
      assert RemoveFirst(xs, x) == [xs[0]] + RemoveFirst(t, x);
      RemoveFirstAt(t, x, i - 1);
      assert xs[..i] == [xs[0]] + t[..i - 1];
      assert xs[i + 1..] == t[i..];
      assert [xs[0]] + (t[..i - 1] + t[i..]) == ([xs[0]] + t[..i - 1]) + t[i..];
    }
  }

  // ---------------------------------------------------------------------
  // the pieces the loop reads from one <interface> element

  /** _unit(unit): name, description, vlan-id and the list of address names. */
  function UnitToJson(u: Accessor): Value {
    Obj([("unit", OptStr(FirstText(u, "name"))),
         ("description", OptStr(FirstText(u, "description"))),
         ("vlanid", OptStr(FirstText(u, "vlan-id"))),
         ("address", StrOrNoneList(All(u, "address")))])
  }

  /** [a.first("name").text() for a in addresses]. */
  function StrOrNoneList(addrs: seq<Accessor>): (r: Value)
  {
    Arr(seq(|addrs|, k requires 0 <= k < |addrs| => OptStr(FirstText(addrs[k], "name"))))
  }

  function UnitsToJson(us: seq<Accessor>): (r: seq<Value>)
    ensures |r| == |us|
    ensures forall k :: 0 <= k < |us| ==> r[k] == UnitToJson(us[k])
  {
    seq(|us|, k requires 0 <= k < |us| => UnitToJson(us[k]))
  }

  /** The Interface the loop body builds for a kept <interface> element. */
  function Extract(node: Accessor): Interface {
    NewInterface().(
      name := OptStr(FirstText(node, "name")),
      vlantagging := Bool(|All(node, "vlan-tagging")| > 0),
      bundle := OptStr(FirstText(node, "bundle")),
      description := OptStr(FirstText(node, "description")),
      tunnels := [Obj([("source", OptStr(FirstText(node, "source"))),
                       ("destination", OptStr(FirstText(node, "destination")))])],
      units := UnitsToJson(All(node, "unit")))
  }

  /** A kept interface is named by its <name> text, carries its <bundle>
      and <description> texts (or None), has exactly one tunnel entry
      (source and destination texts, or None) and one unit entry per
      <unit> below it, in document order. */
  lemma ExtractSpec(node: Accessor)
    ensures Extract(node).name == OptStr(FirstText(node, "name"))
    ensures Extract(node).tunnels == [Obj([("source", OptStr(FirstText(node, "source"))),
                                           ("destination", OptStr(FirstText(node, "destination")))])]
    ensures Extract(node).bundle == OptStr(FirstText(node, "bundle"))
    ensures Extract(node).description == OptStr(FirstText(node, "description"))
    ensures Extract(node).units == UnitsToJson(All(node, "unit"))
    ensures |Extract(node).units| == |All(node, "unit")|
    ensures !Extract(node).inactive
  {
  }

  /** A unit entry holds the unit's name, description and vlan-id texts and
      the names of its addresses, in order. */
  lemma UnitSpec(u: Accessor)
    ensures UnitToJson(u).Obj?
    ensures Keys(UnitToJson(u).fields) == ["unit", "description", "vlanid", "address"]
    ensures UnitToJson(u).fields[0].1 == OptStr(FirstText(u, "name"))
    ensures UnitToJson(u).fields[1].1 == OptStr(FirstText(u, "description"))
    ensures UnitToJson(u).fields[2].1 == OptStr(FirstText(u, "vlan-id"))
    ensures UnitToJson(u).fields[3].1.Arr? && |UnitToJson(u).fields[3].1.items| == |All(u, "address")|
    ensures forall j :: 0 <= j < |All(u, "address")| ==>
      UnitToJson(u).fields[3].1.items[j] == OptStr(FirstText(All(u, "address")[j], "name"))
  {
  }

  /** vlantagging is True exactly when some element below the interface is
      a <vlan-tagging>. */
  lemma VlanTaggingSpec(n: Node)
    requires n.Element?
    ensures Extract(Wrap(n, Some("interfaces"))).vlantagging ==
      Bool(exists d :: d in Desc(n.children) && Selects("vlan-tagging", d))
  {
    var a := Wrap(n, Some("interfaces"));
    AllSpec(a, "vlan-tagging");
    SearchSound(n.tag, n.children, "vlan-tagging");
    if |All(a, "vlan-tagging")| > 0 {
      assert ByTag(n, "vlan-tagging")[0] in Search(n.tag, n.children, "vlan-tagging");
    }
  }

  /** The interface list of the whole tree: every <interface> below an
      <interfaces> element whose parent is <configuration>. */
  function InterfaceNodes(root: Node): seq<Accessor> {
    Flatten(All(Wrap(root, None), "interfaces"))
  }

  function Flatten(groups: seq<Accessor>): seq<Accessor> {
    if groups == [] then []
    else
      (if ParentTag(groups[0]) == Some("configuration") then All(groups[0], "interface") else [])
      + Flatten(groups[1..])
  }

  /** An interface element is extracted only from an <interfaces> element
      that sits directly under <configuration>. */
  lemma {:induction false} FlattenSource(groups: seq<Accessor>, x: Accessor)
    requires x in Flatten(groups)
    ensures exists g :: g in groups && ParentTag(g) == Some("configuration") && x in All(g, "interface")
    decreases |groups|
  {
    if groups != [] {
      var g := groups[0];
      if ParentTag(g) == Some("configuration") && x in All(g, "interface") {
      } else {
        assert x in Flatten(groups[1..]);
        FlattenSource(groups[1..], x);
      }
    }
  }

  // ---------------------------------------------------------------------
  // the reconciliation loop as a left fold

  /** What the loop looks at for one <interface> element: its name text and
      the Interface it would emit. */
  datatype Candidate = Candidate(name: Option<string>, iface: Interface)

  function Candidates(nodes: seq<Accessor>): (r: seq<Candidate>)
    ensures |r| == |nodes|
  {
    seq(|nodes|, k requires 0 <= k < |nodes| => Candidate(FirstText(nodes[k], "name"), Extract(nodes[k])))
  }

  datatype Acc = Acc(out: seq<Interface>, whitelist: seq<string>)

  /** One iteration of the loop over interface nodes. */
  function Step(a: Acc, c: Candidate): (r: Acc) {
    if a.whitelist != [] then
      if !(c.name.Some? && c.name.value in a.whitelist) then a
      else Acc(a.out + [c.iface], RemoveFirst(a.whitelist, c.name.value))
    else Acc(a.out + [c.iface], a.whitelist)
  }

  function Fold(cs: seq<Candidate>, whitelist: seq<string>): Acc {
    FoldFrom(Acc([], whitelist), cs)
  }

  function FoldFrom(a: Acc, cs: seq<Candidate>): Acc {
    if cs == [] then a
    else Step(FoldFrom(a, cs[..|cs| - 1]), cs[|cs| - 1])
  }

  lemma FoldSnoc(cs: seq<Candidate>, w: seq<string>, i: nat)
    requires i < |cs|
    ensures Fold(cs[..i + 1], w) == Step(Fold(cs[..i], w), cs[i])
  {
    assert cs[..i + 1][..i] == cs[..i];
  }

  /** InterfaceParser.parse: the configured interfaces kept by the loop,
      then one bare Interface per whitelist name left over. */
  function Parse(root: Node, whitelist: seq<string>): seq<Interface> {
    var a := Fold(Candidates(InterfaceNodes(root)), whitelist);
    a.out + Bare(a.whitelist)
  }

  /** Interface() with only its name set. */
  function Bare(names: seq<string>): (r: seq<Interface>)
    ensures |r| == |names|
  {
    if names == [] then []
    else Bare(names[..|names| - 1]) + [NewInterface().(name := Str(names[|names| - 1]))]
  }

  /** Each leftover name becomes an Interface with only its name set. */
  lemma {:induction false} BareSpec(names: seq<string>)
    ensures forall k :: 0 <= k < |names| ==> Bare(names)[k] == NewInterface().(name := Str(names[k]))
    decreases |names|
  {
    if names != [] {
      BareSpec(names[..|names| - 1]);
    }
  }

  function Ifaces(cs: seq<Candidate>): (r: seq<Interface>)
    ensures |r| == |cs|
    ensures forall k :: 0 <= k < |cs| ==> r[k] == cs[k].iface
  {
    seq(|cs|, k requires 0 <= k < |cs| => cs[k].iface)
  }

  /** Once the whitelist is empty (or was never given) every later
      interface is kept, unfiltered and in order. */
  lemma {:induction false} ExhaustedKeepsAll(out: seq<Interface>, rest: seq<Candidate>)
    ensures FoldFrom(Acc(out, []), rest) == Acc(out + Ifaces(rest), [])
    decreases |rest|
  {
    if rest != [] {
      var init := rest[..|rest| - 1];
      ExhaustedKeepsAll(out, init);
      assert Ifaces(rest) == Ifaces(init) + [rest[|rest| - 1].iface];
    }
  }

  /** Without a whitelist every configured interface is kept, in document
      order, and nothing is appended. */
  lemma ParseNoWhitelist(root: Node)
    ensures Parse(root, []) == Ifaces(Candidates(InterfaceNodes(root)))
  {
    ExhaustedKeepsAll([], Candidates(InterfaceNodes(root)));
  }

  /** Folding over a concatenation folds the second part from where the
      first left off. */
  lemma {:induction false} FoldAppend(a: Acc, xs: seq<Candidate>, ys: seq<Candidate>)
    ensures FoldFrom(a, xs + ys) == FoldFrom(FoldFrom(a, xs), ys)
    decreases |ys|
  {
    if ys == [] {
      assert xs + ys == xs;
    } else {
      var ys0 := ys[..|ys| - 1];
      FoldAppend(a, xs, ys0);
      assert (xs + ys)[..|xs + ys| - 1] == xs + ys0;
    }
  }

  /** The moment the whitelist runs out, the rest of the interfaces pass
      unfiltered. */
  lemma WhitelistExhausted(cs: seq<Candidate>, w: seq<string>, i: nat)
    requires i <= |cs| && Fold(cs[..i], w).whitelist == []
    ensures Fold(cs, w).out == Fold(cs[..i], w).out + Ifaces(cs[i..])
  {
    assert cs == cs[..i] + cs[i..];
    FoldAppend(Acc([], w), cs[..i], cs[i..]);
    ExhaustedKeepsAll(Fold(cs[..i], w).out, cs[i..]);
  }

  /** The names of the configured interfaces that were kept. */
  function NamesOf(out: seq<Interface>): seq<string> {
    if out == [] then []
    else NamesOf(out[..|out| - 1]) + [if out[|out| - 1].name.Str? then out[|out| - 1].name.s else ""]
  }

  /** Every candidate is named by its iface's name field. */
  predicate NamedAsItself(cs: seq<Candidate>) {
    forall k :: 0 <= k < |cs| ==> cs[k].iface.name == OptStr(cs[k].name)
  }

  /** While the whitelist stays non-empty it works as a budget: each kept
      interface carries a whitelisted name and uses up one occurrence of
      it, so kept names and leftover names together are exactly the
      original whitelist. */
  lemma {:induction false} WhitelistConservation(cs: seq<Candidate>, w: seq<string>)
    requires NamedAsItself(cs)
    requires Fold(cs, w).whitelist != []
    ensures multiset(NamesOf(Fold(cs, w).out)) + multiset(Fold(cs, w).whitelist) == multiset(w)
    decreases |cs|
  {
    if cs != [] {
      var init := cs[..|cs| - 1];
      var c := cs[|cs| - 1];
      var p := Fold(init, w);
      assert Fold(cs, w) == Step(p, c);
      assert p.whitelist != [];
      assert NamedAsItself(init) by {
        forall k | 0 <= k < |init| ensures init[k].iface.name == OptStr(init[k].name) {
          assert init[k] == cs[k];
        }
      }
      WhitelistConservation(init, w);
      StepFilter(p, c);
      if c.name.Some? && c.name.value in p.whitelist {
        var out := p.out + [c.iface];
        assert out[..|out| - 1] == p.out;
        assert c.iface.name == Str(c.name.value);
        assert NamesOf(out) == NamesOf(p.out) + [c.name.value];
      }
    }
  }

  lemma CandidatesNamed(nodes: seq<Accessor>)
    ensures NamedAsItself(Candidates(nodes))
  {
  }

  /** With a non-empty whitelist an interface whose name is not on it is
      skipped, and a kept one uses up its name. */
  lemma StepFilter(a: Acc, c: Candidate)
    requires a.whitelist != []
    ensures !(c.name.Some? && c.name.value in a.whitelist) ==> Step(a, c) == a
    ensures c.name.Some? && c.name.value in a.whitelist ==>
      Step(a, c).out == a.out + [c.iface]
      && multiset(Step(a, c).whitelist) == multiset(a.whitelist) - multiset{c.name.value}
  {
    if c.name.Some? {
      RemoveFirstSpec(a.whitelist, c.name.value);
    }
  }

  /** The parser as written: a loop over the interface nodes, then a loop
      over the names left on the whitelist, which it edits in place. */
  method ParseInterfaces(root: Node, physical: NameList) returns (interfaces: seq<Interface>)
    modifies physical
    ensures interfaces == Parse(root, old(physical.items))
    ensures physical.items == Fold(Candidates(InterfaceNodes(root)), old(physical.items)).whitelist
  {
    interfaces := KeepConfigured(root, physical);
    interfaces := AppendBare(interfaces, physical.items);
  }

  /** The first loop of parse: each configured interface is kept, or with
      a non-empty whitelist only when its name is on it, and then its name
      is removed from the whitelist. */
  method KeepConfigured(root: Node, physical: NameList) returns (interfaces: seq<Interface>)
    modifies physical
    ensures Acc(interfaces, physical.items) == Fold(Candidates(InterfaceNodes(root)), old(physical.items))
  {
    var nodes := InterfaceNodes(root);
    ghost var cs := Candidates(nodes);
    ghost var w0 := physical.items;
    interfaces := [];
    var i := 0;
    while i < |nodes|
      invariant 0 <= i <= |nodes|
      invariant Acc(interfaces, physical.items) == Fold(cs[..i], w0)
    {
      assert cs[i] == Candidate(FirstText(nodes[i], "name"), Extract(nodes[i]));
      FoldSnoc(cs, w0, i);
      interfaces := Visit(nodes[i], physical, interfaces);
      i := i + 1;
    }
    assert cs[..|nodes|] == cs;
  }

  /** One pass of the first loop: the interface is skipped, or kept and,
      under a whitelist, its name removed from it. */
  method Visit(node: Accessor, physical: NameList, kept: seq<Interface>) returns (interfaces: seq<Interface>)
    modifies physical
    ensures Acc(interfaces, physical.items)
      == Step(Acc(kept, old(physical.items)), Candidate(FirstText(node, "name"), Extract(node)))
  {
    var name := FirstText(node, "name");
    var iface := Extract(node);
    interfaces := kept;
    if physical.items != [] {
      if !(name.Some? && name.value in physical.items) {
        return;
      }
      physical.Remove(name.value);
    }
    interfaces := interfaces + [iface];
  }

  /** The second loop of parse: one bare interface per leftover name. */
  method AppendBare(configured: seq<Interface>, names: seq<string>) returns (interfaces: seq<Interface>)
    ensures interfaces == configured + Bare(names)
  {
    interfaces := configured;
    var k := 0;
    while k < |names|
      invariant 0 <= k <= |names|
      invariant interfaces == configured + Bare(names[..k])
    {
      assert names[..k + 1][..k] == names[..k];
      interfaces := interfaces + [NewInterface().(name := Str(names[k]))];
      k := k + 1;
    }
    assert names[..k] == names;
  }
}
