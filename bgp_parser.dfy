/** BgpPeeringParser: one peering per <neighbor> of every <group> under a
    <bgp> element, carrying the group's name, type and local-address. */
module BgpParser {
  import opened Py
  import opened Json
  import opened Xml
  import opened ElementParser
  import opened JuniperModels

  /** [g for bgp in all("bgp") for g in bgp.all("group")]. */
  function Groups(root: Node): seq<Accessor> {
    GroupsOf(All(Wrap(root, None), "bgp"))
  }

  function GroupsOf(bgps: seq<Accessor>): seq<Accessor> {
    if bgps == [] then [] else GroupsOf(bgps[..|bgps| - 1]) + All(bgps[|bgps| - 1], "group")
  }

  /** The peering built for one neighbour of a group. */
  function MakePeering(gname: Option<string>, gtype: Option<string>, local: Option<string>,
                       neighbor: Accessor): BgpPeering
  {
    NewBgpPeering().(
      kind := OptStr(gtype),
      group := OptStr(gname),
      remoteAddress := OptStr(FirstText(neighbor, "name")),
      description := OptStr(FirstText(neighbor, "description")),
      localAddress := OptStr(local),
      asNumber := OptStr(FirstText(neighbor, "peer-as")))
  }

  /** The peerings of one group, neighbour by neighbour. */
  function GroupPeerings(g: Accessor): (r: seq<BgpPeering>)
    ensures |r| == |All(g, "neighbor")|
  {
    PeeringsFor(FirstText(g, "name"), FirstText(g, "type"), FirstText(g, "local-address"),
                All(g, "neighbor"))
  }

  /** The peerings for a list of neighbours sharing one group's fields. */
  function PeeringsFor(gname: Option<string>, gtype: Option<string>, local: Option<string>,
                       ns: seq<Accessor>): (r: seq<BgpPeering>)
    ensures |r| == |ns|
  {
    if ns == [] then []
    else PeeringsFor(gname, gtype, local, ns[..|ns| - 1]) + [MakePeering(gname, gtype, local, ns[|ns| - 1])]
  }

  lemma {:induction false} PeeringsForAt(gname: Option<string>, gtype: Option<string>,
                                         local: Option<string>, ns: seq<Accessor>, k: nat)
    requires k < |ns|
    ensures PeeringsFor(gname, gtype, local, ns)[k] == MakePeering(gname, gtype, local, ns[k])
    decreases |ns|
  {
    if k < |ns| - 1 {
      PeeringsForAt(gname, gtype, local, ns[..|ns| - 1], k);
    }
  }

  lemma GroupPeeringAt(g: Accessor, k: nat)
    requires k < |All(g, "neighbor")|
    ensures GroupPeerings(g)[k] ==
      MakePeering(FirstText(g, "name"), FirstText(g, "type"), FirstText(g, "local-address"),
                  All(g, "neighbor")[k])
  {
    PeeringsForAt(FirstText(g, "name"), FirstText(g, "type"), FirstText(g, "local-address"),
                  All(g, "neighbor"), k);
  }

  /** The peerings of each group, in group order. */
  function PerGroup(groups: seq<Accessor>): (r: seq<seq<BgpPeering>>)
  {
    seq(|groups|, k requires 0 <= k < |groups| => GroupPeerings(groups[k]))
  }

  function Concat(xss: seq<seq<BgpPeering>>): seq<BgpPeering> {
    if xss == [] then [] else Concat(xss[..|xss| - 1]) + xss[|xss| - 1]
  }

  /** BgpPeeringParser.parse: the groups' peerings one after the other. */
  function Parse(root: Node): seq<BgpPeering> {
    Concat(PerGroup(Groups(root)))
  }

  function Sizes(xss: seq<seq<BgpPeering>>): nat {
    if xss == [] then 0 else Sizes(xss[..|xss| - 1]) + |xss[|xss| - 1]|
  }

  /** Number of neighbours over all groups. */
  function NeighborCount(groups: seq<Accessor>): nat {
    if groups == [] then 0
    else NeighborCount(groups[..|groups| - 1]) + |All(groups[|groups| - 1], "neighbor")|
  }

  lemma {:induction false} ConcatSize(xss: seq<seq<BgpPeering>>)
    ensures |Concat(xss)| == Sizes(xss)
    decreases |xss|
  {
    if xss != [] {
      ConcatSize(xss[..|xss| - 1]);
    }
  }

  lemma {:induction false} SizesPerGroup(groups: seq<Accessor>)
    ensures Sizes(PerGroup(groups)) == NeighborCount(groups)
    decreases |groups|
  {
    if groups != [] {
      var init := groups[..|groups| - 1];
      var per := PerGroup(groups);
      SizesPerGroup(init);
      assert per[..|groups| - 1] == PerGroup(init);
      assert |per[|groups| - 1]| == |All(groups[|groups| - 1], "neighbor")| by {
        assert per[|groups| - 1] == GroupPeerings(groups[|groups| - 1]);
      }
    }
  }

  /** There is exactly one peering per neighbour, summed over all groups. */
  lemma PeeringCount(root: Node)
    ensures |Parse(root)| == NeighborCount(Groups(root))
  {
    ConcatSize(PerGroup(Groups(root)));
    SizesPerGroup(Groups(root));
  }

  lemma {:induction false} ConcatAppend(xs: seq<seq<BgpPeering>>, ys: seq<seq<BgpPeering>>)
    ensures Concat(xs + ys) == Concat(xs) + Concat(ys)
    decreases |ys|
  {
    if ys == [] {
      assert xs + ys == xs;
    } else {
      var ys0 := ys[..|ys| - 1];
      ConcatAppend(xs, ys0);
      assert (xs + ys)[..|xs + ys| - 1] == xs + ys0;
    }
  }

  lemma ConcatAt(xss: seq<seq<BgpPeering>>, k: nat)
    requires k < |xss|
    ensures Concat(xss) == Concat(xss[..k]) + xss[k] + Concat(xss[k + 1..])
  {
    assert xss == xss[..k + 1] + xss[k + 1..];
    ConcatAppend(xss[..k + 1], xss[k + 1..]);
    ConcatSnoc(xss, k);
  }

  /** The output is group by group in document order: the peerings of
      group k (none for a group without neighbours) sit right after those
      of the groups before it. */
  lemma GroupInOrder(root: Node, k: nat)
    requires k < |Groups(root)|
    ensures var per := PerGroup(Groups(root));
      Parse(root) == Concat(per[..k]) + GroupPeerings(Groups(root)[k]) + Concat(per[k + 1..])
  {
    ConcatAt(PerGroup(Groups(root)), k);
  }

  /** Each peering of a group carries the group's name, type and
      local-address unchanged, and the neighbour's name, description and
      peer-as (None when absent). */
  lemma GroupFields(g: Accessor, k: nat)
    requires k < |All(g, "neighbor")|
    ensures var p := GroupPeerings(g)[k]; var n := All(g, "neighbor")[k];
      p.group == OptStr(FirstText(g, "name")) && p.kind == OptStr(FirstText(g, "type"))
      && p.localAddress == OptStr(FirstText(g, "local-address"))
      && p.remoteAddress == OptStr(FirstText(n, "name"))
      && p.description == OptStr(FirstText(n, "description"))
      && p.asNumber == OptStr(FirstText(n, "peer-as"))
  {
    GroupPeeringAt(g, k);
  }

  /** A tree without <bgp> elements has no peerings. */
  lemma NoBgpNoPeerings(root: Node)
    requires All(Wrap(root, None), "bgp") == []
    ensures Parse(root) == []
  {
  }

  lemma ConcatSnoc(xss: seq<seq<BgpPeering>>, i: nat)
    requires i < |xss|
    ensures Concat(xss[..i + 1]) == Concat(xss[..i]) + xss[i]
  {
    assert xss[..i + 1][..i] == xss[..i];
  }

  lemma PeeringsForSnoc(gname: Option<string>, gtype: Option<string>, local: Option<string>,
                        ns: seq<Accessor>, j: nat)
    requires j < |ns|
    ensures PeeringsFor(gname, gtype, local, ns[..j + 1])
         == PeeringsFor(gname, gtype, local, ns[..j]) + [MakePeering(gname, gtype, local, ns[j])]
  {
    assert ns[..j + 1][..j] == ns[..j];
  }

  /** The parser as written: a loop over the groups, each handled by the
      inner loop over its neighbours. */
  method ParseBgp(root: Node) returns (peerings: seq<BgpPeering>)
    ensures peerings == Parse(root)
  {
    var groups := Groups(root);
    ghost var per := PerGroup(groups);
    peerings := [];
    var i := 0;
    while i < |groups|
      invariant 0 <= i <= |groups|
      invariant peerings == Concat(per[..i])
    {
      var more := GroupLoop(groups[i]);
      assert more == per[i];
      ConcatSnoc(per, i);
      peerings := peerings + more;
      i := i + 1;
    }
    assert per[..i] == per;
  }

  /** The inner loop: one peering per neighbour of the group. */
  method GroupLoop(group: Accessor) returns (peerings: seq<BgpPeering>)
    ensures peerings == GroupPeerings(group)
  {
    var gname := FirstText(group, "name");
    var gtype := FirstText(group, "type");
    var local := FirstText(group, "local-address");
    var neighbors := All(group, "neighbor");
    peerings := [];
    var j := 0;
    while j < |neighbors|
      invariant 0 <= j <= |neighbors|
      invariant peerings == PeeringsFor(gname, gtype, local, neighbors[..j])
    {
      PeeringsForSnoc(gname, gtype, local, neighbors, j);
      peerings := peerings + [MakePeering(gname, gtype, local, neighbors[j])];
      j := j + 1;
    }
    assert neighbors[..j] == neighbors;
  }
}
