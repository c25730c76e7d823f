/** ElementParser: a chaining accessor over an XML node, and its null object
    EmptyTree.  A missing element never raises: first() falls back to an
    accessor around EmptyTree, whose searches find nothing and whose text
    is None.  The accessors returned by all() remember the tag of the
    element they were found under; interfaces.py relies on that parent tag
    although base.py itself does not define it. */
module ElementParser {
  import opened Py
  import opened Xml

  datatype Accessor =
    | Wrap(node: Node, parent: Option<string>)
    | Empty

  /** The XML children the accessor sees (EmptyTree has none). */
  function ChildNodes(a: Accessor): seq<Node> {
    match a
    case Wrap(n, _) => if n.Element? then n.children else []
    case Empty => []
  }

  /** text(): the joined text of the direct text children, or None when
      that is empty. */
  function TextOf(a: Accessor): (r: Option<string>)
  {
    var t := ChildText(ChildNodes(a));
    if t == "" then None else Some(t)
  }

  /** all(tag): one accessor per element below, in document order. */
  function All(a: Accessor, tag: string): (r: seq<Accessor>)
    ensures a.Empty? ==> r == []
    ensures a.Wrap? ==> |r| == |ByTag(a.node, tag)|
  {
    match a
    case Empty => []
    case Wrap(n, _) =>
      var hs := ByTag(n, tag);
      seq(|hs|, i requires 0 <= i < |hs| => Wrap(hs[i].node, Some(hs[i].parent)))
  }

  /** The i-th accessor of all(tag) wraps the i-th element found, and
      remembers the tag of the element it was found under. */
  lemma AllAt(a: Accessor, tag: string, i: nat)
    requires a.Wrap? && i < |All(a, tag)|
    ensures All(a, tag)[i] == Wrap(ByTag(a.node, tag)[i].node, Some(ByTag(a.node, tag)[i].parent))
  {
  }

  /** first(tag): the first accessor all(tag) gives, else EmptyTree. */
  function First(a: Accessor, tag: string): (r: Accessor)
  {
    var res := All(a, tag);
    if |res| > 0 then res[0] else Empty
  }

  /** first(tag) is EmptyTree exactly when no element below the node
      carries the tag; otherwise it wraps the first such element in
      document order, which lies strictly below the node. */
  lemma FirstSpec(a: Accessor, tag: string)
    requires a.Wrap? && a.node.Element?
    ensures First(a, tag).Empty? <==> forall d :: d in Desc(a.node.children) ==> !Selects(tag, d)
    ensures First(a, tag).Wrap? ==>
      && Selects(tag, First(a, tag).node)
      && First(a, tag).node in Desc(a.node.children)
      && |Filter(tag, Descendants(a.node.tag, a.node.children))| > 0
      && First(a, tag).node == Filter(tag, Descendants(a.node.tag, a.node.children))[0].node
  {
    ByTagExists(a.node, tag);
    SearchSound(a.node.tag, a.node.children, tag);
    AllSpec(a, tag);
    if |ByTag(a.node, tag)| > 0 {
      assert ByTag(a.node, tag)[0] in Search(a.node.tag, a.node.children, tag);
    }
  }

  /** The tag of the element the accessor was found under. */
  function ParentTag(a: Accessor): Option<string> {
    if a.Wrap? then a.parent else None
  }

  /** Shorthand for the idiom node.first(tag).text(). */
  function FirstText(a: Accessor, tag: string): Option<string> {
    TextOf(First(a, tag))
  }

  /** EmptyTree absorbs every chain: anything reached from it is EmptyTree
      again, with no text. */
  lemma EmptyAbsorbs(tag: string, tag2: string)
    ensures All(Empty, tag) == []
    ensures First(Empty, tag) == Empty
    ensures First(First(Empty, tag), tag2) == Empty
    ensures TextOf(First(Empty, tag)) == None
  {
  }

  /** When nothing below carries the tag, first(tag) is EmptyTree and its
      text is None, so `first(..).first(..).text()` chains end in None. */
  lemma {:induction false} FirstMissing(a: Accessor, tag: string, tag2: string)
    requires a.Wrap? && a.node.Element?
    requires forall d :: d in Desc(a.node.children) ==> !Selects(tag, d)
    ensures First(a, tag) == Empty
    ensures FirstText(First(a, tag), tag2) == None
  {
    SearchSound(a.node.tag, a.node.children, tag);
    if |ByTag(a.node, tag)| > 0 {
      assert ByTag(a.node, tag)[0] in Search(a.node.tag, a.node.children, tag);
    }
  }

  /** all(tag) finds exactly the elements strictly below the node that
      carry the tag ("*" for every element), in document order. */
  lemma AllSpec(a: Accessor, tag: string)
    requires a.Wrap? && a.node.Element?
    ensures |All(a, tag)| == |Filter(tag, Descendants(a.node.tag, a.node.children))|
    ensures forall i :: 0 <= i < |All(a, tag)| ==>
      All(a, tag)[i].node == Filter(tag, Descendants(a.node.tag, a.node.children))[i].node
    ensures forall d :: d in Desc(a.node.children) && Selects(tag, d) ==>
      exists i :: 0 <= i < |All(a, tag)| && All(a, tag)[i].node == d
  {
    ByTagIsFilter(a.node, tag);
    forall i | 0 <= i < |All(a, tag)|
      ensures All(a, tag)[i].node == Filter(tag, Descendants(a.node.tag, a.node.children))[i].node
    {
      AllAt(a, tag, i);
    }
    var ds := Descendants(a.node.tag, a.node.children);
    forall d | d in Desc(a.node.children) && Selects(tag, d)
      ensures exists i :: 0 <= i < |All(a, tag)| && All(a, tag)[i].node == d
    {
      DescendantsComplete(a.node.tag, a.node.children, d);
      var h :| h in ds && h.node == d;
      FilterIn(tag, ds, h);
      var i :| 0 <= i < |Filter(tag, ds)| && Filter(tag, ds)[i] == h;
      AllAt(a, tag, i);
      assert All(a, tag)[i].node == d;
    }
  }

  /** text() of an element without text is None, never "". */
  lemma TextOfBlank(tag: string, cs: seq<Node>)
    requires forall i :: 0 <= i < |cs| ==> cs[i].Element?
    ensures TextOf(Wrap(Element(tag, cs), None)) == None
  {
    ChildTextEmpty(cs);
  }
}
