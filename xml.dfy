/** The part of the XML DOM the Junos configuration parsers read: element
    nodes with a tag and ordered children, and text nodes.  A parsed
    document is the element "#document" whose single child is the root. */
module Xml {

  datatype Node =
    | Element(tag: string, children: seq<Node>)
    | Text(data: string)

  /** A match found while searching: the element and the tag of the element
      whose child it is. */
  datatype Hit = Hit(parent: string, node: Node)

  /** DOM nodeName: the tag of an element, "#text" for text. */
  function NodeName(n: Node): (r: string)
  {
    match n
    case Element(tag, _) => tag
    case Text(_) => "#text"
  }

  /** Whether getElementsByTagName(tag) selects the node; "*" selects every
      element. */
  predicate Selects(tag: string, n: Node) {
    n.Element? && (tag == "*" || n.tag == tag)
  }

  /** The search behind getElementsByTagName over the children `cs` of an
      element tagged `parent`: each child is checked, then its own subtree,
      then the following siblings. */
  function Search(parent: string, cs: seq<Node>, tag: string): seq<Hit>
    decreases cs
  {
    if cs == [] then []
    else
      var c := cs[0];
      var here := if Selects(tag, c) then [Hit(parent, c)] else [];
      var below := if c.Element? then Search(c.tag, c.children, tag) else [];
      here + below + Search(parent, cs[1..], tag)
  }

  /** n.getElementsByTagName(tag) together with each match's parent tag. */
  function ByTag(n: Node, tag: string): seq<Hit> {
    if n.Element? then Search(n.tag, n.children, tag) else []
  }

  /** n.getElementsByTagName(tag) as plain nodes. */
  function Nodes(hs: seq<Hit>): (r: seq<Node>)
  {
    seq(|hs|, i requires 0 <= i < |hs| => hs[i].node)
  }

  // ---------------------------------------------------------------------
  // reference definition: all proper descendants in document order

  /** Every element below the children `cs` (of an element tagged `parent`),
      in document (pre-)order, with its parent tag. */
  function Descendants(parent: string, cs: seq<Node>): seq<Hit>
    decreases cs
  {
    if cs == [] then []
    else
      var c := cs[0];
      if c.Element? then
        [Hit(parent, c)] + Descendants(c.tag, c.children) + Descendants(parent, cs[1..])
      else Descendants(parent, cs[1..])
  }

  function Filter(tag: string, hs: seq<Hit>): (r: seq<Hit>)
    ensures |r| <= |hs|
  {
    if hs == [] then []
    else (if Selects(tag, hs[0].node) then [hs[0]] else []) + Filter(tag, hs[1..])
  }

  lemma {:induction false} FilterIn(tag: string, hs: seq<Hit>, h: Hit)
    ensures h in Filter(tag, hs) <==> h in hs && Selects(tag, h.node)
    decreases |hs|
  {
    if hs != [] {
      FilterIn(tag, hs[1..], h);
      assert h in hs <==> h == hs[0] || h in hs[1..];
    }
  }

  lemma {:induction false} FilterAppend(tag: string, a: seq<Hit>, b: seq<Hit>)
    ensures Filter(tag, a + b) == Filter(tag, a) + Filter(tag, b)
    decreases |a|
  {
    if a != [] {
      var h := if Selects(tag, a[0].node) then [a[0]] else [];
      assert Filter(tag, a + b) == h + Filter(tag, a[1..] + b) by {
        assert (a + b)[0] == a[0];
        assert (a + b)[1..] == a[1..] + b;
      }
      FilterAppend(tag, a[1..], b);
      assert Filter(tag, a) == h + Filter(tag, a[1..]);
      ConcatAssoc(h, Filter(tag, a[1..]), Filter(tag, b));
    } else {
      assert a + b == b;
    }
  }

  lemma ConcatAssoc<T>(x: seq<T>, y: seq<T>, z: seq<T>)
    ensures x + (y + z) == (x + y) + z
  {
  }

  /** getElementsByTagName returns exactly the proper descendants carrying
      the tag, in document order. */
  lemma {:induction false} SearchIsFilter(parent: string, cs: seq<Node>, tag: string)
    ensures Search(parent, cs, tag) == Filter(tag, Descendants(parent, cs))
    decreases cs
  {
    if cs != [] {
      var c := cs[0];
      SearchIsFilter(parent, cs[1..], tag);
      var d2 := Descendants(parent, cs[1..]);
      if c.Element? {
        SearchIsFilter(c.tag, c.children, tag);
        var d1 := Descendants(c.tag, c.children);
        var here := if Selects(tag, c) then [Hit(parent, c)] else [];
        assert Descendants(parent, cs) == [Hit(parent, c)] + (d1 + d2) by {
          assert [Hit(parent, c)] + d1 + d2 == [Hit(parent, c)] + (d1 + d2);
        }
        assert Filter(tag, [Hit(parent, c)] + (d1 + d2)) == here + Filter(tag, d1 + d2) by {
          assert ([Hit(parent, c)] + (d1 + d2))[1..] == d1 + d2;
        }
        FilterAppend(tag, d1, d2);
        assert Search(parent, cs, tag) == here + Filter(tag, d1) + Filter(tag, d2);
      } else {
        assert Search(parent, cs, tag) == [] + [] + Search(parent, cs[1..], tag);
      }
    }
  }

  lemma ByTagIsFilter(n: Node, tag: string)
    requires n.Element?
    ensures ByTag(n, tag) == Filter(tag, Descendants(n.tag, n.children))
  {
    SearchIsFilter(n.tag, n.children, tag);
  }

  /** Every element reached by the search is an element with the tag, and
      lies strictly below the node. */
  lemma {:induction false} SearchSound(parent: string, cs: seq<Node>, tag: string)
    ensures forall h :: h in Search(parent, cs, tag) ==> Selects(tag, h.node) && h.node in Desc(cs)
    decreases cs
  {
    SearchIsFilter(parent, cs, tag);
    DescendantsInDesc(parent, cs);
    forall h | h in Search(parent, cs, tag)
      ensures Selects(tag, h.node) && h.node in Desc(cs)
    {
      FilterIn(tag, Descendants(parent, cs), h);
    }
  }

  /** Proper-descendant set used to talk about subtrees. */
  function Desc(cs: seq<Node>): set<Node>
    decreases cs
  {
    if cs == [] then {}
    else
      var c := cs[0];
      {c} + (if c.Element? then Desc(c.children) else {}) + Desc(cs[1..])
  }

  lemma {:induction false} DescendantsInDesc(parent: string, cs: seq<Node>)
    ensures forall h :: h in Descendants(parent, cs) ==> h.node in Desc(cs) && h.node.Element?
    decreases cs
  {
    if cs != [] {
      DescendantsInDesc(parent, cs[1..]);
      if cs[0].Element? {
        DescendantsInDesc(cs[0].tag, cs[0].children);
      }
    }
  }

  /** An element is found by the search exactly when it is a proper
      descendant: the search misses nothing. */
  lemma {:induction false} DescendantsComplete(parent: string, cs: seq<Node>, d: Node)
    requires d in Desc(cs) && d.Element?
    ensures exists h :: h in Descendants(parent, cs) && h.node == d
    decreases cs
  {
    var c := cs[0];
    if d == c {
      assert Hit(parent, c) in Descendants(parent, cs);
    } else if c.Element? && d in Desc(c.children) {
      DescendantsComplete(c.tag, c.children, d);
      var h :| h in Descendants(c.tag, c.children) && h.node == d;
      assert h in Descendants(parent, cs);
    } else {
      DescendantsComplete(parent, cs[1..], d);
      var h :| h in Descendants(parent, cs[1..]) && h.node == d;
      assert h in Descendants(parent, cs);
    }
  }

  /** getElementsByTagName finds something exactly when some proper
      descendant carries the tag. */
  lemma ByTagExists(n: Node, tag: string)
    requires n.Element?
    ensures ByTag(n, tag) != [] <==> exists d :: d in Desc(n.children) && Selects(tag, d)
  {
    SearchSound(n.tag, n.children, tag);
    if ByTag(n, tag) != [] {
      assert ByTag(n, tag)[0] in Search(n.tag, n.children, tag);
    }
    if exists d :: d in Desc(n.children) && Selects(tag, d) {
      var d :| d in Desc(n.children) && Selects(tag, d);
      var ds := Descendants(n.tag, n.children);
      DescendantsComplete(n.tag, n.children, d);
      var h :| h in ds && h.node == d;
      FilterIn(tag, ds, h);
      SearchIsFilter(n.tag, n.children, tag);
    }
  }

  /** The text of a node's direct text children, joined. */
  function ChildText(cs: seq<Node>): string {
    if cs == [] then ""
    else (if cs[0].Text? then cs[0].data else "") + ChildText(cs[1..])
  }

  lemma {:induction false} ChildTextEmpty(cs: seq<Node>)
    ensures ChildText(cs) == "" <==> forall i :: 0 <= i < |cs| && cs[i].Text? ==> cs[i].data == ""
    decreases |cs|
  {
    if cs != [] {
      ChildTextEmpty(cs[1..]);
      assert forall i :: 1 <= i < |cs| ==> cs[i] == cs[1..][i - 1];
    }
  }

  // ---------------------------------------------------------------------
  // removing every element with a given tag

  /** The children `cs` with every element tagged `tag` cut out together
      with its subtree. */
  function Prune(cs: seq<Node>, tag: string): (r: seq<Node>)
    decreases cs
  {
    if cs == [] then []
    else
      var c := cs[0];
      if c.Element? && c.tag == tag then Prune(cs[1..], tag)
      else if c.Element? then [Element(c.tag, Prune(c.children, tag))] + Prune(cs[1..], tag)
      else [c] + Prune(cs[1..], tag)
  }

  /** After pruning, the search for the tag finds nothing. */
  lemma {:induction false} PruneRemoves(parent: string, cs: seq<Node>, tag: string)
    requires tag != "*"
    ensures Search(parent, Prune(cs, tag), tag) == []
    decreases cs
  {
    if cs != [] {
      var c := cs[0];
      PruneRemoves(parent, cs[1..], tag);
      if c.Element? && c.tag != tag {
        PruneRemoves(c.tag, c.children, tag);
      }
    }
  }

  /** Pruning children that hold no such element changes nothing. */
  lemma {:induction false} PruneAbsent(parent: string, cs: seq<Node>, tag: string)
    requires tag != "*" && Search(parent, cs, tag) == []
    ensures Prune(cs, tag) == cs
    decreases cs
  {
    if cs != [] {
      var c := cs[0];
      assert Search(parent, cs[1..], tag) == [];
      PruneAbsent(parent, cs[1..], tag);
      if c.Element? {
        assert Search(c.tag, c.children, tag) == [];
        PruneAbsent(c.tag, c.children, tag);
      }
    }
  }
}
