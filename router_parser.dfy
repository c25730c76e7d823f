/** RouterPaser: assembles a Router from a parsed Junos configuration.  The
    document is first cleaned of every <logical-systems> element; the
    hostname is the host-name text, with the domain-name appended and the
    routing-engine suffixes "-re0"/"-re1" removed; interfaces and BGP
    peerings come from their own parsers run over the cleaned tree. */
module RouterParser {
  import opened Py
  import opened Json
  import opened Xml
  import opened ElementParser
  import opened JuniperModels
  import Strs
  import InterfaceParser
  import BgpParser

  const LogicalSystems := "logical-systems"

  // ---------------------------------------------------------------------
  // _clean

  /** Some element tagged `tag` lies below another one, among `cs` and
      their subtrees. */
  predicate Nested(cs: seq<Node>, tag: string)
    decreases cs
  {
    cs != [] &&
    ((cs[0].Element? &&
      ((cs[0].tag == tag && Search(cs[0].tag, cs[0].children, tag) != [])
       || Nested(cs[0].children, tag)))
     || Nested(cs[1..], tag))
  }

  /** Nested by its reference definition: some descendant carrying the tag
      has a descendant carrying the tag. */
  lemma {:induction false} NestedSpec(cs: seq<Node>, tag: string)
    ensures Nested(cs, tag) <==>
      exists d :: d in Desc(cs) && d.Element? && d.tag == tag && Search(d.tag, d.children, tag) != []
    decreases cs
  {
    if cs != [] {
      var c := cs[0];
      NestedSpec(cs[1..], tag);
      assert Desc(cs) == {c} + (if c.Element? then Desc(c.children) else {}) + Desc(cs[1..]);
      if c.Element? {
        NestedSpec(c.children, tag);
      }
    }
  }

  /** _clean: every logical-systems element is removed with its subtree.
      Removing one unlinks its whole subtree, which sets the parent of every
      node inside it to None; a logical-systems element found inside
      another one is then reached with no parent, and removing it from its
      parent raises AttributeError. */
  function Clean(doc: Node): (r: Result<Node>)
  {
    if !doc.Element? then Ok(doc)
    else if Nested(doc.children, LogicalSystems) then Err(AttributeError)
    else Ok(Element(doc.tag, Prune(doc.children, LogicalSystems)))
  }

  /** _clean raises exactly when some logical-systems element has another
      one below it. */
  lemma CleanFails(doc: Node)
    requires doc.Element?
    ensures Clean(doc).Err? <==>
      exists d :: d in Desc(doc.children) && d.Element? && d.tag == LogicalSystems &&
        Search(d.tag, d.children, LogicalSystems) != []
  {
    NestedSpec(doc.children, LogicalSystems);
  }

  /** After a successful clean no logical-systems element is left. */
  lemma CleanRemoves(doc: Node)
    requires Clean(doc).Ok?
    ensures ByTag(Clean(doc).value, LogicalSystems) == []
  {
    if doc.Element? {
      PruneRemoves(doc.tag, doc.children, LogicalSystems);
    }
  }

  lemma {:induction false} AbsentNotNested(parent: string, cs: seq<Node>, tag: string)
    requires Search(parent, cs, tag) == []
    ensures !Nested(cs, tag)
    decreases cs
  {
    if cs != [] {
      var c := cs[0];
      assert Search(parent, cs[1..], tag) == [];
      AbsentNotNested(parent, cs[1..], tag);
      if c.Element? {
        assert Search(c.tag, c.children, tag) == [];
        AbsentNotNested(c.tag, c.children, tag);
      }
    }
  }

  /** A tree without logical-systems is left as it is. */
  lemma CleanAbsent(doc: Node)
    requires ByTag(doc, LogicalSystems) == []
    ensures Clean(doc) == Ok(doc)
  {
    if doc.Element? {
      AbsentNotNested(doc.tag, doc.children, LogicalSystems);
      PruneAbsent(doc.tag, doc.children, LogicalSystems);
    }
  }

  /** Cleaning twice is cleaning once. */
  lemma CleanIdempotent(doc: Node)
    requires Clean(doc).Ok?
    ensures Clean(Clean(doc).value) == Clean(doc)
  {
    CleanRemoves(doc);
    CleanAbsent(Clean(doc).value);
  }

  // ---------------------------------------------------------------------
  // get_hostname

  /** The hostname rule over the host-name and domain-name texts.  The
      missing-host branch raises ParserError, which router.py never
      imports, so the raise itself fails with NameError. */
  function HostnameOf(host: Option<string>, domain: Option<string>): (r: Result<string>)
    ensures r.Err? <==> host.None?
  {
    match host
    case None => Err(NameError("ParserError"))
    case Some(h) =>
      var joined := h + (if domain.Some? then "." + domain.value else "");
      if Strs.Contains(joined, "re0") || Strs.Contains(joined, "re1") then
        Ok(Strs.ReplaceAll(Strs.ReplaceAll(joined, "-re0", ""), "-re1", ""))
      else Ok(joined)
  }

  /** get_hostname on the document accessor. */
  function GetHostname(doc: Accessor): Result<string> {
    HostnameOf(FirstText(doc, "host-name"), FirstText(doc, "domain-name"))
  }

  /** The name joined from host and domain, before suffix stripping. */
  function Joined(h: string, domain: Option<string>): string {
    h + (if domain.Some? then "." + domain.value else "")
  }

  /** A name without "re0" and "re1" is the host-name, followed by '.' and
      the domain-name when there is one. */
  lemma HostnamePlain(h: string, domain: Option<string>)
    requires !Strs.Contains(Joined(h, domain), "re0") && !Strs.Contains(Joined(h, domain), "re1")
    ensures HostnameOf(Some(h), domain) == Ok(Joined(h, domain))
  {
  }

  /** Suffix stripping only ever shortens the joined name, and changes it
      only when "re0" or "re1" occurs in it. */
  lemma HostnameShortens(h: string, domain: Option<string>)
    ensures HostnameOf(Some(h), domain).Ok?
    ensures |HostnameOf(Some(h), domain).value| <= |Joined(h, domain)|
    ensures HostnameOf(Some(h), domain).value != Joined(h, domain) ==>
      Strs.Contains(Joined(h, domain), "re0") || Strs.Contains(Joined(h, domain), "re1")
  {
    var j := Joined(h, domain);
    Strs.RemoveShortens(j, "-re0");
    Strs.RemoveShortens(Strs.ReplaceAll(j, "-re0", ""), "-re1");
  }

  /** The routing-engine suffix goes, the domain stays: "h-re0" in domain
      "d" becomes "h.d" for names that do not themselves contain "-re0" or
      "-re1". */
  lemma HostnameRouteEngine(h: string, d: string)
    requires !Strs.Contains(h, "-re0") && !Strs.Contains(h, "-re1")
    requires !Strs.Contains(d, "-re0") && !Strs.Contains(d, "-re1")
    ensures HostnameOf(Some(h + "-re0"), Some(d)) == Ok(h + "." + d)
  {
    var j := Joined(h + "-re0", Some(d));
    assert j == h + "-re0" + ("." + d);
    assert Strs.OccursAt(j, "re0", |h| + 1);
    Strs.ContainsAt(j, "re0");
    StripSuffixes(h, d);
  }

  /** Removing "-re0" and then "-re1" from "h-re0.d" leaves "h.d". */
  lemma StripSuffixes(h: string, d: string)
    requires !Strs.Contains(h, "-re0") && !Strs.Contains(h, "-re1")
    requires !Strs.Contains(d, "-re0") && !Strs.Contains(d, "-re1")
    ensures Strs.ReplaceAll(Strs.ReplaceAll(h + "-re0" + ("." + d), "-re0", ""), "-re1", "")
         == h + "." + d
  {
    var t := "." + d;
    KeepDomain(d, "-re0");
    DropRe0(h, t);
    assert h + t == h + "." + d;
    KeepJoined(h, d, "-re1");
  }

  /** Removing "-re0" from "h-re0" + t leaves h + t when t has none. */
  lemma DropRe0(h: string, t: string)
    requires !Strs.Contains(h, "-re0") && Strs.ReplaceAll(t, "-re0", "") == t
    ensures Strs.ReplaceAll(h + "-re0" + t, "-re0", "") == h + t
  {
    Strs.ReplaceAfterAbsent(h, "-re0", t, "");
    assert h + "" + t == h + t;
  }

  /** A suffix pattern absent from d is absent from ".d". */
  lemma KeepDomain(d: string, p: string)
    requires p != [] && forall k :: 0 <= k < |p| ==> p[k] != '.'
    requires !Strs.Contains(d, p)
    ensures Strs.ReplaceAll("." + d, p, "") == "." + d
  {
    Strs.ContainsAcross([], '.', d, p);
    assert [] + ['.'] + d == "." + d;
    Strs.ReplaceAbsent("." + d, p, "");
  }

  /** A suffix pattern absent from h and d is absent from "h.d". */
  lemma KeepJoined(h: string, d: string, p: string)
    requires p != [] && forall k :: 0 <= k < |p| ==> p[k] != '.'
    requires !Strs.Contains(h, p) && !Strs.Contains(d, p)
    ensures Strs.ReplaceAll(h + "." + d, p, "") == h + "." + d
  {
    Strs.ContainsAcross(h, '.', d, p);
    assert h + ['.'] + d == h + "." + d;
    Strs.ReplaceAbsent(h + "." + d, p, "");
  }

  // ---------------------------------------------------------------------
  // parse

  /** RouterPaser.parse: clean, then fill a new Router from the cleaned
      tree. */
  function Parse(doc: Node, model: Value, whitelist: seq<string>): Result<Router> {
    var cleaned :- Clean(doc);
    var d := Wrap(cleaned, None);
    var name :- GetHostname(d);
    Ok(NewRouter().(
      name := Str(name),
      version := OptStr(FirstText(d, "version")),
      model := model,
      interfaces := InterfaceParser.Parse(cleaned, whitelist),
      bgpPeerings := BgpParser.Parse(cleaned)))
  }

  /** A configuration without host-name gives no router. */
  lemma ParseMissingHost(doc: Node, model: Value, whitelist: seq<string>)
    requires Clean(doc).Ok? && FirstText(Wrap(Clean(doc).value, None), "host-name").None?
    ensures Parse(doc, model, whitelist) == Err(NameError("ParserError"))
  {
  }

  /** Nothing inside a logical-systems element reaches the router: parsing
      the tree gives what parsing its cleaned copy gives, and the sub-parsers
      see a tree without logical-systems; the model is passed through. */
  lemma ParseIgnoresLogicalSystems(doc: Node, model: Value, whitelist: seq<string>)
    requires Clean(doc).Ok?
    ensures Parse(doc, model, whitelist) == Parse(Clean(doc).value, model, whitelist)
    ensures ByTag(Clean(doc).value, LogicalSystems) == []
    ensures Parse(doc, model, whitelist).Ok? ==> Parse(doc, model, whitelist).value.model == model
  {
    CleanIdempotent(doc);
    CleanRemoves(doc);
  }

  /** The parser as written: the whitelist list object is handed to the
      interface parser, which removes the names it finds; it is untouched
      when cleaning or the hostname fails first. */
  method ParseRouter(doc: Node, model: Value, physical: InterfaceParser.NameList)
    returns (r: Result<Router>)
    modifies physical
    ensures r == Parse(doc, model, old(physical.items))
    ensures r.Err? ==> physical.items == old(physical.items)
    ensures r.Ok? ==>
      (physical.items ==
       InterfaceParser.Fold(InterfaceParser.Candidates(InterfaceParser.InterfaceNodes(Clean(doc).value)),
                            old(physical.items)).whitelist)
  {
    var c := Clean(doc);
    if c.Err? {
      return Err(c.error);
    }
    var cleaned := c.value;
    var d := Wrap(cleaned, None);
    var name := GetHostname(d);
    if name.Err? {
      return Err(name.error);
    }
    var router := NewRouter();
    router := router.(name := Str(name.value));
    router := router.(version := OptStr(FirstText(d, "version")));
    router := router.(model := model);
    var interfaces := InterfaceParser.ParseInterfaces(cleaned, physical);
    router := router.(interfaces := interfaces);
    var peerings := BgpParser.ParseBgp(cleaned);
    router := router.(bgpPeerings := peerings);
    r := Ok(router);
  }
}
