/** The Alcatel-Lucent DCN IS-IS producer: it reads the text of
    "show isis database detail" from a Cisco router line by line, opens a
    node at every LSP header, collects the node's neighbours from its
    "Metric:" lines, renames it from its "Hostname:" line, and stores it
    when the next header arrives, merging a node seen before into the first
    copy.  An optional mapping from full NSAP addresses to host names
    replaces system ids by names and attaches extra data to the nodes. */
module AlcatelIsis {
  import opened Py
  import Strs

  /** A neighbour: equal to another exactly when name and metric agree. */
  datatype Neighbour = Neighbour(name: string, metric: string)

  /** A node: Python compares two nodes by name only. */
  datatype Node = Node(name: string, neighbours: seq<Neighbour>, data: map<string, string>)

  /** One row of the NSAP mapping file: column name to value. */
  type MappingItem = map<string, string>

  /** The Alcatel area id and selector around a system id. */
  const AreaId: string := "47002300000001000100010001"
  const SelectorId: string := "1D"

  /** First tokens of the lines the producer disregards. */
  const NotInteresting: seq<string> := ["IS-IS", "LSPID", "Area", "NLPID:", "IP"]

  predicate Distinct<T(==)>(s: seq<T>) {
    forall i, j :: 0 <= i < j < |s| ==> s[i] != s[j]
  }

  function Names(nodes: seq<Node>): (r: seq<string>)
    ensures |r| == |nodes|
    ensures forall i :: 0 <= i < |nodes| ==> r[i] == nodes[i].name
  {
    seq(|nodes|, i requires 0 <= i < |nodes| => nodes[i].name)
  }

  /** `node in nodes`: Python's == on nodes compares names. */
  predicate HasName(nodes: seq<Node>, name: string) {
    exists i :: 0 <= i < |nodes| && nodes[i].name == name
  }

  // ---------------------------------------------------------------------
  // '.'.join(s.split('.')[:-1])

  /** Everything before the last dot ("" when there is no dot). */
  function DropLastSegment(s: string): string {
    var parts := Strs.SplitSep(s, ".");
    Strs.Join(parts[..|parts| - 1], ".")
  }

  /** Everything after the last dot (all of s when there is no dot). */
  function LastSegment(s: string): string {
    var parts := Strs.SplitSep(s, ".");
    parts[|parts| - 1]
  }

  /** Dropping the last segment removes the last dot and what follows it. */
  lemma DropLastSegmentSpec(s: string)
    ensures '.' !in LastSegment(s)
    ensures '.' !in s ==> DropLastSegment(s) == ""
    ensures '.' in s ==> s == DropLastSegment(s) + "." + LastSegment(s)
  {
    var parts := Strs.SplitSep(s, ".");
    Strs.SplitSepLast(s, '.');
    Strs.SplitSepOne(s, ".");
    Strs.FindChar(s, '.');
    if '.' in s {
      Strs.JoinSnoc(parts, ".");
      Strs.JoinSplitSep(s, ".");
    }
  }

  // ---------------------------------------------------------------------
  // lookup_osi

  /** The full NSAP address for a system id, with its dots removed. */
  function FullOsi(systemId: string): (r: string)
    ensures '.' !in r
  {
    Strs.DeleteChar(AreaId + systemId + SelectorId, '.')
  }

  /** Item i is the first without an osi_address, and no item before it matches. */
  predicate OsiMissingAt(target: string, mapping: seq<MappingItem>, i: int) {
    0 <= i < |mapping| && "osi_address" !in mapping[i] &&
    forall j :: 0 <= j < i ==> "osi_address" in mapping[j] && mapping[j]["osi_address"] != target
  }

  /** The position of the first item whose osi_address is target (|mapping|
      when there is none); an item without osi_address met before any
      match raises KeyError. */
  function OsiIndex(target: string, mapping: seq<MappingItem>): (r: Result<nat>)
    ensures r.Ok? ==> r.value <= |mapping|
    ensures r.Ok? ==> forall j :: 0 <= j < r.value ==>
      "osi_address" in mapping[j] && mapping[j]["osi_address"] != target
    ensures r.Ok? && r.value < |mapping| ==>
      "osi_address" in mapping[r.value] && mapping[r.value]["osi_address"] == target
    ensures r.Err? ==> r.error == KeyError("osi_address")
    ensures r.Err? ==> exists i :: OsiMissingAt(target, mapping, i)
    decreases |mapping|
  {
    if mapping == [] then Ok(0)
    else if "osi_address" !in mapping[0] then
      assert OsiMissingAt(target, mapping, 0);
      Err(KeyError("osi_address"))
    else if mapping[0]["osi_address"] == target then Ok(0)
    else
      match OsiIndex(target, mapping[1..])
      case Err(e) =>
        ghost var i :| OsiMissingAt(target, mapping[1..], i);
        assert OsiMissingAt(target, mapping, i + 1);
        Err(e)
      case Ok(k) => Ok(k + 1)
  }

  /** lookup_osi: the first mapping item for the system id, or None. */
  function LookupOsi(systemId: string, mapping: seq<MappingItem>): (r: Result<Option<MappingItem>>)
  {
    match OsiIndex(FullOsi(systemId), mapping)
    case Err(e) => Err(e)
    case Ok(i) => if i < |mapping| then Ok(Some(mapping[i])) else Ok(None)
  }

  /** Item i is the first whose osi_address is target. */
  predicate FirstMatchAt(target: string, mapping: seq<MappingItem>, i: int) {
    0 <= i < |mapping| && "osi_address" in mapping[i] && mapping[i]["osi_address"] == target &&
    forall j :: 0 <= j < i ==> "osi_address" in mapping[j] && mapping[j]["osi_address"] != target
  }

  /** The item found is the first whose osi_address is the system id's full
      address; None means every item has an osi_address and none matches. */
  lemma LookupOsiFirst(systemId: string, mapping: seq<MappingItem>)
    ensures var r := LookupOsi(systemId, mapping); var t := FullOsi(systemId);
      (r.Ok? && r.value.Some? ==> exists i :: FirstMatchAt(t, mapping, i) && mapping[i] == r.value.value) &&
      (r.Err? ==> exists i :: OsiMissingAt(t, mapping, i)) &&
      (r == Ok(None) <==> forall j :: 0 <= j < |mapping| ==>
         "osi_address" in mapping[j] && mapping[j]["osi_address"] != t)
  {
    var t := FullOsi(systemId);
    match OsiIndex(t, mapping)
    case Ok(i) =>
      if i < |mapping| {
        assert !("osi_address" in mapping[i] && mapping[i]["osi_address"] != t);
      }
    case Err(_) =>
  }

  // ---------------------------------------------------------------------
  // merge_nodes

  /** The neighbour loop of merge_nodes: each new neighbour not already in
      the list (same name and metric) is appended, in order. */
  function AddMissing(have: seq<Neighbour>, news: seq<Neighbour>): seq<Neighbour>
    decreases |news|
  {
    if news == [] then have
    else AddMissing(if news[0] in have then have else have + [news[0]], news[1..])
  }

  /** Merging neighbours keeps the old list as a prefix, ends up with exactly
      the old and the new neighbours, and adds no duplicate. */
  lemma {:induction false} AddMissingSpec(have: seq<Neighbour>, news: seq<Neighbour>)
    ensures var r := AddMissing(have, news);
      |have| <= |r| && r[..|have|] == have &&
      (forall x :: x in r <==> x in have || x in news) &&
      (Distinct(have) ==> Distinct(r))
    decreases |news|
  {
    if news != [] {
      var next := if news[0] in have then have else have + [news[0]];
      AddMissingSpec(next, news[1..]);
      var r := AddMissing(have, news);
      assert r[..|have|] == r[..|next|][..|have|];
      forall x ensures x in r <==> x in have || x in news {
        assert x in news <==> x == news[0] || x in news[1..];
      }
    }
  }

  /** merge_nodes on values: every node named like the new node gets the
      new node's missing neighbours; names, data and order stay. */
  function Merge(newNode: Node, nodes: seq<Node>): (r: seq<Node>)
    ensures |r| == |nodes| && Names(r) == Names(nodes)
  {
    var r := seq(|nodes|, i requires 0 <= i < |nodes| =>
      if nodes[i].name == newNode.name
      then nodes[i].(neighbours := AddMissing(nodes[i].neighbours, newNode.neighbours))
      else nodes[i]);
    assert Names(r) == Names(nodes);
    r
  }

  /** merge_nodes never removes or reorders a neighbour, and afterwards the
      merged node holds every neighbour of the new node. */
  lemma MergeSpec(newNode: Node, nodes: seq<Node>, i: nat)
    requires i < |nodes|
    ensures var m := Merge(newNode, nodes)[i];
      m.name == nodes[i].name && m.data == nodes[i].data &&
      |nodes[i].neighbours| <= |m.neighbours| &&
      m.neighbours[..|nodes[i].neighbours|] == nodes[i].neighbours &&
      (m.name == newNode.name ==> forall x :: x in newNode.neighbours ==> x in m.neighbours) &&
      (m.name != newNode.name ==> m == nodes[i])
  {
    AddMissingSpec(nodes[i].neighbours, newNode.neighbours);
  }

  /** merge_nodes(new_node, node_list), updating the list's nodes. */
  method MergeNodes(newNode: Node, nodes: seq<Node>) returns (r: seq<Node>)
    ensures r == Merge(newNode, nodes)
  {
    r := nodes;
    for i := 0 to |nodes|
      invariant |r| == |nodes|
      invariant forall k :: 0 <= k < i ==> r[k] == Merge(newNode, nodes)[k]
      invariant forall k :: i <= k < |nodes| ==> r[k] == nodes[k]
    {
      if nodes[i].name == newNode.name {
        var have := nodes[i].neighbours;
        var news := newNode.neighbours;
        for j := 0 to |news|
          invariant AddMissing(have, news[j..]) == AddMissing(nodes[i].neighbours, news)
        {
          assert news[j..][1..] == news[j + 1..];
          if news[j] !in have {
            have := have + [news[j]];
          }
        }
        assert news[|news|..] == [];
        r := r[i := nodes[i].(neighbours := have)];
      }
    }
    assert r == Merge(newNode, nodes);
  }

  // ---------------------------------------------------------------------
  // process_isis_output as a state machine

  /** The variables the line loop carries: the stored nodes, the open node
      (None when no node is open) and `name`, which keeps its last value
      from one line to the next (None until first assigned). */
  datatype State = State(nodes: seq<Node>, open: Option<Node>, name: Option<string>)

  const Start: State := State([], None, None)

  /** A normalised line is blank exactly when it has no tokens. */
  lemma TextTokens(line: string)
    ensures Strs.Split(Strs.NormalizeWhitespace(line)) == Strs.Split(line)
    ensures Strs.NormalizeWhitespace(line) == "" <==> Strs.Split(line) == []
  {
    Strs.NormalizeWhitespaceSpec(line);
    Strs.JoinTokens(Strs.Split(line));
  }

  /** A 'Metric:' line: the second token is the metric, the fourth the
      neighbour's id; with a node open and a non-zero metric the id loses
      its last dot segment and a neighbour is added (through the mapping
      when there is one). */
  function MetricStep(st: State, toks: seq<string>, mapping: seq<MappingItem>): Result<State> {
    if |toks| < 4 then Err(IndexError)
    else
      var metric := toks[1];
      var name := toks[3];
      if st.open.Some? && metric != "0" then
        var id := DropLastSegment(name);
        var node := st.open.value;
        if |mapping| > 0 then
          match LookupOsi(id, mapping)
          case Err(e) => Err(e)
          case Ok(None) => Ok(State(st.nodes, st.open, Some(id)))
          case Ok(Some(item)) =>
            if "name" in item
            then Ok(State(st.nodes, Some(node.(neighbours := node.neighbours + [Neighbour(item["name"], metric)])), Some(id)))
            else Err(KeyError("name"))
        else Ok(State(st.nodes, Some(node.(neighbours := node.neighbours + [Neighbour(id, metric)])), Some(id)))
      else Ok(st.(name := Some(name)))
  }

  /** A 'Hostname:' line renames the open node. */
  function HostnameStep(st: State, toks: seq<string>): Result<State> {
    if st.open.None? then Ok(st)
    else if |toks| < 2 then Err(IndexError)
    else Ok(st.(open := Some(st.open.value.(name := toks[1]))))
  }

  /** The open node's data, updated from the mapping item for `name`. */
  function WithData(node: Node, name: Option<string>, mapping: seq<MappingItem>): Result<Node> {
    if |mapping| == 0 then Ok(node)
    else if name.None? then Err(NameError("name"))
    else
      match LookupOsi(name.value, mapping)
      case Err(e) => Err(e)
      case Ok(None) => Ok(node)
      case Ok(Some(item)) => Ok(node.(data := node.data + item))
  }

  /** Storing a closed node: merged into the node of the same name, or
      appended when there is none. */
  function Store(node: Node, nodes: seq<Node>): seq<Node> {
    if HasName(nodes, node.name) then Merge(node, nodes) else nodes + [node]
  }

  /** The stored nodes once the open node (if any) is closed. */
  function Closed(st: State, mapping: seq<MappingItem>): Result<seq<Node>> {
    if st.open.None? then Ok(st.nodes)
    else
      match WithData(st.open.value, st.name, mapping)
      case Err(e) => Err(e)
      case Ok(node) => Ok(Store(node, st.nodes))
  }

  /** Any other line closes the open node and opens one named by the first
      token minus its last dot segment, unless that is empty. */
  function HeaderStep(st: State, toks: seq<string>, mapping: seq<MappingItem>): Result<State>
    requires toks != []
  {
    match Closed(st, mapping)
    case Err(e) => Err(e)
    case Ok(nodes) =>
      var id := DropLastSegment(toks[0]);
      Ok(State(nodes, if id != "" then Some(Node(id, [], map[])) else None, Some(id)))
  }

  /** One iteration of the line loop. */
  function Step(st: State, line: string, mapping: seq<MappingItem>): Result<State> {
    var text := Strs.NormalizeWhitespace(line);
    var toks := Strs.Split(text);
    if text == "" then Ok(st)
    else
      TextTokens(line);
      if toks[0] in NotInteresting then Ok(st)
      else if toks[0] == "Metric:" then MetricStep(st, toks, mapping)
      else if toks[0] == "Hostname:" then HostnameStep(st, toks)
      else HeaderStep(st, toks, mapping)
  }

  /** The loop over the remaining lines from a state. */
  function Run(st: State, lines: seq<string>, mapping: seq<MappingItem>): Result<State>
    decreases |lines|
  {
    if lines == [] then Ok(st)
    else
      match Step(st, lines[0], mapping)
      case Err(e) => Err(e)
      case Ok(next) => Run(next, lines[1..], mapping)
  }

  /** process_isis_output(f, nsap_mapping): the stored nodes; the node still
      open at the end of the input is dropped. */
  function ProcessIsis(lines: seq<string>, mapping: seq<MappingItem>): Result<seq<Node>> {
    match Run(Start, lines, mapping)
    case Err(e) => Err(e)
    case Ok(st) => Ok(st.nodes)
  }

  /** process_isis_output, as the loop the source runs. */
  method ProcessIsisOutput(lines: seq<string>, mapping: seq<MappingItem>) returns (r: Result<seq<Node>>)
    ensures r == ProcessIsis(lines, mapping)
  {
    var nodes: seq<Node> := [];
    var node: Option<Node> := None;
    var name: Option<string> := None;
    for i := 0 to |lines|
      invariant Run(Start, lines, mapping) == Run(State(nodes, node, name), lines[i..], mapping)
    {
      ghost var st := State(nodes, node, name);
      assert lines[i..][1..] == lines[i + 1..];
      var text := Strs.NormalizeWhitespace(lines[i]);
      var toks := Strs.Split(text);
      TextTokens(lines[i]);
      if text != "" && toks[0] !in NotInteresting {
        if toks[0] == "Metric:" {
          if |toks| < 4 {
            assert Step(st, lines[i], mapping) == Err(IndexError);
            return Err(IndexError);
          }
          var metric := toks[1];
          name := Some(toks[3]);
          if node.Some? && metric != "0" {
            var id := DropLastSegment(toks[3]);
            name := Some(id);
            if |mapping| > 0 {
              var data := LookupOsi(id, mapping);
              if data.Err? {
                assert Step(st, lines[i], mapping) == Err(data.error);
                return Err(data.error);
              }
              if data.value.Some? {
                if "name" !in data.value.value {
                  assert Step(st, lines[i], mapping) == Err(KeyError("name"));
                  return Err(KeyError("name"));
                }
                var n := node.value;
                node := Some(n.(neighbours := n.neighbours + [Neighbour(data.value.value["name"], metric)]));
              }
            } else {
              var n := node.value;
              node := Some(n.(neighbours := n.neighbours + [Neighbour(id, metric)]));
            }
          }
          assert Step(st, lines[i], mapping) == Ok(State(nodes, node, name));
        } else if toks[0] == "Hostname:" {
          if node.Some? {
            if |toks| < 2 {
              assert Step(st, lines[i], mapping) == Err(IndexError);
              return Err(IndexError);
            }
            node := Some(node.value.(name := toks[1]));
          }
          assert Step(st, lines[i], mapping) == Ok(State(nodes, node, name));
        } else {
          if node.Some? {
            var n := node.value;
            if |mapping| > 0 {
              if name.None? {
                assert Step(st, lines[i], mapping) == Err(NameError("name"));
                return Err(NameError("name"));
              }
              var data := LookupOsi(name.value, mapping);
              if data.Err? {
                assert Step(st, lines[i], mapping) == Err(data.error);
                return Err(data.error);
              }
              if data.value.Some? {
                n := n.(data := n.data + data.value.value);
              }
            }
            assert WithData(node.value, name, mapping) == Ok(n);
            if HasName(nodes, n.name) {
              nodes := MergeNodes(n, nodes);
            } else {
              nodes := nodes + [n];
            }
            node := None;
          }
          var id := DropLastSegment(toks[0]);
          name := Some(id);
          if id != "" {
            node := Some(Node(id, [], map[]));
          }
          assert Step(st, lines[i], mapping) == Ok(State(nodes, node, name));
        }
      } else {
        assert Step(st, lines[i], mapping) == Ok(st);
      }
    }
    assert lines[|lines|..] == [];
    r := Ok(nodes);
  }

  // ---------------------------------------------------------------------
  // what each kind of line does

  /** Blank lines and lines starting with IS-IS, LSPID, Area, NLPID: or IP
      change nothing. */
  lemma IgnoredLine(st: State, line: string, mapping: seq<MappingItem>)
    requires Strs.Split(line) == [] || Strs.Split(line)[0] in NotInteresting
    ensures Step(st, line, mapping) == Ok(st)
  {
    TextTokens(line);
  }

  /** A 'Metric:' line: too short raises IndexError; with no node open or a
      zero metric only `name` changes (to the raw fourth token); otherwise
      the open node, and only its neighbour list, may grow by one neighbour
      at the end, and without a mapping it does, by the fourth token minus
      its last dot segment. */
  lemma MetricLine(st: State, line: string, mapping: seq<MappingItem>)
    requires var toks := Strs.Split(line); toks != [] && toks[0] == "Metric:"
    ensures var toks := Strs.Split(line); var r := Step(st, line, mapping);
      (|toks| < 4 ==> r == Err(IndexError)) &&
      (|toks| >= 4 && (st.open.None? || toks[1] == "0") ==> r == Ok(st.(name := Some(toks[3])))) &&
      (|toks| >= 4 && st.open.Some? && toks[1] != "0" && mapping == [] ==>
        r == Ok(State(st.nodes,
                      Some(st.open.value.(neighbours := st.open.value.neighbours + [Neighbour(DropLastSegment(toks[3]), toks[1])])),
                      Some(DropLastSegment(toks[3]))))) &&
      (r.Ok? ==> r.value.nodes == st.nodes && r.value.open.Some? == st.open.Some?) &&
      (r.Ok? && st.open.Some? ==> NeighboursGrow(st.open.value, r.value.open.value, toks[1]))
  {
    TextTokens(line);
    var toks := Strs.Split(line);
    assert Step(st, line, mapping) == MetricStep(st, toks, mapping);
    if |toks| >= 4 {
      MetricGrows(st, toks, mapping);
    }
  }

  lemma MetricGrows(st: State, toks: seq<string>, mapping: seq<MappingItem>)
    requires |toks| >= 4
    ensures var r := MetricStep(st, toks, mapping);
      (r.Ok? ==> r.value.nodes == st.nodes && r.value.open.Some? == st.open.Some?) &&
      (r.Ok? && st.open.Some? ==> NeighboursGrow(st.open.value, r.value.open.value, toks[1]))
  {
  }

  /** `after` is `before` with its neighbour list unchanged or extended by
      one neighbour with the given metric. */
  predicate NeighboursGrow(before: Node, after: Node, metric: string) {
    after.name == before.name && after.data == before.data &&
    var n := |before.neighbours|;
    n <= |after.neighbours| <= n + 1 && after.neighbours[..n] == before.neighbours &&
    (|after.neighbours| == n + 1 ==> after.neighbours[n].metric == metric)
  }

  /** A 'Hostname:' line renames the open node to its second token and
      changes nothing else. */
  lemma HostnameLine(st: State, line: string, mapping: seq<MappingItem>)
    requires var toks := Strs.Split(line); toks != [] && toks[0] == "Hostname:"
    ensures var toks := Strs.Split(line); var r := Step(st, line, mapping);
      (st.open.None? ==> r == Ok(st)) &&
      (st.open.Some? && |toks| < 2 ==> r == Err(IndexError)) &&
      (st.open.Some? && |toks| >= 2 ==> r == Ok(st.(open := Some(st.open.value.(name := toks[1])))))
  {
    TextTokens(line);
  }

  /** A line closes a node when it is not blank and starts with none of
      the disregarded tokens, 'Metric:' or 'Hostname:'. */
  predicate IsHeader(line: string) {
    var toks := Strs.Split(line);
    toks != [] && toks[0] !in NotInteresting && toks[0] != "Metric:" && toks[0] != "Hostname:"
  }

  /** Any other line stores the open node and opens a fresh node named by
      its first token minus the last dot segment, or none when that is
      empty; `name` becomes that id. */
  lemma HeaderLine(st: State, line: string, mapping: seq<MappingItem>)
    requires IsHeader(line)
    ensures var id := DropLastSegment(Strs.Split(line)[0]); var r := Step(st, line, mapping);
      (Closed(st, mapping).Err? ==> r == Err(Closed(st, mapping).error)) &&
      (Closed(st, mapping).Ok? ==>
        r == Ok(State(Closed(st, mapping).value, if id != "" then Some(Node(id, [], map[])) else None, Some(id))))
  {
    TextTokens(line);
  }

  /** Closing stores the open node: the result holds a node of its name,
      after the nodes that were there before. */
  lemma ClosedStoresOpen(st: State, mapping: seq<MappingItem>)
    requires st.open.Some? && Closed(st, mapping).Ok?
    ensures var nodes := Closed(st, mapping).value;
      st.open.value.name in Names(nodes) &&
      |st.nodes| <= |nodes| && Names(nodes)[..|st.nodes|] == Names(st.nodes)
  {
    var node := WithData(st.open.value, st.name, mapping).value;
    var nodes := Closed(st, mapping).value;
    if HasName(st.nodes, node.name) {
      var i :| 0 <= i < |st.nodes| && st.nodes[i].name == node.name;
      assert Names(nodes)[i] == node.name;
    } else {
      assert Names(nodes) == Names(st.nodes) + [node.name];
    }
  }

  // ---------------------------------------------------------------------
  // properties of the whole loop

  /** Storing a node keeps the stored names distinct. */
  lemma StoreDistinct(node: Node, nodes: seq<Node>)
    requires Distinct(Names(nodes))
    ensures Distinct(Names(Store(node, nodes)))
  {
    if !HasName(nodes, node.name) {
      var r := Names(nodes + [node]);
      forall i, j | 0 <= i < j < |r| ensures r[i] != r[j] {
        if j == |nodes| {
          assert nodes[i].name != node.name;
        }
      }
    }
  }

  lemma StepDistinct(st: State, line: string, mapping: seq<MappingItem>)
    requires Distinct(Names(st.nodes)) && Step(st, line, mapping).Ok?
    ensures Distinct(Names(Step(st, line, mapping).value.nodes))
  {
    TextTokens(line);
    if IsHeader(line) && st.open.Some? {
      StoreDistinct(WithData(st.open.value, st.name, mapping).value, st.nodes);
    }
  }

  lemma {:induction false} RunDistinct(st: State, lines: seq<string>, mapping: seq<MappingItem>)
    requires Distinct(Names(st.nodes)) && Run(st, lines, mapping).Ok?
    ensures Distinct(Names(Run(st, lines, mapping).value.nodes))
    decreases |lines|
  {
    if lines != [] {
      StepDistinct(st, lines[0], mapping);
      RunDistinct(Step(st, lines[0], mapping).value, lines[1..], mapping);
    }
  }

  /** The node names in the result are pairwise distinct: a node seen again
      is merged, not appended. */
  lemma ResultDistinct(lines: seq<string>, mapping: seq<MappingItem>)
    requires ProcessIsis(lines, mapping).Ok?
    ensures Distinct(Names(ProcessIsis(lines, mapping).value))
  {
    RunDistinct(Start, lines, mapping);
  }

  /** Once a node is open, `name` has a value. */
  predicate NameSet(st: State) {
    st.open.Some? ==> st.name.Some?
  }

  lemma StepNameSet(st: State, line: string, mapping: seq<MappingItem>)
    requires NameSet(st)
    ensures Step(st, line, mapping).Err? ==> Step(st, line, mapping).error != NameError("name")
    ensures Step(st, line, mapping).Ok? ==> NameSet(Step(st, line, mapping).value)
  {
    TextTokens(line);
  }

  lemma {:induction false} RunNameSet(st: State, lines: seq<string>, mapping: seq<MappingItem>)
    requires NameSet(st)
    ensures Run(st, lines, mapping) != Err(NameError("name"))
    decreases |lines|
  {
    if lines != [] {
      StepNameSet(st, lines[0], mapping);
      if Step(st, lines[0], mapping).Ok? {
        RunNameSet(Step(st, lines[0], mapping).value, lines[1..], mapping);
      }
    }
  }

  /** The NSAP lookup when a node closes never meets an unassigned `name`. */
  lemma NoNameError(lines: seq<string>, mapping: seq<MappingItem>)
    ensures ProcessIsis(lines, mapping) != Err(NameError("name"))
  {
    RunNameSet(Start, lines, mapping);
  }

  /** Lines that open no new node store nothing: the node open when the
      input ends is never added to the result. */
  lemma {:induction false} OpenNodeDropped(st: State, lines: seq<string>, mapping: seq<MappingItem>)
    requires forall k :: 0 <= k < |lines| ==> !IsHeader(lines[k])
    requires Run(st, lines, mapping).Ok?
    ensures Run(st, lines, mapping).value.nodes == st.nodes
    decreases |lines|
  {
    if lines != [] {
      TextTokens(lines[0]);
      var next := Step(st, lines[0], mapping).value;
      assert next.nodes == st.nodes;
      OpenNodeDropped(next, lines[1..], mapping);
    }
  }

  // ---------------------------------------------------------------------
  // Node.to_json

  /** The name Node.to_json writes: the mapping's name when the node has
      data, its own name otherwise. */
  function JsonName(n: Node): Result<string> {
    if n.data == map[] then Ok(n.name)
    else if "name" in n.data then Ok(n.data["name"])
    else Err(KeyError("name"))
  }

  /** A node whose NSAP lookup found a mapping item with a name is written
      under that name. */
  lemma MappedName(node: Node, id: string, mapping: seq<MappingItem>)
    requires |mapping| > 0
    requires LookupOsi(id, mapping).Ok? && LookupOsi(id, mapping).value.Some?
    requires "name" in LookupOsi(id, mapping).value.value
    ensures WithData(node, Some(id), mapping).Ok?
    ensures JsonName(WithData(node, Some(id), mapping).value) == Ok(LookupOsi(id, mapping).value.value["name"])
  {
    var item := LookupOsi(id, mapping).value.value;
    assert "name" in (node.data + item);
  }
}
