/** jarchive/parsers/juniper.py: the parser of Junos configuration text in
    its brace form ("key value;", "key {", "}"), the host name read from
    the parsed configuration, and the file sniffer.  All three share a line
    cursor in the source; here the cursor is an index into the lines. */
module JarchiveJuniper {
  import opened Py
  import opened Json
  import Strs
  import Sniff

  // ---------------------------------------------------------------------
  // parse

  /** The value of a "key value;" line: "[a b]" is the list of tokens
      between the brackets, "\"v\"" is v, anything else is kept as it is. */
  function LeafValue(val: string): (r: Value)
  {
    if Strs.StartsWith(val, "[") then StrList(Strs.Split(Strs.Inner(val)))
    else if Strs.StartsWith(val, "\"") then Str(Strs.Inner(val))
    else Str(val)
  }

  /** The key of a "w1 w2 ... {" line: its tokens but the last, joined by
      single spaces. */
  function BlockKey(tline: string): string {
    var parts := Strs.Split(tline);
    if parts == [] then "" else Strs.Join(parts[..|parts| - 1], " ")
  }

  /** What one line of the configuration is to parse, after strip(). */
  datatype LineKind =
    | Comment                     // starts with '#': skipped
    | Close                       // ends with '}': the block ends
    | Leaf(key: string, v: Value) // ends with ';': v is stored under key
    | Open(key: string)           // ends with '{': a nested block follows
    | Blank                       // anything else: skipped

  /** The tests of the loop body, in their order. */
  function Classify(line: string): LineKind {
    var tline := Strs.Strip(line);
    if Strs.StartsWith(tline, "#") then Comment
    else if Strs.EndsWith(tline, "}") then Close
    else if Strs.EndsWith(tline, ";") then
      var parts := Strs.SplitOnce(tline[..|tline| - 1], " ");
      if |parts| == 1 then Leaf(parts[0], Bool(true))
      else Leaf(parts[0], LeafValue(parts[1]))
    else if Strs.EndsWith(tline, "{") then Open(BlockKey(tline))
    else Blank
  }

  /** The lines as parse sees them, one kind per line. */
  function Kinds(lines: seq<string>): (r: seq<LineKind>)
    ensures |r| == |lines|
  {
    if lines == [] then [] else [Classify(lines[0])] + Kinds(lines[1..])
  }

  /** The loop of parse over the kinds of the lines the iterator has left,
      with the dict built so far: the dict when the block closes or the
      lines run out, and the lines still left. */
  function ParseFrom(ks: seq<LineKind>, data: Fields): (r: (Fields, seq<LineKind>))
    ensures |r.1| <= |ks|
    decreases |ks|
  {
    if ks == [] then (data, [])
    else
      match ks[0]
      case Comment => ParseFrom(ks[1..], data)
      case Close => (data, ks[1..])
      case Leaf(key, v) => ParseFrom(ks[1..], Put(data, key, v))
      case Open(key) =>
        var (sub, rest) := ParseFrom(ks[1..], []);
        ParseFrom(rest, Put(data, key, Obj(sub)))
      case Blank => ParseFrom(ks[1..], data)
  }

  /** parse(conf) on a whole configuration. */
  function Parse(lines: seq<string>): Fields {
    ParseFrom(Kinds(lines), []).0
  }

  /** parse(conf), conf being an iterator over lines: a loop that takes
      one line at a time, fills data in place and recurses into each "{"
      block, which takes its lines from the same iterator.  left is what
      the iterator still holds when the block ends. */
  method ParseBlock(conf: seq<string>) returns (data: Fields, left: seq<string>)
    ensures |left| <= |conf|
    ensures ParseFrom(Kinds(conf), []) == (data, Kinds(left))
    decreases |conf|
  {
    data := [];
    var rest := conf;
    while rest != []
      invariant |rest| <= |conf|
      invariant ParseFrom(Kinds(conf), []) == ParseFrom(Kinds(rest), data)
      decreases |rest|
    {
      var line := rest[0];
      ghost var before := rest;
      rest := rest[1..];
      var kind := Classify(line);
      assert Kinds(before) == [kind] + Kinds(rest);
      match kind {
        case Comment =>
          StepSkip(kind, Kinds(rest), data);
        case Close =>
          StepClose(Kinds(rest), data);
          return data, rest;
        case Leaf(key, v) =>
          StepLeaf(Kinds(rest), data, key, v);
          data := Put(data, key, v);
        case Open(key) =>
          var sub, after := ParseBlock(rest);
          StepOpen(Kinds(rest), data, key, sub, Kinds(after));
          data := Put(data, key, Obj(sub));
          rest := after;
        case Blank =>
          StepSkip(kind, Kinds(rest), data);
      }
    }
    left := rest;
  }

  // ---------------------------------------------------------------------
  // the configurations parse reads back exactly

  /** A key written as a single token that is not a comment. */
  predicate GoodKey(k: string) {
    k != "" && Strs.NoSpace(k) && k[0] != '#'
  }

  /** A configuration tree: distinct token keys whose values are True, a
      string, or a nested tree. */
  predicate Renderable(f: Fields)
    decreases f, 1
  {
    DistinctKeys(f) && RenderableEntries(f)
  }

  predicate RenderableEntries(f: Fields)
    decreases f, 0
  {
    f == [] ||
    (GoodKey(f[0].0) && RenderableEntries(f[1..]) &&
     match f[0].1
     case Bool(b) => b
     case Str(_) => true
     case Obj(sub) => assert f[0] in f && f[0].1 < f[0]; Renderable(sub)
     case _ => false)
  }

  /** The text of a tree: "k;" for True, "k \"v\";" for a string, and
      "k {" ... "}" around a nested tree. */
  function Render(f: Fields): seq<string>
    decreases f
  {
    if f == [] then []
    else
      var (k, v) := f[0];
      assert f[0] in f && v < f[0];
      var entry := match v
        case Obj(sub) => [k + " {"] + Render(sub) + ["}"]
        case Str(s) => [k + " \"" + s + "\";"]
        case _ => [k + ";"];
      entry + Render(f[1..])
  }

  lemma {:induction false} NoSpaceChars(k: string)
    requires Strs.NoSpace(k)
    ensures forall i :: 0 <= i < |k| ==> k[i] != ' '
  {
  }

  /** A stripped line that is not a comment and ends with ';' is a leaf
      split at its first space. */
  lemma {:induction false} SemiLine(t: string, body: string)
    requires t == body + [';'] && t[0] != '#' && !Strs.IsSpace(t[0])
    ensures var parts := Strs.SplitOnce(body, " ");
            Classify(t) == if |parts| == 1 then Leaf(parts[0], Bool(true))
                           else Leaf(parts[0], LeafValue(parts[1]))
  {
    Strs.StripId(t);
    assert !Strs.StartsWith(t, "#") by {
      assert t[..1] == [t[0]];
    }
    assert !Strs.EndsWith(t, "}") && Strs.EndsWith(t, ";") by {
      assert t[|t| - 1..] == ";";
    }
    assert t[..|t| - 1] == body;
    ClassifySemi(t, t);
  }

  /** The branch of the loop body a stripped line ending with ';' takes. */
  lemma ClassifySemi(line: string, t: string)
    requires Strs.Strip(line) == t && t != [] && !Strs.StartsWith(t, "#")
    requires !Strs.EndsWith(t, "}") && Strs.EndsWith(t, ";")
    ensures var parts := Strs.SplitOnce(t[..|t| - 1], " ");
            Classify(line) == if |parts| == 1 then Leaf(parts[0], Bool(true))
                           else Leaf(parts[0], LeafValue(parts[1]))
  {
  }

  /** A "k;" line stores True under k. */
  lemma {:induction false} TrueLine(k: string)
    requires GoodKey(k)
    ensures Classify(k + ";") == Leaf(k, Bool(true))
  {
    var t := k + ";";
    NoSpaceChars(k);
    Strs.SplitOnceNone(k, ' ');
    SemiLine(t, k);
  }

  /** The value of a quoted string is the string between the quotes. */
  lemma {:induction false} QuotedValue(v: string)
    ensures LeafValue("\"" + v + "\"") == Str(v)
  {
    var q := "\"" + v + "\"";
    assert q[..1] == "\"";
    assert Strs.Inner(q) == v;
  }

  /** A "k \"v\";" line stores v under k. */
  lemma {:induction false} StrLine(k: string, v: string)
    requires GoodKey(k)
    ensures Classify(k + " \"" + v + "\";") == Leaf(k, Str(v))
  {
    var t := k + " \"" + v + "\";";
    var q := "\"" + v + "\"";
    assert t == (k + [' '] + q) + [';'];
    NoSpaceChars(k);
    Strs.SplitOnceAfter(k, ' ', q);
    QuotedValue(v);
    SemiLine(t, k + [' '] + q);
  }

  /** A "k {" line opens a block stored under k. */
  lemma {:induction false} OpenLine(k: string)
    requires GoodKey(k)
    ensures Classify(k + " {") == Open(k)
  {
    var t := k + " {";
    Strs.StripId(t);
    assert !Strs.StartsWith(t, "#") by {
      assert t[..1] == [k[0]];
    }
    assert !Strs.EndsWith(t, "}") && !Strs.EndsWith(t, ";") && Strs.EndsWith(t, "{") by {
      assert t[|t| - 1..] == "{";
    }
    BlockKeyOf(k);
    ClassifyOpen(t, t);
  }

  /** The key of a "k {" line is k. */
  lemma BlockKeyOf(k: string)
    requires GoodKey(k)
    ensures BlockKey(k + " {") == k
  {
    assert k + " {" == Strs.Join([k, "{"], " ");
    Strs.SplitJoin([k, "{"]);
    assert [k, "{"][..1] == [k];
  }

  /** The branch of the loop body a stripped line ending with '{' takes. */
  lemma ClassifyOpen(line: string, t: string)
    requires Strs.Strip(line) == t && !Strs.StartsWith(t, "#")
    requires !Strs.EndsWith(t, "}") && !Strs.EndsWith(t, ";") && Strs.EndsWith(t, "{")
    ensures Classify(line) == Open(BlockKey(t))
  {
  }

  /** A line that is a closing brace closes the block. */
  lemma {:induction false} CloseLine(t: string)
    requires t != [] && t[0] == '}' && |t| == 1
    ensures Classify(t) == Close
  {
    Strs.StripId(t);
    assert t[|t| - 1..] == "}";
  }

  /** The kinds parse sees in the text of a tree. */
  function RenderKinds(f: Fields): seq<LineKind>
    decreases f
  {
    if f == [] then []
    else
      var (k, v) := f[0];
      assert f[0] in f && v < f[0];
      var entry := match v
        case Obj(sub) => [Open(k)] + RenderKinds(sub) + [Close]
        case Str(s) => [Leaf(k, Str(s))]
        case _ => [Leaf(k, Bool(true))];
      entry + RenderKinds(f[1..])
  }

  /** The kinds of a tree whose first entry is a nested tree or a leaf. */
  lemma {:induction false} RenderKindsObj(f: Fields, k: string, sub: Fields)
    requires f != [] && f[0] == (k, Obj(sub))
    ensures RenderKinds(f) == (([Open(k)] + RenderKinds(sub)) + [Close]) + RenderKinds(f[1..])
  {
  }

  lemma {:induction false} RenderKindsLeaf(f: Fields, k: string, v: Value)
    requires f != [] && f[0] == (k, v) && (v.Str? || v == Bool(true))
    ensures RenderKinds(f) == [Leaf(k, v)] + RenderKinds(f[1..])
    ensures |RenderKinds(f)| == 1 + |RenderKinds(f[1..])|
  {
  }

  lemma {:induction false} KindsConcat(a: seq<string>, b: seq<string>)
    ensures Kinds(a + b) == Kinds(a) + Kinds(b)
    decreases |a|
  {
    if a == [] {
      assert a + b == b;
    } else {
      assert (a + b)[1..] == a[1..] + b;
      KindsConcat(a[1..], b);
    }
  }

  lemma {:induction false} KindsOne(line: string)
    ensures Kinds([line]) == [Classify(line)]
  {
    assert [line][1..] == [];
  }

  lemma {:induction false} RenderObj(f: Fields, k: string, sub: Fields)
    requires f != [] && f[0] == (k, Obj(sub))
    ensures Render(f) == (([k + " {"] + Render(sub)) + ["}"]) + Render(f[1..])
  {
  }

  lemma {:induction false} CloseKinds(c: seq<string>)
    requires |c| == 1 && |c[0]| == 1 && c[0][0] == '}'
    ensures Kinds(c) == [Close]
  {
    assert c == [c[0]];
    KindsOne(c[0]);
    CloseLine(c[0]);
  }

  /** A nested tree's lines are read as its "{" line, its own kinds and a
      closing brace. */
  lemma {:induction false} KindsRenderObj(f: Fields, k: string, sub: Fields, rest: Fields)
    requires f != [] && f[0] == (k, Obj(sub)) && rest == f[1..] && GoodKey(k)
    requires Kinds(Render(sub)) == RenderKinds(sub)
    requires Kinds(Render(rest)) == RenderKinds(rest)
    ensures Kinds(Render(f)) == RenderKinds(f)
  {
    var open := [k + " {"];
    var close := ["}"];
    RenderObj(f, k, sub);
    KindsConcat((open + Render(sub)) + close, Render(rest));
    KindsConcat(open + Render(sub), close);
    KindsConcat(open, Render(sub));
    KindsOne(k + " {");
    OpenLine(k);
    CloseKinds(close);
    assert RenderKinds(f) == (([Open(k)] + RenderKinds(sub)) + [Close]) + RenderKinds(rest);
  }

  /** The text of a tree is read as the kinds of the tree. */
  lemma {:induction false} KindsRender(f: Fields)
    requires RenderableEntries(f)
    ensures Kinds(Render(f)) == RenderKinds(f)
    decreases f
  {
    if f != [] {
      var (k, v) := f[0];
      assert f[0] in f && v < f[0];
      var rest := f[1..];
      KindsRender(rest);
      match v {
        case Obj(sub) =>
          assert Renderable(sub);
          KindsRender(sub);
          KindsRenderObj(f, k, sub, rest);
        case Str(s) =>
          assert Render(f) == [k + " \"" + s + "\";"] + Render(rest);
          KindsConcat([k + " \"" + s + "\";"], Render(rest));
          KindsOne(k + " \"" + s + "\";");
          StrLine(k, s);
        case Bool(_) =>
          assert Render(f) == [k + ";"] + Render(rest);
          KindsConcat([k + ";"], Render(rest));
          KindsOne(k + ";");
          TrueLine(k);
      }
    }
  }

  /** Comments and other lines are skipped. */
  lemma {:induction false} StepSkip(e: LineKind, rest: seq<LineKind>, acc: Fields)
    requires e == Comment || e == Blank
    ensures ParseFrom([e] + rest, acc) == ParseFrom(rest, acc)
  {
    assert ([e] + rest)[1..] == rest;
  }

  /** A leaf puts its value under its key. */
  lemma {:induction false} StepLeaf(rest: seq<LineKind>, acc: Fields, k: string, v: Value)
    ensures ParseFrom([Leaf(k, v)] + rest, acc) == ParseFrom(rest, Put(acc, k, v))
  {
    assert ([Leaf(k, v)] + rest)[1..] == rest;
  }

  /** A block puts the dict its lines give under its key. */
  lemma {:induction false} StepOpen(body: seq<LineKind>, acc: Fields, k: string, sub: Fields, rest: seq<LineKind>)
    requires ParseFrom(body, []) == (sub, rest)
    ensures ParseFrom([Open(k)] + body, acc) == ParseFrom(rest, Put(acc, k, Obj(sub)))
  {
    assert ([Open(k)] + body)[1..] == body;
  }

  /** A closing brace ends the block. */
  lemma {:induction false} StepClose(rest: seq<LineKind>, acc: Fields)
    ensures ParseFrom([Close] + rest, acc) == (acc, rest)
  {
    assert ([Close] + rest)[1..] == rest;
  }

  /** The lines that follow a tree's lines: none, or a closing brace. */
  predicate Closes(tail: seq<LineKind>) {
    tail == [] || tail[0] == Close
  }

  /** Where the iterator stops after a block that tail follows. */
  function AfterClose(tail: seq<LineKind>): seq<LineKind> {
    if tail == [] then [] else tail[1..]
  }

  /** Parsing the kinds of a tree followed by the end of the lines or a
      closing brace puts the tree's entries, in order, into the dict being
      built, and consumes the closing brace. */
  lemma {:induction false} ParseRender(f: Fields, tail: seq<LineKind>, acc: Fields)
    requires RenderableEntries(f) && Closes(tail)
    ensures ParseFrom(RenderKinds(f) + tail, acc) == (Update(acc, f), AfterClose(tail))
    decreases f, 1
  {
    if f == [] {
      assert RenderKinds(f) + tail == tail;
      if tail != [] {
        assert tail == [Close] + tail[1..];
        StepClose(tail[1..], acc);
      }
    } else {
      var (k, v) := f[0];
      assert f[0] in f && v < f[0];
      match v {
        case Obj(sub) => ParseRenderObj(f, tail, acc, k, sub);
        case Str(s) => ParseRenderLeaf(f, tail, acc, k, v);
        case Bool(b) => ParseRenderLeaf(f, tail, acc, k, v);
      }
    }
  }

  /** The first entry is a leaf, read from its one kind. */
  lemma {:induction false} ParseRenderLeaf(f: Fields, tail: seq<LineKind>, acc: Fields, k: string, v: Value)
    requires f != [] && f[0] == (k, v) && RenderableEntries(f) && (v.Str? || v.Bool?)
    requires Closes(tail)
    ensures ParseFrom(RenderKinds(f) + tail, acc) == (Update(acc, f), AfterClose(tail))
    decreases f, 0
  {
    var rest := f[1..];
    assert RenderableEntries(rest) && (v.Bool? ==> v.b);
    RenderKindsLeaf(f, k, v);
    assert RenderKinds(f) + tail == [Leaf(k, v)] + (RenderKinds(rest) + tail);
    StepLeaf(RenderKinds(rest) + tail, acc, k, v);
    ParseRender(rest, tail, Put(acc, k, v));
  }

  /** The first entry is a nested tree: its block is parsed into a dict of
      its own, stored under its key, and parsing goes on after the closing
      brace. */
  lemma {:induction false} ParseRenderObj(f: Fields, tail: seq<LineKind>, acc: Fields, k: string, sub: Fields)
    requires f != [] && f[0] == (k, Obj(sub)) && RenderableEntries(f)
    requires Closes(tail)
    ensures ParseFrom(RenderKinds(f) + tail, acc) == (Update(acc, f), AfterClose(tail))
    decreases f, 0
  {
    var rest := f[1..];
    assert f[0] in f && f[0].1 < f[0];
    assert Renderable(sub) && RenderableEntries(rest);
    var after := RenderKinds(rest) + tail;
    var inner := [Close] + after;
    RenderKindsObj(f, k, sub);
    assert RenderKinds(f) + tail == [Open(k)] + (RenderKinds(sub) + inner);
    ParseRender(sub, inner, []);
    assert AfterClose(inner) == after;
    UpdateFresh([], sub);
    assert [] + sub == sub;
    StepOpen(RenderKinds(sub) + inner, acc, k, sub, after);
    ParseRender(rest, tail, Put(acc, k, Obj(sub)));
  }

  /** parse reads the text of a tree back as the same tree. */
  lemma {:induction false} ParseRenderRoundTrip(f: Fields)
    requires Renderable(f)
    ensures Parse(Render(f)) == f
  {
    KindsRender(f);
    assert RenderKinds(f) + [] == RenderKinds(f);
    ParseRender(f, [], []);
    UpdateFresh([], f);
    assert [] + f == f;
  }

  /** A key written more than once in a block keeps only the value of its
      last line. */
  lemma {:induction false} RepeatedKeyLast(f: Fields, k: string)
    requires RenderableEntries(f)
    ensures Get(Parse(Render(f)), k) == Last(f, k)
  {
    KindsRender(f);
    assert RenderKinds(f) + [] == RenderKinds(f);
    ParseRender(f, [], []);
    GetUpdateLast([], f, k);
  }

  // ---------------------------------------------------------------------
  // get_hostname

  /** d.get(k1, {}).get(k2, {}) ... .get(kn): every step but the last
      defaults to an empty dict, the last to None, and .get on a value that
      is not a dict raises AttributeError. */
  function GetPath(f: Fields, path: seq<string>): (r: Result<Value>)
    requires path != []
    decreases |path|
  {
    if |path| == 1 then Ok(GetDefault(f, path[0], Null))
    else
      var v := GetDefault(f, path[0], Obj([]));
      if v.Obj? then GetPath(v.fields, path[1..]) else Err(AttributeError)
  }

  /** The name from a host-name: "-re0" removed wherever it occurs when
      "re0" occurs, then "." and the domain-name when that is truthy (an
      f-string shows True as "True" and an integer in decimal).  The repr
      of a list or a block is not modelled. */
  function HostnameOf(host: string, domain: Value): Result<string> {
    var name := if Strs.Contains(host, "re0") then Strs.ReplaceAll(host, "-re0", "") else host;
    if !Truthy(domain) then Ok(name)
    else
      match domain
      case Str(d) => Ok(name + "." + d)
      case Bool(_) => Ok(name + ".True")
      case Int(i) => Ok(name + "." + Strs.IntToStr(i))
      case _ => Err(Unsupported)
  }

  /** get_hostname(data): system.host-name, else
      groups.re0.system.host-name, else None.  A missing system raises
      KeyError. */
  function GetHostname(data: Fields): (r: Result<Option<string>>)
    ensures !HasKey(data, "system") ==> r == Err(KeyError("system"))
    ensures r.Ok? && r.value.Some? ==> HasKey(data, "system")
  {
    if !HasKey(data, "system") then Err(KeyError("system"))
    else
      var system := GetDefault(data, "system", Null);
      if !system.Obj? then Err(AttributeError)
      else
        var hostname := GetDefault(system.fields, "host-name", Null);
        var domain := GetDefault(system.fields, "domain-name", Null);
        var host :- if Truthy(hostname) then Ok(hostname)
                    else GetPath(data, ["groups", "re0", "system", "host-name"]);
        if !Truthy(host) then Ok(None)
        else
          match host
          case Str(h) =>
            var name :- HostnameOf(h, domain);
            Ok(Some(name))
          case Bool(_) => Err(TypeError)
          case Int(_) => Err(TypeError)
          case Arr(items) => if Str("re0") in items then Err(AttributeError) else Err(Unsupported)
          case Obj(f) => if HasKey(f, "re0") then Err(AttributeError) else Err(Unsupported)
  }

  /** A host-name that is not a string: `'re0' in` a boolean or an integer
      raises TypeError, and a list holding "re0" or a block with an re0
      key has no replace, so AttributeError. */
  lemma HostnameNotString(data: Fields, system: Fields, host: Value)
    requires Get(data, "system") == Some(Obj(system)) && Get(system, "host-name") == Some(host)
    requires Truthy(host)
    ensures host.Bool? || host.Int? ==> GetHostname(data) == Err(TypeError)
    ensures host.Arr? && Str("re0") in host.items ==> GetHostname(data) == Err(AttributeError)
    ensures host.Obj? && HasKey(host.fields, "re0") ==> GetHostname(data) == Err(AttributeError)
  {
  }

  /** An integer domain-name is written in decimal after the dot. */
  lemma HostnameIntDomain(data: Fields, system: Fields, h: string, n: int)
    requires Get(data, "system") == Some(Obj(system))
    requires Get(system, "host-name") == Some(Str(h)) && h != "" && !Strs.Contains(h, "re0")
    requires Get(system, "domain-name") == Some(Int(n)) && n != 0
    ensures GetHostname(data) == Ok(Some(h + "." + Strs.IntToStr(n)))
  {
  }

  /** The system block's own host-name wins, followed by "." and the
      domain-name when there is one. */
  lemma HostnameFromSystem(data: Fields, system: Fields, h: string, domain: Option<string>)
    requires Get(data, "system") == Some(Obj(system))
    requires Get(system, "host-name") == Some(Str(h)) && h != "" && !Strs.Contains(h, "re0")
    requires domain.None? ==> !HasKey(system, "domain-name")
    requires domain.Some? ==> Get(system, "domain-name") == Some(Str(domain.value)) && domain.value != ""
    ensures GetHostname(data) == Ok(Some(if domain.Some? then h + "." + domain.value else h))
  {
  }

  /** Without a host-name in the system block the one under
      groups.re0.system is used. */
  lemma HostnameFromGroups(data: Fields, system: Fields, groups: Fields, re0: Fields, sys0: Fields, h: string)
    requires Get(data, "system") == Some(Obj(system))
    requires !HasKey(system, "host-name") && !HasKey(system, "domain-name")
    requires Get(data, "groups") == Some(Obj(groups)) && Get(groups, "re0") == Some(Obj(re0))
    requires Get(re0, "system") == Some(Obj(sys0)) && Get(sys0, "host-name") == Some(Str(h))
    requires h != "" && !Strs.Contains(h, "re0")
    ensures GetHostname(data) == Ok(Some(h))
  {
  }

  /** Without either host-name there is no name. */
  lemma HostnameMissing(data: Fields, system: Fields)
    requires Get(data, "system") == Some(Obj(system)) && !HasKey(system, "host-name")
    requires !HasKey(data, "groups")
    ensures GetHostname(data) == Ok(None)
  {
  }

  /** The routing-engine suffix "-re0" goes: for a name h that does not
      itself contain "-re0", "h-re0" becomes "h". */
  lemma HostnameRe0(h: string)
    requires !Strs.Contains(h, "-re0")
    ensures HostnameOf(h + "-re0", Null) == Ok(h)
  {
    var t := h + "-re0";
    assert Strs.OccursAt(t, "re0", |h| + 1);
    Strs.ContainsAt(t, "re0");
    assert t == h + "-re0" + "";
    Strs.ReplaceAfterAbsent(h, "-re0", "", "");
    assert h + "" + "" == h;
  }

  // ---------------------------------------------------------------------
  // is_juniper

  /** is_juniper(conf): True when one of the first six lines starts with
      "version", False when a seventh line comes first, None when the
      lines run out. */
  method IsJuniper(conf: seq<string>) returns (r: Option<bool>)
    ensures r == Sniff.Sniffed(conf, "version")
  {
    r := Sniff.SniffLines(conf, "version");
  }

  /** The text of a tree whose first entry is its version is recognised as
      a Junos configuration. */
  lemma RenderIsJuniper(f: Fields, v: string)
    requires f != [] && f[0] == ("version", Str(v))
    ensures Sniff.Sniffed(Render(f), "version") == Some(true)
  {
    var line := "version" + " \"" + v + "\";";
    assert Render(f)[0] == line;
    assert line[..7] == "version";
    assert Strs.StartsWith(Render(f)[0], "version");
  }
}
