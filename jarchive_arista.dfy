/** jarchive/parsers/arista.py: the parser of Arista EOS configuration text
    ("hostname h", "interface X" blocks closed by "!", ...), the file
    sniffer, and the host name of a parsed configuration.  As in the
    Junos parser, the lines come from one iterator shared by the nested
    calls; here the iterator is the sequence of lines it still holds. */
module JarchiveArista {
  import opened Py
  import opened Json
  import Strs
  import Sniff

  // ---------------------------------------------------------------------
  // parse

  /** What one line of the configuration is to parse, after strip(). */
  datatype LineKind =
    | Bang                          // exactly "!": ends a nested block
    | Skip                          // a comment, "end" or a line no test matches
    | Block(key: string, name: string)  // "vlan X" / "interface X": a nested block under key, X
    | Set(key: string, val: string)     // a setting stored as a string
    | Bad                           // an unpacking of the wrong arity: ValueError

  /** A string that starts with a non-whitespace character has a first
      token. */
  lemma SplitNonEmpty(s: string)
    requires s != [] && !Strs.IsSpace(s[0])
    ensures Strs.Split(s) != []
  {
  }

  /** tline.split()[-1] on a line that starts with a keyword. */
  function LastToken(tline: string): string
    requires tline != [] && !Strs.IsSpace(tline[0])
  {
    SplitNonEmpty(tline);
    var parts := Strs.Split(tline);
    parts[|parts| - 1]
  }

  /** The tests of the loop body, in their order; "!" is told apart from
      other comments because only a nested call stops at it. */
  function Classify(line: string): LineKind {
    ClassifyStripped(Strs.Strip(line))
  }

  /** The tests on tline = line.strip(). */
  function ClassifyStripped(tline: string): LineKind {
    if tline == "!" then Bang
    else if Strs.StartsWith(tline, "!") || tline == "end" then Skip
    else if Strs.StartsWith(tline, "vlan") || Strs.StartsWith(tline, "interface") then
      var parts := Strs.Split(tline);
      if |parts| != 2 then Bad else Block(parts[0] + "s", parts[1])
    else if Strs.StartsWith(tline, "hostname") then Set("hostname", LastToken(tline))
    else if Strs.StartsWith(tline, "ip domain-name") then Set("domain-name", LastToken(tline))
    else if Strs.StartsWith(tline, "ip address") then Set("ip-address", LastToken(tline))
    else if Strs.StartsWith(tline, "description") || Strs.StartsWith(tline, "name")
         || Strs.StartsWith(tline, "mlag") then
      var parts := Strs.SplitOnce(tline, " ");
      if |parts| == 1 then Bad
      else Set(parts[0], if Strs.StartsWith(parts[1], "\"") then Strs.Inner(parts[1]) else parts[1])
    else Skip
  }

  /** The lines as parse sees them, one kind per line. */
  function Kinds(lines: seq<string>): (r: seq<LineKind>)
    ensures |r| == |lines|
  {
    if lines == [] then [] else [Classify(lines[0])] + Kinds(lines[1..])
  }

  /** data, with an empty dict under key unless key is already there. */
  function Opened(data: Fields, key: string): Fields {
    if HasKey(data, key) then data else Put(data, key, Obj([]))
  }

  /** The loop of parse(conf, recursive) over the kinds of the lines the
      iterator has left, with the dict built so far: the dict and the lines
      still left, or the exception raised. */
  function ParseFrom(ks: seq<LineKind>, recursive: bool, data: Fields): (r: Result<(Fields, seq<LineKind>)>)
    ensures r.Ok? ==> |r.value.1| <= |ks|
    decreases |ks|
  {
    if ks == [] then Ok((data, []))
    else
      match ks[0]
      case Bang =>
        if recursive then Ok((data, ks[1..])) else ParseFrom(ks[1..], recursive, data)
      case Skip => ParseFrom(ks[1..], recursive, data)
      case Bad => Err(ValueError)
      case Set(key, val) => ParseFrom(ks[1..], recursive, Put(data, key, Str(val)))
      case Block(key, name) =>
        var d1 := Opened(data, key);
        var res := ParseFrom(ks[1..], true, []);
        if res.Err? then Err(res.error)
        else
          var group := GetDefault(d1, key, Null);
          if !group.Obj? then Err(TypeError)
          else ParseFrom(res.value.1, recursive, Put(d1, key, Obj(Put(group.fields, name, Obj(res.value.0)))))
  }

  /** parse(conf) on a whole configuration. */
  function Parse(lines: seq<string>): Result<Fields> {
    var r :- ParseFrom(Kinds(lines), false, []);
    Ok(r.0)
  }

  /** The outcome of a call as the method reports it, over the kinds. */
  function AsKinds(res: Result<(Fields, seq<string>)>): Result<(Fields, seq<LineKind>)> {
    match res
    case Ok((data, left)) => Ok((data, Kinds(left)))
    case Err(e) => Err(e)
  }

  /** parse(conf, recursive), conf being an iterator over lines: a loop
      that takes one line at a time, fills data in place and recurses into
      each vlan or interface block, which takes its lines from the same
      iterator.  The lines the iterator still holds come back with data. */
  method ParseBlock(conf: seq<string>, recursive: bool) returns (res: Result<(Fields, seq<string>)>)
    ensures res.Ok? ==> |res.value.1| <= |conf|
    ensures ParseFrom(Kinds(conf), recursive, []) == AsKinds(res)
    decreases |conf|
  {
    var data := [];
    var rest := conf;
    while rest != []
      invariant |rest| <= |conf|
      invariant ParseFrom(Kinds(conf), recursive, []) == ParseFrom(Kinds(rest), recursive, data)
      decreases |rest|
    {
      var line := rest[0];
      ghost var before := rest;
      rest := rest[1..];
      var kind := Classify(line);
      assert Kinds(before) == [kind] + Kinds(rest);
      match kind {
        case Bang =>
          BangEndsBlock(Kinds(rest), recursive, data);
          if recursive {
            return Ok((data, rest));
          }
        case Skip =>
          StepHead(kind, Kinds(rest));
        case Bad =>
          BadFails(Kinds(rest), recursive, data);
          res := Err(ValueError);
          assert AsKinds(res) == Err(ValueError);
          return;
        case Set(key, val) =>
          SetStores(key, val, Kinds(rest), recursive, data);
          data := Put(data, key, Str(val));
        case Block(key, name) =>
          ghost var data0 := data;
          if !HasKey(data, key) {
            data := Put(data, key, Obj([]));
          }
          assert data == Opened(data0, key);
          var sub := ParseBlock(rest, true);
          if sub.Err? {
            BlockFails(key, name, Kinds(rest), recursive, data0);
            return Err(sub.error);
          }
          BlockStep(key, name, Kinds(rest), recursive, data0, sub.value.0, Kinds(sub.value.1));
          var group := GetDefault(data, key, Null);
          if !group.Obj? {
            return Err(TypeError);
          }
          data := Put(data, key, Obj(Put(group.fields, name, Obj(sub.value.0))));
          rest := sub.value.1;
      }
    }
    return Ok((data, []));
  }

  /** The loop on the first line of [e] + rest. */
  lemma StepHead(e: LineKind, rest: seq<LineKind>)
    ensures ([e] + rest)[0] == e && ([e] + rest)[1..] == rest
  {
  }

  // ---------------------------------------------------------------------
  // what each kind of line does

  /** "!" ends a nested block, leaving the lines after it to the caller;
      at the top level it is a comment like any other. */
  lemma {:induction false} BangEndsBlock(rest: seq<LineKind>, recursive: bool, data: Fields)
    ensures ParseFrom([Bang] + rest, recursive, data) ==
            if recursive then Ok((data, rest)) else ParseFrom(rest, recursive, data)
  {
    StepHead(Bang, rest);
  }

  /** A setting stores its string under its key, overwriting an earlier one
      in place. */
  lemma {:induction false} SetStores(key: string, val: string, rest: seq<LineKind>, recursive: bool, data: Fields)
    ensures ParseFrom([Set(key, val)] + rest, recursive, data) ==
            ParseFrom(rest, recursive, Put(data, key, Str(val)))
    ensures Get(Put(data, key, Str(val)), key) == Some(Str(val))
  {
    StepHead(Set(key, val), rest);
    PutGet(data, key, Str(val));
  }

  /** A block line parses the lines after it as a nested block and stores
      the result under data[key][name]; the group dict is created empty
      when key is new, and any other entry of it is kept. */
  lemma {:induction false} BlockStores(key: string, name: string, body: seq<LineKind>, recursive: bool,
                                       data: Fields, sub: Fields, rest: seq<LineKind>, group: Fields)
    requires ParseFrom(body, true, []) == Ok((sub, rest))
    requires if HasKey(data, key) then Get(data, key) == Some(Obj(group)) else group == []
    ensures ParseFrom([Block(key, name)] + body, recursive, data) ==
            ParseFrom(rest, recursive, Put(data, key, Obj(Put(group, name, Obj(sub)))))
    ensures Get(Put(group, name, Obj(sub)), name) == Some(Obj(sub))
    ensures forall n :: n != name ==> Get(Put(group, name, Obj(sub)), n) == Get(group, n)
  {
    StepHead(Block(key, name), body);
    PutGet(data, key, Obj([]));
    PutGet(group, name, Obj(sub));
    var d1 := Opened(data, key);
    assert GetDefault(d1, key, Null) == Obj(group);
    if !HasKey(data, key) {
      assert Put(Put(data, key, Obj([])), key, Obj(Put(group, name, Obj(sub)))) ==
             Put(data, key, Obj(Put(group, name, Obj(sub)))) by {
        PutPut(data, key, Obj([]), Obj(Put(group, name, Obj(sub))));
      }
    }
  }

  /** A block line of the wrong arity raises ValueError. */
  lemma {:induction false} BadFails(rest: seq<LineKind>, recursive: bool, data: Fields)
    ensures ParseFrom([Bad] + rest, recursive, data) == Err(ValueError)
  {
    StepHead(Bad, rest);
  }

  /** A block line whose nested block parses: the group under key, which
      must be a dict, gets the nested block under name. */
  lemma {:induction false} BlockStep(key: string, name: string, body: seq<LineKind>, recursive: bool,
                                     data: Fields, sub: Fields, rest: seq<LineKind>)
    requires ParseFrom(body, true, []) == Ok((sub, rest))
    ensures var d1 := Opened(data, key);
            var group := GetDefault(d1, key, Null);
            ParseFrom([Block(key, name)] + body, recursive, data) ==
            if !group.Obj? then Err(TypeError)
            else ParseFrom(rest, recursive, Put(d1, key, Obj(Put(group.fields, name, Obj(sub)))))
  {
    StepHead(Block(key, name), body);
  }

  /** A ValueError or TypeError inside a nested block ends the whole parse
      with it. */
  lemma {:induction false} BlockFails(key: string, name: string, body: seq<LineKind>, recursive: bool, data: Fields)
    requires ParseFrom(body, true, []).Err?
    ensures ParseFrom([Block(key, name)] + body, recursive, data) == Err(ParseFrom(body, true, []).error)
  {
    StepHead(Block(key, name), body);
  }

  // ---------------------------------------------------------------------
  // how lines are read

  /** A single non-empty token. */
  predicate Token(s: string) {
    s != [] && Strs.NoSpace(s)
  }

  /** A keyword, a space and a token make a line that is its own
      strip(). */
  lemma StrippedLine(p: string, w: string)
    requires p != [] && !Strs.IsSpace(p[0]) && Token(w)
    ensures var t := p + " " + w; t != [] && !Strs.IsSpace(t[0]) && Strs.Strip(t) == t
  {
    var t := p + " " + w;
    assert t[|t| - 1] == w[|w| - 1];
    Strs.StripId(t);
  }

  /** Such a line's split()[-1] is the token. */
  lemma SettingWords(p: string, w: string)
    requires p != [] && !Strs.IsSpace(p[0]) && Token(w)
    ensures var t := p + " " + w;
            t != [] && !Strs.IsSpace(t[0]) && Strs.Strip(t) == t && LastToken(t) == w
  {
    StrippedLine(p, w);
    Strs.SplitSnoc(p, w);
  }

  /** The tokens of a two-word line. */
  lemma TwoTokens(p: string, x: string)
    requires Token(p) && Token(x)
    ensures Strs.Split(p + " " + x) == [p, x]
  {
    Strs.SplitOne(p);
    Strs.SplitSnoc(p, x);
  }

  /** The tokens of a three-word line. */
  lemma ThreeTokens(p: string, x: string, y: string)
    requires Token(p) && Token(x) && Token(y)
    ensures Strs.Split(p + " " + x + " " + y) == [p, x, y]
  {
    TwoTokens(p, x);
    Strs.SplitSnoc(p + " " + x, y);
  }

  /** "hostname h" stores h under "hostname". */
  lemma HostnameLine(h: string)
    requires Token(h)
    ensures Classify("hostname " + h) == Set("hostname", h)
  {
    var t := "hostname " + h;
    KeywordsSpaced();
    SettingWords("hostname", h);
    Strs.PrefixOf2("hostname", " ", h);
    StrippedKind(t);
    HostnameRule(t);
  }

  /** "ip domain-name d" stores d under "domain-name". */
  lemma DomainLine(d: string)
    requires Token(d)
    ensures Classify("ip domain-name " + d) == Set("domain-name", d)
  {
    var t := "ip domain-name " + d;
    KeywordsSpaced();
    SettingWords("ip domain-name", d);
    Strs.PrefixOf2("ip domain-name", " ", d);
    StrippedKind(t);
    DomainRule(t);
  }

  /** "ip address a" stores a under "ip-address". */
  lemma AddressLine(a: string)
    requires Token(a)
    ensures Classify("ip address " + a) == Set("ip-address", a)
  {
    var t := "ip address " + a;
    KeywordsSpaced();
    SettingWords("ip address", a);
    Strs.PrefixOf2("ip address", " ", a);
    StrippedKind(t);
    AddressRule(t);
  }

  /** Each keyword written with its trailing space is the keyword followed
      by " ". */
  lemma KeywordsSpaced()
    ensures "hostname " == "hostname" + " " && "ip domain-name " == "ip domain-name" + " "
    ensures "ip address " == "ip address" + " " && "interface " == "interface" + " "
    ensures "vlan " == "vlan" + " " && "description " == "description" + " "
  {
  }

  /** The hostname branch of the tests. */
  lemma HostnameRule(t: string)
    requires Strs.StartsWith(t, "hostname")
    ensures t != [] && !Strs.IsSpace(t[0]) && ClassifyStripped(t) == Set("hostname", LastToken(t))
  {
    assert t[..8][0] == 'h';
    Strs.NotPrefixAt(t, "!", 0);
    Strs.NotPrefixAt(t, "vlan", 0);
    Strs.NotPrefixAt(t, "interface", 0);
  }

  /** The ip domain-name branch of the tests. */
  lemma DomainRule(t: string)
    requires Strs.StartsWith(t, "ip domain-name")
    ensures t != [] && !Strs.IsSpace(t[0]) && ClassifyStripped(t) == Set("domain-name", LastToken(t))
  {
    assert t[..14][0] == 'i' && t[..14][1] == 'p';
    Strs.NotPrefixAt(t, "!", 0);
    Strs.NotPrefixAt(t, "vlan", 0);
    Strs.NotPrefixAt(t, "interface", 1);
    Strs.NotPrefixAt(t, "hostname", 0);
  }

  /** The ip address branch of the tests. */
  lemma AddressRule(t: string)
    requires Strs.StartsWith(t, "ip address")
    ensures t != [] && !Strs.IsSpace(t[0]) && ClassifyStripped(t) == Set("ip-address", LastToken(t))
  {
    assert t[..10][0] == 'i' && t[..10][1] == 'p' && t[..10][3] == 'a';
    Strs.NotPrefixAt(t, "!", 0);
    Strs.NotPrefixAt(t, "vlan", 0);
    Strs.NotPrefixAt(t, "interface", 1);
    Strs.NotPrefixAt(t, "hostname", 0);
    Strs.NotPrefixAt(t, "ip domain-name", 3);
  }

  /** "interface X" opens a block stored under "interfaces", then X. */
  lemma InterfaceLine(x: string)
    requires Token(x)
    ensures Classify("interface " + x) == Block("interfaces", x)
  {
    var t := "interface " + x;
    KeywordsSpaced();
    StrippedLine("interface", x);
    Strs.PrefixOf2("interface", " ", x);
    TwoTokens("interface", x);
    StrippedKind(t);
    BlockRule(t, ["interface", x]);
  }

  /** "vlan X" opens a block stored under "vlans", then X. */
  lemma VlanLine(x: string)
    requires Token(x)
    ensures Classify("vlan " + x) == Block("vlans", x)
  {
    var t := "vlan " + x;
    KeywordsSpaced();
    StrippedLine("vlan", x);
    Strs.PrefixOf2("vlan", " ", x);
    TwoTokens("vlan", x);
    StrippedKind(t);
    BlockRule(t, ["vlan", x]);
  }

  /** An interface line with a third token raises ValueError. */
  lemma InterfaceLineTooLong(x: string, y: string)
    requires Token(x) && Token(y)
    ensures Classify("interface " + x + " " + y) == Bad
  {
    var t := "interface " + x + " " + y;
    KeywordsSpaced();
    StrippedLine("interface" + " " + x, y);
    Strs.PrefixOf2("interface", " ", x);
    Strs.PrefixOf2("interface" + " " + x, " ", y);
    Strs.PrefixTrans(t, "interface" + " " + x, "interface");
    ThreeTokens("interface", x, y);
    StrippedKind(t);
    BlockRule(t, ["interface", x, y]);
  }

  /** The block branch of the tests, on a line that split() cuts into
      parts. */
  lemma BlockRule(t: string, parts: seq<string>)
    requires Strs.StartsWith(t, "vlan") || Strs.StartsWith(t, "interface")
    requires Strs.Split(t) == parts
    ensures ClassifyStripped(t) == if |parts| == 2 then Block(parts[0] + "s", parts[1]) else Bad
  {
    assert t[0] == 'v' || t[0] == 'i';
    Strs.NotPrefixAt(t, "!", 0);
  }

  /** "description \"v\"" stores v, quotes dropped, under "description". */
  lemma DescriptionLine(v: string)
    ensures Classify("description " + ("\"" + v + "\"")) == Set("description", v)
  {
    var q := "\"" + v + "\"";
    var t := "description " + q;
    KeywordsSpaced();
    DescriptionWord();
    QuotedLine("description", v);
    Strs.PrefixOf2("description", " ", q);
    StrippedKind(t);
    DescriptionRule(t, "description", q);
  }

  lemma DescriptionWord()
    ensures "description" != [] && !Strs.IsSpace("description"[0])
    ensures forall i :: 0 <= i < |"description"| ==> "description"[i] != ' '
  {
  }

  /** A line that is its own strip() is classified as it stands. */
  lemma StrippedKind(t: string)
    requires Strs.Strip(t) == t
    ensures Classify(t) == ClassifyStripped(t)
  {
  }

  /** The description branch of the tests: split(" ", 1) gives the key
      and the value, and a value in quotes loses them. */
  lemma DescriptionRule(t: string, p: string, q: string)
    requires Strs.StartsWith(t, "description")
    requires Strs.SplitOnce(t, " ") == [p, q]
    ensures ClassifyStripped(t) == Set(p, if Strs.StartsWith(q, "\"") then Strs.Inner(q) else q)
  {
    assert t[..11][0] == 'd';
    Strs.NotPrefixAt(t, "!", 0);
    Strs.NotPrefixAt(t, "vlan", 0);
    Strs.NotPrefixAt(t, "interface", 0);
    Strs.NotPrefixAt(t, "hostname", 0);
    Strs.NotPrefixAt(t, "ip domain-name", 0);
    Strs.NotPrefixAt(t, "ip address", 0);
  }

  /** A keyword followed by a space and a quoted value: the line is its
      own strip(), split(" ", 1) cuts after the keyword, and the quotes
      come off the value. */
  lemma QuotedLine(p: string, v: string)
    requires p != [] && !Strs.IsSpace(p[0]) && forall i :: 0 <= i < |p| ==> p[i] != ' '
    ensures var q := "\"" + v + "\""; var t := p + " " + q;
            Strs.Strip(t) == t && Strs.SplitOnce(t, " ") == [p, q]
            && Strs.StartsWith(q, "\"") && Strs.Inner(q) == v
  {
    var q := "\"" + v + "\"";
    var t := p + " " + q;
    assert t[0] == p[0] && t[|t| - 1] == '"';
    Strs.StripId(t);
    assert t == p + [' '] + q;
    Strs.SplitOnceAfter(p, ' ', q);
    Strs.PrefixOf("\"", v + "\"");
    assert q == "\"" + (v + "\"");
  }

  /** "!" is the kind that ends a block. */
  lemma BangLine()
    ensures Classify("!") == Bang
  {
    Strs.StripId("!");
  }

  /** The kinds of a line followed by more lines. */
  lemma KindsCons(line: string, rest: seq<string>)
    ensures Kinds([line] + rest) == [Classify(line)] + Kinds(rest)
  {
    assert ([line] + rest)[1..] == rest;
  }


  // ---------------------------------------------------------------------
  // a whole configuration

  /** A small configuration, given by the kinds of its lines ("hostname
      h", "ip domain-name d", "interface X", "description \"v\"", "!" have
      these kinds by the lemmas above): the settings land at the top level,
      the interface block under "interfaces", X, and the host name is built
      from both settings. */
  lemma ExampleParse(h: string, d: string, x: string, v: string)
    requires d != ""
    ensures var ks := [Set("hostname", h), Set("domain-name", d), Block("interfaces", x),
                       Set("description", v), Bang];
            var data := [("hostname", Str(h)), ("domain-name", Str(d)),
                         ("interfaces", Obj([(x, Obj([("description", Str(v))]))]))];
            ParseFrom(ks, false, []) == Ok((data, [])) && GetHostname(data) == Ok(h + "." + d)
  {
    var d2 := [("hostname", Str(h)), ("domain-name", Str(d))];
    var data := d2 + [("interfaces", Obj([(x, Obj([("description", Str(v))]))]))];
    var ks2 := [Block("interfaces", x), Set("description", v), Bang];
    ExampleSettings(h, d, ks2);
    assert d2[0].0 != "interfaces" && d2[1].0 != "interfaces";
    ExampleBlock(x, v, d2);
    assert [Set("hostname", h), Set("domain-name", d)] + ks2 ==
           [Set("hostname", h), Set("domain-name", d), Block("interfaces", x), Set("description", v), Bang];
    assert data == [("hostname", Str(h)), ("domain-name", Str(d)),
                    ("interfaces", Obj([(x, Obj([("description", Str(v))]))]))];
    ExampleHostname(h, d, data);
  }

  /** The hostname and domain-name settings, read into an empty dict. */
  lemma ExampleSettings(h: string, d: string, rest: seq<LineKind>)
    ensures ParseFrom([Set("hostname", h), Set("domain-name", d)] + rest, false, []) ==
            ParseFrom(rest, false, [("hostname", Str(h)), ("domain-name", Str(d))])
  {
    var d1 := Put([], "hostname", Str(h));
    assert d1 == [("hostname", Str(h))];
    var ks1 := [Set("domain-name", d)] + rest;
    calc {
      ParseFrom([Set("hostname", h), Set("domain-name", d)] + rest, false, []);
      { assert [Set("hostname", h), Set("domain-name", d)] + rest == [Set("hostname", h)] + ks1; }
      ParseFrom([Set("hostname", h)] + ks1, false, []);
      { SetStores("hostname", h, ks1, false, []); }
      ParseFrom(ks1, false, d1);
      { SetStores("domain-name", d, rest, false, d1); }
      ParseFrom(rest, false, Put(d1, "domain-name", Str(d)));
      { assert d1[0].0 != "domain-name";
        PutFresh(d1, "domain-name", Str(d));
        assert d1 + [("domain-name", Str(d))] == [("hostname", Str(h)), ("domain-name", Str(d))]; }
      ParseFrom(rest, false, [("hostname", Str(h)), ("domain-name", Str(d))]);
    }
  }

  /** An interface block with one description, read into a dict without
      interfaces. */
  lemma ExampleBlock(x: string, v: string, data: Fields)
    requires !HasKey(data, "interfaces")
    ensures ParseFrom([Block("interfaces", x), Set("description", v), Bang], false, data) ==
            Ok((data + [("interfaces", Obj([(x, Obj([("description", Str(v))]))]))], []))
  {
    var sub := [("description", Str(v))];
    var body := [Set("description", v), Bang];
    SetStores("description", v, [Bang], true, []);
    assert Put([], "description", Str(v)) == sub;
    BangEndsBlock([], true, sub);
    assert ParseFrom(body, true, []) == Ok((sub, []));
    BlockStores("interfaces", x, body, false, data, sub, [], []);
    assert Put([], x, Obj(sub)) == [(x, Obj(sub))];
    PutFresh(data, "interfaces", Obj([(x, Obj(sub))]));
    assert [Block("interfaces", x)] + body == [Block("interfaces", x), Set("description", v), Bang];
  }

  lemma ExampleHostname(h: string, d: string, data: Fields)
    requires d != "" && |data| >= 2 && data[0] == ("hostname", Str(h)) && data[1] == ("domain-name", Str(d))
    ensures GetHostname(data) == Ok(h + "." + d)
  {
    IndexOfAt(data, "hostname", 0);
    assert data[0].0 != "domain-name";
    IndexOfAt(data, "domain-name", 1);
    HostnameQualified(data, h, d);
  }

  // ---------------------------------------------------------------------
  // get_hostname and the sniffer

  /** get_hostname(data): data["hostname"], followed by "." and
      data["domain-name"] when that is truthy; both keys must be there. */
  function GetHostname(data: Fields): (r: Result<string>)
    ensures !HasKey(data, "hostname") ==> r == Err(KeyError("hostname"))
    ensures HasKey(data, "hostname") && !HasKey(data, "domain-name") ==> r == Err(KeyError("domain-name"))
    ensures r.Ok? ==> Get(data, "hostname") == Some(Str(r.value)) || Truthy(GetDefault(data, "domain-name", Null))
  {
    if !HasKey(data, "hostname") then Err(KeyError("hostname"))
    else if !HasKey(data, "domain-name") then Err(KeyError("domain-name"))
    else
      var host := GetDefault(data, "hostname", Null);
      var domain := GetDefault(data, "domain-name", Null);
      if !Truthy(domain) then
        if host.Str? then Ok(host.s) else Err(Unsupported)
      else if host.Str? && domain.Str? then Ok(host.s + "." + domain.s)
      else Err(Unsupported)
  }

  /** With a domain name the host name is qualified by it. */
  lemma HostnameQualified(data: Fields, h: string, d: string)
    requires Get(data, "hostname") == Some(Str(h))
    requires Get(data, "domain-name") == Some(Str(d)) && d != ""
    ensures GetHostname(data) == Ok(h + "." + d)
  {
  }

  /** An empty domain name leaves the host name bare. */
  lemma HostnameBare(data: Fields, h: string)
    requires Get(data, "hostname") == Some(Str(h))
    requires Get(data, "domain-name") == Some(Str(""))
    ensures GetHostname(data) == Ok(h)
  {
  }

  /** is_ariasta(conf): a comment line "!" among the first six lines. */
  method IsArista(conf: seq<string>) returns (r: Option<bool>)
    ensures r == Sniff.Sniffed(conf, "!")
  {
    r := Sniff.SniffLines(conf, "!");
  }

  /** A configuration that opens with a comment line is recognised as an
      Arista one, whatever follows. */
  lemma CommentIsArista(conf: seq<string>, c: string)
    requires conf != [] && Strs.StartsWith(conf[0], "!")
    ensures Sniff.Sniffed(conf, "!") == Some(true)
  {
  }
}
