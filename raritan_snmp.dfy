/** raritan_snmp: the outlet names and descriptions of a Raritan PDU, read
    from the text of an snmpwalk over the PDU's outlet-label table, and the
    NERDS document built from them. */
module RaritanSnmp {
  import opened Py
  import opened Json
  import opened Strs
  import RemoteSource
  import Nerds

  // ---------------------------------------------------------------------
  // RARITAN_PORTS_RE

  /** SNMP_RARITAN_PORTS, the OID prefix the regex is built from. */
  const Oid: string := "SNMPv2-SMI::enterprises.13742.6.3.5.3.1.3.1"

  /** One character of the OID inside the compiled regex: the dots are not
      escaped, so each one is the `.` metacharacter, which matches any
      character but a newline. */
  predicate OidCharMatches(p: char, c: char) {
    if p == '.' then c != '\n' else c == p
  }

  /** pre is matched by the OID part of the regex. */
  predicate OidMatches(pre: string) {
    |pre| == |Oid| && forall j :: 0 <= j < |Oid| ==> OidCharMatches(Oid[j], pre[j])
  }

  /** `\d`, read as the ASCII digits. */
  predicate IsDigit(c: char) {
    '0' <= c <= '9'
  }

  predicate AllDigits(s: string) {
    forall j :: 0 <= j < |s| ==> IsDigit(s[j])
  }

  predicate NoQuote(s: string) {
    forall j :: 0 <= j < |s| ==> s[j] != '"'
  }

  /** One port: the two named groups of a match. */
  datatype Port = Port(name: string, description: string)

  /** The groups a match can yield: a non-empty digit run and a non-empty
      quote-free description. */
  predicate WellFormed(p: Port) {
    |p.name| > 0 && AllDigits(p.name) && |p.description| > 0 && NoQuote(p.description)
  }

  /** The optional space ` ?`, taken or not. */
  function Sp(taken: bool): string {
    if taken then " " else ""
  }

  /** What ` ?"([^"]+)"` matches: optional space, the quoted description. */
  function QuotedText(d: string, s3: bool): string {
    Sp(s3) + ("\"" + (d + "\""))
  }

  /** What ` ?STRING: ?"([^"]+)"` matches after the `=`. */
  function StringText(d: string, s2: bool, s3: bool): string {
    Sp(s2) + ("STRING:" + QuotedText(d, s3))
  }

  /** What `(\d+) ?= ?STRING: ?"([^"]+)"` matches after `OID\.`. */
  function PortText(p: Port, s1: bool, s2: bool, s3: bool): string {
    p.name + (Sp(s1) + ("=" + StringText(p.description, s2, s3)))
  }

  /** A text the whole regex matches: pre for the OID, then an escaped dot,
      then the port and its description. */
  function MatchText(pre: string, p: Port, s1: bool, s2: bool, s3: bool): string {
    pre + ("." + PortText(p, s1, s2, s3))
  }

  /** The regex matches at the start of t with groups p: some way of taking
      the optional spaces spells out a prefix of t. */
  predicate Matches(t: string, p: Port) {
    WellFormed(p) && |Oid| <= |t| && OidMatches(t[..|Oid|])
    && exists s1: bool, s2: bool, s3: bool :: StartsWith(t, MatchText(t[..|Oid|], p, s1, s2, s3))
  }

  // ---------------------------------------------------------------------
  // matching, stage by stage, as the regex engine commits to each atom

  /** Length of the run of characters at the start of s that satisfy the
      class; `+` is greedy. */
  function DigitRun(s: string): (n: nat)
    ensures n <= |s| && AllDigits(s[..n])
    ensures n < |s| ==> !IsDigit(s[n])
  {
    if s == [] || !IsDigit(s[0]) then 0
    else
      var n := DigitRun(s[1..]);
      assert s[..1 + n] == [s[0]] + s[1..][..n];
      1 + n
  }

  function NonQuoteRun(s: string): (n: nat)
    ensures n <= |s| && NoQuote(s[..n])
    ensures n < |s| ==> s[n] == '"'
  {
    if s == [] || s[0] == '"' then 0
    else
      var n := NonQuoteRun(s[1..]);
      assert s[..1 + n] == [s[0]] + s[1..][..n];
      1 + n
  }

  /** ` ?`: drop one leading space if there is one. */
  function SkipSpace(s: string): (r: string)
    ensures |r| <= |s|
  {
    if s != [] && s[0] == ' ' then s[1..] else s
  }

  /** `([^"]+)"` on the text after the opening quote. */
  function Description(y: string): Option<string> {
    var q := NonQuoteRun(y);
    if q == 0 || q == |y| then None else Some(y[..q])
  }

  /** ` ?STRING: ?"([^"]+)"` on the text after the `=`. */
  function StringPart(w: string): Option<string> {
    var w1 := SkipSpace(w);
    if !StartsWith(w1, "STRING:") then None
    else
      var x := SkipSpace(w1[7..]);
      if !StartsWith(x, "\"") then None else Description(x[1..])
  }

  /** `(?P<port>\d+) ?= ?STRING: ?"(?P<description>[^"]+)"` on the text
      after `OID\.`. */
  function PortPart(u: string): Option<Port> {
    var n := DigitRun(u);
    if n == 0 then None
    else
      var v := SkipSpace(u[n..]);
      if !StartsWith(v, "=") then None
      else
        match StringPart(v[1..])
        case None => None
        case Some(d) => Some(Port(u[..n], d))
  }

  /** RARITAN_PORTS_RE.match(t): the match anchored at the start of t. */
  function MatchHere(t: string): Option<Port> {
    if |t| <= |Oid| || !OidMatches(t[..|Oid|]) || t[|Oid|] != '.' then None
    else PortPart(t[|Oid| + 1..])
  }

  /** RARITAN_PORTS_RE.search(line) from position i on: the leftmost
      position where the regex matches. */
  function SearchFrom(line: string, i: nat): Option<Port>
    requires i <= |line|
    decreases |line| - i
  {
    match MatchHere(line[i..])
    case Some(p) => Some(p)
    case None => if i == |line| then None else SearchFrom(line, i + 1)
  }

  function Search(line: string): Option<Port> {
    SearchFrom(line, 0)
  }

  // ---------------------------------------------------------------------
  // the stages against the text the regex matches

  /** t starts with a + b exactly when it starts with a and the rest starts
      with b. */
  lemma StartsWithConcat(t: string, a: string, b: string)
    ensures StartsWith(t, a + b) <==> StartsWith(t, a) && StartsWith(t[|a|..], b)
  {
    if StartsWith(t, a) && StartsWith(t[|a|..], b) {
      assert t[..|a + b|] == t[..|a|] + t[|a|..][..|b|];
    }
    if StartsWith(t, a + b) {
      assert t[..|a|] == (a + b)[..|a|];
      assert t[|a|..][..|b|] == (a + b)[|a|..];
    }
  }

  /** `([^"]+)"` takes exactly the non-empty quote-free text before the
      first quote. */
  lemma DescriptionSpec(y: string, d: string)
    ensures Description(y) == Some(d) <==> |d| > 0 && NoQuote(d) && StartsWith(y, d + "\"")
  {
    var q := NonQuoteRun(y);
    StartsWithConcat(y, d, "\"");
    if |d| > 0 && NoQuote(d) && StartsWith(y, d + "\"") {
      assert y[|d|] == '"';
      assert y[..|d|] == d;
    }
    if Description(y) == Some(d) {
      assert y[q] == '"';
      assert y[q..][..1] == [y[q]];
    }
  }

  /** ` ?` followed by a text that cannot start with a space takes the
      space exactly when there is one. */
  lemma SkipSpaceSpec(s: string, taken: bool, rest: string)
    requires rest != [] && rest[0] != ' ' && StartsWith(s, Sp(taken) + rest)
    ensures SkipSpace(s) == s[|Sp(taken)|..]
  {
    assert s[|Sp(taken)|] == (Sp(taken) + rest)[|Sp(taken)|];
  }

  lemma SkipSpaceTaken(s: string)
    ensures SkipSpace(s) == s[|Sp(s != [] && s[0] == ' ')|..]
    ensures s != [] && s[0] == ' ' ==> StartsWith(s, " ")
  {
    if s != [] && s[0] == ' ' {
      assert s[..1] == " ";
    }
  }

  /** StringPart yields d exactly when some choice of the two optional
      spaces spells ` ?STRING: ?"d"` at the start of w. */
  lemma StringPartSpec(w: string, d: string)
    ensures StringPart(w) == Some(d) <==>
      (|d| > 0 && NoQuote(d) && exists s2: bool, s3: bool :: StartsWith(w, StringText(d, s2, s3)))
  {
    if |d| > 0 && NoQuote(d) && exists s2: bool, s3: bool :: StartsWith(w, StringText(d, s2, s3)) {
      var s2: bool, s3: bool :| StartsWith(w, StringText(d, s2, s3));
      StringFrom(w, d, s2, s3);
    }
    if StringPart(w) == Some(d) {
      StringBack(w, d);
    }
  }

  /** The backward half of StringPartSpec: the spaces StringPart skipped
      are the ones the text spells. */
  lemma StringBack(w: string, d: string)
    requires StringPart(w) == Some(d)
    ensures |d| > 0 && NoQuote(d) && exists s2: bool, s3: bool :: StartsWith(w, StringText(d, s2, s3))
  {
    var w1 := SkipSpace(w);
    var s2 := w != [] && w[0] == ' ';
    SkipSpaceTaken(w);
    var w2 := w1[7..];
    var x := SkipSpace(w2);
    var s3 := w2 != [] && w2[0] == ' ';
    SkipSpaceTaken(w2);
    var quoted := "\"" + (d + "\"");
    assert StartsWith(x, quoted) by {
      DescriptionSpec(x[1..], d);
      StartsWithConcat(x, "\"", d + "\"");
      assert x[..1] == "\"";
    }
    assert StartsWith(w2, QuotedText(d, s3)) by {
      StartsWithConcat(w2, Sp(s3), quoted);
    }
    assert StartsWith(w1, "STRING:" + QuotedText(d, s3)) by {
      StartsWithConcat(w1, "STRING:", QuotedText(d, s3));
    }
    StartsWithConcat(w, Sp(s2), "STRING:" + QuotedText(d, s3));
    assert StartsWith(w, StringText(d, s2, s3));
    DescriptionSpec(x[1..], d);
  }

  /** The forward half of StringPartSpec, for given spaces. */
  lemma StringFrom(w: string, d: string, s2: bool, s3: bool)
    requires |d| > 0 && NoQuote(d) && StartsWith(w, StringText(d, s2, s3))
    ensures StringPart(w) == Some(d)
  {
    StartsWithConcat(w, Sp(s2), "STRING:" + QuotedText(d, s3));
    SkipSpaceSpec(w, s2, "STRING:" + QuotedText(d, s3));
    var w1 := SkipSpace(w);
    StartsWithConcat(w1, "STRING:", QuotedText(d, s3));
    var w2 := w1[7..];
    StartsWithConcat(w2, Sp(s3), "\"" + (d + "\""));
    SkipSpaceSpec(w2, s3, "\"" + (d + "\""));
    var x := SkipSpace(w2);
    StartsWithConcat(x, "\"", d + "\"");
    DescriptionSpec(x[1..], d);
  }

  /** PortPart yields p exactly when some choice of the three optional
      spaces spells the rest of the regex at the start of u. */
  lemma PortPartSpec(u: string, p: Port)
    ensures PortPart(u) == Some(p) <==>
      (WellFormed(p) && exists s1: bool, s2: bool, s3: bool :: StartsWith(u, PortText(p, s1, s2, s3)))
  {
    if WellFormed(p) && exists s1: bool, s2: bool, s3: bool :: StartsWith(u, PortText(p, s1, s2, s3)) {
      var s1: bool, s2: bool, s3: bool :| StartsWith(u, PortText(p, s1, s2, s3));
      PortFrom(u, p, s1, s2, s3);
    }
    if PortPart(u) == Some(p) {
      PortBack(u, p);
    }
  }

  /** The backward half of PortPartSpec: the digit run and the spaces
      PortPart took are the ones the text spells. */
  lemma PortBack(u: string, p: Port)
    requires PortPart(u) == Some(p)
    ensures WellFormed(p) && exists s1: bool, s2: bool, s3: bool :: StartsWith(u, PortText(p, s1, s2, s3))
  {
    var n := DigitRun(u);
    var s1 := u[n..] != [] && u[n..][0] == ' ';
    SkipSpaceTaken(u[n..]);
    var v := SkipSpace(u[n..]);
    var d := p.description;
    StringPartSpec(v[1..], d);
    var s2: bool, s3: bool :| StartsWith(v[1..], StringText(d, s2, s3));
    assert StartsWith(v, "=" + StringText(d, s2, s3)) by {
      StartsWithConcat(v, "=", StringText(d, s2, s3));
      assert v[..1] == "=";
    }
    StartsWithConcat(u[n..], Sp(s1), "=" + StringText(d, s2, s3));
    StartsWithConcat(u, p.name, Sp(s1) + ("=" + StringText(d, s2, s3)));
    assert StartsWith(u, PortText(p, s1, s2, s3));
  }

  /** The forward half of PortPartSpec, for given spaces: the digit run is
      maximal because a space or `=` follows it. */
  lemma PortFrom(u: string, p: Port, s1: bool, s2: bool, s3: bool)
    requires WellFormed(p) && StartsWith(u, PortText(p, s1, s2, s3))
    ensures PortPart(u) == Some(p)
  {
    var tail := "=" + StringText(p.description, s2, s3);
    var rest := Sp(s1) + tail;
    StartsWithConcat(u, p.name, rest);
    var k := |p.name|;
    var after := u[k..];
    assert StartsWith(after, rest);
    DigitRunExact(u, p.name, rest);
    SkipSpaceSpec(after, s1, tail);
    StartsWithConcat(after, Sp(s1), tail);
    var v := SkipSpace(after);
    assert StartsWith(v, tail);
    StartsWithConcat(v, "=", StringText(p.description, s2, s3));
    assert StartsWith(v, "=") by {
      assert v[0] == '=';
    }
    StringFrom(v[1..], p.description, s2, s3);
  }

  /** `\d+` stops at the end of a digit string followed by a text that does
      not start with a digit. */
  lemma DigitRunExact(u: string, name: string, rest: string)
    requires AllDigits(name) && rest != [] && !IsDigit(rest[0])
    requires StartsWith(u, name) && StartsWith(u[|name|..], rest)
    ensures DigitRun(u) == |name|
  {
    var n := DigitRun(u);
    var k := |name|;
    assert u[k] == rest[0];
    assert u[..k] == name;
  }

  /** The anchored match yields p exactly when the regex matches at the
      start of t with groups p: there is one way to match, so the groups
      are determined by the text. */
  lemma MatchHereSpec(t: string, p: Port)
    ensures MatchHere(t) == Some(p) <==> Matches(t, p)
  {
    if |Oid| < |t| {
      var pre := t[..|Oid|];
      forall s1: bool, s2: bool, s3: bool
        ensures StartsWith(t, MatchText(pre, p, s1, s2, s3))
            <==> t[|Oid|] == '.' && StartsWith(t[|Oid| + 1..], PortText(p, s1, s2, s3))
      {
        StartsWithConcat(t, pre, "." + PortText(p, s1, s2, s3));
        StartsWithConcat(t[|Oid|..], ".", PortText(p, s1, s2, s3));
        assert t[|Oid|..][1..] == t[|Oid| + 1..];
        assert StartsWith(t, pre);
        if t[|Oid|] == '.' {
          assert t[|Oid|..][..1] == ".";
        }
      }
      PortPartSpec(t[|Oid| + 1..], p);
    }
  }

  // ---------------------------------------------------------------------
  // search

  /** search() finds the leftmost match: its groups are those of a match at
      some position, and no earlier position matches at all. */
  lemma {:induction false} SearchFromSpec(line: string, i: nat)
    requires i <= |line|
    ensures SearchFrom(line, i).None? ==>
      forall j, p :: i <= j <= |line| ==> !Matches(line[j..], p)
    ensures SearchFrom(line, i).Some? ==>
      exists j :: i <= j <= |line| && Matches(line[j..], SearchFrom(line, i).value)
        && forall k, q :: i <= k < j ==> !Matches(line[k..], q)
    decreases |line| - i
  {
    forall p {
      MatchHereSpec(line[i..], p);
    }
    if MatchHere(line[i..]).None? && i < |line| {
      SearchFromSpec(line, i + 1);
      if SearchFrom(line, i).Some? {
        var j :| i + 1 <= j <= |line| && Matches(line[j..], SearchFrom(line, i).value)
          && forall k, q :: i + 1 <= k < j ==> !Matches(line[k..], q);
        assert forall k, q :: i <= k < j ==> !Matches(line[k..], q);
      }
    } else if MatchHere(line[i..]).Some? {
      assert Matches(line[i..], SearchFrom(line, i).value);
    }
  }

  lemma SearchSpec(line: string)
    ensures Search(line).None? <==> forall j, p :: 0 <= j <= |line| ==> !Matches(line[j..], p)
    ensures Search(line).Some? ==>
      exists j :: 0 <= j <= |line| && Matches(line[j..], Search(line).value)
        && forall k, q :: 0 <= k < j ==> !Matches(line[k..], q)
  {
    SearchFromSpec(line, 0);
  }

  /** A line that is exactly an snmpwalk output line, with or without the
      optional spaces, yields its port. */
  lemma RenderedLine(p: Port, s1: bool, s2: bool, s3: bool)
    requires WellFormed(p)
    ensures Search(MatchText(Oid, p, s1, s2, s3)) == Some(p)
  {
    var t := MatchText(Oid, p, s1, s2, s3);
    assert t[..|Oid|] == Oid;
    assert StartsWith(t, t);
    MatchHereSpec(t, p);
    assert t[0..] == t;
  }

  /** The dots of the OID are wildcards: a line whose OID part has other
      characters in their place matches all the same. */
  lemma WildcardDots(pre: string, p: Port, s1: bool, s2: bool, s3: bool)
    requires |pre| == |Oid| && WellFormed(p)
    requires forall j :: 0 <= j < |Oid| && Oid[j] != '.' ==> pre[j] == Oid[j]
    requires forall j :: 0 <= j < |Oid| ==> pre[j] != '\n'
    ensures Search(MatchText(pre, p, s1, s2, s3)) == Some(p)
  {
    var t := MatchText(pre, p, s1, s2, s3);
    assert t[..|Oid|] == pre;
    assert StartsWith(t, t);
    MatchHereSpec(t, p);
    assert t[0..] == t;
  }

  /** Text before the OID does not stop the match: search() skips it when
      no match starts inside it. */
  lemma LeadingText(junk: string, t: string, p: Port)
    requires Matches(t, p)
    requires forall k, q :: 0 <= k < |junk| ==> !Matches((junk + t)[k..], q)
    ensures Search(junk + t) == Some(p)
  {
    var line := junk + t;
    assert line[|junk|..] == t;
    SearchSpec(line);
    var r := Search(line).value;
    var j :| 0 <= j <= |line| && Matches(line[j..], r)
      && forall k, q :: 0 <= k < j ==> !Matches(line[k..], q);
    assert j == |junk|;
    MatchHereSpec(t, p);
    MatchHereSpec(t, r);
  }

  // ---------------------------------------------------------------------
  // parse_snmpwalk

  /** output.splitlines(): the lines without their endings. */
  function Lines(s: string): (r: seq<string>)
    ensures forall k, j :: 0 <= k < |r| && 0 <= j < |r[k]| ==> !RemoteSource.IsLineBreak(r[k][j])
    decreases |s|
  {
    if s == [] then []
    else [s[..RemoteSource.BreakAt(s)]] + Lines(s[RemoteSource.LineLen(s)..])
  }

  /** A line ending as splitlines(True) keeps it: none at the end of the
      text, "\r\n", or one line-boundary character. */
  predicate IsEnding(e: string) {
    e == [] || e == "\r\n" || (|e| == 1 && RemoteSource.IsLineBreak(e[0]))
  }

  /** The first line with and without its ending. */
  lemma FirstLineEnding(s: string)
    requires s != []
    ensures var kept := s[..RemoteSource.LineLen(s)];
      var b := RemoteSource.BreakAt(s);
      b <= |kept| && kept[..b] == s[..b] && IsEnding(kept[b..])
  {
    var n := RemoteSource.LineLen(s);
    var b := RemoteSource.BreakAt(s);
    assert s[..n][..b] == s[..b];
    if b < |s| && s[b] == '\r' && b + 1 < |s| && s[b + 1] == '\n' {
      assert s[..n][b..] == "\r\n";
    }
  }

  /** splitlines() is splitlines(True) with each line's ending removed. */
  lemma {:induction false} LinesKeepEnds(s: string)
    ensures |Lines(s)| == |RemoteSource.SplitLines(s)|
    ensures forall k :: 0 <= k < |Lines(s)| ==>
      StartsWith(RemoteSource.SplitLines(s)[k], Lines(s)[k])
      && IsEnding(RemoteSource.SplitLines(s)[k][|Lines(s)[k]|..])
    decreases |s|
  {
    if s != [] {
      var n := RemoteSource.LineLen(s);
      LinesKeepEnds(s[n..]);
      FirstLineEnding(s);
      var kept := RemoteSource.SplitLines(s);
      var lines := Lines(s);
      assert kept == [s[..n]] + RemoteSource.SplitLines(s[n..]);
      assert lines == [s[..RemoteSource.BreakAt(s)]] + Lines(s[n..]);
      forall k | 0 <= k < |lines|
        ensures StartsWith(kept[k], lines[k]) && IsEnding(kept[k][|lines[k]|..])
      {
        if k > 0 {
          assert kept[k] == RemoteSource.SplitLines(s[n..])[k - 1];
          assert lines[k] == Lines(s[n..])[k - 1];
        }
      }
    }
  }

  /** The ports of one line: its match, or nothing. */
  function Found(m: Option<Port>): seq<Port> {
    match m
    case Some(p) => [p]
    case None => []
  }

  /** The ports the loop collects from the given lines, each line searched
      with search. */
  function Ports(lines: seq<string>, search: string -> Option<Port>): seq<Port> {
    if lines == [] then [] else Ports(lines[..|lines| - 1], search) + Found(search(lines[|lines| - 1]))
  }

  /** parse_snmpwalk(output) for text output; the ports are returned as
      name/description records. */
  method ParseSnmpwalk(output: string) returns (ports: seq<Port>)
    ensures ports == Ports(Lines(output), Search)
  {
    var lines := Lines(output);
    ports := [];
    for i := 0 to |lines|
      invariant ports == Ports(lines[..i], Search)
    {
      var m := Search(lines[i]);
      PortsSnoc(lines, i, Search);
      if m.Some? {
        ports := ports + [m.value];
      }
    }
    assert lines[..|lines|] == lines;
  }

  lemma PortsSnoc(lines: seq<string>, i: nat, search: string -> Option<Port>)
    requires i < |lines|
    ensures Ports(lines[..i + 1], search) == Ports(lines[..i], search) + Found(search(lines[i]))
  {
    assert lines[..i + 1][..i] == lines[..i];
  }

  /** Ports in line order: the ports of joined line lists are joined. */
  lemma {:induction false} PortsAppend(a: seq<string>, b: seq<string>, search: string -> Option<Port>)
    ensures Ports(a + b, search) == Ports(a, search) + Ports(b, search)
    decreases |b|
  {
    if b == [] {
      assert a + b == a;
    } else {
      var init := b[..|b| - 1];
      assert (a + b)[..|a + b| - 1] == a + init;
      PortsAppend(a, init, search);
    }
  }

  /** Each line contributes its match and nothing else; lines without a
      match contribute nothing. */
  lemma {:induction false} PortsOfLines(lines: seq<string>, k: nat, search: string -> Option<Port>)
    requires k < |lines|
    ensures Ports(lines, search) ==
      Ports(lines[..k], search) + Found(search(lines[k])) + Ports(lines[k + 1..], search)
  {
    assert lines == lines[..k] + [lines[k]] + lines[k + 1..];
    PortsAppend(lines[..k] + [lines[k]], lines[k + 1..], search);
    PortsAppend(lines[..k], [lines[k]], search);
    assert Ports([lines[k]], search) == Found(search(lines[k])) by {
      assert [lines[k]][..0] == [];
    }
  }

  /** A line's port is a well-formed match. */
  lemma FoundWellFormed(line: string)
    ensures Search(line).Some? ==> WellFormed(Search(line).value)
  {
    SearchSpec(line);
  }

  /** With a search that yields well-formed ports only, every collected
      port is well-formed, there are at most as many ports as lines, and
      there are none exactly when no line matches. */
  lemma {:induction false} PortsBound(lines: seq<string>, search: string -> Option<Port>)
    requires forall line :: search(line).Some? ==> WellFormed(search(line).value)
    ensures |Ports(lines, search)| <= |lines|
    ensures forall k :: 0 <= k < |Ports(lines, search)| ==> WellFormed(Ports(lines, search)[k])
    ensures Ports(lines, search) == [] <==> forall k :: 0 <= k < |lines| ==> search(lines[k]).None?
  {
    if lines != [] {
      var init := lines[..|lines| - 1];
      PortsBound(init, search);
      assert forall k :: 0 <= k < |init| ==> lines[k] == init[k];
    }
  }

  /** parse_snmpwalk's ports are well-formed matches, at most one per line,
      and there are none exactly when no line matches. */
  lemma PortsWellFormed(lines: seq<string>)
    ensures |Ports(lines, Search)| <= |lines|
    ensures forall k :: 0 <= k < |Ports(lines, Search)| ==> WellFormed(Ports(lines, Search)[k])
    ensures Ports(lines, Search) == [] <==> forall k :: 0 <= k < |lines| ==> Search(lines[k]).None?
  {
    forall line {
      FoundWellFormed(line);
    }
    PortsBound(lines, Search);
  }

  // ---------------------------------------------------------------------
  // to_nerds

  /** A port as the dict the source appends. */
  function PortValue(p: Port): Value {
    Obj([("name", Str(p.name)), ("description", Str(p.description))])
  }

  function PortValues(ports: seq<Port>): (r: seq<Value>)
  {
    seq(|ports|, k requires 0 <= k < |ports| => PortValue(ports[k]))
  }

  /** to_nerds(host_name, ports): None for no ports, otherwise a 'raritan'
      document holding {'ports': ports}. */
  function ToNerds(hostName: Value, ports: seq<Port>): (r: Option<Value>)
    ensures r.None? <==> ports == []
    ensures r.Some? ==>
      && r.value.Obj? && Keys(r.value.fields) == ["host"]
      && var host := r.value.fields[0].1;
         && host.Obj?
         && Get(host.fields, "name") == Some(hostName)
         && Get(host.fields, "version") == Some(Int(1))
         && Get(host.fields, "raritan") == Some(Obj([("ports", Arr(PortValues(ports)))]))
  {
    if ports == [] then None
    else Some(Nerds.ToNerds(hostName, Some("raritan"), Obj([("ports", Arr(PortValues(ports)))])))
  }
}
