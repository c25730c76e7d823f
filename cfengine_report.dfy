/** The cfengine report reader: a CSV whose first column names the host.
    Every data line up to the first blank one becomes a dict of the other
    columns' non-empty values, and the dicts are grouped by host in line
    order.  Its normalize_whitespace is the same as the CSV producer's. */
module CfengineReport {
  import opened Py
  import Strs
  import opened CsvProducer
  import opened Grouping

  /** The host of one data line and the dict of its other columns. */
  type HostRow = (string, Row)

  /** The report: each host's dicts, in line order. */
  type Report = map<string, seq<Row>>

  /** One normalised data line, given the header's columns after the first
      (the first one is renamed to 'name' and never read): the line's first
      field names the host, and the other columns' non-empty values make
      the dict.  A line with fewer fields than the header raises
      IndexError. */
  function ParseHostLine(cols: seq<string>, delim: string, line: string): Result<HostRow> {
    if delim == [] then Err(ValueError)
    else
      var values := Strs.SplitSep(line, delim);
      match RowDict(cols, values[1..], false)
      case Err(e) => Err(e)
      case Ok(d) => Ok((values[0], d))
  }

  /** ParseHostLine as the parser the line reader applies. */
  function HostParser(cols: seq<string>, delim: string): string -> Result<HostRow> {
    line => ParseHostLine(cols, delim, line)
  }

  /** The header's columns after the first. */
  function Columns(f: seq<string>, delim: string): seq<string>
    requires delim != []
  {
    Header(f, delim)[1..]
  }

  /** The (host, dict) pairs of the data lines, in order. */
  function HostRows(f: seq<string>, delim: string): Result<seq<HostRow>> {
    if delim == [] then Err(ValueError)
    else ReadRows(HostParser(Columns(f, delim), delim), Normalized(f), 1)
  }

  /** read_csv(f, delim): the defaultdict(list) of host to dicts. */
  function ReadReport(f: seq<string>, delim: string): Result<Report> {
    match HostRows(f, delim)
    case Err(e) => Err(e)
    case Ok(pairs) => Ok(Group(pairs))
  }

  /** read_csv, as the loop the source runs: the dict of a line is built by
      the CSV producer's column loop over the columns after the first. */
  method ReadReportLoop(f: seq<string>, delim: string) returns (r: Result<Report>)
    ensures r == ReadReport(f, delim)
  {
    if delim == [] {
      return Err(ValueError);
    }
    ghost var lines := Normalized(f);
    var keyList := ReadHeader(f, delim);
    var cols := keyList[1..];
    ghost var parse := HostParser(cols, delim);
    assert HostRows(f, delim) == ReadRows(parse, lines, 1);
    var hosts: Report := map[];
    ghost var pairs: seq<HostRow> := [];
    var i := 1;
    var line := NextLine(f, i);
    assert Prepend(pairs, ReadRows(parse, lines, i)) == ReadRows(parse, lines, i) by {
      assert ReadRows(parse, lines, i).Ok? ==> pairs + ReadRows(parse, lines, i).value == ReadRows(parse, lines, i).value;
    }
    while line != ""
      invariant 1 <= i && line == (if i < |lines| then lines[i] else "")
      invariant ReadRows(parse, lines, 1) == Prepend(pairs, ReadRows(parse, lines, i))
      invariant hosts == Group(pairs)
      decreases |lines| - i
    {
      var valueList := Strs.SplitSep(line, delim);
      var tmp := BuildRow(cols, valueList[1..], false);
      ghost var t: Result<HostRow> := if tmp.Err? then Err(tmp.error) else Ok((valueList[0], tmp.value));
      assert parse(line) == t;
      ReadRowsStep(parse, lines, i, pairs, t);
      if tmp.Err? {
        return Err(tmp.error);
      }
      var host := valueList[0];
      GroupSnoc(pairs, (host, tmp.value));
      hosts := hosts[host := (if host in hosts then hosts[host] else []) + [tmp.value]];
      pairs := pairs + [(host, tmp.value)];
      i := i + 1;
      line := NextLine(f, i);
    }
    assert pairs + [] == pairs;
    r := Ok(hosts);
  }

  /** A line's pair: the line raises IndexError exactly when it has
      fewer fields than the header; otherwise the host is its first field,
      every key of the dict is the key of a header column after the first,
      and no value is empty. */
  lemma HostRowSpec(cols: seq<string>, delim: string, line: string, key: string)
    requires delim != []
    ensures var values := Strs.SplitSep(line, delim); var t := ParseHostLine(cols, delim, line);
      (t.Err? <==> |values| < |cols| + 1) && (t.Err? ==> t.error == IndexError) &&
      (t.Ok? ==> t.value.0 == values[0]) &&
      (t.Ok? && key in t.value.1 ==>
        t.value.1[key] != "" && exists k :: 0 <= k < |cols| && CsvKey(cols[k]) == key)
  {
    var values := Strs.SplitSep(line, delim);
    if |values| >= |cols| + 1 && key in RowDict(cols, values[1..], false).value {
      RowKeysFromHeader(cols, values[1..], false, key);
    }
  }

  /** With distinct column keys, each column's non-empty value is stored
      under the column's key, and an empty one leaves the key out. */
  lemma HostRowColumns(cols: seq<string>, delim: string, line: string, k: nat)
    requires delim != [] && ParseHostLine(cols, delim, line).Ok? && k < |cols|
    requires forall i, j :: 0 <= i < j < |cols| ==> CsvKey(cols[i]) != CsvKey(cols[j])
    ensures var values := Strs.SplitSep(line, delim); var row := ParseHostLine(cols, delim, line).value.1;
      var v := CsvNormalize(values[k + 1]);
      (v != "" ==> CsvKey(cols[k]) in row && row[CsvKey(cols[k])] == v) &&
      (v == "" ==> CsvKey(cols[k]) !in row)
  {
    var values := Strs.SplitSep(line, delim);
    RowDictColumns(cols, values[1..], false, k);
    assert values[1..][k] == values[k + 1];
  }

  /** Hosts are exactly the first fields of the lines read, and each host's
      list holds the dicts of its lines in line order. */
  lemma ReportSpec(f: seq<string>, delim: string, host: string)
    requires ReadReport(f, delim).Ok?
    ensures var pairs := HostRows(f, delim).value; var r := ReadReport(f, delim).value;
      (host in r <==> host in KeySet(pairs)) &&
      (host in r ==> r[host] == Members(pairs, host))
  {
    GroupSpec(HostRows(f, delim).value, host);
  }

  /** Every line read lands in exactly one host's list. */
  lemma ReportCount(f: seq<string>, delim: string)
    requires ReadReport(f, delim).Ok?
    ensures var pairs := HostRows(f, delim).value;
      SumMembers(pairs, FirstKeys(pairs)) == |pairs|
  {
    EveryValueOnce(HostRows(f, delim).value);
  }
}
