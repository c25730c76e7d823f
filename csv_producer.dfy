/** The CSV producer: a header line names the columns, and every following
    line up to the first blank one becomes one dict of column key to value,
    with quotes removed and whitespace collapsed in every key and value. */
module CsvProducer {
  import opened Py
  import Strs

  /** One parsed line: a Python dict from column key to value. */
  type Row = map<string, string>

  /** normalize_whitespace: every '"' and '\'' deleted, then whitespace
      runs collapsed to single spaces with none at either end. */
  function CsvNormalize(text: string): string {
    Strs.NormalizeWhitespace(Strs.DeleteChar(Strs.DeleteChar(text, '"'), '\''))
  }

  /** The normalised text holds no quote, is in whitespace normal form,
      keeps exactly the tokens of the text with its quotes deleted, and
      normalising it again changes nothing. */
  lemma CsvNormalizeSpec(text: string)
    ensures '"' !in CsvNormalize(text) && '\'' !in CsvNormalize(text)
    ensures Strs.WsNormal(CsvNormalize(text))
    ensures CsvNormalize(CsvNormalize(text)) == CsvNormalize(text)
    ensures Strs.Split(CsvNormalize(text)) == Strs.Split(Strs.DeleteChar(Strs.DeleteChar(text, '"'), '\''))
  {
    var a := Strs.DeleteChar(text, '"');
    var b := Strs.DeleteChar(a, '\'');
    var r := CsvNormalize(text);
    Strs.DeleteCharFrom(text, '"');
    Strs.DeleteCharFrom(a, '\'');
    Strs.NormalizeChars(b);
    Strs.NormalizeWhitespaceSpec(b);
    assert '"' !in b by {
      forall j | 0 <= j < |b| ensures b[j] != '"' {
        assert b[j] in a;
      }
    }
    forall j | 0 <= j < |r| ensures r[j] != '"' && r[j] != '\'' {
      assert r[j] == ' ' || r[j] in b;
    }
    Strs.DeleteCharFrom(r, '"');
    Strs.DeleteCharFrom(r, '\'');
  }

  /** A blank line normalises to "". */
  lemma CsvNormalizeEmpty()
    ensures CsvNormalize("") == ""
  {
    assert Strs.DeleteChar("", '"') == "";
    assert Strs.DeleteChar("", '\'') == "";
    assert Strs.Split("") == [];
  }

  /** The key for a header field: spaces to '_', lower-cased, normalised. */
  function CsvKey(field: string): string {
    CsvNormalize(Strs.Lower(Strs.ReplaceChar(field, ' ', '_')))
  }

  /** For a field of a normalised header line (no quotes, no whitespace
      but ' ') the key is the field lower-cased with each space turned into
      '_', and it holds no whitespace. */
  lemma KeyForm(field: string)
    requires '"' !in field && '\'' !in field
    requires forall i :: 0 <= i < |field| && Strs.IsSpace(field[i]) ==> field[i] == ' '
    ensures CsvKey(field) == Strs.Lower(Strs.ReplaceChar(field, ' ', '_'))
    ensures Strs.NoSpace(CsvKey(field))
  {
    var k := Strs.Lower(Strs.ReplaceChar(field, ' ', '_'));
    assert Strs.NoSpace(k);
    assert '"' !in k by {
      forall j | 0 <= j < |k| ensures k[j] != '"' {
        assert field[j] != '"';
      }
    }
    assert '\'' !in k by {
      forall j | 0 <= j < |k| ensures k[j] != '\'' {
        assert field[j] != '\'';
      }
    }
    Strs.DeleteCharFrom(k, '"');
    Strs.DeleteCharFrom(k, '\'');
    Strs.NormalizeNoSpace(k);
  }

  /** Every field of a normalised line meets KeyForm's requirements. */
  lemma FieldsOfNormalized(line: string, delim: string, k: nat)
    requires delim != [] && k < |Strs.SplitSep(CsvNormalize(line), delim)|
    ensures var field := Strs.SplitSep(CsvNormalize(line), delim)[k];
      '"' !in field && '\'' !in field &&
      forall i :: 0 <= i < |field| && Strs.IsSpace(field[i]) ==> field[i] == ' '
  {
    var n := CsvNormalize(line);
    CsvNormalizeSpec(line);
    Strs.SplitSepChars(n, delim);
    var field := Strs.SplitSep(n, delim)[k];
    assert Strs.CharsFrom(field, n);
    forall i | 0 <= i < |field| ensures field[i] in n {
    }
  }

  /** f.readline() on the i-th call: the line, or "" past the end. */
  function ReadLine(f: seq<string>, i: nat): string {
    if i < |f| then f[i] else ""
  }

  /** A value is stored when it is non-empty or empty keys are wanted. */
  predicate Kept(v: string, emptyKeys: bool) {
    v != "" || emptyKeys
  }

  /** The (key, value) cell of each column ("" for a missing field, which
      RowDict never lets through). */
  function Cells(keys: seq<string>, values: seq<string>): (r: seq<(string, string)>)
    ensures |r| == |keys|
  {
    seq(|keys|, k requires 0 <= k < |keys| =>
      (CsvKey(keys[k]), if k < |values| then CsvNormalize(values[k]) else ""))
  }

  /** tmp[key] = value for each cell in turn whose value is kept, so a later
      cell overwrites an earlier one with the same key. */
  function Fold(cells: seq<(string, string)>, emptyKeys: bool): map<string, string>
    decreases |cells|
  {
    if cells == [] then map[]
    else
      var n := |cells| - 1;
      var d := Fold(cells[..n], emptyKeys);
      if Kept(cells[n].1, emptyKeys) then d[cells[n].0 := cells[n].1] else d
  }

  /** The last kept cell with this key, or -1 when there is none. */
  function LastKept(cells: seq<(string, string)>, emptyKeys: bool, key: string): (k: int)
    ensures -1 <= k < |cells|
    ensures k >= 0 ==> cells[k].0 == key && Kept(cells[k].1, emptyKeys)
    ensures forall j :: k < j < |cells| ==> !(cells[j].0 == key && Kept(cells[j].1, emptyKeys))
    decreases |cells|
  {
    if cells == [] then -1
    else
      var n := |cells| - 1;
      if cells[n].0 == key && Kept(cells[n].1, emptyKeys) then n
      else
        var k := LastKept(cells[..n], emptyKeys, key);
        assert forall j :: k < j < n ==> cells[j] == cells[..n][j];
        k
  }

  /** A key is present exactly when some cell with that key is kept, and
      it then holds the value of the last such cell. */
  lemma {:induction false} FoldSpec(cells: seq<(string, string)>, emptyKeys: bool, key: string)
    ensures var d := Fold(cells, emptyKeys); var k := LastKept(cells, emptyKeys, key);
      (key in d <==> k >= 0) && (key in d ==> d[key] == cells[k].1)
    decreases |cells|
  {
    if cells != [] {
      var n := |cells| - 1;
      FoldSpec(cells[..n], emptyKeys, key);
    }
  }

  /** With distinct keys, a kept cell's value is stored under its key and
      a dropped (empty) cell's key is absent. */
  lemma FoldDistinct(cells: seq<(string, string)>, emptyKeys: bool, k: nat)
    requires k < |cells|
    requires forall i, j :: 0 <= i < j < |cells| ==> cells[i].0 != cells[j].0
    ensures var d := Fold(cells, emptyKeys);
      (Kept(cells[k].1, emptyKeys) ==> cells[k].0 in d && d[cells[k].0] == cells[k].1) &&
      (!Kept(cells[k].1, emptyKeys) ==> cells[k].0 !in d)
  {
    FoldSpec(cells, emptyKeys, cells[k].0);
  }

  /** The inner for loop of read_csv: a row shorter than the header raises
      IndexError (at value_list[i]). */
  function RowDict(keys: seq<string>, values: seq<string>, emptyKeys: bool): (r: Result<Row>)
    ensures r.Err? <==> |values| < |keys|
    ensures r.Err? ==> r.error == IndexError
  {
    if |values| < |keys| then Err(IndexError) else Ok(Fold(Cells(keys, values), emptyKeys))
  }

  /** With distinct column keys, each column's normalised value is stored
      under its key, unless it is empty and empty keys are not wanted, in
      which case the key is absent. */
  lemma RowDictColumns(keys: seq<string>, values: seq<string>, emptyKeys: bool, k: nat)
    requires k < |keys| <= |values|
    requires forall i, j :: 0 <= i < j < |keys| ==> CsvKey(keys[i]) != CsvKey(keys[j])
    ensures var d := RowDict(keys, values, emptyKeys).value; var v := CsvNormalize(values[k]);
      (Kept(v, emptyKeys) ==> CsvKey(keys[k]) in d && d[CsvKey(keys[k])] == v) &&
      (!Kept(v, emptyKeys) ==> CsvKey(keys[k]) !in d)
  {
    FoldDistinct(Cells(keys, values), emptyKeys, k);
  }

  /** Every key of a row is the key of some header field, and without
      empty keys no stored value is empty. */
  lemma RowKeysFromHeader(keys: seq<string>, values: seq<string>, emptyKeys: bool, key: string)
    requires |keys| <= |values| && key in RowDict(keys, values, emptyKeys).value
    ensures exists k :: 0 <= k < |keys| && CsvKey(keys[k]) == key
    ensures !emptyKeys ==> RowDict(keys, values, emptyKeys).value[key] != ""
  {
    var cells := Cells(keys, values);
    FoldSpec(cells, emptyKeys, key);
    var k := LastKept(cells, emptyKeys, key);
    assert CsvKey(keys[k]) == key;
  }

  /** Fields beyond the header are ignored. */
  lemma ExtraFieldsIgnored(keys: seq<string>, values: seq<string>, extra: seq<string>, emptyKeys: bool)
    requires |keys| <= |values|
    ensures RowDict(keys, values + extra, emptyKeys) == RowDict(keys, values, emptyKeys)
  {
    assert Cells(keys, values + extra) == Cells(keys, values) by {
      forall k | 0 <= k < |keys| ensures (values + extra)[k] == values[k] {
      }
    }
  }

  /** The lines as normalize_whitespace(f.readline()) returns them. */
  function Normalized(f: seq<string>): (r: seq<string>)
    ensures |r| == |f|
  {
    seq(|f|, i requires 0 <= i < |f| => CsvNormalize(f[i]))
  }

  /** The dict for one normalised data line. */
  function RowParser(keys: seq<string>, delim: string, emptyKeys: bool): string -> Result<Row> {
    line => if delim == [] then Err(ValueError) else RowDict(keys, Strs.SplitSep(line, delim), emptyKeys)
  }

  /** The while loop of read_csv over the normalised lines from the i-th
      on, each non-blank line turned into a row by parse: it ends at the
      end of the input or at the first blank line. */
  function ReadRows<T>(parse: string -> Result<T>, lines: seq<string>, i: nat): Result<seq<T>>
    decreases |lines| - i
  {
    if i >= |lines| || lines[i] == "" then Ok([])
    else
      match parse(lines[i])
      case Err(e) => Err(e)
      case Ok(d) =>
        match ReadRows(parse, lines, i + 1)
        case Err(e) => Err(e)
        case Ok(rest) => Ok([d] + rest)
  }

  /** The header's fields. */
  function Header(f: seq<string>, delim: string): seq<string>
    requires delim != []
  {
    Strs.SplitSep(CsvNormalize(ReadLine(f, 0)), delim)
  }

  /** read_csv(f, delim, empty_keys); an empty delimiter makes split raise
      ValueError. */
  function ReadCsv(f: seq<string>, delim: string, emptyKeys: bool): Result<seq<Row>> {
    if delim == [] then Err(ValueError)
    else ReadRows(RowParser(Header(f, delim), delim, emptyKeys), Normalized(f), 1)
  }

  /** Rows already read, in front of the outcome of the rest. */
  function Prepend<T>(rows: seq<T>, r: Result<seq<T>>): Result<seq<T>> {
    match r
    case Err(e) => Err(e)
    case Ok(rest) => Ok(rows + rest)
  }

  /** The for loop of read_csv building one line's dict. */
  method BuildRow(keys: seq<string>, values: seq<string>, emptyKeys: bool) returns (r: Result<Row>)
    ensures r == RowDict(keys, values, emptyKeys)
  {
    ghost var cells := Cells(keys, values);
    var tmp: Row := map[];
    for k := 0 to |keys|
      invariant k <= |values| && tmp == Fold(cells[..k], emptyKeys)
    {
      if k >= |values| {
        return Err(IndexError);
      }
      assert cells[..k + 1][..k] == cells[..k];
      var key := CsvKey(keys[k]);
      var value := CsvNormalize(values[k]);
      assert cells[k] == (key, value);
      if value != "" || emptyKeys {
        tmp := tmp[key := value];
      }
    }
    assert cells[..|keys|] == cells;
    r := Ok(tmp);
  }

  /** normalize_whitespace(f.readline()) on the i-th call: the i-th
      normalised line, blank past the end of the input. */
  method NextLine(f: seq<string>, i: nat) returns (line: string)
    ensures line == (if i < |f| then Normalized(f)[i] else "")
  {
    CsvNormalizeEmpty();
    line := CsvNormalize(ReadLine(f, i));
  }

  /** normalize_whitespace(f.readline()).split(delim) on the first call. */
  method ReadHeader(f: seq<string>, delim: string) returns (keys: seq<string>)
    requires delim != []
    ensures keys == Header(f, delim)
  {
    keys := Strs.SplitSep(CsvNormalize(ReadLine(f, 0)), delim);
  }

  /** One non-blank line whose dict was built moves that dict to the rows
      already read. */
  lemma ReadRowsStep<T>(parse: string -> Result<T>, lines: seq<string>, i: nat, done: seq<T>, t: Result<T>)
    requires i < |lines| && lines[i] != "" && parse(lines[i]) == t
    ensures t.Ok? ==> Prepend(done, ReadRows(parse, lines, i)) == Prepend(done + [t.value], ReadRows(parse, lines, i + 1))
    ensures t.Err? ==> Prepend(done, ReadRows(parse, lines, i)) == Err(t.error)
  {
    var rest := ReadRows(parse, lines, i + 1);
    if t.Ok? && rest.Ok? {
      assert done + ([t.value] + rest.value) == (done + [t.value]) + rest.value;
    }
  }

  /** Nothing read yet in front of the outcome leaves it as it is. */
  lemma PrependNothing<T>(r: Result<seq<T>>)
    ensures Prepend([], r) == r
  {
    if r.Ok? {
      assert [] + r.value == r.value;
    }
  }

  /** A blank line, or the end of the input, ends the rows already read. */
  lemma ReadRowsEnd<T>(parse: string -> Result<T>, lines: seq<string>, i: nat, done: seq<T>)
    requires i >= |lines| || lines[i] == ""
    ensures Prepend(done, ReadRows(parse, lines, i)) == Ok(done)
  {
    assert done + [] == done;
  }

  /** One pass of the while loop of read_csv: the line split at the
      delimiter and its dict built. */
  method ParseLine(keys: seq<string>, line: string, delim: string, emptyKeys: bool) returns (tmp: Result<Row>)
    requires delim != []
    ensures tmp == RowParser(keys, delim, emptyKeys)(line)
  {
    var values := Strs.SplitSep(line, delim);
    tmp := BuildRow(keys, values, emptyKeys);
  }

  /** read_csv, as the loop the source runs. */
  method ReadCsvLoop(f: seq<string>, delim: string, emptyKeys: bool) returns (r: Result<seq<Row>>)
    ensures r == ReadCsv(f, delim, emptyKeys)
  {
    if delim == [] {
      return Err(ValueError);
    }
    ghost var lines := Normalized(f);
    var keys := ReadHeader(f, delim);
    ghost var parse := RowParser(keys, delim, emptyKeys);
    assert ReadCsv(f, delim, emptyKeys) == ReadRows(parse, lines, 1);
    var nodeList: seq<Row> := [];
    var i := 1;
    var line := NextLine(f, i);
    PrependNothing(ReadRows(parse, lines, i));
    while line != ""
      invariant 1 <= i && line == (if i < |lines| then lines[i] else "")
      invariant ReadRows(parse, lines, 1) == Prepend(nodeList, ReadRows(parse, lines, i))
      decreases |lines| - i
    {
      var tmp := ParseLine(keys, line, delim, emptyKeys);
      ReadRowsStep(parse, lines, i, nodeList, tmp);
      if tmp.Err? {
        return Err(tmp.error);
      }
      nodeList := nodeList + [tmp.value];
      i := i + 1;
      line := NextLine(f, i);
    }
    ReadRowsEnd(parse, lines, i, nodeList);
    r := Ok(nodeList);
  }

  /** Reading stops at the first blank line: whatever follows it never
      matters. */
  lemma {:induction false} StopsAtBlank<T>(parse: string -> Result<T>, lines: seq<string>, more: seq<string>, i: nat, b: nat)
    requires i <= b < |lines| && lines[b] == ""
    ensures ReadRows(parse, lines + more, i) == ReadRows(parse, lines, i)
    decreases b - i
  {
    assert (lines + more)[i] == lines[i];
    if i < b {
      StopsAtBlank(parse, lines, more, i + 1, b);
    }
  }

  /** Line j is non-blank and parses to row. */
  predicate LineRow<T(==)>(parse: string -> Result<T>, lines: seq<string>, j: int, row: T) {
    0 <= j < |lines| && lines[j] != "" && parse(lines[j]) == Ok(row)
  }

  /** Each line before the first blank one yields one dict, in order, and
      reading ends at the end of the input or at a blank line. */
  lemma {:induction false} RowsInOrder<T>(parse: string -> Result<T>, lines: seq<string>, i: nat)
    requires ReadRows(parse, lines, i).Ok?
    ensures var rows := ReadRows(parse, lines, i).value;
      (forall k :: 0 <= k < |rows| ==> LineRow(parse, lines, i + k, rows[k])) &&
      (i + |rows| < |lines| ==> lines[i + |rows|] == "")
    decreases |lines| - i
  {
    if i < |lines| && lines[i] != "" {
      RowsInOrder(parse, lines, i + 1);
      var rows := ReadRows(parse, lines, i).value;
      var rest := ReadRows(parse, lines, i + 1).value;
      assert rows == [rows[0]] + rest;
      assert i + |rows| == (i + 1) + |rest|;
      forall k | 0 <= k < |rows| ensures LineRow(parse, lines, i + k, rows[k]) {
        if k > 0 {
          assert rows[k] == rest[k - 1];
          assert LineRow(parse, lines, (i + 1) + (k - 1), rest[k - 1]);
        }
      }
    }
  }
}
