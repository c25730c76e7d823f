/** producers/checkmk_livestatus/checkmk_livestatus.py, nerds_format: the
    service rows livestatus answers with (one list of column values per
    row) grouped into one NERDS document per host_name.  Each row becomes
    a check: its dict(zip(columns, row)) without the three host keys. */
module CheckmkLivestatus {
  import opened Py
  import opened Json
  import opened Grouping

  // ---------------------------------------------------------------------
  // one row

  /** dict(zip(columns, row)) over the first n pairs: each pair is stored
      in turn, so a repeated column keeps its first position and its last
      value. */
  function ZipUpTo(columns: seq<string>, row: seq<Value>, n: nat): Fields
    requires n <= |columns| && n <= |row|
  {
    if n == 0 then [] else Put(ZipUpTo(columns, row, n - 1), columns[n - 1], row[n - 1])
  }

  /** How many pairs zip makes: it stops at the shorter of the two. */
  function Shorter(a: nat, b: nat): (n: nat)
    ensures n <= a && n <= b && (n == a || n == b)
  {
    if a <= b then a else b
  }

  /** dict(zip(columns, row)). */
  function Zip(columns: seq<string>, row: seq<Value>): Fields {
    ZipUpTo(columns, row, Shorter(|columns|, |row|))
  }

  /** The keys of dict(zip(...)) are distinct. */
  lemma {:induction false} ZipDistinct(columns: seq<string>, row: seq<Value>, n: nat)
    requires n <= |columns| && n <= |row|
    ensures DistinctKeys(ZipUpTo(columns, row, n))
    decreases n
  {
    if n > 0 {
      ZipDistinct(columns, row, n - 1);
      PutDistinct(ZipUpTo(columns, row, n - 1), columns[n - 1], row[n - 1]);
    }
  }

  /** Only the first n columns become keys. */
  lemma {:induction false} ZipKeys(columns: seq<string>, row: seq<Value>, n: nat, k: string)
    requires n <= |columns| && n <= |row|
    ensures HasKey(ZipUpTo(columns, row, n), k) <==> k in columns[..n]
    decreases n
  {
    if n > 0 {
      var z := ZipUpTo(columns, row, n - 1);
      ZipKeys(columns, row, n - 1, k);
      PutGet(z, columns[n - 1], row[n - 1]);
      var r := Put(z, columns[n - 1], row[n - 1]);
      assert HasKey(r, k) <==> Get(r, k).Some?;
      assert HasKey(z, k) <==> Get(z, k).Some?;
      assert columns[..n] == columns[..n - 1] + [columns[n - 1]];
    } else {
      assert columns[..n] == [];
    }
  }

  /** Column i reads row[i] when no later column among the first n has
      the same name. */
  lemma {:induction false} ZipLast(columns: seq<string>, row: seq<Value>, n: nat, i: nat)
    requires i < n <= |columns| && n <= |row|
    requires forall j :: i < j < n ==> columns[j] != columns[i]
    ensures Get(ZipUpTo(columns, row, n), columns[i]) == Some(row[i])
    decreases n
  {
    var z := ZipUpTo(columns, row, n - 1);
    PutGet(z, columns[n - 1], row[n - 1]);
    if i < n - 1 {
      ZipLast(columns, row, n - 1, i);
    }
  }

  /** What one row contributes: its host's identity, read from the row,
      and the check the row becomes. */
  datatype Entry = Entry(host: Value, alias: Value, address: Value, check: Fields)

  /** The loop body up to the append.  z['host_name'] is read first, then
      the default document reads z['host_alias'] and z['host_address'],
      then setdefault hashes the host name; the three keys are deleted
      from z, which becomes the check. */
  function RowEntry(columns: seq<string>, row: seq<Value>): Result<Entry> {
    var z := Zip(columns, row);
    if !HasKey(z, "host_name") then Err(KeyError("host_name"))
    else if !HasKey(z, "host_alias") then Err(KeyError("host_alias"))
    else if !HasKey(z, "host_address") then Err(KeyError("host_address"))
    else
      var host := Get(z, "host_name").value;
      if !Hashable(host) then Err(TypeError)
      else Ok(Entry(host, Get(z, "host_alias").value, Get(z, "host_address").value,
                    Del(Del(Del(z, "host_name"), "host_alias"), "host_address")))
  }

  /** A row raises KeyError for the first of host_name, host_alias and
      host_address among the columns it fills that it lacks, TypeError
      for a list or dict host name, and otherwise its check is its dict
      without the three host keys: every other key reads the row's
      value. */
  lemma RowEntrySpec(columns: seq<string>, row: seq<Value>, k: string)
    ensures var z := Zip(columns, row); var r := RowEntry(columns, row);
      && (!HasKey(z, "host_name") ==> r == Err(KeyError("host_name")))
      && (HasKey(z, "host_name") && !HasKey(z, "host_alias") ==> r == Err(KeyError("host_alias")))
      && (r.Ok? <==> HasKey(z, "host_name") && HasKey(z, "host_alias") && HasKey(z, "host_address")
                     && Hashable(Get(z, "host_name").value))
      && (r.Ok? ==> Some(r.value.host) == Get(z, "host_name") && Some(r.value.alias) == Get(z, "host_alias")
                    && Some(r.value.address) == Get(z, "host_address"))
      && (r.Ok? ==> Get(r.value.check, k) ==
                    (if k == "host_name" || k == "host_alias" || k == "host_address" then None else Get(z, k)))
  {
    var z := Zip(columns, row);
    var z1 := Del(z, "host_name");
    var z2 := Del(z1, "host_alias");
    DelGet(z, "host_name", k);
    DelGet(z1, "host_alias", k);
    DelGet(z2, "host_address", k);
  }

  // ---------------------------------------------------------------------
  // the per-host documents

  /** A host's document while the rows are processed: the fields of the
      default setdefault stored, with the checks appended so far. */
  datatype HostDoc = HostDoc(name: Value, alias: Value, address: Value, checks: seq<Fields>)

  /** The document as JSON: {'host': {'name', 'version': 1,
      'checkmk_livestatus': {'host_name', 'host_alias', 'host_address',
      'checks'}}}. */
  function Document(d: HostDoc): (r: Value)
    ensures r.Obj? && Keys(r.fields) == ["host"]
  {
    var checks := seq(|d.checks|, i requires 0 <= i < |d.checks| => Obj(d.checks[i]));
    Obj([("host", Obj([("name", d.name), ("version", Int(1)),
                       ("checkmk_livestatus", Obj([("host_name", d.name), ("host_alias", d.alias),
                                                   ("host_address", d.address), ("checks", Arr(checks))]))]))])
  }

  /** The document is named after its host and has version 1. */
  lemma DocumentSpec(d: HostDoc)
    ensures var host := Document(d).fields[0].1;
      host.Obj? && Get(host.fields, "name") == Some(d.name) && Get(host.fields, "version") == Some(Int(1))
  {
    var f := Document(d).fields[0].1.fields;
    assert IndexOf(f, "name") == 0;
    assert IndexOf(f, "version") == 1 by {
      assert f[1..][0].0 == "version";
    }
  }

  /** processing_dict after one row: setdefault stores a fresh document
      for a host not seen yet, and the check goes at the end of the
      host's checks. */
  function Step(m: map<Value, HostDoc>, e: Entry): map<Value, HostDoc> {
    var d := if e.host in m then m[e.host] else HostDoc(e.host, e.alias, e.address, []);
    m[e.host := d.(checks := d.checks + [e.check])]
  }

  /** processing_dict after the entries of es, in order. */
  function Collect(es: seq<Entry>): map<Value, HostDoc> {
    if es == [] then map[] else Step(Collect(es[..|es| - 1]), es[|es| - 1])
  }

  /** RowEntry as the parser the loop applies to each row. */
  function RowParser(columns: seq<string>): seq<Value> -> Result<Entry> {
    row => RowEntry(columns, row)
  }

  /** nerds_format(columns, data): the documents by host name.  values()
      of a Python 2 dict has no fixed order, so the dict itself is the
      result. */
  function NerdsFormat(columns: seq<string>, data: seq<seq<Value>>): Result<map<Value, HostDoc>> {
    var es :- TryAll(RowParser(columns), data);
    Ok(Collect(es))
  }

  // ---------------------------------------------------------------------
  // the loop

  /** One pass of the for loop over processing_dict. */
  method Visit(columns: seq<string>, row: seq<Value>, processing: map<Value, HostDoc>)
    returns (r: Result<map<Value, HostDoc>>)
    ensures r == match RowEntry(columns, row)
                 case Err(e) => Err(e)
                 case Ok(e) => Ok(Step(processing, e))
  {
    var z := Zip(columns, row);
    if !HasKey(z, "host_name") {
      return Err(KeyError("host_name"));
    }
    if !HasKey(z, "host_alias") {
      return Err(KeyError("host_alias"));
    }
    if !HasKey(z, "host_address") {
      return Err(KeyError("host_address"));
    }
    var host := Get(z, "host_name").value;
    if !Hashable(host) {
      return Err(TypeError);
    }
    var d := if host in processing then processing[host]
             else HostDoc(host, Get(z, "host_alias").value, Get(z, "host_address").value, []);
    z := Del(z, "host_name");
    z := Del(z, "host_alias");
    z := Del(z, "host_address");
    r := Ok(processing[host := d.(checks := d.checks + [z])]);
  }

  /** nerds_format, as the loop the source runs. */
  method NerdsFormatLoop(columns: seq<string>, data: seq<seq<Value>>) returns (r: Result<map<Value, HostDoc>>)
    ensures r == NerdsFormat(columns, data)
  {
    var processing: map<Value, HostDoc> := map[];
    ghost var es: seq<Entry> := [];
    for i := 0 to |data|
      invariant TryAll(RowParser(columns), data[..i]) == Ok(es)
      invariant processing == Collect(es)
    {
      TryAllSnoc(RowParser(columns), data, i);
      var next := Visit(columns, data[i], processing);
      if next.Err? {
        TryAllStop(RowParser(columns), data, i);
        return Err(next.error);
      }
      ghost var e := RowEntry(columns, data[i]).value;
      assert Collect(es + [e]) == Step(Collect(es), e) by {
        assert (es + [e])[..|es|] == es;
      }
      processing := next.value;
      es := es + [e];
    }
    assert data[..|data|] == data;
    r := Ok(processing);
  }

  // ---------------------------------------------------------------------
  // what nerds_format promises

  /** Each entry's host and check, as Grouping sees them. */
  function Pairs(es: seq<Entry>): (r: seq<(Value, Fields)>)
    ensures |r| == |es| && forall i :: 0 <= i < |es| ==> r[i] == (es[i].host, es[i].check)
  {
    seq(|es|, i requires 0 <= i < |es| => (es[i].host, es[i].check))
  }

  /** A host has a document exactly when some row names it; the document
      is named after the host and holds the checks of the host's rows, in
      row order. */
  lemma {:induction false} CollectGroups(es: seq<Entry>, h: Value)
    ensures h in Collect(es) <==> Members(Pairs(es), h) != []
    ensures h in Collect(es) ==> Collect(es)[h].name == h && Collect(es)[h].checks == Members(Pairs(es), h)
    decreases |es|
  {
    if es != [] {
      var n := |es| - 1;
      CollectGroups(es[..n], h);
      assert Pairs(es) == Pairs(es[..n]) + [(es[n].host, es[n].check)];
      MembersSnoc(Pairs(es[..n]), (es[n].host, es[n].check), h);
    }
  }

  /** The alias and address of a host's document come from the first row
      that names the host. */
  lemma {:induction false} CollectFirst(es: seq<Entry>, i: nat)
    requires i < |es| && forall j :: 0 <= j < i ==> es[j].host != es[i].host
    ensures es[i].host in Collect(es)
    ensures Collect(es)[es[i].host].alias == es[i].alias && Collect(es)[es[i].host].address == es[i].address
    decreases |es|
  {
    var n := |es| - 1;
    var h := es[i].host;
    if i == n {
      CollectGroups(es[..n], h);
      assert h !in KeySet(Pairs(es[..n])) by {
        forall j | 0 <= j < n
          ensures Pairs(es[..n])[j].0 != h
        {
          assert es[..n][j] == es[j];
        }
      }
      FirstKeysSpec(Pairs(es[..n]), h);
    } else {
      assert es[..n][i] == es[i];
      CollectFirst(es[..n], i);
    }
  }

  /** nerds_format raises the error of the first row that raises. */
  lemma NerdsFormatError(columns: seq<string>, data: seq<seq<Value>>, i: nat)
    requires i < |data| && RowEntry(columns, data[i]).Err?
    requires forall j :: 0 <= j < i ==> RowEntry(columns, data[j]).Ok?
    ensures NerdsFormat(columns, data) == Err(RowEntry(columns, data[i]).error)
  {
    TryAllOk(RowParser(columns), data[..i]);
    TryAllStop(RowParser(columns), data, i);
  }

  /** nerds_format succeeds exactly when no row raises, with one entry
      per row. */
  lemma NerdsFormatOk(columns: seq<string>, data: seq<seq<Value>>)
    ensures NerdsFormat(columns, data).Ok? <==> forall j :: 0 <= j < |data| ==> RowEntry(columns, data[j]).Ok?
    ensures NerdsFormat(columns, data).Ok? ==>
      var es := TryAll(RowParser(columns), data).value;
      |es| == |data| && forall j :: 0 <= j < |data| ==> RowEntry(columns, data[j]) == Ok(es[j])
  {
    if forall j :: 0 <= j < |data| ==> RowEntry(columns, data[j]).Ok? {
      TryAllOk(RowParser(columns), data);
    } else if NerdsFormat(columns, data).Ok? {
      var j :| 0 <= j < |data| && RowEntry(columns, data[j]).Err?;
      TryAllAllOk(RowParser(columns), data, j);
    }
  }

  /** There is one document per distinct host name, named after it, and
      its checks are the checks of that host's rows in row order. */
  lemma NerdsFormatGroups(columns: seq<string>, data: seq<seq<Value>>, h: Value)
    requires NerdsFormat(columns, data).Ok?
    ensures var es := TryAll(RowParser(columns), data).value; var m := NerdsFormat(columns, data).value;
      && (h in m <==> h in KeySet(Pairs(es)))
      && (h in m ==> m[h].name == h && m[h].checks == Members(Pairs(es), h))
  {
    var es := TryAll(RowParser(columns), data).value;
    CollectGroups(es, h);
    FirstKeysSpec(Pairs(es), h);
  }

  /** A host's alias and address come from its first row. */
  lemma NerdsFormatFirstRow(columns: seq<string>, data: seq<seq<Value>>, i: nat)
    requires NerdsFormat(columns, data).Ok? && i < |data| && RowEntry(columns, data[i]).Ok?
    requires forall j :: 0 <= j < i ==>
               RowEntry(columns, data[j]).Ok? && RowEntry(columns, data[j]).value.host != RowEntry(columns, data[i]).value.host
    ensures var e := RowEntry(columns, data[i]).value; var m := NerdsFormat(columns, data).value;
      e.host in m && m[e.host].alias == e.alias && m[e.host].address == e.address
  {
    var es := TryAll(RowParser(columns), data).value;
    NerdsFormatOk(columns, data);
    CollectFirst(es, i);
  }

  /** Every row is one check of exactly one document: the documents'
      checks together are as many as the rows. */
  lemma NerdsFormatEveryRow(columns: seq<string>, data: seq<seq<Value>>)
    requires NerdsFormat(columns, data).Ok?
    ensures var es := TryAll(RowParser(columns), data).value;
      |es| == |data| && SumMembers(Pairs(es), FirstKeys(Pairs(es))) == |data|
  {
    var es := TryAll(RowParser(columns), data).value;
    NerdsFormatOk(columns, data);
    EveryValueOnce(Pairs(es));
  }
}
