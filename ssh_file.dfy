/** ssh_cmd/file.py: the template a producer starts from, and the strict
    merge-on-write helper of the ssh producer: a stored file that does not
    parse, or whose contents are not a dict with a dict host, makes the
    write fail; the output directory is not created. */
module SshFile {
  import opened Py
  import opened Json
  import opened NerdsStore
  import NerdsFile

  /** template(path, producer_name): the parsed file at path when path is
      given, otherwise {producer_name: True}. */
  function Template(path: Option<string>, producer: string, files: map<string, Stored>): (r: Result<Value>)
  {
    match path
    case Some(p) =>
      if p == "" then Ok(Obj([(producer, Bool(true))]))
      else if p !in files then Err(IOError(p))
      else (match files[p]
            case Doc(v) => Ok(v)
            case Corrupt => Err(ValueError))
    case None => Ok(Obj([(producer, Bool(true))]))
  }

  /** merge_nerds_file(file_name, new_nerds): json.load without a fallback,
      and the update without a truthiness test. */
  function MergeFile(s: Stored, newNerds: Value): (r: Result<Value>)
    ensures s.Corrupt? ==> r == Err(ValueError)
  {
    match s
    case Corrupt => Err(ValueError)
    case Doc(current) => NerdsFile.UpdateHost(current, newNerds)
  }

  /** What save_to_json writes, and under which name; without the output
      directory the write itself fails. */
  function Target(present: bool, files: map<string, Stored>, nerds: Value): (r: Result<Option<(string, Value)>>)
    ensures !nerds.Obj? ==> r == Err(AttributeError)
    ensures nerds.Obj? && GetDefault(nerds.fields, "host", Obj([])).Obj? ==>
      var name := GetDefault(GetDefault(nerds.fields, "host", Obj([])).fields, "name", Null);
      (!Truthy(name) ==> r == Ok(None)) &&
      (name.Str? && name.s != "" && r.Ok? ==> r.value.Some? && r.value.value.0 == name.s + ".json")
    ensures nerds.Obj? && GetDefault(nerds.fields, "host", Obj([])).Obj? && !present ==>
      var name := GetDefault(GetDefault(nerds.fields, "host", Obj([])).fields, "name", Null);
      name.Str? && name.s != "" ==> r == Err(IOError(name.s + ".json"))
  {
    if !nerds.Obj? then Err(AttributeError)
    else
      var host := GetDefault(nerds.fields, "host", Obj([]));
      if !host.Obj? then Err(AttributeError)
      else
        var name := GetDefault(host.fields, "name", Null);
        if !Truthy(name) then Ok(None)
        else
          var shown :- Format(name);
          var fileName := FileName(shown);
          if !present then Err(IOError(fileName))
          else if fileName in files then
            var merged :- MergeFile(files[fileName], nerds);
            Ok(Some((fileName, merged)))
          else Ok(Some((fileName, nerds)))
  }

  /** save_to_json(nerds, out_dir). */
  method SaveToJson(d: Directory, nerds: Value) returns (r: Result<()>)
    modifies d
    ensures d.present == old(d.present)
    ensures r.Ok? <==> Target(old(d.present), old(d.files), nerds).Ok?
    ensures r.Ok? ==> d.files == Written(old(d.files), Target(old(d.present), old(d.files), nerds).value)
    ensures r.Err? ==> d.files == old(d.files) && r.error == Target(old(d.present), old(d.files), nerds).error
  {
    var target := Target(d.present, d.files, nerds);
    if target.Err? {
      return Err(target.error);
    }
    if target.value.Some? {
      var (fileName, doc) := target.value.value;
      d.files := d.files[fileName := Doc(doc)];
    }
    r := Ok(());
  }

  /** template(path) on the file a successful save wrote reads back the
      document saved; without a path it is {producer_name: True}. */
  lemma TemplateReadsSaved(present: bool, files: map<string, Stored>, nerds: Value, producer: string)
    requires Target(present, files, nerds).Ok? && Target(present, files, nerds).value.Some?
    ensures var (name, doc) := Target(present, files, nerds).value.value;
      Template(Some(name), producer, Written(files, Target(present, files, nerds).value)) == Ok(doc)
    ensures Template(None, producer, files) == Ok(Obj([(producer, Bool(true))]))
  {
    var (name, doc) := Target(present, files, nerds).value.value;
    assert name[|name| - 1] == 'n';
  }

  /** On a stored truthy document the strict merge is the nerds_utils merge;
      on an empty stored dict it fails where nerds_utils takes the new
      document. */
  lemma MergeFileVersusNerds(current: Value, newNerds: Value)
    ensures Truthy(current) ==> MergeFile(Doc(current), newNerds) == NerdsFile.Merge(current, newNerds)
    ensures current == Obj([]) ==> MergeFile(Doc(current), newNerds) == Err(AttributeError)
    ensures current == Obj([]) ==> NerdsFile.Merge(current, newNerds) == Ok(newNerds)
  {
  }

  /** Saving the same document twice, once the first save succeeded, leaves
      the directory as saving it once. */
  lemma SaveIdempotent(present: bool, files: map<string, Stored>, nerds: Value)
    requires Target(present, files, nerds).Ok?
    requires nerds.Obj? && GetDefault(nerds.fields, "host", Obj([])).Obj?
    requires DistinctKeys(GetDefault(nerds.fields, "host", Obj([])).fields)
    ensures var once := Written(files, Target(present, files, nerds).value);
      Target(present, once, nerds).Ok? && Written(once, Target(present, once, nerds).value) == once
  {
    var t := Target(present, files, nerds).value;
    if t.Some? {
      var (fileName, doc) := t.value;
      var once := files[fileName := Doc(doc)];
      assert Truthy(nerds) by {
        assert HasKey(nerds.fields, "host");
      }
      if fileName in files {
        var current := files[fileName].doc;
        assert NerdsFile.UpdateHost(current, nerds).Ok?;
        assert Truthy(current) by {
          assert HasKey(current.fields, "host");
        }
        NerdsFile.MergeIdempotent(current, nerds);
        var merged := NerdsFile.Merge(current, nerds).value;
        assert Truthy(merged);
      } else {
        NerdsFile.MergeIdempotent(Null, nerds);
      }
      assert Target(present, once, nerds) == Ok(Some((fileName, doc)));
    }
  }
}
