/** utils/file.py: the older merge-on-write helper.  It differs from
    nerds_utils/file.py in three ways: the document must be a dict, the host
    name is used as it is (not lower-cased, and formatted when it is not a
    string), and the merge reads the file itself. */
module UtilsFile {
  import opened Py
  import opened Json
  import opened NerdsStore
  import NerdsFile
  import Strs

  /** merge_nerds_file(file_name, new_nerds): load the stored file (None
      when it does not parse), then merge as nerds_utils does. */
  function MergeFile(s: Stored, newNerds: Value): (r: Result<Value>)
    ensures s.Corrupt? ==> r == Ok(newNerds)
  {
    NerdsFile.Merge(NerdsFile.Load(s), newNerds)
  }

  /** What save_to_json writes, and under which name. */
  function Target(files: map<string, Stored>, nerds: Value): (r: Result<Option<(string, Value)>>)
    ensures !nerds.Obj? ==> r == Err(AttributeError)
    ensures nerds.Obj? && GetDefault(nerds.fields, "host", Obj([])).Obj? ==>
      var name := GetDefault(GetDefault(nerds.fields, "host", Obj([])).fields, "name", Null);
      (!Truthy(name) ==> r == Ok(None)) &&
      (name.Str? && name.s != "" && r.Ok? ==> r.value.Some? && r.value.value.0 == name.s + ".json")
  {
    if !nerds.Obj? then Err(AttributeError)
    else
      var host := GetDefault(nerds.fields, "host", Obj([]));
      if !host.Obj? then Err(AttributeError)
      else
        var name := GetDefault(host.fields, "name", Null);
        if !Truthy(name) then Ok(None)
        else
          var shown :- Format(name);
          var fileName := FileName(shown);
          if fileName in files then
            var merged :- MergeFile(files[fileName], nerds);
            Ok(Some((fileName, merged)))
          else Ok(Some((fileName, nerds)))
  }

  /** save_to_json(nerds, out_dir). */
  method SaveToJson(d: Directory, nerds: Value) returns (r: Result<()>)
    modifies d
    ensures d.present
    ensures r.Ok? <==> Target(old(d.files), nerds).Ok?
    ensures r.Ok? ==> d.files == Written(old(d.files), Target(old(d.files), nerds).value)
    ensures r.Err? ==> d.files == old(d.files) && r.error == Target(old(d.files), nerds).error
  {
    if !d.present {
      d.present := true;
    }
    var target := Target(d.files, nerds);
    if target.Err? {
      return Err(target.error);
    }
    if target.value.Some? {
      var (fileName, doc) := target.value.value;
      d.files := d.files[fileName := Doc(doc)];
    }
    r := Ok(());
  }

  /** On a dict document whose host name is a lower-case string, the older
      helper writes what nerds_utils writes, under the same name. */
  lemma AgreesWithNerdsFile(files: map<string, Stored>, nerds: Value, name: string)
    requires nerds.Obj? && GetDefault(nerds.fields, "host", Obj([])).Obj?
    requires GetDefault(GetDefault(nerds.fields, "host", Obj([])).fields, "name", Null) == Str(name)
    requires Strs.Lower(name) == name
    ensures Target(files, nerds) == NerdsFile.Target(files, nerds, NerdsFile.Merge)
  {
    if name != "" {
      assert Truthy(nerds) by {
        assert HasKey(nerds.fields, "host");
      }
    }
  }

  /** An integer host name is written under its decimal digits. */
  lemma IntegerName(files: map<string, Stored>, nerds: Value, n: int)
    requires nerds.Obj? && GetDefault(nerds.fields, "host", Obj([])).Obj?
    requires GetDefault(GetDefault(nerds.fields, "host", Obj([])).fields, "name", Null) == Int(n)
    requires n != 0
    ensures Target(files, nerds).Ok? ==>
              Target(files, nerds).value == Some((FileName(Strs.IntToStr(n)), Target(files, nerds).value.value.1))
  {
  }

  /** Saving the same document twice leaves the directory as saving it
      once. */
  lemma SaveIdempotent(files: map<string, Stored>, nerds: Value)
    requires Target(files, nerds).Ok?
    requires nerds.Obj? && GetDefault(nerds.fields, "host", Obj([])).Obj?
    requires DistinctKeys(GetDefault(nerds.fields, "host", Obj([])).fields)
    ensures var once := Written(files, Target(files, nerds).value);
      Target(once, nerds).Ok? && Written(once, Target(once, nerds).value) == once
  {
    var t := Target(files, nerds).value;
    if t.Some? {
      var (fileName, doc) := t.value;
      var once := files[fileName := Doc(doc)];
      if fileName in files {
        NerdsFile.MergeIdempotent(NerdsFile.Load(files[fileName]), nerds);
      } else {
        assert Truthy(nerds) by {
          assert HasKey(nerds.fields, "host");
        }
        NerdsFile.MergeIdempotent(Null, nerds);
      }
      assert Target(once, nerds) == Ok(Some((fileName, doc)));
    }
  }
}
