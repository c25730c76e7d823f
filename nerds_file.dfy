/** nerds_utils/file.py: merge a new host document into the stored one
    (the new producer keys overwrite, every other host key survives) and
    write it to <out_dir>/<lower-cased host name>.json. */
module NerdsFile {
  import opened Py
  import opened Json
  import opened NerdsStore
  import Strs

  /** current.get('host').update(new_nerds.get('host')) on a dict current,
      as a new value: the host entry keeps its place. */
  function UpdateHost(current: Value, newNerds: Value): (r: Result<Value>)
    ensures r.Ok? ==> r.value.Obj? && current.Obj? && HasKey(r.value.fields, "host")
  {
    if !current.Obj? then Err(AttributeError)
    else
      var host := GetDefault(current.fields, "host", Null);
      if !host.Obj? then Err(AttributeError)
      else if !newNerds.Obj? then Err(AttributeError)
      else
        var newHost := GetDefault(newNerds.fields, "host", Null);
        if newHost.Null? then Err(TypeError)
        else if !newHost.Obj? then Err(Unsupported)
        else
          PutGet(current.fields, "host", Obj(Update(host.fields, newHost.fields)));
          Ok(Obj(Put(current.fields, "host", Obj(Update(host.fields, newHost.fields)))))
  }

  /** merge_nerds_file(current, new_nerds). */
  function Merge(current: Value, newNerds: Value): Result<Value> {
    if Truthy(current) then UpdateHost(current, newNerds) else Ok(newNerds)
  }

  /** load_nerds_file: a file json.load rejects reads as None. */
  function Load(s: Stored): Value {
    match s
    case Doc(v) => v
    case Corrupt => Null
  }

  /** The host entry of a document, when it is a dict. */
  function HostOf(doc: Value): Fields
    requires doc.Obj? && GetDefault(doc.fields, "host", Null).Obj?
  {
    GetDefault(doc.fields, "host", Null).fields
  }

  /** After a merge into a truthy document, each host key of the new
      document reads its new value and every other host key reads what it
      read before. */
  lemma MergeKeeps(current: Value, newNerds: Value, k: string)
    requires Truthy(current) && Merge(current, newNerds).Ok?
    requires DistinctKeys(HostOf(newNerds))
    ensures GetDefault(Merge(current, newNerds).value.fields, "host", Null).Obj?
    ensures Get(HostOf(Merge(current, newNerds).value), k) ==
      if HasKey(HostOf(newNerds), k) then Get(HostOf(newNerds), k) else Get(HostOf(current), k)
  {
    PutGet(current.fields, "host", Obj(Update(HostOf(current), HostOf(newNerds))));
    GetUpdate(HostOf(current), HostOf(newNerds), k);
  }

  /** With a falsy current document the new one is taken as it is. */
  lemma MergeFalsy(current: Value, newNerds: Value)
    requires !Truthy(current)
    ensures Merge(current, newNerds) == Ok(newNerds)
  {
  }

  /** Merging the same document twice is merging it once. */
  lemma MergeIdempotent(current: Value, newNerds: Value)
    requires Merge(current, newNerds).Ok?
    requires newNerds.Obj? && GetDefault(newNerds.fields, "host", Null).Obj?
    requires DistinctKeys(HostOf(newNerds))
    ensures Merge(Merge(current, newNerds).value, newNerds) == Merge(current, newNerds)
  {
    var g := HostOf(newNerds);
    if Truthy(current) {
      var h := HostOf(current);
      var u := Update(h, g);
      var f := Put(current.fields, "host", Obj(u));
      PutGet(current.fields, "host", Obj(u));
      UpdateIdempotent(h, g);
      PutSame(f, "host", Obj(u));
    } else if Truthy(newNerds) {
      forall i | 0 <= i < |g|
        ensures Get(g, g[i].0) == Some(g[i].1)
      {
        GetDistinct(g, i);
      }
      UpdateNoop(g, g);
      PutSame(newNerds.fields, "host", Obj(g));
    }
  }

  /** What save_to_json writes, and under which name, with merge as its
      merge argument: nothing when nerds is falsy or has no truthy host
      name. */
  function Target(files: map<string, Stored>, nerds: Value, merge: (Value, Value) -> Result<Value>): Result<Option<(string, Value)>> {
    if !Truthy(nerds) then Ok(None)
    else if !nerds.Obj? then Err(AttributeError)
    else
      var host := GetDefault(nerds.fields, "host", Obj([]));
      if !host.Obj? then Err(AttributeError)
      else
        var name := GetDefault(host.fields, "name", Null);
        if !Truthy(name) then Ok(None)
        else if !name.Str? then Err(AttributeError)
        else
          var fileName := FileName(Strs.Lower(name.s));
          if fileName in files then
            var merged :- merge(Load(files[fileName]), nerds);
            Ok(Some((fileName, merged)))
          else Ok(Some((fileName, nerds)))
  }

  /** save_to_json(nerds, out_dir, merge): create the directory, then
      write the merged document. */
  method SaveToJson(d: Directory, nerds: Value, merge: (Value, Value) -> Result<Value>) returns (r: Result<()>)
    modifies d
    ensures d.present
    ensures r.Ok? <==> Target(old(d.files), nerds, merge).Ok?
    ensures r.Ok? ==> d.files == Written(old(d.files), Target(old(d.files), nerds, merge).value)
    ensures r.Err? ==> d.files == old(d.files) && r.error == Target(old(d.files), nerds, merge).error
  {
    if !d.present {
      d.present := true;
    }
    var target := Target(d.files, nerds, merge);
    if target.Err? {
      return Err(target.error);
    }
    if target.value.Some? {
      var (fileName, doc) := target.value.value;
      d.files := d.files[fileName := Doc(doc)];
    }
    r := Ok(());
  }

  /** The name written is the lower-cased host name plus .json; a first
      write stores nerds as it is, and with the default merge_nerds_file
      so does a write over a file that does not parse. */
  lemma TargetSpec(files: map<string, Stored>, nerds: Value, host: Fields, name: string)
    requires nerds.Obj? && Get(nerds.fields, "host") == Some(Obj(host))
    requires Get(host, "name") == Some(Str(name)) && name != ""
    ensures var fileName := FileName(Strs.Lower(name));
      && (fileName !in files || files[fileName] == Corrupt ==> Target(files, nerds, Merge) == Ok(Some((fileName, nerds))))
      && (Target(files, nerds, Merge).Ok? ==>
            Target(files, nerds, Merge).value.Some? && Target(files, nerds, Merge).value.value.0 == fileName)
  {
    assert Truthy(nerds) by {
      assert nerds.fields != [];
    }
  }

  /** Saving the same document twice with the default merge_nerds_file
      leaves the directory as saving it once. */
  lemma SaveIdempotent(files: map<string, Stored>, nerds: Value)
    requires Target(files, nerds, Merge).Ok?
    requires nerds.Obj? && GetDefault(nerds.fields, "host", Obj([])).Obj?
    requires DistinctKeys(GetDefault(nerds.fields, "host", Obj([])).fields)
    ensures var once := Written(files, Target(files, nerds, Merge).value);
      Target(once, nerds, Merge).Ok? && Written(once, Target(once, nerds, Merge).value) == once
  {
    var t := Target(files, nerds, Merge).value;
    if t.Some? {
      var (fileName, doc) := t.value;
      assert Merge(doc, nerds) == Ok(doc) by {
        if fileName in files {
          MergeIdempotent(Load(files[fileName]), nerds);
        } else {
          assert Truthy(nerds);
          MergeIdempotent(Null, nerds);
        }
      }
      TargetAgain(files, nerds, Merge, fileName, doc);
    }
  }

  /** Once the document written merges with nerds into itself, saving
      nerds again with the same merge targets the same file with the
      same document. */
  lemma TargetAgain(files: map<string, Stored>, nerds: Value, merge: (Value, Value) -> Result<Value>, fileName: string, doc: Value)
    requires Target(files, nerds, merge) == Ok(Some((fileName, doc)))
    requires merge(doc, nerds) == Ok(doc)
    ensures Target(files[fileName := Doc(doc)], nerds, merge) == Ok(Some((fileName, doc)))
  {
  }

  /** A save over a stored document writes merge(current, nerds) under
      that document's name. */
  lemma TargetStored(files: map<string, Stored>, nerds: Value, merge: (Value, Value) -> Result<Value>,
                     fileName: string, current: Value, saved: Value)
    requires fileName in files && files[fileName] == Doc(current)
    requires Target(files, nerds, merge) == Ok(Some((fileName, saved)))
    ensures merge(current, nerds) == Ok(saved)
  {
  }
}
