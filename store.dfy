/** The output directory the producers write their per-host documents
    into, held in memory: file names mapped to what json.load would make of
    each file. */
module NerdsStore {
  import opened Py
  import opened Json

  /** A stored file: a document json.load reads back, or text it rejects. */
  datatype Stored = Doc(doc: Value) | Corrupt

  /** An output directory: whether it exists yet, and its .json files by
      name. */
  class Directory {
    var present: bool
    var files: map<string, Stored>

    constructor(present: bool, files: map<string, Stored>)
      ensures this.present == present && this.files == files
    {
      this.present := present;
      this.files := files;
    }
  }

  /** "{}.json".format(host) for a host name that is a string. */
  function FileName(host: string): string {
    host + ".json"
  }

  /** The contents a write leaves behind: the written entry, or nothing
      changed when there is nothing to write. */
  function Written(files: map<string, Stored>, w: Option<(string, Value)>): map<string, Stored> {
    match w
    case None => files
    case Some((name, doc)) => files[name := Doc(doc)]
  }
}
