/**
 * The output writer of internal/output/writer.go: `WriteToFile` derives the
 * file name `<path>/<key>.json`, marshals the issue, then writes it, with a
 * distinct error for each of the two steps that can fail.
 */
module Output {
  import opened Wrappers
  import opened GoJira
  import opened Os

  /** json.MarshalIndent(issue, "", "  "): the bytes, or None when encoding fails. */
  type Marshal = Issue -> Option<Bytes>

  /** `fmt.Sprintf("%s/%s.json", path, key)`: no cleaning of the path, no sanitising of the key. */
  function FileName(path: string, key: string): string
  {
    path + "/" + key + ".json"
  }

  /** The name starts with the directory and a slash, ends in `.json`, and holds the key verbatim between them. */
  lemma FileNameShape(path: string, key: string)
    ensures var file := FileName(path, key);
      && |file| == |path| + |key| + 6
      && file[..|path| + 1] == path + "/"
      && file[|path| + 1..|file| - 5] == key
      && file[|file| - 5..] == ".json"
  {
  }

  /** Within one directory, distinct keys are written to distinct files. */
  lemma FileNameInjective(path: string, key1: string, key2: string)
    requires key1 != key2
    ensures FileName(path, key1) != FileName(path, key2)
  {
    FileNameShape(path, key1);
    FileNameShape(path, key2);
  }

  /** The two failure points of WriteToFile. */
  datatype WriteError = MarshalFailed | WriteFailed(file: string)

  /** The error WriteToFile returns and the file map it leaves behind. */
  datatype WriteResult = WriteResult(err: Option<WriteError>, files: map<string, Bytes>)

  /** What WriteToFile does to a file map. */
  function WriteSpec(marshal: Marshal, canWrite: string -> bool, path: string, issue: Issue,
                     files: map<string, Bytes>): WriteResult
  {
    var file := FileName(path, issue.key);
    match marshal(issue)
    case None => WriteResult(Some(MarshalFailed), files)
    case Some(data) =>
      if canWrite(file) then WriteResult(None, files[file := data])
      else WriteResult(Some(WriteFailed(file)), files)
  }

  /**
   * WriteToFile returns nil exactly when marshal and write both succeed; a
   * marshal failure is reported before any write is tried; a failure
   * leaves every file as it was; on success only the derived file changes,
   * and it holds exactly the marshalled bytes.
   */
  lemma WriteSpecOutcome(marshal: Marshal, canWrite: string -> bool, path: string, issue: Issue,
                         files: map<string, Bytes>)
    ensures var r := WriteSpec(marshal, canWrite, path, issue, files);
      var file := FileName(path, issue.key);
      && (r.err.None? <==> marshal(issue).Some? && canWrite(file))
      && (marshal(issue).None? ==> r.err == Some(MarshalFailed))
      && (marshal(issue).Some? && r.err.Some? ==> r.err == Some(WriteFailed(file)))
      && (r.err.Some? ==> r.files == files)
      && (r.err.None? ==> r.files.Keys == files.Keys + {file} && r.files[file] == marshal(issue).value)
      && (forall f :: f in files && f != file ==> r.files[f] == files[f])
  {
  }

  /** The stateless Writer; the JSON encoder it uses is fixed when it is made. */
  class Writer {
    const marshal: Marshal

    /** NewWriter. */
    constructor (marshal: Marshal)
      ensures this.marshal == marshal
    {
      this.marshal := marshal;
    }

    method WriteToFile(fs: FileSystem, path: string, issue: Issue) returns (err: Option<WriteError>)
      modifies fs
      ensures WriteResult(err, fs.files) == WriteSpec(marshal, fs.canWrite, path, issue, old(fs.files))
    {
      var file := FileName(path, issue.key);
      var data := marshal(issue);
      if data.None? {
        return Some(MarshalFailed);
      }
      var ok := fs.WriteFile(file, data.value);
      if !ok {
        return Some(WriteFailed(file));
      }
      return None;
    }
  }
}
