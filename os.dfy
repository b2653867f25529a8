/**
 * The local filesystem as the writer sees it through os.WriteFile: a map
 * from file name to contents, and an oracle telling whether a write to a
 * name succeeds (the directory exists, is a directory, and is writable).
 */
module Os {
  /** File contents. */
  type Bytes = seq<bv8>

  class FileSystem {
    var files: map<string, Bytes>
    const canWrite: string -> bool

    constructor (files: map<string, Bytes>, canWrite: string -> bool)
      ensures this.files == files && this.canWrite == canWrite
    {
      this.files := files;
      this.canWrite := canWrite;
    }

    /** os.WriteFile: replaces the whole file on success and changes nothing on failure. */
    method WriteFile(name: string, data: Bytes) returns (ok: bool)
      modifies this
      ensures ok == canWrite(name)
      ensures files == if ok then old(files)[name := data] else old(files)
    {
      ok := canWrite(name);
      if ok {
        files := files[name := data];
      }
    }
  }
}
