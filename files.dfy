/** The part of the file system the configuration and state code touches: a map from
    path to contents, where some paths cannot be read and some cannot be written. */
module Files {
  import opened Results

  /** A file that exists: its text, or the reason `readFileSync` fails on it. */
  datatype Entry = Text(contents: string) | Unreadable(reason: string)

  /** `path.resolve(cwd, p)` without normalisation: absolute paths are kept, relative
      ones are placed under `cwd`. */
  function Resolve(cwd: string, p: string): (r: string)
    ensures |p| > 0 && p[0] == '/' ==> r == p
    ensures (|p| == 0 || p[0] != '/') ==> r == cwd + "/" + p
  {
    if |p| > 0 && p[0] == '/' then p else cwd + "/" + p
  }

  /** Node's message for a write into a location the process may not write. */
  function WriteError(path: string): string {
    "EACCES: permission denied, open '" + path + "'"
  }

  /** The contents of `path`, as `readFileSync` returns them, after `existsSync` said yes. */
  function ReadEntry(entries: map<string, Entry>, path: string): (r: Option<Result<string>>)
    ensures r.None? <==> path !in entries
    ensures r.Some? && r.value.Ok? <==> path in entries && entries[path].Text?
  {
    if path !in entries then None
    else match entries[path]
      case Text(s) => Some(Ok(s))
      case Unreadable(reason) => Some(Err(reason))
  }

  class FileSystem {
    var entries: map<string, Entry>
    /** Paths where `writeFileSync` throws (a read-only directory, say). */
    var readOnly: set<string>

    constructor (entries: map<string, Entry>, readOnly: set<string>)
      ensures this.entries == entries && this.readOnly == readOnly
    {
      this.entries := entries;
      this.readOnly := readOnly;
    }

    /** `existsSync(path)`. */
    predicate Exists(path: string)
      reads this
    {
      path in entries
    }

    /** `writeFileSync(path, contents)`: replaces the contents, or fails and changes nothing. */
    method Write(path: string, contents: string) returns (err: Option<string>)
      modifies this
      ensures readOnly == old(readOnly)
      ensures path in readOnly ==> err == Some(WriteError(path)) && entries == old(entries)
      ensures path !in readOnly ==> err.None? && entries == old(entries)[path := Text(contents)]
    {
      if path in readOnly {
        return Some(WriteError(path));
      }
      entries := entries[path := Text(contents)];
      return None;
    }
  }
}
