/** The idempotency store of `src/utils/idempotency.js`: one JSON record per repository,
    in `<repoRoot>/.git/haitask-state.json`, remembering the last task created for a
    commit. */
module Idempotency {
  import opened Results
  import opened Strings
  import Json
  import Files

  const StateFileName: string := "haitask-state.json"

  /** `join(repoRoot || '', '.git', STATE_FILENAME)`, without `join`'s normalisation. */
  function StatePath(repoRoot: string): (p: string)
    ensures repoRoot != "" ==> p == repoRoot + "/.git/" + StateFileName
    ensures repoRoot == "" ==> p == ".git/" + StateFileName
  {
    (if repoRoot != "" then repoRoot + "/" else "") + ".git/" + StateFileName
  }

  /** A root that `path.join` leaves as it is: not empty, no trailing slash, and no
      empty (except the leading one of an absolute path), `.` or `..` segment. For such
      a root the concatenation of `StatePath` is the path `join` builds. */
  predicate NormalRoot(root: string) {
    var segs := Split(root, '/');
    && root != "" && root[|root| - 1] != '/'
    && forall k | 0 <= k < |segs| :: (segs[k] == "" ==> k == 0) && segs[k] != "." && segs[k] != ".."
  }

  /** Distinct normalised roots have distinct state files. (Roots that `join` normalises
      to the same path, such as "/repo" and "/repo/", share one in the program.) */
  lemma StatePathInjective(a: string, b: string)
    requires NormalRoot(a) && NormalRoot(b) && StatePath(a) == StatePath(b)
    ensures a == b
  {
    var suffix := "/.git/" + StateFileName;
    assert StatePath(a) == a + suffix && StatePath(b) == b + suffix;
    assert |a| == |b|;
    assert a == StatePath(a)[..|a|];
  }

  /** What `readState(repoRoot)` returns for the file map `entries`: the stored value
      when it is an object (or array), `null` (None) in every other case. */
  function ReadFrom(entries: map<string, Files.Entry>, repoRoot: string, parse: string -> Json.ParseOutcome)
    : (r: Option<Json.Value>)
    ensures r.Some? ==> !Blank(repoRoot) && (r.value.Obj? || r.value.Arr?)
    ensures Blank(repoRoot) || StatePath(repoRoot) !in entries ==> r.None?
    ensures r.Some? ==> var e := entries[StatePath(repoRoot)];
      e.Text? && parse(e.contents) == Json.Parsed(r.value)
    ensures !Blank(repoRoot) && StatePath(repoRoot) in entries && entries[StatePath(repoRoot)].Text? ==>
      var outcome := parse(entries[StatePath(repoRoot)].contents);
      outcome.Parsed? && (outcome.value.Obj? || outcome.value.Arr?) ==> r == Some(outcome.value)
  {
    if Blank(repoRoot) then None
    else match Files.ReadEntry(entries, StatePath(repoRoot))
      case None => None
      case Some(Err(_)) => None
      case Some(Ok(raw)) =>
        match parse(raw)
        case SyntaxError(_) => None
        case Parsed(data) => if Json.Truthy(Some(data)) && Json.IsObjectLike(Some(data)) then Some(data) else None
  }

  /** `writeState`'s guard: a non-blank root, and a truthy `commitHash` and `taskKey`. */
  predicate WillWrite(repoRoot: string, state: Option<Json.Value>) {
    !Blank(repoRoot) && Json.Truthy(Json.GetOpt(state, "commitHash")) && Json.Truthy(Json.GetOpt(state, "taskKey"))
  }

  /** The file map after `writeState(repoRoot, state)`; `stringify` stands for
      `JSON.stringify(state, null, 0)`. A failed write leaves everything as it was. */
  function WriteTo(entries: map<string, Files.Entry>, readOnly: set<string>, repoRoot: string,
                   state: Option<Json.Value>, stringify: Json.Value -> string): (r: map<string, Files.Entry>)
    ensures !WillWrite(repoRoot, state) || StatePath(repoRoot) in readOnly ==> r == entries
    ensures forall p | p in entries && p != StatePath(repoRoot) :: p in r && r[p] == entries[p]
    ensures r.Keys <= entries.Keys + {StatePath(repoRoot)}
  {
    if !WillWrite(repoRoot, state) then entries
    else if StatePath(repoRoot) in readOnly then entries
    else entries[StatePath(repoRoot) := Files.Text(stringify(state.value))]
  }

  /** `readState(repoRoot)`. */
  method ReadState(fs: Files.FileSystem, repoRoot: string, parse: string -> Json.ParseOutcome)
    returns (r: Option<Json.Value>)
    ensures r == ReadFrom(fs.entries, repoRoot, parse)
  {
    if Trim(repoRoot) == "" {
      return None;
    }
    var path := StatePath(repoRoot);
    if !fs.Exists(path) {
      return None;
    }
    match fs.entries[path] {
      case Text(raw) =>
        match parse(raw) {
          case Parsed(data) =>
            if Json.Truthy(Some(data)) && Json.IsObjectLike(Some(data)) {
              return Some(data);
            }
            return None;
          case SyntaxError(_) =>
            return None;
        }
      case Unreadable(_) =>
        return None;
    }
  }

  /** `writeState(repoRoot, state)`: write errors are swallowed. */
  method WriteState(fs: Files.FileSystem, repoRoot: string, state: Option<Json.Value>, stringify: Json.Value -> string)
    modifies fs
    ensures fs.readOnly == old(fs.readOnly)
    ensures fs.entries == WriteTo(old(fs.entries), fs.readOnly, repoRoot, state, stringify)
  {
    if Trim(repoRoot) == "" || !Json.Truthy(Json.GetOpt(state, "commitHash")) || !Json.Truthy(Json.GetOpt(state, "taskKey")) {
      return;
    }
    var path := StatePath(repoRoot);
    var _ := fs.Write(path, stringify(state.value));
  }

  /** A successful write followed by a read of the same root returns the record written,
      provided `JSON.parse` reads back what `JSON.stringify` wrote. */
  lemma WriteThenRead(entries: map<string, Files.Entry>, readOnly: set<string>, repoRoot: string,
                      state: Json.Value, stringify: Json.Value -> string, parse: string -> Json.ParseOutcome)
    requires WillWrite(repoRoot, Some(state)) && StatePath(repoRoot) !in readOnly
    requires parse(stringify(state)) == Json.Parsed(state)
    ensures ReadFrom(WriteTo(entries, readOnly, repoRoot, Some(state), stringify), repoRoot, parse) == Some(state)
  {
    assert state.Obj?;
  }

  /** A write for one repository does not change what is read for another, the two
      roots being distinct normalised paths. */
  lemma WriteKeepsOtherRoots(entries: map<string, Files.Entry>, readOnly: set<string>, repoRoot: string,
                             other: string, state: Option<Json.Value>, stringify: Json.Value -> string,
                             parse: string -> Json.ParseOutcome)
    requires !Blank(other) && NormalRoot(other) && NormalRoot(repoRoot) && other != repoRoot
    ensures ReadFrom(WriteTo(entries, readOnly, repoRoot, state, stringify), other, parse)
         == ReadFrom(entries, other, parse)
  {
    if WillWrite(repoRoot, state) && StatePath(repoRoot) == StatePath(other) {
      StatePathInjective(repoRoot, other);
    }
  }
}
