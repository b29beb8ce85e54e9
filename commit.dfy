/** The commit data of the last `n` commits, computed from what three `git` commands
    printed: `git log -<n> --pretty=format:%B%x00` (each message followed by a NUL),
    `git rev-parse --abbrev-ref HEAD` and `git rev-parse --show-toplevel`. */
module Commit {
  import opened Results
  import opened Strings

  /** The separator between the messages of a batch. */
  const BatchSep: string := "\n\n---\n\n"

  /** `{ message, branch, repoName, count }`. */
  datatype CommitData = CommitData(message: string, branch: string, repoName: string, count: nat)

  /** `Math.max(1, Number(n) || 1)`, where `n` is the value of `Number(n)` (None for NaN). */
  function RequestedCount(n: Option<int>): (num: int)
    ensures num >= 1
    ensures n.None? ==> num == 1
    ensures n.Some? && n.value >= 1 ==> num == n.value
    ensures n.Some? && n.value < 1 ==> num == 1
  {
    var v := if n.None? || n.value == 0 then 1 else n.value;
    if v > 1 then v else 1
  }

  /** `.map((s) => s.trim()).filter(Boolean)`: the trimmed segments that are not empty. */
  function TrimmedNonEmpty(segs: seq<string>): (r: seq<string>)
    ensures |r| <= |segs|
    ensures forall k | 0 <= k < |r| :: r[k] != "" && IsTrimmed(r[k])
  {
    if segs == [] then []
    else
      var t := Trim(segs[0]);
      (if t != "" then [t] else []) + TrimmedNonEmpty(segs[1..])
  }

  /** `.filter(Boolean)` keeps the order: the kept segments of a concatenation are those
      of its first half followed by those of its second half. */
  lemma {:induction false} TrimmedNonEmptyAppend(xs: seq<string>, ys: seq<string>)
    ensures TrimmedNonEmpty(xs + ys) == TrimmedNonEmpty(xs) + TrimmedNonEmpty(ys)
  {
    if xs == [] {
      assert xs + ys == ys;
    } else {
      var t := Trim(xs[0]);
      var head := if t != "" then [t] else [];
      assert (xs + ys)[0] == xs[0];
      assert (xs + ys)[1..] == xs[1..] + ys;
      TrimmedNonEmptyAppend(xs[1..], ys);
      var a, b := TrimmedNonEmpty(xs[1..]), TrimmedNonEmpty(ys);
      assert TrimmedNonEmpty(xs + ys) == head + (a + b);
      assert TrimmedNonEmpty(xs) == head + a;
      assert head + (a + b) == (head + a) + b;
    }
  }

  /** One segment is kept, trimmed, exactly when it is not blank. */
  lemma TrimmedNonEmptySingle(seg: string)
    ensures TrimmedNonEmpty([seg]) == if AllSpace(seg) then [] else [Trim(seg)]
  {
    assert [seg][1..] == [];
  }

  /** The messages kept: the first `num` non-empty trimmed NUL-separated segments. */
  function Parts(raw: string, num: int): (parts: seq<string>)
    requires num >= 1
    ensures var all := TrimmedNonEmpty(Split(raw, '\0'));
      parts <= all && |parts| == if |all| <= num then |all| else num
  {
    var all := TrimmedNonEmpty(Split(raw, '\0'));
    if |all| <= num then all else all[..num]
  }

  /** Node's POSIX `path.basename`: the last segment, ignoring trailing slashes; that is,
      the slash-free suffix of `p` without its trailing slashes that is either all of it
      or follows a slash. */
  function Basename(p: string): (r: string)
    ensures '/' !in r
    ensures '/' !in p ==> r == p
    ensures var q := StripTrailingSlashes(p);
      && |r| <= |q| && r == q[|q| - |r|..]
      && (|r| < |q| ==> q[|q| - |r| - 1] == '/')
  {
    var q := StripTrailingSlashes(p);
    var r := LastSegment(q);
    assert '/' !in p ==> q == p && r == p;
    r
  }

  /** `p` without its trailing slashes. */
  function StripTrailingSlashes(p: string): (r: string)
    ensures '/' !in p ==> r == p
    ensures |r| <= |p| && r == p[..|r|]
    ensures r == [] || r[|r| - 1] != '/'
    ensures forall i | |r| <= i < |p| :: p[i] == '/'
  {
    if p != [] && p[|p| - 1] == '/' then StripTrailingSlashes(p[..|p| - 1]) else p
  }

  /** The longest slash-free suffix of `p`. */
  function LastSegment(p: string): (r: string)
    ensures '/' !in r
    ensures '/' !in p ==> r == p
    ensures |r| <= |p| && r == p[|p| - |r|..]
    ensures |r| < |p| ==> p[|p| - |r| - 1] == '/'
  {
    if p == [] then []
    else if p[|p| - 1] == '/' then []
    else LastSegment(p[..|p| - 1]) + [p[|p| - 1]]
  }

  /** The post-processing of `getLatestCommitsData(n)`. */
  function GetLatestCommitsData(n: Option<int>, logOut: string, branchOut: string, rootOut: string): (d: CommitData)
    ensures d.count == |Parts(logOut, RequestedCount(n))| <= RequestedCount(n)
    ensures var all := TrimmedNonEmpty(Split(logOut, '\0'));
      d.count == if |all| <= RequestedCount(n) then |all| else RequestedCount(n)
    ensures d.branch == Trim(branchOut)
    ensures d.repoName == if Trim(rootOut) == "" then "" else Basename(Trim(rootOut))
  {
    var num := RequestedCount(n);
    var root := Trim(rootOut);
    var parts := Parts(logOut, num);
    var message := if |parts| > 1 then Join(parts, BatchSep) else if |parts| == 1 then parts[0] else Trim(logOut);
    CommitData(message, Trim(branchOut), if root != "" then Basename(root) else "", |parts|)
  }

  /** `getLatestCommitData()`: the same with `n = 1`, so at most one commit. */
  function GetLatestCommitData(logOut: string, branchOut: string, rootOut: string): (d: CommitData)
    ensures var all := TrimmedNonEmpty(Split(logOut, '\0'));
      && (d.count == 1 <==> all != []) && d.count <= 1
      && (all != [] ==> d.message == all[0])
      && (all == [] ==> d.message == Trim(logOut))
  {
    GetLatestCommitsData(Some(1), logOut, branchOut, rootOut)
  }

  /** Every kept message is non-empty, trimmed, free of NUL and stands in the log output. */
  lemma {:induction false} PartsAreLogMessages(raw: string, num: int, k: nat)
    requires num >= 1 && k < |Parts(raw, num)|
    ensures var p := Parts(raw, num)[k];
      p != "" && IsTrimmed(p) && '\0' !in p && Contains(raw, p)
  {
    var segs := Split(raw, '\0');
    assert Parts(raw, num)[k] == TrimmedNonEmpty(segs)[k];
    var j := TrimmedNonEmptyOrigin(segs, k);
    JoinSplit(raw, '\0');
    ContainsJoined(segs, ['\0'], j);
    ContainsTrim(segs[j]);
    ContainsTrans(raw, segs[j], Trim(segs[j]));
    NoCharInTrim(segs[j], '\0');
  }

  /** Each kept segment is the trimmed form of some segment. */
  lemma {:induction false} TrimmedNonEmptyOrigin(segs: seq<string>, k: nat) returns (j: nat)
    requires k < |TrimmedNonEmpty(segs)|
    ensures j < |segs| && TrimmedNonEmpty(segs)[k] == Trim(segs[j])
  {
    var t := Trim(segs[0]);
    var head := if t != "" then [t] else [];
    assert TrimmedNonEmpty(segs) == head + TrimmedNonEmpty(segs[1..]);
    if k < |head| {
      j := 0;
    } else {
      var j' := TrimmedNonEmptyOrigin(segs[1..], k - |head|);
      j := j' + 1;
    }
  }

  lemma NoCharInTrim(s: string, c: char)
    requires c !in s
    ensures c !in Trim(s)
  {
    ContainsTrim(s);
    var i := ContainsWitness(s, Trim(s));
  }

  /** Nothing is kept exactly when every segment is blank. */
  lemma {:induction false} TrimmedNonEmptyEmpty(segs: seq<string>)
    ensures TrimmedNonEmpty(segs) == [] <==> forall k | 0 <= k < |segs| :: AllSpace(segs[k])
  {
    if segs != [] {
      TrimmedNonEmptyEmpty(segs[1..]);
      assert forall k | 1 <= k < |segs| :: segs[k] == segs[1..][k - 1];
    }
  }

  /** The message: with several commits, each of them stands in it, joined in log
      order by the batch separator; with one, it is that commit's message; with none,
      it is the whole trimmed log output. */
  lemma MessageShape(n: Option<int>, logOut: string, branchOut: string, rootOut: string)
    ensures var d := GetLatestCommitsData(n, logOut, branchOut, rootOut);
      var parts := Parts(logOut, RequestedCount(n));
      && (d.count > 1 ==> d.message == Join(parts, BatchSep)
                          && forall k | 0 <= k < |parts| :: Contains(d.message, parts[k]))
      && (d.count == 1 ==> d.message == parts[0])
      && (d.count == 0 ==> d.message == Trim(logOut))
  {
    var parts := Parts(logOut, RequestedCount(n));
    forall k | 0 <= k < |parts| ensures Contains(Join(parts, BatchSep), parts[k]) {
      ContainsJoined(parts, BatchSep, k);
    }
  }

  /** No commit is counted exactly when every NUL-separated segment of the log output is blank. */
  lemma NoCommitsMeansBlankLog(n: Option<int>, logOut: string, branchOut: string, rootOut: string)
    ensures var segs := Split(logOut, '\0');
      GetLatestCommitsData(n, logOut, branchOut, rootOut).count == 0 <==>
      forall k | 0 <= k < |segs| :: AllSpace(segs[k])
  {
    var segs := Split(logOut, '\0');
    var num := RequestedCount(n);
    PartsEmpty(logOut, num);
    TrimmedNonEmptyEmpty(segs);
  }

  lemma PartsEmpty(raw: string, num: int)
    requires num >= 1
    ensures Parts(raw, num) == [] <==> TrimmedNonEmpty(Split(raw, '\0')) == []
  {
  }
}
