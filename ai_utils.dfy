/** The shared AI utilities of `src/ai/utils.js`: the prompt built from commit data and
    the validation of the model's reply. */
module AiUtils {
  import opened Results
  import opened Strings
  import opened Json
  import Commit

  /** `{ system, user }`. */
  datatype Prompt = Prompt(system: string, user: string)

  /** `{ title, description, labels }` after validation. */
  datatype TaskPayload = TaskPayload(title: string, description: string, labels: seq<string>)

  /** The fixed system prompt. The source file holds a mis-encoded em dash, the three
      characters U+00E2 U+20AC U+201D, which the prompt carries as they are. */
  const SystemPrompt: string := PromptLead + "Jira" + PromptMiddle + "JSON" + PromptRest

  const PromptLead: string := "You generate a "
  const PromptMiddle: string := " task from a Git commit. Reply with a single "
  const PromptRest: string :=
    " object only, no markdown or extra text.\n"
    + "Keys: \"title\" (short Jira task title, plain language \U{00E2}\U{20AC}\U{201D} do NOT include prefixes like feat:, fix:, chore: in the title), "
    + "\"description\" (detailed description, string), \"labels\" (array of strings, e.g. [\"auto\", \"commit\"])."

  function BuildPrompt(commitData: Commit.CommitData): (p: Prompt)
    ensures p.system == SystemPrompt
    ensures Contains(p.user, commitData.repoName)
    ensures Contains(p.user, commitData.branch)
    ensures Contains(p.user, commitData.message)
  {
    var before := "Repo: " + commitData.repoName + "\nBranch: " + commitData.branch + "\nCommit message:\n";
    var user := before + commitData.message + "\n\nGenerate the JSON object.";
    PromptMentions(commitData, before, user);
    Prompt(SystemPrompt, user)
  }

  lemma PromptMentions(commitData: Commit.CommitData, before: string, user: string)
    requires before == "Repo: " + commitData.repoName + "\nBranch: " + commitData.branch + "\nCommit message:\n"
    requires user == before + commitData.message + "\n\nGenerate the JSON object."
    ensures Contains(user, commitData.repoName)
    ensures Contains(user, commitData.branch)
    ensures Contains(user, commitData.message)
  {
    var repo := commitData.repoName;
    var branch := commitData.branch;
    var msg := commitData.message;
    ContainsAt(user, repo, 6);
    assert user[6..6 + |repo|] == repo;
    ContainsAt(user, branch, 6 + |repo| + 9);
    assert user[6 + |repo| + 9..6 + |repo| + 9 + |branch|] == branch;
    ContainsAt(user, msg, |before|);
    assert user[|before|..|before| + |msg|] == msg;
  }

  /** The system prompt asks for JSON and speaks of a Jira task. */
  lemma SystemPromptMentionsJsonAndJira()
    ensures Contains(SystemPrompt, "JSON")
    ensures Contains(SystemPrompt, "Jira")
  {
    ContainsMiddle(PromptLead, "Jira", PromptMiddle);
    ContainsPrefix(PromptLead + "Jira" + PromptMiddle, "Jira", "JSON");
    ContainsPrefix(PromptLead + "Jira" + PromptMiddle + "JSON", "Jira", PromptRest);
    ContainsMiddle(PromptLead + "Jira" + PromptMiddle, "JSON", PromptRest);
  }

  /** The alternatives of `/^(feat|fix|chore|docs|style|refactor|test|build|ci):\s*\/i`. */
  const CommitTypes: seq<string> := ["feat", "fix", "chore", "docs", "style", "refactor", "test", "build", "ci"]

  /** `t` starts with `w` (ASCII case-insensitively) followed by a colon. Non-ASCII
      characters never match an ASCII letter under a non-Unicode `/i`. */
  predicate TypePrefix(t: string, w: string) {
    |t| > |w| && ToLower(t[..|w|]) == w && t[|w|] == ':'
  }

  /** The first alternative, in the order written, that the title starts with. */
  function FirstType(t: string, ws: seq<string>): (r: Option<string>)
    ensures r.Some? ==> r.value in ws && TypePrefix(t, r.value)
    ensures r.None? <==> forall w | w in ws :: !TypePrefix(t, w)
  {
    if ws == [] then None
    else if TypePrefix(t, ws[0]) then Some(ws[0])
    else FirstType(t, ws[1..])
  }

  /** `t.replace(/^(feat|…|ci):\s*\/i, '')`: the commit-type prefix and the white
      space after it removed, or `t` itself when it has no such prefix. */
  function StripCommitType(t: string): (r: string)
    ensures |r| <= |t| && r == t[|t| - |r|..]
    ensures (forall w | w in CommitTypes :: !TypePrefix(t, w)) ==> r == t
    ensures (exists w | w in CommitTypes :: TypePrefix(t, w)) ==> |r| < |t| && (r == [] || !IsSpace(r[0]))
    ensures FirstType(t, CommitTypes).Some? ==> r == TrimStart(t[|FirstType(t, CommitTypes).value| + 1..])
  {
    match FirstType(t, CommitTypes)
    case None => assert t[0..] == t; t
    case Some(w) => SkipSpaceFrom(t, |w| + 1)
  }

  /** What follows position `k` with its leading white space skipped: a suffix of `t`. */
  function SkipSpaceFrom(t: string, k: nat): (r: string)
    requires k <= |t|
    ensures |r| <= |t| - k && r == t[|t| - |r|..]
    ensures r == [] || !IsSpace(r[0])
  {
    var r := TrimStart(t[k..]);
    assert t[k..][|t| - k - |r|..] == t[|t| - |r|..];
    r
  }

  /** The title kept: the commit-type prefix stripped and trimmed, unless nothing
      would be left, in which case the trimmed raw title. */
  function CleanTitle(title: string): (r: string)
    ensures IsTrimmed(r)
    ensures r == [] <==> AllSpace(title)
  {
    var rawTitle := Trim(title);
    var stripped := Trim(StripCommitType(rawTitle));
    if stripped != "" then stripped else rawTitle
  }

  /** `parseTaskPayload(raw)`, with `JSON.parse` as `parse`. */
  function ParseTaskPayload(raw: string, parse: string -> ParseOutcome): (r: Result<TaskPayload>)
    ensures parse(raw).SyntaxError? ==> r == Err("AI response is not valid JSON: " + parse(raw).message)
    ensures parse(raw) == Parsed(Null) ==> r == Err(NullTitleError)
    ensures parse(raw).Parsed? && !parse(raw).value.Null?
      && (!IsString(Get(parse(raw).value, "title")) || !IsString(Get(parse(raw).value, "description")))
      ==> r == Err(TitleDescriptionError)
    ensures parse(raw).Parsed? && IsString(Get(parse(raw).value, "title")) && IsString(Get(parse(raw).value, "description"))
      && !(Get(parse(raw).value, "labels").Some? && Get(parse(raw).value, "labels").value.Arr?)
      ==> r == Err(LabelsError)
    ensures r.Ok? <==> parse(raw).Parsed? && ValidPayload(parse(raw).value)
    ensures r.Ok? ==> var v := parse(raw).value;
      && r.value.title == CleanTitle(v.fields["title"].s)
      && r.value.description == Trim(v.fields["description"].s)
      && r.value.labels == StringItems(v.fields["labels"].items)
  {
    match parse(raw)
    case SyntaxError(m) => Err("AI response is not valid JSON: " + m)
    case Parsed(obj) =>
      if obj.Null? then Err(NullTitleError)
      else if !IsString(Get(obj, "title")) || !IsString(Get(obj, "description")) then
        Err(TitleDescriptionError)
      else if !Get(obj, "labels").Some? || !Get(obj, "labels").value.Arr? then
        Err(LabelsError)
      else
        var labels := StringItems(obj.fields["labels"].items);
        Ok(TaskPayload(CleanTitle(obj.fields["title"].s), Trim(obj.fields["description"].s), labels))
  }

  /** The TypeError that reading `title` of `null` throws. */
  const NullTitleError: string := "Cannot read properties of null (reading 'title')"

  /** Thrown when the title or the description is not a string; checked before the labels. */
  const TitleDescriptionError: string := "AI response missing or invalid title/description (must be strings)."

  /** Thrown when the title and description are strings but the labels are not an array. */
  const LabelsError: string := "AI response labels must be an array of strings."

  /** An object whose title and description are strings and whose labels are an array. */
  predicate ValidPayload(v: Value) {
    v.Obj? && "title" in v.fields && v.fields["title"].Str?
    && "description" in v.fields && v.fields["description"].Str?
    && "labels" in v.fields && v.fields["labels"].Arr?
  }

  /** A validated payload: trimmed fields, a title that is empty only when the raw title
      was blank, and labels that are exactly the string members of the array. */
  lemma ParsedPayloadShape(raw: string, parse: string -> ParseOutcome)
    requires ParseTaskPayload(raw, parse).Ok?
    ensures var p := ParseTaskPayload(raw, parse).value;
      var v := parse(raw).value;
      && IsTrimmed(p.title) && IsTrimmed(p.description)
      && (p.title == [] <==> AllSpace(v.fields["title"].s))
      && p.labels == StringItems(v.fields["labels"].items)
      && forall t :: t in p.labels <==> Str(t) in v.fields["labels"].items
  {
    var v := parse(raw).value;
    StringItemsSpec(v.fields["labels"].items);
  }

  /** Lower-case ASCII letters only. */
  predicate LowerWord(w: string) {
    forall i | 0 <= i < |w| :: 'a' <= w[i] <= 'z'
  }

  lemma CommitTypesAreLowerWords()
    ensures forall w | w in CommitTypes :: LowerWord(w) && w != []
  {
    assert LowerWord("refactor");
  }

  /** Two lower-case words cannot both be the prefix of the same title. */
  lemma TypePrefixUnique(t: string, w: string, w': string)
    requires LowerWord(w) && LowerWord(w') && TypePrefix(t, w) && TypePrefix(t, w')
    ensures w == w'
  {
    NoShorterTypePrefix(t, w, w');
    NoShorterTypePrefix(t, w', w);
    assert w == ToLower(t[..|w|]) == w';
  }

  lemma NoShorterTypePrefix(t: string, w: string, w': string)
    requires LowerWord(w) && TypePrefix(t, w) && TypePrefix(t, w')
    ensures |w'| >= |w|
  {
  }

  /** No alternative other than `w` itself matches a title that starts with `w:`. */
  lemma OnlyOwnType(t: string, w: string)
    requires w in CommitTypes && TypePrefix(t, w)
    ensures FirstType(t, CommitTypes) == Some(w)
  {
    CommitTypesAreLowerWords();
    var r := FirstType(t, CommitTypes);
    TypePrefixUnique(t, w, r.value);
  }

  /** Leading white space is removed and nothing else. */
  lemma {:induction false} TrimStartOfSpaces(sp: string, rest: string)
    requires AllSpace(sp) && (rest == [] || !IsSpace(rest[0]))
    ensures TrimStart(sp + rest) == rest
  {
    if sp != [] {
      assert (sp + rest)[1..] == sp[1..] + rest;
      TrimStartOfSpaces(sp[1..], rest);
    } else {
      assert sp + rest == rest;
    }
  }

  /** A conventional prefix is stripped, in any letter case: a title `p:` with
      `p.toLowerCase()` one of the commit types, followed by white space and a
      non-empty trimmed `rest`, becomes `rest` — "feat: Add login" and "FIX: typo"
      become "Add login" and "typo". */
  lemma CommitTypeStripped(p: string, sp: string, rest: string)
    requires ToLower(p) in CommitTypes && AllSpace(sp) && rest != [] && IsTrimmed(rest)
    ensures CleanTitle(p + ":" + sp + rest) == rest
  {
    PrefixedTitleTrimmed(p, sp, rest);
    PrefixedTitleStripped(p, sp, rest);
    TrimOfTrimmed(rest);
  }

  /** A character whose lower-case form is a lower-case ASCII letter is a letter. */
  lemma LetterNotSpace(c: char)
    requires 'a' <= ToLowerChar(c) <= 'z'
    ensures !IsSpace(c)
  {
  }

  lemma PrefixedTitleTrimmed(p: string, sp: string, rest: string)
    requires ToLower(p) in CommitTypes && rest != [] && IsTrimmed(rest)
    ensures Trim(p + ":" + sp + rest) == p + ":" + sp + rest
  {
    CommitTypesAreLowerWords();
    var t := p + ":" + sp + rest;
    assert ToLower(p)[0] == ToLowerChar(p[0]);
    LetterNotSpace(p[0]);
    assert t[0] == p[0] && t[|t| - 1] == rest[|rest| - 1];
    TrimOfTrimmed(t);
  }

  /** Whichever commit type a title starts with, the strip removes exactly that type,
      its colon and the white space after it. */
  lemma StripsMatchedType(t: string, w: string)
    requires w in CommitTypes && TypePrefix(t, w)
    ensures StripCommitType(t) == TrimStart(t[|w| + 1..])
  {
    OnlyOwnType(t, w);
  }

  lemma PrefixedTitleStripped(p: string, sp: string, rest: string)
    requires ToLower(p) in CommitTypes && AllSpace(sp) && rest != [] && IsTrimmed(rest)
    ensures StripCommitType(p + ":" + sp + rest) == rest
  {
    var t := p + ":" + sp + rest;
    ColonPrefix(p, sp + rest);
    assert p + ":" + (sp + rest) == t;
    StripsMatchedType(t, ToLower(p));
    assert t[|p| + 1..] == sp + rest;
    TrimStartOfSpaces(sp, rest);
  }

  /** A title that is nothing but a prefix keeps the raw title: "fix:" and "Fix:" stay
      as they are. */
  lemma BareCommitTypeKept(p: string)
    requires ToLower(p) in CommitTypes
    ensures CleanTitle(p + ":") == p + ":"
  {
    CommitTypesAreLowerWords();
    var t := p + ":";
    assert ToLower(p)[0] == ToLowerChar(p[0]);
    LetterNotSpace(p[0]);
    assert t[0] == p[0] && t[|t| - 1] == ':';
    TrimOfTrimmed(t);
    ColonPrefix(p, "");
    assert p + ":" + "" == t;
    StripsMatchedType(t, ToLower(p));
    assert t[|p| + 1..] == [];
  }

  /** Any spelling of a word followed by a colon is a type prefix of its lower-case form. */
  lemma ColonPrefix(p: string, u: string)
    ensures TypePrefix(p + ":" + u, ToLower(p))
  {
    var t := p + ":" + u;
    assert t[..|p|] == p;
  }
}
