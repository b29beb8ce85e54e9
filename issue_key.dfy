/** Finding a reference to an existing task in a commit message: a Jira-style key
    (`ABC-123`), a Trello card URL or short link, or (for Linear) the Jira pattern
    again. The regular expressions are written out as character predicates and
    scans with the same leftmost, greedy behaviour. */
module IssueKey {
  import opened Results
  import Strings

  /** `\w` without the `u` flag: ASCII letters, digits and `_`. */
  predicate IsWordChar(c: char) {
    ('A' <= c <= 'Z') || ('a' <= c <= 'z') || ('0' <= c <= '9') || c == '_'
  }

  predicate IsUpper(c: char) { 'A' <= c <= 'Z' }
  predicate IsDigit(c: char) { '0' <= c <= '9' }
  predicate IsUpperOrDigit(c: char) { IsUpper(c) || IsDigit(c) }
  predicate IsAlnum(c: char) { ('A' <= c <= 'Z') || ('a' <= c <= 'z') || ('0' <= c <= '9') }

  /** `\b` before a word character at `p`: the previous character is not a word character. */
  predicate StartsWord(text: string, p: nat)
    requires p <= |text|
  {
    p == 0 || !IsWordChar(text[p - 1])
  }

  /** `\b` after a word character ending at `e`: the next character is not a word character. */
  predicate EndsWord(text: string, e: nat)
    requires e <= |text|
  {
    e == |text| || !IsWordChar(text[e])
  }

  /** The length of the longest run of characters satisfying `f` that starts at `i`:
      what a greedy `[…]+` or `[…]*` consumes. */
  function Run(text: string, i: nat, f: char -> bool): (n: nat)
    requires i <= |text|
    ensures i + n <= |text|
    ensures forall j | i <= j < i + n :: f(text[j])
    ensures i + n == |text| || !f(text[i + n])
    decreases |text| - i
  {
    if i < |text| && f(text[i]) then 1 + Run(text, i + 1, f) else 0
  }

  /** A run that is maximal is the one `Run` finds. */
  lemma RunIsMaximal(text: string, i: nat, j: nat, f: char -> bool)
    requires i <= j <= |text|
    requires forall k | i <= k < j :: f(text[k])
    requires j == |text| || !f(text[j])
    ensures Run(text, i, f) == j - i
  {
  }

  // ---------------------------------------------------------------- Jira keys

  /** The shape `[A-Z][A-Z0-9]+-\d+` with its dash at `d`. */
  predicate KeyShape(k: string, d: nat) {
    && 2 <= d < |k| - 1
    && IsUpper(k[0])
    && (forall i | 1 <= i < d :: IsUpperOrDigit(k[i]))
    && k[d] == '-'
    && (forall i | d < i < |k| :: IsDigit(k[i]))
  }

  /** `k` is a Jira-style key: an upper-case letter, one or more upper-case letters or
      digits, `-`, one or more digits. */
  predicate IsJiraKey(k: string) {
    exists d | 0 <= d < |k| :: KeyShape(k, d)
  }

  /** `text[p..e]` is a key standing as a whole word. */
  predicate KeyAt(text: string, p: int, e: int) {
    0 <= p < e <= |text| && StartsWord(text, p) && EndsWord(text, e) && IsJiraKey(text[p..e])
  }

  /** `/\b([A-Z][A-Z0-9]+-\d+)\b/` tried at position `p`: the end of the match, if any.
      The greedy runs cannot give anything back: `[A-Z0-9]` excludes `-`, and a shorter
      digit run would end between two word characters. */
  function JiraMatchAt(text: string, p: nat): (r: Option<nat>)
    requires p <= |text|
    ensures r.Some? ==> p < r.value <= |text|
  {
    if p < |text| && IsUpper(text[p]) && StartsWord(text, p) then
      var a := Run(text, p + 1, IsUpperOrDigit);
      var d := p + 1 + a;
      if a >= 1 && d < |text| && text[d] == '-' then
        var b := Run(text, d + 1, IsDigit);
        if b >= 1 && EndsWord(text, d + 1 + b) then Some(d + 1 + b) else None
      else None
    else None
  }

  /** The matcher is exact: it succeeds at `p` with end `e` just when `text[p..e]` is a
      key standing as a whole word. */
  lemma JiraMatchAtSpec(text: string, p: nat, e: nat)
    requires p <= |text|
    ensures JiraMatchAt(text, p) == Some(e) <==> KeyAt(text, p, e)
  {
    if JiraMatchAt(text, p) == Some(e) {
      MatchIsKey(text, p, e);
    }
    if KeyAt(text, p, e) {
      KeyIsMatch(text, p, e);
    }
  }

  lemma MatchIsKey(text: string, p: nat, e: nat)
    requires p <= |text| && JiraMatchAt(text, p) == Some(e)
    ensures KeyAt(text, p, e)
  {
    var a := Run(text, p + 1, IsUpperOrDigit);
    var d := p + 1 + a;
    assert KeyShape(text[p..e], d - p);
  }

  lemma KeyIsMatch(text: string, p: nat, e: nat)
    requires p <= |text| && KeyAt(text, p, e)
    ensures JiraMatchAt(text, p) == Some(e)
  {
    var d :| 0 <= d < |text[p..e]| && KeyShape(text[p..e], d);
    ShapeFromSlice(text, p, e, d);
    MatchFromShape(text, p, p + d, e);
  }

  /** `KeyShape` read off `text` itself, with the dash at `dash`. */
  predicate ShapeIn(text: string, p: nat, dash: nat, e: nat) {
    && p + 2 <= dash && dash + 1 < e <= |text|
    && IsUpper(text[p])
    && (forall i | p + 1 <= i < dash :: IsUpperOrDigit(text[i]))
    && text[dash] == '-'
    && (forall i | dash < i < e :: IsDigit(text[i]))
  }

  lemma ShapeFromSlice(text: string, p: nat, e: nat, d: nat)
    requires p < e <= |text| && KeyShape(text[p..e], d)
    ensures ShapeIn(text, p, p + d, e)
  {
    var k := text[p..e];
    forall i | p + 1 <= i < p + d
      ensures IsUpperOrDigit(text[i])
    {
      assert text[i] == k[i - p];
    }
    forall i | p + d < i < e
      ensures IsDigit(text[i])
    {
      assert text[i] == k[i - p];
    }
    assert text[p] == k[0] && text[p + d] == k[d];
  }

  lemma MatchFromShape(text: string, p: nat, dash: nat, e: nat)
    requires ShapeIn(text, p, dash, e) && StartsWord(text, p) && EndsWord(text, e)
    ensures JiraMatchAt(text, p) == Some(e)
  {
    PrefixRun(text, p, dash, e);
    DigitRun(text, p, dash, e);
    MatchFromRuns(text, p, dash - p - 1, e - dash - 1);
  }

  lemma PrefixRun(text: string, p: nat, dash: nat, e: nat)
    requires ShapeIn(text, p, dash, e)
    ensures Run(text, p + 1, IsUpperOrDigit) == dash - p - 1
  {
    assert !IsUpperOrDigit(text[dash]);
    RunIsMaximal(text, p + 1, dash, IsUpperOrDigit);
  }

  lemma DigitRun(text: string, p: nat, dash: nat, e: nat)
    requires ShapeIn(text, p, dash, e) && EndsWord(text, e)
    ensures Run(text, dash + 1, IsDigit) == e - dash - 1
  {
    assert e == |text| || !IsDigit(text[e]);
    RunIsMaximal(text, dash + 1, e, IsDigit);
  }

  /** The matcher's own steps: an upper-case letter starting a word, a run, a dash, a
      digit run ending a word. */
  lemma MatchFromRuns(text: string, p: nat, a: nat, b: nat)
    requires p < |text| && IsUpper(text[p]) && StartsWord(text, p)
    requires a >= 1 && a == Run(text, p + 1, IsUpperOrDigit) && p + 1 + a < |text| && text[p + 1 + a] == '-'
    requires b >= 1 && b == Run(text, p + 1 + a + 1, IsDigit) && EndsWord(text, p + 1 + a + 1 + b)
    ensures JiraMatchAt(text, p) == Some(p + 1 + a + 1 + b)
  {
  }

  /** No key starts strictly inside a match: every position there follows a word
      character, except the one after the dash, which is a digit. */
  lemma NoMatchInside(text: string, p: nat, e: nat, q: nat)
    requires p <= |text| && JiraMatchAt(text, p) == Some(e) && p < q < e
    ensures JiraMatchAt(text, q) == None
  {
    var a := Run(text, p + 1, IsUpperOrDigit);
    var d := p + 1 + a;
    if q - 1 < d {
      assert IsWordChar(text[q - 1]);
    } else if q - 1 == d {
      assert IsDigit(text[q]);
    } else {
      assert IsWordChar(text[q - 1]);
    }
  }

  /** `text.matchAll(JIRA_KEY_REGEX)` from position `i`: the start and end of every
      match, left to right, each search resuming where the previous match ended. */
  function Matches(text: string, i: nat): (ms: seq<(nat, nat)>)
    requires i <= |text|
    ensures forall k | 0 <= k < |ms| :: i <= ms[k].0 < ms[k].1 <= |text|
    ensures forall k | 0 <= k < |ms| - 1 :: ms[k].1 <= ms[k + 1].0
    decreases |text| - i
  {
    if i >= |text| then []
    else
      match JiraMatchAt(text, i)
      case Some(e) => [(i, e)] + Matches(text, e)
      case None => Matches(text, i + 1)
  }

  /** Every match is a key standing as a whole word. */
  lemma {:induction false} MatchesAreKeys(text: string, i: nat)
    requires i <= |text|
    ensures forall k | 0 <= k < |Matches(text, i)| :: KeyAt(text, Matches(text, i)[k].0, Matches(text, i)[k].1)
    decreases |text| - i
  {
    if i < |text| {
      match JiraMatchAt(text, i)
      case Some(e) =>
        MatchIsKey(text, i, e);
        MatchesAreKeys(text, e);
      case None =>
        MatchesAreKeys(text, i + 1);
    }
  }

  /** The key `m` is accepted for the configured project key `pk` (already trimmed and
      upper-cased): any key when `pk` is empty, else one starting with `pk-`. */
  predicate Accepts(pk: string, m: string) {
    pk == "" || pk + "-" <= Strings.ToUpper(m)
  }

  /** `.find(...)` over the matches from `i`: the first accepted one. */
  function FirstAccepted(text: string, i: nat, pk: string): (r: Option<(nat, nat)>)
    requires i <= |text|
    decreases |text| - i
  {
    var ms := Matches(text, i);
    if ms == [] then None
    else if Accepts(pk, text[ms[0].0..ms[0].1]) then Some(ms[0])
    else FirstAccepted(text, ms[0].1, pk)
  }

  /** What the Jira branch returns is the leftmost whole-word key the project key
      accepts, and it returns nothing only when there is none. */
  lemma {:induction false} FirstAcceptedSpec(text: string, i: nat, pk: string)
    requires i <= |text|
    ensures var r := FirstAccepted(text, i, pk);
      && (r.Some? ==> i <= r.value.0 && KeyAt(text, r.value.0, r.value.1)
                      && Accepts(pk, text[r.value.0..r.value.1]))
      && (forall q, e | i <= q && KeyAt(text, q, e) && Accepts(pk, text[q..e]) ::
            r.Some? && r.value.0 <= q)
    decreases |text| - i
  {
    var ms := Matches(text, i);
    if ms == [] {
      NoKeyFrom(text, i);
    } else {
      var (p, e) := ms[0];
      FirstKeyFrom(text, i);
      if !Accepts(pk, text[p..e]) {
        FirstAcceptedSpec(text, e, pk);
        KeysAfterFirst(text, i);
      }
    }
  }

  /** No entry in `Matches(text, i)` means no key at or after `i`. */
  lemma NoKeyFrom(text: string, i: nat)
    requires i <= |text| && Matches(text, i) == []
    ensures forall q, e | i <= q :: !KeyAt(text, q, e)
  {
    NoMatchFrom(text, i);
    forall q, e | i <= q && KeyAt(text, q, e) ensures false {
      KeyIsMatch(text, q, e);
    }
  }

  /** The first entry of `Matches(text, i)` is a key, and no key starts before it. */
  lemma FirstKeyFrom(text: string, i: nat)
    requires i <= |text| && Matches(text, i) != []
    ensures var m := Matches(text, i)[0];
      && i <= m.0 && KeyAt(text, m.0, m.1)
      && forall q, e | i <= q && KeyAt(text, q, e) :: m.0 <= q
  {
    var m := Matches(text, i)[0];
    FirstMatchFrom(text, i);
    MatchIsKey(text, m.0, m.1);
    forall q, e | i <= q && KeyAt(text, q, e) ensures m.0 <= q {
      KeyIsMatch(text, q, e);
    }
  }

  /** A key from `i` that starts before the end of the first match is that match. */
  lemma KeysAfterFirst(text: string, i: nat)
    requires i <= |text| && Matches(text, i) != []
    ensures var m := Matches(text, i)[0];
      forall q, e | i <= q && KeyAt(text, q, e) && q < m.1 :: q == m.0 && e == m.1
  {
    var m := Matches(text, i)[0];
    FirstMatchFrom(text, i);
    forall q, e | i <= q && KeyAt(text, q, e) && q < m.1 ensures q == m.0 && e == m.1 {
      KeyIsMatch(text, q, e);
      if m.0 < q {
        NoMatchInside(text, m.0, m.1, q);
      }
    }
  }

  /** The first entry of `Matches(text, i)` is the leftmost match at or after `i`. */
  lemma FirstMatchFrom(text: string, i: nat)
    requires i <= |text| && Matches(text, i) != []
    ensures var m := Matches(text, i)[0];
      && JiraMatchAt(text, m.0) == Some(m.1)
      && forall q | i <= q < m.0 :: JiraMatchAt(text, q) == None
  {
    FirstMatchIsMatch(text, i);
    NoMatchBeforeFirst(text, i);
  }

  lemma {:induction false} FirstMatchIsMatch(text: string, i: nat)
    requires i <= |text| && Matches(text, i) != []
    ensures JiraMatchAt(text, Matches(text, i)[0].0) == Some(Matches(text, i)[0].1)
    decreases |text| - i
  {
    match JiraMatchAt(text, i)
    case Some(e) =>
      assert Matches(text, i)[0] == (i, e);
    case None =>
      FirstMatchIsMatch(text, i + 1);
  }

  lemma {:induction false} NoMatchBeforeFirst(text: string, i: nat)
    requires i <= |text| && Matches(text, i) != []
    ensures forall q | i <= q < Matches(text, i)[0].0 :: JiraMatchAt(text, q) == None
    decreases |text| - i
  {
    match JiraMatchAt(text, i)
    case Some(e) =>
      assert Matches(text, i)[0] == (i, e);
    case None =>
      NoMatchBeforeFirst(text, i + 1);
  }

  /** No entry in `Matches(text, i)` means no match at or after `i`. */
  lemma {:induction false} NoMatchFrom(text: string, i: nat)
    requires i <= |text| && Matches(text, i) == []
    ensures forall q | i <= q <= |text| :: JiraMatchAt(text, q) == None
    decreases |text| - i
  {
    if i < |text| {
      assert JiraMatchAt(text, i).None?;
      assert Matches(text, i) == Matches(text, i + 1);
      NoMatchFrom(text, i + 1);
    }
  }

  // ---------------------------------------------------------------- Trello

  const TrelloCardPrefix: string := "trello.com/c/"

  /** `/trello\.com\/c\/([a-zA-Z0-9]+)/` matches at `p`. */
  predicate TrelloUrlAt(text: string, p: nat) {
    p + |TrelloCardPrefix| < |text| && text[p..p + |TrelloCardPrefix|] == TrelloCardPrefix
    && IsAlnum(text[p + |TrelloCardPrefix|])
  }

  /** `/\b([a-zA-Z0-9]{8})\b/` matches at `p`. */
  predicate ShortLinkAt(text: string, p: nat) {
    p + 8 <= |text| && StartsWord(text, p) && EndsWord(text, p + 8)
    && forall j | p <= j < p + 8 :: IsAlnum(text[j])
  }

  /** The leftmost position at or after `i` where a Trello card URL starts. */
  function FirstTrelloUrl(text: string, i: nat): (r: Option<nat>)
    requires i <= |text|
    ensures r.Some? ==> i <= r.value && TrelloUrlAt(text, r.value)
    ensures forall q | i <= q < (if r.Some? then r.value else |text|) :: !TrelloUrlAt(text, q)
    decreases |text| - i
  {
    if i >= |text| then None
    else if TrelloUrlAt(text, i) then Some(i)
    else FirstTrelloUrl(text, i + 1)
  }

  /** The leftmost position at or after `i` where a whole-word short link starts. */
  function FirstShortLink(text: string, i: nat): (r: Option<nat>)
    requires i <= |text|
    ensures r.Some? ==> i <= r.value && ShortLinkAt(text, r.value)
    ensures forall q | i <= q < (if r.Some? then r.value else |text|) :: !ShortLinkAt(text, q)
    decreases |text| - i
  {
    if i >= |text| then None
    else if ShortLinkAt(text, i) then Some(i)
    else FirstShortLink(text, i + 1)
  }

  /** The Trello branch: the id after the leftmost `trello.com/c/`, else the leftmost
      whole-word run of exactly eight letters and digits. */
  function TrelloKey(text: string): (r: Option<string>)
    ensures FirstTrelloUrl(text, 0).Some? ==>
      var p := FirstTrelloUrl(text, 0).value + |TrelloCardPrefix|;
      r.Some? && |r.value| >= 1 && r.value <= text[p..]
      && (forall j | 0 <= j < |r.value| :: IsAlnum(r.value[j]))
      && (p + |r.value| == |text| || !IsAlnum(text[p + |r.value|]))
    ensures FirstTrelloUrl(text, 0).None? ==>
      match FirstShortLink(text, 0)
      case Some(p) => r == Some(text[p..p + 8])
      case None => r == None
  {
    match FirstTrelloUrl(text, 0)
    case Some(p) =>
      var s := p + |TrelloCardPrefix|;
      Some(text[s..s + Run(text, s, IsAlnum)])
    case None =>
      match FirstShortLink(text, 0)
      case Some(p) => Some(text[p..p + 8])
      case None => None
  }

  /** A card URL anywhere in the text wins over every short link. */
  lemma UrlBeatsShortLink(text: string, p: nat)
    requires TrelloUrlAt(text, p)
    ensures FirstTrelloUrl(text, 0).Some?
  {
  }

  // ---------------------------------------------------------------- extraction

  /** The Jira branch: the first whole-word key that the trimmed, upper-cased project
      key accepts. */
  function JiraKey(text: string, projectKey: string): (r: Option<string>)
    ensures r.Some? ==> IsJiraKey(r.value) && Accepts(NormalProjectKey(projectKey), r.value)
  {
    FirstAcceptedSpec(text, 0, NormalProjectKey(projectKey));
    match FirstAccepted(text, 0, NormalProjectKey(projectKey))
    case Some((p, e)) => if p <= e <= |text| then Some(text[p..e]) else None
    case None => None
  }

  /** The Linear branch as written: `text.match` with the global flag returns every
      whole match, so `match[1]` is the SECOND key, and a lone key gives nothing. */
  function LinearKeyAsWritten(text: string): (r: Option<string>)
    ensures r.Some? <==> |Matches(text, 0)| >= 2
    ensures r.Some? ==> IsJiraKey(r.value)
  {
    MatchesAreKeys(text, 0);
    var ms := Matches(text, 0);
    if |ms| >= 2 then Some(text[ms[1].0..ms[1].1]) else None
  }

  /** The Linear branch as evidently intended ("extract first issue key"): the first
      whole-word Jira-style key, or nothing when there is none. */
  function FirstLinearKey(text: string): (r: Option<string>)
    ensures r.Some? ==> IsJiraKey(r.value)
    ensures r.Some? ==> exists p, e :: KeyAt(text, p, e) && r.value == text[p..e]
                                      && forall q, e' | q < p :: !KeyAt(text, q, e')
    ensures r.None? ==> forall p, e :: !KeyAt(text, p, e)
  {
    var ms := Matches(text, 0);
    if |ms| >= 1 then
      FirstMatchFrom(text, 0);
      var (p, e) := ms[0];
      JiraMatchAtSpec(text, p, e);
      assert forall q, e' | q < p :: !KeyAt(text, q, e') by {
        forall q, e' | q < p && KeyAt(text, q, e') ensures false { JiraMatchAtSpec(text, q, e'); }
      }
      Some(text[p..e])
    else
      NoMatchFrom(text, 0);
      assert forall p, e :: !KeyAt(text, p, e) by {
        forall p, e | KeyAt(text, p, e) ensures false { JiraMatchAtSpec(text, p, e); }
      }
      None
  }

  /** The global regex finds exactly one match in "ENG-1". */
  lemma LoneKeyMatches()
    ensures Matches("ENG-1", 0) == [(0, 5)]
  {
    var text := "ENG-1";
    assert Run(text, 5, IsDigit) == 0;
    assert Run(text, 4, IsDigit) == 1;
    assert Run(text, 3, IsUpperOrDigit) == 0;
    assert Run(text, 2, IsUpperOrDigit) == 1;
    assert Run(text, 1, IsUpperOrDigit) == 2;
    assert JiraMatchAt(text, 0) == Some(5);
    assert Matches(text, 5) == [];
  }

  /** A message holding a single key: the Linear branch as written finds nothing, the
      intended one finds the key. */
  lemma LinearLoneKeyIsLost()
    ensures LinearKeyAsWritten("ENG-1") == None
    ensures ExtractIssueKey("ENG-1", "linear", "") == None
    ensures FirstLinearKey("ENG-1") == Some("ENG-1")
  {
    var text := "ENG-1";
    LoneKeyMatches();
    assert text[0..5] == text;
    assert Strings.Trim(text) == text by { Strings.TrimOfTrimmed(text); }
    LinearIsNormal();
  }

  lemma LinearIsNormal()
    ensures NormalTarget("linear") == "linear"
  {
    Strings.LowerIsFixed("linear");
  }

  /** The target after defaulting to "jira" and lower-casing. */
  function NormalTarget(target: string): (t: string)
    ensures target == "" ==> t == "jira"
    ensures target != "" ==> |t| == |target| && forall i | 0 <= i < |t| :: t[i] == Strings.ToLowerChar(target[i])
    ensures forall i | 0 <= i < |t| :: !('A' <= t[i] <= 'Z')
  {
    Strings.ToLower(if target == "" then "jira" else target)
  }

  /** `extractIssueKey(message, target, config)`; `target` and `projectKey` are ""
      when not given. */
  function ExtractIssueKey(message: string, target: string, projectKey: string): (r: Option<string>)
    // blank messages and unknown targets give nothing
    ensures Strings.Blank(message) ==> r == None
    ensures NormalTarget(target) != "jira" && NormalTarget(target) != "trello" && NormalTarget(target) != "linear" ==> r == None
    // otherwise the branch of the (case-insensitive) target decides, on the trimmed text
    ensures !Strings.Blank(message) && NormalTarget(target) == "jira" ==> r == JiraKey(Strings.Trim(message), projectKey)
    ensures !Strings.Blank(message) && NormalTarget(target) == "trello" ==> r == TrelloKey(Strings.Trim(message))
    ensures !Strings.Blank(message) && NormalTarget(target) == "linear" ==> r == LinearKeyAsWritten(Strings.Trim(message))
  {
    var text := Strings.Trim(message);
    if text == "" then None
    else
      var t := NormalTarget(target);
      if t == "jira" then JiraKey(text, projectKey)
      else if t == "trello" then TrelloKey(text)
      else if t == "linear" then LinearKeyAsWritten(text)
      else None
  }

  /** The project key as the Jira branch compares it: trimmed and upper-cased. */
  function NormalProjectKey(projectKey: string): (pk: string)
    ensures pk == "" <==> Strings.Blank(projectKey)
    ensures |pk| == |Strings.Trim(projectKey)|
    ensures forall i | 0 <= i < |pk| :: !('a' <= pk[i] <= 'z')
  {
    Strings.ToUpper(Strings.Trim(projectKey))
  }

  /** A Jira result is a whole-word key of the text that the project key accepts, and
      no key standing before it is accepted. */
  lemma JiraKeyFound(text: string, projectKey: string)
    requires JiraKey(text, projectKey).Some?
    ensures var pk := NormalProjectKey(projectKey);
      var k := JiraKey(text, projectKey).value;
      && IsJiraKey(k) && Accepts(pk, k)
      && exists p, e :: KeyAt(text, p, e) && k == text[p..e]
                        && forall q, e' | q < p && KeyAt(text, q, e') :: !Accepts(pk, text[q..e'])
  {
    var pk := NormalProjectKey(projectKey);
    FirstAcceptedSpec(text, 0, pk);
    var (p, e) := FirstAccepted(text, 0, pk).value;
    assert KeyAt(text, p, e) && JiraKey(text, projectKey).value == text[p..e];
  }

  /** The Jira branch gives nothing only when the project key accepts no whole-word key. */
  lemma JiraKeyNone(text: string, projectKey: string)
    requires JiraKey(text, projectKey).None?
    ensures forall p, e | KeyAt(text, p, e) :: !Accepts(NormalProjectKey(projectKey), text[p..e])
  {
    FirstAcceptedSpec(text, 0, NormalProjectKey(projectKey));
  }

  /** With a project key configured, a Jira result starts with that key, upper-cased, and `-`. */
  lemma JiraResultHasProjectPrefix(text: string, projectKey: string)
    requires !Strings.Blank(projectKey) && JiraKey(text, projectKey).Some?
    ensures NormalProjectKey(projectKey) + "-" <= JiraKey(text, projectKey).value
  {
    assert NormalProjectKey(projectKey) != "";
    JiraKeyFound(text, projectKey);
    KeyIsUpper(JiraKey(text, projectKey).value);
  }

  /** A key has no lower-case letter: upper-casing leaves it as it is. */
  lemma KeyIsUpper(k: string)
    requires IsJiraKey(k)
    ensures Strings.ToUpper(k) == k
  {
    var d :| 0 <= d < |k| && KeyShape(k, d);
    forall i | 0 <= i < |k| ensures Strings.ToUpperChar(k[i]) == k[i] {
      if i > d { assert IsDigit(k[i]); }
    }
  }
}
