/** The Jira Cloud REST client of `src/jira/client.js`: the issue fields it posts, the
    description converted to the Atlassian Document Format, and the assignment that
    tries the assignee endpoint and then an issue PUT, once per candidate account id.
    Every HTTP response is an input: `respond(n)` is the response to the n-th request
    of the assignment. */
module JiraClient {
  import opened Results
  import opened Strings
  import opened Http
  import Json
  import Settings
  import Task
  import Urls

  /** `{ type: 'paragraph', content: [{ type: 'text', text }] }`. */
  datatype Paragraph = Paragraph(text: string)

  /** `{ type: 'doc', version, content }`. */
  datatype Doc = Doc(version: nat, content: seq<Paragraph>)

  function Paragraphs(lines: seq<string>): (ps: seq<Paragraph>)
    ensures |ps| == |lines| && forall k | 0 <= k < |ps| :: ps[k].text == lines[k]
  {
    if lines == [] then [] else [Paragraph(lines[0])] + Paragraphs(lines[1..])
  }

  function Texts(ps: seq<Paragraph>): (ts: seq<string>)
    ensures |ts| == |ps| && forall k | 0 <= k < |ps| :: ts[k] == ps[k].text
  {
    if ps == [] then [] else [ps[0].text] + Texts(ps[1..])
  }

  /** `plainTextToAdf(text)`: one paragraph per non-empty line of the trimmed text (runs of
      newlines separate lines), or a single empty paragraph when there is none. */
  function PlainTextToAdf(text: string): (d: Doc)
    ensures d.version == 1 && |d.content| >= 1
    ensures forall k | 0 <= k < |d.content| :: '\n' !in d.content[k].text
    ensures Blank(text) <==> d.content == [Paragraph("")]
  {
    var lines := NonEmpty(Split(Trim(text), '\n'));
    assert Trim(text) != "" ==> lines != [] by {
      if Trim(text) != "" {
        TrimmedHasPiece(Trim(text), '\n');
      }
    }
    Doc(1, if |lines| > 0 then Paragraphs(lines) else [Paragraph("")])
  }

  /** The conversion keeps every character of the trimmed text but the newlines, in order,
      and only the empty paragraph of an empty document is empty. The paragraphs are the
      maximal newline-free pieces of the trimmed text: it is their texts, in order, with
      a non-empty run of newlines (the `gaps`) between each two. */
  lemma AdfKeepsText(text: string) returns (gaps: seq<string>)
    ensures var d := PlainTextToAdf(text);
      && Concat(Texts(d.content)) == Remove(Trim(text), '\n')
      && (|d.content| > 1 || d.content[0].text != "" ==> forall k | 0 <= k < |d.content| :: d.content[k].text != "")
    ensures var d := PlainTextToAdf(text);
      !Blank(text) ==>
        && |gaps| == |d.content| - 1
        && (forall k | 0 <= k < |gaps| :: gaps[k] != "" && AllOf(gaps[k], '\n'))
        && Trim(text) == Interleave(Texts(d.content), gaps)
  {
    var s := Trim(text);
    var parts := Split(s, '\n');
    var lines := NonEmpty(parts);
    ConcatSplit(s, '\n');
    ConcatNonEmpty(parts);
    if |lines| > 0 {
      assert Texts(Paragraphs(lines)) == lines;
    } else {
      assert Concat(lines) == "";
    }
    gaps := [];
    if s != "" {
      TrimmedHasPiece(s, '\n');
      JoinSplit(s, '\n');
      var lead, trail;
      lead, gaps, trail := JoinRuns(parts, '\n');
      assert s == lead + Interleave(lines, gaps) + trail;
      NoRunAtEnds(s, lead, Interleave(lines, gaps), trail);
    }
  }

  /** A trimmed string has no newline at either end. */
  lemma NoRunAtEnds(s: string, lead: string, mid: string, trail: string)
    requires s != "" && IsTrimmed(s) && s == lead + mid + trail
    requires AllOf(lead, '\n') && AllOf(trail, '\n')
    ensures s == mid
  {
    assert !IsSpace(s[0]) && !IsSpace(s[|s| - 1]);
    assert lead == [] && trail == [];
  }

  /** `getAssigneeAccountId(config)`: the trimmed configured account id, else the trimmed
      `JIRA_ACCOUNT_ID`. */
  function GetAssigneeAccountId(config: Settings.Config, env: Settings.Env): (id: string)
    ensures IsTrimmed(id)
    ensures Trim(config.jira.assigneeAccountId) != "" ==> id == Trim(config.jira.assigneeAccountId)
    ensures Trim(config.jira.assigneeAccountId) == "" ==> id == Trim(Settings.EnvValue(env, "JIRA_ACCOUNT_ID"))
  {
    var fromConfig := Trim(config.jira.assigneeAccountId);
    if fromConfig != "" then fromConfig else Trim(Settings.EnvValue(env, "JIRA_ACCOUNT_ID"))
  }

  /** The account ids tried: the id itself and, when it has the form `number:uuid`, also
      the part after the last colon. */
  function AssignCandidates(accountId: string): (cands: seq<string>)
    ensures |cands| >= 1 && cands[0] == accountId
    ensures ':' in accountId <==> |cands| == 2
  {
    var parts := Split(accountId, ':');
    [accountId] + if ':' in accountId then [parts[|parts| - 1]] else []
  }

  /** The second candidate is the tail of the id after its last colon. */
  lemma SecondCandidateIsTail(accountId: string)
    requires ':' in accountId
    ensures var tail := AssignCandidates(accountId)[1];
      && ':' !in tail && |tail| < |accountId| && accountId[|accountId| - |tail|..] == tail
      && accountId[|accountId| - |tail| - 1] == ':'
  {
    LastPieceIsSuffix(accountId, ':');
    SeparatorBeforeLastPiece(accountId, ':');
  }

  /** The request an assignment attempt sends: the dedicated assignee endpoint
      (`PUT …/issue/{key}/assignee`) or the issue itself (`PUT …/issue/{key}`). */
  datatype AssignCall = AssigneeEndpoint(accountId: string) | IssuePut(accountId: string)

  /** `{ ok, message }` and the requests that led to it. */
  datatype AssignOutcome = AssignOutcome(ok: bool, lastError: LastError, calls: seq<AssignCall>)

  /** The last failure of the loop: none yet, a refused assignee endpoint, or a refused
      assignee endpoint followed by a refused issue PUT. */
  datatype LastError = NoError | EndpointFailed(r1: Response) | PutFailed(r1: Response, r2: Response)

  /** `lastError` as the loop writes it: the loop keeps the failed responses and the
      message is rendered from them. */
  function ErrorText(e: LastError): (t: string)
    ensures e.NoError? ==> t == ""
    ensures e.EndpointFailed? ==> t == "assignee endpoint " + NatToString(e.r1.status) + ": " + Detail(e.r1)
    ensures e.PutFailed? ==>
      t == "assignee endpoint: " + e.r1.body + "; issue PUT " + NatToString(e.r2.status) + ": " + Detail(e.r2)
  {
    match e
    case NoError => ""
    case EndpointFailed(r1) => "assignee endpoint " + NatToString(r1.status) + ": " + Detail(r1)
    case PutFailed(r1, r2) => "assignee endpoint: " + r1.body + "; issue PUT " + NatToString(r2.status) + ": " + Detail(r2)
  }

  /** `message` of the outcome: the failure message, and "" on success. */
  function Message(o: AssignOutcome): string {
    if o.ok then "" else AssignFailure(o.lastError)
  }

  function AssignFailure(e: LastError): string {
    FailureMessage(ErrorText(e))
  }

  /** A failed assignment's message opens with "Assign failed. " and closes with the
      advice on where to find the account id. */
  lemma AssignFailureShape(e: LastError)
    ensures var m := AssignFailure(e);
      "Assign failed. " <= m && |AssignAdvice| <= |m| && m[|m| - |AssignAdvice|..] == AssignAdvice
  {
    var m := AssignFailure(e);
    assert m == "Assign failed. " + ErrorText(e) + AssignAdvice;
    assert m[..|"Assign failed. "|] == "Assign failed. ";
  }

  function FailureMessage(lastError: string): string {
    "Assign failed. " + lastError + AssignAdvice
  }

  /** Where to find the right account id. */
  const AssignAdvice: string :=
    " Use JIRA_ACCOUNT_ID from Jira: Profile \U{2192} Account ID, or admin.atlassian.com \U{2192} Directory \U{2192} Users \U{2192} user \U{2192} ID in URL."
    + " In .env use quotes if value has colon: JIRA_ACCOUNT_ID=\"...\"."

  /** A status after which the issue PUT is tried. */
  predicate RetriesWithPut(r: Response) {
    r.status == 400 || r.status == 404
  }

  function Prepend(calls: seq<AssignCall>, o: AssignOutcome): AssignOutcome {
    AssignOutcome(o.ok, o.lastError, calls + o.calls)
  }

  /** What one candidate of the loop leads to: skipped when blank, else accepted by one
      of its requests, or refused by all of them with the error that is kept. */
  datatype Attempt = Skipped | Accepted(calls: seq<AssignCall>) | Refused(calls: seq<AssignCall>, error: LastError)

  /** One pass of the loop body for the candidate `id`, its first request numbered `n`. */
  function TryCandidate(id: string, respond: nat -> Response, n: nat): (a: Attempt)
    ensures !a.Skipped? ==> 1 <= |a.calls| <= 2 && a.calls[0] == AssigneeEndpoint(id)
    ensures !a.Skipped? && |a.calls| == 2 ==> a.calls[1] == IssuePut(id) && RetriesWithPut(respond(n))
    ensures a.Accepted? ==> IsOk(respond(n + |a.calls| - 1)) && (|a.calls| == 2 ==> !IsOk(respond(n)))
    ensures a.Refused? ==> forall m | n <= m < n + |a.calls| :: !IsOk(respond(m))
    ensures a.Skipped? <==> AllSpace(id)
    ensures !AllSpace(id) && IsOk(respond(n)) ==> a == Accepted([AssigneeEndpoint(id)])
    ensures !AllSpace(id) && !IsOk(respond(n)) ==> (|a.calls| == 2 <==> RetriesWithPut(respond(n)))
    ensures !a.Skipped? && |a.calls| == 2 ==> (a.Accepted? <==> IsOk(respond(n + 1)))
    ensures a.Refused? && |a.calls| == 1 ==> a.error == EndpointFailed(respond(n))
    ensures a.Refused? && |a.calls| == 2 ==> a.error == PutFailed(respond(n), respond(n + 1))
  {
    if AllSpace(id) then Skipped
    else
      var r1 := respond(n);
      if IsOk(r1) then Accepted([AssigneeEndpoint(id)])
      else if RetriesWithPut(r1) then
        var r2 := respond(n + 1);
        if IsOk(r2) then Accepted([AssigneeEndpoint(id), IssuePut(id)])
        else Refused([AssigneeEndpoint(id), IssuePut(id)], PutFailed(r1, r2))
      else Refused([AssigneeEndpoint(id)], EndpointFailed(r1))
  }

  /** The loop of `assignIssue` over the remaining candidates, from request number `n`
      on, with the error of the last failed request so far. */
  function AssignFrom(cands: seq<string>, respond: nat -> Response, n: nat, lastError: LastError): (o: AssignOutcome)
    decreases |cands|
  {
    if cands == [] then AssignOutcome(false, lastError, [])
    else
      match TryCandidate(cands[0], respond, n)
      case Skipped => AssignFrom(cands[1..], respond, n, lastError)
      case Accepted(calls) => AssignOutcome(true, NoError, calls)
      case Refused(calls, error) => Prepend(calls, AssignFrom(cands[1..], respond, n + |calls|, error))
  }

  /** `assignIssue(baseUrl, issueKey, accountId, auth)`. */
  method AssignIssue(accountId: string, respond: nat -> Response) returns (ok: bool, message: string, calls: seq<AssignCall>)
    ensures var o := AssignFrom(AssignCandidates(accountId), respond, 0, NoError);
      ok == o.ok && message == Message(o) && calls == o.calls
  {
    var candidates := AssignCandidates(accountId);
    ghost var whole := AssignFrom(candidates, respond, 0, NoError);
    var last := NoError;
    calls := [];
    var i := 0;
    while i < |candidates|
      invariant 0 <= i <= |candidates|
      invariant Prepend(calls, AssignFrom(candidates[i..], respond, |calls|, last)) == whole
    {
      var id := candidates[i];
      assert candidates[i..][0] == id && candidates[i..][1..] == candidates[i + 1..];
      if Blank(id) {
        SkipBlank(candidates[i..], respond, |calls|, last);
      } else {
        var a := TryCandidate(id, respond, |calls|);
        if a.Accepted? {
          StepAccepted(candidates[i..], respond, |calls|, last, a.calls);
          return true, "", calls + a.calls;
        }
        RefusedStep(calls, candidates[i..], respond, last, a.calls, a.error);
        calls, last := calls + a.calls, a.error;
      }
      i := i + 1;
    }
    assert candidates[i..] == [];
    Exhausted(calls, respond, last);
    ok, message := false, AssignFailure(last);
  }

  /** A refused candidate contributes its requests and hands its error on. */
  lemma StepRefused(cands: seq<string>, respond: nat -> Response, n: nat, lastError: LastError,
                    calls: seq<AssignCall>, error: LastError)
    requires cands != [] && TryCandidate(cands[0], respond, n) == Refused(calls, error)
    ensures AssignFrom(cands, respond, n, lastError) == Prepend(calls, AssignFrom(cands[1..], respond, n + |calls|, error))
  {
  }

  /** With no candidate left the assignment fails with the error kept last. */
  lemma Exhausted(calls: seq<AssignCall>, respond: nat -> Response, lastError: LastError)
    ensures Prepend(calls, AssignFrom([], respond, |calls|, lastError)) == AssignOutcome(false, lastError, calls)
  {
    assert calls + [] == calls;
  }

  /** An accepted candidate ends the loop with its own requests. */
  lemma StepAccepted(cands: seq<string>, respond: nat -> Response, n: nat, lastError: LastError,
                     calls: seq<AssignCall>)
    requires cands != [] && TryCandidate(cands[0], respond, n) == Accepted(calls)
    ensures AssignFrom(cands, respond, n, lastError) == AssignOutcome(true, NoError, calls)
  {
  }

  /** The loop's invariant across a refused candidate: its requests move from the
      specification's outcome into the requests already made. */
  lemma RefusedStep(calls: seq<AssignCall>, cands: seq<string>, respond: nat -> Response, lastError: LastError,
                    tried: seq<AssignCall>, error: LastError)
    requires cands != [] && TryCandidate(cands[0], respond, |calls|) == Refused(tried, error)
    ensures Prepend(calls, AssignFrom(cands, respond, |calls|, lastError))
         == Prepend(calls + tried, AssignFrom(cands[1..], respond, |calls + tried|, error))
  {
    StepRefused(cands, respond, |calls|, lastError, tried, error);
    PrependTwice(calls, tried, AssignFrom(cands[1..], respond, |calls| + |tried|, error));
  }

  /** A blank candidate sends nothing and changes nothing. */
  lemma SkipBlank(cands: seq<string>, respond: nat -> Response, n: nat, lastError: LastError)
    requires cands != [] && Blank(cands[0])
    ensures AssignFrom(cands, respond, n, lastError) == AssignFrom(cands[1..], respond, n, lastError)
  {
    assert TryCandidate(cands[0], respond, n) == Skipped;
  }

  lemma PrependTwice(a: seq<AssignCall>, b: seq<AssignCall>, o: AssignOutcome)
    ensures Prepend(a, Prepend(b, o)) == Prepend(a + b, o)
  {
    assert a + (b + o.calls) == (a + b) + o.calls;
  }

  /** A successful assignment stops at the first accepted request: the last request was
      accepted and every earlier one refused. */
  lemma {:induction false} AssignOkMeansLastAccepted(cands: seq<string>, respond: nat -> Response, n: nat, lastError: LastError)
    ensures var o := AssignFrom(cands, respond, n, lastError);
      o.ok ==> (|o.calls| >= 1 && IsOk(respond(n + |o.calls| - 1))
                && forall m | n <= m < n + |o.calls| - 1 :: !IsOk(respond(m)))
    decreases |cands|
  {
    if cands != [] {
      match TryCandidate(cands[0], respond, n)
      case Skipped => AssignOkMeansLastAccepted(cands[1..], respond, n, lastError);
      case Accepted(calls) =>
      case Refused(calls, error) => AssignOkMeansLastAccepted(cands[1..], respond, n + |calls|, error);
    }
  }

  /** The assignment succeeds exactly when one of the requests it sent was answered ok. */
  lemma AssignOkIffAnswered(cands: seq<string>, respond: nat -> Response, n: nat, lastError: LastError)
    ensures var o := AssignFrom(cands, respond, n, lastError);
      o.ok <==> exists m | n <= m < n + |o.calls| :: IsOk(respond(m))
  {
    var o := AssignFrom(cands, respond, n, lastError);
    if o.ok {
      AssignOkMeansLastAccepted(cands, respond, n, lastError);
      assert IsOk(respond(n + |o.calls| - 1));
    } else {
      AssignFailedMessage(cands, respond, n, lastError);
    }
  }

  /** The first candidate that is not blank is tried first, with the assignee endpoint;
      an ok answer to that request ends the assignment successfully. */
  lemma {:induction false} FirstCandidateTried(cands: seq<string>, respond: nat -> Response, n: nat, lastError: LastError, k: nat)
    requires k < |cands| && !AllSpace(cands[k]) && forall j | 0 <= j < k :: AllSpace(cands[j])
    ensures var o := AssignFrom(cands, respond, n, lastError);
      && o.calls != [] && o.calls[0] == AssigneeEndpoint(cands[k])
      && (IsOk(respond(n)) ==> o.ok && o.calls == [AssigneeEndpoint(cands[k])])
    decreases k
  {
    if k > 0 {
      assert TryCandidate(cands[0], respond, n) == Skipped;
      assert forall j | 0 <= j < k - 1 :: cands[1..][j] == cands[j + 1];
      FirstCandidateTried(cands[1..], respond, n, lastError, k - 1);
    }
  }

  /** A failed assignment tried every candidate that is not blank with the assignee
      endpoint. */
  lemma {:induction false} FailureTriedEveryCandidate(cands: seq<string>, respond: nat -> Response, n: nat, lastError: LastError)
    ensures var o := AssignFrom(cands, respond, n, lastError);
      !o.ok ==> forall c | c in cands && !AllSpace(c) :: AssigneeEndpoint(c) in o.calls
    decreases |cands|
  {
    if cands != [] {
      var o := AssignFrom(cands, respond, n, lastError);
      match TryCandidate(cands[0], respond, n)
      case Skipped =>
        FailureTriedEveryCandidate(cands[1..], respond, n, lastError);
        SkippedHeadDropped(cands);
      case Accepted(calls) =>
      case Refused(calls, error) =>
        var rest := AssignFrom(cands[1..], respond, n + |calls|, error);
        FailureTriedEveryCandidate(cands[1..], respond, n + |calls|, error);
        assert o == Prepend(calls, rest);
        if !rest.ok {
          TriedAfterRefused(cands, calls, rest.calls);
        }
    }
  }

  lemma SkippedHeadDropped(cands: seq<string>)
    requires cands != [] && AllSpace(cands[0])
    ensures forall c | c in cands && !AllSpace(c) :: c in cands[1..]
  {
    forall c | c in cands && !AllSpace(c) ensures c in cands[1..] {
      var i :| 0 <= i < |cands| && cands[i] == c;
      assert cands[1..][i - 1] == c;
    }
  }

  lemma TriedAfterRefused(cands: seq<string>, calls: seq<AssignCall>, later: seq<AssignCall>)
    requires cands != [] && calls != [] && calls[0] == AssigneeEndpoint(cands[0])
    requires forall c | c in cands[1..] && !AllSpace(c) :: AssigneeEndpoint(c) in later
    ensures forall c | c in cands && !AllSpace(c) :: AssigneeEndpoint(c) in calls + later
  {
    forall c | c in cands && !AllSpace(c) ensures AssigneeEndpoint(c) in calls + later {
      if c == cands[0] {
        assert (calls + later)[0] == AssigneeEndpoint(c);
      } else {
        var i :| 0 <= i < |cands| && cands[i] == c;
        assert cands[1..][i - 1] == c;
        var j :| 0 <= j < |later| && later[j] == AssigneeEndpoint(c);
        assert (calls + later)[|calls| + j] == AssigneeEndpoint(c);
      }
    }
  }

  /** A failed assignment reports "Assign failed." and every request it sent was refused. */
  lemma {:induction false} AssignFailedMessage(cands: seq<string>, respond: nat -> Response, n: nat, lastError: LastError)
    requires !AssignFrom(cands, respond, n, lastError).ok
    ensures var o := AssignFrom(cands, respond, n, lastError);
      && "Assign failed. " <= Message(o)
      && forall m | n <= m < n + |o.calls| :: !IsOk(respond(m))
    decreases |cands|
  {
    if cands == [] {
      AssignFailureShape(lastError);
    } else {
      match TryCandidate(cands[0], respond, n)
      case Skipped => AssignFailedMessage(cands[1..], respond, n, lastError);
      case Refused(calls, error) =>
        var rest := AssignFrom(cands[1..], respond, n + |calls|, error);
        assert AssignFrom(cands, respond, n, lastError) == Prepend(calls, rest);
        AssignFailedMessage(cands[1..], respond, n + |calls|, error);
        RefusedThenRefused(respond, n, calls, rest);
    }
  }

  /** Refused requests followed by a failed rest: all of them were refused, and the
      message is the rest's. */
  lemma RefusedThenRefused(respond: nat -> Response, n: nat, calls: seq<AssignCall>, rest: AssignOutcome)
    requires !rest.ok && forall m | n <= m < n + |calls| :: !IsOk(respond(m))
    requires forall m | n + |calls| <= m < n + |calls| + |rest.calls| :: !IsOk(respond(m))
    ensures Message(Prepend(calls, rest)) == Message(rest)
    ensures forall m | n <= m < n + |Prepend(calls, rest).calls| :: !IsOk(respond(m))
  {
  }

  /** Every request is for a candidate that is not blank. */
  lemma {:induction false} AssignCallsForCandidates(cands: seq<string>, respond: nat -> Response, n: nat, lastError: LastError)
    ensures forall c | c in AssignFrom(cands, respond, n, lastError).calls :: c.accountId in cands && !AllSpace(c.accountId)
    decreases |cands|
  {
    if cands != [] {
      var o := AssignFrom(cands, respond, n, lastError);
      match TryCandidate(cands[0], respond, n)
      case Skipped =>
        AssignCallsForCandidates(cands[1..], respond, n, lastError);
        assert o.calls == AssignFrom(cands[1..], respond, n, lastError).calls;
      case Accepted(calls) =>
        assert o.calls == calls;
      case Refused(calls, error) =>
        AssignCallsForCandidates(cands[1..], respond, n + |calls|, error);
        assert o.calls == calls + AssignFrom(cands[1..], respond, n + |calls|, error).calls;
    }
  }

  /** At most two requests per candidate. */
  lemma {:induction false} AssignCallsBound(cands: seq<string>, respond: nat -> Response, n: nat, lastError: LastError)
    ensures |AssignFrom(cands, respond, n, lastError).calls| <= 2 * |cands|
    decreases |cands|
  {
    if cands != [] {
      match TryCandidate(cands[0], respond, n)
      case Skipped => AssignCallsBound(cands[1..], respond, n, lastError);
      case Accepted(calls) =>
      case Refused(calls, error) => AssignCallsBound(cands[1..], respond, n + |calls|, error);
    }
  }

  /** An issue PUT for an id only ever directly follows the assignee endpoint request
      for the same id, and only after that request (number `n + k - 1`) answered 400 or 404. */
  predicate PutsFollowRefusals(calls: seq<AssignCall>, respond: nat -> Response, n: nat) {
    forall k | 0 <= k < |calls| && calls[k].IssuePut? ::
      k > 0 && calls[k - 1] == AssigneeEndpoint(calls[k].accountId) && RetriesWithPut(respond(n + k - 1))
  }

  lemma PutsFollowRefusalsAppend(a: seq<AssignCall>, b: seq<AssignCall>, respond: nat -> Response, n: nat)
    requires PutsFollowRefusals(a, respond, n) && PutsFollowRefusals(b, respond, n + |a|)
    ensures PutsFollowRefusals(a + b, respond, n)
  {
    var all := a + b;
    forall k | |a| <= k < |all| && all[k].IssuePut?
      ensures k > 0 && all[k - 1] == AssigneeEndpoint(all[k].accountId) && RetriesWithPut(respond(n + k - 1))
    {
      var j := k - |a|;
      assert all[k] == b[j];
      assert j > 0;
      assert all[k - 1] == b[j - 1];
      assert n + k - 1 == (n + |a|) + j - 1;
    }
  }

  lemma {:induction false} IssuePutOnlyAfterRefusal(cands: seq<string>, respond: nat -> Response, n: nat, lastError: LastError)
    ensures PutsFollowRefusals(AssignFrom(cands, respond, n, lastError).calls, respond, n)
    decreases |cands|
  {
    if cands != [] {
      match TryCandidate(cands[0], respond, n)
      case Skipped =>
        IssuePutOnlyAfterRefusal(cands[1..], respond, n, lastError);
      case Accepted(calls) =>
      case Refused(calls, error) =>
        IssuePutOnlyAfterRefusal(cands[1..], respond, n + |calls|, error);
        PutsFollowRefusalsAppend(calls, AssignFrom(cands[1..], respond, n + |calls|, error).calls, respond, n);
    }
  }

  /** The fields of the created issue. */
  datatype IssueFields = IssueFields(projectKey: string, summary: string, description: Doc, issueType: string, labels: seq<string>)

  /** The `fields` object of `createIssue`. */
  function BuildFields(payload: Task.Payload, config: Settings.Config): (f: IssueFields)
    ensures f.summary != "" && IsTrimmed(f.summary)
    ensures !Blank(payload.title) ==> f.summary == Trim(payload.title)
    ensures Blank(payload.title) ==> f.summary == "Untitled"
    ensures f.projectKey == if config.jira.projectKey != "" then config.jira.projectKey else "PROJ"
    ensures f.issueType == if config.jira.issueType != "" then config.jira.issueType else "Task"
    ensures f.description == PlainTextToAdf(payload.description)
    ensures payload.labels.Arr? ==> f.labels == Json.StringItems(payload.labels.items)
    ensures !payload.labels.Arr? ==> f.labels == []
  {
    var title := Trim(payload.title);
    IssueFields(
      if config.jira.projectKey != "" then config.jira.projectKey else "PROJ",
      if title != "" then title else "Untitled",
      PlainTextToAdf(payload.description),
      if config.jira.issueType != "" then config.jira.issueType else "Task",
      if payload.labels.Arr? then Json.StringItems(payload.labels.items) else [])
  }

  /** `{ key, self }` of the created issue; `key` is whatever truthy value the response held. */
  datatype Created = Created(key: Json.Value, self: Option<Json.Value>)

  const CredentialsError: string := "Jira credentials missing. Set JIRA_BASE_URL, JIRA_EMAIL, JIRA_API_TOKEN in .env."

  /** No base URL, or a blank `JIRA_EMAIL` or `JIRA_API_TOKEN`. */
  predicate MissingCredentials(config: Settings.Config, env: Settings.Env) {
    Urls.JiraBaseUrl(config, env) == ""
    || Blank(Settings.EnvValue(env, "JIRA_EMAIL")) || Blank(Settings.EnvValue(env, "JIRA_API_TOKEN"))
  }

  /** `createIssue(payload, config)`: `createRes` answers the create request and
      `assignRespond` the assignment requests; `sent` is the fields posted, if any. */
  method CreateIssue(payload: Task.Payload, config: Settings.Config, env: Settings.Env, createRes: Response,
                     parse: string -> Json.ParseOutcome, assignRespond: nat -> Response)
    returns (r: Result<Created>, sent: Option<IssueFields>, assignCalls: seq<AssignCall>)
    ensures MissingCredentials(config, env) ==> r == Err(CredentialsError) && sent.None? && assignCalls == []
    ensures !MissingCredentials(config, env) ==> sent == Some(BuildFields(payload, config))
    ensures !MissingCredentials(config, env) && !IsOk(createRes) ==>
      r == Err("Jira API error " + NatToString(createRes.status) + ": " + Detail(createRes)) && assignCalls == []
    ensures !MissingCredentials(config, env) && IsOk(createRes) && parse(createRes.body).SyntaxError? ==>
      r == Err(parse(createRes.body).message) && assignCalls == []
    ensures !MissingCredentials(config, env) && IsOk(createRes) && parse(createRes.body).Parsed? ==>
      var data := parse(createRes.body).value;
      var key := Json.Get(data, "key");
      var assignee := GetAssigneeAccountId(config, env);
      var o := AssignFrom(AssignCandidates(assignee), assignRespond, 0, NoError);
      && (!Json.Truthy(key) ==> r == Err("Jira API response missing issue key.") && assignCalls == [])
      && (Json.Truthy(key) && assignee == "" ==> r == Ok(Created(key.value, Json.Get(data, "self"))) && assignCalls == [])
      && (Json.Truthy(key) && assignee != "" ==> assignCalls == o.calls)
      && (Json.Truthy(key) && assignee != "" && o.ok ==> r == Ok(Created(key.value, Json.Get(data, "self"))))
      && (Json.Truthy(key) && assignee != "" && !o.ok ==>
            r == Err("Issue " + Json.Display(key) + " created but assign failed. " + Message(o)))
  {
    assignCalls := [];
    var baseUrl := Urls.JiraBaseUrl(config, env);
    var email := Settings.EnvValue(env, "JIRA_EMAIL");
    var token := Settings.EnvValue(env, "JIRA_API_TOKEN");
    if baseUrl == "" || Blank(email) || Blank(token) {
      return Err(CredentialsError), None, [];
    }
    var assigneeAccountId := GetAssigneeAccountId(config, env);
    var fields := BuildFields(payload, config);
    sent := Some(fields);
    if !IsOk(createRes) {
      return Err("Jira API error " + NatToString(createRes.status) + ": " + Detail(createRes)), sent, [];
    }
    match parse(createRes.body)
    case SyntaxError(m) =>
      r := Err(m);
    case Parsed(data) =>
      var key := Json.Get(data, "key");
      if !Json.Truthy(key) {
        return Err("Jira API response missing issue key."), sent, [];
      }
      if assigneeAccountId != "" {
        var ok, message;
        ok, message, assignCalls := AssignIssue(assigneeAccountId, assignRespond);
        if !ok {
          return Err("Issue " + Json.Display(key) + " created but assign failed. " + message), sent, assignCalls;
        }
      }
      r := Ok(Created(key.value, Json.Get(data, "self")));
  }
}
