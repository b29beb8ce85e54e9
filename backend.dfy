/** The task backend of `src/backend/index.js`: one `createTask` that dispatches on
    `config.target`. Only the Jira adapter is wired in. */
module Backend {
  import opened Results
  import opened Strings
  import Http
  import Json
  import Settings
  import Task
  import Urls
  import JiraClient

  const SupportedTargets: seq<string> := ["jira", "trello"]
  const TrelloError: string := "Trello adapter not implemented yet. Use target: \"jira\" for now."

  /** `{ key, url }`: the key as the adapter returned it, and its link. */
  datatype TaskCreated = TaskCreated(key: Json.Value, url: string)

  /** `(config?.target || 'jira').toLowerCase()`. */
  function Target(config: Settings.Config): (t: string)
    ensures config.target == "" ==> t == "jira"
    ensures config.target != "" ==> t == ToLower(config.target)
  {
    ToLower(if config.target != "" then config.target else "jira")
  }

  function UnknownTargetError(target: string): string {
    "Unknown target: \"" + target + "\". Supported: " + Join(SupportedTargets, ", ") + "."
  }

  /** `createTask(payload, config)`; the Jira adapter's inputs are passed through, and
      `issue` is what it returned, when it was called. */
  method CreateTask(payload: Task.Payload, config: Settings.Config, env: Settings.Env, createRes: Http.Response,
                    parse: string -> Json.ParseOutcome, assignRespond: nat -> Http.Response)
    returns (r: Result<TaskCreated>, issue: Option<Result<JiraClient.Created>>)
    ensures Target(config) !in SupportedTargets ==> r == Err(UnknownTargetError(Target(config))) && issue.None?
    ensures Target(config) == "trello" ==> r == Err(TrelloError) && issue.None?
    ensures Target(config) == "jira" <==> issue.Some?
    ensures issue.Some? && issue.value.Err? ==> r == Err(issue.value.message)
    ensures issue.Some? && issue.value.Ok? ==>
      var key := issue.value.value.key;
      r == Ok(TaskCreated(key, Urls.BuildJiraUrl(config, env, Json.Display(Some(key)))))
    // the Jira adapter's own outcomes, seen through the dispatcher
    ensures Target(config) == "jira" && JiraClient.MissingCredentials(config, env) ==>
      r == Err(JiraClient.CredentialsError)
    ensures Target(config) == "jira" && !JiraClient.MissingCredentials(config, env) && !Http.IsOk(createRes) ==>
      r == Err("Jira API error " + NatToString(createRes.status) + ": " + Http.Detail(createRes))
    ensures Target(config) == "jira" && !JiraClient.MissingCredentials(config, env) && Http.IsOk(createRes)
            && parse(createRes.body).SyntaxError? ==>
      r == Err(parse(createRes.body).message)
    ensures Target(config) == "jira" && !JiraClient.MissingCredentials(config, env) && Http.IsOk(createRes)
            && parse(createRes.body).Parsed? ==>
      var data := parse(createRes.body).value;
      var key := Json.Get(data, "key");
      var assignee := JiraClient.GetAssigneeAccountId(config, env);
      var o := JiraClient.AssignFrom(JiraClient.AssignCandidates(assignee), assignRespond, 0, JiraClient.NoError);
      && (!Json.Truthy(key) ==> r == Err("Jira API response missing issue key."))
      && (Json.Truthy(key) && (assignee == "" || o.ok) ==>
            r == Ok(TaskCreated(key.value, Urls.BuildJiraUrl(config, env, Json.Display(key)))))
      && (Json.Truthy(key) && assignee != "" && !o.ok ==>
            r == Err("Issue " + Json.Display(key) + " created but assign failed. " + JiraClient.Message(o)))
    ensures r.Ok? ==>
      (&& Target(config) == "jira" && Http.IsOk(createRes) && parse(createRes.body).Parsed?
       && Json.Get(parse(createRes.body).value, "key") == Some(r.value.key) && Json.Truthy(Some(r.value.key)))
  {
    var target := Target(config);
    if target !in SupportedTargets {
      return Err(UnknownTargetError(target)), None;
    }
    if target == "jira" {
      var created, _, _ := JiraClient.CreateIssue(payload, config, env, createRes, parse, assignRespond);
      issue := Some(created);
      if created.Err? {
        return Err(created.message), issue;
      }
      var key := created.value.key;
      return Ok(TaskCreated(key, Urls.BuildJiraUrl(config, env, Json.Display(Some(key))))), issue;
    }
    return Err(TrelloError), None;
  }

  /** With no target configured the Jira adapter is used. */
  lemma DefaultTargetIsJira(config: Settings.Config)
    requires config.target == ""
    ensures Target(config) == "jira" && Target(config) in SupportedTargets
  {
    LowerIsFixed("jira");
  }

  /** Dispatch ignores ASCII case: "Jira" and "JIRA" both select the Jira adapter. */
  lemma TargetIgnoresCase(config: Settings.Config)
    requires config.target != "" && ToLower(config.target) == "jira"
    ensures Target(config) == "jira"
  {
  }

  /** The unknown-target message names the target and the supported list. */
  lemma UnknownTargetNamed(target: string)
    ensures Contains(UnknownTargetError(target), target)
    ensures Contains(UnknownTargetError(target), "jira, trello")
  {
    var m := UnknownTargetError(target);
    ContainsAt(m, target, |"Unknown target: \""|);
    assert Join(SupportedTargets, ", ") == "jira, trello";
    ContainsAt(m, "jira, trello", |"Unknown target: \""| + |target| + |"\". Supported: "|);
  }
}
