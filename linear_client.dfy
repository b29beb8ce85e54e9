/** The Linear GraphQL client of `src/linear/client.js`: creating an issue and adding a
    comment to an existing one. Each response is an input; `parse` and `stringify` stand
    for `JSON.parse` and `JSON.stringify`. */
module LinearClient {
  import opened Results
  import opened Strings
  import opened Http
  import Json
  import Settings
  import Task

  const ApiKeyError: string := "LINEAR_API_KEY is not set. Add it to .env. Get a key at https://linear.app/settings/api"
  const TeamIdError: string := "Linear team ID missing. Set linear.teamId in .haitaskrc."
  const IdentifierError: string := "Linear issue identifier missing."
  const IssueUrlPrefix: string := "https://linear.app/issue/"

  /** `input` of the `issueCreate` mutation; `description` is left out when empty. */
  datatype IssueInput = IssueInput(teamId: string, title: string, description: Option<string>)

  /** `{ key, url }`: `key` is whatever value the response held (None for `undefined`). */
  datatype Created = Created(key: Option<Json.Value>, url: Json.Value)

  /** `{ key, url }` of a commented issue. */
  datatype Commented = Commented(key: string, url: Json.Value)

  /** `x?.[0]`: the first item of an array, the member "0" of an object, the first
      character of a string. */
  function First(v: Option<Json.Value>): (r: Option<Json.Value>)
    ensures v.Some? && v.value.Arr? && |v.value.items| > 0 ==> r == Some(v.value.items[0])
    ensures v.None? ==> r.None?
  {
    if v.None? then None
    else match v.value
      case Arr(items) => if |items| > 0 then Some(items[0]) else None
      case Obj(fields) => if "0" in fields then Some(fields["0"]) else None
      case Str(s) => if |s| > 0 then Some(Json.Str([s[0]])) else None
      case _ => None
  }

  /** `data?.errors?.[0]?.message`. */
  function FirstErrorMessage(data: Json.Value): (m: Option<Json.Value>)
    ensures m.Some? ==> Json.Get(data, "errors").Some? && First(Json.Get(data, "errors")).Some?
    ensures var errors := Json.Get(data, "errors");
      errors.Some? && errors.value.Arr? && |errors.value.items| > 0 ==> m == Json.Get(errors.value.items[0], "message")
  {
    Json.GetOpt(First(Json.Get(data, "errors")), "message")
  }

  predicate MissingApiKey(env: Settings.Env) {
    Blank(Settings.EnvValue(env, "LINEAR_API_KEY"))
  }

  /** The input of the mutation. */
  function BuildInput(payload: Task.Payload, config: Settings.Config): (i: IssueInput)
    ensures i.teamId == Trim(config.linear.teamId)
    ensures i.title != "" && IsTrimmed(i.title)
    ensures !Blank(payload.title) ==> i.title == Trim(payload.title)
    ensures Blank(payload.title) ==> i.title == "Untitled"
    ensures Blank(payload.description) ==> i.description.None?
    ensures !Blank(payload.description) ==> i.description == Some(Trim(payload.description))
  {
    var title := Trim(payload.title);
    var description := Trim(payload.description);
    IssueInput(Trim(config.linear.teamId), if title != "" then title else "Untitled",
               if description != "" then Some(description) else None)
  }

  /** `data?.data?.issueCreate?.issue`. */
  function IssueOf(data: Json.Value): (issue: Option<Json.Value>)
    ensures issue.Some? <==>
      && data.Obj? && "data" in data.fields
      && data.fields["data"].Obj? && "issueCreate" in data.fields["data"].fields
      && data.fields["data"].fields["issueCreate"].Obj? && "issue" in data.fields["data"].fields["issueCreate"].fields
    ensures issue.Some? ==> issue.value == data.fields["data"].fields["issueCreate"].fields["issue"]
  {
    Json.GetOpt(Json.GetOpt(Json.Get(data, "data"), "issueCreate"), "issue")
  }

  /** What a parsed `issueCreate` reply yields: the issue keyed by `identifier || id`
      with the link `url || (key ? 'https://linear.app/issue/' + key : '')`, or, without
      an issue, "Linear API: " and the first GraphQL error message, else the whole reply
      serialised. */
  function CreatedOf(data: Json.Value, stringify: Json.Value -> string): (r: Result<Created>)
    ensures r.Ok? <==> Json.Truthy(IssueOf(data))
    ensures r.Err? && Json.Truthy(FirstErrorMessage(data)) ==>
      r.message == "Linear API: " + Json.Display(FirstErrorMessage(data))
    ensures r.Err? && !Json.Truthy(FirstErrorMessage(data)) ==> r.message == "Linear API: " + stringify(data)
    ensures r.Ok? && Json.Truthy(Json.Get(IssueOf(data).value, "identifier")) ==>
      r.value.key == Json.Get(IssueOf(data).value, "identifier")
    ensures r.Ok? && !Json.Truthy(Json.Get(IssueOf(data).value, "identifier")) ==>
      r.value.key == Json.Get(IssueOf(data).value, "id")
    ensures r.Ok? && Json.Truthy(Json.Get(IssueOf(data).value, "url")) ==>
      r.value.url == IssueOf(data).value.fields["url"]
    ensures r.Ok? && !Json.Truthy(Json.Get(IssueOf(data).value, "url")) ==>
      r.value.url == if Json.Truthy(r.value.key) then Json.Str(IssueUrlPrefix + Json.Display(r.value.key)) else Json.Str("")
  {
    var issue := IssueOf(data);
    if !Json.Truthy(issue) then
      var message := FirstErrorMessage(data);
      Err("Linear API: " + if Json.Truthy(message) then Json.Display(message) else stringify(data))
    else
      var identifier := Json.Get(issue.value, "identifier");
      var key := if Json.Truthy(identifier) then identifier else Json.Get(issue.value, "id");
      var url := Json.Get(issue.value, "url");
      var issueUrl :=
        if Json.Truthy(url) then url.value
        else if Json.Truthy(key) then Json.Str(IssueUrlPrefix + Json.Display(key))
        else Json.Str("");
      Ok(Created(key, issueUrl))
  }

  /** `createTask(payload, config)`, with `res` the response to the mutation. The second
      component is the input sent, present exactly when the request is made. */
  function CreateTask(payload: Task.Payload, config: Settings.Config, env: Settings.Env, res: Response,
                      parse: string -> Json.ParseOutcome, stringify: Json.Value -> string)
    : (out: (Result<Created>, Option<IssueInput>))
    ensures MissingApiKey(env) ==> out == (Err(ApiKeyError), None)
    ensures !MissingApiKey(env) && Blank(config.linear.teamId) ==> out == (Err(TeamIdError), None)
    ensures !MissingApiKey(env) && !Blank(config.linear.teamId) ==> out.1 == Some(BuildInput(payload, config))
    ensures !MissingApiKey(env) && !Blank(config.linear.teamId) && !IsOk(res) ==>
      out.0 == Err("Linear API error " + NatToString(res.status) + ": " + Detail(res))
    ensures !MissingApiKey(env) && !Blank(config.linear.teamId) && IsOk(res) ==>
      out.0 == match parse(res.body)
               case SyntaxError(m) => Err(m)
               case Parsed(data) => CreatedOf(data, stringify)
  {
    var apiKey := Trim(Settings.EnvValue(env, "LINEAR_API_KEY"));
    if apiKey == "" then (Err(ApiKeyError), None)
    else if Trim(config.linear.teamId) == "" then (Err(TeamIdError), None)
    else
      var sent := Some(BuildInput(payload, config));
      if !IsOk(res) then (Err("Linear API error " + NatToString(res.status) + ": " + Detail(res)), sent)
      else match parse(res.body)
        case SyntaxError(m) => (Err(m), sent)
        case Parsed(data) => (CreatedOf(data, stringify), sent)
  }

  /** An issue with a non-empty string identifier is keyed by it, whatever else the reply
      holds; without a URL in the issue its link is built from the identifier. */
  lemma IdentifierIsKey(data: Json.Value, stringify: Json.Value -> string, identifier: string)
    requires Json.Truthy(IssueOf(data)) && identifier != ""
    requires Json.Get(IssueOf(data).value, "identifier") == Some(Json.Str(identifier))
    ensures CreatedOf(data, stringify).Ok?
    ensures CreatedOf(data, stringify).value.key == Some(Json.Str(identifier))
    ensures !Json.Truthy(Json.Get(IssueOf(data).value, "url")) ==>
      CreatedOf(data, stringify).value.url == Json.Str(IssueUrlPrefix + identifier)
  {
  }

  /** Without an issue in the reply, a non-empty string message of the first item of an
      `errors` array is reported. */
  lemma GraphQlErrorReported(data: Json.Value, stringify: Json.Value -> string, first: Json.Value, message: string)
    requires !Json.Truthy(IssueOf(data)) && message != ""
    requires Json.Get(data, "errors").Some? && Json.Get(data, "errors").value.Arr?
    requires |Json.Get(data, "errors").value.items| > 0 && Json.Get(data, "errors").value.items[0] == first
    requires Json.Get(first, "message") == Some(Json.Str(message))
    ensures CreatedOf(data, stringify) == Err("Linear API: " + message)
  {
  }

  /** Without an issue and without any `errors` member, the reply itself is serialised
      into the error. */
  lemma SerialisedReplyReported(data: Json.Value, stringify: Json.Value -> string)
    requires !Json.Truthy(IssueOf(data)) && Json.Get(data, "errors").None?
    ensures CreatedOf(data, stringify) == Err("Linear API: " + stringify(data))
  {
  }

  /** `input` of the `commentCreate` mutation. */
  datatype CommentInput = CommentInput(issueId: Json.Value, body: string)

  /** The comment: the trimmed text, or "(no message)" when it is blank. */
  function CommentBody(bodyText: string): (b: string)
    ensures b != "" && IsTrimmed(b)
    ensures !Blank(bodyText) ==> b == Trim(bodyText)
    ensures Blank(bodyText) ==> b == "(no message)"
  {
    var t := Trim(bodyText);
    if t != "" then t else "(no message)"
  }

  /** The issue found by the lookup query, when it has a truthy `id`. */
  function FoundIssue(dataIssue: Json.Value): (issue: Option<Json.Value>)
    ensures issue.Some? <==>
      && dataIssue.Obj? && "data" in dataIssue.fields
      && dataIssue.fields["data"].Obj? && "issue" in dataIssue.fields["data"].fields
    ensures issue.Some? ==> issue.value == dataIssue.fields["data"].fields["issue"]
  {
    Json.GetOpt(Json.Get(dataIssue, "data"), "issue")
  }

  /** The API key is set and the identifier is not blank: the lookup query is sent. */
  predicate CommentReady(identifier: string, env: Settings.Env) {
    !MissingApiKey(env) && !Blank(identifier)
  }

  /** The lookup query was answered ok with a reply whose issue has a truthy `id`. */
  predicate IssueFound(resIssue: Response, parse: string -> Json.ParseOutcome) {
    && IsOk(resIssue) && parse(resIssue.body).Parsed?
    && Json.Truthy(Json.GetOpt(FoundIssue(parse(resIssue.body).value), "id"))
  }

  /** The comment mutation was answered ok with a reply that has no truthy first error. */
  predicate CommentAccepted(resComment: Response, parse: string -> Json.ParseOutcome) {
    && IsOk(resComment) && parse(resComment.body).Parsed?
    && !Json.Truthy(First(Json.Get(parse(resComment.body).value, "errors")))
  }

  /** `issue.url || 'https://linear.app/issue/' + id`. */
  function CommentUrl(issue: Option<Json.Value>, id: string): (u: Json.Value)
    ensures Json.Truthy(Json.GetOpt(issue, "url")) ==> u == Json.GetOpt(issue, "url").value
    ensures !Json.Truthy(Json.GetOpt(issue, "url")) ==> u == Json.Str(IssueUrlPrefix + id)
  {
    var url := Json.GetOpt(issue, "url");
    if Json.Truthy(url) then url.value else Json.Str(IssueUrlPrefix + id)
  }

  /** `addComment(identifier, bodyText, config)`: `resIssue` answers the lookup query and
      `resComment` the comment mutation; `sent` is the comment input, when it was sent. */
  function AddComment(identifier: string, bodyText: string, env: Settings.Env, resIssue: Response, resComment: Response,
                      parse: string -> Json.ParseOutcome): (out: (Result<Commented>, Option<CommentInput>))
    ensures MissingApiKey(env) ==> out == (Err(ApiKeyError), None)
    ensures !MissingApiKey(env) && Blank(identifier) ==> out == (Err(IdentifierError), None)
    ensures !MissingApiKey(env) && !Blank(identifier) && !IsOk(resIssue) ==>
      out == (Err("Linear API " + NatToString(resIssue.status) + ": " + resIssue.body), None)
    ensures out.1.Some? ==>
      (&& !MissingApiKey(env) && !Blank(identifier) && IsOk(resIssue)
       && parse(resIssue.body).Parsed?
       && var issue := FoundIssue(parse(resIssue.body).value);
          (&& Json.Truthy(Json.GetOpt(issue, "id"))
           && out.1.value == CommentInput(Json.GetOpt(issue, "id").value, CommentBody(bodyText))))
    ensures out.0.Ok? ==> out.1.Some? && out.0.value.key == Trim(identifier) && IsOk(resComment)
    ensures CommentReady(identifier, env) && IsOk(resIssue) && parse(resIssue.body).SyntaxError? ==>
      out == (Err(parse(resIssue.body).message), None)
    ensures CommentReady(identifier, env) && IsOk(resIssue) && parse(resIssue.body).Parsed?
            && !IssueFound(resIssue, parse) ==>
      var m := FirstErrorMessage(parse(resIssue.body).value);
      out == (Err("Linear: " + if Json.Truthy(m) then Json.Display(m) else "Issue not found"), None)
    ensures CommentReady(identifier, env) && IssueFound(resIssue, parse) ==>
      var issue := FoundIssue(parse(resIssue.body).value);
      out.1 == Some(CommentInput(Json.GetOpt(issue, "id").value, CommentBody(bodyText)))
    ensures CommentReady(identifier, env) && IssueFound(resIssue, parse) && !IsOk(resComment) ==>
      out.0 == Err("Linear comment API " + NatToString(resComment.status) + ": " + resComment.body)
    ensures CommentReady(identifier, env) && IssueFound(resIssue, parse) && IsOk(resComment)
            && parse(resComment.body).SyntaxError? ==>
      out.0 == Err(parse(resComment.body).message)
    ensures CommentReady(identifier, env) && IssueFound(resIssue, parse) && IsOk(resComment)
            && parse(resComment.body).Parsed? && !CommentAccepted(resComment, parse) ==>
      var firstError := First(Json.Get(parse(resComment.body).value, "errors"));
      out.0 == Err("Linear comment: " + Json.Display(Json.GetOpt(firstError, "message")))
    ensures CommentReady(identifier, env) && IssueFound(resIssue, parse) && CommentAccepted(resComment, parse) ==>
      var issue := FoundIssue(parse(resIssue.body).value);
      out.0 == Ok(Commented(Trim(identifier), CommentUrl(issue, Trim(identifier))))
  {
    var apiKey := Trim(Settings.EnvValue(env, "LINEAR_API_KEY"));
    var id := Trim(identifier);
    if apiKey == "" then (Err(ApiKeyError), None)
    else if id == "" then (Err(IdentifierError), None)
    else if !IsOk(resIssue) then (Err("Linear API " + NatToString(resIssue.status) + ": " + resIssue.body), None)
    else match parse(resIssue.body)
      case SyntaxError(m) => (Err(m), None)
      case Parsed(dataIssue) =>
        var issue := FoundIssue(dataIssue);
        var issueId := Json.GetOpt(issue, "id");
        if !Json.Truthy(issueId) then
          var message := FirstErrorMessage(dataIssue);
          (Err("Linear: " + if Json.Truthy(message) then Json.Display(message) else "Issue not found"), None)
        else
          var sent := Some(CommentInput(issueId.value, CommentBody(bodyText)));
          if !IsOk(resComment) then
            (Err("Linear comment API " + NatToString(resComment.status) + ": " + resComment.body), sent)
          else match parse(resComment.body)
            case SyntaxError(m) => (Err(m), sent)
            case Parsed(dataComment) =>
              var firstError := First(Json.Get(dataComment, "errors"));
              if Json.Truthy(firstError) then
                (Err("Linear comment: " + Json.Display(Json.GetOpt(firstError, "message"))), sent)
              else
                (Ok(Commented(id, CommentUrl(issue, id))), sent)
  }

  /** A comment is reported as added exactly when the key is set, the identifier is not
      blank, the lookup found the issue and the mutation succeeded without GraphQL
      errors; its key is the trimmed identifier and its link falls back to one built
      from it. */
  lemma CommentAddedWhen(identifier: string, bodyText: string, env: Settings.Env, resIssue: Response,
                         resComment: Response, parse: string -> Json.ParseOutcome)
    ensures var out := AddComment(identifier, bodyText, env, resIssue, resComment, parse);
      out.0.Ok? <==> CommentReady(identifier, env) && IssueFound(resIssue, parse) && CommentAccepted(resComment, parse)
    ensures var out := AddComment(identifier, bodyText, env, resIssue, resComment, parse);
      out.0.Ok? ==>
        var issue := FoundIssue(parse(resIssue.body).value);
        out.0.value == Commented(Trim(identifier), CommentUrl(issue, Trim(identifier)))
  {
  }
}
