/** Short hints appended to tracker API errors for the statuses 401, 403 and 404. */
module HttpHints {
  import opened Results

  /** The `HINTS` table: an entry for each of jira, trello and linear and each of 401,
      403 and 404, nothing else. */
  function Hints(target: string, status: int): (h: string)
    ensures h != "" <==> target in {"jira", "trello", "linear"} && status in {401, 403, 404}
  {
    if status == 401 then ByTarget(target, Jira401, Trello401, Linear401)
    else if status == 403 then ByTarget(target, Jira403, Trello403, Linear403)
    else if status == 404 then ByTarget(target, Jira404, Trello404, Linear404)
    else ""
  }

  /** One row of the table: the hint for each target, "" for any other target. */
  function ByTarget(target: string, jira: string, trello: string, linear: string): (h: string)
    requires jira != "" && trello != "" && linear != ""
    ensures h != "" <==> target in {"jira", "trello", "linear"}
  {
    if target == "jira" then jira
    else if target == "trello" then trello
    else if target == "linear" then linear
    else ""
  }

  const Jira401: string := "Check JIRA_EMAIL and JIRA_API_TOKEN in .env."
  const Trello401: string := "Check TRELLO_API_KEY and TRELLO_TOKEN in .env. Get them at https://trello.com/app-key"
  const Linear401: string := "Check LINEAR_API_KEY in .env. Get a key at https://linear.app/settings/api"
  const Jira403: string := "Check project permissions and that the user is an assignable user."
  const Trello403: string := "Check board and list access (token may not have write permission)."
  const Linear403: string := "Check team permissions and API key scope."
  const Jira404: string := "Check JIRA_BASE_URL and jira.projectKey in .haitaskrc."
  const Trello404: string := "Check trello.listId (list where cards go) or the card ID."
  const Linear404: string := "Check linear.teamId in .haitaskrc or the issue identifier."

  /** `getHttpHint(target, status)`, where `status` is `Number(status)` (None for NaN). */
  function GetHttpHint(target: string, status: Option<int>): (r: string)
    // zero, non-numeric or below 400: no hint
    ensures status.None? || status.value == 0 || status.value < 400 ==> r == ""
    // the target is looked up as given (case-sensitive); other targets have no hints
    ensures target !in {"jira", "trello", "linear"} ==> r == ""
    // a table entry exactly for the three statuses
    ensures status.Some? && status.value in {401, 403, 404} && target in {"jira", "trello", "linear"} ==>
              r == Hints(target, status.value) && r != ""
    ensures status.Some? && status.value >= 400 && status.value !in {401, 403, 404} ==> r == ""
  {
    if status.None? || status.value == 0 || status.value < 400 then ""
    else Hints(target, status.value)
  }
}
