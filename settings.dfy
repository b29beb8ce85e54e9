/** The configuration (`.haitaskrc`, after `loadConfig`) and the process environment as
    the tracker clients, the AI dispatch and `validateEnv` read them. Every string
    field is read in the source through `||` or a falsy test, which treat an absent
    field and "" alike, so "" stands for "not set". */
module Settings {
  import Json

  datatype JiraSection = JiraSection(baseUrl: string, projectKey: string, issueType: string, assigneeAccountId: string)

  /** `labelIds` stays a JSON value: the client checks `Array.isArray` and `typeof` on it
      (`Null` when absent). */
  datatype TrelloSection = TrelloSection(listId: string, memberId: string, labelIds: Json.Value)

  datatype LinearSection = LinearSection(teamId: string)

  datatype AiSection = AiSection(provider: string, model: string)

  datatype Config = Config(target: string, ai: AiSection, jira: JiraSection, trello: TrelloSection, linear: LinearSection)

  /** `process.env`: a map from variable name to value. */
  type Env = map<string, string>

  /** `process.env[name]`, "" when unset. */
  function EnvValue(env: Env, name: string): string {
    if name in env then env[name] else ""
  }
}
