/** Links to Jira issues. */
module Urls {
  import Strings
  import opened Settings

  /** `.replace(/\/$/, '')`: one trailing slash removed, if there is one. */
  function StripTrailingSlash(s: string): (r: string)
    ensures s != [] && s[|s| - 1] == '/' ==> s == r + "/"
    ensures (s == [] || s[|s| - 1] != '/') ==> r == s
  {
    if s != [] && s[|s| - 1] == '/' then s[..|s| - 1] else s
  }

  /** The base URL: `config.jira.baseUrl`, else `JIRA_BASE_URL`, without one trailing slash. */
  function JiraBaseUrl(config: Config, env: Env): (r: string)
    ensures var b := if config.jira.baseUrl != "" then config.jira.baseUrl else EnvValue(env, "JIRA_BASE_URL");
      && (b != [] && b[|b| - 1] == '/' ==> b == r + "/")
      && (b == [] || b[|b| - 1] != '/' ==> r == b)
  {
    StripTrailingSlash(if config.jira.baseUrl != "" then config.jira.baseUrl else EnvValue(env, "JIRA_BASE_URL"))
  }

  /** `buildJiraUrl(config, key)`: `<base>/browse/<key>`, or the bare key without a base. */
  function BuildJiraUrl(config: Config, env: Env, key: string): (r: string)
    ensures JiraBaseUrl(config, env) != "" ==> r == JiraBaseUrl(config, env) + "/browse/" + key
    ensures JiraBaseUrl(config, env) == "" ==> r == key
    // with neither source, the result is exactly the key
    ensures config.jira.baseUrl == "" && EnvValue(env, "JIRA_BASE_URL") == "" ==> r == key
  {
    var base := JiraBaseUrl(config, env);
    if base != "" then base + "/browse/" + key else key
  }

  /** `config.jira.baseUrl` takes precedence: when it is set, the environment is not consulted. */
  lemma ConfigBaseWins(config: Config, env1: Env, env2: Env, key: string)
    requires config.jira.baseUrl != ""
    ensures BuildJiraUrl(config, env1, key) == BuildJiraUrl(config, env2, key)
  {
  }

  /** A base without a trailing slash is used as it is. */
  lemma BaseWithoutSlash(config: Config, env: Env, key: string)
    requires config.jira.baseUrl != "" && config.jira.baseUrl[|config.jira.baseUrl| - 1] != '/'
    ensures BuildJiraUrl(config, env, key) == config.jira.baseUrl + "/browse/" + key
  {
  }

  /** Only one trailing slash is removed: `b//` keeps one of its slashes. */
  lemma OneSlashRemoved(config: Config, env: Env, key: string, b: string)
    requires b != "" && config.jira.baseUrl == b + "/"
    ensures BuildJiraUrl(config, env, key) == b + "/browse/" + key
  {
    assert (b + "/")[..|b + "/"| - 1] == b;
  }
}
