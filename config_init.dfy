/** `src/config/init.js`: writing the default `.haitaskrc` and checking which
    environment keys are missing. */
module ConfigInit {
  import opened Results
  import opened Strings
  import Json
  import Files
  import Settings
  import ConfigLoad

  /** `DEFAULT_RC`. */
  const DefaultRc: Json.Value := Json.Obj(map[
    "jira" := Json.Obj(map[
      "baseUrl" := Json.Str("https://your-domain.atlassian.net"),
      "projectKey" := Json.Str("PROJ"),
      "issueType" := Json.Str("Task")]),
    "ai" := Json.Obj(map[
      "provider" := Json.Str("groq"),
      "model" := Json.Str("llama-3.1-8b-instant")]),
    "rules" := Json.Obj(map[
      "allowedBranches" := Json.Arr([Json.Str("main"), Json.Str("develop"), Json.Str("master")]),
      "commitPrefixes" := Json.Arr([Json.Str("feat"), Json.Str("fix"), Json.Str("chore")])])])

  const RequiredEnvKeys: seq<string> := ["JIRA_BASE_URL", "JIRA_EMAIL", "JIRA_API_TOKEN"]

  /** `resolve(dir, '.haitaskrc')`, with `dir` defaulting to the working directory. */
  function DefaultConfigPath(cwd: string, dir: string): string {
    (if dir == "" then cwd else Files.Resolve(cwd, dir)) + "/" + ConfigLoad.ConfigFileName
  }

  /** `createDefaultConfigFile(dir)`: `Ok(false)` and nothing changed when the file
      exists, otherwise the default config is written and `Ok(true)` returned; a failing
      write throws. `render` stands for `JSON.stringify(DEFAULT_RC, null, 2)`. */
  method CreateDefaultConfigFile(fs: Files.FileSystem, cwd: string, dir: string, render: Json.Value -> string)
    returns (r: Result<bool>)
    modifies fs
    ensures fs.readOnly == old(fs.readOnly)
    ensures var path := DefaultConfigPath(cwd, dir);
      && (path in old(fs.entries) ==> r == Ok(false) && fs.entries == old(fs.entries))
      && (path !in old(fs.entries) && path in fs.readOnly ==>
            r == Err(Files.WriteError(path)) && fs.entries == old(fs.entries))
      && (path !in old(fs.entries) && path !in fs.readOnly ==>
            r == Ok(true) && fs.entries == old(fs.entries)[path := Files.Text(render(DefaultRc))])
    // whatever happened, the file is there afterwards unless the write failed
    ensures r.Ok? ==> DefaultConfigPath(cwd, dir) in fs.entries
  {
    var path := DefaultConfigPath(cwd, dir);
    if fs.Exists(path) {
      return Ok(false);
    }
    var err := fs.Write(path, render(DefaultRc));
    if err.Some? {
      return Err(err.value);
    }
    return Ok(true);
  }

  /** The default config passes `loadConfig`'s checks, defaulting to the Jira target,
      provided `JSON.parse` reads back what `JSON.stringify` wrote. */
  lemma DefaultConfigLoads(cwd: string, render: Json.Value -> string, parse: string -> Json.ParseOutcome)
    requires parse(render(DefaultRc)) == Json.Parsed(DefaultRc)
    ensures var entries := map[DefaultConfigPath(cwd, "") := Files.Text(render(DefaultRc))];
      var r := ConfigLoad.LoadConfig(cwd, "", entries, parse);
      r.Ok? && Json.Get(r.value, "target") == Some(Json.Str("jira"))
  {
    DefaultRcValid();
    assert ConfigLoad.ConfigFilePath(cwd, "") == DefaultConfigPath(cwd, "");
  }

  /** The default config passes the checks and gains `"target": "jira"`. */
  lemma DefaultRcValid()
    ensures ConfigLoad.Validate(DefaultRc) == Ok(Json.Obj(DefaultRc.fields["target" := Json.Str("jira")]))
  {
    LowerIsFixed("jira");
    assert ConfigLoad.NormalTarget(DefaultRc) == Ok("jira");
    assert ConfigLoad.MissingSections(DefaultRc, ConfigLoad.RequiredKeys) == [];
    assert DefaultRc.fields["target" := Json.Str("jira")]["jira"].Obj?;
  }

  /** The provider's key in `aiKeys`, looked up after lower-casing. */
  function AiKeyFor(provider: string): (k: Option<string>)
    ensures k.Some? ==> k.value !in RequiredEnvKeys
    ensures k.Some? <==> ToLower(provider) in ["openai", "deepseek", "groq"]
  {
    var p := ToLower(provider);
    if p == "openai" then Some("OPENAI_API_KEY")
    else if p == "deepseek" then Some("DEEPSEEK_API_KEY")
    else if p == "groq" then Some("GROQ_API_KEY")
    else None
  }

  /** The AI key `validateEnv` checks: only with a config naming a known provider. */
  function AiKey(config: Option<Settings.Config>): Option<string> {
    if config.Some? && config.value.ai.provider != "" then AiKeyFor(config.value.ai.provider) else None
  }

  predicate Unset(env: Settings.Env, key: string) {
    Blank(Settings.EnvValue(env, key))
  }

  /** `keys.filter((key) => !process.env[key]?.trim())`. */
  function StillMissing(keys: seq<string>, env: Settings.Env): (m: seq<string>)
    ensures |m| <= |keys|
  {
    if keys == [] then []
    else (if Unset(env, keys[0]) then [keys[0]] else []) + StillMissing(keys[1..], env)
  }

  lemma {:induction false} StillMissingSpec(keys: seq<string>, env: Settings.Env)
    ensures forall k :: k in StillMissing(keys, env) <==> k in keys && Unset(env, k)
  {
    if keys != [] {
      StillMissingSpec(keys[1..], env);
      assert keys == [keys[0]] + keys[1..];
    }
  }

  lemma {:induction false} StillMissingAppend(xs: seq<string>, ys: seq<string>, env: Settings.Env)
    ensures StillMissing(xs + ys, env) == StillMissing(xs, env) + StillMissing(ys, env)
  {
    if xs != [] {
      StillMissingAppend(xs[1..], ys, env);
      assert (xs + ys)[1..] == xs[1..] + ys;
    } else {
      assert xs + ys == ys;
    }
  }

  predicate Distinct(s: seq<string>) {
    forall i, j | 0 <= i < j < |s| :: s[i] != s[j]
  }

  /** Filtering keeps distinct keys distinct. */
  lemma {:induction false} StillMissingDistinct(keys: seq<string>, env: Settings.Env)
    requires Distinct(keys)
    ensures Distinct(StillMissing(keys, env))
  {
    if keys != [] {
      StillMissingDistinct(keys[1..], env);
      StillMissingSpec(keys[1..], env);
      var rest := StillMissing(keys[1..], env);
      assert keys[0] !in keys[1..];
      assert keys[0] !in rest;
      var m := StillMissing(keys, env);
      if Unset(env, keys[0]) {
        assert m == [keys[0]] + rest;
        forall i, j | 0 <= i < j < |m|
          ensures m[i] != m[j]
        {
          if i == 0 {
            assert m[j] == rest[j - 1];
          } else {
            assert m[i] == rest[i - 1] && m[j] == rest[j - 1];
          }
        }
      } else {
        assert m == rest;
      }
    }
  }

  /** `validateEnv(dir, config)`: the required keys, then the AI key when it applies,
      keeping only those that are unset or blank. */
  method ValidateEnv(config: Option<Settings.Config>, env: Settings.Env) returns (valid: bool, missing: seq<string>)
    ensures valid <==> missing == []
    ensures forall k :: k in missing <==> (k in RequiredEnvKeys || AiKey(config) == Some(k)) && Unset(env, k)
    ensures missing == StillMissing(RequiredEnvKeys, env)
                       + if AiKey(config).Some? && Unset(env, AiKey(config).value) then [AiKey(config).value] else []
    ensures Distinct(missing)
  {
    var keys := RequiredEnvKeys;
    if config.Some? && config.value.ai.provider != "" {
      var aiKey := AiKeyFor(config.value.ai.provider);
      if aiKey.Some? && Unset(env, aiKey.value) {
        keys := keys + [aiKey.value];
      }
    }
    missing := StillMissing(keys, env);
    valid := |missing| == 0;
    MissingKeys(config, env, keys);
  }

  /** The keys `validateEnv` filters: the required ones, then the AI key when it is unset. */
  lemma MissingKeys(config: Option<Settings.Config>, env: Settings.Env, keys: seq<string>)
    requires keys == RequiredEnvKeys
                     + if AiKey(config).Some? && Unset(env, AiKey(config).value) then [AiKey(config).value] else []
    ensures forall k :: k in StillMissing(keys, env) <==> (k in RequiredEnvKeys || AiKey(config) == Some(k)) && Unset(env, k)
    ensures StillMissing(keys, env) == StillMissing(RequiredEnvKeys, env)
                       + if AiKey(config).Some? && Unset(env, AiKey(config).value) then [AiKey(config).value] else []
    ensures Distinct(StillMissing(keys, env))
  {
    StillMissingSpec(keys, env);
    StillMissingDistinct(keys, env);
    StillMissingAppend(RequiredEnvKeys, keys[|RequiredEnvKeys|..], env);
    assert keys == RequiredEnvKeys + keys[|RequiredEnvKeys|..];
  }
}
