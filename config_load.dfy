/** `loadConfig` of `src/config/load.js`: locating, reading and parsing `.haitaskrc`,
    then checking its sections and normalising its target. */
module ConfigLoad {
  import opened Results
  import opened Strings
  import Json
  import Files

  const ConfigFileName: string := ".haitaskrc"
  const RequiredKeys: seq<string> := ["ai", "rules"]
  /** The targets this loader accepts (its own list, not the shared constant). */
  const ValidTargets: seq<string> := ["jira", "trello"]
  /** The TypeError raised when `config` is `null`. */
  const NullConfigError: string := "Cannot read properties of null (reading 'ai')"
  /** The TypeError raised when a truthy `target` is not a string. */
  const TargetTypeError: string := "(config.target || \"jira\").toLowerCase is not a function"

  /** The file read: `configPath` resolved, or `.haitaskrc` under the working directory. */
  function ConfigFilePath(cwd: string, configPath: string): (p: string)
    ensures configPath == "" ==> p == cwd + "/" + ConfigFileName
    ensures configPath != "" && configPath[0] == '/' ==> p == configPath
    ensures configPath != "" && configPath[0] != '/' ==> p == cwd + "/" + configPath
  {
    if configPath != "" then Files.Resolve(cwd, configPath) else Files.Resolve(cwd, ConfigFileName)
  }

  /** `!section || typeof section !== 'object'`. */
  predicate BadSection(v: Option<Json.Value>) {
    !Json.Truthy(v) || !Json.IsObjectLike(v)
  }

  /** `REQUIRED_KEYS.filter(...)`: the keys whose section is missing or not an object. */
  function MissingSections(config: Json.Value, keys: seq<string>): (m: seq<string>)
    ensures |m| <= |keys|
  {
    if keys == [] then []
    else (if BadSection(Json.Get(config, keys[0])) then [keys[0]] else []) + MissingSections(config, keys[1..])
  }

  /** The filter keeps exactly the bad sections. */
  lemma {:induction false} MissingSectionsSpec(config: Json.Value, keys: seq<string>)
    ensures forall k :: k in MissingSections(config, keys) <==> k in keys && BadSection(Json.Get(config, k))
  {
    if keys != [] {
      MissingSectionsSpec(config, keys[1..]);
      assert keys == [keys[0]] + keys[1..];
    }
  }

  /** `(config.target || 'jira').toLowerCase()`. */
  function NormalTarget(config: Json.Value): (r: Result<string>)
    ensures !Json.Truthy(Json.Get(config, "target")) ==> r == Ok("jira")
    ensures r.Ok? && Json.Truthy(Json.Get(config, "target")) ==>
      Json.IsString(Json.Get(config, "target")) && r.value == ToLower(Json.Get(config, "target").value.s)
    ensures r.Err? <==> Json.Truthy(Json.Get(config, "target")) && !Json.IsString(Json.Get(config, "target"))
  {
    var t := Json.Get(config, "target");
    if !Json.Truthy(t) then LowerIsFixed("jira"); Ok(ToLower("jira"))
    else if t.value.Str? then Ok(ToLower(t.value.s))
    else Err(TargetTypeError)
  }

  function NotFoundError(filePath: string): string {
    "Config not found: " + filePath + ". Run \"haitask init\" first."
  }

  function MissingSectionsError(missing: seq<string>): string {
    "Config missing required sections: " + Join(missing, ", ") + ". Check .haitaskrc."
  }

  function InvalidTargetError(target: string): string {
    "Invalid target: \"" + target + "\". Allowed: " + Join(ValidTargets, ", ") + "."
  }

  function MissingTargetSectionError(target: string): string {
    "Config missing section for target \"" + target + "\". Add a \"" + target + "\" object in .haitaskrc."
  }

  /** An object with both required sections present. */
  predicate SectionsPresent(config: Json.Value) {
    config.Obj? && MissingSections(config, RequiredKeys) == []
  }

  /** The checks on the parsed value, with `config.target` rewritten in place on success. */
  function Validate(config: Json.Value): (r: Result<Json.Value>)
    ensures config.Null? ==> r == Err(NullConfigError)
    ensures !config.Null? && MissingSections(config, RequiredKeys) != [] ==>
      r == Err(MissingSectionsError(MissingSections(config, RequiredKeys)))
    ensures !config.Null? && MissingSections(config, RequiredKeys) == [] ==> config.Obj?
    ensures SectionsPresent(config) && NormalTarget(config).Err? ==> r == Err(TargetTypeError)
    ensures SectionsPresent(config) && NormalTarget(config).Ok? ==>
      var target := NormalTarget(config).value;
      && (target !in ValidTargets ==> r == Err(InvalidTargetError(target)))
      && (target in ValidTargets && BadSection(Json.Get(config, target)) ==> r == Err(MissingTargetSectionError(target)))
      && (target in ValidTargets && !BadSection(Json.Get(config, target)) ==>
            r == Ok(Json.Obj(config.fields["target" := Json.Str(target)])))
    ensures r.Ok? ==>
      (&& config.Obj? && MissingSections(config, RequiredKeys) == []
       && NormalTarget(config).Ok? && NormalTarget(config).value in ValidTargets
       && r.value == Json.Obj(config.fields["target" := Json.Str(NormalTarget(config).value)])
       && !BadSection(Json.Get(config, NormalTarget(config).value)))
  {
    if config.Null? then Err(NullConfigError)
    else
      var missing := MissingSections(config, RequiredKeys);
      if missing != [] then Err(MissingSectionsError(missing))
      else
        assert Json.Get(config, "ai").Some?;
        match NormalTarget(config)
        case Err(e) => Err(e)
        case Ok(target) =>
          var updated := Json.Obj(config.fields["target" := Json.Str(target)]);
          if target !in ValidTargets then Err(InvalidTargetError(target))
          else if BadSection(Json.Get(updated, target)) then Err(MissingTargetSectionError(target))
          else Ok(updated)
  }

  /** `loadConfig(configPath)` against the file map `entries`. */
  function LoadConfig(cwd: string, configPath: string, entries: map<string, Files.Entry>,
                      parse: string -> Json.ParseOutcome): (r: Result<Json.Value>)
    ensures var p := ConfigFilePath(cwd, configPath);
      && (p !in entries ==> r == Err(NotFoundError(p)))
      && (p in entries && entries[p].Unreadable? ==>
            r == Err("Cannot read config: " + p + ". " + entries[p].reason))
      && (p in entries && entries[p].Text? && parse(entries[p].contents).SyntaxError? ==>
            r == Err("Invalid JSON in " + p + ". " + parse(entries[p].contents).message))
      && (p in entries && entries[p].Text? && parse(entries[p].contents).Parsed? ==>
            r == Validate(parse(entries[p].contents).value))
  {
    var filePath := ConfigFilePath(cwd, configPath);
    match Files.ReadEntry(entries, filePath)
    case None => Err(NotFoundError(filePath))
    case Some(Err(reason)) => Err("Cannot read config: " + filePath + ". " + reason)
    case Some(Ok(raw)) =>
      match parse(raw)
      case SyntaxError(m) => Err("Invalid JSON in " + filePath + ". " + m)
      case Parsed(config) => Validate(config)
  }

  /** A loaded config keeps every member of the file except `target`, which is one of
      the accepted targets and names a section that is an object. */
  lemma LoadedConfigShape(cwd: string, configPath: string, entries: map<string, Files.Entry>,
                          parse: string -> Json.ParseOutcome)
    requires LoadConfig(cwd, configPath, entries, parse).Ok?
    ensures var c := LoadConfig(cwd, configPath, entries, parse).value;
      && c.Obj? && "target" in c.fields && c.fields["target"].Str?
      && c.fields["target"].s in ValidTargets
      && c.fields["target"].s in c.fields && (c.fields[c.fields["target"].s].Obj? || c.fields[c.fields["target"].s].Arr?)
      && "ai" in c.fields && "rules" in c.fields
  {
    var p := ConfigFilePath(cwd, configPath);
    var config := parse(entries[p].contents).value;
    MissingSectionsSpec(config, RequiredKeys);
    assert BadSection(Json.Get(config, "ai")) ==> "ai" in MissingSections(config, RequiredKeys);
    assert BadSection(Json.Get(config, "rules")) ==> "rules" in MissingSections(config, RequiredKeys);
  }

  /** Only `target` is rewritten: every other member is the one read from the file. */
  lemma OnlyTargetRewritten(config: Json.Value, k: string)
    requires Validate(config).Ok? && k != "target"
    ensures config.Obj? && Validate(config).value.Obj?
    ensures k in config.fields <==> k in Validate(config).value.fields
    ensures k in config.fields ==> Validate(config).value.fields[k] == config.fields[k]
  {
  }

  /** Both sections missing are listed `ai` first. */
  lemma BothSectionsListed(config: Json.Value)
    requires BadSection(Json.Get(config, "ai")) && BadSection(Json.Get(config, "rules"))
    ensures MissingSections(config, RequiredKeys) == ["ai", "rules"]
  {
  }

  /** "linear" is rejected here although the shared target list has it. */
  lemma LinearRejected(config: Json.Value)
    requires config.Obj? && MissingSections(config, RequiredKeys) == []
    requires Json.Get(config, "target") == Some(Json.Str("linear"))
    ensures Validate(config) == Err(InvalidTargetError("linear"))
  {
    LowerIsFixed("linear");
    assert NormalTarget(config) == Ok("linear");
    assert "linear" != ValidTargets[0] && "linear" != ValidTargets[1];
  }
}
