/** `generateTaskPayload` of `src/ai/index.js`: the provider named by the configuration
    (Groq by default, case-insensitively) is chosen and its generator called. The
    generators themselves call external APIs and are a parameter here. */
module AiDispatch {
  import opened Results
  import opened Strings
  import Settings
  import Commit
  import AiUtils

  datatype Provider = OpenAI | Deepseek | Groq

  /** `PROVIDERS`. */
  const Supported: seq<string> := ["openai", "deepseek", "groq"]

  function ProviderName(p: Provider): (name: string)
    ensures name in Supported
  {
    match p
    case OpenAI => "openai"
    case Deepseek => "deepseek"
    case Groq => "groq"
  }

  /** `(config?.ai?.provider || 'groq').toLowerCase()`. */
  function RequestedProvider(config: Settings.Config): string {
    ToLower(if config.ai.provider != "" then config.ai.provider else "groq")
  }

  /** The `switch`: a supported name selects its provider, anything else is an error
      naming the (lower-cased) provider and the supported ones. */
  function SelectProvider(config: Settings.Config): (r: Result<Provider>)
    ensures r.Ok? <==> RequestedProvider(config) in Supported
    ensures r.Ok? ==> ProviderName(r.value) == RequestedProvider(config)
    ensures r.Err? ==> r.message == "Unknown AI provider: " + RequestedProvider(config) + ". Supported: " + Join(Supported, ", ")
  {
    var p := RequestedProvider(config);
    if p == "openai" then Ok(OpenAI)
    else if p == "deepseek" then Ok(Deepseek)
    else if p == "groq" then Ok(Groq)
    else Err("Unknown AI provider: " + p + ". Supported: " + Join(Supported, ", "))
  }

  /** `generateTaskPayload(commitData, config)`, with the three generators as `generate`. */
  function GenerateTaskPayload(commitData: Commit.CommitData, config: Settings.Config,
                               generate: (Provider, Commit.CommitData, Settings.Config) -> Result<AiUtils.TaskPayload>)
    : (r: Result<AiUtils.TaskPayload>)
    ensures SelectProvider(config).Ok? ==> r == generate(SelectProvider(config).value, commitData, config)
    ensures SelectProvider(config).Err? ==> r == Err(SelectProvider(config).message)
  {
    match SelectProvider(config)
    case Ok(p) => generate(p, commitData, config)
    case Err(m) => Err(m)
  }

  /** Naming a provider selects it: `ProviderName` and `SelectProvider` are inverse. */
  lemma SelectNamedProvider(config: Settings.Config, p: Provider)
    requires config.ai.provider == ProviderName(p)
    ensures SelectProvider(config) == Ok(p)
  {
    match p
    case OpenAI => LowerIsFixed("openai");
    case Deepseek => LowerIsFixed("deepseek");
    case Groq => LowerIsFixed("groq");
  }

  /** Without a provider the dispatch uses Groq. */
  lemma DefaultProviderIsGroq(config: Settings.Config)
    requires config.ai.provider == ""
    ensures SelectProvider(config) == Ok(Groq)
  {
    LowerIsFixed("groq");
  }

  /** The choice ignores ASCII case: "OpenAI" and "openai" select the same provider. */
  lemma SelectIgnoresCase(c1: Settings.Config, c2: Settings.Config)
    requires c1.ai.provider != "" && c2.ai.provider != ""
    requires ToLower(c1.ai.provider) == ToLower(c2.ai.provider)
    ensures SelectProvider(c1) == SelectProvider(c2)
  {
  }
}
