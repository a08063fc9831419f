/**
 * The configuration of config/config.go: the providers, the per-provider
 * sections, Validate with its messages, and the two configurations the
 * program writes for new users.
 */
module Config {
  import opened Wrappers
  import opened Bytes

  /** The provider names; the field holds any string, as the source's Provider type does. */
  const ProviderOpenAI := "openai"
  const ProviderGemini := "gemini"
  const ProviderAnthropic := "anthropic"
  const ProviderDeepseek := "deepseek"
  const ProviderOllama := "ollama"
  const ProviderOpenRouter := "openrouter"
  const ProviderAzureOpenAI := "azure_openai"

  const Providers: seq<string> := [
    ProviderOpenAI, ProviderGemini, ProviderAnthropic, ProviderDeepseek,
    ProviderOllama, ProviderOpenRouter, ProviderAzureOpenAI]

  /** The section shape of the OpenAI, Gemini, Anthropic, Deepseek and OpenRouter providers. */
  datatype KeyedConfig = KeyedConfig(apiKey: string, baseURL: string, defaultModel: string)

  datatype OllamaConfig = OllamaConfig(baseURL: string, defaultModel: string)

  datatype AzureOpenAIConfig = AzureOpenAIConfig(apiKey: string, endpoint: string, defaultModel: string, apiVersion: string)

  /** A configuration; an absent section is a nil pointer in the source. */
  datatype Config = Config(
    defaultProvider: string,
    openAI: Option<KeyedConfig>,
    gemini: Option<KeyedConfig>,
    anthropic: Option<KeyedConfig>,
    deepseek: Option<KeyedConfig>,
    ollama: Option<OllamaConfig>,
    openRouter: Option<KeyedConfig>,
    azureOpenAI: Option<AzureOpenAIConfig>)

  /** The section of a keyed provider. */
  function KeyedSection(c: Config, p: string): Option<KeyedConfig>
    requires IsKeyedProvider(p)
  {
    if p == ProviderOpenAI then c.openAI
    else if p == ProviderGemini then c.gemini
    else if p == ProviderAnthropic then c.anthropic
    else if p == ProviderDeepseek then c.deepseek
    else c.openRouter
  }

  predicate IsKeyedProvider(p: string) {
    p in [ProviderOpenAI, ProviderGemini, ProviderAnthropic, ProviderDeepseek, ProviderOpenRouter]
  }

  // ---------------------------------------------------------------------
  // What a valid configuration is
  // ---------------------------------------------------------------------

  predicate KeyedComplete(s: Option<KeyedConfig>) {
    s.Some? && s.value.apiKey != "" && s.value.defaultModel != ""
  }

  predicate OllamaComplete(s: Option<OllamaConfig>) {
    s.Some? && s.value.baseURL != "" && s.value.defaultModel != ""
  }

  predicate AzureComplete(s: Option<AzureOpenAIConfig>) {
    s.Some? && s.value.apiKey != "" && s.value.endpoint != "" && s.value.defaultModel != "" && s.value.apiVersion != ""
  }

  /** A configuration is valid when it names a known provider whose section has every required field. */
  ghost predicate Valid(c: Config) {
    var p := c.defaultProvider;
    if IsKeyedProvider(p) then KeyedComplete(KeyedSection(c, p))
    else if p == ProviderOllama then OllamaComplete(c.ollama)
    else if p == ProviderAzureOpenAI then AzureComplete(c.azureOpenAI)
    else false
  }

  /** The message for a provider whose section is absent. */
  function MissingSection(p: string): (m: string)
    ensures HasPrefix(m, p)
  {
    var m := p + " configuration is required when default_provider is " + p;
    assert m[..|p|] == p;
    m
  }

  /** The message for an empty required field of a provider's section. */
  function MissingField(p: string, field: string): (m: string)
    ensures HasPrefix(m, p)
  {
    var m := p + "." + field + " is required";
    assert m[..|p|] == p;
    m
  }

  /** The checks of a keyed provider's section, in the source's order. */
  function CheckKeyed(p: string, s: Option<KeyedConfig>): (err: Option<string>)
    ensures err == None <==> KeyedComplete(s)
    ensures s.None? ==> err == Some(MissingSection(p))
    ensures err.Some? ==> HasPrefix(err.value, p)
  {
    match s
    case None => Some(MissingSection(p))
    case Some(k) =>
      if k.apiKey == "" then Some(MissingField(p, "api_key"))
      else if k.defaultModel == "" then Some(MissingField(p, "default_model"))
      else None
  }

  function CheckOllama(s: Option<OllamaConfig>): (err: Option<string>)
    ensures err == None <==> OllamaComplete(s)
    ensures s.None? ==> err == Some(MissingSection(ProviderOllama))
    ensures err.Some? ==> HasPrefix(err.value, ProviderOllama)
  {
    match s
    case None => Some(MissingSection(ProviderOllama))
    case Some(o) =>
      if o.baseURL == "" then Some(MissingField(ProviderOllama, "base_url"))
      else if o.defaultModel == "" then Some(MissingField(ProviderOllama, "default_model"))
      else None
  }

  function CheckAzure(s: Option<AzureOpenAIConfig>): (err: Option<string>)
    ensures err == None <==> AzureComplete(s)
    ensures s.None? ==> err == Some(MissingSection(ProviderAzureOpenAI))
    ensures err.Some? ==> HasPrefix(err.value, ProviderAzureOpenAI)
  {
    match s
    case None => Some(MissingSection(ProviderAzureOpenAI))
    case Some(a) =>
      if a.apiKey == "" then Some(MissingField(ProviderAzureOpenAI, "api_key"))
      else if a.endpoint == "" then Some(MissingField(ProviderAzureOpenAI, "endpoint"))
      else if a.defaultModel == "" then Some(MissingField(ProviderAzureOpenAI, "default_model"))
      else if a.apiVersion == "" then Some(MissingField(ProviderAzureOpenAI, "api_version"))
      else None
  }

  const ProviderRequired := "default_provider is required"

  /** Config.Validate: None when valid, otherwise the first failed check's message. */
  function Validate(c: Config): (err: Option<string>)
    ensures err == None <==> Valid(c)
    ensures c.defaultProvider == "" ==> err == Some(ProviderRequired)
    ensures c.defaultProvider != "" && c.defaultProvider !in Providers ==>
      err == Some("unsupported provider: " + c.defaultProvider)
    ensures c.defaultProvider in Providers && err.Some? ==> HasPrefix(err.value, c.defaultProvider)
  {
    var p := c.defaultProvider;
    if p == "" then Some(ProviderRequired)
    else if IsKeyedProvider(p) then CheckKeyed(p, KeyedSection(c, p))
    else if p == ProviderOllama then CheckOllama(c.ollama)
    else if p == ProviderAzureOpenAI then CheckAzure(c.azureOpenAI)
    else Some("unsupported provider: " + p)
  }

  /** Validity depends on the selected provider's section only. */
  lemma OnlySelectedSectionMatters(c: Config, d: Config)
    requires c.defaultProvider == d.defaultProvider
    requires c.defaultProvider == ProviderOllama ==> c.ollama == d.ollama
    requires c.defaultProvider == ProviderAzureOpenAI ==> c.azureOpenAI == d.azureOpenAI
    requires IsKeyedProvider(c.defaultProvider) ==> KeyedSection(c, c.defaultProvider) == KeyedSection(d, c.defaultProvider)
    ensures Validate(c) == Validate(d)
  {
  }

  /** A missing section for the selected provider is reported as such, for every provider. */
  lemma MissingSectionReported(c: Config)
    requires IsKeyedProvider(c.defaultProvider) ==> KeyedSection(c, c.defaultProvider).None?
    requires c.defaultProvider == ProviderOllama ==> c.ollama.None?
    requires c.defaultProvider == ProviderAzureOpenAI ==> c.azureOpenAI.None?
    requires c.defaultProvider in Providers
    ensures Validate(c) == Some(MissingSection(c.defaultProvider))
  {
  }

  /** The configuration CreateDefaultConfig writes. */
  function DefaultConfig(): (c: Config)
    ensures c.defaultProvider == ProviderOpenAI
    ensures Validate(c) == None
  {
    Config(ProviderOpenAI, Some(KeyedConfig("your-openai-api-key", "", "gpt-3.5-turbo")),
      None, None, None, None, None, None)
  }

  /** The configuration CreateExampleConfig writes. */
  function ExampleConfig(): (c: Config)
    ensures c.defaultProvider == ProviderOpenAI
    ensures Validate(c) == None
  {
    Config(
      ProviderOpenAI,
      Some(KeyedConfig("your-openai-api-key", "https://api.openai.com/v1", "gpt-3.5-turbo")),
      Some(KeyedConfig("your-gemini-api-key", "", "gemini-pro")),
      Some(KeyedConfig("your-anthropic-api-key", "", "claude-3-opus-20240229")),
      Some(KeyedConfig("your-deepseek-api-key", "", "deepseek-coder")),
      Some(OllamaConfig("http://localhost:11434", "llama3")),
      Some(KeyedConfig("your-openrouter-api-key", "", "openai/gpt-4-turbo")),
      Some(AzureOpenAIConfig("your-azure-openai-api-key", "https://your-resource-name.openai.azure.com", "gpt-4", "2023-05-15")))
  }

  /** The example configuration stays valid whichever provider is selected. */
  lemma ExampleConfigValidForEveryProvider(p: string)
    requires p in Providers
    ensures Validate(ExampleConfig().(defaultProvider := p)) == None
  {
  }
}
