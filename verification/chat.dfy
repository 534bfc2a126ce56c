/**
 * The chat request both front ends send: the conversation turns, the chat
 * model (with its fallback), fixed sampling settings, and the grounding
 * descriptor that points the service at the search index.
 */
module Chat {
  import opened Wrappers
  import opened Settings

  datatype Role = System | User | Assistant

  /** One `{"role": ..., "content": ...}` message. */
  datatype Turn = Turn(role: Role, content: string)

  /**
   * What the chat-completion call came back with: the first choice's content,
   * which may be null, or the message of whatever exception was raised.
   */
  datatype Outcome = Ok(content: Option<string>) | Fail(message: string)

  /** `content or ""`. */
  function ContentOrEmpty(content: Option<string>): (r: string)
    ensures r == "" <==> content.None? || content == Some("")
    ensures r != "" ==> content == Some(r)
  {
    content.GetOr("")
  }

  const DefaultChatModel: string := "gpt-4o"
  const Temperature: real := 0.7
  const MaxTokens: nat := 2000

  datatype Authentication = Authentication(kind: string, key: string)
  datatype EmbeddingDependency = EmbeddingDependency(kind: string, deploymentName: string)
  datatype SearchParameters = SearchParameters(
    endpoint: string,
    indexName: string,
    authentication: Authentication,
    queryType: string,
    embeddingDependency: EmbeddingDependency)
  datatype DataSource = DataSource(kind: string, parameters: SearchParameters)

  /** The `extra_body` of the request: `{"data_sources": [...]}`. */
  datatype RagParams = RagParams(dataSources: seq<DataSource>)

  datatype ChatRequest = ChatRequest(
    model: string,
    messages: seq<Turn>,
    extraBody: RagParams,
    temperature: real,
    maxTokens: nat)

  /** `rag_params`: one Azure AI Search source, API-key authenticated, vector queries. */
  function BuildRagParams(config: Config): (r: RagParams)
    ensures |r.dataSources| == 1
    ensures var p := r.dataSources[0].parameters;
            && r.dataSources[0].kind == "azure_search"
            && p.endpoint == config.searchEndpoint
            && p.indexName == config.indexName
            && p.authentication == Authentication("api_key", config.searchApiKey)
            && p.queryType == "vector"
            && p.embeddingDependency == EmbeddingDependency("deployment_name", config.embeddingModel)
  {
    RagParams([
      DataSource("azure_search", SearchParameters(
        config.searchEndpoint,
        config.indexName,
        Authentication("api_key", config.searchApiKey),
        "vector",
        EmbeddingDependency("deployment_name", config.embeddingModel)))
    ])
  }

  /** The descriptor is made from the four search settings alone: the chat key, endpoint and model never enter it. */
  lemma RagParamsUseSearchSettingsOnly(c1: Config, c2: Config)
    requires c1.searchEndpoint == c2.searchEndpoint && c1.indexName == c2.indexName
    requires c1.searchApiKey == c2.searchApiKey && c1.embeddingModel == c2.embeddingModel
    ensures BuildRagParams(c1) == BuildRagParams(c2)
  {
  }

  /** `config["chat_model"] or "gpt-4o"`. */
  function ModelName(config: Config): (r: string)
    ensures r != ""
    ensures config.chatModel != "" ==> r == config.chatModel
    ensures config.chatModel == "" ==> r == DefaultChatModel
  {
    if config.chatModel != "" then config.chatModel else DefaultChatModel
  }

  /** A configuration that got past the loader names its model, so the fallback never applies to it. */
  lemma LoadedConfigKeepsModel(env: Env)
    requires AllSet(env)
    ensures ModelName(ConfigOf(env)) == Value(env, "CHAT_MODEL")
  {
  }

  /** The arguments of `client.chat.completions.create` for the given history. */
  function BuildRequest(config: Config, history: seq<Turn>): (r: ChatRequest)
    ensures r.messages == history
    ensures r.model == ModelName(config) && r.extraBody == BuildRagParams(config)
    ensures r.temperature == 0.7 && r.maxTokens == 2000
  {
    ChatRequest(ModelName(config), history, BuildRagParams(config), Temperature, MaxTokens)
  }
}
