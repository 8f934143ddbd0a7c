/** The AI model settings dialog (src/AIModelSettings.tsx): loading the
    local model list through the local API server, choosing between local and
    cloud models, and the settings it hands back to be saved. */
module ModelSettings {
  import opened Wrappers
  import opened Text
  import opened Documents
  import opened LocalEmbedding

  const CloudModels: seq<string> := ["gpt-4.1-nano", "gpt-4o-mini"]
  const DefaultCloudModel: string := "gpt-4.1-nano"

  datatype ConnectionStatus = Unknown | Connected | Failed

  /** What the request for the model list yields: a thrown error with its
      message (network failure, or a non-OK reply whose error text or
      "HTTP <status>" is the message), or the names of the listed models
      (`data.models || []`). */
  datatype ModelsReply = RequestFailed(message: string) | Listed(names: seq<string>)

  const NoModels: string := "No models found. Make sure Ollama is running and has models installed."
  const CannotConnect: string := "Cannot connect to Ollama. Make sure Ollama is running on the specified endpoint."
  const ConnectionFailed: string := "Connection failed. Check if the local API server and Ollama are running."

  /** The error notice for a failed request, chosen by the message's text. */
  function ErrorNotice(message: string): (t: string)
    ensures Includes(message, "Cannot connect to Ollama") ==> t == CannotConnect
    ensures !Includes(message, "Cannot connect to Ollama") ==>
      (Includes(message, "ECONNREFUSED") || Includes(message, "fetch") ==> t == ConnectionFailed)
    ensures (!Includes(message, "Cannot connect to Ollama") && !Includes(message, "ECONNREFUSED")
             && !Includes(message, "fetch")) ==> t == "Failed to connect to Ollama: " + message
    ensures t != CannotConnect && t != ConnectionFailed ==> t == "Failed to connect to Ollama: " + message
  {
    if Includes(message, "Cannot connect to Ollama") then CannotConnect
    else if Includes(message, "ECONNREFUSED") || Includes(message, "fetch") then ConnectionFailed
    else "Failed to connect to Ollama: " + message
  }

  /** After `loadOllamaModels`: the settings, the connection status and the
      error notice shown, if any (the success notice with its count is not
      modelled). */
  datatype Loaded = Loaded(settings: AiSettings, status: ConnectionStatus, notice: Option<string>)

  /** `loadOllamaModels`: a non-empty list replaces the available models and
      keeps the selected model when listed, else selects the first; an empty
      list or a failure empties the available models and reports an error.
      The chosen mode and endpoint never change. */
  function LoadModels(s: AiSettings, reply: ModelsReply): (r: Loaded)
    ensures r.settings.useLocalModel == s.useLocalModel && r.settings.ollamaEndpoint == s.ollamaEndpoint
    ensures r.status == Connected <==> reply.Listed? && |reply.names| > 0
    ensures r.status == Connected ==>
      r.settings.availableModels == reply.names && r.settings.selectedModel in reply.names
      && (s.selectedModel in reply.names ==> r.settings.selectedModel == s.selectedModel)
      && (s.selectedModel !in reply.names ==> r.settings.selectedModel == reply.names[0])
    ensures r.status != Connected ==>
      r.status == Failed && r.settings == s.(availableModels := [])
    ensures r.notice.None? <==> r.status == Connected
    ensures reply.RequestFailed? ==> r.notice == Some(ErrorNotice(reply.message))
    ensures reply.Listed? && reply.names == [] ==> r.notice == Some(NoModels)
  {
    match reply
    case RequestFailed(message) => Loaded(s.(availableModels := []), Failed, Some(ErrorNotice(message)))
    case Listed(names) =>
      if |names| > 0 then
        var chosen := if s.selectedModel in names then s.selectedModel else names[0];
        Loaded(s.(availableModels := names, selectedModel := chosen), Connected, None)
      else Loaded(s.(availableModels := []), Failed, Some(NoModels))
  }

  /** Loading the same list again changes nothing more. */
  lemma LoadIdempotent(s: AiSettings, reply: ModelsReply)
    ensures var once := LoadModels(s, reply);
      LoadModels(once.settings, reply) == once
  {
  }

  /** The dialog loads the list when it is open with local models chosen. */
  predicate ShouldLoad(isOpen: bool, s: AiSettings) {
    isOpen && s.useLocalModel
  }

  /** `handleToggleModel`: local mode selects the first available model, or
      "llama3.2:latest" when none is known; cloud mode selects
      "gpt-4.1-nano". */
  function ToggleModel(s: AiSettings, useLocal: bool): (r: AiSettings)
    ensures r.useLocalModel == useLocal
    ensures r.availableModels == s.availableModels && r.ollamaEndpoint == s.ollamaEndpoint
    ensures useLocal && s.availableModels != [] ==> r.selectedModel == s.availableModels[0]
    ensures useLocal && s.availableModels == [] ==> r.selectedModel == DefaultChatModel
    ensures !useLocal ==> r.selectedModel in CloudModels && r.selectedModel == DefaultCloudModel
  {
    var m := if useLocal then (if |s.availableModels| > 0 then s.availableModels[0] else DefaultChatModel)
             else DefaultCloudModel;
    s.(useLocalModel := useLocal, selectedModel := m)
  }

  /** Clicking a model card selects it and changes nothing else. */
  function PickModel(s: AiSettings, model: string): (r: AiSettings)
    ensures r.selectedModel == model
    ensures r.availableModels == s.availableModels && r.useLocalModel == s.useLocalModel
            && r.ollamaEndpoint == s.ollamaEndpoint
  {
    s.(selectedModel := model)
  }

  /** Switching to local models and loading a non-empty list selects a listed
      model and shows the dialog as connected. */
  lemma LocalSwitchSelectsListed(s: AiSettings, names: seq<string>)
    requires names != []
    ensures var r := LoadModels(ToggleModel(s, true), Listed(names));
      r.status == Connected && r.settings.useLocalModel && r.settings.selectedModel in names
  {
  }

  /** Settings saved in cloud mode make the documents page embed with the
      default embedding model, whatever was selected before. */
  lemma CloudSettingsEmbedWithDefault(s: AiSettings)
    ensures EmbeddingModel(ToggleModel(s, false)) == DefaultEmbeddingModel
  {
  }

  /** Settings saved after a successful load in local mode make the documents
      page embed with the selected model exactly when its name mentions
      "embed". */
  lemma LoadedSettingsEmbed(s: AiSettings, names: seq<string>)
    requires s.useLocalModel && names != []
    ensures var r := LoadModels(s, Listed(names)).settings;
      (EmbeddingModel(r) == r.selectedModel <==> Includes(r.selectedModel, "embed") || r.selectedModel == DefaultEmbeddingModel)
  {
  }
}
