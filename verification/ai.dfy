/** The pure logic inside the AI actions: classifying the locally installed
    models by name, validating an embedding reply, formatting the sources of
    an answer, cutting the JSON object out of model output, and the
    single-slot store of readiness summaries. The model server is an oracle. */
module Ai {
  import opened Wrappers
  import opened Text
  import opened Seqs
  import opened Schema
  import opened Documents
  import opened Controls

  const DefaultChatModel: string := "llama3.2:latest"

  // -------------------------------------------------------- model detection

  /** One entry of the server's model list, with every optional field as sent. */
  datatype RawModel = RawModel(name: string, size: Option<int>, digest: Option<string>,
                               family: Option<string>, families: Option<seq<string>>,
                               parameterSize: Option<string>, quantizationLevel: Option<string>)

  /** The normalised entry returned to the client. */
  datatype ModelInfo = ModelInfo(name: string, size: int, digest: string, family: string,
                                 families: Option<seq<string>>, parameterSize: string,
                                 quantizationLevel: string)

  datatype Capabilities = Capabilities(textGeneration: bool, embeddings: bool, chatCompletion: bool)

  datatype Detection = Detection(available: bool, models: seq<ModelInfo>, capabilities: Capabilities)

  /** The answer to the model-list request: unreachable (including a timeout),
      a non-OK status, or a body whose `models` field may be missing. */
  datatype TagsReply = TagsUnreachable | TagsNotOk(status: int) | TagsOk(models: Option<seq<RawModel>>)

  const Unavailable: Detection := Detection(false, [], Capabilities(false, false, false))

  /** A name that marks an embedding model. */
  predicate IsEmbeddingName(n: string) {
    Includes(n, "nomic-embed") || Includes(n, "embed") || Includes(n, "sentence")
  }

  /** A name that marks a text-generation model. */
  predicate IsTextName(n: string) {
    Includes(n, "llama") || Includes(n, "gemma") || Includes(n, "mistral")
    || Includes(n, "qwen") || Includes(n, "codellama")
  }

  /** `size || 0`, `digest || ""` and `"unknown"` for each missing or empty
      detail. */
  function Normalise(m: RawModel): (r: ModelInfo)
    ensures r.name == m.name && r.families == m.families
    ensures r.size == (if m.size.Some? then m.size.value else 0)
    ensures r.digest == (if m.digest.Some? then m.digest.value else "")
    ensures m.family.None? || m.family == Some("") ==> r.family == "unknown"
    ensures m.family.Some? && m.family.value != "" ==> r.family == m.family.value
    ensures m.parameterSize.None? || m.parameterSize == Some("") ==> r.parameterSize == "unknown"
    ensures m.parameterSize.Some? && m.parameterSize.value != "" ==> r.parameterSize == m.parameterSize.value
    ensures m.quantizationLevel.None? || m.quantizationLevel == Some("") ==> r.quantizationLevel == "unknown"
    ensures m.quantizationLevel.Some? && m.quantizationLevel.value != "" ==> r.quantizationLevel == m.quantizationLevel.value
  {
    ModelInfo(m.name, m.size.GetOr(0), OrDefault(m.digest, ""), OrDefault(m.family, "unknown"),
              m.families, OrDefault(m.parameterSize, "unknown"), OrDefault(m.quantizationLevel, "unknown"))
  }

  /** Reading a normalised entry back as raw input. */
  function AsRaw(i: ModelInfo): RawModel {
    RawModel(i.name, Some(i.size), Some(i.digest), Some(i.family), i.families,
             Some(i.parameterSize), Some(i.quantizationLevel))
  }

  /** Normalising is idempotent: a normalised entry sent again is unchanged. */
  lemma NormaliseIdempotent(m: RawModel)
    ensures Normalise(AsRaw(Normalise(m))) == Normalise(m)
  {
  }

  /** `detectOllamaModels`. */
  function DetectOllamaModels(reply: TagsReply): (r: Detection)
    ensures !reply.TagsOk? ==> r == Unavailable
    ensures reply.TagsOk? ==> var raw := reply.models.GetOr([]);
      |r.models| == |raw| && (r.available <==> |raw| > 0)
      && forall k :: 0 <= k < |raw| ==> r.models[k] == Normalise(raw[k])
    ensures r.capabilities.embeddings <==> exists k :: 0 <= k < |r.models| && IsEmbeddingName(r.models[k].name)
    ensures r.capabilities.textGeneration <==> exists k :: 0 <= k < |r.models| && IsTextName(r.models[k].name)
    ensures r.capabilities.chatCompletion == r.capabilities.textGeneration
  {
    match reply
    case TagsOk(models) =>
      var raw := models.GetOr([]);
      var infos := seq(|raw|, k requires 0 <= k < |raw| => Normalise(raw[k]));
      var embeds := exists k :: 0 <= k < |raw| && IsEmbeddingName(raw[k].name);
      var texts := exists k :: 0 <= k < |raw| && IsTextName(raw[k].name);
      Detection(|raw| > 0, infos, Capabilities(texts, embeds, texts))
    case _ => Unavailable
  }

  /** Any capability implies at least one model: an empty list is never
      reported as capable. */
  lemma CapabilityNeedsModels(reply: TagsReply)
    ensures var r := DetectOllamaModels(reply);
      (r.capabilities.embeddings || r.capabilities.textGeneration) ==> r.available && |r.models| > 0
  {
  }

  /** The "nomic-embed" and "codellama" tests are subsumed by "embed" and
      "llama". */
  lemma NameTestsSimplify(n: string)
    ensures IsEmbeddingName(n) <==> Includes(n, "embed") || Includes(n, "sentence")
    ensures IsTextName(n) <==> Includes(n, "llama") || Includes(n, "gemma") || Includes(n, "mistral") || Includes(n, "qwen")
  {
    if Includes(n, "nomic-embed") {
      var i :| OccursAt(n, "nomic-embed", i);
      assert "nomic-embed"[6..11] == "embed";
      OccursTrans(n, "nomic-embed", i, "embed", 6);
    }
    if Includes(n, "codellama") {
      var i :| OccursAt(n, "codellama", i);
      assert "codellama"[4..9] == "llama";
      OccursTrans(n, "codellama", i, "llama", 4);
    }
  }

  // ---------------------------------------------------------- embeddings

  /** The `embedding` field of a reply body. */
  datatype JsonEmbedding = Missing | NotAnArray | ArrayValue(values: seq<real>)

  /** The reply to an embeddings request: the request (or reading its body)
      threw an error with this message, the server answered with a status
      outside 200-299, or a body whose `embedding` field was read. */
  datatype EmbeddingsReply = EmbThrew(message: string) | EmbNotOk(status: nat) | EmbOk(embedding: JsonEmbedding)

  const EmbeddingsFailure: string := "Failed to generate embeddings: "

  /** `generateEmbeddings`: asks `service(model, text)` (model defaulting to the
      embedding model); every error is rethrown with "Failed to generate
      embeddings: " before its message; a body without an array is rejected,
      and any array, even an empty one, is returned. */
  function GenerateEmbeddings(text: string, model: Option<string>,
                              service: (string, string) -> EmbeddingsReply): (r: Result<seq<real>>)
    ensures var reply := service(OrDefault(model, DefaultEmbeddingModel), text);
      (r.Ok? <==> reply.EmbOk? && reply.embedding.ArrayValue?)
      && (r.Ok? ==> r.value == reply.embedding.values)
      && (reply.EmbThrew? ==> r == Err(EmbeddingsFailure + reply.message))
      && (reply.EmbNotOk? ==> r == Err(EmbeddingsFailure + "Ollama embeddings API error: " + Decimal(reply.status)))
      && (reply.EmbOk? && !reply.embedding.ArrayValue? ==>
            r == Err(EmbeddingsFailure + "Invalid embedding response from Ollama"))
  {
    match service(OrDefault(model, DefaultEmbeddingModel), text)
    case EmbOk(ArrayValue(values)) => Ok(values)
    case EmbOk(_) => Err(EmbeddingsFailure + "Invalid embedding response from Ollama")
    case EmbNotOk(status) => Err(EmbeddingsFailure + "Ollama embeddings API error: " + Decimal(status))
    case EmbThrew(message) => Err(EmbeddingsFailure + message)
  }

  /** A status code as the error text writes it. */
  lemma StatusInMessage(status: nat)
    ensures var m := EmbeddingsFailure + "Ollama embeddings API error: " + Decimal(status);
      DecimalValue(m[|m| - |Decimal(status)|..]) == status
  {
    var m := EmbeddingsFailure + "Ollama embeddings API error: " + Decimal(status);
    assert m[|m| - |Decimal(status)|..] == Decimal(status);
    DecimalRoundTrip(status);
  }

  /** An empty vector passes this validation, although the embedding run
      would not store it. */
  lemma EmptyVectorAccepted(text: string, model: Option<string>, service: (string, string) -> EmbeddingsReply)
    requires service(OrDefault(model, DefaultEmbeddingModel), text) == EmbOk(ArrayValue([]))
    ensures GenerateEmbeddings(text, model, service) == Ok([])
    ensures !Usable(Replied(Some(GenerateEmbeddings(text, model, service).value)))
  {
  }

  // ------------------------------------------------------ answer and sources

  const SnippetLength: nat := 200
  const SearchLimit: int := 3
  const UnknownDocument: string := "Unknown Document"
  const NoAnswer: string := "I'm unable to provide an answer at this time."
  const ServiceDown: string := "I'm unable to provide an answer at this time. Please ensure Ollama is running and the model is available."

  /** One cited source. */
  datatype Source = Source(content: string, documentName: string)

  /** The first 200 characters of a hit, always followed by "...", and its
      document name or "Unknown Document". */
  function FormatSource(h: SearchHit): (s: Source)
    ensures |s.content| == (if |h.content| < SnippetLength then |h.content| else SnippetLength) + 3
    ensures s.content[..|s.content| - 3] == h.content[..|s.content| - 3]
    ensures s.content[|s.content| - 3..] == "..."
    ensures h.documentName != "" ==> s.documentName == h.documentName
    ensures h.documentName == "" ==> s.documentName == UnknownDocument
  {
    var c := Take(h.content, SnippetLength);
    assert (c + "...")[..|c|] == c;
    Source(c + "...", OrDefault(Some(h.documentName), UnknownDocument))
  }

  /** The model server's answer to a generation request. */
  datatype GenReply = GenFailed | GenOk(response: Option<string>)

  datatype Answer = Answer(answer: string, sources: seq<Source>)

  function HasControlId(controlId: string): Control -> bool {
    (c: Control) => c.controlId == controlId
  }

  /** The control whose details go into the prompt: with a non-empty
      `controlId`, the first "default_org" control carrying it, if any, as
      `controls.find(..)` picks it. */
  function ControlContext(cdb: ControlsDb, controlId: Option<string>): (r: Option<Control>)
    ensures controlId.None? || controlId == Some("") ==> r.None?
    ensures r.Some? ==> controlId.Some? && r.value.controlId == controlId.value
                        && r.value in ListControlsInternal(cdb)
    ensures controlId.Some? && controlId.value != "" ==>
      var cs := ListControlsInternal(cdb);
      (r.None? <==> forall k :: 0 <= k < |cs| ==> cs[k].controlId != controlId.value)
  {
    if controlId.None? || controlId.value == "" then None
    else
      var found := Filter(ListControlsInternal(cdb), HasControlId(controlId.value));
      if found == [] then None else Some(found[0])
  }

  /** The control found is the first listed control carrying the id: the
      returned position holds it and no earlier control carries the id. */
  lemma ControlContextIsFirst(cdb: ControlsDb, controlId: string) returns (i: nat)
    requires ControlContext(cdb, Some(controlId)).Some?
    ensures var cs := ListControlsInternal(cdb);
      i < |cs| && cs[i] == ControlContext(cdb, Some(controlId)).value
      && forall j :: 0 <= j < i ==> cs[j].controlId != controlId
  {
    i := FilterFirst(ListControlsInternal(cdb), HasControlId(controlId));
  }

  /** `askControlQuestion`: searches the organisation's chunks with limit 3,
      looks up the asked-about control among the "default_org" controls, asks
      `generate(model, control, chunks, question)` (the prompt is built from
      the control's details, the chunks and the question), and cites one
      source per chunk; a failed generation cites nothing. */
  function AskControlQuestion(db: Store, cdb: ControlsDb, question: string, controlId: Option<string>,
                              org: Option<string>, model: Option<string>,
                              generate: (string, Option<Control>, seq<SearchHit>, string) -> GenReply): (r: Answer)
    ensures var chunks := SearchDocuments(db, question, Some(OrDefault(org, DefaultOrg)), Some(SearchLimit));
      var reply := generate(OrDefault(model, DefaultChatModel), ControlContext(cdb, controlId), chunks, question);
      (reply.GenFailed? ==> r == Answer(ServiceDown, []))
      && (reply.GenOk? ==>
            r.answer == OrDefault(reply.response, NoAnswer) && |r.sources| == |chunks|
            && forall k :: 0 <= k < |chunks| ==> r.sources[k] == FormatSource(chunks[k]))
  {
    var chunks := SearchDocuments(db, question, Some(OrDefault(org, DefaultOrg)), Some(SearchLimit));
    match generate(OrDefault(model, DefaultChatModel), ControlContext(cdb, controlId), chunks, question)
    case GenFailed => Answer(ServiceDown, [])
    case GenOk(response) =>
      Answer(OrDefault(response, NoAnswer), seq(|chunks|, k requires 0 <= k < |chunks| => FormatSource(chunks[k])))
  }

  /** An answer cites at most three sources, each at most 203 characters long
      and ending in "...". */
  lemma SourcesBounded(db: Store, cdb: ControlsDb, question: string, controlId: Option<string>,
                       org: Option<string>, model: Option<string>,
                       generate: (string, Option<Control>, seq<SearchHit>, string) -> GenReply)
    ensures var r := AskControlQuestion(db, cdb, question, controlId, org, model, generate);
      |r.sources| <= 3
      && forall k :: 0 <= k < |r.sources| ==>
           |r.sources[k].content| <= SnippetLength + 3 && r.sources[k].content[|r.sources[k].content| - 3..] == "..."
  {
    SearchCount(db, question, Some(OrDefault(org, DefaultOrg)), Some(SearchLimit));
  }

  // ----------------------------------------------------------- JSON span

  /** Some '{' comes before some '}'. */
  predicate HasBraces(t: string) {
    exists i, j :: 0 <= i < j < |t| && t[i] == '{' && t[j] == '}'
  }

  /** The text from the first '{' through the last '}', when the last '}'
      comes after the first '{'; otherwise the text itself. */
  function JsonSpan(t: string): (r: string)
    ensures !HasBraces(t) ==> r == t
    ensures HasBraces(t) ==> 2 <= |r| && r[0] == '{' && r[|r| - 1] == '}'
    ensures HasBraces(t) ==> exists p :: (OccursAt(t, r, p)
      && (forall k :: 0 <= k < p ==> t[k] != '{')
      && (forall k :: p + |r| <= k < |t| ==> t[k] != '}'))
  {
    match IndexOfChar(t, '{')
    case None => t
    case Some(i) =>
      match LastIndexOfChar(t, '}')
      case None => t
      case Some(j) =>
        if j + 1 > i then
          assert OccursAt(t, t[i..j + 1], i);
          t[i..j + 1]
        else t
  }

  /** Extracting twice is the same as extracting once. */
  lemma JsonSpanIdempotent(t: string)
    ensures JsonSpan(JsonSpan(t)) == JsonSpan(t)
  {
    var r := JsonSpan(t);
    if HasBraces(t) {
      assert IndexOfChar(r, '{') == Some(0);
      assert LastIndexOfChar(r, '}') == Some(|r| - 1);
      assert r[0..|r|] == r;
    }
  }

  /** Prose around a JSON object is dropped: the object comes back when the
      prefix holds no '{' and the suffix no '}'. */
  lemma JsonSpanStripsProse(pre: string, obj: string, post: string)
    requires 2 <= |obj| && obj[0] == '{' && obj[|obj| - 1] == '}'
    requires forall k :: 0 <= k < |pre| ==> pre[k] != '{'
    requires forall k :: 0 <= k < |post| ==> post[k] != '}'
    ensures JsonSpan(pre + obj + post) == obj
  {
    var t := pre + obj + post;
    var i := |pre|;
    var j := |pre| + |obj| - 1;
    assert t[i] == '{' && t[j] == '}';
    assert forall k :: 0 <= k < i ==> t[k] == pre[k];
    assert forall k :: j < k < |t| ==> t[k] == post[k - |pre| - |obj|];
    assert IndexOfChar(t, '{') == Some(i);
    assert LastIndexOfChar(t, '}') == Some(j);
    assert t[i..j + 1] == obj;
  }

  // -------------------------------------------------------- summary store

  const DefaultUser: string := "default_user"

  predicate OfDefaultUser(s: AiSummary) {
    s.userId == DefaultUser
  }

  /** The position of the first summary of the default user (the `by_user`
      index in creation order). */
  function FirstSummary(table: seq<AiSummary>): (r: Option<nat>)
    ensures r.Some? ==> (r.value < |table| && OfDefaultUser(table[r.value])
      && forall k :: 0 <= k < r.value ==> !OfDefaultUser(table[k]))
    ensures r.None? ==> forall k :: 0 <= k < |table| ==> !OfDefaultUser(table[k])
  {
    if table == [] then None
    else if OfDefaultUser(table[0]) then Some(0)
    else match FirstSummary(table[1..])
      case None => None
      case Some(i) => Some(i + 1)
  }

  function SummaryCount(table: seq<AiSummary>): nat {
    Count(table, OfDefaultUser)
  }

  /** `storeReadinessSummary`: deletes the default user's first summary, if
      any, then inserts the new one; every other row stays, in order. */
  function StoreReadinessSummary(table: seq<AiSummary>, summary: string, recommendations: Option<seq<string>>,
                                 priorityActions: Option<string>, analysisDate: int): (r: seq<AiSummary>)
    ensures |r| >= 1 && r[|r| - 1] == AiSummary(DefaultUser, summary, recommendations, priorityActions, analysisDate)
    ensures FirstSummary(table).None? ==> r[..|r| - 1] == table
    ensures FirstSummary(table).Some? ==>
      var i := FirstSummary(table).value;
      r[..|r| - 1] == table[..i] + table[i + 1..]
    ensures SummaryCount(r) == (if SummaryCount(table) > 0 then SummaryCount(table) else 1)
  {
    var stored := AiSummary(DefaultUser, summary, recommendations, priorityActions, analysisDate);
    match FirstSummary(table)
    case None =>
      CountSnoc(table, stored, OfDefaultUser);
      table + [stored]
    case Some(i) =>
      var rest := table[..i] + table[i + 1..];
      RemoveOneCount(table, i);
      CountSnoc(rest, stored, OfDefaultUser);
      rest + [stored]
  }

  predicate OfOtherUser(s: AiSummary) {
    !OfDefaultUser(s)
  }

  /** Storing a summary leaves the other users' summaries as they were. */
  lemma StoreKeepsOtherUsers(table: seq<AiSummary>, summary: string, recommendations: Option<seq<string>>,
                             priorityActions: Option<string>, analysisDate: int)
    ensures Filter(StoreReadinessSummary(table, summary, recommendations, priorityActions, analysisDate), OfOtherUser)
            == Filter(table, OfOtherUser)
  {
    var r := StoreReadinessSummary(table, summary, recommendations, priorityActions, analysisDate);
    var front := r[..|r| - 1];
    assert r == front + [r[|r| - 1]];
    FilterSnoc(front, r[|r| - 1], OfOtherUser);
    match FirstSummary(table)
    case None =>
    case Some(i) => FilterSkip(table, i, OfOtherUser);
  }

  lemma RemoveOneCount(table: seq<AiSummary>, i: nat)
    requires i < |table| && OfDefaultUser(table[i])
    ensures SummaryCount(table[..i] + table[i + 1..]) == SummaryCount(table) - 1
  {
    assert table == table[..i] + [table[i]] + table[i + 1..];
    CountAppend(table[..i] + [table[i]], table[i + 1..], OfDefaultUser);
    CountAppend(table[..i], [table[i]], OfDefaultUser);
    CountAppend(table[..i], table[i + 1..], OfDefaultUser);
    assert Count([table[i]], OfDefaultUser) == 1 + Count([], OfDefaultUser);
  }

  /** `getReadinessSummary`: the default user's first summary, for a signed-in
      caller. */
  function GetReadinessSummary(table: seq<AiSummary>, userId: Option<string>): (r: Option<AiSummary>)
    ensures userId.None? ==> r.None?
    ensures r.Some? ==> r.value in table && OfDefaultUser(r.value)
    ensures r.Some? ==>
      exists i :: (0 <= i < |table| && table[i] == r.value
                   && forall k :: 0 <= k < i ==> !OfDefaultUser(table[k]))
    ensures userId.Some? && r.None? ==> SummaryCount(table) == 0
  {
    if userId.None? then None
    else match FirstSummary(table)
      case None => None
      case Some(i) => Some(table[i])
  }

  /** Single slot: from at most one stored summary, storing leaves exactly one,
      and reading it back returns what was stored. */
  lemma SingleSlot(table: seq<AiSummary>, summary: string, recommendations: Option<seq<string>>,
                   priorityActions: Option<string>, analysisDate: int, userId: string)
    requires SummaryCount(table) <= 1
    ensures var r := StoreReadinessSummary(table, summary, recommendations, priorityActions, analysisDate);
      SummaryCount(r) == 1
      && GetReadinessSummary(r, Some(userId)) == Some(AiSummary(DefaultUser, summary, recommendations, priorityActions, analysisDate))
  {
    var r := StoreReadinessSummary(table, summary, recommendations, priorityActions, analysisDate);
    var i := FirstSummary(r).value;
    if i != |r| - 1 {
      OnlyOne(r, i, |r| - 1);
    }
  }

  lemma OnlyOne(t: seq<AiSummary>, i: nat, j: nat)
    requires i < j < |t| && OfDefaultUser(t[i]) && OfDefaultUser(t[j])
    ensures SummaryCount(t) >= 2
  {
    assert t == t[..j] + t[j..];
    CountAppend(t[..j], t[j..], OfDefaultUser);
    assert t[..j][i] == t[i];
    assert t[j..][0] == t[j];
  }
  /** `generateReadinessSummary`: for a signed-in caller, schedules the
      summary action with the requested model, "llama3.2:latest" when none
      (or an empty name) is given; the result is the model scheduled. */
  function GenerateReadinessSummary(userId: Option<string>, model: Option<string>): (r: Result<string>)
    ensures r.Err? <==> userId.None?
    ensures r.Err? ==> r.error == "Not authenticated"
    ensures r.Ok? ==> r.value != "" && (r.value == DefaultChatModel || Some(r.value) == model)
    ensures r.Ok? && model.Some? && model.value != "" ==> r.value == model.value
  {
    if userId.None? then Err("Not authenticated") else Ok(OrDefault(model, DefaultChatModel))
  }

  // --------------------------------------------------------- summary action

  /** The fields read from the model's JSON answer, as parsed. */
  datatype ParsedSummary = ParsedSummary(summary: Option<string>, recommendations: Option<seq<string>>,
                                         priorityActions: Option<string>)

  const DefaultSummary: string := "AI analysis completed successfully."
  const DefaultPriority: string := "Continue working on compliance implementation."

  /** What is stored when the answer cannot be parsed. */
  const UnparsedSummary: ParsedSummary := ParsedSummary(
    Some("Based on current compliance data analysis, your organization shows progress in CMMC Level 1 implementation with ongoing opportunities for improvement."),
    Some(["Focus on completing not-started controls in critical domains",
          "Implement documentation and evidence collection processes",
          "Establish regular compliance monitoring and review cycles",
          "Prioritize access control and incident response capabilities"]),
    Some("Immediate focus should be on completing foundational security controls and establishing robust documentation practices to support compliance verification."))

  /** What is stored when the model server fails. */
  const ServiceDownSummary: string := "Unable to generate AI analysis at this time. Please ensure Ollama is running and try again."
  const ServiceDownRecommendations: seq<string> := ["Check Ollama service status", "Verify model availability", "Review system connectivity"]
  const ServiceDownPriority: string := "Resolve AI service issues to enable automated compliance analysis."

  /** What `JSON.parse` makes of a text: an error; `null`; a value with a
      truthy field of the wrong type (a number, boolean, object or array where
      text is expected, or anything but an array of strings as
      `recommendations`), which `||` passes on and the store's argument
      validator refuses; or a value whose three fields are read with their
      types right (a falsy field, and every field of a number, string or
      array, reads as absent). */
  datatype JsonValue = ParseError | JsonNull | JsonIllTyped | JsonObject(fields: ParsedSummary)

  /** The parsed answer, or `None` when the answer ends in the outer catch: the
      JSON span of the reply text through `parse`; a missing text or a parse
      error gives the fixed fallback; `null` makes the field reads throw, and a
      wrongly typed field makes the store's validator throw. */
  function ParseReply(response: Option<string>, parse: string -> JsonValue): (r: Option<ParsedSummary>)
    ensures r.None? <==> response.Some? && parse(JsonSpan(response.value)) in {JsonNull, JsonIllTyped}
    ensures response.Some? && parse(JsonSpan(response.value)).JsonObject? ==>
      r == Some(parse(JsonSpan(response.value)).fields)
  {
    match response
    case None => Some(UnparsedSummary)
    case Some(text) =>
      match parse(JsonSpan(text))
      case ParseError => Some(UnparsedSummary)
      case JsonNull => None
      case JsonIllTyped => None
      case JsonObject(fields) => Some(fields)
  }

  /** `generateSummaryAction`: one reply from the model server, parsed with
      defaults for the missing or empty fields, then stored in the single
      slot; a failed request, reading fields of a `null` answer, or a wrongly
      typed field the store refuses, stores the service-down summary instead. */
  function GenerateSummaryAction(table: seq<AiSummary>, reply: GenReply,
                                 parse: string -> JsonValue, now: int): (r: seq<AiSummary>)
    ensures |r| >= 1 && r[|r| - 1].userId == DefaultUser && r[|r| - 1].analysisDate == now
    ensures SummaryCount(r) == (if SummaryCount(table) > 0 then SummaryCount(table) else 1)
    ensures (reply.GenFailed? || ParseReply(reply.response, parse).None?) ==>
      r[|r| - 1].summary == ServiceDownSummary
      && r[|r| - 1].recommendations == Some(ServiceDownRecommendations)
      && r[|r| - 1].priorityActions == Some(ServiceDownPriority)
    ensures reply.GenOk? && ParseReply(reply.response, parse).Some? ==>
      var p := ParseReply(reply.response, parse).value;
      r[|r| - 1].summary == OrDefault(p.summary, DefaultSummary)
      && r[|r| - 1].recommendations == Some(p.recommendations.GetOr([]))
      && r[|r| - 1].priorityActions == Some(OrDefault(p.priorityActions, DefaultPriority))
  {
    if reply.GenFailed? || ParseReply(reply.response, parse).None? then
      StoreReadinessSummary(table, ServiceDownSummary, Some(ServiceDownRecommendations), Some(ServiceDownPriority), now)
    else
      var p := ParseReply(reply.response, parse).value;
      StoreReadinessSummary(table, OrDefault(p.summary, DefaultSummary), Some(p.recommendations.GetOr([])),
                            Some(OrDefault(p.priorityActions, DefaultPriority)), now)
  }

  /** Prose wrapped around an unparsable answer, or no answer text at all,
      stores the fixed analysis rather than the service-down one. */
  lemma UnparsableStoresFallback(table: seq<AiSummary>, response: Option<string>,
                                 parse: string -> JsonValue, now: int)
    requires response.None? || parse(JsonSpan(response.value)) == ParseError
    ensures var r := GenerateSummaryAction(table, GenOk(response), parse, now);
      r[|r| - 1].summary == UnparsedSummary.summary.value
      && r[|r| - 1].recommendations == UnparsedSummary.recommendations
  {
  }

  /** An answer with a truthy field of the wrong type (say `"summary": 5` or
      `"priorityActions": ["a"]`) is refused by the store's validator, and the
      outer catch stores the service-down analysis. */
  lemma IllTypedStoresServiceDown(table: seq<AiSummary>, text: string, parse: string -> JsonValue, now: int)
    requires parse(JsonSpan(text)) == JsonIllTyped
    ensures var r := GenerateSummaryAction(table, GenOk(Some(text)), parse, now);
      r[|r| - 1].summary == ServiceDownSummary
      && r[|r| - 1].recommendations == Some(ServiceDownRecommendations)
      && r[|r| - 1].priorityActions == Some(ServiceDownPriority)
  {
  }

  /** Whatever the model answers, the stored summary text and priority text are
      non-empty and the recommendations are present. */
  lemma StoredSummaryNeverEmpty(table: seq<AiSummary>, reply: GenReply,
                                parse: string -> JsonValue, now: int)
    ensures var s := GenerateSummaryAction(table, reply, parse, now)[|GenerateSummaryAction(table, reply, parse, now)| - 1];
      s.summary != "" && s.recommendations.Some? && s.priorityActions.Some? && s.priorityActions.value != ""
  {
  }
}
