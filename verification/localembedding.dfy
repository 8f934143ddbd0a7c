/** The documents page of the web client: its choice of embedding model, the
    browser-driven embedding run (which embeds a fixed demo text built from the
    document's name, stores each vector through the public mutation and marks
    the document at the end), the per-document progress map, the shared
    embedding badge, and the chat send guard. */
module LocalEmbedding {
  import opened Wrappers
  import opened Text
  import opened Seqs
  import opened Schema
  import opened Documents

  const DefaultChatModel: string := "llama3.2:latest"
  const DefaultEndpoint: string := "http://localhost:11434"

  /** The AI settings the page reads from local storage. */
  datatype AiSettings = AiSettings(useLocalModel: bool, selectedModel: string,
                                   ollamaEndpoint: string, availableModels: seq<string>)

  /** The settings used when nothing is saved. */
  const DefaultSettings: AiSettings :=
    AiSettings(true, DefaultChatModel, DefaultEndpoint, [DefaultChatModel])

  // ------------------------------------------------------------ model choice

  /** The selected model is used for embedding only when local models are on
      and its name mentions "embed"; otherwise the default embedding model. */
  function EmbeddingModel(s: AiSettings): (m: string)
    ensures m == s.selectedModel || m == DefaultEmbeddingModel
    ensures s.useLocalModel && Includes(s.selectedModel, "embed") ==> m == s.selectedModel
    ensures !s.useLocalModel || !Includes(s.selectedModel, "embed") ==> m == DefaultEmbeddingModel
  {
    if s.useLocalModel && Includes(s.selectedModel, "embed") then s.selectedModel
    else DefaultEmbeddingModel
  }

  /** Whatever the settings, the model asked for embeddings has "embed" in its name. */
  lemma ChosenModelEmbeds(s: AiSettings)
    ensures Includes(EmbeddingModel(s), "embed")
  {
    assert DefaultEmbeddingModel[6..11] == "embed";
    assert OccursAt(DefaultEmbeddingModel, "embed", 6);
  }

  /** With the default settings the chat model is not reused: the default
      embedding model is asked instead. */
  lemma DefaultSettingsUseDefaultModel()
    ensures EmbeddingModel(DefaultSettings) == DefaultEmbeddingModel
  {
    assert "embed"[2] == 'b' && 'b' !in DefaultChatModel;
    IncludedCharsOccur(DefaultChatModel, "embed", 2);
  }

  // --------------------------------------------------------------- demo text

  function DemoFirst(name: string): string {
    "Demo content for " + name + ". This is chunk 1."
  }

  const Demo2: string := "This is chunk 2 of the document."
  const Demo3: string := "This is chunk 3 with more content."
  const Demo4: string := "This is chunk 4 " + "with additional information."
  const Demo5: string := "This is chunk 5 with final details."
  const DemoRest: seq<string> := [Demo2, Demo3, Demo4, Demo5]

  /** The text the page embeds for a document: five paragraphs, of which only
      the first mentions the document. */
  function DemoContent(name: string): string {
    Join([DemoFirst(name)] + DemoRest)
  }

  /** A one-line paragraph of at most 50 characters that starts and ends
      with a non-space is a paragraph the chunker drops. */
  lemma ShortLine(p: string)
    requires 0 < |p| <= MinChunkLength && !IsSpace(p[0]) && !IsSpace(p[|p| - 1])
    requires forall k :: 0 <= k < |p| ==> p[k] != '\n'
    ensures Paragraph(p) && !LongEnough(p)
  {
    NoNewlineNoSep(p);
    TrimNoop(p);
  }

  lemma DemoRestShort(k: nat)
    requires k < |DemoRest|
    ensures Paragraph(DemoRest[k]) && !LongEnough(DemoRest[k])
  {
    if k == 0 {
      ShortLine(Demo2);
    } else if k == 1 {
      ShortLine(Demo3);
    } else if k == 2 {
      ShortLine(Demo4);
    } else {
      ShortLine(Demo5);
    }
  }

  lemma DemoFirstParagraph(name: string)
    requires !Includes(name, Sep)
    ensures Paragraph(DemoFirst(name))
    ensures LongEnough(DemoFirst(name)) <==> |name| > 15
    ensures Trim(DemoFirst(name)) == DemoFirst(name)
  {
    DemoFirstNoSep(name);
    var p := DemoFirst(name);
    DemoFirstEnds(name);
    TrimNoop(p);
  }

  lemma DemoFirstNoSep(name: string)
    requires !Includes(name, Sep)
    ensures !Includes(DemoFirst(name), Sep)
  {
    var a := "Demo content for ";
    var b := ". This is chunk 1.";
    NoNewlineNoSep(a);
    NoNewlineNoSep(b);
    NoSepConcat(a, name);
    NoSepConcat(a + name, b);
  }

  lemma DemoFirstEnds(name: string)
    ensures var p := DemoFirst(name);
      |p| == 35 + |name| && p[0] == 'D' && p[|p| - 1] == '.'
  {
  }

  /** For a name without a blank line the demo text gives at most one chunk:
      the first paragraph, kept exactly when the name is longer than 15
      characters; every other paragraph is 50 characters or shorter. */
  lemma DemoChunks(name: string)
    requires !Includes(name, Sep)
    ensures |ChunkText(DemoContent(name))| == if |name| > 15 then 1 else 0
    ensures |name| > 15 ==> ChunkText(DemoContent(name))[0] == Chunk(DemoFirst(name), 0)
  {
    var first := DemoFirst(name);
    var ps := [first] + DemoRest;
    DemoFirstParagraph(name);
    forall k | 0 <= k < |ps| ensures Paragraph(ps[k]) {
      if k > 0 {
        DemoRestShort(k - 1);
      }
    }
    SplitJoin(ps);
    forall k | 0 <= k < |DemoRest| ensures !LongEnough(DemoRest[k]) {
      DemoRestShort(k);
    }
    FilterCount(DemoRest, LongEnough);
    assert Filter(DemoRest, LongEnough) == [];
    assert ps[1..] == DemoRest;
    assert KeptPieces(DemoContent(name)) == (if LongEnough(first) then [first] else []) + Filter(DemoRest, LongEnough);
    if |name| > 15 {
      ChunkContent(DemoContent(name), 0);
    }
  }

  // ---------------------------------------------------------- embedding run

  /** The progress entry kept per document during a run. */
  datatype Progress = Progress(current: nat, total: nat, model: string)

  /** Stores the usable vectors one chunk at a time through `storeEmbedding`;
      a chunk whose reply is unusable, or whose store throws (which here
      happens only for a signed-out caller), is skipped.
      Returns the new state and the number of chunks stored. */
  function StoreChunks(db: Store, userId: Option<string>, documentId: nat, model: string,
                       chunks: seq<Chunk>, embed: EmbedRequest -> EmbedResponse, now: int): (r: (Store, nat))
    ensures r.0.documents == db.documents && r.0.nextId == db.nextId
    ensures r.1 <= |chunks|
    ensures |r.0.embeddings| == |db.embeddings| + r.1
    ensures userId.None? ==> r.1 == 0 && r.0 == db
    ensures userId.Some? ==> r.0.embeddings == db.embeddings + RunRecords(documentId, model, chunks, embed, now)
    decreases |chunks|
  {
    if chunks == [] then (db, 0)
    else
      var step := StoreOne(db, userId, documentId, model, chunks[0], embed, now);
      var rest := StoreChunks(step.0, userId, documentId, model, chunks[1..], embed, now);
      StoreOneRecords(db, userId, documentId, model, chunks, embed, now);
      (rest.0, step.1 + rest.1)
  }

  /** One chunk of the loop: its vector is stored when the reply is usable
      and the store does not throw. */
  function StoreOne(db: Store, userId: Option<string>, documentId: nat, model: string,
                    c: Chunk, embed: EmbedRequest -> EmbedResponse, now: int): (Store, nat)
  {
    var resp := embed(EmbedRequest(model, c));
    if Usable(resp) then
      match StoreEmbedding(db, userId, documentId, c.chunkIndex, c.content, resp.embedding.value, now)
      case Ok(d) => (d, 1)
      case Err(_) => (db, 0)
    else (db, 0)
  }

  lemma StoreOneRecords(db: Store, userId: Option<string>, documentId: nat, model: string,
                        chunks: seq<Chunk>, embed: EmbedRequest -> EmbedResponse, now: int)
    requires chunks != []
    ensures var step := StoreOne(db, userId, documentId, model, chunks[0], embed, now);
      step.0.documents == db.documents && step.0.nextId == db.nextId && step.1 <= 1
      && |step.0.embeddings| == |db.embeddings| + step.1
      && (userId.None? ==> step == (db, 0))
      && (userId.Some? ==> step.0.embeddings + RunRecords(documentId, model, chunks[1..], embed, now)
                           == db.embeddings + RunRecords(documentId, model, chunks, embed, now))
  {
    var c := chunks[0];
    var resp := embed(EmbedRequest(model, c));
    var rest := RunRecords(documentId, model, chunks[1..], embed, now);
    if userId.Some? && Usable(resp) {
      var e := EmbeddingRecord(documentId, c.chunkIndex, c.content, resp.embedding.value, now);
      assert RunRecords(documentId, model, chunks, embed, now) == [e] + rest;
      assert (db.embeddings + [e]) + rest == db.embeddings + ([e] + rest);
    }
  }

  /** A signed-in loop stores something exactly when some chunk's reply is
      usable. */
  lemma StoredSomeIff(db: Store, userId: Option<string>, documentId: nat, model: string,
                      chunks: seq<Chunk>, embed: EmbedRequest -> EmbedResponse, now: int)
    ensures userId.Some? ==>
      (StoreChunks(db, userId, documentId, model, chunks, embed, now).1 > 0
       <==> exists k :: 0 <= k < |chunks| && Usable(embed(EmbedRequest(model, chunks[k]))))
  {
  }

  /** The outcome of one browser-driven run: the state, the progress map and
      the boolean the page returns. */
  datatype LocalOutcome = LocalOutcome(db: Store, progress: map<nat, Progress>, succeeded: bool)

  predicate Listed(listed: seq<DocumentSummary>, documentId: nat) {
    exists k :: 0 <= k < |listed| && listed[k].id == documentId
  }

  /** `generateEmbeddingsLocally`. A document missing from the page's list
      aborts the run. Otherwise the chunks of the demo text are embedded and
      stored one by one, then the document is marked with `success` equal to
      "some chunk was stored"; a throwing mark makes the run report false but
      keeps what was stored. The progress entry of the document is removed on
      every path. */
  function GenerateEmbeddingsLocally(db: Store, userId: Option<string>, listed: seq<DocumentSummary>,
                                     documentId: nat, documentName: string, settings: AiSettings,
                                     embed: EmbedRequest -> EmbedResponse,
                                     progress: map<nat, Progress>, now: int): (r: LocalOutcome)
    ensures documentId !in r.progress
    ensures forall k :: k != documentId ==> (k in r.progress <==> k in progress)
    ensures forall k :: k in progress && k != documentId ==> r.progress[k] == progress[k]
    ensures !Listed(listed, documentId) ==> r.db == db && !r.succeeded
    ensures r.db.nextId == db.nextId && |r.db.documents| == |db.documents|
    ensures r.succeeded ==> (userId.Some? && Listed(listed, documentId)
      && |r.db.embeddings| > |db.embeddings|
      && exists i :: (0 <= i < |r.db.documents| && r.db.documents[i].id == documentId
         && r.db.documents[i].embeddingStatus == Some(Completed)))
    ensures userId.Some? && Listed(listed, documentId) && FindDocument(db.documents, documentId).Some? ==>
      (r.succeeded <==> exists k :: 0 <= k < |ChunkText(DemoContent(documentName))|
                          && Usable(embed(EmbedRequest(EmbeddingModel(settings), ChunkText(DemoContent(documentName))[k]))))
    ensures userId.Some? && Listed(listed, documentId) ==>
      r.db.embeddings == db.embeddings + RunRecords(documentId, EmbeddingModel(settings),
                                                    ChunkText(DemoContent(documentName)), embed, now)
    ensures userId.Some? && Listed(listed, documentId) && FindDocument(db.documents, documentId).Some? ==>
      var i := FindDocument(db.documents, documentId).value;
      r.db.documents[i].embeddingStatus == Some(if r.succeeded then Completed else Failed)
      && r.db.documents[i].hasEmbeddings == Some(r.succeeded)
  {
    var cleaned := progress - {documentId};
    if !Listed(listed, documentId) then LocalOutcome(db, cleaned, false)
    else
      var model := EmbeddingModel(settings);
      var chunks := ChunkText(DemoContent(documentName));
      var (stored, n) := StoreChunks(db, userId, documentId, model, chunks, embed, now);
      StoredSomeIff(db, userId, documentId, model, chunks, embed, now);
      match MarkAsEmbedded(stored, userId, documentId, Some(n > 0), now)
      case Err(_) => LocalOutcome(stored, cleaned, false)
      case Ok(marked) =>
        var i := FindDocument(stored.documents, documentId).value;
        assert marked.documents[i].id == documentId;
        LocalOutcome(marked, cleaned, n > 0)
  }

  /** For a name without a blank line a run stores at most one vector. */
  lemma LocalRunStoresAtMostOne(db: Store, userId: Option<string>, listed: seq<DocumentSummary>,
                                documentId: nat, documentName: string, settings: AiSettings,
                                embed: EmbedRequest -> EmbedResponse, progress: map<nat, Progress>, now: int)
    requires !Includes(documentName, Sep)
    ensures |GenerateEmbeddingsLocally(db, userId, listed, documentId, documentName, settings, embed, progress, now).db.embeddings|
            <= |db.embeddings| + 1
  {
    DemoChunks(documentName);
  }

  /** A signed-out run stores nothing and reports failure. */
  lemma SignedOutRunFails(db: Store, listed: seq<DocumentSummary>, documentId: nat, documentName: string,
                          settings: AiSettings, embed: EmbedRequest -> EmbedResponse,
                          progress: map<nat, Progress>, now: int)
    ensures var r := GenerateEmbeddingsLocally(db, None, listed, documentId, documentName, settings, embed, progress, now);
      r.db == db && !r.succeeded
  {
  }

  // ------------------------------------------------------------------ badge

  /** The four embedding badges. */
  datatype Badge = ProcessingBadge | FailedBadge | ReadyForRag | NoEmbeddings

  /** The badge shown for a listed document: `processing` wins, then
      `failed`, then "has embeddings and completed", else "No Embeddings". */
  function EmbeddingBadge(d: DocumentSummary): (b: Badge)
    ensures b == ProcessingBadge <==> d.embeddingStatus == Some(Processing)
    ensures b == FailedBadge <==> d.embeddingStatus == Some(Failed)
    ensures b == ReadyForRag <==> d.embeddingStatus == Some(Completed) && d.hasEmbeddings
    ensures b == NoEmbeddings <==> d.embeddingStatus == Some(Pending) || d.embeddingStatus.None?
                                   || (d.embeddingStatus == Some(Completed) && !d.hasEmbeddings)
  {
    match d.embeddingStatus
    case Some(Processing) => ProcessingBadge
    case Some(Failed) => FailedBadge
    case Some(Completed) => if d.hasEmbeddings then ReadyForRag else NoEmbeddings
    case _ => NoEmbeddings
  }

  /** After a server run on a document with text, its listed badge reads
      "Ready for RAG" exactly when some chunk's reply was usable, and "Failed"
      otherwise. */
  lemma BadgeAfterServerRun(db: Store, documentId: nat, model: Option<string>,
                            embed: EmbedRequest -> EmbedResponse, now: int, i: nat)
    requires FindDocument(db.documents, documentId) == Some(i)
    requires db.documents[i].content.Some? && db.documents[i].content.value != ""
    ensures var r := GenerateEmbeddingsAction(db, documentId, model, embed, now);
      var chunks := ChunkText(db.documents[i].content.value);
      var m := OrDefault(model, DefaultEmbeddingModel);
      var b := EmbeddingBadge(Summarise(r.documents[i], r.embeddings));
      (b == ReadyForRag <==> exists k :: 0 <= k < |chunks| && Usable(embed(EmbedRequest(m, chunks[k]))))
      && (b == FailedBadge <==> forall k :: 0 <= k < |chunks| ==> !Usable(embed(EmbedRequest(m, chunks[k]))))
  {
    var r := GenerateEmbeddingsAction(db, documentId, model, embed, now);
    RunCompletedIff(db, documentId, model, embed, now, i);
    var d := r.documents[i];
    if |r.embeddings| > |db.embeddings| {
      var n := |db.embeddings|;
      assert r.embeddings[n].documentId == documentId == d.id;
      assert r.embeddings[n] in EmbeddingsOf(r.embeddings, d.id);
      assert EmbeddingBadge(Summarise(d, r.embeddings)) == ReadyForRag;
    } else {
      assert d.embeddingStatus == Some(Failed);
    }
  }

  // ------------------------------------------------------------------- chat

  datatype Role = User | Assistant

  datatype ChatMessage = ChatMessage(role: Role, content: string)

  /** The chat panel: its transcript, the input box and the loading flag. */
  datatype ChatState = ChatState(messages: seq<ChatMessage>, input: string, loading: bool)

  /** The proxy's answer to a chat request. */
  datatype ChatReply = ChatFailed | ChatAnswered(content: Option<string>)

  const ChatFallback: string := "Sorry, I couldn't generate a response. Please try again."

  /** Sending needs non-blank input and no request in flight. */
  predicate CanSend(s: ChatState) {
    Trim(s.input) != "" && !s.loading
  }

  /** `handleSendMessage`: appends the trimmed question, clears the input, and
      appends the answer (or the fallback text) unless the request failed. */
  function SendMessage(s: ChatState, reply: ChatReply): (r: ChatState)
    ensures !CanSend(s) ==> r == s
    ensures CanSend(s) ==> (r.input == "" && !r.loading
      && |r.messages| == |s.messages| + (if reply.ChatAnswered? then 2 else 1)
      && r.messages[..|s.messages|] == s.messages
      && r.messages[|s.messages|] == ChatMessage(User, Trim(s.input)))
    ensures CanSend(s) && reply.ChatAnswered? ==>
      r.messages[|s.messages| + 1] == ChatMessage(Assistant, OrDefault(reply.content, ChatFallback))
  {
    if !CanSend(s) then s
    else
      var question := ChatMessage(User, Trim(s.input));
      var added := match reply
        case ChatFailed => [question]
        case ChatAnswered(content) => [question, ChatMessage(Assistant, OrDefault(content, ChatFallback))];
      PrefixOfAppend(s.messages, added);
      ChatState(s.messages + added, "", false)
  }

  /** Sending again right after a send does nothing: the input is empty. */
  lemma SecondSendIsNoop(s: ChatState, reply1: ChatReply, reply2: ChatReply)
    ensures var r := SendMessage(s, reply1);
      SendMessage(r, reply2) == r
  {
    var r := SendMessage(s, reply1);
    if CanSend(s) {
      assert AllSpace(r.input);
    }
  }

  /** Every question in the transcript is non-blank once sent. */
  lemma SentQuestionNotBlank(s: ChatState, reply: ChatReply)
    requires CanSend(s)
    ensures var m := SendMessage(s, reply).messages[|s.messages|].content;
      m != [] && !IsSpace(m[0]) && !IsSpace(m[|m| - 1])
  {
  }
}
