/** The document-embedding pipeline of the Convex backend: upload, listing,
    paragraph chunking, the sequential embedding run and its status marking,
    the insert-only embedding store, cascade delete and the placeholder
    text search. The database is a pair of tables in insertion order; the
    embedding service is an oracle that answers each chunk's request. */
module Documents {
  import opened Wrappers
  import opened Text
  import opened Seqs
  import opened Schema

  const DefaultEmbeddingModel: string := "mxbai-embed-large:latest"
  /** A fragment is kept only when its trimmed length is strictly greater. */
  const MinChunkLength: nat := 50
  const DefaultSearchLimit: int := 5
  /** The constant score every search hit carries. */
  const PlaceholderSimilarity: real := 0.8

  /** The `documents` and `documentEmbeddings` tables, plus the next fresh id. */
  datatype Store = Store(documents: seq<Document>, embeddings: seq<EmbeddingRecord>, nextId: nat)

  /** Document ids are distinct and below the id counter. */
  predicate Valid(db: Store) {
    (forall k :: 0 <= k < |db.documents| ==> db.documents[k].id < db.nextId) &&
    (forall j, k :: 0 <= j < k < |db.documents| ==> db.documents[j].id != db.documents[k].id)
  }

  /** The position of the document with id `id` (`ctx.db.get`). */
  function FindDocument(docs: seq<Document>, id: nat): (r: Option<nat>)
    ensures r.Some? ==> r.value < |docs| && docs[r.value].id == id
    ensures r.None? ==> forall k :: 0 <= k < |docs| ==> docs[k].id != id
  {
    if docs == [] then None
    else if docs[0].id == id then Some(0)
    else match FindDocument(docs[1..], id)
      case None => None
      case Some(i) => Some(i + 1)
  }

  /** The documents of one organisation, in table order. */
  function OrgDocuments(docs: seq<Document>, org: string): seq<Document> {
    Filter(docs, (d: Document) => d.organizationId == Some(org))
  }

  /** The stored embeddings of one document, in insertion order (the
      `by_document` index). */
  function EmbeddingsOf(es: seq<EmbeddingRecord>, id: nat): seq<EmbeddingRecord> {
    Filter(es, (e: EmbeddingRecord) => e.documentId == id)
  }

  // -------------------------------------------------------------- uploading

  /** `uploadDocument`: inserts a fresh document for the caller's organisation. */
  function UploadDocument(db: Store, userId: Option<string>, name: string, content: string,
                          docType: DocType, org: Option<string>, now: int): (r: Result<Store>)
    ensures userId.None? <==> r.Err?
    ensures r.Ok? ==> r.value.embeddings == db.embeddings
    ensures r.Ok? ==> |r.value.documents| == |db.documents| + 1 && r.value.documents[..|db.documents|] == db.documents
    ensures r.Ok? ==> var d := r.value.documents[|db.documents|];
      d.id == db.nextId && d.name == name && d.content == Some(content) && d.docType == Some(docType)
      && d.organizationId == Some(if org.Some? && org.value != "" then org.value else DefaultOrg)
      && d.uploadedBy == userId && d.uploadedAt == now
      && d.embeddingStatus.None? && d.hasEmbeddings.None? && d.embeddedAt.None?
    ensures r.Ok? && Valid(db) ==> Valid(r.value)
  {
    if userId.None? then Err("Not authenticated")
    else
      var d := Document(db.nextId, name, Some(content), Some(OrDefault(org, DefaultOrg)), Some(docType),
                        now, userId, None, None, None);
      Ok(Store(db.documents + [d], db.embeddings, db.nextId + 1))
  }

  // ---------------------------------------------------------------- listing

  /** One row of `listDocuments`. */
  datatype DocumentSummary = DocumentSummary(
    id: nat, name: string, docType: Option<DocType>, uploadedAt: int,
    hasEmbeddings: bool, embeddedAt: Option<int>, embeddingStatus: Option<EmbeddingStatus>)

  function Summarise(d: Document, es: seq<EmbeddingRecord>): DocumentSummary {
    DocumentSummary(d.id, d.name, d.docType, d.uploadedAt, EmbeddingsOf(es, d.id) != [],
                    d.embeddedAt, d.embeddingStatus)
  }

  /** `listDocuments`: the organisation's documents; `hasEmbeddings` is derived
      from the embedding table, not from the document's own flag. */
  function ListDocuments(db: Store, userId: Option<string>, org: Option<string>): (r: seq<DocumentSummary>)
    ensures userId.None? ==> r == []
    ensures userId.Some? ==> |r| == |OrgDocuments(db.documents, OrDefault(org, DefaultOrg))|
    ensures userId.Some? ==> forall k :: 0 <= k < |r| ==>
      var d := OrgDocuments(db.documents, OrDefault(org, DefaultOrg))[k];
      r[k].id == d.id && r[k].name == d.name && r[k].docType == d.docType && r[k].uploadedAt == d.uploadedAt
      && r[k].embeddedAt == d.embeddedAt && r[k].embeddingStatus == d.embeddingStatus
      && (r[k].hasEmbeddings <==> exists e :: e in db.embeddings && e.documentId == d.id)
  {
    if userId.None? then []
    else
      var docs := OrgDocuments(db.documents, OrDefault(org, DefaultOrg));
      HasEmbeddingsIff(db.embeddings);
      seq(|docs|, k requires 0 <= k < |docs| => Summarise(docs[k], db.embeddings))
  }

  lemma HasEmbeddingsIff(es: seq<EmbeddingRecord>)
    ensures forall id :: EmbeddingsOf(es, id) != [] <==> exists e :: e in es && e.documentId == id
  {
    forall id ensures EmbeddingsOf(es, id) != [] <==> exists e :: e in es && e.documentId == id {
      if exists e :: e in es && e.documentId == id {
        var e :| e in es && e.documentId == id;
        var k :| 0 <= k < |es| && es[k] == e;
        assert es[k] in EmbeddingsOf(es, id);
      }
      if EmbeddingsOf(es, id) != [] {
        var e := EmbeddingsOf(es, id)[0];
        assert e in es && e.documentId == id;
      }
    }
  }

  // --------------------------------------------------------------- chunking

  /** One paragraph chunk; `chunkIndex` is its position among the kept fragments. */
  datatype Chunk = Chunk(content: string, chunkIndex: nat)

  predicate LongEnough(piece: string) {
    |Trim(piece)| > MinChunkLength
  }

  /** The fragments of `content` that survive the length filter. */
  function KeptPieces(content: string): seq<string> {
    Filter(Split(content), LongEnough)
  }

  /** The chunker: split on blank lines, keep fragments whose trimmed length
      exceeds 50, store them trimmed and number them from 0. */
  function ChunkText(content: string): (r: seq<Chunk>)
    ensures |r| == |KeptPieces(content)|
    ensures forall k :: 0 <= k < |r| ==> r[k].chunkIndex == k
    ensures forall k :: 0 <= k < |r| ==> |r[k].content| > MinChunkLength
    ensures forall k :: 0 <= k < |r| ==>
      !IsSpace(r[k].content[0]) && !IsSpace(r[k].content[|r[k].content| - 1])
  {
    var kept := KeptPieces(content);
    assert forall k :: 0 <= k < |kept| ==> LongEnough(kept[k]);
    seq(|kept|, k requires 0 <= k < |kept| => Chunk(Trim(kept[k]), k))
  }

  /** Every chunk is a piece of the document text and spans no blank line. */
  lemma ChunkOccursInText(content: string, k: nat)
    requires k < |ChunkText(content)|
    ensures exists p :: OccursAt(content, ChunkText(content)[k].content, p)
    ensures !Includes(ChunkText(content)[k].content, Sep)
  {
    var pieces := Split(content);
    var piece := KeptPieces(content)[k];
    assert piece in pieces;
    var j :| 0 <= j < |pieces| && pieces[j] == piece;
    SplitPieceOccurs(content, j);
    var p :| OccursAt(content, piece, p);
    TrimmedPiece(piece);
    var t := |piece| - |TrimStart(piece)|;
    OccursTrans(content, piece, p, Trim(piece), t);
    ChunkContent(content, k);
  }

  lemma ChunkContent(content: string, k: nat)
    requires k < |ChunkText(content)|
    ensures ChunkText(content)[k].content == Trim(KeptPieces(content)[k])
  {
  }

  /** Trimming a piece keeps a piece of it, and cannot create a blank line. */
  lemma TrimmedPiece(piece: string)
    requires !Includes(piece, Sep)
    ensures OccursAt(piece, Trim(piece), |piece| - |TrimStart(piece)|)
    ensures !Includes(Trim(piece), Sep)
  {
    IncludedInPiece(piece, Trim(piece), |piece| - |TrimStart(piece)|, Sep);
  }

  /** A piece of an all-whitespace text is all whitespace. */
  lemma AllSpaceOccurs(s: string, piece: string, p: int)
    requires AllSpace(s) && OccursAt(s, piece, p)
    ensures AllSpace(piece)
  {
    forall t | 0 <= t < |piece| ensures IsSpace(piece[t]) {
      assert piece[t] == s[p..p + |piece|][t] == s[p + t];
    }
  }

  /** Whitespace-only (or empty) text yields no chunks. */
  lemma WhitespaceHasNoChunks(content: string)
    requires AllSpace(content)
    ensures ChunkText(content) == []
  {
    var pieces := Split(content);
    forall j | 0 <= j < |pieces| ensures !LongEnough(pieces[j]) {
      SplitPieceOccurs(content, j);
      var p :| OccursAt(content, pieces[j], p);
      AllSpaceOccurs(content, pieces[j], p);
    }
    FilterCount(pieces, LongEnough);
  }

  /** A paragraph the chunker stores unchanged: no blank line inside, already
      trimmed, and longer than the threshold. */
  predicate GoodParagraph(p: string) {
    !Includes(p, Sep) && |p| > MinChunkLength && !IsSpace(p[0]) && !IsSpace(p[|p| - 1])
  }

  /** The chunker keeps a good paragraph and does not change it. */
  lemma GoodParagraphKept(p: string)
    requires GoodParagraph(p)
    ensures LongEnough(p) && Trim(p) == p
  {
    TrimNoop(p);
  }

  /** Round trip: chunking a text made of good paragraphs separated by blank
      lines returns exactly those paragraphs, numbered from 0. */
  lemma ChunkJoinRoundTrip(ps: seq<string>)
    requires |ps| > 0
    requires forall k :: 0 <= k < |ps| ==> GoodParagraph(ps[k])
    ensures |ChunkText(Join(ps))| == |ps|
    ensures forall k :: 0 <= k < |ps| ==> ChunkText(Join(ps))[k] == Chunk(ps[k], k)
  {
    KeptOfJoin(ps);
    var r := ChunkText(Join(ps));
    forall k | 0 <= k < |ps| ensures r[k] == Chunk(ps[k], k) {
      ChunkContent(Join(ps), k);
      GoodParagraphKept(ps[k]);
    }
  }

  /** No paragraph of a joined text of good paragraphs is dropped. */
  lemma KeptOfJoin(ps: seq<string>)
    requires |ps| > 0
    requires forall k :: 0 <= k < |ps| ==> GoodParagraph(ps[k])
    ensures KeptPieces(Join(ps)) == ps
  {
    forall k | 0 <= k < |ps| ensures LongEnough(ps[k]) {
      GoodParagraphKept(ps[k]);
    }
    FilterAll(ps, LongEnough);
    forall k | 0 <= k < |ps| ensures Paragraph(ps[k]) {
      assert GoodParagraph(ps[k]);
    }
    SplitJoin(ps);
  }

  /** A single paragraph gives one chunk exactly when its trimmed length is
      above 50: a 50-character paragraph is dropped. */
  lemma SingleParagraphChunk(p: string)
    requires !Includes(p, Sep)
    ensures |ChunkText(p)| == (if |Trim(p)| > MinChunkLength then 1 else 0)
  {
    SplitNoSep(p);
    assert Split(p) == [p];
    assert KeptPieces(p) == (if LongEnough(p) then [p] else []) + Filter([], LongEnough);
  }

  // ---------------------------------------------------------- embedding run

  /** One embedding request: the model, and the chunk whose text is the prompt. */
  datatype EmbedRequest = EmbedRequest(model: string, chunk: Chunk)

  /** The embedding service's answer: a non-OK status, a thrown error, or a JSON
      body whose `embedding` field may be missing. */
  datatype EmbedResponse = NotOk(status: int) | Threw | Replied(embedding: Option<seq<real>>)

  /** A reply is stored only when it carries a non-empty vector. */
  predicate Usable(r: EmbedResponse) {
    r.Replied? && r.embedding.Some? && |r.embedding.value| > 0
  }

  /** The chunks whose reply, under `model`, is usable. */
  function UsableUnder(model: string, embed: EmbedRequest -> EmbedResponse): Chunk -> bool {
    (c: Chunk) => Usable(embed(EmbedRequest(model, c)))
  }

  /** The record stored for a chunk, carrying its reply's vector. */
  function RecordOf(documentId: nat, model: string, c: Chunk, embed: EmbedRequest -> EmbedResponse,
                    now: int): EmbeddingRecord
  {
    var resp := embed(EmbedRequest(model, c));
    EmbeddingRecord(documentId, c.chunkIndex, c.content, if resp.Replied? then resp.embedding.GetOr([]) else [], now)
  }

  /** One record per chunk of `cs`, in order. */
  function RecordsOf(documentId: nat, model: string, cs: seq<Chunk>, embed: EmbedRequest -> EmbedResponse,
                     now: int): (rs: seq<EmbeddingRecord>)
  {
    seq(|cs|, k requires 0 <= k < |cs| => RecordOf(documentId, model, cs[k], embed, now))
  }

  /** Records of a chunk followed by more chunks. */
  lemma RecordsOfCons(documentId: nat, model: string, c: Chunk, cs: seq<Chunk>,
                      embed: EmbedRequest -> EmbedResponse, now: int)
    ensures RecordsOf(documentId, model, [c] + cs, embed, now)
            == [RecordOf(documentId, model, c, embed, now)] + RecordsOf(documentId, model, cs, embed, now)
  {
    var l := RecordsOf(documentId, model, [c] + cs, embed, now);
    var r := [RecordOf(documentId, model, c, embed, now)] + RecordsOf(documentId, model, cs, embed, now);
    assert forall k :: 1 <= k < |l| ==> ([c] + cs)[k] == cs[k - 1];
    assert |l| == |r|;
    forall k | 0 <= k < |l| ensures l[k] == r[k] {
    }
  }

  /** The records one run inserts, chunk by chunk in order, skipping every chunk
      whose reply is unusable (no retry): one record per usable chunk, carrying
      that chunk's own vector. */
  function RunRecords(documentId: nat, model: string, chunks: seq<Chunk>,
                      embed: EmbedRequest -> EmbedResponse, now: int): (rs: seq<EmbeddingRecord>)
    ensures |rs| <= |chunks|
    ensures forall k :: 0 <= k < |rs| ==> rs[k].documentId == documentId && |rs[k].embedding| > 0
    ensures forall k :: 0 <= k < |rs| ==>
      (exists c :: c in chunks && rs[k].content == c.content && rs[k].chunkIndex == c.chunkIndex
         && Usable(embed(EmbedRequest(model, c))))
    ensures |rs| > 0 <==> exists k :: 0 <= k < |chunks| && Usable(embed(EmbedRequest(model, chunks[k])))
    decreases |chunks|
  {
    if chunks == [] then []
    else
      var c := chunks[0];
      var rest := RunRecords(documentId, model, chunks[1..], embed, now);
      assert forall k :: 0 <= k < |chunks| - 1 ==> chunks[1..][k] == chunks[k + 1];
      var resp := embed(EmbedRequest(model, c));
      if Usable(resp) then
        [EmbeddingRecord(documentId, c.chunkIndex, c.content, resp.embedding.value, now)] + rest
      else rest
  }

  /** A run stores exactly the usable chunks, in chunk order, each with its own
      reply's vector. */
  lemma {:induction false} RunRecordsAreUsableChunks(documentId: nat, model: string, chunks: seq<Chunk>,
                                                     embed: EmbedRequest -> EmbedResponse, now: int)
    ensures RunRecords(documentId, model, chunks, embed, now)
            == RecordsOf(documentId, model, Filter(chunks, UsableUnder(model, embed)), embed, now)
    decreases |chunks|
  {
    var p := UsableUnder(model, embed);
    if chunks == [] {
      assert RecordsOf(documentId, model, [], embed, now) == [];
    } else {
      var c := chunks[0];
      RunRecordsAreUsableChunks(documentId, model, chunks[1..], embed, now);
      FilterHead(chunks, p);
      if p(c) {
        RecordsOfCons(documentId, model, c, Filter(chunks[1..], p), embed, now);
      } else {
        assert Filter(chunks, p) == Filter(chunks[1..], p);
      }
    }
  }

  /** The status patch of `markDocumentAsEmbedded`, applied at position `i`. */
  function MarkAt(db: Store, i: nat, success: bool, now: int): Store
    requires i < |db.documents|
  {
    var d := db.documents[i];
    db.(documents := db.documents[i := d.(
      hasEmbeddings := Some(success),
      embeddedAt := if success then Some(now) else None,
      embeddingStatus := Some(if success then Completed else Failed))])
  }

  /** The status patch touches one document, keeps every id and leaves the
      embeddings alone. */
  lemma MarkAtFacts(db: Store, i: nat, success: bool, now: int)
    requires i < |db.documents|
    ensures var r := MarkAt(db, i, success, now);
      |r.documents| == |db.documents| && r.embeddings == db.embeddings && r.nextId == db.nextId
      && (forall j :: 0 <= j < |db.documents| && j != i ==> r.documents[j] == db.documents[j])
      && r.documents[i].id == db.documents[i].id
      && r.documents[i].hasEmbeddings == Some(success)
      && r.documents[i].embeddingStatus == Some(if success then Completed else Failed)
      && (r.documents[i].embeddedAt == if success then Some(now) else None)
      && (Valid(db) ==> Valid(r))
  {
    var r := MarkAt(db, i, success, now);
    assert forall j :: 0 <= j < |r.documents| ==> r.documents[j].id == db.documents[j].id;
  }

  /** Embeds `chunks` of the document at position `i`, appends the run's
      records (see `RunRecordsAreUsableChunks`) and marks the document by
      whether any was stored. */
  function RunAndMark(db: Store, i: nat, model: string, chunks: seq<Chunk>,
                      embed: EmbedRequest -> EmbedResponse, now: int): (r: Store)
    requires i < |db.documents|
    ensures |r.documents| == |db.documents|
    ensures forall j :: 0 <= j < |db.documents| && j != i ==> r.documents[j] == db.documents[j]
    ensures |db.embeddings| <= |r.embeddings| <= |db.embeddings| + |chunks|
    ensures r.embeddings == db.embeddings + RunRecords(db.documents[i].id, model, chunks, embed, now)
    ensures r.embeddings[..|db.embeddings|] == db.embeddings
    ensures forall k :: |db.embeddings| <= k < |r.embeddings| ==> r.embeddings[k].documentId == db.documents[i].id
    ensures r.documents[i].embeddingStatus == Some(if |r.embeddings| > |db.embeddings| then Completed else Failed)
    ensures r.documents[i].hasEmbeddings == Some(|r.embeddings| > |db.embeddings|)
    ensures r.documents[i].id == db.documents[i].id
    ensures Valid(db) ==> Valid(r)
  {
    var rs := RunRecords(db.documents[i].id, model, chunks, embed, now);
    var stored := db.(embeddings := db.embeddings + rs);
    assert stored.embeddings[..|db.embeddings|] == db.embeddings;
    assert forall k :: |db.embeddings| <= k < |stored.embeddings| ==> stored.embeddings[k] == rs[k - |db.embeddings|];
    MarkAtFacts(stored, i, |rs| > 0, now);
    MarkAt(stored, i, |rs| > 0, now)
  }

  /** `generateEmbeddingsAction`: returns early when the document is missing or
      has no content; otherwise embeds every chunk in sequence, stores the usable
      vectors, and marks the document completed when at least one was stored,
      failed otherwise. */
  function GenerateEmbeddingsAction(db: Store, documentId: nat, model: Option<string>,
                                    embed: EmbedRequest -> EmbedResponse, now: int): (r: Store)
    ensures FindDocument(db.documents, documentId).None? ==> r == db
    ensures FindDocument(db.documents, documentId).Some? ==>
      var i := FindDocument(db.documents, documentId).value;
      var d := db.documents[i];
      if d.content.None? || d.content.value == "" then r == db
      else
        |r.documents| == |db.documents|
        && (forall j :: 0 <= j < |db.documents| && j != i ==> r.documents[j] == db.documents[j])
        && |db.embeddings| <= |r.embeddings| <= |db.embeddings| + |ChunkText(d.content.value)|
        && r.embeddings[..|db.embeddings|] == db.embeddings
        && (forall k :: |db.embeddings| <= k < |r.embeddings| ==> r.embeddings[k].documentId == documentId)
        && r.documents[i].embeddingStatus == Some(if |r.embeddings| > |db.embeddings| then Completed else Failed)
        && r.documents[i].hasEmbeddings == Some(|r.embeddings| > |db.embeddings|)
        && r.documents[i].id == documentId
    ensures FindDocument(db.documents, documentId).Some? ==>
      var d := db.documents[FindDocument(db.documents, documentId).value];
      d.content.Some? && d.content.value != "" ==>
        r.embeddings == db.embeddings + RunRecords(documentId, OrDefault(model, DefaultEmbeddingModel),
                                                   ChunkText(d.content.value), embed, now)
    ensures Valid(db) ==> Valid(r)
  {
    match FindDocument(db.documents, documentId)
    case None => db
    case Some(i) =>
      var d := db.documents[i];
      if d.content.None? || d.content.value == "" then db
      else RunAndMark(db, i, OrDefault(model, DefaultEmbeddingModel), ChunkText(d.content.value), embed, now)
  }

  /** A run on a document with text appends exactly the records of the chunks
      whose reply is usable, in chunk order, each with its own vector. */
  lemma ActionStoresUsableChunks(db: Store, documentId: nat, model: Option<string>,
                                 embed: EmbedRequest -> EmbedResponse, now: int, i: nat)
    requires FindDocument(db.documents, documentId) == Some(i)
    requires db.documents[i].content.Some? && db.documents[i].content.value != ""
    ensures var m := OrDefault(model, DefaultEmbeddingModel);
      GenerateEmbeddingsAction(db, documentId, model, embed, now).embeddings
      == db.embeddings + RecordsOf(documentId, m, Filter(ChunkText(db.documents[i].content.value), UsableUnder(m, embed)),
                                   embed, now)
  {
    RunRecordsAreUsableChunks(documentId, OrDefault(model, DefaultEmbeddingModel),
                              ChunkText(db.documents[i].content.value), embed, now);
  }

  /** A run on a document with text ends `completed` exactly when some chunk's
      reply carried a non-empty vector, and `failed` otherwise. */
  lemma RunCompletedIff(db: Store, documentId: nat, model: Option<string>,
                        embed: EmbedRequest -> EmbedResponse, now: int, i: nat)
    requires FindDocument(db.documents, documentId) == Some(i)
    requires db.documents[i].content.Some? && db.documents[i].content.value != ""
    ensures var r := GenerateEmbeddingsAction(db, documentId, model, embed, now);
      var chunks := ChunkText(db.documents[i].content.value);
      var m := OrDefault(model, DefaultEmbeddingModel);
      (r.documents[i].embeddingStatus == Some(Completed) <==>
         exists k :: 0 <= k < |chunks| && Usable(embed(EmbedRequest(m, chunks[k]))))
      && (r.documents[i].embeddingStatus == Some(Failed) <==>
         forall k :: 0 <= k < |chunks| ==> !Usable(embed(EmbedRequest(m, chunks[k]))))
  {
  }

  /** Whitespace-only text produces no chunks, stores nothing and ends `failed`
      without a single request being answered. */
  lemma WhitespaceRunFails(db: Store, documentId: nat, model: Option<string>,
                           embed: EmbedRequest -> EmbedResponse, now: int, i: nat)
    requires FindDocument(db.documents, documentId) == Some(i)
    requires db.documents[i].content.Some? && db.documents[i].content.value != ""
    requires AllSpace(db.documents[i].content.value)
    ensures var r := GenerateEmbeddingsAction(db, documentId, model, embed, now);
      r.documents[i].embeddingStatus == Some(Failed) && r.embeddings == db.embeddings
      && r.documents[i].embeddedAt.None?
  {
    WhitespaceHasNoChunks(db.documents[i].content.value);
  }

  /** When every chunk's reply is usable, one record is stored per chunk and the
      run ends `completed` (provided there is at least one chunk). */
  lemma AllRepliesUsable(db: Store, documentId: nat, model: Option<string>,
                         embed: EmbedRequest -> EmbedResponse, now: int, i: nat)
    requires FindDocument(db.documents, documentId) == Some(i)
    requires db.documents[i].content.Some? && db.documents[i].content.value != ""
    requires var chunks := ChunkText(db.documents[i].content.value);
      forall k :: 0 <= k < |chunks| ==> Usable(embed(EmbedRequest(OrDefault(model, DefaultEmbeddingModel), chunks[k])))
    ensures var r := GenerateEmbeddingsAction(db, documentId, model, embed, now);
      var chunks := ChunkText(db.documents[i].content.value);
      |r.embeddings| == |db.embeddings| + |chunks|
      && (|chunks| > 0 ==> r.documents[i].embeddingStatus == Some(Completed))
  {
    AllUsableStoresAll(documentId, OrDefault(model, DefaultEmbeddingModel),
                       ChunkText(db.documents[i].content.value), embed, now);
  }

  lemma {:induction false} AllUsableStoresAll(documentId: nat, model: string, chunks: seq<Chunk>,
                                             embed: EmbedRequest -> EmbedResponse, now: int)
    requires forall k :: 0 <= k < |chunks| ==> Usable(embed(EmbedRequest(model, chunks[k])))
    ensures |RunRecords(documentId, model, chunks, embed, now)| == |chunks|
    decreases |chunks|
  {
    if chunks != [] {
      assert forall k :: 0 <= k < |chunks| - 1 ==> chunks[1..][k] == chunks[k + 1];
      AllUsableStoresAll(documentId, model, chunks[1..], embed, now);
    }
  }

  // --------------------------------------------------------- status marking

  /** `markDocumentAsEmbedded`: `success` defaults to true; the flag, the
      timestamp (only on success) and the status follow it. Patching a missing
      document throws. */
  function MarkDocumentAsEmbedded(db: Store, documentId: nat, success: Option<bool>, now: int): (r: Result<Store>)
    ensures r.Err? <==> FindDocument(db.documents, documentId).None?
    ensures r.Ok? ==>
      var i := FindDocument(db.documents, documentId).value;
      var ok := success.None? || success.value;
      |r.value.documents| == |db.documents| && r.value.embeddings == db.embeddings
      && var d := r.value.documents[i];
      (forall j :: 0 <= j < |db.documents| && j != i ==> r.value.documents[j] == db.documents[j])
      && d.hasEmbeddings == Some(ok)
      && (d.embeddedAt == if ok then Some(now) else None)
      && d.embeddingStatus == Some(if ok then Completed else Failed)
      && d == db.documents[i].(hasEmbeddings := d.hasEmbeddings, embeddedAt := d.embeddedAt,
                               embeddingStatus := d.embeddingStatus)
  {
    match FindDocument(db.documents, documentId)
    case None => Err("Update on nonexistent document")
    case Some(i) => Ok(MarkAt(db, i, success.GetOr(true), now))
  }

  /** `markAsEmbedded`: the public variant, which first requires a signed-in caller. */
  function MarkAsEmbedded(db: Store, userId: Option<string>, documentId: nat, success: Option<bool>, now: int): (r: Result<Store>)
    ensures userId.None? ==> r.Err?
    ensures userId.Some? ==> r == MarkDocumentAsEmbedded(db, documentId, success, now)
  {
    if userId.None? then Err("Not authenticated")
    else MarkDocumentAsEmbedded(db, documentId, success, now)
  }

  // ---------------------------------------------------------------- storing

  /** `storeDocumentEmbedding`: a plain insert, with no check for an existing
      record with the same document and chunk index. */
  function StoreDocumentEmbedding(db: Store, documentId: nat, chunkIndex: int, content: string,
                                  embedding: seq<real>, now: int): (r: Store)
    ensures r.documents == db.documents
    ensures |r.embeddings| == |db.embeddings| + 1 && r.embeddings[..|db.embeddings|] == db.embeddings
    ensures r.embeddings[|db.embeddings|] == EmbeddingRecord(documentId, chunkIndex, content, embedding, now)
  {
    db.(embeddings := db.embeddings + [EmbeddingRecord(documentId, chunkIndex, content, embedding, now)])
  }

  /** `storeEmbedding`: the public variant, which first requires a signed-in caller. */
  function StoreEmbedding(db: Store, userId: Option<string>, documentId: nat, chunkIndex: int,
                          content: string, embedding: seq<real>, now: int): (r: Result<Store>)
    ensures userId.None? ==> r.Err?
    ensures userId.Some? ==> r == Ok(StoreDocumentEmbedding(db, documentId, chunkIndex, content, embedding, now))
  {
    if userId.None? then Err("Not authenticated")
    else Ok(StoreDocumentEmbedding(db, documentId, chunkIndex, content, embedding, now))
  }

  /** How many stored records carry the key (document, chunk index). */
  function KeyCount(es: seq<EmbeddingRecord>, documentId: nat, chunkIndex: int): nat {
    Count(es, (e: EmbeddingRecord) => e.documentId == documentId && e.chunkIndex == chunkIndex)
  }

  /** Storing the same key twice leaves two more records with that key. */
  lemma StoreTwiceDuplicates(db: Store, documentId: nat, chunkIndex: int, content: string,
                             embedding: seq<real>, now1: int, now2: int)
    ensures var r := StoreDocumentEmbedding(StoreDocumentEmbedding(db, documentId, chunkIndex, content, embedding, now1),
                                            documentId, chunkIndex, content, embedding, now2);
      KeyCount(r.embeddings, documentId, chunkIndex) == KeyCount(db.embeddings, documentId, chunkIndex) + 2
  {
    var p := (e: EmbeddingRecord) => e.documentId == documentId && e.chunkIndex == chunkIndex;
    var e1 := EmbeddingRecord(documentId, chunkIndex, content, embedding, now1);
    var e2 := EmbeddingRecord(documentId, chunkIndex, content, embedding, now2);
    CountSnoc(db.embeddings, e1, p);
    CountSnoc(db.embeddings + [e1], e2, p);
  }

  // --------------------------------------------------------------- deleting

  function WithoutDocument(es: seq<EmbeddingRecord>, id: nat): seq<EmbeddingRecord> {
    Filter(es, (e: EmbeddingRecord) => e.documentId != id)
  }

  /** Removing one document's embeddings leaves every other document's
      embeddings exactly as they were, in order. */
  lemma {:induction false} OthersUntouched(es: seq<EmbeddingRecord>, id: nat, other: nat)
    requires other != id
    ensures EmbeddingsOf(WithoutDocument(es, id), other) == EmbeddingsOf(es, other)
    decreases |es|
  {
    if es != [] {
      OthersUntouched(es[1..], id, other);
      var e := es[0];
      var rest := WithoutDocument(es[1..], id);
      if e.documentId != id {
        assert WithoutDocument(es, id) == [e] + rest;
        assert ([e] + rest)[1..] == rest;
      } else {
        assert WithoutDocument(es, id) == rest;
      }
    }
  }

  /** `deleteDocument`: deletes every embedding of the document, then the
      document. A missing document makes the final delete throw, which rolls the
      whole mutation back. */
  function DeleteDocument(db: Store, userId: Option<string>, documentId: nat): (r: Result<Store>)
    ensures r.Err? <==> userId.None? || FindDocument(db.documents, documentId).None?
    ensures r.Ok? ==> EmbeddingsOf(r.value.embeddings, documentId) == []
    ensures r.Ok? ==> FindDocument(r.value.documents, documentId).None?
    ensures r.Ok? ==> forall other :: other != documentId ==>
      EmbeddingsOf(r.value.embeddings, other) == EmbeddingsOf(db.embeddings, other)
    ensures r.Ok? ==> IsSubseq(r.value.documents, db.documents)
    ensures r.Ok? ==> forall d :: d in db.documents && d.id != documentId ==> d in r.value.documents
    ensures r.Ok? && Valid(db) ==> Valid(r.value)
  {
    if userId.None? then Err("Not authenticated")
    else if FindDocument(db.documents, documentId).None? then Err("Delete on nonexistent document")
    else
      CascadeFacts(db, documentId);
      Ok(Store(Filter(db.documents, (d: Document) => d.id != documentId),
               WithoutDocument(db.embeddings, documentId), db.nextId))
  }

  /** What the cascade delete leaves behind. */
  lemma CascadeFacts(db: Store, documentId: nat)
    ensures var es := WithoutDocument(db.embeddings, documentId);
      EmbeddingsOf(es, documentId) == []
      && forall other :: other != documentId ==> EmbeddingsOf(es, other) == EmbeddingsOf(db.embeddings, other)
    ensures var docs := Filter(db.documents, (d: Document) => d.id != documentId);
      IsSubseq(docs, db.documents)
      && (forall d :: d in db.documents && d.id != documentId ==> d in docs)
      && (Valid(db) ==> Valid(Store(docs, db.embeddings, db.nextId)))
  {
    var es := WithoutDocument(db.embeddings, documentId);
    var docs := Filter(db.documents, (d: Document) => d.id != documentId);
    forall other | other != documentId
      ensures EmbeddingsOf(es, other) == EmbeddingsOf(db.embeddings, other)
    {
      OthersUntouched(db.embeddings, documentId, other);
    }
    NoneLeft(db.embeddings, documentId);
    FilterIsSubseq(db.documents, (d: Document) => d.id != documentId);
    forall d | d in db.documents && d.id != documentId ensures d in docs {
      var k :| 0 <= k < |db.documents| && db.documents[k] == d;
    }
    if Valid(db) {
      forall k | 0 <= k < |docs| ensures docs[k].id < db.nextId {
        assert docs[k] in db.documents;
      }
      SubseqDistinctIds(docs, db.documents);
    }
  }

  /** After the cascade no embedding of the deleted document is left. */
  lemma {:induction false} NoneLeft(es: seq<EmbeddingRecord>, id: nat)
    ensures EmbeddingsOf(WithoutDocument(es, id), id) == []
    decreases |es|
  {
    if es != [] {
      NoneLeft(es[1..], id);
      var rest := WithoutDocument(es[1..], id);
      if es[0].documentId != id {
        assert WithoutDocument(es, id) == [es[0]] + rest;
        assert ([es[0]] + rest)[1..] == rest;
      } else {
        assert WithoutDocument(es, id) == rest;
      }
    }
  }

  /** Deleting documents keeps their ids distinct. */
  lemma {:induction false} SubseqDistinctIds(a: seq<Document>, b: seq<Document>)
    requires IsSubseq(a, b)
    requires forall j, k :: 0 <= j < k < |b| ==> b[j].id != b[k].id
    ensures forall j, k :: 0 <= j < k < |a| ==> a[j].id != a[k].id
    decreases |b|
  {
    if b != [] {
      if a != [] && a[0] == b[0] && IsSubseq(a[1..], b[1..]) {
        SubseqDistinctIds(a[1..], b[1..]);
        SubseqElements(a[1..], b[1..]);
        forall k | 0 < k < |a| ensures a[0].id != a[k].id {
          assert a[1..][k - 1] in b[1..];
        }
      } else {
        SubseqDistinctIds(a, b[1..]);
      }
    }
  }

  lemma {:induction false} SubseqElements<T>(a: seq<T>, b: seq<T>)
    requires IsSubseq(a, b)
    ensures forall x :: x in a ==> x in b
    decreases |b|
  {
    if b != [] {
      if a != [] && a[0] == b[0] && IsSubseq(a[1..], b[1..]) {
        SubseqElements(a[1..], b[1..]);
        assert a == [a[0]] + a[1..];
      } else {
        SubseqElements(a, b[1..]);
      }
    }
  }

  // -------------------------------------------------------------- searching

  /** One search result. */
  datatype SearchHit = SearchHit(content: string, documentName: string,
                                 documentType: Option<DocType>, similarity: real)

  /** Case-insensitive substring match of the query against a chunk. */
  predicate MatchesQuery(content: string, query: string) {
    Includes(LowerStr(content), LowerStr(query))
  }

  /** The hits inside one document, in the order of its stored embeddings. */
  function DocumentHits(d: Document, es: seq<EmbeddingRecord>, query: string): (r: seq<SearchHit>)
    ensures |r| <= |EmbeddingsOf(es, d.id)|
    ensures forall k :: 0 <= k < |r| ==>
      (r[k].documentName == d.name && r[k].documentType == d.docType
       && r[k].similarity == PlaceholderSimilarity && MatchesQuery(r[k].content, query))
    decreases |es|
  {
    if es == [] then []
    else
      var e := es[0];
      var rest := DocumentHits(d, es[1..], query);
      assert EmbeddingsOf(es, d.id) == (if e.documentId == d.id then [e] else []) + EmbeddingsOf(es[1..], d.id);
      if e.documentId == d.id && MatchesQuery(e.content, query) then
        [SearchHit(e.content, d.name, d.docType, PlaceholderSimilarity)] + rest
      else rest
  }

  /** All hits, document by document in table order. */
  function AllHits(docs: seq<Document>, es: seq<EmbeddingRecord>, query: string): (r: seq<SearchHit>)
    ensures forall k :: 0 <= k < |r| ==>
      (r[k].similarity == PlaceholderSimilarity && MatchesQuery(r[k].content, query))
    decreases |docs|
  {
    if docs == [] then []
    else
      var h := DocumentHits(docs[0], es, query);
      var rest := AllHits(docs[1..], es, query);
      ScoredMatchesAppend(h, rest, query);
      h + rest
  }

  /** Every hit is a match scored with the placeholder similarity. */
  predicate ScoredMatches(hs: seq<SearchHit>, query: string) {
    forall k :: 0 <= k < |hs| ==> hs[k].similarity == PlaceholderSimilarity && MatchesQuery(hs[k].content, query)
  }

  lemma ScoredMatchesAppend(a: seq<SearchHit>, b: seq<SearchHit>, query: string)
    requires ScoredMatches(a, query) && ScoredMatches(b, query)
    ensures ScoredMatches(a + b, query)
  {
    forall k | 0 <= k < |a + b|
      ensures (a + b)[k].similarity == PlaceholderSimilarity && MatchesQuery((a + b)[k].content, query)
    {
      if k < |a| {
        assert (a + b)[k] == a[k];
      } else {
        assert (a + b)[k] == b[k - |a|];
      }
    }
  }

  /** Every hit names a document it was found in. */
  lemma HitHasDocument(docs: seq<Document>, es: seq<EmbeddingRecord>, query: string, k: nat)
    requires k < |AllHits(docs, es, query)|
    ensures var h := AllHits(docs, es, query)[k];
      exists d :: d in docs && d.name == h.documentName && d.docType == h.documentType
  {
    var j := HitSource(docs, es, query, k);
    assert docs[j] in docs;
  }

  /** The position of the document a hit was found in. */
  lemma {:induction false} HitSource(docs: seq<Document>, es: seq<EmbeddingRecord>, query: string, k: nat)
    returns (j: nat)
    requires k < |AllHits(docs, es, query)|
    ensures j < |docs|
    ensures docs[j].name == AllHits(docs, es, query)[k].documentName
    ensures docs[j].docType == AllHits(docs, es, query)[k].documentType
    decreases |docs|
  {
    var h := DocumentHits(docs[0], es, query);
    var rest := AllHits(docs[1..], es, query);
    assert AllHits(docs, es, query) == h + rest;
    if k < |h| {
      assert (h + rest)[k] == h[k];
      j := 0;
    } else {
      assert (h + rest)[k] == rest[k - |h|];
      var i := HitSource(docs[1..], es, query, k - |h|);
      j := i + 1;
    }
  }

  /** Every chunk the search reports to match, and only such chunks, are hits:
      a matching chunk of a listed document is among the hits. */
  lemma {:induction false} MatchingChunkInAllHits(docs: seq<Document>, es: seq<EmbeddingRecord>, query: string,
                                                  d: Document, e: EmbeddingRecord)
    requires d in docs && e in es && e.documentId == d.id && MatchesQuery(e.content, query)
    ensures SearchHit(e.content, d.name, d.docType, PlaceholderSimilarity) in AllHits(docs, es, query)
    decreases |docs|
  {
    var h := DocumentHits(docs[0], es, query);
    var rest := AllHits(docs[1..], es, query);
    assert AllHits(docs, es, query) == h + rest;
    if docs[0] == d {
      MatchingChunkIsHit(d, es, query, e);
    } else {
      MatchingChunkInAllHits(docs[1..], es, query, d, e);
    }
  }

  /** `limit || 5`: an absent or zero limit means five. */
  function EffectiveLimit(limit: Option<int>): int {
    if limit.None? || limit.value == 0 then DefaultSearchLimit else limit.value
  }

  /** `searchDocuments`: the organisation's chunks whose text contains the query
      case-insensitively, each scored 0.8, cut with `slice(0, limit)`. */
  function SearchDocuments(db: Store, query: string, org: Option<string>, limit: Option<int>): (r: seq<SearchHit>)
    ensures var all := AllHits(OrgDocuments(db.documents, OrDefault(org, DefaultOrg)), db.embeddings, query);
      |r| == SliceEnd(EffectiveLimit(limit), |all|) && r == all[..|r|]
    ensures forall k :: 0 <= k < |r| ==> r[k].similarity == PlaceholderSimilarity && MatchesQuery(r[k].content, query)
  {
    var orgId := OrDefault(org, DefaultOrg);
    var docs := OrgDocuments(db.documents, orgId);
    var all := AllHits(docs, db.embeddings, query);
    var r := all[..SliceEnd(EffectiveLimit(limit), |all|)];
    assert forall k :: 0 <= k < |r| ==> r[k] == all[k];
    r
  }

  /** Search is scoped to the caller's organisation: every hit names a document
      of that organisation. */
  lemma SearchScopedToOrg(db: Store, query: string, org: Option<string>, limit: Option<int>, k: nat)
    requires k < |SearchDocuments(db, query, org, limit)|
    ensures exists d :: (d in db.documents && d.organizationId == Some(OrDefault(org, DefaultOrg))
      && d.name == SearchDocuments(db, query, org, limit)[k].documentName)
  {
    var docs := OrgDocuments(db.documents, OrDefault(org, DefaultOrg));
    var all := AllHits(docs, db.embeddings, query);
    HitHasDocument(docs, db.embeddings, query, k);
    var d :| d in docs && d.name == all[k].documentName && d.docType == all[k].documentType;
    assert d in db.documents && d.organizationId == Some(OrDefault(org, DefaultOrg));
  }

  /** With a positive limit (or none), the search returns `min(limit, #matches)`
      results. */
  lemma SearchCount(db: Store, query: string, org: Option<string>, limit: Option<int>)
    requires EffectiveLimit(limit) > 0
    ensures var all := AllHits(OrgDocuments(db.documents, OrDefault(org, DefaultOrg)), db.embeddings, query);
      |SearchDocuments(db, query, org, limit)| == if EffectiveLimit(limit) < |all| then EffectiveLimit(limit) else |all|
  {
  }

  /** Every stored chunk of a document matches the empty query: the empty
      query returns every chunk. */
  lemma {:induction false} EmptyQueryMatchesAll(d: Document, es: seq<EmbeddingRecord>)
    ensures |DocumentHits(d, es, "")| == |EmbeddingsOf(es, d.id)|
    decreases |es|
  {
    if es != [] {
      EmptyQueryMatchesAll(d, es[1..]);
      IncludesEmpty(LowerStr(es[0].content));
      assert LowerStr("") == "";
      assert EmbeddingsOf(es, d.id) == (if es[0].documentId == d.id then [es[0]] else []) + EmbeddingsOf(es[1..], d.id);
    }
  }

  /** Completeness: every matching chunk of an organisation document appears
      among the hits. */
  lemma {:induction false} MatchingChunkIsHit(d: Document, es: seq<EmbeddingRecord>, query: string, e: EmbeddingRecord)
    requires e in es && e.documentId == d.id && MatchesQuery(e.content, query)
    ensures SearchHit(e.content, d.name, d.docType, PlaceholderSimilarity) in DocumentHits(d, es, query)
    decreases |es|
  {
    if es[0] != e {
      MatchingChunkIsHit(d, es[1..], query, e);
    }
  }

  // ------------------------------------------------------------- triggering

  /** `generateDocumentEmbeddings`: marks the document `processing` and returns
      the model the scheduled action will run with. */
  function GenerateDocumentEmbeddings(db: Store, userId: Option<string>, documentId: nat,
                                     model: Option<string>): (r: Result<(Store, string)>)
    ensures r.Err? <==> userId.None? || FindDocument(db.documents, documentId).None?
    ensures r.Ok? ==> var i := FindDocument(db.documents, documentId).value;
      |r.value.0.documents| == |db.documents| && r.value.0.embeddings == db.embeddings
      && r.value.0.documents[i] == db.documents[i].(embeddingStatus := Some(Processing))
      && (forall j :: 0 <= j < |db.documents| && j != i ==> r.value.0.documents[j] == db.documents[j])
      && r.value.1 == (if model.Some? && model.value != "" then model.value else DefaultEmbeddingModel)
  {
    if userId.None? then Err("Not authenticated")
    else match FindDocument(db.documents, documentId)
      case None => Err("Update on nonexistent document")
      case Some(i) =>
        var d := db.documents[i];
        Ok((db.(documents := db.documents[i := d.(embeddingStatus := Some(Processing))]),
            OrDefault(model, DefaultEmbeddingModel)))
  }

  /** A document without text stays `processing` after the trigger and the
      scheduled run: the action returns before marking anything. */
  lemma NoContentStaysProcessing(db: Store, userId: Option<string>, documentId: nat, model: Option<string>,
                                 embed: EmbedRequest -> EmbedResponse, now: int)
    requires GenerateDocumentEmbeddings(db, userId, documentId, model).Ok?
    requires var i := FindDocument(db.documents, documentId).value;
      db.documents[i].content.None? || db.documents[i].content.value == ""
    ensures var (mid, m) := GenerateDocumentEmbeddings(db, userId, documentId, model).value;
      var r := GenerateEmbeddingsAction(mid, documentId, Some(m), embed, now);
      var i := FindDocument(db.documents, documentId).value;
      r == mid && r.documents[i].embeddingStatus == Some(Processing)
  {
    var (mid, m) := GenerateDocumentEmbeddings(db, userId, documentId, model).value;
    var i := FindDocument(db.documents, documentId).value;
    assert mid.documents[i].id == documentId;
    FindIsFirst(db.documents, mid.documents, documentId, i);
  }

  /** Replacing a document by one with the same id does not move the lookup. */
  lemma {:induction false} FindIsFirst(a: seq<Document>, b: seq<Document>, id: nat, i: nat)
    requires FindDocument(a, id) == Some(i)
    requires |a| == |b| && b[i].id == id
    requires forall j :: 0 <= j < |a| && j != i ==> a[j] == b[j]
    ensures FindDocument(b, id) == Some(i)
    decreases |a|
  {
    if i > 0 {
      FindIsFirst(a[1..], b[1..], id, i - 1);
    }
  }
}
