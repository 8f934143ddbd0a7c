# CMMC Level 1 compliance tracker — a Dafny model

This project models the core of a CMMC Level 1 compliance tracker. The tracker is a Convex backend with a React front end. The model covers:

- **Controls**: seeding the eighteen baseline controls for an organisation, listing them, filtering them by domain, and updating their status and configuration. Every update writes an audit entry. The model also covers the per-status and per-domain statistics.
- **The audit log**: the newest-first query and the summary counters.
- **Documents**: upload, listing and cascade delete. The paragraph chunker. The embedding run, both on the server and in the browser. Chunk storage and the case-insensitive text search.
- **The AI side**: model detection, embeddings, control questions, and the readiness analysis. The analysis is a single-slot summary that a scheduled action writes and the readiness page reads.
- **The pages**: the dashboard, configuration, readiness, document manager, upload card and model settings pages, as state machines over the backend model.

The model is built as follows:

- A Convex mutation is a pure function from a database value to a `Result` of a new database value. A mutation that throws is `Err`, and the database is unchanged, because Convex rolls the transaction back.
- The signed-in user is an `Option<string>` parameter. `Date.now()` is a parameter `now`.
- Every reply from the network or from a model server is an oracle parameter: a function from the request, or from the chunk position, to the reply.
- Tables are sequences in insertion order. A descending index scan is the reverse of the filtered table.
- JavaScript's `a || d` on strings treats the empty string as absent (`Text.OrDefault`). `new Set(..)` keeps elements in order of first appearance (`Seqs.Dedup`).
- `Math.round(part / total * 100)` is computed exactly as `(200 * part + total) / (2 * total)`, so halves round up.

The modules follow the source files:

| module | models |
|---|---|
| `Controls` | `convex/controls.ts` |
| `AuditLogs` | `convex/auditLogs.ts` |
| `Documents` | `convex/documents.ts` |
| `Ai` | `convex/ai.ts` |
| `LocalEmbedding` | `src/components/Documents.tsx` |
| `DocumentManager` | `src/DocumentManager.tsx` |
| `DocumentUpload` | `src/components/DocumentUpload.tsx` |
| `ModelSettings` | `src/AIModelSettings.tsx` |
| `Dashboard` | `src/Dashboard.tsx` and the completion figure of `src/StatsOverview.tsx` |
| `Configuration` | `src/Configuration.tsx` |
| `Readiness` | `src/ReadinessSummary.tsx` |

`Schema` holds the records of `convex/schema.ts`. `Text`, `Seqs` and `Wrappers` hold the string, sequence and option helpers shared by the modules.

## Model

| member | source | states |
|---|---|---|
| Text.Trim | convex/documents.ts:131-133 | `trim()` returns the piece of the string left after removing the whitespace at both ends: everything before and after it is whitespace, it has no whitespace at either of its own ends, and it is empty exactly when the string is all whitespace |
| Text.TrimIdempotent | src/DocumentManager.tsx:41-51 | trimming an already trimmed text changes nothing |
| Text.LowerStr | convex/documents.ts:311 | `toLowerCase()` keeps the length and maps each character to its lower-case form |
| Text.LowerIdempotent | convex/documents.ts:311 | lower-casing twice is lower-casing once |
| Text.IndexOfFrom | convex/ai.ts:463 | `indexOf` gives the first position at or after the start where the needle occurs, or none when it occurs nowhere there |
| Text.Includes | convex/documents.ts:311 | `includes` holds exactly when some position holds the needle |
| Text.IncludesEmpty | convex/documents.ts:311 | the empty query is contained in every text |
| Text.ReplaceFirst | src/components/DocumentUpload.tsx:36 | `replace` with a string pattern replaces only the first occurrence and leaves a text without the pattern unchanged |
| Text.LastIndexOfChar | convex/ai.ts:464 | `lastIndexOf` gives the last position of the character, or none |
| Text.Split | convex/documents.ts:130 | `split("\n\n")`: the pieces joined by the separator give back the text, and no piece holds the separator |
| Text.SplitJoin | convex/documents.ts:129-135 | splitting paragraphs joined by blank lines gives back exactly those paragraphs |
| Text.SplitPieceOccurs | convex/documents.ts:130 | every piece of a split occurs in the original text |
| Text.SliceEnd | convex/documents.ts:324 | the end index of `slice(0, end)`: a negative end counts from the back, and the result is clamped to the length |
| Text.OrDefault | convex/documents.ts:47 | `a \|\| d` is `d` exactly when `a` is absent or empty, and `a` otherwise |
| Seqs.Filter | src/Dashboard.tsx:64-72 | `filter` keeps exactly the passing elements, in order |
| Seqs.Count | convex/controls.ts:343 | `filter(p).length` is 0 exactly when no element passes, and the full length exactly when all do |
| Seqs.FilterFilter | src/Dashboard.tsx:64-72 | filtering twice is filtering once by the conjunction |
| Seqs.CountUpdate | convex/controls.ts:262-270 | replacing one element moves the count by exactly what the old and the new element contribute |
| Seqs.Dedup | src/Configuration.tsx:37-40 | `Array.from(new Set(xs))` holds each element of `xs` exactly once, and nothing else |
| Seqs.DedupConstant | convex/auditLogs.ts:104 | a sequence of one repeated value has one distinct value |
| Controls.BaselineShape | convex/controls.ts:6-144 | the baseline holds eighteen controls with pairwise distinct control ids, each in one of the six CMMC Level 1 domains, and every domain has at least one control |
| Controls.FindControl | convex/controls.ts:246-249 | `db.get` finds the first control with the id, or reports it missing when no control has that id |
| Controls.InitializeControls | convex/controls.ts:146-181 | a signed-out caller is refused; an organisation that already has controls is left alone; otherwise the baseline is appended for the organisation, with "default_org" when none is given |
| Controls.InitializedOrgIsBaseline | convex/controls.ts:146-181 | after a successful call the organisation holds exactly the baseline, in baseline order and not started |
| Controls.InitializeOtherOrgsUntouched | convex/controls.ts:168-177 | seeding one organisation leaves every other organisation's controls as they were |
| Controls.InitializeIdempotent | convex/controls.ts:159-166 | initialising twice is initialising once |
| Controls.ListControls | convex/controls.ts:183-198 | a signed-in caller gets the organisation's controls in table order; a signed-out caller gets nothing |
| Controls.GetControlsByDomain | convex/controls.ts:200-225 | a non-empty domain selects that domain's controls of the organisation; an empty domain selects all of them |
| Controls.DomainQueryIsFilteredList | convex/controls.ts:200-225 | the domain index returns exactly the organisation's list filtered by domain, in the same order |
| Controls.UpdateControlStatus | convex/controls.ts:227-274 | the call fails when signed out or when the control is missing; otherwise it appends one "status_update" entry about the control and sets the status and the optional fields (an absent field is cleared), stamping the time and the user; the revision fields and the texts are kept; no other control changes |
| Controls.UpdateControlConfiguration | convex/controls.ts:276-320 | the call fails when signed out or when the control is missing; otherwise it appends one "configuration_update" entry; each text field is replaced only by a non-empty value; the control is marked revised with the notes; the entry is fully stated (fresh id, the control's organisation, the notes or "Control configuration updated", the user, the time, entity "control" and the control's id) |
| Controls.TallyStatus | convex/controls.ts:347-353 | each status counter counts the controls with that status |
| Controls.TallyTotals | convex/controls.ts:337-353 | the total counts every control, `revised` counts the revised ones, and the four status counters add up to the total |
| Controls.ByDomainKeys | convex/controls.ts:355-364 | the keys of `byDomain` are the distinct domains, in order of first appearance |
| Controls.ByDomainLookup | convex/controls.ts:355-371 | under each domain's key are that domain's counters; a domain without controls has no key |
| Controls.ByDomainTotal | convex/controls.ts:355-366 | the domain totals add up to the number of controls |
| Controls.StatsOfCounts | convex/controls.ts:337-353 | the total counts the controls, each status counter the controls with that status and `revised` the revised ones; the four status counters add up to the total |
| Controls.StatsOfDomains | convex/controls.ts:337-374 | the domain totals add up to the total and the domain revised counters to `revised`; in each domain the four status counters add up to its total; the domain keys are the distinct domains in order of first appearance |
| Controls.ByDomainRevised | convex/controls.ts:343-371 | the domain revised counters add up to the number of revised controls |
| Controls.ByDomainBalanced | convex/controls.ts:347-367 | every domain entry counts at least one control, and its four status counters add up to its total |
| Controls.GetComplianceStats | convex/controls.ts:322-376 | a signed-in caller gets the organisation's statistics; a signed-out caller gets none |
| Controls.GetComplianceStatsInternal | convex/controls.ts:379-440 | the same statistics for "default_org", without a caller |
| Controls.ListControlsInternal | convex/controls.ts:442-453 | the controls of "default_org" in table order |
| Controls.SeededStats | convex/controls.ts:146-181 | a freshly seeded organisation reports eighteen controls, all not started, none in progress, implemented or verified, and none revised |
| Controls.StatusUpdateMovesOneCount | convex/controls.ts:262-270 | a status update moves one count from the control's earlier status to its new one and leaves the organisation's total alone |
| AuditLogs.UserName | convex/auditLogs.ts:46-50 | the author's name, or "Unknown User" for a missing author, a missing user or an empty name |
| AuditLogs.GetAuditLogs | convex/auditLogs.ts:5-56 | a signed-in caller gets the newest `limit` selected entries (100 when the limit is absent or zero), newest first, each with its author's name; a signed-out caller gets none |
| AuditLogs.NewestFirst | convex/auditLogs.ts:37-41 | when timestamps never decrease along the table, the returned entries' timestamps never increase |
| AuditLogs.StatusUpdateShownFirst | convex/controls.ts:252-260 | the entry a status update writes is the first one the general query then returns |
| AuditLogs.GetAuditStats | convex/auditLogs.ts:87-109 | as written: the total, the last seven days, the status updates, and the size of the set of `controlId` values, an absent value included; the distinct-control count is at least one exactly when there is an entry |
| AuditLogs.UniqueControlIds | convex/auditLogs.ts:104 | the count is the size of the set of the entries' `controlId` values, at most the number of entries, and at least one exactly when there is an entry |
| Seqs.DedupSize | convex/auditLogs.ts:104 | the distinct elements in order number as many as the set of elements, the `size` of `new Set(xs)` |
| AuditLogs.StatusUpdateCounted | convex/auditLogs.ts:100-105 | a status update adds one entry, one status change and one recent change |
| AuditLogs.MutationsLeaveUntagged | convex/controls.ts:252-260 | seeding and both update mutations never write a `controlId` on an entry |
| AuditLogs.ControlFilterFindsNothing | convex/auditLogs.ts:16-21 | so the per-control query returns nothing, whatever control is asked for |
| AuditLogs.UniqueControlsAsWritten | convex/auditLogs.ts:104 | the distinct-control counter as written is 1 as soon as there is any entry |
| AuditLogs.GetAuditStatsCorrected | convex/auditLogs.ts:87-109 | the statistics with the distinct-control counter taken from the entries' control entity ids |
| AuditLogs.StatusUpdateLogged | convex/controls.ts:251-260 | a status update adds exactly one entry, about that control and in its organisation, and keeps the earlier entries |
| AuditLogs.TwoControlsCounted | convex/auditLogs.ts:104 | after status updates of two different controls the corrected counter reads 2, and the counter as written reads 1 |
| Documents.FindDocument | convex/documents.ts:112-119 | `db.get` finds a document with the id, or reports it missing when none has it |
| Documents.UploadDocument | convex/documents.ts:6-27 | a signed-out caller gets "Not authenticated"; otherwise one fresh document with the given fields and the caller as uploader is appended to the organisation ("default_org" when none is given), stamped with the upload time, with no embedding status, flag or embedding time, and nothing else changes |
| Documents.ListDocuments | convex/documents.ts:30-72 | the organisation's documents in table order ("default_org" when none is given), each row carrying the document's id, name, type, upload time, embedding time and status; `hasEmbeddings` holds exactly when some stored embedding names the document |
| Documents.HasEmbeddingsIff | convex/documents.ts:56-66 | the listed flag holds exactly when an embedding of the document is stored, whatever the document's own flag says |
| Documents.ChunkText | convex/documents.ts:129-135 | chunks are the trimmed pieces of the split whose trimmed length exceeds 50, numbered from 0 |
| Documents.ChunkOccursInText | convex/documents.ts:129-135 | every chunk occurs in the document text and spans no blank line |
| Documents.WhitespaceHasNoChunks | convex/documents.ts:131 | whitespace-only text yields no chunks |
| Documents.GoodParagraphKept | convex/documents.ts:129-135 | a trimmed paragraph longer than 50 characters with no blank line is kept unchanged |
| Documents.ChunkJoinRoundTrip | convex/documents.ts:129-135 | chunking good paragraphs joined by blank lines gives back exactly those paragraphs, numbered from 0 |
| Documents.SingleParagraphChunk | convex/documents.ts:131 | a single paragraph gives a chunk exactly when its trimmed length exceeds 50 |
| Documents.RunRecords | convex/documents.ts:141-177 | the run stores at most one record per chunk, each for the document and with a non-empty vector taken from a chunk whose reply is usable; it stores something exactly when some chunk's reply is usable |
| Documents.RunRecordsAreUsableChunks | convex/documents.ts:141-177 | the run stores exactly the chunks whose reply is a non-empty vector, in chunk order, each with its own content, index and reply vector, and skips the rest |
| Documents.GenerateEmbeddingsAction | convex/documents.ts:101-207 | a missing document or one without text changes nothing; otherwise the run's records for the document's chunks are appended after the existing embeddings, the other documents are kept, and the document is marked completed when something was stored and failed otherwise |
| Documents.RunAndMark | convex/documents.ts:141-199 | the run's records for the chunks are appended after the existing embeddings, the other documents are kept, and the document is marked by whether anything was stored |
| Documents.ActionStoresUsableChunks | convex/documents.ts:101-207 | a run on a document with text appends exactly the records of the chunks whose reply is usable, in chunk order, each with its own vector |
| Documents.RunCompletedIff | convex/documents.ts:182-194 | a run ends completed exactly when some chunk's reply carried a non-empty vector |
| Documents.WhitespaceRunFails | convex/documents.ts:121-194 | whitespace-only text stores nothing and ends failed |
| Documents.AllRepliesUsable | convex/documents.ts:141-194 | when every reply is usable, one record is stored per chunk and the run ends completed |
| Documents.MarkDocumentAsEmbedded | convex/documents.ts:210-226 | `success` defaults to true; the flag, the timestamp (only on success) and the status follow it; a missing document is an error; nothing else changes |
| Documents.MarkAsEmbedded | convex/documents.ts:708-727 | as above, after refusing a signed-out caller |
| Documents.StoreDocumentEmbedding | convex/documents.ts:229-247 | appends exactly one record with the given fields and changes nothing else |
| Documents.StoreEmbedding | convex/documents.ts:684-705 | as above, after refusing a signed-out caller |
| Documents.StoreTwiceDuplicates | convex/documents.ts:229-247 | storing the same (document, chunk index) twice leaves two more records with that key: nothing is deduplicated |
| Documents.OthersUntouched | convex/documents.ts:338-346 | removing one document's embeddings leaves every other document's embeddings as they were, in order |
| Documents.DeleteDocument | convex/documents.ts:329-353 | a signed-out caller or a missing document changes nothing; otherwise the document and all its embeddings are removed and nothing else is |
| Documents.NoneLeft | convex/documents.ts:338-349 | after the cascade no embedding of the deleted document remains |
| Documents.SubseqDistinctIds | convex/documents.ts:349 | deleting documents keeps the remaining ids distinct |
| Documents.HitHasDocument | convex/documents.ts:303-322 | every hit names a document it was found in |
| Documents.MatchingChunkInAllHits | convex/documents.ts:303-322 | every matching chunk of a listed document is among the hits (and by `Documents.AllHits` every hit matches) |
| Documents.SearchDocuments | convex/documents.ts:274-326 | the organisation's matching chunks in table order, each scored 0.8, cut to `limit` (5 when absent or zero) |
| Documents.SearchScopedToOrg | convex/documents.ts:296-299 | every hit names a document of the searched organisation |
| Documents.SearchCount | convex/documents.ts:324 | with a positive or absent limit, the result has `min(limit, matches)` entries |
| Documents.EmptyQueryMatchesAll | convex/documents.ts:311 | the empty query matches every stored chunk |
| Documents.MatchingChunkIsHit | convex/documents.ts:303-322 | every matching chunk of an organisation document is among the hits |
| Documents.GenerateDocumentEmbeddings | convex/documents.ts:75-98 | a signed-in caller marks an existing document "processing" and schedules the run with the requested model, or the default embedding model |
| Documents.NoContentStaysProcessing | convex/documents.ts:121-124 | a document without text stays "processing" after the trigger and the run |
| Ai.Normalise | convex/ai.ts:83-93 | missing or empty details become 0, "" and "unknown"; present non-empty ones are passed through |
| Ai.NormaliseIdempotent | convex/ai.ts:83-93 | normalising a normalised entry changes nothing |
| Ai.DetectOllamaModels | convex/ai.ts:10-118 | a failed or empty reply reports no models and no capability; otherwise the models are listed and the capabilities follow the name tests |
| Ai.CapabilityNeedsModels | convex/ai.ts:67-82 | any capability implies at least one model |
| Ai.NameTestsSimplify | convex/ai.ts:67-79 | the "nomic-embed" and "codellama" tests are subsumed by "embed" and "llama" |
| Ai.GenerateEmbeddings | convex/ai.ts:121-158 | a body with an array is returned as the vector, and the model defaults to "mxbai-embed-large:latest"; every failure is an error reading "Failed to generate embeddings: " followed by the thrown message, the status for a non-OK reply, or the invalid-response text |
| Ai.StatusInMessage | convex/ai.ts:141-142 | the status at the end of a non-OK error reads back as that status |
| Text.DecimalRoundTrip | convex/ai.ts:142 | a number written as a decimal numeral, as a template literal writes it, reads back as that number |
| Ai.EmptyVectorAccepted | convex/ai.ts:148-152 | an empty vector passes this validation |
| Ai.FormatSource | convex/ai.ts:257-264 | a source is the first 200 characters plus "...", with the document name, or "Unknown Document" when it is empty |
| Ai.AskControlQuestion | convex/ai.ts:161-278 | the generator is asked with the model (default "llama3.2:latest"), the asked-about control, the search hits (limit 3) and the question; the answer is its reply or the fixed apology for an empty one, citing one source per hit; a failed request gives the service-down apology and no sources |
| Ai.ControlContext | convex/ai.ts:194-213 | no control without a non-empty `controlId`; otherwise the first "default_org" control carrying it, and none exactly when no such control exists |
| Ai.ControlContextIsFirst | convex/ai.ts:196-197 | the control found is the first listed control carrying the id: no earlier control carries it |
| Ai.SourcesBounded | convex/ai.ts:182-266 | an answer cites at most three sources, each at most 203 characters and ending in "..." |
| Ai.JsonSpan | convex/ai.ts:463-467 | the text from the first '{' through the last '}' when they are in that order, otherwise the whole reply |
| Ai.JsonSpanIdempotent | convex/ai.ts:463-467 | extracting twice is extracting once |
| Ai.JsonSpanStripsProse | convex/ai.ts:463-467 | prose around an object is dropped when the prefix has no '{' and the suffix no '}' |
| Ai.StoreReadinessSummary | convex/ai.ts:281-312 | the default user's first summary, if any, is deleted and the new one appended; every other row stays, in order; the default user's count stays, or becomes one from none |
| Ai.StoreKeepsOtherUsers | convex/ai.ts:294-302 | storing a summary leaves the other users' summaries as they were |
| Ai.GetReadinessSummary | convex/ai.ts:315-350 | a signed-in caller gets the default user's first summary, and none only when there is none; a signed-out caller gets none |
| Ai.SingleSlot | convex/ai.ts:281-350 | from at most one stored summary, storing leaves exactly one, and reading it back returns what was stored |
| Ai.GenerateReadinessSummary | convex/ai.ts:353-368 | a signed-out caller gets "Not authenticated"; otherwise the action is scheduled with the requested model, or "llama3.2:latest" when none is given |
| Ai.GenerateSummaryAction | convex/ai.ts:371-509 | one reply is parsed, missing or empty fields get defaults, and the result is stored in the single slot; a failed request, a `null` answer or a wrongly typed field stores the fixed service-down analysis |
| Ai.ParseReply | convex/ai.ts:460-489 | no parsed answer exactly when the reply text parses to `null` or to a value with a wrongly typed truthy field; a well-typed value's fields are taken as they are |
| Ai.IllTypedStoresServiceDown | convex/ai.ts:283-286 | an answer with a truthy field of the wrong type is refused by the store's validator, and the service-down analysis is stored instead |
| Ai.UnparsableStoresFallback | convex/ai.ts:469-481 | an unparsable answer, or none, stores the fixed fallback analysis |
| Ai.StoredSummaryNeverEmpty | convex/ai.ts:484-489 | whatever the model answers, the stored summary and priority texts are non-empty and the recommendations are present |
| LocalEmbedding.EmbeddingModel | src/components/Documents.tsx:124-128 | the selected model is used only when local models are on and its name contains "embed"; otherwise "mxbai-embed-large:latest" |
| LocalEmbedding.ChosenModelEmbeds | src/components/Documents.tsx:124-128 | the model asked for embeddings always has "embed" in its name |
| LocalEmbedding.DefaultSettingsUseDefaultModel | src/components/Documents.tsx:99-116 | with the default settings the default embedding model is asked |
| LocalEmbedding.DemoChunks | src/components/Documents.tsx:147-168 | the placeholder text gives at most its first paragraph as a chunk, kept exactly when the name is longer than 15 characters |
| LocalEmbedding.StoreChunks | src/components/Documents.tsx:186-247 | the vectors of usable replies are stored one chunk at a time; a failed chunk is skipped; the count is the number stored |
| LocalEmbedding.GenerateEmbeddingsLocally | src/components/Documents.tsx:119-300 | an unlisted document aborts and changes nothing; for a signed-in caller the stored records are exactly the run's records for the demo text's chunks, the run succeeds exactly when some chunk's reply is usable, and an existing document is marked completed with embeddings on success and failed without them otherwise; the document's progress entry is removed on every path |
| LocalEmbedding.LocalRunStoresAtMostOne | src/components/Documents.tsx:147-168 | a run stores at most one vector |
| LocalEmbedding.SignedOutRunFails | src/components/Documents.tsx:228-299 | a signed-out run stores nothing and reports failure |
| LocalEmbedding.EmbeddingBadge | src/components/Documents.tsx:496-534 | "processing" wins, then "failed", then having embeddings and being completed; otherwise the "No Embeddings" badge |
| LocalEmbedding.BadgeAfterServerRun | convex/documents.ts:182-194 | after a server run the badge reads "Ready for RAG" exactly when some reply was usable, and "Failed" otherwise |
| LocalEmbedding.SendMessage | src/components/Documents.tsx:330-405 | blank input or a running request does nothing; otherwise the trimmed question is appended, the input cleared, and the answer or fallback appended unless the request failed |
| LocalEmbedding.SecondSendIsNoop | src/components/Documents.tsx:331-341 | sending again right after a send does nothing |
| LocalEmbedding.SentQuestionNotBlank | src/components/Documents.tsx:331-341 | every question in the transcript is non-blank |
| DocumentManager.ToggleFormAsWritten | src/DocumentManager.tsx:272 | as written, the header button flips the request flag |
| DocumentManager.OpeningFormDisablesSubmit | src/DocumentManager.tsx:349-351 | as written, opening the form disables its own submit button |
| DocumentManager.ToggleForm | src/DocumentManager.tsx:272 | as intended, the header button shows or hides the form and keeps the request flag |
| DocumentManager.ToggleKeepsSubmit | src/DocumentManager.tsx:349-351 | with the intended toggle, opening or closing the form never changes whether the document can be submitted |
| DocumentManager.CreateDocument | src/DocumentManager.tsx:40-64 | blank fields are refused; otherwise the trimmed name and content are uploaded with the chosen type, and success clears the form |
| DocumentManager.CreatedTextsAreTrimmed | src/DocumentManager.tsx:40-64 | a created document's name and content are non-empty and trimmed, and creating again from them gives the same texts |
| DocumentManager.CheckFile | src/DocumentManager.tsx:73-89 | a file passes exactly when its type is one of the four and its size is at most 10 MiB; a wrong type is reported before the size |
| DocumentManager.StripExtension | src/DocumentManager.tsx:95 | the result is a prefix of the name (the two lemmas below say which prefix) |
| DocumentManager.StripExtensionOf | src/DocumentManager.tsx:95 | `base.ext` becomes `base` for a plain non-empty `ext` |
| DocumentManager.StripExtensionKeeps | src/DocumentManager.tsx:95 | a name without a dot, or ending in a dot, is kept whole |
| DocumentManager.InferType | src/DocumentManager.tsx:130-145 | policy exactly when the lower-cased name mentions a policy; procedure exactly when it does not but mentions a procedure or process; evidence only for an evidence, audit or compliance keyword; other exactly when no keyword occurs |
| DocumentManager.InferTypeIgnoresCase | src/DocumentManager.tsx:130-145 | the guess does not depend on letter case |
| DocumentManager.FileContent | src/DocumentManager.tsx:98-127 | plain text files send their text; other files send a placeholder description |
| DocumentManager.UploadFile | src/DocumentManager.tsx:66-165 | refused files change nothing; otherwise the document is uploaded under the name without its extension, with the guessed type |
| DocumentManager.UploadedUnderBaseName | src/DocumentManager.tsx:95-145 | an accepted `base.ext` is stored under `base` with the type guessed from `base` |
| DocumentManager.DeleteWithConfirm | src/DocumentManager.tsx:167-182 | nothing happens unless the user confirms; a failed delete changes nothing |
| DocumentManager.ConfirmedDeleteRemoves | src/DocumentManager.tsx:167-182 | a confirmed delete removes the document and its chunks |
| DocumentUpload.SelectFile | src/components/DocumentUpload.tsx:28-44 | a PDF becomes the selection and proposes its name; any other file is refused and the state is kept |
| DocumentUpload.UploadPdf | src/components/DocumentUpload.tsx:69-98 | a selection is needed; the typed name is used, or the proposed one when the field is empty; success resets the card, and failure keeps it with the busy flag lowered |
| DocumentUpload.UploadText | src/components/DocumentUpload.tsx:100-122 | blank fields are refused; otherwise the name and content are sent as typed; success clears the fields, and either outcome lowers the busy flag |
| DocumentUpload.TextKeptAsTyped | src/components/DocumentUpload.tsx:100-122 | surrounding whitespace is stored, unlike in the document manager |
| DocumentUpload.SuffixIsFirstPdf | src/components/DocumentUpload.tsx:36 | in `base.pdf`, when `base` has no ".pdf", the first ".pdf" is the suffix |
| DocumentUpload.ProposedNameIsBase | src/components/DocumentUpload.tsx:36 | for such a name the proposed name and the document manager's extension stripping both give `base` |
| DocumentUpload.SelectedPdfStoredAsBase | src/components/DocumentUpload.tsx:28-98 | choosing `base.pdf` and uploading with the proposed name stores `base` |
| DocumentUpload.CallUpload | convex/documents.ts:6-12 | the argument check refuses any argument the validator does not list |
| DocumentUpload.AddSampleAsWritten | src/components/DocumentUpload.tsx:331-342 | as written, the whole sample object is sent |
| DocumentUpload.SamplesRejectedAsWritten | src/components/DocumentUpload.tsx:124-342 | as written, every sample is refused |
| DocumentUpload.AddSample | src/components/DocumentUpload.tsx:331-342 | as intended, only the upload's own fields are sent |
| DocumentUpload.SampleAdded | src/components/DocumentUpload.tsx:124-342 | with only its own fields sent, each sample is stored under its name and type |
| ModelSettings.ErrorNotice | src/AIModelSettings.tsx:86-101 | a message mentioning "Cannot connect to Ollama" gets the cannot-connect notice; otherwise one mentioning "ECONNREFUSED" or "fetch" gets the connection-failed notice; any other message is shown after "Failed to connect to Ollama: " |
| ModelSettings.LoadModels | src/AIModelSettings.tsx:44-105 | a non-empty list replaces the models and keeps the selection when it is listed, else selects the first; an empty list or a failure empties the available models, keeps every other setting, and reports why |
| ModelSettings.LoadIdempotent | src/AIModelSettings.tsx:44-105 | loading the same list again changes nothing more |
| ModelSettings.ToggleModel | src/AIModelSettings.tsx:121-131 | local mode selects the first known model or "llama3.2:latest"; cloud mode selects "gpt-4.1-nano" |
| ModelSettings.PickModel | src/AIModelSettings.tsx:286-291 | clicking a card selects that model and nothing else |
| ModelSettings.LocalSwitchSelectsListed | src/AIModelSettings.tsx:44-131 | switching to local and loading a non-empty list selects a listed model and shows the dialog as connected |
| ModelSettings.CloudSettingsEmbedWithDefault | src/components/Documents.tsx:124-128 | cloud settings make the documents page embed with the default embedding model |
| ModelSettings.LoadedSettingsEmbed | src/components/Documents.tsx:124-128 | after a local load the documents page embeds with the selected model exactly when its name contains "embed" |
| Dashboard.DomainOptions | src/Dashboard.tsx:62 | "all" first, then one entry per key of `byDomain` |
| Dashboard.DomainOptionsAreDomains | src/Dashboard.tsx:62 | the selector lists "all" and then each domain of the controls exactly once, in order of first appearance |
| Dashboard.FilterControls | src/Dashboard.tsx:64-72 | the shown cards are exactly the controls of the selected domain that match the search, in query order |
| Dashboard.EmptySearchMatches | src/Dashboard.tsx:67-70 | every control matches the empty search |
| Dashboard.UnfilteredShowsAll | src/Dashboard.tsx:64-72 | with "all" and no search every control is shown |
| Dashboard.DomainChoiceMatchesServer | src/Dashboard.tsx:64-72 | choosing a domain with no search shows what the server's domain query returns |
| Dashboard.RoundPercent | src/Dashboard.tsx:74-76 | the exact `Math.round` of the percentage, with halves rounding up, between 0 and 100 |
| Dashboard.DashboardCompletion | src/Dashboard.tsx:74-76 | the header figure is undefined (`NaN`) when there are no controls |
| Dashboard.OverviewCompletion | src/StatsOverview.tsx:27-30 | the statistics card shows 0 when there are no controls |
| Dashboard.RoundPercentRange | src/Dashboard.tsx:74-76 | 100 is shown exactly when at most half a percent is missing, and 0 exactly when less than half a percent is done |
| Dashboard.CompletionBounds | src/Dashboard.tsx:74-76 | for real statistics the figure lies in 0..100, reads 100 when everything is done and 0 when nothing is |
| Dashboard.InitializeFiresOnce | src/Dashboard.tsx:42-52 | when the effect fires, seeding succeeds and the reloaded list no longer triggers it |
| Dashboard.Render | src/Dashboard.tsx:54-60 | a spinner until the user, the controls and the statistics have loaded |
| Configuration.DomainTabs | src/Configuration.tsx:37-40 | "all", then each domain once, in order of first appearance |
| Configuration.TabsMatchDashboard | src/Configuration.tsx:37-40 | the configuration tabs are the dashboard's domain options |
| Configuration.VisibleControls | src/Configuration.tsx:41-44 | "all" shows every control; a domain shows exactly its controls |
| Configuration.VisibleMatchesDashboard | src/Configuration.tsx:41-44 | a tab shows what the dashboard shows for that domain with no search |
| Configuration.ToggleExpanded | src/Configuration.tsx:218-222 | the button opens a card, or closes it when it is the open one |
| Configuration.ToggleTwice | src/Configuration.tsx:218-222 | pressing the same button twice restores the card |
| Configuration.EditStart | src/Configuration.tsx:46-54 | the form is filled from the control, with blank notes |
| Configuration.Cancel | src/Configuration.tsx:73-81 | editing ends and the form is cleared |
| Configuration.Save | src/Configuration.tsx:56-71 | all four fields are sent; success ends editing, failure changes nothing |
| Configuration.UntouchedSaveMarksRevised | src/Configuration.tsx:46-71 | saving an untouched form keeps the texts, marks the control revised with empty notes, and closes the form |
| Configuration.ClearedTitleKept | convex/controls.ts:307-309 | clearing a field in the form does not clear it on the control |
| Configuration.FailedSaveKeepsEditing | src/Configuration.tsx:56-71 | a signed-out save, or a save for a missing control, leaves the page and the data as they were |
| Readiness.LevelOf | src/ReadinessSummary.tsx:53-59 | Excellent at 90 or more, Good at 75, Fair at 50, otherwise Needs Improvement; `NaN` needs improvement |
| Readiness.LevelMonotone | src/ReadinessSummary.tsx:53-59 | a higher percentage never shows a lower level |
| Readiness.LevelExtremes | src/ReadinessSummary.tsx:49-59 | everything done is rated excellent; nothing done needs improvement |
| Readiness.SeededNeedsImprovement | src/ReadinessSummary.tsx:49-59 | a freshly seeded organisation needs improvement |
| Readiness.ShowRecommendations | src/ReadinessSummary.tsx:139-155 | a stored list is shown whole, numbered from 1 (an empty list shows nothing); the placeholder appears exactly when the list is absent |
| Readiness.ShowPriority | src/ReadinessSummary.tsx:165-166 | never empty: the stored text when it is non-empty, the fixed advice otherwise |
| Readiness.StoredAnalysisShowsOwnText | src/ReadinessSummary.tsx:139-166 | an analysis the action stored always shows its own list and priority text |
| Readiness.StartGenerate | src/ReadinessSummary.tsx:27-39 | a press while a request runs is ignored; otherwise the flag is raised and the mutation called |
| Readiness.OneRequestAtATime | src/ReadinessSummary.tsx:27-30 | the first press asks for the default chat model, and a second press while it runs sends nothing |
| Readiness.StoredAnalysisStopsEffect | src/ReadinessSummary.tsx:21-25 | once an analysis is stored, the effect stops asking |

## Left out

- HTTP requests, model servers, `localStorage`, `confirm`, timers, toasts, console output and progress indicators. Replies are oracle parameters and confirmations are booleans. Toast texts, including the success message with its model count, are not modelled.
- Prompt texts, date formatting, `toFixed` and the wording of placeholder descriptions. They are free text and no property depends on them.
- `JSON.parse` and `response.json()`: the parsed value is an oracle.
- `getControlAuditHistory`: it reads the same untagged entries that `AuditLogs.ControlFilterFindsNothing` covers. It is a plain index read.
- `uploadDocumentFromUrl` and its generated demo content; `updateDocumentFile`; `getDocumentInternal`; `getDocumentContent`; `getAllEmbeddings`. They are fetch-and-store or plain reads outside the document life cycle modelled here.
- `queryDocuments`: it always throws, because the server-side search is disabled.
- The cosine similarity helper: it works on floating point, and the search scores every hit 0.8 instead.
- `handleUploadDemoDocument` and `handleUploadAllDemoDocuments` in the documents page: they call `uploadDocumentFromUrl`.
- The documents page's delete handler: it is the same confirm-then-delete as `DocumentManager.DeleteWithConfirm`.
- The manager's status badge: it is the same four-way choice (processing, failed, ready, no embeddings) as `LocalEmbedding.EmbeddingBadge`.
- The model settings' save handler: it only writes `localStorage` and calls back.
- PDF text extraction: the extracted text is a parameter.
- Text is ASCII. `trim` and `toLowerCase` are modelled on ASCII whitespace and letters, and there is no Unicode case folding.
- `Object.keys` on `byDomain` is modelled in insertion order. JavaScript lists integer-like keys first, and no domain name is integer-like.
- Dashboard.RoundPercent: computed exactly, not in floating point, so a ratio that floating point rounds differently at an exact half is not modelled.
- Configuration: the page calls its state hooks after an early return. React would fail on the render that crosses that return; the model treats the page state as always present.
- ModelSettings.ErrorNotice: the "HTTP <status>" message is not formatted; only the choice between the notices is modelled.
- LocalEmbedding.StoreChunks: a store throws only when the caller is signed out; other store failures (the network, a document deleted during the run) are not modelled.

## Findings

| source | as written | input that shows it | evidently intended | confidence | as-written member | corrected member |
|---|---|---|---|---|---|---|
| convex/auditLogs.ts:104 with convex/controls.ts:252-260 and 296-304 | `uniqueControls` counts distinct `controlId` values, but no mutation ever writes `controlId`; the control is recorded as `entityId` | status updates of two different controls: the counter reads 1, and the per-control log query finds nothing | count the distinct controls the entries are about | not executed; high | AuditLogs.UniqueControlsAsWritten | AuditLogs.TwoControlsCounted |
| src/DocumentManager.tsx:272 with 349-351 | the header's "Create Document" button toggles `isCreating`, the flag that also disables the submit button while a request runs | press the header button, type a name and content: the submit button stays disabled and reads "Creating..." | the header button toggles the form's visibility only | not executed; medium | DocumentManager.OpeningFormDisablesSubmit | DocumentManager.ToggleKeepsSubmit |
| src/components/DocumentUpload.tsx:331-342 with convex/documents.ts:6-12 | `addSampleDocument` passes the whole sample, including `isCreativeCommons` and `source`, and the server's validator refuses unknown arguments | any of the four samples | send only the name, content and type | not executed; high | DocumentUpload.SamplesRejectedAsWritten | DocumentUpload.SampleAdded |
