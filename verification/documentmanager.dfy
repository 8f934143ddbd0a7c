/** The document manager dialog (src/DocumentManager.tsx): creating a text
    document from the form, uploading a file with its type checks, extension
    stripping and type guess, and deleting after confirmation. */
module DocumentManager {
  import opened Wrappers
  import opened Text
  import opened Seqs
  import opened Schema
  import opened Documents

  // ------------------------------------------------------------- the form

  /** The dialog state. `busy` is the source's one flag, set while a create
      request runs. `open` has no counterpart in the source, which always
      renders the text form: it is the form toggle the header's "Create
      Document" button evidently intends, inferred from that button flipping
      `busy` instead (see `ToggleFormAsWritten`). */
  datatype ManagerState = ManagerState(open: bool, busy: bool, uploading: bool,
                                       name: string, content: string, docType: DocType)

  const Initial: ManagerState := ManagerState(false, false, false, "", "", Other)

  const MissingFields: string := "Please provide both name and content for the document"

  /** The form's submit button is enabled. */
  predicate SubmitEnabled(s: ManagerState) {
    !s.busy && Trim(s.name) != "" && Trim(s.content) != ""
  }

  /** The header's "Create Document" button as written: it flips the same
      flag that marks a create request as running. */
  function ToggleFormAsWritten(s: ManagerState): (r: ManagerState)
    ensures r.busy != s.busy && r.name == s.name && r.content == s.content
  {
    s.(busy := !s.busy)
  }

  /** As written, opening the form disables its own submit button (and labels
      it "Creating..."), whatever has been typed. */
  lemma OpeningFormDisablesSubmit(s: ManagerState)
    requires !s.busy
    ensures !SubmitEnabled(ToggleFormAsWritten(s))
  {
  }

  /** The header button as intended: it shows or hides the form and leaves the
      request flag alone. */
  function ToggleForm(s: ManagerState): (r: ManagerState)
    ensures r.open != s.open && r.busy == s.busy && r.name == s.name && r.content == s.content
  {
    s.(open := !s.open)
  }

  /** With the intended toggle, opening or closing the form never changes
      whether the typed document can be submitted. */
  lemma ToggleKeepsSubmit(s: ManagerState)
    ensures SubmitEnabled(ToggleForm(s)) == SubmitEnabled(s)
    ensures ToggleForm(ToggleForm(s)) == s
  {
  }

  /** `handleCreateDocument`: refuses blank fields, otherwise uploads the
      trimmed name and content with the chosen type; success clears the form,
      failure keeps it. The third component is the error shown, if any. */
  function CreateDocument(s: ManagerState, db: Store, userId: Option<string>, now: int)
    : (r: (ManagerState, Store, Option<string>))
    ensures Trim(s.name) == "" || Trim(s.content) == "" ==> r == (s, db, Some(MissingFields))
    ensures Trim(s.name) != "" && Trim(s.content) != "" ==>
      var u := UploadDocument(db, userId, Trim(s.name), Trim(s.content), s.docType, None, now);
      (u.Ok? ==> r == (s.(busy := false, name := "", content := "", docType := Other), u.value, None))
      && (u.Err? ==> r.0 == s.(busy := false) && r.1 == db && r.2.Some?)
  {
    if Trim(s.name) == "" || Trim(s.content) == "" then (s, db, Some(MissingFields))
    else
      match UploadDocument(db, userId, Trim(s.name), Trim(s.content), s.docType, None, now)
      case Ok(after) => (s.(busy := false, name := "", content := "", docType := Other), after, None)
      case Err(_) => (s.(busy := false), db, Some("Failed to create document"))
  }

  /** A created document carries its name and content without surrounding
      whitespace, non-empty, and creating it again from the stored values
      would store the same texts. */
  lemma CreatedTextsAreTrimmed(s: ManagerState, db: Store, userId: string, now: int)
    requires Trim(s.name) != "" && Trim(s.content) != ""
    ensures var r := CreateDocument(s, db, Some(userId), now);
      var d := r.1.documents[|db.documents|];
      |r.1.documents| == |db.documents| + 1
      && d.name != "" && Trim(d.name) == d.name
      && d.content.Some? && d.content.value != "" && Trim(d.content.value) == d.content.value
      && r.0.name == "" && !SubmitEnabled(r.0)
  {
    TrimIdempotent(s.name);
    TrimIdempotent(s.content);
  }

  // ------------------------------------------------------------- file upload

  /** What the file input reports about the chosen file. */
  datatype FileInfo = FileInfo(name: string, mime: string, size: nat)

  const AllowedTypes: seq<string> := ["application/pdf", "text/plain", "application/msword",
    "application/vnd.openxmlformats-officedocument.wordprocessingml.document"]

  /** Ten mebibytes. */
  const MaxFileSize: nat := 10 * 1024 * 1024

  const WrongType: string := "Please upload a PDF, TXT, DOC, or DOCX file"
  const TooLarge: string := "File size must be less than 10MB"

  /** The type check comes before the size check; a file of exactly the limit
      passes. */
  function CheckFile(f: FileInfo): (r: Option<string>)
    ensures r.None? <==> f.mime in AllowedTypes && f.size <= MaxFileSize
    ensures f.mime !in AllowedTypes ==> r == Some(WrongType)
    ensures f.mime in AllowedTypes && f.size > MaxFileSize ==> r == Some(TooLarge)
  {
    if f.mime !in AllowedTypes then Some(WrongType)
    else if f.size > MaxFileSize then Some(TooLarge)
    else None
  }

  /** `name.replace(/\.[^/.]+$/, "")`: drops a final dot and the non-empty
      tail after it when that tail has no slash (and, being final, no dot). */
  function StripExtension(name: string): (r: string)
    ensures |r| <= |name| && r == name[..|r|]
  {
    match LastIndexOfChar(name, '.')
    case None => name
    case Some(i) => if i + 1 < |name| && '/' !in name[i + 1..] then name[..i] else name
  }

  /** The extension of `base.ext` is removed when `ext` is a plain non-empty
      suffix. */
  lemma StripExtensionOf(base: string, ext: string)
    requires ext != [] && '.' !in ext && '/' !in ext
    ensures StripExtension(base + "." + ext) == base
  {
    var n := base + "." + ext;
    assert n[|base|] == '.';
    assert forall k :: |base| < k < |n| ==> n[k] == ext[k - |base| - 1];
    assert LastIndexOfChar(n, '.') == Some(|base|);
    assert n[|base| + 1..] == ext;
  }

  /** A name without a dot, or ending in a dot, is kept whole. */
  lemma StripExtensionKeeps(name: string)
    requires '.' !in name || (name != [] && name[|name| - 1] == '.')
    ensures StripExtension(name) == name
  {
  }

  /** The type guessed from the extension-less file name, case-insensitively;
      earlier keywords win. */
  function InferType(fileName: string): (t: DocType)
    ensures var l := LowerStr(fileName);
      (t == Policy <==> Includes(l, "policy") || Includes(l, "policies"))
      && (t == Procedure <==> !(Includes(l, "policy") || Includes(l, "policies"))
                              && (Includes(l, "procedure") || Includes(l, "process")))
      && (t == Evidence ==> Includes(l, "evidence") || Includes(l, "audit") || Includes(l, "compliance"))
      && (t == Other <==> !Includes(l, "policy") && !Includes(l, "policies") && !Includes(l, "procedure")
                          && !Includes(l, "process") && !Includes(l, "evidence") && !Includes(l, "audit")
                          && !Includes(l, "compliance"))
  {
    var l := LowerStr(fileName);
    if Includes(l, "policy") || Includes(l, "policies") then Policy
    else if Includes(l, "procedure") || Includes(l, "process") then Procedure
    else if Includes(l, "evidence") || Includes(l, "audit") || Includes(l, "compliance") then Evidence
    else Other
  }

  /** The guess does not depend on letter case. */
  lemma InferTypeIgnoresCase(fileName: string)
    ensures InferType(LowerStr(fileName)) == InferType(fileName)
  {
    LowerIdempotent(fileName);
  }

  /** The content sent for a file: the file's text for plain text, the
      placeholder description (its wording, size and date are not modelled)
      for PDF and Word files. */
  function FileContent(f: FileInfo, fileText: string, placeholder: string): (c: string)
    ensures f.mime == "text/plain" ==> c == fileText
    ensures f.mime != "text/plain" ==> c == placeholder
  {
    if f.mime == "text/plain" then fileText else placeholder
  }

  /** `handleFileUpload` for a chosen file: refused files change nothing;
      otherwise the document is uploaded under the extension-less name with
      the guessed type. The third component is the error shown, if any. */
  function UploadFile(s: ManagerState, db: Store, userId: Option<string>, f: FileInfo,
                      fileText: string, placeholder: string, now: int): (r: (ManagerState, Store, Option<string>))
    ensures CheckFile(f).Some? ==> r == (s, db, CheckFile(f))
    ensures CheckFile(f).None? ==>
      var u := UploadDocument(db, userId, StripExtension(f.name), FileContent(f, fileText, placeholder),
                              InferType(StripExtension(f.name)), None, now);
      r.0 == s.(uploading := false) && (u.Ok? <==> r.2.None?) && (u.Ok? ==> r.1 == u.value) && (u.Err? ==> r.1 == db)
  {
    if CheckFile(f).Some? then (s, db, CheckFile(f))
    else
      var name := StripExtension(f.name);
      match UploadDocument(db, userId, name, FileContent(f, fileText, placeholder), InferType(name), None, now)
      case Ok(after) => (s.(uploading := false), after, None)
      case Err(_) => (s.(uploading := false), db, Some("Failed to upload file"))
  }

  /** An accepted `base.ext` file is stored under `base` with the type guessed
      from `base`; the file's other fields are the upload's. */
  lemma UploadedUnderBaseName(s: ManagerState, db: Store, userId: string, base: string, ext: string,
                              mime: string, size: nat, fileText: string, placeholder: string, now: int)
    requires ext != [] && '.' !in ext && '/' !in ext
    requires mime in AllowedTypes && size <= MaxFileSize
    ensures var r := UploadFile(s, db, Some(userId), FileInfo(base + "." + ext, mime, size), fileText, placeholder, now);
      r.2.None? && |r.1.documents| == |db.documents| + 1
      && r.1.documents[|db.documents|].name == base
      && r.1.documents[|db.documents|].docType == Some(InferType(base))
  {
    StripExtensionOf(base, ext);
  }

  // ------------------------------------------------------------- deleting

  /** `handleDelete`: nothing happens unless the user confirms; a failed
      delete leaves the documents as they were. */
  function DeleteWithConfirm(db: Store, userId: Option<string>, documentId: nat, confirmed: bool)
    : (r: (Store, Option<string>))
    ensures !confirmed ==> r == (db, None)
    ensures confirmed && DeleteDocument(db, userId, documentId).Ok? ==> r == (DeleteDocument(db, userId, documentId).value, None)
    ensures confirmed && DeleteDocument(db, userId, documentId).Err? ==> r.0 == db && r.1.Some?
  {
    if !confirmed then (db, None)
    else match DeleteDocument(db, userId, documentId)
      case Ok(after) => (after, None)
      case Err(_) => (db, Some("Failed to delete document"))
  }

  /** A confirmed delete of a listed document removes it and its chunks. */
  lemma ConfirmedDeleteRemoves(db: Store, userId: string, documentId: nat)
    requires FindDocument(db.documents, documentId).Some?
    ensures var after := DeleteWithConfirm(db, Some(userId), documentId, true).0;
      FindDocument(after.documents, documentId).None? && EmbeddingsOf(after.embeddings, documentId) == []
  {
  }
}
