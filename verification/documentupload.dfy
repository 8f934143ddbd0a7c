/** The upload card (src/components/DocumentUpload.tsx): choosing and
    uploading a PDF, uploading typed text, and adding the built-in sample
    documents. */
module DocumentUpload {
  import opened Wrappers
  import opened Text
  import opened Schema
  import opened Documents
  import DocumentManager

  const PdfType: string := "application/pdf"
  const PdfSuffix: string := ".pdf"
  const SelectPdf: string := "Please select a PDF file"
  const MissingFields: string := "Please fill in both name and content fields"

  /** The card's state: the request flag, the shared form and the chosen PDF. */
  datatype UploadState = UploadState(uploading: bool, name: string, content: string, docType: DocType,
                                     selected: Option<DocumentManager.FileInfo>)

  const Initial: UploadState := UploadState(false, "", "", Other, None)

  /** The name proposed for a chosen file: `name.replace(".pdf", "")`, which
      removes the first ".pdf" wherever it is. */
  function ProposedName(fileName: string): string {
    ReplaceFirst(fileName, PdfSuffix, "")
  }

  /** `handleFileSelect`: a PDF becomes the selection and proposes its name;
      any other file is refused and the earlier selection and form stay. The
      second component is the error shown, if any. */
  function SelectFile(s: UploadState, f: DocumentManager.FileInfo): (r: (UploadState, Option<string>))
    ensures f.mime == PdfType ==>
      r == (s.(selected := Some(f), name := ProposedName(f.name)), None)
    ensures f.mime != PdfType ==> r == (s, Some(SelectPdf))
  {
    if f.mime == PdfType then (s.(selected := Some(f), name := ProposedName(f.name)), None)
    else (s, Some(SelectPdf))
  }

  /** `handleFileUpload`: needs a selection; the document takes the typed
      name, or the proposed one when the field is empty, the placeholder text
      standing for the extracted content (its wording and size figure are not
      modelled), and the chosen type. Success clears the card; a started
      upload always ends with the busy flag lowered. */
  function UploadPdf(s: UploadState, db: Store, userId: Option<string>, placeholder: string, now: int)
    : (r: (UploadState, Store, Option<string>))
    ensures s.selected.None? ==> r == (s, db, Some(SelectPdf))
    ensures s.selected.Some? ==>
      var u := UploadDocument(db, userId, OrDefault(Some(s.name), ProposedName(s.selected.value.name)),
                              placeholder, s.docType, None, now);
      (u.Ok? ==> r == (Initial, u.value, None))
      && (u.Err? ==> r.0 == s.(uploading := false) && r.1 == db && r.2.Some?)
  {
    match s.selected
    case None => (s, db, Some(SelectPdf))
    case Some(f) =>
      match UploadDocument(db, userId, OrDefault(Some(s.name), ProposedName(f.name)), placeholder, s.docType, None, now)
      case Ok(after) => (Initial, after, None)
      case Err(_) => (s.(uploading := false), db, Some("Failed to upload PDF file"))
  }

  /** `handleTextUpload`: blank fields are refused, but the name and content
      are sent as typed, surrounding whitespace included; a started upload
      always ends with the busy flag lowered. */
  function UploadText(s: UploadState, db: Store, userId: Option<string>, now: int)
    : (r: (UploadState, Store, Option<string>))
    ensures Trim(s.name) == "" || Trim(s.content) == "" ==> r == (s, db, Some(MissingFields))
    ensures Trim(s.name) != "" && Trim(s.content) != "" ==>
      var u := UploadDocument(db, userId, s.name, s.content, s.docType, None, now);
      (u.Ok? ==> r == (s.(uploading := false, name := "", content := "", docType := Other), u.value, None))
      && (u.Err? ==> r.0 == s.(uploading := false) && r.1 == db && r.2.Some?)
  {
    if Trim(s.name) == "" || Trim(s.content) == "" then (s, db, Some(MissingFields))
    else match UploadDocument(db, userId, s.name, s.content, s.docType, None, now)
      case Ok(after) => (s.(uploading := false, name := "", content := "", docType := Other), after, None)
      case Err(_) => (s.(uploading := false), db, Some("Failed to upload document"))
  }

  /** Unlike the document manager, this card stores typed text untrimmed. */
  lemma TextKeptAsTyped(s: UploadState, db: Store, userId: string, now: int)
    requires Trim(s.name) != "" && Trim(s.content) != ""
    ensures var d := UploadText(s, db, Some(userId), now).1.documents[|db.documents|];
      d.name == s.name && d.content == Some(s.content)
  {
  }

  /** In `base.pdf`, when `base` has no ".pdf" of its own, the first ".pdf"
      is the suffix: no occurrence can straddle the final dot. */
  lemma SuffixIsFirstPdf(base: string)
    requires !Includes(base, PdfSuffix)
    ensures IndexOf(base + PdfSuffix, PdfSuffix) == Some(|base|)
  {
    var hay := base + PdfSuffix;
    assert OccursAt(hay, PdfSuffix, |base|);
    forall j | 0 <= j < |base|
      ensures !OccursAt(hay, PdfSuffix, j)
    {
      PdfNotBefore(base, j);
    }
  }

  /** No ".pdf" starts inside `base` in `base.pdf` when `base` holds none. */
  lemma PdfNotBefore(base: string, j: int)
    requires !Includes(base, PdfSuffix)
    requires 0 <= j < |base|
    ensures !OccursAt(base + PdfSuffix, PdfSuffix, j)
  {
    if j + 4 <= |base| {
      OccursInFront(base, PdfSuffix, PdfSuffix, j);
    } else {
      var w := (base + PdfSuffix)[j..j + 4];
      assert w[|base| - j] == '.';
      assert PdfSuffix[|base| - j] != '.';
    }
  }

  /** For an ordinary `base.pdf` the proposed name and the document manager's
      extension stripping agree: both give `base`. */
  lemma ProposedNameIsBase(base: string)
    requires !Includes(base, PdfSuffix)
    ensures ProposedName(base + PdfSuffix) == base
    ensures DocumentManager.StripExtension(base + PdfSuffix) == base
  {
    SuffixIsFirstPdf(base);
    var hay := base + PdfSuffix;
    assert hay[..|base|] == base && hay[|base| + 4..] == [];
    assert base + PdfSuffix == base + "." + "pdf";
    DocumentManager.StripExtensionOf(base, "pdf");
  }

  /** Choosing `base.pdf` and uploading with the proposed name stores the
      document as `base`. */
  lemma SelectedPdfStoredAsBase(s: UploadState, db: Store, userId: string, base: string, size: nat,
                                placeholder: string, now: int)
    requires !Includes(base, PdfSuffix) && base != ""
    ensures var chosen := SelectFile(s, DocumentManager.FileInfo(base + PdfSuffix, PdfType, size)).0;
      var r := UploadPdf(chosen, db, Some(userId), placeholder, now);
      r.2.None? && r.0 == Initial && r.1.documents[|db.documents|].name == base
  {
    ProposedNameIsBase(base);
  }

  // ---------------------------------------------------------- sample documents

  /** The argument names `uploadDocument` declares; the server refuses a call
      with any other argument. */
  const UploadArgNames: set<string> := {"name", "content", "type", "organizationId"}

  /** A built-in sample: its text stands as a parameter, the other fields
      are the source's. */
  datatype Sample = Sample(name: string, docType: DocType, isCreativeCommons: bool, source: Option<string>)

  const Samples: seq<Sample> := [
    Sample("CMMC Level 1 Scoping Guide v2", Other, true,
           Some("https://dodcio.defense.gov/Portals/0/Documents/CMMC/ScopingGuideL1v2.pdf")),
    Sample("CMMC Level 1 Assessment Guide v2", Procedure, true,
           Some("https://dodcio.defense.gov/Portals/0/Documents/CMMC/AssessmentGuideL1v2.pdf")),
    Sample("CMMC Model Overview v2", Policy, true,
           Some("https://dodcio.defense.gov/Portals/0/Documents/CMMC/ModelOverviewv2.pdf")),
    Sample("Access Control Implementation Guide", Procedure, false, None)
  ]

  /** The argument names of a sample passed whole. */
  function SampleArgs(d: Sample): (names: set<string>)
    ensures "isCreativeCommons" in names && "name" in names
  {
    {"name", "content", "type", "isCreativeCommons"} + (if d.source.Some? then {"source"} else {})
  }

  /** The server's argument check followed by `uploadDocument`. */
  function CallUpload(db: Store, userId: Option<string>, args: set<string>, name: string, content: string,
                      docType: DocType, now: int): (r: Result<Store>)
    ensures !(args <= UploadArgNames) ==> r.Err?
    ensures args <= UploadArgNames ==> r == UploadDocument(db, userId, name, content, docType, None, now)
  {
    if !(args <= UploadArgNames) then Err("ArgumentValidationError")
    else UploadDocument(db, userId, name, content, docType, None, now)
  }

  /** `addSampleDocument` as written: the whole sample object is sent. */
  function AddSampleAsWritten(db: Store, userId: Option<string>, d: Sample, content: string, now: int)
    : (r: (Store, Option<string>))
    ensures CallUpload(db, userId, SampleArgs(d), d.name, content, d.docType, now).Err? ==> r.0 == db && r.1.Some?
  {
    match CallUpload(db, userId, SampleArgs(d), d.name, content, d.docType, now)
    case Ok(after) => (after, None)
    case Err(_) => (db, Some("Failed to add sample document"))
  }

  /** As written, no sample can be added: every one carries the extra
      `isCreativeCommons` argument. */
  lemma SamplesRejectedAsWritten(db: Store, userId: string, k: nat, content: string, now: int)
    requires k < |Samples|
    ensures AddSampleAsWritten(db, Some(userId), Samples[k], content, now) == (db, Some("Failed to add sample document"))
  {
    assert "isCreativeCommons" !in UploadArgNames;
  }

  /** `addSampleDocument` as intended: only the upload's own fields are sent. */
  function AddSample(db: Store, userId: Option<string>, d: Sample, content: string, now: int)
    : (r: (Store, Option<string>))
    ensures var u := UploadDocument(db, userId, d.name, content, d.docType, None, now);
      (u.Ok? ==> r == (u.value, None)) && (u.Err? ==> r.0 == db && r.1.Some?)
  {
    match CallUpload(db, userId, {"name", "content", "type"}, d.name, content, d.docType, now)
    case Ok(after) => (after, None)
    case Err(_) => (db, Some("Failed to add sample document"))
  }

  /** With only its own fields sent, each sample is stored under its name and
      type for a signed-in user. */
  lemma SampleAdded(db: Store, userId: string, k: nat, content: string, now: int)
    requires k < |Samples|
    ensures var r := AddSample(db, Some(userId), Samples[k], content, now);
      r.1.None? && |r.0.documents| == |db.documents| + 1
      && r.0.documents[|db.documents|].name == Samples[k].name
      && r.0.documents[|db.documents|].docType == Some(Samples[k].docType)
  {
  }
}
