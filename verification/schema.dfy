/** The records and closed enumerations of the Convex schema. Optional fields
    are `Option`; Convex ids are natural numbers handed out in insertion order. */
module Schema {
  import opened Wrappers

  /** The organisation every query and mutation falls back to. */
  const DefaultOrg: string := "default_org"

  datatype DocType = Policy | Procedure | Evidence | Other

  /** `embeddingStatus` of a document. */
  datatype EmbeddingStatus = Pending | Processing | Completed | Failed

  datatype Document = Document(
    id: nat,
    name: string,
    content: Option<string>,
    organizationId: Option<string>,
    docType: Option<DocType>,
    uploadedAt: int,
    uploadedBy: Option<string>,
    hasEmbeddings: Option<bool>,
    embeddedAt: Option<int>,
    embeddingStatus: Option<EmbeddingStatus>)

  /** One stored chunk vector. Vector components are floating point numbers in
      the source; only the vector's length matters to the logic modelled here. */
  datatype EmbeddingRecord = EmbeddingRecord(
    documentId: nat,
    chunkIndex: int,
    content: string,
    embedding: seq<real>,
    createdAt: int)

  /** `status` of a compliance control. */
  datatype ControlStatus = NotStarted | InProgress | Implemented | Verified

  /** The literal the source stores for each status. */
  function StatusName(s: ControlStatus): string {
    match s
    case NotStarted => "not_started"
    case InProgress => "in_progress"
    case Implemented => "implemented"
    case Verified => "verified"
  }

  datatype Control = Control(
    id: nat,
    organizationId: Option<string>,
    controlId: string,
    domain: string,
    title: string,
    description: string,
    requirement: string,
    status: ControlStatus,
    implementationNotes: Option<string>,
    assignedTo: Option<string>,
    dueDate: Option<int>,
    lastUpdated: int,
    isRevised: Option<bool>,
    updatedBy: Option<string>,
    revisionDate: Option<int>,
    revisionNotes: Option<string>)

  /** One audit entry; `entityId` holds the id of the changed record, which the
      source stores as the id's string form. */
  datatype AuditLog = AuditLog(
    id: nat,
    organizationId: Option<string>,
    action: string,
    details: Option<string>,
    performedBy: Option<string>,
    timestamp: int,
    entityType: Option<string>,
    entityId: Option<nat>,
    controlId: Option<string>)

  datatype AiSummary = AiSummary(
    userId: string,
    summary: string,
    recommendations: Option<seq<string>>,
    priorityActions: Option<string>,
    analysisDate: int)
}
