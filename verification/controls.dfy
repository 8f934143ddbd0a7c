/** The compliance controls: seeding an organisation with the CMMC Level 1
    baseline, listing and filtering, the two updating mutations with their
    audit entries, and the compliance statistics. */
module Controls {
  import opened Wrappers
  import opened Text
  import opened Seqs
  import opened Schema

  // ------------------------------------------------------------- baseline

  /** One baseline control as written into a fresh organisation. */
  datatype BaselineControl = BaselineControl(controlId: string, domain: string, title: string,
                                             description: string, requirement: string)

  const AccessControl: string := "Access Control"
  const IdentificationAuthentication: string := "Identification & Authentication"
  const MediaProtection: string := "Media Protection"
  const PhysicalProtection: string := "Physical Protection"
  const CommunicationsProtection: string := "System & Communications Protection"
  const InformationIntegrity: string := "System & Information Integrity"

  /** The six domains, in the order the baseline introduces them. */
  const BaselineDomains: seq<string> := [AccessControl, IdentificationAuthentication, MediaProtection,
                                         PhysicalProtection, CommunicationsProtection, InformationIntegrity]

  const Baseline: seq<BaselineControl> := [
    BaselineControl("AC.L1-3.1.1", AccessControl, "Authorized Access Control",
      "Limit information system access to authorized users, processes acting on behalf of authorized users, or devices (including other information systems).",
      "Implement access controls to limit system access to authorized users only."),
    BaselineControl("AC.L1-3.1.2", AccessControl, "Transaction & Function Control",
      "Limit information system access to the types of transactions and functions that authorized users are permitted to execute.",
      "Control user access to specific system functions and transactions based on user roles."),
    BaselineControl("AC.L1-3.1.20", AccessControl, "External System Connections",
      "Verify and control/limit connections to and use of external information systems.",
      "Monitor and control connections to external systems."),
    BaselineControl("AC.L1-3.1.22", AccessControl, "Publicly Accessible Content",
      "Control information posted or processed on publicly accessible information systems.",
      "Review and control information posted on public-facing systems."),
    BaselineControl("IA.L1-3.5.1", IdentificationAuthentication, "User Identification & Authentication",
      "Identify information system users, processes acting on behalf of users, or devices.",
      "Implement user identification and authentication mechanisms."),
    BaselineControl("IA.L1-3.5.2", IdentificationAuthentication, "Multi-factor Authentication",
      "Authenticate (or verify) the identities of those users, processes, or devices, as a prerequisite to allowing access to organizational information systems.",
      "Verify user identities before granting system access."),
    BaselineControl("MP.L1-3.8.1", MediaProtection, "Media Access Control",
      "Protect (i.e., physically control and securely store) information system media containing covered defense information, both paper and digital.",
      "Physically protect and securely store media containing CUI."),
    BaselineControl("MP.L1-3.8.2", MediaProtection, "Media Access Limitation",
      "Limit access to information on information system media to authorized users.",
      "Restrict media access to authorized personnel only."),
    BaselineControl("MP.L1-3.8.3", MediaProtection, "Media Sanitization",
      "Sanitize or destroy information system media containing covered defense information before disposal or release for reuse.",
      "Properly sanitize or destroy media before disposal or reuse."),
    BaselineControl("PE.L1-3.10.1", PhysicalProtection, "Physical Access Limits",
      "Limit physical access to organizational information systems, equipment, and the respective operating environments to authorized individuals.",
      "Control physical access to systems and facilities."),
    BaselineControl("PE.L1-3.10.3", PhysicalProtection, "Escort Visitors",
      "Escort visitors and monitor visitor activity.",
      "Escort and monitor all visitors in secure areas."),
    BaselineControl("PE.L1-3.10.4", PhysicalProtection, "Physical Access Logs",
      "Maintain audit logs of physical access.",
      "Log and review physical access to secure areas."),
    BaselineControl("PE.L1-3.10.5", PhysicalProtection, "Workstation Use Controls",
      "Control and manage physical access to information systems within organizational facilities.",
      "Control physical access to workstations and devices."),
    BaselineControl("SC.L1-3.13.1", CommunicationsProtection, "Boundary Protection",
      "Monitor, control, and protect organizational communications (i.e., information transmitted or received by organizational information systems) at the external boundaries and key internal boundaries of the information systems.",
      "Monitor and protect communications at system boundaries."),
    BaselineControl("SC.L1-3.13.5", CommunicationsProtection, "Public-Key Infrastructure",
      "Implement subnetworks for publicly accessible system components that are physically or logically separated from internal networks.",
      "Separate public-facing systems from internal networks."),
    BaselineControl("SI.L1-3.14.1", InformationIntegrity, "Flaw Remediation",
      "Identify, report, and correct information and information system flaws in a timely manner.",
      "Identify and remediate system flaws promptly."),
    BaselineControl("SI.L1-3.14.2", InformationIntegrity, "Malicious Code Protection",
      "Provide protection from malicious code at appropriate locations within organizational information systems.",
      "Implement malware protection across systems."),
    BaselineControl("SI.L1-3.14.4", InformationIntegrity, "Security Alerts & Advisories",
      "Update malicious code protection mechanisms when new releases are available in accordance with organizational configuration management policy and procedures.",
      "Keep security tools updated with latest signatures and patches.")
  ]

  /** The baseline has eighteen controls with distinct control ids, each in one
      of the six domains, and every domain has a control. */
  lemma BaselineShape()
    ensures |Baseline| == 18
    ensures forall k :: 0 <= k < |Baseline| ==> Baseline[k].domain in BaselineDomains
    ensures forall i, j :: 0 <= i < j < |Baseline| ==> Baseline[i].controlId != Baseline[j].controlId
    ensures forall d :: d in BaselineDomains ==> exists k :: 0 <= k < |Baseline| && Baseline[k].domain == d
  {
    BaselineIdsDistinct();
    BaselineCoversDomains();
  }

  lemma BaselineIdsDistinct()
    ensures forall i, j :: 0 <= i < j < |Baseline| ==> Baseline[i].controlId != Baseline[j].controlId
  {
    BaselineIds0();
    BaselineIds2();
    BaselineIds4();
    BaselineIds6();
    BaselineIds9();
    BaselineIds12();
    IdsDistinct(Baseline);
  }

  // The literal lookups are split in small groups: each lemma reads a few
  // positions of the baseline table.

  lemma BaselineIds0()
    ensures |Baseline| == 18
    ensures Baseline[0].controlId == "AC.L1-3.1.1" && Baseline[1].controlId == "AC.L1-3.1.2"
  {
  }

  lemma BaselineIds2()
    ensures |Baseline| == 18
    ensures Baseline[2].controlId == "AC.L1-3.1.20" && Baseline[3].controlId == "AC.L1-3.1.22"
  {
  }

  lemma BaselineIds4()
    ensures |Baseline| == 18
    ensures Baseline[4].controlId == "IA.L1-3.5.1" && Baseline[5].controlId == "IA.L1-3.5.2"
  {
  }

  lemma BaselineIds6()
    ensures |Baseline| == 18
    ensures Baseline[6].controlId == "MP.L1-3.8.1" && Baseline[7].controlId == "MP.L1-3.8.2"
    ensures Baseline[8].controlId == "MP.L1-3.8.3"
  {
  }

  lemma BaselineIds9()
    ensures |Baseline| == 18
    ensures Baseline[9].controlId == "PE.L1-3.10.1" && Baseline[10].controlId == "PE.L1-3.10.3"
    ensures Baseline[11].controlId == "PE.L1-3.10.4"
  {
  }

  lemma BaselineIds12()
    ensures |Baseline| == 18
    ensures Baseline[12].controlId == "PE.L1-3.10.5" && Baseline[13].controlId == "SC.L1-3.13.1"
    ensures Baseline[14].controlId == "SC.L1-3.13.5" && Baseline[15].controlId == "SI.L1-3.14.1"
    ensures Baseline[16].controlId == "SI.L1-3.14.2" && Baseline[17].controlId == "SI.L1-3.14.4"
  {
  }

  /** Eighteen controls carrying the baseline's control ids, in order, have distinct ids. */
  lemma IdsDistinct(bs: seq<BaselineControl>)
    requires |bs| == 18
    requires bs[0].controlId == "AC.L1-3.1.1" && bs[1].controlId == "AC.L1-3.1.2"
    requires bs[2].controlId == "AC.L1-3.1.20" && bs[3].controlId == "AC.L1-3.1.22"
    requires bs[4].controlId == "IA.L1-3.5.1" && bs[5].controlId == "IA.L1-3.5.2"
    requires bs[6].controlId == "MP.L1-3.8.1" && bs[7].controlId == "MP.L1-3.8.2"
    requires bs[8].controlId == "MP.L1-3.8.3" && bs[9].controlId == "PE.L1-3.10.1"
    requires bs[10].controlId == "PE.L1-3.10.3" && bs[11].controlId == "PE.L1-3.10.4"
    requires bs[12].controlId == "PE.L1-3.10.5" && bs[13].controlId == "SC.L1-3.13.1"
    requires bs[14].controlId == "SC.L1-3.13.5" && bs[15].controlId == "SI.L1-3.14.1"
    requires bs[16].controlId == "SI.L1-3.14.2" && bs[17].controlId == "SI.L1-3.14.4"
    ensures forall i, j :: 0 <= i < j < |bs| ==> bs[i].controlId != bs[j].controlId
  {
  }

  lemma BaselineCoversDomains()
    ensures forall d :: d in BaselineDomains ==> exists k :: 0 <= k < |Baseline| && Baseline[k].domain == d
  {
    DomainsCovered(Baseline);
  }

  /** A table whose controls 0, 4, 6, 9, 13 and 15 open the six domains covers them all. */
  lemma DomainsCovered(bs: seq<BaselineControl>)
    requires |bs| == 18
    requires bs[0].domain == AccessControl && bs[4].domain == IdentificationAuthentication
    requires bs[6].domain == MediaProtection && bs[9].domain == PhysicalProtection
    requires bs[13].domain == CommunicationsProtection && bs[15].domain == InformationIntegrity
    ensures forall d :: d in BaselineDomains ==> exists k :: 0 <= k < |bs| && bs[k].domain == d
  {
  }

  // ---------------------------------------------------------------- state

  /** The `controls` and `auditLogs` tables and the next unused id. */
  datatype ControlsDb = ControlsDb(controls: seq<Control>, auditLogs: seq<AuditLog>, nextId: nat)

  /** Ids are below the counter and distinct within each table. */
  predicate Valid(db: ControlsDb) {
    (forall k :: 0 <= k < |db.controls| ==> db.controls[k].id < db.nextId)
    && (forall i, j :: 0 <= i < j < |db.controls| ==> db.controls[i].id != db.controls[j].id)
    && (forall k :: 0 <= k < |db.auditLogs| ==> db.auditLogs[k].id < db.nextId)
    && (forall i, j :: 0 <= i < j < |db.auditLogs| ==> db.auditLogs[i].id != db.auditLogs[j].id)
  }

  /** The position of the control with id `id` (`ctx.db.get`). */
  function FindControl(cs: seq<Control>, id: nat): (r: Option<nat>)
    ensures r.Some? ==> r.value < |cs| && cs[r.value].id == id && forall k :: 0 <= k < r.value ==> cs[k].id != id
    ensures r.None? ==> forall k :: 0 <= k < |cs| ==> cs[k].id != id
  {
    if cs == [] then None
    else if cs[0].id == id then Some(0)
    else match FindControl(cs[1..], id)
      case None => None
      case Some(i) => Some(i + 1)
  }

  function InOrg(org: string): Control -> bool {
    (c: Control) => c.organizationId == Some(org)
  }

  function InDomain(domain: string): Control -> bool {
    (c: Control) => c.domain == domain
  }

  function InOrgDomain(org: string, domain: string): Control -> bool {
    (c: Control) => c.organizationId == Some(org) && c.domain == domain
  }

  /** The organisation's controls in table order. */
  function OrgControls(cs: seq<Control>, org: string): seq<Control> {
    Filter(cs, InOrg(org))
  }

  // ------------------------------------------------------------ seeding

  const AlreadyInitialised: string := "Controls already initialized"
  const Initialised: string := "Controls initialized successfully"

  function FromBaseline(b: BaselineControl, id: nat, org: string, userId: string, now: int): Control {
    Control(id, Some(org), b.controlId, b.domain, b.title, b.description, b.requirement, NotStarted,
            None, None, None, now, None, Some(userId), None, None)
  }

  /** The baseline instantiated for one organisation, with consecutive ids. */
  function Seed(firstId: nat, org: string, userId: string, now: int): (r: seq<Control>)
    ensures |r| == |Baseline|
    ensures forall k :: 0 <= k < |r| ==> r[k] == FromBaseline(Baseline[k], firstId + k, org, userId, now)
    ensures forall k :: 0 <= k < |r| ==> r[k].id == firstId + k
  {
    seq(|Baseline|, k requires 0 <= k < |Baseline| => FromBaseline(Baseline[k], firstId + k, org, userId, now))
  }

  /** `initializeControls`: for a signed-in caller, seeds the organisation
      (default "default_org") with the baseline unless it already has a
      control. */
  function InitializeControls(db: ControlsDb, userId: Option<string>, org: Option<string>, now: int)
    : (r: Result<(ControlsDb, string)>)
    ensures userId.None? <==> r.Err?
    ensures r.Ok? && OrgControls(db.controls, OrDefault(org, DefaultOrg)) != [] ==> r.value == (db, AlreadyInitialised)
    ensures r.Ok? && OrgControls(db.controls, OrDefault(org, DefaultOrg)) == [] ==>
      r.value.1 == Initialised && r.value.0.auditLogs == db.auditLogs
      && |r.value.0.controls| == |db.controls| + |Baseline| && r.value.0.controls[..|db.controls|] == db.controls
    ensures r.Ok? && Valid(db) ==> Valid(r.value.0)
  {
    if userId.None? then Err("Must be authenticated")
    else
      var orgId := OrDefault(org, DefaultOrg);
      if OrgControls(db.controls, orgId) != [] then Ok((db, AlreadyInitialised))
      else
        var seed := Seed(db.nextId, orgId, userId.value, now);
        var after := ControlsDb(db.controls + seed, db.auditLogs, db.nextId + |seed|);
        assert (db.controls + seed)[..|db.controls|] == db.controls;
        AppendNumberedKeepsValid(db, seed);
        Ok((after, Initialised))
  }

  /** Appending controls numbered on from the counter, and moving the counter
      past them, keeps the ids valid. */
  lemma AppendNumberedKeepsValid(db: ControlsDb, added: seq<Control>)
    requires forall k :: 0 <= k < |added| ==> added[k].id == db.nextId + k
    ensures Valid(db) ==> Valid(ControlsDb(db.controls + added, db.auditLogs, db.nextId + |added|))
  {
  }

  /** The seed belongs wholly to its organisation. */
  lemma SeedOrg(firstId: nat, org: string, userId: string, now: int, o: string)
    ensures Filter(Seed(firstId, org, userId, now), InOrg(o)) == if o == org then Seed(firstId, org, userId, now) else []
  {
    var seed := Seed(firstId, org, userId, now);
    if o == org {
      assert forall k :: 0 <= k < |seed| ==> InOrg(o)(seed[k]);
      FilterAll(seed, InOrg(o));
    } else {
      assert forall k :: 0 <= k < |seed| ==> !InOrg(o)(seed[k]);
      FilterCount(seed, InOrg(o));
    }
  }

  /** After a successful call the organisation holds exactly the baseline,
      in baseline order and not started, whoever asked. */
  lemma InitializedOrgIsBaseline(db: ControlsDb, userId: string, org: Option<string>, now: int)
    requires OrgControls(db.controls, OrDefault(org, DefaultOrg)) == []
    ensures var orgId := OrDefault(org, DefaultOrg);
      var mine := OrgControls(InitializeControls(db, Some(userId), org, now).value.0.controls, orgId);
      |mine| == |Baseline|
      && forall k :: 0 <= k < |Baseline| ==>
           mine[k].controlId == Baseline[k].controlId && mine[k].domain == Baseline[k].domain
           && mine[k].title == Baseline[k].title && mine[k].status == NotStarted && !IsRevised(mine[k])
  {
    var orgId := OrDefault(org, DefaultOrg);
    OrgOfInitialized(db, userId, org, now);
    SeedFields(db.nextId, orgId, userId, now);
  }

  /** Seeding an empty organisation leaves it holding exactly its seed. */
  lemma OrgOfInitialized(db: ControlsDb, userId: string, org: Option<string>, now: int)
    requires OrgControls(db.controls, OrDefault(org, DefaultOrg)) == []
    ensures OrgControls(InitializeControls(db, Some(userId), org, now).value.0.controls, OrDefault(org, DefaultOrg))
            == Seed(db.nextId, OrDefault(org, DefaultOrg), userId, now)
  {
    var orgId := OrDefault(org, DefaultOrg);
    var seed := Seed(db.nextId, orgId, userId, now);
    SeededControls(db, userId, org, now);
    FilterAppend(db.controls, seed, InOrg(orgId));
    SeedOrg(db.nextId, orgId, userId, now, orgId);
  }

  /** Seeding an empty organisation appends its seed to the table. */
  lemma SeededControls(db: ControlsDb, userId: string, org: Option<string>, now: int)
    requires OrgControls(db.controls, OrDefault(org, DefaultOrg)) == []
    ensures InitializeControls(db, Some(userId), org, now).value.0.controls
            == db.controls + Seed(db.nextId, OrDefault(org, DefaultOrg), userId, now)
  {
  }

  lemma SeedFields(firstId: nat, org: string, userId: string, now: int)
    ensures var seed := Seed(firstId, org, userId, now);
      forall k :: 0 <= k < |Baseline| ==>
        seed[k].controlId == Baseline[k].controlId && seed[k].domain == Baseline[k].domain
        && seed[k].title == Baseline[k].title && seed[k].status == NotStarted && !IsRevised(seed[k])
  {
  }

  /** Seeding one organisation leaves every other organisation's controls as
      they were. */
  lemma InitializeOtherOrgsUntouched(db: ControlsDb, userId: string, org: Option<string>, now: int, other: string)
    requires other != OrDefault(org, DefaultOrg)
    ensures var r := InitializeControls(db, Some(userId), org, now);
      OrgControls(r.value.0.controls, other) == OrgControls(db.controls, other)
  {
    var orgId := OrDefault(org, DefaultOrg);
    if OrgControls(db.controls, orgId) == [] {
      var seed := Seed(db.nextId, orgId, userId, now);
      assert InitializeControls(db, Some(userId), org, now).value.0.controls == db.controls + seed;
      FilterAppend(db.controls, seed, InOrg(other));
      SeedOrg(db.nextId, orgId, userId, now, other);
    }
  }

  /** Initialising twice is initialising once. */
  lemma InitializeIdempotent(db: ControlsDb, userId: Option<string>, org: Option<string>, now: int, later: int)
    requires InitializeControls(db, userId, org, now).Ok?
    ensures var once := InitializeControls(db, userId, org, now).value.0;
      InitializeControls(once, userId, org, later) == Ok((once, AlreadyInitialised))
  {
    if OrgControls(db.controls, OrDefault(org, DefaultOrg)) == [] {
      InitializedOrgIsBaseline(db, userId.value, org, now);
    }
  }

  // ------------------------------------------------------------ listing

  /** `listControls`: the organisation's controls for a signed-in caller,
      nothing otherwise. */
  function ListControls(db: ControlsDb, userId: Option<string>, org: Option<string>): (r: seq<Control>)
    ensures userId.None? ==> r == []
    ensures forall k :: 0 <= k < |r| ==> r[k] in db.controls && r[k].organizationId == Some(OrDefault(org, DefaultOrg))
    ensures userId.Some? ==> forall k :: 0 <= k < |db.controls| ==>
      (db.controls[k].organizationId == Some(OrDefault(org, DefaultOrg)) ==> db.controls[k] in r)
  {
    if userId.None? then [] else OrgControls(db.controls, OrDefault(org, DefaultOrg))
  }

  /** `getControlsByDomain`: with a non-empty domain, the organisation's
      controls of that domain; otherwise all of the organisation's controls. */
  function GetControlsByDomain(db: ControlsDb, userId: Option<string>, domain: Option<string>, org: Option<string>)
    : (r: seq<Control>)
    ensures domain.None? || domain == Some("") ==> r == ListControls(db, userId, org)
    ensures domain.Some? && domain.value != "" ==>
      forall k :: 0 <= k < |r| ==> r[k] in ListControls(db, userId, org) && r[k].domain == domain.value
  {
    if userId.None? then []
    else if domain.Some? && domain.value != "" then Filter(db.controls, InOrgDomain(OrDefault(org, DefaultOrg), domain.value))
    else OrgControls(db.controls, OrDefault(org, DefaultOrg))
  }

  /** The domain index returns exactly what filtering the organisation's list
      by domain returns, in the same order. */
  lemma DomainQueryIsFilteredList(db: ControlsDb, userId: Option<string>, domain: string, org: Option<string>)
    requires domain != ""
    ensures GetControlsByDomain(db, userId, Some(domain), org) == Filter(ListControls(db, userId, org), InDomain(domain))
  {
    if userId.Some? {
      var orgId := OrDefault(org, DefaultOrg);
      FilterFilter(db.controls, InOrg(orgId), InDomain(domain), InOrgDomain(orgId, domain));
    }
  }

  // ------------------------------------------------------------ updating

  const ControlNotFound: string := "Control not found"

  /** The audit entry's text for a status change. */
  function StatusChange(from: ControlStatus, to: ControlStatus): string {
    "Status changed from " + StatusName(from) + " to " + StatusName(to)
  }

  /** `updateControlStatus`: logs the change, then sets the status and the
      three optional fields (an absent one is removed) and stamps the
      control. */
  function UpdateControlStatus(db: ControlsDb, userId: Option<string>, id: nat, status: ControlStatus,
                               implementationNotes: Option<string>, assignedTo: Option<string>,
                               dueDate: Option<int>, now: int): (r: Result<ControlsDb>)
    ensures r.Err? <==> userId.None? || FindControl(db.controls, id).None?
    ensures userId.None? ==> r == Err("Must be authenticated")
    ensures r.Ok? ==> var i := FindControl(db.controls, id).value;
      var prior := db.controls[i];
      |r.value.controls| == |db.controls|
      && (forall k :: 0 <= k < |db.controls| && k != i ==> r.value.controls[k] == db.controls[k])
      && var c := r.value.controls[i];
      c.id == id && c.status == status && c.implementationNotes == implementationNotes
      && c.assignedTo == assignedTo && c.dueDate == dueDate && c.lastUpdated == now && c.updatedBy == userId
      && c.organizationId == prior.organizationId && c.controlId == prior.controlId && c.domain == prior.domain
      && c.title == prior.title && c.description == prior.description && c.requirement == prior.requirement
      && c.isRevised == prior.isRevised && c.revisionDate == prior.revisionDate
      && c.revisionNotes == prior.revisionNotes
    ensures r.Ok? ==> var prior := db.controls[FindControl(db.controls, id).value];
      r.value.auditLogs == db.auditLogs + [AuditLog(db.nextId, prior.organizationId, "status_update",
        Some(StatusChange(prior.status, status)), userId, now, Some("control"), Some(id), None)]
    ensures r.Ok? && Valid(db) ==> Valid(r.value)
  {
    if userId.None? then Err("Must be authenticated")
    else match FindControl(db.controls, id)
      case None => Err(ControlNotFound)
      case Some(i) =>
        var c := db.controls[i];
        var log := AuditLog(db.nextId, c.organizationId, "status_update", Some(StatusChange(c.status, status)),
                            userId, now, Some("control"), Some(id), None);
        var c' := c.(status := status, implementationNotes := implementationNotes, assignedTo := assignedTo,
                     dueDate := dueDate, lastUpdated := now, updatedBy := userId);
        Ok(ControlsDb(db.controls[i := c'], db.auditLogs + [log], db.nextId + 1))
  }

  /** `updateControlConfiguration`: logs the change, replaces each text field
      only when a non-empty value is given, marks the control revised and
      sets or removes the revision notes. */
  function UpdateControlConfiguration(db: ControlsDb, userId: Option<string>, id: nat, title: Option<string>,
                                      description: Option<string>, requirement: Option<string>,
                                      revisionNotes: Option<string>, now: int): (r: Result<ControlsDb>)
    ensures r.Err? <==> userId.None? || FindControl(db.controls, id).None?
    ensures r.Ok? ==> var i := FindControl(db.controls, id).value;
      var prior := db.controls[i];
      |r.value.controls| == |db.controls|
      && (forall k :: 0 <= k < |db.controls| && k != i ==> r.value.controls[k] == db.controls[k])
      && var c := r.value.controls[i];
      c.id == id && c.status == prior.status && c.implementationNotes == prior.implementationNotes
      && c.assignedTo == prior.assignedTo && c.dueDate == prior.dueDate
      && c.organizationId == prior.organizationId && c.controlId == prior.controlId && c.domain == prior.domain
      && (title.None? || title == Some("") ==> c.title == prior.title)
      && (title.Some? && title.value != "" ==> c.title == title.value)
      && (description.None? || description == Some("") ==> c.description == prior.description)
      && (description.Some? && description.value != "" ==> c.description == description.value)
      && (requirement.None? || requirement == Some("") ==> c.requirement == prior.requirement)
      && (requirement.Some? && requirement.value != "" ==> c.requirement == requirement.value)
      && c.isRevised == Some(true) && c.revisionDate == Some(now) && c.revisionNotes == revisionNotes
      && c.lastUpdated == now && c.updatedBy == userId
    ensures r.Ok? ==> var prior := db.controls[FindControl(db.controls, id).value];
      |r.value.auditLogs| == |db.auditLogs| + 1 && r.value.auditLogs[..|db.auditLogs|] == db.auditLogs
      && var log := r.value.auditLogs[|db.auditLogs|];
      log.id == db.nextId && log.timestamp == now && log.entityType == Some("control")
      && log.action == "configuration_update" && log.organizationId == prior.organizationId
      && log.details == Some(if revisionNotes.Some? && revisionNotes.value != "" then revisionNotes.value
                             else "Control configuration updated")
      && log.performedBy == userId && log.entityId == Some(id) && log.controlId.None?
    ensures r.Ok? && Valid(db) ==> Valid(r.value)
  {
    if userId.None? then Err("Must be authenticated")
    else match FindControl(db.controls, id)
      case None => Err(ControlNotFound)
      case Some(i) =>
        var c := db.controls[i];
        var log := AuditLog(db.nextId, c.organizationId, "configuration_update",
                            Some(OrDefault(revisionNotes, "Control configuration updated")),
                            userId, now, Some("control"), Some(id), None);
        var c' := c.(title := OrDefault(title, c.title), description := OrDefault(description, c.description),
                     requirement := OrDefault(requirement, c.requirement), isRevised := Some(true),
                     revisionDate := Some(now), revisionNotes := revisionNotes, lastUpdated := now,
                     updatedBy := userId);
        assert (db.auditLogs + [log])[..|db.auditLogs|] == db.auditLogs;
        Ok(ControlsDb(db.controls[i := c'], db.auditLogs + [log], db.nextId + 1))
  }

  // ---------------------------------------------------------- statistics

  /** Counters for a set of controls. */
  datatype Tally = Tally(total: nat, notStarted: nat, inProgress: nat, implemented: nat, verified: nat, revised: nat)

  const NoControls: Tally := Tally(0, 0, 0, 0, 0, 0)

  function HasStatus(s: ControlStatus): Control -> bool {
    (c: Control) => c.status == s
  }

  predicate IsRevised(c: Control) {
    c.isRevised == Some(true)
  }

  /** One control added to the counters. */
  function Bump(t: Tally, c: Control): Tally {
    Tally(t.total + 1,
          t.notStarted + (if c.status == NotStarted then 1 else 0),
          t.inProgress + (if c.status == InProgress then 1 else 0),
          t.implemented + (if c.status == Implemented then 1 else 0),
          t.verified + (if c.status == Verified then 1 else 0),
          t.revised + (if IsRevised(c) then 1 else 0))
  }

  /** The counters after visiting the controls left to right. */
  function TallyOf(cs: seq<Control>): Tally
    decreases |cs|
  {
    if cs == [] then NoControls else Bump(TallyOf(cs[..|cs| - 1]), cs[|cs| - 1])
  }

  /** The counter of one status. */
  function Counter(t: Tally, s: ControlStatus): nat {
    match s
    case NotStarted => t.notStarted
    case InProgress => t.inProgress
    case Implemented => t.implemented
    case Verified => t.verified
  }

  /** Each status counter counts the controls with that status. */
  lemma {:induction false} TallyStatus(cs: seq<Control>, s: ControlStatus)
    ensures Counter(TallyOf(cs), s) == Count(cs, HasStatus(s))
    decreases |cs|
  {
    if cs != [] {
      var init := cs[..|cs| - 1];
      var c := cs[|cs| - 1];
      TallyStatus(init, s);
      CountLast(cs, HasStatus(s));
    }
  }

  /** The total and revised counters count all and the revised controls, and
      the four status counters add up to the total. */
  lemma {:induction false} TallyTotals(cs: seq<Control>)
    ensures var t := TallyOf(cs);
      t.total == |cs| && t.revised == Count(cs, IsRevised)
      && t.notStarted + t.inProgress + t.implemented + t.verified == t.total
    decreases |cs|
  {
    if cs != [] {
      var init := cs[..|cs| - 1];
      var c := cs[|cs| - 1];
      TallyTotals(init);
      CountLast(cs, IsRevised);
    }
  }

  lemma TallyCounts(cs: seq<Control>)
    ensures var t := TallyOf(cs);
      t.total == |cs| && t.revised == Count(cs, IsRevised)
      && t.notStarted + t.inProgress + t.implemented + t.verified == t.total
      && t.notStarted == Count(cs, HasStatus(NotStarted)) && t.inProgress == Count(cs, HasStatus(InProgress))
      && t.implemented == Count(cs, HasStatus(Implemented)) && t.verified == Count(cs, HasStatus(Verified))
  {
    TallyTotals(cs);
    TallyStatus(cs, NotStarted);
    TallyStatus(cs, InProgress);
    TallyStatus(cs, Implemented);
    TallyStatus(cs, Verified);
  }

  /** Domain counters, keyed by domain in order of first appearance. */
  type DomainTable = seq<(string, Tally)>

  function Keys(m: DomainTable): (r: seq<string>)
    ensures |r| == |m| && forall k :: 0 <= k < |m| ==> r[k] == m[k].0
  {
    seq(|m|, k requires 0 <= k < |m| => m[k].0)
  }

  /** The position of `d` among the keys. */
  function KeyIndex(m: DomainTable, d: string): (r: Option<nat>)
    ensures r.Some? ==> r.value < |m| && m[r.value].0 == d && forall k :: 0 <= k < r.value ==> m[k].0 != d
    ensures r.None? ==> forall k :: 0 <= k < |m| ==> m[k].0 != d
  {
    if m == [] then None
    else if m[0].0 == d then Some(0)
    else match KeyIndex(m[1..], d)
      case None => None
      case Some(i) => Some(i + 1)
  }

  function Lookup(m: DomainTable, d: string): Option<Tally> {
    match KeyIndex(m, d)
    case None => None
    case Some(i) => Some(m[i].1)
  }

  /** One control recorded under its domain: a new key starts from zero. */
  function Record(m: DomainTable, c: Control): DomainTable {
    match KeyIndex(m, c.domain)
    case None => m + [(c.domain, Bump(NoControls, c))]
    case Some(i) => m[i := (c.domain, Bump(m[i].1, c))]
  }

  /** `byDomain` after visiting the controls left to right. */
  function ByDomain(cs: seq<Control>): DomainTable
    decreases |cs|
  {
    if cs == [] then [] else Record(ByDomain(cs[..|cs| - 1]), cs[|cs| - 1])
  }

  function Domains(cs: seq<Control>): (r: seq<string>)
    ensures |r| == |cs| && forall k :: 0 <= k < |cs| ==> r[k] == cs[k].domain
  {
    seq(|cs|, k requires 0 <= k < |cs| => cs[k].domain)
  }

  /** The keys of `byDomain` are the distinct domains in order of first
      appearance. */
  lemma {:induction false} ByDomainKeys(cs: seq<Control>)
    ensures Keys(ByDomain(cs)) == Dedup(Domains(cs))
    decreases |cs|
  {
    if cs != [] {
      var init := cs[..|cs| - 1];
      var c := cs[|cs| - 1];
      ByDomainKeys(init);
      assert ByDomain(cs) == Record(ByDomain(init), c);
      DomainsInit(cs);
      DedupSnoc(Domains(init), c.domain);
      RecordKeys(ByDomain(init), c);
    }
  }

  lemma DomainsInit(cs: seq<Control>)
    requires cs != []
    ensures Domains(cs) == Domains(cs[..|cs| - 1]) + [cs[|cs| - 1].domain]
  {
  }

  /** Recording a control appends its domain to the keys when it is new. */
  lemma RecordKeys(m: DomainTable, c: Control)
    ensures Keys(Record(m, c)) == if c.domain in Keys(m) then Keys(m) else Keys(m) + [c.domain]
  {
    match KeyIndex(m, c.domain)
    case None =>
      assert c.domain !in Keys(m);
      assert Keys(Record(m, c)) == Keys(m) + [c.domain];
    case Some(i) =>
      assert Keys(m)[i] == c.domain;
      assert Keys(Record(m, c)) == Keys(m);
  }

  /** Under each domain's key are exactly the counters of that domain's
      controls; a domain without controls has no key. */
  lemma ByDomainLookup(cs: seq<Control>, d: string)
    ensures Lookup(ByDomain(cs), d) == if Count(cs, InDomain(d)) == 0 then None else Some(TallyOf(Filter(cs, InDomain(d))))
  {
    LookupIsDomainTally(cs, d);
  }

  lemma {:induction false} LookupIsDomainTally(cs: seq<Control>, d: string)
    ensures Lookup(ByDomain(cs), d) == DomainTally(cs, d)
    decreases |cs|
  {
    if cs != [] {
      var init := cs[..|cs| - 1];
      LookupIsDomainTally(init, d);
      assert cs == init + [cs[|cs| - 1]];
      ByDomainLookupSnoc(init, cs[|cs| - 1], d);
    }
  }

  /** The counters of the controls of domain `d`, if there are any. */
  function DomainTally(cs: seq<Control>, d: string): Option<Tally> {
    if Count(cs, InDomain(d)) == 0 then None else Some(TallyOf(Filter(cs, InDomain(d))))
  }

  lemma ByDomainLookupSnoc(init: seq<Control>, c: Control, d: string)
    requires Lookup(ByDomain(init), d) == DomainTally(init, d)
    ensures Lookup(ByDomain(init + [c]), d) == DomainTally(init + [c], d)
  {
    assert (init + [c])[..|init|] == init;
    assert ByDomain(init + [c]) == Record(ByDomain(init), c);
    RecordLookup(ByDomain(init), c, d);
    if c.domain == d {
      DomainTallySame(init, c, d);
    } else {
      DomainTallyOther(init, c, d);
    }
  }

  /** A control of domain `d` is added to that domain's counters. */
  lemma DomainTallySame(init: seq<Control>, c: Control, d: string)
    requires c.domain == d
    ensures DomainTally(init + [c], d) == Some(Bump(DomainTally(init, d).GetOr(NoControls), c))
  {
    var f := Filter(init, InDomain(d));
    CountSnoc(init, c, InDomain(d));
    FilterSnoc(init, c, InDomain(d));
    FilterCount(init, InDomain(d));
    TallySnoc(f, c);
  }

  /** A control of another domain leaves the counters of `d` alone. */
  lemma DomainTallyOther(init: seq<Control>, c: Control, d: string)
    requires c.domain != d
    ensures DomainTally(init + [c], d) == DomainTally(init, d)
  {
    CountSnoc(init, c, InDomain(d));
    FilterSnoc(init, c, InDomain(d));
    assert Filter(init, InDomain(d)) + [] == Filter(init, InDomain(d));
  }

  lemma TallySnoc(cs: seq<Control>, c: Control)
    ensures TallyOf(cs + [c]) == Bump(TallyOf(cs), c)
  {
    assert (cs + [c])[..|cs|] == cs;
  }

  /** Recording a control touches only its own domain's counters. */
  lemma RecordLookup(m: DomainTable, c: Control, d: string)
    ensures Lookup(Record(m, c), d) ==
      if c.domain != d then Lookup(m, d) else Some(Bump(Lookup(m, d).GetOr(NoControls), c))
  {
    match KeyIndex(m, c.domain)
    case None =>
      if c.domain == d {
        KeyIndexAppend(m, d, Bump(NoControls, c));
      } else {
        KeyIndexAppendOther(m, d, c.domain, Bump(NoControls, c));
      }
    case Some(i) =>
      if c.domain == d {
        KeyIndexUpdate(m, i, d, Bump(m[i].1, c));
      } else {
        KeyIndexUpdateOther(m, i, d, Bump(m[i].1, c));
      }
  }

  lemma KeyIndexAppend(m: DomainTable, d: string, t: Tally)
    requires KeyIndex(m, d).None?
    ensures KeyIndex(m + [(d, t)], d) == Some(|m|)
  {
    var m' := m + [(d, t)];
    assert forall k :: 0 <= k < |m| ==> m'[k] == m[k];
    KeyIndexIs(m', d, |m|);
  }

  lemma KeyIndexAppendOther(m: DomainTable, d: string, e: string, t: Tally)
    requires d != e
    ensures KeyIndex(m + [(e, t)], d) == KeyIndex(m, d)
  {
    var m' := m + [(e, t)];
    assert forall k :: 0 <= k < |m| ==> m'[k] == m[k];
    match KeyIndex(m, d)
    case None =>
    case Some(i) => KeyIndexIs(m', d, i);
  }

  lemma KeyIndexUpdate(m: DomainTable, i: nat, d: string, t: Tally)
    requires KeyIndex(m, d) == Some(i)
    ensures KeyIndex(m[i := (d, t)], d) == Some(i)
  {
    KeyIndexIs(m[i := (d, t)], d, i);
  }

  lemma KeyIndexUpdateOther(m: DomainTable, i: nat, d: string, t: Tally)
    requires i < |m| && m[i].0 != d
    ensures KeyIndex(m[i := (m[i].0, t)], d) == KeyIndex(m, d)
  {
    var m' := m[i := (m[i].0, t)];
    match KeyIndex(m, d)
    case None =>
    case Some(j) => KeyIndexIs(m', d, j);
  }

  /** `KeyIndex` is the first position holding the key. */
  lemma KeyIndexIs(m: DomainTable, d: string, i: nat)
    requires i < |m| && m[i].0 == d && forall k :: 0 <= k < i ==> m[k].0 != d
    ensures KeyIndex(m, d) == Some(i)
  {
  }

  /** The sum of one counter over all domains. */
  function SumOf(m: DomainTable, f: Tally -> nat): nat {
    if m == [] then 0 else f(m[0].1) + SumOf(m[1..], f)
  }

  function TotalOf(t: Tally): nat { t.total }

  function RevisedOf(t: Tally): nat { t.revised }

  function SumTotals(m: DomainTable): nat {
    SumOf(m, TotalOf)
  }

  function SumRevised(m: DomainTable): nat {
    SumOf(m, RevisedOf)
  }

  lemma {:induction false} SumOfUpdate(m: DomainTable, i: nat, e: (string, Tally), f: Tally -> nat)
    requires i < |m|
    ensures SumOf(m[i := e], f) == SumOf(m, f) - f(m[i].1) + f(e.1)
    decreases i
  {
    if i > 0 {
      assert m[i := e][1..] == m[1..][i - 1 := e];
      SumOfUpdate(m[1..], i - 1, e, f);
    }
  }

  lemma {:induction false} SumOfSnoc(m: DomainTable, e: (string, Tally), f: Tally -> nat)
    ensures SumOf(m + [e], f) == SumOf(m, f) + f(e.1)
    decreases |m|
  {
    if m == [] {
      assert [e][1..] == [];
    } else {
      assert (m + [e])[1..] == m[1..] + [e];
      SumOfSnoc(m[1..], e, f);
    }
  }

  /** The domain totals add up to the number of controls. */
  lemma {:induction false} ByDomainTotal(cs: seq<Control>)
    ensures SumTotals(ByDomain(cs)) == |cs|
    decreases |cs|
  {
    if cs != [] {
      var init := cs[..|cs| - 1];
      var c := cs[|cs| - 1];
      ByDomainTotal(init);
      var m := ByDomain(init);
      match KeyIndex(m, c.domain)
      case None => SumOfSnoc(m, (c.domain, Bump(NoControls, c)), TotalOf);
      case Some(i) => SumOfUpdate(m, i, (c.domain, Bump(m[i].1, c)), TotalOf);
    }
  }

  /** The domain revised counters add up to the number of revised controls. */
  lemma {:induction false} ByDomainRevised(cs: seq<Control>)
    ensures SumRevised(ByDomain(cs)) == Count(cs, IsRevised)
    decreases |cs|
  {
    if cs != [] {
      var init := cs[..|cs| - 1];
      var c := cs[|cs| - 1];
      ByDomainRevised(init);
      CountLast(cs, IsRevised);
      var m := ByDomain(init);
      match KeyIndex(m, c.domain)
      case None => SumOfSnoc(m, (c.domain, Bump(NoControls, c)), RevisedOf);
      case Some(i) => SumOfUpdate(m, i, (c.domain, Bump(m[i].1, c)), RevisedOf);
    }
  }

  /** A domain's four status counters add up to its total. */
  predicate Balanced(t: Tally) {
    t.notStarted + t.inProgress + t.implemented + t.verified == t.total
  }

  /** In every domain entry the four status counters add up to the entry's
      total, and the entry counts at least one control. */
  lemma {:induction false} ByDomainBalanced(cs: seq<Control>)
    ensures forall k :: 0 <= k < |ByDomain(cs)| ==> Balanced(ByDomain(cs)[k].1) && ByDomain(cs)[k].1.total >= 1
    decreases |cs|
  {
    if cs != [] {
      var init := cs[..|cs| - 1];
      var c := cs[|cs| - 1];
      ByDomainBalanced(init);
      var m := ByDomain(init);
      assert ByDomain(cs) == Record(m, c);
    }
  }

  /** The result of `getComplianceStats`. */
  datatype ComplianceStats = ComplianceStats(total: nat, notStarted: nat, inProgress: nat, implemented: nat,
                                             verified: nat, revised: nat, byDomain: DomainTable)

  /** The statistics of a list of controls, computed as the source's single
      pass does; `revised` is counted by a separate filter. */
  function StatsOf(cs: seq<Control>): ComplianceStats {
    var t := TallyOf(cs);
    ComplianceStats(|cs|, t.notStarted, t.inProgress, t.implemented, t.verified, Count(cs, IsRevised), ByDomain(cs))
  }

  /** The total counts the controls, each status counter the controls with
      that status, and `revised` the revised ones; the four status counters
      add up to the total. */
  lemma StatsOfCounts(cs: seq<Control>)
    ensures var r := StatsOf(cs);
      r.total == |cs| && r.revised == Count(cs, IsRevised)
      && r.notStarted + r.inProgress + r.implemented + r.verified == r.total
      && r.notStarted == Count(cs, HasStatus(NotStarted)) && r.inProgress == Count(cs, HasStatus(InProgress))
      && r.implemented == Count(cs, HasStatus(Implemented)) && r.verified == Count(cs, HasStatus(Verified))
  {
    TallyCounts(cs);
  }

  /** The domain totals add up to the total and the domain revised counters
      to `revised`; in each domain the four status counters add up to its
      total; the domain keys are the distinct domains in order of first
      appearance. */
  lemma StatsOfDomains(cs: seq<Control>)
    ensures SumTotals(StatsOf(cs).byDomain) == StatsOf(cs).total
    ensures SumRevised(StatsOf(cs).byDomain) == StatsOf(cs).revised
    ensures forall k :: 0 <= k < |StatsOf(cs).byDomain| ==> Balanced(StatsOf(cs).byDomain[k].1)
    ensures Keys(StatsOf(cs).byDomain) == Dedup(Domains(cs))
  {
    ByDomainTotal(cs);
    ByDomainRevised(cs);
    ByDomainBalanced(cs);
    ByDomainKeys(cs);
  }

  /** `getComplianceStats`: the organisation's statistics for a signed-in
      caller. */
  function GetComplianceStats(db: ControlsDb, userId: Option<string>, org: Option<string>): (r: Option<ComplianceStats>)
    ensures userId.None? <==> r.None?
    ensures r.Some? ==> r.value == StatsOf(ListControls(db, userId, org))
  {
    if userId.None? then None else Some(StatsOf(OrgControls(db.controls, OrDefault(org, DefaultOrg))))
  }

  /** `getComplianceStatsInternal` and `listControlsInternal`: the same for
      "default_org" without a caller. */
  function GetComplianceStatsInternal(db: ControlsDb): (r: ComplianceStats)
    ensures forall u: string :: GetComplianceStats(db, Some(u), None) == Some(r)
  {
    StatsOf(OrgControls(db.controls, DefaultOrg))
  }

  function ListControlsInternal(db: ControlsDb): (r: seq<Control>)
    ensures forall u: string :: ListControls(db, Some(u), None) == r
  {
    OrgControls(db.controls, DefaultOrg)
  }

  /** A freshly seeded organisation reports eighteen controls, none started
      and none revised. */
  lemma SeededStats(db: ControlsDb, userId: string, org: Option<string>, now: int)
    requires OrgControls(db.controls, OrDefault(org, DefaultOrg)) == []
    ensures var after := InitializeControls(db, Some(userId), org, now).value.0;
      var s := GetComplianceStats(after, Some(userId), org).value;
      s.total == 18 && s.notStarted == 18 && s.inProgress == 0 && s.implemented == 0 && s.verified == 0
      && s.revised == 0
  {
    var after := InitializeControls(db, Some(userId), org, now).value.0;
    var mine := OrgControls(after.controls, OrDefault(org, DefaultOrg));
    InitializedOrgIsBaseline(db, userId, org, now);
    BaselineShape();
    FreshStats(mine);
  }

  /** Controls none of which is started or revised report all of themselves
      as not started and none as revised. */
  lemma FreshStats(cs: seq<Control>)
    requires forall k :: 0 <= k < |cs| ==> cs[k].status == NotStarted && !IsRevised(cs[k])
    ensures var s := StatsOf(cs);
      s.total == |cs| && s.notStarted == |cs| && s.inProgress == 0 && s.implemented == 0 && s.verified == 0
      && s.revised == 0
  {
    StatsOfCounts(cs);
    assert forall k :: 0 <= k < |cs| ==> HasStatus(NotStarted)(cs[k]);
  }

  function InOrgWithStatus(org: string, s: ControlStatus): Control -> bool {
    (c: Control) => c.organizationId == Some(org) && c.status == s
  }

  /** A status update moves the changed control from its prior status counter
      to its new one in its organisation's statistics and leaves the total
      alone. */
  lemma StatusUpdateMovesOneCount(db: ControlsDb, userId: string, id: nat, status: ControlStatus,
                                  notes: Option<string>, assignedTo: Option<string>, dueDate: Option<int>,
                                  now: int, org: string, s: ControlStatus)
    requires FindControl(db.controls, id).Some?
    requires db.controls[FindControl(db.controls, id).value].organizationId == Some(org)
    ensures var before := GetComplianceStats(db, Some(userId), Some(org)).value;
      var after := GetComplianceStats(UpdateControlStatus(db, Some(userId), id, status, notes, assignedTo, dueDate, now).value,
                                      Some(userId), Some(org)).value;
      var prior := db.controls[FindControl(db.controls, id).value].status;
      org != "" ==>
        after.total == before.total
        && StatusCount(after, s) + (if prior == s then 1 else 0) == StatusCount(before, s) + (if status == s then 1 else 0)
  {
    if org != "" {
      var i := FindControl(db.controls, id).value;
      var after := UpdateControlStatus(db, Some(userId), id, status, notes, assignedTo, dueDate, now).value;
      ReplacedAt(db.controls, after.controls, i);
      OrgStatsCount(db.controls, org, s);
      OrgStatsCount(after.controls, org, s);
      CountUpdate(db.controls, i, after.controls[i], InOrgWithStatus(org, s));
      CountUpdate(db.controls, i, after.controls[i], InOrg(org));
    }
  }

  /** An organisation's statistics count, across the whole table, its
      controls and its controls of each status. */
  lemma OrgStatsCount(cs: seq<Control>, org: string, s: ControlStatus)
    ensures StatsOf(OrgControls(cs, org)).total == Count(cs, InOrg(org))
    ensures StatusCount(StatsOf(OrgControls(cs, org)), s) == Count(cs, InOrgWithStatus(org, s))
  {
    StatsOfCounts(OrgControls(cs, org));
    CountFilter(cs, InOrg(org), HasStatus(s), InOrgWithStatus(org, s));
    FilterCount(cs, InOrg(org));
  }

  function StatusCount(st: ComplianceStats, s: ControlStatus): nat {
    match s
    case NotStarted => st.notStarted
    case InProgress => st.inProgress
    case Implemented => st.implemented
    case Verified => st.verified
  }
}
