/** The audit trail queries: the newest entries of "default_org", optionally
    for one control, each with its author's name, and the summary counters. */
module AuditLogs {
  import opened Wrappers
  import opened Text
  import opened Seqs
  import opened Schema
  import opened Controls

  const DefaultLimit: nat := 100
  const UnknownUser: string := "Unknown User"
  /** Seven days in milliseconds. */
  const Week: int := 7 * 24 * 60 * 60 * 1000

  /** One returned entry with the name of the user who made it. */
  datatype LogView = LogView(log: AuditLog, userName: string)

  /** `user?.name || "Unknown User"`: the user table maps ids to optional names;
      a missing author, a missing user and an empty name read as unknown. */
  function UserName(users: map<string, Option<string>>, performedBy: Option<string>): (r: string)
    ensures performedBy.None? || performedBy.value !in users ==> r == UnknownUser
    ensures performedBy.Some? && performedBy.value in users ==>
      (users[performedBy.value].Some? && users[performedBy.value].value != "" ==> r == users[performedBy.value].value)
    ensures performedBy.Some? && performedBy.value in users ==>
      (users[performedBy.value].None? || users[performedBy.value].value == "" ==> r == UnknownUser)
  {
    if performedBy.Some? && performedBy.value in users then OrDefault(users[performedBy.value], UnknownUser)
    else UnknownUser
  }

  /** The sequence in reverse, as a descending index scan returns it. */
  function Reverse<T>(xs: seq<T>): (r: seq<T>)
    ensures |r| == |xs| && forall k :: 0 <= k < |xs| ==> r[k] == xs[|xs| - 1 - k]
  {
    seq(|xs|, k requires 0 <= k < |xs| => xs[|xs| - 1 - k])
  }

  /** `args.limit || 100`. */
  function EffectiveLimit(limit: Option<nat>): (n: nat)
    ensures n > 0
    ensures limit.Some? && limit.value > 0 ==> n == limit.value
  {
    if limit.Some? && limit.value > 0 then limit.value else DefaultLimit
  }

  /** The entries a query scans: those of "default_org", and with a non-empty
      control id only those tagged with it. */
  function Selected(controlId: Option<string>): AuditLog -> bool {
    if controlId.Some? && controlId.value != "" then
      (l: AuditLog) => l.organizationId == Some(DefaultOrg) && l.controlId == controlId
    else
      (l: AuditLog) => l.organizationId == Some(DefaultOrg)
  }

  /** `r` holds the newest `n` entries of `sel` (the table's later entries are
      the newer ones), newest first, each with its author's name. */
  predicate NewestViews(r: seq<LogView>, sel: seq<AuditLog>, n: nat, users: map<string, Option<string>>) {
    |r| == (if n < |sel| then n else |sel|)
    && forall k :: 0 <= k < |r| ==>
         r[k].log == sel[|sel| - 1 - k] && r[k].userName == UserName(users, r[k].log.performedBy)
  }

  /** `getAuditLogs`: for a signed-in caller, the newest `limit` selected
      entries, newest first, each with its author's name. */
  function GetAuditLogs(db: ControlsDb, users: map<string, Option<string>>, userId: Option<string>,
                        controlId: Option<string>, limit: Option<nat>): (r: seq<LogView>)
    ensures userId.None? ==> r == []
    ensures userId.Some? ==> NewestViews(r, Filter(db.auditLogs, Selected(controlId)), EffectiveLimit(limit), users)
  {
    if userId.None? then []
    else
      Views(Filter(db.auditLogs, Selected(controlId)), EffectiveLimit(limit), users)
  }

  /** The newest `n` of the selected entries, newest first, with their authors' names. */
  function Views(sel: seq<AuditLog>, n: nat, users: map<string, Option<string>>): (r: seq<LogView>)
    ensures NewestViews(r, sel, n, users)
  {
    NewestTaken(sel, n);
    WithNames(Take(Reverse(sel), n), users)
  }

  /** Each entry paired with its author's name. */
  function WithNames(logs: seq<AuditLog>, users: map<string, Option<string>>): (r: seq<LogView>)
    ensures |r| == |logs|
    ensures forall k :: 0 <= k < |r| ==> r[k].log == logs[k] && r[k].userName == UserName(users, logs[k].performedBy)
  {
    seq(|logs|, k requires 0 <= k < |logs| => LogView(logs[k], UserName(users, logs[k].performedBy)))
  }

  /** The first `n` of the reversed entries are the last `n` entries, newest first. */
  lemma NewestTaken<T>(xs: seq<T>, n: nat)
    ensures var r := Take(Reverse(xs), n);
      |r| == (if n < |xs| then n else |xs|)
      && forall k :: 0 <= k < |r| ==> r[k] == xs[|xs| - 1 - k]
  {
  }

  /** Entries are returned newest first: when the table's timestamps never
      decrease, the returned ones never increase. */
  lemma NewestFirst(db: ControlsDb, users: map<string, Option<string>>, userId: string,
                    controlId: Option<string>, limit: Option<nat>)
    requires forall i, j :: 0 <= i < j < |db.auditLogs| ==> db.auditLogs[i].timestamp <= db.auditLogs[j].timestamp
    ensures var r := GetAuditLogs(db, users, Some(userId), controlId, limit);
      forall i, j :: 0 <= i < j < |r| ==> r[i].log.timestamp >= r[j].log.timestamp
  {
    var sel := Filter(db.auditLogs, Selected(controlId));
    FilterIsSubseq(db.auditLogs, Selected(controlId));
    SubseqSorted(sel, db.auditLogs);
  }

  /** A subsequence of a sequence sorted by timestamp is sorted by timestamp. */
  lemma {:induction false} SubseqSorted(a: seq<AuditLog>, b: seq<AuditLog>)
    requires IsSubseq(a, b)
    requires forall i, j :: 0 <= i < j < |b| ==> b[i].timestamp <= b[j].timestamp
    ensures forall i, j :: 0 <= i < j < |a| ==> a[i].timestamp <= a[j].timestamp
    ensures forall i :: 0 <= i < |a| ==> exists j :: 0 <= j < |b| && a[i] == b[j]
    decreases |b|
  {
    if b != [] {
      if a != [] && a[0] == b[0] && IsSubseq(a[1..], b[1..]) {
        SubseqSorted(a[1..], b[1..]);
        forall i | 1 <= i < |a|
          ensures a[0].timestamp <= a[i].timestamp
        {
          var j :| 0 <= j < |b[1..]| && a[1..][i - 1] == b[1..][j];
          assert b[0].timestamp <= b[j + 1].timestamp;
        }
        forall i | 0 <= i < |a|
          ensures exists j :: 0 <= j < |b| && a[i] == b[j]
        {
          if i == 0 {
            assert a[0] == b[0];
          } else {
            var j :| 0 <= j < |b[1..]| && a[1..][i - 1] == b[1..][j];
            assert a[i] == b[j + 1];
          }
        }
      } else {
        SubseqSorted(a, b[1..]);
        forall i | 0 <= i < |a|
          ensures exists j :: 0 <= j < |b| && a[i] == b[j]
        {
          var j :| 0 <= j < |b[1..]| && a[i] == b[1..][j];
          assert a[i] == b[j + 1];
        }
      }
    }
  }

  /** The entry a status update writes for a "default_org" control is the
      first one the general query then returns. */
  lemma StatusUpdateShownFirst(db: ControlsDb, users: map<string, Option<string>>, userId: string, id: nat,
                               status: ControlStatus, notes: Option<string>, assignedTo: Option<string>,
                               dueDate: Option<int>, now: int, limit: Option<nat>)
    requires FindControl(db.controls, id).Some?
    requires db.controls[FindControl(db.controls, id).value].organizationId == Some(DefaultOrg)
    ensures var after := UpdateControlStatus(db, Some(userId), id, status, notes, assignedTo, dueDate, now).value;
      var r := GetAuditLogs(after, users, Some(userId), None, limit);
      |r| > 0 && r[0].log == after.auditLogs[|after.auditLogs| - 1] && r[0].log.action == "status_update"
      && r[0].log.entityId == Some(id)
  {
    var after := UpdateControlStatus(db, Some(userId), id, status, notes, assignedTo, dueDate, now).value;
    var log := after.auditLogs[|after.auditLogs| - 1];
    assert after.auditLogs == db.auditLogs + [log];
    FilterSnoc(db.auditLogs, log, Selected(None));
  }

  // ------------------------------------------------------------------ stats

  /** The counters of `getAuditStats`. */
  datatype AuditStats = AuditStats(totalChanges: nat, recentChanges: nat, statusChanges: nat, uniqueControls: nat)

  function InDefaultOrg(l: AuditLog): bool {
    l.organizationId == Some(DefaultOrg)
  }

  function RecentAt(now: int): AuditLog -> bool {
    (l: AuditLog) => l.timestamp > now - Week
  }

  predicate IsStatusUpdate(l: AuditLog) {
    l.action == "status_update"
  }

  /** The `controlId` of each entry. */
  function ControlIds(logs: seq<AuditLog>): (r: seq<Option<string>>)
    ensures |r| == |logs| && forall k :: 0 <= k < |logs| ==> r[k] == logs[k].controlId
  {
    seq(|logs|, k requires 0 <= k < |logs| => logs[k].controlId)
  }

  /** The number of distinct `controlId` values, an absent one included, as
      `new Set(logs.map(log => log.controlId)).size` counts them. */
  function UniqueControlIds(logs: seq<AuditLog>): (n: nat)
    ensures n == |Elements(ControlIds(logs))|
    ensures n <= |logs|
    ensures |logs| > 0 <==> n >= 1
  {
    var ids := ControlIds(logs);
    DedupSize(ids);
    if |logs| > 0 then
      assert ids[0] in Dedup(ids);
      |Dedup(ids)|
    else |Dedup(ids)|
  }

  /** `getAuditStats` as written: over "default_org"'s entries, the total, the
      entries of the last seven days, the status updates, and the distinct
      `controlId` values. */
  function GetAuditStats(db: ControlsDb, userId: Option<string>, now: int): (r: Option<AuditStats>)
    ensures userId.None? <==> r.None?
    ensures r.Some? ==> var logs := Filter(db.auditLogs, InDefaultOrg);
      r.value.totalChanges == |logs|
      && r.value.recentChanges == Count(logs, RecentAt(now))
      && r.value.statusChanges == Count(logs, IsStatusUpdate)
      && r.value.uniqueControls == |Elements(ControlIds(logs))|
    ensures r.Some? ==>
      r.value.recentChanges <= r.value.totalChanges && r.value.statusChanges <= r.value.totalChanges
      && r.value.uniqueControls <= r.value.totalChanges
      && (r.value.uniqueControls >= 1 <==> r.value.totalChanges >= 1)
  {
    if userId.None? then None
    else
      var logs := Filter(db.auditLogs, InDefaultOrg);
      Some(AuditStats(|logs|, Count(logs, RecentAt(now)), Count(logs, IsStatusUpdate), UniqueControlIds(logs)))
  }

  /** A status update of a "default_org" control adds one entry, one status
      change and one recent change, at the time it is made. */
  lemma StatusUpdateCounted(db: ControlsDb, userId: string, id: nat, status: ControlStatus, notes: Option<string>,
                            assignedTo: Option<string>, dueDate: Option<int>, now: int)
    requires FindControl(db.controls, id).Some?
    requires db.controls[FindControl(db.controls, id).value].organizationId == Some(DefaultOrg)
    ensures var before := GetAuditStats(db, Some(userId), now).value;
      var after := GetAuditStats(UpdateControlStatus(db, Some(userId), id, status, notes, assignedTo, dueDate, now).value,
                                 Some(userId), now).value;
      after.totalChanges == before.totalChanges + 1 && after.statusChanges == before.statusChanges + 1
      && after.recentChanges == before.recentChanges + 1
  {
    var db' := UpdateControlStatus(db, Some(userId), id, status, notes, assignedTo, dueDate, now).value;
    var log := db'.auditLogs[|db'.auditLogs| - 1];
    assert db'.auditLogs == db.auditLogs + [log];
    FilterSnoc(db.auditLogs, log, InDefaultOrg);
    var logs := Filter(db.auditLogs, InDefaultOrg);
    CountSnoc(logs, log, RecentAt(now));
    CountSnoc(logs, log, IsStatusUpdate);
  }

  /** No entry carries a control id. */
  predicate Untagged(db: ControlsDb) {
    forall k :: 0 <= k < |db.auditLogs| ==> db.auditLogs[k].controlId.None?
  }

  /** Neither the seeding nor the two updating mutations ever tag an entry
      with a control id. */
  lemma MutationsLeaveUntagged(db: ControlsDb, userId: Option<string>, id: nat, org: Option<string>,
                               status: ControlStatus, notes: Option<string>, assignedTo: Option<string>,
                               dueDate: Option<int>, title: Option<string>, description: Option<string>,
                               requirement: Option<string>, revisionNotes: Option<string>, now: int)
    requires Untagged(db)
    ensures var r := InitializeControls(db, userId, org, now); r.Ok? ==> Untagged(r.value.0)
    ensures var r := UpdateControlStatus(db, userId, id, status, notes, assignedTo, dueDate, now);
      r.Ok? ==> Untagged(r.value)
    ensures var r := UpdateControlConfiguration(db, userId, id, title, description, requirement, revisionNotes, now);
      r.Ok? ==> Untagged(r.value)
  {
    SeedingLeavesUntagged(db, userId, org, now);
    StatusUpdateLeavesUntagged(db, userId, id, status, notes, assignedTo, dueDate, now);
    ConfigurationLeavesUntagged(db, userId, id, title, description, requirement, revisionNotes, now);
  }

  lemma SeedingLeavesUntagged(db: ControlsDb, userId: Option<string>, org: Option<string>, now: int)
    requires Untagged(db)
    ensures var r := InitializeControls(db, userId, org, now); r.Ok? ==> Untagged(r.value.0)
  {
  }

  lemma StatusUpdateLeavesUntagged(db: ControlsDb, userId: Option<string>, id: nat, status: ControlStatus,
                                   notes: Option<string>, assignedTo: Option<string>, dueDate: Option<int>, now: int)
    requires Untagged(db)
    ensures var r := UpdateControlStatus(db, userId, id, status, notes, assignedTo, dueDate, now);
      r.Ok? ==> Untagged(r.value)
  {
  }

  lemma ConfigurationLeavesUntagged(db: ControlsDb, userId: Option<string>, id: nat, title: Option<string>,
                                    description: Option<string>, requirement: Option<string>,
                                    revisionNotes: Option<string>, now: int)
    requires Untagged(db)
    ensures var r := UpdateControlConfiguration(db, userId, id, title, description, requirement, revisionNotes, now);
      r.Ok? ==> Untagged(r.value)
  {
  }

  /** So the per-control query finds nothing among such entries, whatever
      control is asked for. */
  lemma ControlFilterFindsNothing(db: ControlsDb, users: map<string, Option<string>>, userId: Option<string>,
                                  controlId: string, limit: Option<nat>)
    requires Untagged(db) && controlId != ""
    ensures GetAuditLogs(db, users, userId, Some(controlId), limit) == []
  {
    var sel := Filter(db.auditLogs, Selected(Some(controlId)));
    FilterCount(db.auditLogs, Selected(Some(controlId)));
    assert forall k :: 0 <= k < |db.auditLogs| ==> !Selected(Some(controlId))(db.auditLogs[k]);
  }

  /** And the distinct-control counter as written is 1 as soon as there is
      any entry, however many controls were changed. */
  lemma UniqueControlsAsWritten(db: ControlsDb, userId: string, now: int)
    requires Untagged(db) && exists k :: 0 <= k < |db.auditLogs| && InDefaultOrg(db.auditLogs[k])
    ensures GetAuditStats(db, Some(userId), now).value.uniqueControls == 1
  {
    var logs := Filter(db.auditLogs, InDefaultOrg);
    var k :| 0 <= k < |db.auditLogs| && InDefaultOrg(db.auditLogs[k]);
    assert db.auditLogs[k] in logs;
    assert forall i :: 0 <= i < |logs| ==> logs[i] in db.auditLogs;
    DedupConstant(ControlIds(logs), None);
  }

  /** The counter as evidently intended: the number of distinct controls the
      entries refer to, by the entity id of "control" entries. */
  function UniqueControls(logs: seq<AuditLog>): nat {
    |Dedup(ControlEntities(logs))|
  }

  /** The ids of the controls the entries refer to, in table order. */
  function ControlEntities(logs: seq<AuditLog>): seq<nat>
    decreases |logs|
  {
    if logs == [] then []
    else
      var l := logs[0];
      (if l.entityType == Some("control") && l.entityId.Some? then [l.entityId.value] else []) + ControlEntities(logs[1..])
  }
  /** `getAuditStats` with the distinct-control counter corrected. */
  function GetAuditStatsCorrected(db: ControlsDb, userId: Option<string>, now: int): (r: Option<AuditStats>)
    ensures userId.None? <==> r.None?
    ensures r.Some? ==> var logs := Filter(db.auditLogs, InDefaultOrg);
      r.value.uniqueControls == UniqueControls(logs)
      && r.value == GetAuditStats(db, userId, now).value.(uniqueControls := UniqueControls(logs))
  {
    if userId.None? then None
    else
      var logs := Filter(db.auditLogs, InDefaultOrg);
      Some(AuditStats(|logs|, Count(logs, RecentAt(now)), Count(logs, IsStatusUpdate), UniqueControls(logs)))
  }

  /** What one status update leaves behind, in the terms the audit queries use:
      one more log, about the control and in its organisation, and the same
      controls in the same places. */
  lemma StatusUpdateLogged(db: ControlsDb, userId: string, id: nat, status: ControlStatus, now: int)
    requires FindControl(db.controls, id).Some?
    ensures var r := UpdateControlStatus(db, Some(userId), id, status, None, None, None, now);
      var org := db.controls[FindControl(db.controls, id).value].organizationId;
      r.Ok? && |r.value.auditLogs| == |db.auditLogs| + 1 && r.value.auditLogs[..|db.auditLogs|] == db.auditLogs
      && r.value.auditLogs[|db.auditLogs|].organizationId == org
      && r.value.auditLogs[|db.auditLogs|].entityType == Some("control")
      && r.value.auditLogs[|db.auditLogs|].entityId == Some(id)
      && |r.value.controls| == |db.controls|
      && forall k :: 0 <= k < |db.controls| ==>
           r.value.controls[k].id == db.controls[k].id && r.value.controls[k].organizationId == db.controls[k].organizationId
  {
  }

  /** Lookup by id only looks at the ids. */
  lemma FindControlSameIds(cs: seq<Control>, ds: seq<Control>, id: nat)
    requires |cs| == |ds| && forall k :: 0 <= k < |cs| ==> cs[k].id == ds[k].id
    ensures FindControl(cs, id) == FindControl(ds, id)
  {
  }

  /** Updating two different "default_org" controls on an empty trail: the
      corrected counter reports two controls, the counter as written one. */
  lemma TwoControlsCounted(db: ControlsDb, userId: string, a: nat, b: nat, sa: ControlStatus, sb: ControlStatus, now: int)
    requires db.auditLogs == [] && a != b
    requires FindControl(db.controls, a).Some? && FindControl(db.controls, b).Some?
    requires db.controls[FindControl(db.controls, a).value].organizationId == Some(DefaultOrg)
    requires db.controls[FindControl(db.controls, b).value].organizationId == Some(DefaultOrg)
    ensures var once := UpdateControlStatus(db, Some(userId), a, sa, None, None, None, now).value;
      var twice := UpdateControlStatus(once, Some(userId), b, sb, None, None, None, now).value;
      GetAuditStatsCorrected(twice, Some(userId), now).value.uniqueControls == 2
      && GetAuditStats(twice, Some(userId), now).value.uniqueControls == 1
  {
    StatusUpdateLogged(db, userId, a, sa, now);
    var once := UpdateControlStatus(db, Some(userId), a, sa, None, None, None, now).value;
    FindControlSameIds(once.controls, db.controls, b);
    StatusUpdateLogged(once, userId, b, sb, now);
    var twice := UpdateControlStatus(once, Some(userId), b, sb, None, None, None, now).value;
    var logs := twice.auditLogs;
    assert logs[0] == once.auditLogs[0];
    assert InDefaultOrg(logs[0]) && InDefaultOrg(logs[1]);
    FilterAll(logs, InDefaultOrg);
    TwoEntries(logs, a, b);
    UniqueControlsAsWritten(twice, userId, now);
  }

  lemma TwoEntries(logs: seq<AuditLog>, a: nat, b: nat)
    requires |logs| == 2 && a != b
    requires logs[0].entityType == Some("control") && logs[1].entityType == Some("control")
    requires logs[0].entityId == Some(a) && logs[1].entityId == Some(b)
    ensures UniqueControls(logs) == 2
  {
    var rest := logs[1..];
    assert ControlEntities(rest[1..]) == [];
    assert ControlEntities(rest) == [b];
    assert ControlEntities(logs) == [a, b];
    DedupPair(a, b);
  }
}
