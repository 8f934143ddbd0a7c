/** The control configuration page (src/Configuration.tsx): domain tabs,
    one expanded card at a time, and the edit form that saves through
    `updateControlConfiguration`. */
module Configuration {
  import opened Wrappers
  import opened Seqs
  import opened Schema
  import opened Controls
  import Dashboard

  /** The edit form's four fields. */
  datatype EditData = EditData(title: string, description: string, requirement: string, revisionNotes: string)

  const EmptyEdit: EditData := EditData("", "", "", "")

  /** The page state: the domain tab, the expanded card, the card being
      edited and the form. */
  datatype ConfigState = ConfigState(selected: string, expanded: Option<nat>, editing: Option<nat>, form: EditData)

  const Initial: ConfigState := ConfigState(Dashboard.AllDomains, None, None, EmptyEdit)

  /** The tabs: "all", then each domain once, in order of first appearance. */
  function DomainTabs(controls: seq<Control>): (r: seq<string>)
    ensures |r| >= 1 && r[0] == Dashboard.AllDomains
    ensures forall k :: 0 <= k < |controls| ==> controls[k].domain in r[1..]
    ensures forall i, j :: 1 <= i < j < |r| ==> r[i] != r[j]
  {
    var d := Dedup(Domains(controls));
    assert forall k :: 0 <= k < |controls| ==> Domains(controls)[k] == controls[k].domain;
    [Dashboard.AllDomains] + d
  }

  /** The configuration tabs are the dashboard's domain options. */
  lemma TabsMatchDashboard(controls: seq<Control>)
    ensures DomainTabs(controls) == Dashboard.DomainOptions(StatsOf(controls))
  {
    Dashboard.DomainOptionsAreDomains(controls);
  }

  /** The cards under the selected tab. */
  function VisibleControls(controls: seq<Control>, selected: string): (r: seq<Control>)
    ensures selected == Dashboard.AllDomains ==> r == controls
    ensures forall k :: 0 <= k < |r| ==> r[k] in controls && (selected == Dashboard.AllDomains || r[k].domain == selected)
    ensures forall k :: 0 <= k < |controls| && controls[k].domain == selected ==> controls[k] in r
  {
    if selected == Dashboard.AllDomains then controls else Filter(controls, InDomain(selected))
  }

  /** A tab shows what the dashboard shows for that domain with an empty
      search. */
  lemma VisibleMatchesDashboard(controls: seq<Control>, selected: string)
    ensures VisibleControls(controls, selected) == Dashboard.FilterControls(controls, selected, "")
  {
    if selected == Dashboard.AllDomains {
      Dashboard.UnfilteredShowsAll(controls);
    } else {
      forall c: Control
        ensures InDomain(selected)(c) == Dashboard.Shown(selected, "")(c)
      {
        Dashboard.EmptySearchMatches(c);
      }
      FilterCongruent(controls, InDomain(selected), Dashboard.Shown(selected, ""));
    }
  }

  /** The Expand/Collapse button: opens the card, or closes it when it is the
      open one. */
  function ToggleExpanded(s: ConfigState, id: nat): (r: ConfigState)
    ensures r.expanded == Some(id) <==> s.expanded != Some(id)
    ensures r.expanded != Some(id) ==> r.expanded.None?
    ensures r.selected == s.selected && r.editing == s.editing && r.form == s.form
  {
    s.(expanded := if s.expanded == Some(id) then None else Some(id))
  }

  /** Pressing the same card's button twice restores an open or closed card. */
  lemma ToggleTwice(s: ConfigState, id: nat)
    requires s.expanded.None? || s.expanded == Some(id)
    ensures ToggleExpanded(ToggleExpanded(s, id), id) == s
  {
  }

  /** "Edit": the form is filled from the control, with blank revision
      notes. */
  function EditStart(s: ConfigState, c: Control): (r: ConfigState)
    ensures r.editing == Some(c.id) && r.selected == s.selected && r.expanded == s.expanded
    ensures r.form.title == c.title && r.form.description == c.description
      && r.form.requirement == c.requirement && r.form.revisionNotes == ""
  {
    s.(editing := Some(c.id), form := EditData(c.title, c.description, c.requirement, ""))
  }

  /** "Cancel": leaves editing and clears the form. */
  function Cancel(s: ConfigState): (r: ConfigState)
    ensures r.editing.None? && r.form == EmptyEdit && r.selected == s.selected && r.expanded == s.expanded
  {
    s.(editing := None, form := EmptyEdit)
  }

  /** "Save Changes" on the card `id`: sends all four fields; on success
      editing ends (the form keeps its text), on failure nothing changes. */
  function Save(s: ConfigState, db: ControlsDb, userId: Option<string>, id: nat, now: int)
    : (r: (ConfigState, ControlsDb))
    ensures var u := UpdateControlConfiguration(db, userId, id, Some(s.form.title), Some(s.form.description),
                                               Some(s.form.requirement), Some(s.form.revisionNotes), now);
      (u.Ok? ==> r == (s.(editing := None), u.value)) && (u.Err? ==> r == (s, db))
  {
    match UpdateControlConfiguration(db, userId, id, Some(s.form.title), Some(s.form.description),
                                     Some(s.form.requirement), Some(s.form.revisionNotes), now)
    case Ok(after) => (s.(editing := None), after)
    case Err(_) => (s, db)
  }

  /** Opening the form and saving it untouched keeps the control's texts,
      marks it revised with empty notes, and closes the form. */
  lemma UntouchedSaveMarksRevised(s: ConfigState, db: ControlsDb, userId: string, id: nat, now: int)
    requires FindControl(db.controls, id).Some?
    ensures var i := FindControl(db.controls, id).value;
      var prior := db.controls[i];
      var r := Save(EditStart(s, prior), db, Some(userId), id, now);
      var c := r.1.controls[i];
      r.0.editing.None?
      && c.title == prior.title && c.description == prior.description && c.requirement == prior.requirement
      && c.isRevised == Some(true) && c.revisionNotes == Some("")
  {
  }

  /** Clearing a field in the form does not clear it on the control: the
      server ignores empty texts. */
  lemma ClearedTitleKept(s: ConfigState, db: ControlsDb, userId: string, id: nat, now: int)
    requires s.form.title == "" && FindControl(db.controls, id).Some?
    ensures var i := FindControl(db.controls, id).value;
      Save(s, db, Some(userId), id, now).1.controls[i].title == db.controls[i].title
  {
  }

  /** Saving while signed out or for a missing control leaves both the page
      and the data as they were. */
  lemma FailedSaveKeepsEditing(s: ConfigState, db: ControlsDb, userId: Option<string>, id: nat, now: int)
    requires userId.None? || FindControl(db.controls, id).None?
    ensures Save(s, db, userId, id, now) == (s, db)
  {
  }
}
