/** The readiness summary page (src/ReadinessSummary.tsx): the readiness
    level shown for the completion percentage, the stored AI analysis with
    its fallbacks, and the effect that requests a new analysis. */
module Readiness {
  import opened Wrappers
  import opened Schema
  import opened Controls
  import Ai
  import Dashboard

  datatype Level = Excellent | Good | Fair | NeedsImprovement

  /** Higher is better. */
  function Rank(l: Level): nat {
    match l
    case Excellent => 3
    case Good => 2
    case Fair => 1
    case NeedsImprovement => 0
  }

  /** `getReadinessLevel`; the page computes the percentage without a guard,
      so with no controls it is `NaN` (`None`), which fails every threshold. */
  function LevelOf(p: Option<int>): (l: Level)
    ensures l == Excellent <==> p.Some? && p.value >= 90
    ensures l == Good <==> p.Some? && 75 <= p.value < 90
    ensures l == Fair <==> p.Some? && 50 <= p.value < 75
    ensures l == NeedsImprovement <==> p.None? || p.value < 50
  {
    if p.None? then NeedsImprovement
    else if p.value >= 90 then Excellent
    else if p.value >= 75 then Good
    else if p.value >= 50 then Fair
    else NeedsImprovement
  }

  /** A higher percentage never shows a lower level. */
  lemma LevelMonotone(p: int, q: int)
    requires p <= q
    ensures Rank(LevelOf(Some(p))) <= Rank(LevelOf(Some(q)))
  {
  }

  /** The level shown for statistics. */
  function PageLevel(stats: ComplianceStats): Level {
    LevelOf(Dashboard.DashboardCompletion(stats))
  }

  /** A fully implemented organisation is rated excellent; one where nothing
      is implemented or verified needs improvement. */
  lemma LevelExtremes(cs: seq<Control>)
    requires cs != []
    ensures var s := StatsOf(cs);
      (s.implemented + s.verified == s.total ==> PageLevel(s) == Excellent)
      && (s.implemented + s.verified == 0 ==> PageLevel(s) == NeedsImprovement)
  {
    Dashboard.CompletionBounds(cs);
  }

  /** A freshly seeded organisation needs improvement. */
  lemma SeededNeedsImprovement(db: ControlsDb, userId: string, now: int)
    requires ListControls(db, Some(userId), None) == []
    ensures var after := InitializeControls(db, Some(userId), None, now).value.0;
      PageLevel(GetComplianceStats(after, Some(userId), None).value) == NeedsImprovement
  {
    var after := InitializeControls(db, Some(userId), None, now).value.0;
    SeededStats(db, userId, None, now);
    Dashboard.CompletionOfStats(GetComplianceStats(after, Some(userId), None).value);
  }

  // ---------------------------------------------------- the stored analysis

  const NoRecommendations: string := "No specific recommendations available."
  const DefaultPriorityText: string := "Focus on completing remaining controls to improve overall compliance readiness."

  /** The recommendations panel: the numbered list when the field is present
      (an empty list shows nothing), the placeholder text when it is absent. */
  datatype RecommendationsView = Numbered(items: seq<(nat, string)>) | Placeholder(text: string)

  function ShowRecommendations(recs: Option<seq<string>>): (v: RecommendationsView)
    ensures recs.None? <==> v == Placeholder(NoRecommendations)
    ensures recs.Some? ==>
      (v.Numbered? && |v.items| == |recs.value|
       && forall k :: 0 <= k < |recs.value| ==> v.items[k] == (k + 1, recs.value[k]))
  {
    match recs
    case None => Placeholder(NoRecommendations)
    case Some(rs) => Numbered(seq(|rs|, k requires 0 <= k < |rs| => (k + 1, rs[k])))
  }

  /** The priority panel: the stored text, or the fixed advice when it is
      absent or empty. */
  function ShowPriority(priority: Option<string>): (t: string)
    ensures t != ""
    ensures priority.Some? && priority.value != "" ==> t == priority.value
  {
    if priority.Some? && priority.value != "" then priority.value else DefaultPriorityText
  }

  /** Every stored analysis shows its own list and its own priority text:
      the placeholders never appear for what the summary action stores. */
  lemma StoredAnalysisShowsOwnText(table: seq<AiSummary>, reply: Ai.GenReply,
                                   parse: string -> Ai.JsonValue, now: int)
    ensures var r := Ai.GenerateSummaryAction(table, reply, parse, now);
      var s := r[|r| - 1];
      ShowRecommendations(s.recommendations).Numbered? && ShowPriority(s.priorityActions) == s.priorityActions.value
  {
    Ai.StoredSummaryNeverEmpty(table, reply, parse, now);
  }

  // ---------------------------------------------------- requesting analysis

  /** The effect that asks for an analysis: a signed-in user, loaded
      statistics, no stored analysis and no request running. */
  predicate ShouldGenerate(loggedIn: bool, statsLoaded: bool, summary: Option<AiSummary>, generating: bool) {
    loggedIn && statsLoaded && summary.None? && !generating
  }

  /** `handleGenerateSummary` pressed or triggered: ignored while a request
      runs; otherwise the flag is raised and the mutation is called with no
      model. The result is the new flag and the scheduled call, if any. */
  function StartGenerate(generating: bool, userId: Option<string>): (r: (bool, Option<Result<string>>))
    ensures generating ==> r == (true, None)
    ensures !generating ==> r.0 && r.1 == Some(Ai.GenerateReadinessSummary(userId, None))
  {
    if generating then (true, None) else (true, Some(Ai.GenerateReadinessSummary(userId, None)))
  }

  /** A second press while the first request runs sends nothing, and the one
      request sent asks for the default chat model. */
  lemma OneRequestAtATime(userId: string)
    ensures var first := StartGenerate(false, Some(userId));
      first.1 == Some(Ok(Ai.DefaultChatModel)) && StartGenerate(first.0, Some(userId)).1.None?
  {
  }

  /** Once the summary action has stored an analysis, a signed-in page reads
      one back and the effect stops asking. */
  lemma StoredAnalysisStopsEffect(table: seq<AiSummary>, reply: Ai.GenReply, parse: string -> Ai.JsonValue,
                                  now: int, userId: string)
    ensures var r := Ai.GenerateSummaryAction(table, reply, parse, now);
      Ai.GetReadinessSummary(r, Some(userId)).Some?
      && !ShouldGenerate(true, true, Ai.GetReadinessSummary(r, Some(userId)), false)
  {
    var r := Ai.GenerateSummaryAction(table, reply, parse, now);
    assert Ai.SummaryCount(r) >= 1;
  }
}
