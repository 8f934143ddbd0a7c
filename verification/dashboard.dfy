/** The compliance dashboard (src/Dashboard.tsx) and the percentage shown by
    its statistics card (src/StatsOverview.tsx): what the page derives from
    the `listControls` and `getComplianceStats` queries. */
module Dashboard {
  import opened Wrappers
  import opened Text
  import opened Seqs
  import opened Schema
  import opened Controls

  /** The domain selector's catch-all entry. */
  const AllDomains: string := "all"

  /** The selector's entries: "all", then the keys of `byDomain`. */
  function DomainOptions(stats: ComplianceStats): (r: seq<string>)
    ensures |r| == |stats.byDomain| + 1 && r[0] == AllDomains
  {
    [AllDomains] + Keys(stats.byDomain)
  }

  /** The case-insensitive search over title, control id and description. */
  predicate MatchesSearch(c: Control, term: string) {
    var t := LowerStr(term);
    Includes(LowerStr(c.title), t) || Includes(LowerStr(c.controlId), t) || Includes(LowerStr(c.description), t)
  }

  function Shown(selected: string, term: string): Control -> bool {
    (c: Control) => (selected == AllDomains || c.domain == selected) && MatchesSearch(c, term)
  }

  /** The cards on the grid: the controls of the selected domain whose text
      contains the search term, in the order the query returned them. */
  function FilterControls(cs: seq<Control>, selected: string, term: string): (r: seq<Control>)
    ensures IsSubseq(r, cs)
    ensures forall k :: 0 <= k < |r| ==>
      (selected == AllDomains || r[k].domain == selected) && MatchesSearch(r[k], term)
    ensures forall k :: 0 <= k < |cs| ==>
      ((selected == AllDomains || cs[k].domain == selected) && MatchesSearch(cs[k], term) ==> cs[k] in r)
  {
    FilterIsSubseq(cs, Shown(selected, term));
    Filter(cs, Shown(selected, term))
  }

  /** Every control matches the empty search. */
  lemma EmptySearchMatches(c: Control)
    ensures MatchesSearch(c, "")
  {
    IncludesEmpty(LowerStr(c.title));
    assert LowerStr("") == "";
  }

  /** With "all" selected and nothing typed, every control is shown. */
  lemma {:induction false} UnfilteredShowsAll(cs: seq<Control>)
    ensures FilterControls(cs, AllDomains, "") == cs
  {
    forall k | 0 <= k < |cs|
      ensures Shown(AllDomains, "")(cs[k])
    {
      EmptySearchMatches(cs[k]);
    }
    FilterAll(cs, Shown(AllDomains, ""));
  }

  /** Choosing a domain with an empty search shows what the server's domain
      index returns for that domain. */
  lemma DomainChoiceMatchesServer(db: ControlsDb, userId: string, domain: string)
    requires domain != "" && domain != AllDomains
    ensures FilterControls(ListControls(db, Some(userId), None), domain, "")
         == GetControlsByDomain(db, Some(userId), Some(domain), None)
  {
    forall c: Control
      ensures Shown(domain, "")(c) == InDomain(domain)(c)
    {
      EmptySearchMatches(c);
    }
    FilterCongruent(ListControls(db, Some(userId), None), Shown(domain, ""), InDomain(domain));
    DomainQueryIsFilteredList(db, Some(userId), domain, None);
  }

  /** The selector lists "all" and then each domain of the organisation's
      controls exactly once, in order of first appearance. */
  lemma DomainOptionsAreDomains(cs: seq<Control>)
    ensures var r := DomainOptions(StatsOf(cs));
      r == [AllDomains] + Dedup(Domains(cs))
      && (forall k :: 0 <= k < |cs| ==> cs[k].domain in r[1..])
      && (forall k :: 1 <= k < |r| ==> exists j :: 0 <= j < |cs| && cs[j].domain == r[k])
  {
    ByDomainKeys(cs);
    OptionsCoverDomains(cs, DomainOptions(StatsOf(cs)));
  }

  lemma OptionsCoverDomains(cs: seq<Control>, r: seq<string>)
    requires r == [AllDomains] + Dedup(Domains(cs))
    ensures forall k :: 0 <= k < |cs| ==> cs[k].domain in r[1..]
    ensures forall k :: 1 <= k < |r| ==> exists j :: 0 <= j < |cs| && cs[j].domain == r[k]
  {
    var ds := Domains(cs);
    var d := Dedup(ds);
    assert r[1..] == d;
    forall k | 1 <= k < |r|
      ensures exists j :: 0 <= j < |cs| && cs[j].domain == r[k]
    {
      assert r[k] == d[k - 1] && d[k - 1] in ds;
      var j :| 0 <= j < |ds| && ds[j] == d[k - 1];
      assert cs[j].domain == r[k];
    }
    forall k | 0 <= k < |cs|
      ensures cs[k].domain in r[1..]
    {
      assert ds[k] == cs[k].domain;
    }
  }

  // ------------------------------------------------------ completion

  /** `Math.round(part / total * 100)` with exact arithmetic: halves round up. */
  function RoundPercent(part: nat, total: nat): (r: int)
    requires total > 0
    ensures 2 * r * total <= 200 * part + total < 2 * r * total + 2 * total
    ensures part <= total ==> 0 <= r <= 100
  {
    HalfUpDivision(part, total);
    (200 * part + total) / (2 * total)
  }

  /** The quotient of rounding half up lies in 0..100 for a part of the whole. */
  lemma HalfUpDivision(part: nat, total: nat)
    requires total > 0
    ensures var r := (200 * part + total) / (2 * total);
      2 * r * total <= 200 * part + total < 2 * r * total + 2 * total
      && (part <= total ==> 0 <= r <= 100)
  {
    var r := (200 * part + total) / (2 * total);
    DivBounds(200 * part + total, 2 * total);
    assert 2 * r * total == (2 * total) * r;
    if part <= total && r > 100 {
      MulMono(101, r, 2 * total);
    }
  }

  /** Euclidean division leaves a remainder below the divisor. */
  lemma DivBounds(n: nat, d: nat)
    requires d > 0
    ensures d * (n / d) <= n < d * (n / d) + d
  {
  }

  /** The header's figure: `NaN` (here `None`) when there are no controls,
      since the page divides without a guard. */
  function DashboardCompletion(stats: ComplianceStats): (r: Option<int>)
    ensures r.None? <==> stats.total == 0
  {
    if stats.total == 0 then None else Some(RoundPercent(stats.implemented + stats.verified, stats.total))
  }

  /** The statistics card's figure: 0 when there are no controls. */
  function OverviewCompletion(stats: ComplianceStats): (r: int)
    ensures stats.total == 0 ==> r == 0
    ensures stats.total > 0 ==> Some(r) == DashboardCompletion(stats)
  {
    if stats.total == 0 then 0 else RoundPercent(stats.implemented + stats.verified, stats.total)
  }

  /** A percentage of a non-empty whole lies in 0..100; it reads 100 once at
      most half a percent is missing (so not only when the part is the whole)
      and 0 while less than half a percent is there. */
  lemma RoundPercentRange(part: nat, total: nat)
    requires 0 < total && part <= total
    ensures var p := RoundPercent(part, total);
      0 <= p <= 100
      && (p == 100 <==> 200 * (total - part) <= total)
      && (p == 0 <==> 200 * part < total)
      && (part == total ==> p == 100)
  {
    var p := RoundPercent(part, total);
    var q := p * total;
    assert 2 * q <= 200 * part + total < 2 * q + 2 * total;
    if p >= 101 {
      MulMono(101, p, total);
    }
    if p <= 99 {
      MulMono(p, 99, total);
    }
    if p >= 1 {
      MulMono(1, p, total);
    }
    if p <= 0 {
      MulMono(p, 0, total);
    }
  }

  lemma MulMono(a: int, b: int, c: nat)
    requires a <= b
    ensures a * c <= b * c
  {
  }

  /** The header's percentage of statistics whose done count fits in the
      total. */
  lemma CompletionOfStats(s: ComplianceStats)
    requires 0 < s.total && s.implemented + s.verified <= s.total
    ensures var p := DashboardCompletion(s).value;
      0 <= p <= 100
      && (s.implemented + s.verified == s.total ==> p == 100)
      && (s.implemented + s.verified == 0 ==> p == 0)
  {
    RoundPercentRange(s.implemented + s.verified, s.total);
  }

  /** For real statistics the header's percentage lies in 0..100, reads 100
      when every control is implemented or verified and 0 when none is. */
  lemma CompletionBounds(cs: seq<Control>)
    requires cs != []
    ensures var s := StatsOf(cs);
      var p := DashboardCompletion(s).value;
      0 <= p <= 100
      && (s.implemented + s.verified == s.total ==> p == 100)
      && (s.implemented + s.verified == 0 ==> p == 0)
  {
    StatsOfCounts(cs);
    CompletionOfStats(StatsOf(cs));
  }

  // ------------------------------------------------------ seeding trigger

  /** The effect that seeds the baseline: a signed-in user whose control list
      has loaded and is empty. */
  predicate ShouldInitialize(loggedIn: bool, controls: Option<seq<Control>>) {
    loggedIn && controls.Some? && |controls.value| == 0
  }

  /** When the effect fires, the seeding succeeds and the reloaded list no
      longer triggers it. */
  lemma InitializeFiresOnce(db: ControlsDb, userId: string, now: int)
    requires ShouldInitialize(true, Some(ListControls(db, Some(userId), None)))
    ensures var r := InitializeControls(db, Some(userId), None, now);
      r.Ok? && r.value.1 == Initialised
      && !ShouldInitialize(true, Some(ListControls(r.value.0, Some(userId), None)))
  {
    InitializedOrgIsBaseline(db, userId, None, now);
  }

  // ------------------------------------------------------ the page

  /** What the page shows once loaded. */
  datatype View = View(domains: seq<string>, cards: seq<Control>, completion: Option<int>)

  /** The page: a spinner (`None`) until the user, the controls and the
      statistics have all loaded. */
  function Render(loggedIn: bool, controls: Option<seq<Control>>, stats: Option<ComplianceStats>,
                  selected: string, term: string): (r: Option<View>)
    ensures r.Some? <==> loggedIn && controls.Some? && stats.Some?
    ensures r.Some? ==>
      (r.value.domains == DomainOptions(stats.value)
       && r.value.cards == FilterControls(controls.value, selected, term)
       && r.value.completion == DashboardCompletion(stats.value))
  {
    if loggedIn && controls.Some? && stats.Some? then
      Some(View(DomainOptions(stats.value), FilterControls(controls.value, selected, term),
                DashboardCompletion(stats.value)))
    else None
  }
}
