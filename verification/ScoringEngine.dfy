/** The reference data of scoring and the two engines that read it: the most specific
    v1 rule, and the v2 policy version with its component tables. */
module ScoringEngine {
  import opened Common
  import opened Scoring
  import opened ActivityModel

  // ---- Reference data ---------------------------------------------------------

  datatype Event = Event(
    organization: nat, season: Option<nat>, category: Option<nat>, level: Option<nat>,
    boost: int, startAt: int, moscowDate: Date)

  datatype Season = Season(policy: Option<nat>, policyFrom: Option<int>)

  datatype Tier = Tier(sequenceFrom: nat, sequenceTo: Option<nat>, value: int)

  datatype PolicyVersion = PolicyVersion(
    live: bool, effectiveFrom: Option<int>, effectiveTo: Option<int>,
    roleBases: map<RoleId, int>, levelMultipliers: map<nat, int>, statusMultipliers: map<nat, int>,
    resultBonuses: map<ResultId, int>, tiers: seq<Tier>)

  datatype Rule = Rule(
    season: nat, active: bool, category: Option<nat>, level: Option<nat>, role: Option<RoleId>,
    result: Option<ResultId>, validFrom: Option<int>, validTo: Option<int>, priority: int, points: int)

  /** Reference tables. Foreign keys make the lookups by event, season and policy total. */
  datatype Catalog = Catalog(
    event: EventId -> Event, season: nat -> Season, versions: nat -> seq<PolicyVersion>,
    rules: seq<Rule>, activeRoles: set<RoleId>, activeResults: set<ResultId>)

  // ---- Scoring Engine v1: the most specific rule ------------------------------

  predicate Allows(wanted: Option<nat>, actual: Option<nat>) {
    wanted.None? || wanted == actual
  }

  predicate RuleMatches(rule: Rule, e: Event, role: Option<RoleId>, result: Option<ResultId>) {
    && rule.active
    && e.season == Some(rule.season)
    && Allows(rule.category, e.category)
    && Allows(rule.level, e.level)
    && Allows(rule.role, role)
    && Allows(rule.result, result)
    && (rule.validFrom.None? || rule.validFrom.value <= e.startAt)
    && (rule.validTo.None? || rule.validTo.value > e.startAt)
  }

  function Specificity(rule: Rule): nat {
    (if rule.category.Some? then 1 else 0) + (if rule.level.Some? then 1 else 0)
    + (if rule.role.Some? then 1 else 0) + (if rule.result.Some? then 1 else 0)
  }

  /** `a` sorts strictly before `b` by priority, then by specificity. */
  predicate Outranks(a: Rule, b: Rule) {
    a.priority > b.priority || (a.priority == b.priority && Specificity(a) > Specificity(b))
  }

  datatype RuleChoice = Nothing | Chosen(rule: Rule) | Tied(rule: Rule)

  /** The head of the ranking, and whether the second place ties with it. */
  function Rank(rules: seq<Rule>, e: Event, role: Option<RoleId>, result: Option<ResultId>): RuleChoice {
    if rules == [] then
      Nothing
    else
      var rest, rule := Rank(rules[..|rules| - 1], e, role, result), rules[|rules| - 1];
      if !RuleMatches(rule, e, role, result) then rest
      else if rest.Nothing? || Outranks(rule, rest.rule) then Chosen(rule)
      else if Outranks(rest.rule, rule) then rest
      else Tied(rest.rule)
  }

  function FindScoringRule(c: Catalog, event: EventId, role: Option<RoleId>, result: Option<ResultId>): RuleChoice {
    var e := c.event(event);
    if e.season.None? || role.None? then Nothing else Rank(c.rules, e, role, result)
  }

  function RulePoints(c: Catalog, event: EventId, role: Option<RoleId>, result: Option<ResultId>): Points {
    match FindScoringRule(c, event, role, result)
    case Nothing => Missing(ScoringComponentMissing)
    case Chosen(rule) => Points(rule.points)
    case Tied(_) => Failure(ScoringRuleAmbiguous)
  }

  // ---- Scoring Engine v2 ------------------------------------------------------

  predicate UsesV2(c: Catalog, event: EventId) {
    var e := c.event(event);
    e.season.Some?
    && var s := c.season(e.season.value);
       s.policy.Some? && s.policyFrom.Some? && e.startAt >= s.policyFrom.value
  }

  predicate Applies(v: PolicyVersion, at: int) {
    v.live && v.effectiveFrom.Some? && v.effectiveFrom.value <= at
    && (v.effectiveTo.None? || v.effectiveTo.value > at)
  }

  function Applicable(versions: seq<PolicyVersion>, at: int): seq<PolicyVersion> {
    if versions == [] then
      []
    else
      (if Applies(versions[0], at) then [versions[0]] else []) + Applicable(versions[1..], at)
  }

  predicate StatusApplies(a: StatusAssignment, person: PersonId, date: Date) {
    a.person == person && a.validFrom <= date
    && (a.validTo.None? || a.validTo.value >= date)
    && (a.retiredOn.None? || a.retiredOn.value > date)
  }

  /** Multipliers of the statuses the person holds on the date. */
  function StatusFactors(
    statuses: seq<StatusAssignment>, v: PolicyVersion, person: PersonId, date: Date): seq<real>
  {
    if statuses == [] then
      []
    else
      var a := statuses[0];
      (if StatusApplies(a, person, date) && a.statusType in v.statusMultipliers
       then [Exact(v.statusMultipliers[a.statusType])] else [])
      + StatusFactors(statuses[1..], v, person, date)
  }

  /** The applicable newcomer tier with the largest lower bound. */
  function FindTier(tiers: seq<Tier>, sequence: nat): Option<Tier> {
    if tiers == [] then
      None
    else
      var rest, t := FindTier(tiers[1..], sequence), tiers[0];
      if t.sequenceFrom <= sequence && (t.sequenceTo.None? || t.sequenceTo.value >= sequence)
         && (rest.None? || t.sequenceFrom >= rest.value.sequenceFrom)
      then Some(t) else rest
  }

  /** `calculate_participation` once the sequence is known. */
  function CalculatePoints(
    c: Catalog, statuses: seq<StatusAssignment>, event: EventId, person: PersonId,
    role: Option<RoleId>, result: Option<ResultId>, sequence: nat): Points
  {
    var e := c.event(event);
    if !UsesV2(c, event) then
      Failure(ScoringPolicyNotAssigned)
    else
      var versions := Applicable(c.versions(c.season(e.season.value).policy.value), e.startAt);
      if |versions| > 1 then Failure(ScoringPolicyAmbiguous)
      else if |versions| == 0 then Missing(ScoringPolicyVersionNotFound)
      else PointsUnder(versions[0], e, statuses, person, role, result, sequence)
  }

  /** The components one policy version contributes, None when one is missing. */
  function InputUnder(
    v: PolicyVersion, e: Event, statuses: seq<StatusAssignment>, person: PersonId,
    role: Option<RoleId>, result: Option<ResultId>, sequence: nat): Option<ScoringInput>
  {
    var tier := FindTier(v.tiers, sequence);
    if role.None? || role.value !in v.roleBases || e.level.None? || e.level.value !in v.levelMultipliers
       || tier.None? || (result.Some? && result.value !in v.resultBonuses) then
      None
    else
      Some(ScoringInput(
        Exact(v.roleBases[role.value]), Exact(v.levelMultipliers[e.level.value]), Exact(e.boost),
        StatusFactors(statuses, v, person, e.moscowDate), Exact(tier.value.value),
        if result.Some? then Some(v.resultBonuses[result.value]) else None))
  }

  function PointsUnder(
    v: PolicyVersion, e: Event, statuses: seq<StatusAssignment>, person: PersonId,
    role: Option<RoleId>, result: Option<ResultId>, sequence: nat): Points
  {
    match InputUnder(v, e, statuses, person, role, result, sequence)
    case None => Missing(ScoringComponentMissing)
    case Some(input) => Points(CalculationOf(input).finalPoints)
  }

  /** The engine the services consult, from the reference tables. */
  function EngineOf(c: Catalog): Engine {
    Engine(
      (event: EventId) => c.event(event).season.Some?,
      (event: EventId) => c.event(event).level.Some?,
      (event: EventId) => UsesV2(c, event),
      (statuses: seq<StatusAssignment>, event: EventId, person: PersonId, role: Option<RoleId>,
       result: Option<ResultId>, sequence: nat) =>
        CalculatePoints(c, statuses, event, person, role, result, sequence),
      (event: EventId, role: Option<RoleId>, result: Option<ResultId>) => RulePoints(c, event, role, result),
      c.activeRoles,
      c.activeResults)
  }

  // ---- What the choices mean --------------------------------------------------

  /** Rule `i` applies and no other applicable rule reaches it. */
  ghost predicate IsBest(rules: seq<Rule>, e: Event, role: Option<RoleId>, result: Option<ResultId>, i: nat) {
    && i < |rules| && RuleMatches(rules[i], e, role, result)
    && forall j :: 0 <= j < |rules| && j != i && RuleMatches(rules[j], e, role, result) ==> Outranks(rules[i], rules[j])
  }

  /** Two applicable rules share the highest rank. */
  ghost predicate SharedBest(
    rules: seq<Rule>, e: Event, role: Option<RoleId>, result: Option<ResultId>, i: nat, k: nat)
  {
    && i < |rules| && k < |rules| && i != k
    && RuleMatches(rules[i], e, role, result) && RuleMatches(rules[k], e, role, result)
    && !Outranks(rules[i], rules[k]) && !Outranks(rules[k], rules[i])
    && forall j :: 0 <= j < |rules| && RuleMatches(rules[j], e, role, result) ==> !Outranks(rules[j], rules[i])
  }

  /** The rule chosen is the single best one wherever it stands in the table; the choice is
      refused exactly when two rules share the highest rank. */
  lemma {:induction false} RankIsBest(rules: seq<Rule>, e: Event, role: Option<RoleId>, result: Option<ResultId>)
    ensures match Rank(rules, e, role, result)
      case Nothing => forall j :: 0 <= j < |rules| ==> !RuleMatches(rules[j], e, role, result)
      case Chosen(rule) => exists i: nat :: IsBest(rules, e, role, result, i) && rules[i] == rule
      case Tied(rule) => exists i: nat, k: nat :: SharedBest(rules, e, role, result, i, k) && rules[i] == rule
  {
    if rules != [] {
      var n := |rules| - 1;
      var front, rule := rules[..n], rules[n];
      RankIsBest(front, e, role, result);
      match Rank(front, e, role, result)
      case Nothing =>
        assert RuleMatches(rule, e, role, result) ==> IsBest(rules, e, role, result, n);
      case Chosen(best) =>
        var i: nat :| IsBest(front, e, role, result, i) && front[i] == best;
        BestWithOneMore(rules, e, role, result, i);
      case Tied(best) =>
        var i: nat, k: nat :| SharedBest(front, e, role, result, i, k) && front[i] == best;
        TieWithOneMore(rules, e, role, result, i, k);
    }
  }

  lemma BestWithOneMore(rules: seq<Rule>, e: Event, role: Option<RoleId>, result: Option<ResultId>, i: nat)
    requires rules != [] && IsBest(rules[..|rules| - 1], e, role, result, i)
    ensures var n := |rules| - 1;
      if !RuleMatches(rules[n], e, role, result) || Outranks(rules[i], rules[n]) then IsBest(rules, e, role, result, i)
      else if Outranks(rules[n], rules[i]) then IsBest(rules, e, role, result, n)
      else SharedBest(rules, e, role, result, i, n)
  {
    var n := |rules| - 1;
    forall j | 0 <= j < n && j != i && RuleMatches(rules[j], e, role, result)
      ensures Outranks(rules[i], rules[j])
    {
      assert rules[..n][j] == rules[j];
    }
  }

  lemma TieWithOneMore(rules: seq<Rule>, e: Event, role: Option<RoleId>, result: Option<ResultId>, i: nat, k: nat)
    requires rules != [] && SharedBest(rules[..|rules| - 1], e, role, result, i, k)
    ensures var n := |rules| - 1;
      if RuleMatches(rules[n], e, role, result) && Outranks(rules[n], rules[i]) then IsBest(rules, e, role, result, n)
      else SharedBest(rules, e, role, result, i, k)
  {
    var n := |rules| - 1;
    forall j | 0 <= j < n && RuleMatches(rules[j], e, role, result)
      ensures !Outranks(rules[j], rules[i])
    {
      assert rules[..n][j] == rules[j];
    }
  }

  predicate TierApplies(t: Tier, sequence: nat) {
    t.sequenceFrom <= sequence && (t.sequenceTo.None? || t.sequenceTo.value >= sequence)
  }

  /** The tier taken covers the position and starts latest of those that do. */
  lemma {:induction false} TierStartsLatest(tiers: seq<Tier>, sequence: nat)
    ensures match FindTier(tiers, sequence)
      case None => forall i :: 0 <= i < |tiers| ==> !TierApplies(tiers[i], sequence)
      case Some(t) =>
        && t in tiers && TierApplies(t, sequence)
        && forall i :: 0 <= i < |tiers| && TierApplies(tiers[i], sequence) ==> tiers[i].sequenceFrom <= t.sequenceFrom
  {
    if tiers != [] {
      TierStartsLatest(tiers[1..], sequence);
      forall i | 0 < i < |tiers|
        ensures tiers[i] == tiers[1..][i - 1]
      {
      }
    }
  }
}
