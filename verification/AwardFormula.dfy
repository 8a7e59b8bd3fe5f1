/** What the ledger laws, which hold for any scoring rules, say about the MosActive ones:
    an award in terms of the rows of the reference tables, however the engine finds them. */
module AwardFormula {
  import opened Common
  import opened Scoring
  import opened ActivityModel
  import opened ActivityService
  import opened ScoringEngine
  import opened LedgerInvariant
  import opened ActivityInvariant
  import opened ActivityLaws

  // ---- The rows of a v2 policy ------------------------------------------------

  /** The event's season has a policy that starts no later than the event. */
  ghost predicate UnderPolicy(c: Catalog, e: Event) {
    && e.season.Some? && c.season(e.season.value).policy.Some?
    && c.season(e.season.value).policyFrom.Some? && c.season(e.season.value).policyFrom.value <= e.startAt
  }

  function VersionsFor(c: Catalog, e: Event): seq<PolicyVersion>
    requires UnderPolicy(c, e)
  {
    c.versions(c.season(e.season.value).policy.value)
  }

  /** Version `i` is published or retired, and the instant lies in its half-open period. */
  ghost predicate InForce(versions: seq<PolicyVersion>, at: int, i: nat) {
    && i < |versions| && versions[i].live
    && versions[i].effectiveFrom.Some? && versions[i].effectiveFrom.value <= at
    && (versions[i].effectiveTo.Some? ==> at < versions[i].effectiveTo.value)
  }

  ghost predicate OnlyInForce(versions: seq<PolicyVersion>, at: int, i: nat) {
    InForce(versions, at, i) && forall j: nat :: InForce(versions, at, j) ==> j == i
  }

  /** The position lies in tier `t`, bounds included. */
  ghost predicate InTier(tiers: seq<Tier>, sequence: nat, t: nat) {
    && t < |tiers| && tiers[t].sequenceFrom <= sequence
    && (tiers[t].sequenceTo.Some? ==> sequence <= tiers[t].sequenceTo.value)
  }

  ghost predicate LatestTier(tiers: seq<Tier>, sequence: nat, t: nat) {
    InTier(tiers, sequence, t)
    && forall k: nat :: InTier(tiers, sequence, k) ==> tiers[k].sequenceFrom <= tiers[t].sequenceFrom
  }

  /** What one status row multiplies the score of the person by on a date: nothing after its
      last day, nothing from its retirement day on, nothing without a multiplier. */
  ghost function RowFactor(v: PolicyVersion, a: StatusAssignment, person: PersonId, date: Date): real {
    if a.person == person && a.statusType in v.statusMultipliers && a.validFrom <= date
      && (a.validTo.Some? ==> date <= a.validTo.value) && (a.retiredOn.Some? ==> date < a.retiredOn.value)
    then Exact(v.statusMultipliers[a.statusType]) else 1.0
  }

  /** The factors of all rows of the table, multiplied. */
  ghost function StatusProduct(
    statuses: seq<StatusAssignment>, v: PolicyVersion, person: PersonId, date: Date): real
  {
    if statuses == [] then
      1.0
    else
      StatusProduct(statuses[..|statuses| - 1], v, person, date)
      * RowFactor(v, statuses[|statuses| - 1], person, date)
  }

  /** Everything the formula needs of the version but a tier. */
  ghost predicate Configured(v: PolicyVersion, e: Event, role: Option<RoleId>, result: Option<ResultId>) {
    && role.Some? && role.value in v.roleBases
    && e.level.Some? && e.level.value in v.levelMultipliers
    && (result.Some? ==> result.value in v.resultBonuses)
  }

  /** The unrounded amount: role base, level, boost, statuses and tier multiplied, and the
      bonus of the result, if there is one, added. */
  ghost function Price(
    v: PolicyVersion, t: nat, e: Event, statuses: seq<StatusAssignment>, person: PersonId, role: RoleId,
    result: Option<ResultId>): real
    requires Configured(v, e, Some(role), result) && t < |v.tiers|
  {
    Exact(v.roleBases[role]) * Exact(v.levelMultipliers[e.level.value]) * Exact(e.boost)
    * StatusProduct(statuses, v, person, e.moscowDate) * Exact(v.tiers[t].value)
    + if result.Some? then Exact(v.resultBonuses[result.value]) else 0.0
  }

  /** Half of 0.0001. */
  const HALF_UNIT: real := 0.00005

  ghost predicate Rounds(points: int, price: real) {
    -HALF_UNIT <= Exact(points) - price <= HALF_UNIT
  }

  // ---- What the engine finds --------------------------------------------------

  lemma {:induction false} FactorsMultiply(
    statuses: seq<StatusAssignment>, v: PolicyVersion, person: PersonId, date: Date)
    ensures Product(StatusFactors(statuses, v, person, date)) == StatusProduct(statuses, v, person, date)
  {
    if statuses != [] {
      var front, last := statuses[..|statuses| - 1], statuses[|statuses| - 1];
      assert statuses == front + [last];
      FactorsMultiply(front, v, person, date);
      FactorsAppend(front, last, v, person, date);
      var factors := StatusFactors(front, v, person, date);
      assert [last][1..] == [];
      if StatusFactors([last], v, person, date) == [] {
        assert factors + [] == factors;
      } else {
        ProductAppend(factors, RowFactor(v, last, person, date));
      }
    }
  }

  lemma {:induction false} FactorsAppend(
    statuses: seq<StatusAssignment>, a: StatusAssignment, v: PolicyVersion, person: PersonId, date: Date)
    ensures StatusFactors(statuses + [a], v, person, date) ==
      StatusFactors(statuses, v, person, date) + StatusFactors([a], v, person, date)
  {
    if statuses == [] {
      assert statuses + [a] == [a];
    } else {
      assert (statuses + [a])[1..] == statuses[1..] + [a];
      FactorsAppend(statuses[1..], a, v, person, date);
    }
  }

  /** The versions found are none, exactly version `i`, or more, `i` and `j` among them. */
  ghost predicate FoundVersions(versions: seq<PolicyVersion>, at: int, found: seq<PolicyVersion>, i: nat, j: nat) {
    if |found| == 0 then forall k: nat :: !InForce(versions, at, k)
    else if |found| == 1 then OnlyInForce(versions, at, i) && found == [versions[i]]
    else i != j && InForce(versions, at, i) && InForce(versions, at, j)
  }

  lemma {:induction false} VersionsFound(versions: seq<PolicyVersion>, at: int) returns (i: nat, j: nat)
    ensures FoundVersions(versions, at, Applicable(versions, at), i, j)
  {
    i, j := 0, 0;
    if versions != [] {
      var rest := versions[1..];
      var k, l := VersionsFound(rest, at);
      assert forall n: nat :: InForce(rest, at, n) <==> InForce(versions, at, n + 1);
      assert forall n: nat :: InForce(versions, at, n) ==> n == 0 || InForce(rest, at, n - 1);
      i, j := if InForce(versions, at, 0) then 0 else k + 1, if InForce(versions, at, 0) then k + 1 else l + 1;
    }
  }

  /** The tier found is tier `t`, or none covers the position. */
  ghost predicate FoundTier(tiers: seq<Tier>, sequence: nat, found: Option<Tier>, t: nat) {
    if found.None? then forall k: nat :: !InTier(tiers, sequence, k)
    else LatestTier(tiers, sequence, t) && tiers[t] == found.value
  }

  lemma TierFound(tiers: seq<Tier>, sequence: nat) returns (t: nat)
    ensures FoundTier(tiers, sequence, FindTier(tiers, sequence), t)
  {
    t := 0;
    TierStartsLatest(tiers, sequence);
    if FindTier(tiers, sequence).Some? {
      t :| t < |tiers| && tiers[t] == FindTier(tiers, sequence).value;
    }
    forall k: nat | InTier(tiers, sequence, k)
      ensures TierApplies(tiers[k], sequence)
    {
    }
  }

  // ---- What a participation is worth ------------------------------------------

  /** Version `i` is the only one in force and has every component, tier `t` is the latest
      one that covers the position, and the points are the rounded price. */
  ghost predicate PricedBy(
    c: Catalog, e: Event, statuses: seq<StatusAssignment>, person: PersonId, role: Option<RoleId>,
    result: Option<ResultId>, sequence: nat, points: int, i: nat, t: nat)
  {
    && UnderPolicy(c, e)
    && var versions := VersionsFor(c, e);
       && OnlyInForce(versions, e.startAt, i)
       && Configured(versions[i], e, role, result) && LatestTier(versions[i].tiers, sequence, t)
       && Rounds(points, Price(versions[i], t, e, statuses, person, role.value, result))
  }

  /** The version in force lacks a component. */
  ghost predicate Unconfigured(
    v: PolicyVersion, e: Event, role: Option<RoleId>, result: Option<ResultId>, sequence: nat)
  {
    !Configured(v, e, role, result) || forall t: nat :: !InTier(v.tiers, sequence, t)
  }

  ghost predicate LacksComponent(
    c: Catalog, e: Event, role: Option<RoleId>, result: Option<ResultId>, sequence: nat, i: nat)
  {
    && UnderPolicy(c, e) && OnlyInForce(VersionsFor(c, e), e.startAt, i)
    && Unconfigured(VersionsFor(c, e)[i], e, role, result, sequence)
  }

  ghost predicate NoneInForce(c: Catalog, e: Event) {
    UnderPolicy(c, e) && forall k: nat :: !InForce(VersionsFor(c, e), e.startAt, k)
  }

  ghost predicate TwoInForce(c: Catalog, e: Event, i: nat, j: nat) {
    && UnderPolicy(c, e) && i != j
    && InForce(VersionsFor(c, e), e.startAt, i) && InForce(VersionsFor(c, e), e.startAt, j)
  }

  /** The rounded price at tier `t`, or a component is missing. */
  ghost predicate PricedUnder(
    v: PolicyVersion, e: Event, statuses: seq<StatusAssignment>, person: PersonId, role: Option<RoleId>,
    result: Option<ResultId>, sequence: nat, worth: Points, t: nat)
  {
    if worth.Points? then
      && Configured(v, e, role, result) && LatestTier(v.tiers, sequence, t)
      && Rounds(worth.points, Price(v, t, e, statuses, person, role.value, result))
    else
      worth == Missing(ScoringComponentMissing) && Unconfigured(v, e, role, result, sequence)
  }

  lemma PriceUnder(
    v: PolicyVersion, e: Event, statuses: seq<StatusAssignment>, person: PersonId, role: Option<RoleId>,
    result: Option<ResultId>, sequence: nat)
    returns (t: nat)
    ensures PricedUnder(v, e, statuses, person, role, result, sequence,
      PointsUnder(v, e, statuses, person, role, result, sequence), t)
  {
    t := TierFound(v.tiers, sequence);
    var input := InputUnder(v, e, statuses, person, role, result, sequence);
    if input.Some? {
      FinalPointsNearFormula(input.value);
      InputIsPrice(v, t, e, statuses, person, role.value, result, sequence);
    }
  }

  /** The formula of the input the engine assembles is the price of the rows. */
  lemma InputIsPrice(
    v: PolicyVersion, t: nat, e: Event, statuses: seq<StatusAssignment>, person: PersonId, role: RoleId,
    result: Option<ResultId>, sequence: nat)
    requires t < |v.tiers| && FindTier(v.tiers, sequence) == Some(v.tiers[t])
    requires InputUnder(v, e, statuses, person, Some(role), result, sequence).Some?
    ensures Configured(v, e, Some(role), result)
    ensures ExactTotal(InputUnder(v, e, statuses, person, Some(role), result, sequence).value)
      == Price(v, t, e, statuses, person, role, result)
  {
    FactorsMultiply(statuses, v, person, e.moscowDate);
  }

  /** What the v2 engine answers, in each case exactly when. */
  ghost predicate AnsweredFrom(
    c: Catalog, e: Event, statuses: seq<StatusAssignment>, person: PersonId, role: Option<RoleId>,
    result: Option<ResultId>, sequence: nat, worth: Points, i: nat, j: nat, t: nat)
  {
    match worth
    case Points(points) => PricedBy(c, e, statuses, person, role, result, sequence, points, i, t)
    case Missing(error) =>
      || (error == ScoringComponentMissing && LacksComponent(c, e, role, result, sequence, i))
      || (error == ScoringPolicyVersionNotFound && NoneInForce(c, e))
    case Failure(error) =>
      || (error == ScoringPolicyAmbiguous && TwoInForce(c, e, i, j))
      || (error == ScoringPolicyNotAssigned && !UnderPolicy(c, e))
  }

  lemma PointsAreExact(
    c: Catalog, statuses: seq<StatusAssignment>, event: EventId, person: PersonId, role: Option<RoleId>,
    result: Option<ResultId>, sequence: nat)
    returns (i: nat, j: nat, t: nat)
    ensures AnsweredFrom(c, c.event(event), statuses, person, role, result, sequence,
      CalculatePoints(c, statuses, event, person, role, result, sequence), i, j, t)
  {
    var e := c.event(event);
    i, j, t := 0, 0, 0;
    if UnderPolicy(c, e) {
      i, j := VersionsFound(VersionsFor(c, e), e.startAt);
      if |Applicable(VersionsFor(c, e), e.startAt)| == 1 {
        t := PriceUnder(VersionsFor(c, e)[i], e, statuses, person, role, result, sequence);
      }
    }
  }

  /** The row stands at the price of the single version in force at its number, or without a
      rule because no version is in force or the one in force lacks a component. */
  ghost predicate PricedRow(
    c: Catalog, statuses: seq<StatusAssignment>, p: Participation, net: int, i: nat, t: nat)
  {
    var e := c.event(p.event);
    && p.sequence.Some?
    && if p.state == Awarded then
         net != 0 && PricedBy(c, e, statuses, p.person, p.role, p.result, p.sequence.value, net, i, t)
       else
         && p.state == NoRule && net == 0
         && (NoneInForce(c, e) || LacksComponent(c, e, p.role, p.result, p.sequence.value, i))
  }

  /** The outcome of scoring row `p` at number `n`: a priced row, or refused because two
      versions are in force or the price rounds to zero. */
  ghost predicate OutcomePriced(
    c: Catalog, statuses: seq<StatusAssignment>, r: RegistrationId, p: Participation, n: nat,
    outcome: Result<Db, Error>, i: nat, j: nat, t: nat)
  {
    match outcome
    case Ok(after) =>
      && r in after.participations && ScoredFrom(after.participations[r], p, n)
      && PricedRow(c, statuses, after.participations[r], Net(after.ledger, r), i, t)
    case Err(error) =>
      || (error == ScoringPolicyAmbiguous && TwoInForce(c, c.event(p.event), i, j))
      || (error == PointsCheckViolated
          && PricedBy(c, c.event(p.event), statuses, p.person, p.role, p.result, n, 0, i, t))
  }

  /** The row with a number and a scoring state. */
  predicate ScoredFrom(row: Participation, p: Participation, n: nat) {
    row == p.(sequence := Some(n), state := row.state)
  }

  lemma RatedAtPrice(
    c: Catalog, statuses: seq<StatusAssignment>, r: RegistrationId, p: Participation, n: nat,
    outcome: Result<Db, Error>)
    returns (i: nat, j: nat, t: nat)
    requires ScoredAsRated(EngineOf(c), statuses, r, p, n, outcome) && UnderPolicy(c, c.event(p.event))
    ensures OutcomePriced(c, statuses, r, p, n, outcome, i, j, t)
  {
    i, j, t := PointsAreExact(c, statuses, p.event, p.person, p.role, p.result, n);
    assert Rated(EngineOf(c), statuses, p, n) ==
      CalculatePoints(c, statuses, p.event, p.person, p.role, p.result, n);
  }

  /** A v2 confirmation that passes the checks leaves the participation at the price of the one
      version in force, for the role and the result taken and its number, or without a rule; it
      is refused only when two versions are in force or the price rounds to zero. */
  lemma ConfirmedAtFormula(
    c: Catalog, db: Db, event: EventId, r: RegistrationId, role: Option<RoleId>, result: Option<ResultId>, allow: bool)
    returns (p: Participation, n: nat, i: nat, j: nat, t: nat)
    requires Inv(db) && !IsConfirmed(db, r) && UnderPolicy(c, c.event(event))
    requires ConfirmRefusal(EngineOf(c), db, event, r, role, result, allow).None?
    ensures ConfirmedFrom(db, r, RoleTaken(db, r, role).value, ResultTaken(db, r, result), p)
    ensures NumberFor(EngineOf(c), db, p.person, r, NumberKept(db, r), n)
    ensures OutcomePriced(c, db.statuses, r, p, n,
      ConfirmRegistration(EngineOf(c), db, event, r, role, result, allow), i, j, t)
  {
    p, n := ConfirmAnswered(EngineOf(c), db, event, r, role, result, allow);
    i, j, t := RatedAtPrice(c, db.statuses, r, p, n,
      ConfirmRegistration(EngineOf(c), db, event, r, role, result, allow));
  }

  // ---- The rules of a v1 season -----------------------------------------------

  /** The rule is active, of the season, and asks for nothing the participation is not. */
  ghost predicate Fits(rule: Rule, e: Event, role: Option<RoleId>, result: Option<ResultId>) {
    && rule.active && e.season == Some(rule.season)
    && (rule.category.Some? ==> e.category == rule.category) && (rule.level.Some? ==> e.level == rule.level)
    && (rule.role.Some? ==> role == rule.role) && (rule.result.Some? ==> result == rule.result)
    && (rule.validFrom.Some? ==> rule.validFrom.value <= e.startAt)
    && (rule.validTo.Some? ==> e.startAt < rule.validTo.value)
  }

  function Bit(b: bool): nat {
    if b then 1 else 0
  }

  /** How many of its four conditions the rule states. */
  ghost function Conditions(rule: Rule): nat {
    Bit(rule.category.Some?) + Bit(rule.level.Some?) + Bit(rule.role.Some?) + Bit(rule.result.Some?)
  }

  /** The first rule has the higher priority, or the same and more conditions. */
  ghost predicate Precedes(a: Rule, b: Rule) {
    if a.priority == b.priority then Conditions(a) > Conditions(b) else a.priority > b.priority
  }

  ghost predicate FirstRule(rules: seq<Rule>, e: Event, role: Option<RoleId>, result: Option<ResultId>, i: nat) {
    && i < |rules| && Fits(rules[i], e, role, result)
    && forall k: nat :: k < |rules| && k != i && Fits(rules[k], e, role, result) ==> Precedes(rules[i], rules[k])
  }

  /** Two rules that fit share priority and number of conditions, and none precedes them. */
  ghost predicate TiedRules(
    rules: seq<Rule>, e: Event, role: Option<RoleId>, result: Option<ResultId>, i: nat, j: nat)
  {
    && i < |rules| && j < |rules| && i != j && Fits(rules[i], e, role, result) && Fits(rules[j], e, role, result)
    && rules[i].priority == rules[j].priority && Conditions(rules[i]) == Conditions(rules[j])
    && forall k: nat :: k < |rules| && Fits(rules[k], e, role, result) ==> !Precedes(rules[k], rules[i])
  }

  lemma RulesCompared(a: Rule, b: Rule, e: Event, role: Option<RoleId>, result: Option<ResultId>)
    ensures RuleMatches(a, e, role, result) == Fits(a, e, role, result)
    ensures Outranks(a, b) == Precedes(a, b) && Outranks(b, a) == Precedes(b, a)
  {
  }

  lemma BestIsFirst(rules: seq<Rule>, e: Event, role: Option<RoleId>, result: Option<ResultId>, i: nat)
    requires IsBest(rules, e, role, result, i)
    ensures FirstRule(rules, e, role, result, i)
  {
    RulesCompared(rules[i], rules[i], e, role, result);
    forall k: nat | k < |rules| && k != i && Fits(rules[k], e, role, result)
      ensures Precedes(rules[i], rules[k])
    {
      RulesCompared(rules[k], rules[i], e, role, result);
    }
  }

  lemma SharedIsTied(rules: seq<Rule>, e: Event, role: Option<RoleId>, result: Option<ResultId>, i: nat, j: nat)
    requires SharedBest(rules, e, role, result, i, j)
    ensures TiedRules(rules, e, role, result, i, j)
  {
    RulesCompared(rules[i], rules[j], e, role, result);
    RulesCompared(rules[j], rules[i], e, role, result);
    forall k: nat | k < |rules| && Fits(rules[k], e, role, result)
      ensures !Precedes(rules[k], rules[i])
    {
      RulesCompared(rules[k], rules[i], e, role, result);
    }
  }

  /** What the v1 engine answers, in each case exactly when. */
  ghost predicate RuledBy(
    c: Catalog, e: Event, role: Option<RoleId>, result: Option<ResultId>, worth: Points, i: nat, j: nat)
  {
    match worth
    case Points(points) =>
      e.season.Some? && role.Some? && FirstRule(c.rules, e, role, result, i) && c.rules[i].points == points
    case Missing(error) => error == ScoringComponentMissing && NoRuleFits(c, e, role, result)
    case Failure(error) => error == ScoringRuleAmbiguous && TiedRules(c.rules, e, role, result, i, j)
  }

  ghost predicate NoRuleFits(c: Catalog, e: Event, role: Option<RoleId>, result: Option<ResultId>) {
    e.season.None? || role.None? || forall k: nat :: k < |c.rules| ==> !Fits(c.rules[k], e, role, result)
  }

  lemma RulePointsAreExact(c: Catalog, event: EventId, role: Option<RoleId>, result: Option<ResultId>)
    returns (i: nat, j: nat)
    ensures RuledBy(c, c.event(event), role, result, RulePoints(c, event, role, result), i, j)
  {
    var e := c.event(event);
    i, j := 0, 0;
    RankIsBest(c.rules, e, role, result);
    match FindScoringRule(c, event, role, result)
    case Nothing =>
      forall k: nat | k < |c.rules|
        ensures RuleMatches(c.rules[k], e, role, result) == Fits(c.rules[k], e, role, result)
      {
        RulesCompared(c.rules[k], c.rules[k], e, role, result);
      }
    case Chosen(rule) =>
      i :| IsBest(c.rules, e, role, result, i) && c.rules[i] == rule;
      BestIsFirst(c.rules, e, role, result, i);
    case Tied(rule) =>
      i, j :| SharedBest(c.rules, e, role, result, i, j) && c.rules[i] == rule;
      SharedIsTied(c.rules, e, role, result, i, j);
  }

  /** The row stands at the points of the first rule that fits it, or without a rule because
      the event has no season or no rule fits. */
  ghost predicate RuledRow(c: Catalog, p: Participation, net: int, i: nat) {
    var e := c.event(p.event);
    if p.state == Awarded then
      net != 0 && e.season.Some? && FirstRule(c.rules, e, p.role, p.result, i) && c.rules[i].points == net
    else
      p.state == NoRule && net == 0 && NoRuleFits(c, e, p.role, p.result)
  }

  /** The outcome of scoring row `p`, its number unchanged: a ruled row, or refused because two
      rules tie or the rule gives zero. */
  ghost predicate OutcomeRuled(
    c: Catalog, r: RegistrationId, p: Participation, outcome: Result<Db, Error>, i: nat, j: nat)
  {
    match outcome
    case Ok(after) =>
      && r in after.participations && RuledRow(c, after.participations[r], Net(after.ledger, r), i)
      && after.participations[r] == p.(state := after.participations[r].state)
    case Err(error) =>
      || (error == ScoringRuleAmbiguous && TiedRules(c.rules, c.event(p.event), p.role, p.result, i, j))
      || (error == PointsCheckViolated
          && FirstRule(c.rules, c.event(p.event), p.role, p.result, i) && c.rules[i].points == 0)
  }

  lemma RatedByRule(
    c: Catalog, statuses: seq<StatusAssignment>, r: RegistrationId, p: Participation, n: nat,
    outcome: Result<Db, Error>)
    returns (i: nat, j: nat)
    requires ScoredAsRated(EngineOf(c), statuses, r, p, n, outcome) && !UnderPolicy(c, c.event(p.event))
    ensures OutcomeRuled(c, r, p, outcome, i, j)
  {
    i, j := RulePointsAreExact(c, p.event, p.role, p.result);
    assert Rated(EngineOf(c), statuses, p, n) == RulePoints(c, p.event, p.role, p.result);
  }

  /** The same for an event without a v2 policy: the points of the first rule that fits, no
      number, and a refusal only when two rules tie or the rule gives zero. */
  lemma ConfirmedAtRule(
    c: Catalog, db: Db, event: EventId, r: RegistrationId, role: Option<RoleId>, result: Option<ResultId>, allow: bool)
    returns (p: Participation, i: nat, j: nat)
    requires Inv(db) && !IsConfirmed(db, r) && !UnderPolicy(c, c.event(event))
    requires ConfirmRefusal(EngineOf(c), db, event, r, role, result, allow).None?
    ensures ConfirmedFrom(db, r, RoleTaken(db, r, role).value, ResultTaken(db, r, result), p)
    ensures OutcomeRuled(c, r, p, ConfirmRegistration(EngineOf(c), db, event, r, role, result, allow), i, j)
  {
    var n;
    p, n := ConfirmAnswered(EngineOf(c), db, event, r, role, result, allow);
    i, j := RatedByRule(c, db.statuses, r, p, n,
      ConfirmRegistration(EngineOf(c), db, event, r, role, result, allow));
  }

  /** What the reference tables answer about an event, and which references are active. */
  lemma EngineAnswers(c: Catalog, event: EventId)
    ensures EngineOf(c).hasSeason(event) == c.event(event).season.Some?
    ensures EngineOf(c).hasLevel(event) == c.event(event).level.Some?
    ensures EngineOf(c).usesV2(event) == UnderPolicy(c, c.event(event))
    ensures EngineOf(c).activeRoles == c.activeRoles && EngineOf(c).activeResults == c.activeResults
  {
  }
}
