/** Laws about people: whose points the ledger holds, where aliases lead, and that a
    merge never makes a membership or a status count twice. */
module PersonLaws {
  import opened Common
  import opened Identities
  import opened Scoring
  import opened ActivityModel
  import opened ActivityService
  import opened ScoringEngine
  import opened LedgerInvariant
  import opened ActivityInvariant
  import opened PersonMerge

  // ---- Totals -----------------------------------------------------------------

  /** Every row about a participation belongs to the participation's person. */
  lemma RowsFollowOwner(db: Db, i: nat)
    requires Inv(db) && i < |db.ledger| && db.ledger[i].participation.Some?
    ensures db.ledger[i].participation.value in db.participations
    ensures db.ledger[i].person == db.participations[db.ledger[i].participation.value].person
  {
    assert RowValid(db.ledger, db.participations, i);
    if db.ledger[i].kind == Reversal {
      assert RowValid(db.ledger, db.participations, db.ledger[i].original.value);
    }
  }

  function OwnedParticipations(db: Db, person: PersonId): seq<RegistrationId> {
    SortedIds(set r | r in db.participations && db.participations[r].person == person)
  }

  /** Points given or taken by hand. */
  function Adjustments(ledger: seq<Transaction>, person: PersonId): int {
    if ledger == [] then
      0
    else
      var t := ledger[|ledger| - 1];
      Adjustments(ledger[..|ledger| - 1], person)
      + if t.participation.None? && t.person == person then t.points else 0
  }

  function SumNet(ledger: seq<Transaction>, ids: seq<RegistrationId>): int {
    if ids == [] then 0 else SumNet(ledger, ids[..|ids| - 1]) + Net(ledger, ids[|ids| - 1])
  }

  function SumLive(db: Db, ids: seq<RegistrationId>): int
    requires forall r :: r in ids ==> r in db.participations
  {
    if ids == [] then 0 else SumLive(db, ids[..|ids| - 1]) + LivePoints(db, ids[|ids| - 1])
  }

  lemma {:induction false} SumNetAppend(ledger: seq<Transaction>, t: Transaction, ids: seq<RegistrationId>)
    requires Distinct(ids)
    ensures SumNet(ledger + [t], ids) == SumNet(ledger, ids)
      + if t.participation.Some? && t.participation.value in ids then t.points else 0
  {
    if ids != [] {
      var front, r := ids[..|ids| - 1], ids[|ids| - 1];
      assert ids == front + [r];
      assert r !in front;
      SumNetAppend(ledger, t, front);
      NetAppend(ledger, t, r);
    }
  }

  lemma {:induction false} SumNetOfNothing(ids: seq<RegistrationId>)
    ensures SumNet([], ids) == 0
  {
    if ids != [] {
      SumNetOfNothing(ids[..|ids| - 1]);
    }
  }

  lemma {:induction false} TotalSplits(ledger: seq<Transaction>, person: PersonId, ids: seq<RegistrationId>)
    requires Distinct(ids)
    requires forall i :: 0 <= i < |ledger| && ledger[i].participation.Some? ==>
      (ledger[i].participation.value in ids <==> ledger[i].person == person)
    ensures Total(ledger, person) == SumNet(ledger, ids) + Adjustments(ledger, person)
  {
    if ledger == [] {
      SumNetOfNothing(ids);
    } else {
      var front, t := ledger[..|ledger| - 1], ledger[|ledger| - 1];
      assert ledger == front + [t];
      TotalSplits(front, person, ids);
      SumNetAppend(front, t, ids);
    }
  }

  lemma {:induction false} NetsAreLive(db: Db, ids: seq<RegistrationId>)
    requires Inv(db) && forall r :: r in ids ==> r in db.participations
    ensures SumNet(db.ledger, ids) == SumLive(db, ids)
  {
    if ids != [] {
      NetsAreLive(db, ids[..|ids| - 1]);
      NetIsLivePoints(db, ids[|ids| - 1]);
    }
  }

  /** A person's total is the sum of the standing awards of the participations they own
      plus their manual adjustments. */
  lemma TotalIsStandingAwards(db: Db, person: PersonId)
    requires Inv(db)
    ensures forall r :: r in OwnedParticipations(db, person) ==> r in db.participations
    ensures Total(db.ledger, person) == SumLive(db, OwnedParticipations(db, person)) + Adjustments(db.ledger, person)
  {
    var ids := OwnedParticipations(db, person);
    forall i | 0 <= i < |db.ledger| && db.ledger[i].participation.Some?
      ensures db.ledger[i].participation.value in ids <==> db.ledger[i].person == person
    {
      RowsFollowOwner(db, i);
    }
    TotalSplits(db.ledger, person, ids);
    NetsAreLive(db, ids);
  }

  // ---- Aliases ----------------------------------------------------------------

  function LinksOf(persons: map<PersonId, Person>): Links {
    map p | p in persons :: persons[p].mergedInto
  }

  datatype Merge = Merge(target: PersonId, source: PersonId)

  /** Two different people, neither of them an alias. */
  predicate Mergeable(persons: map<PersonId, Person>, m: Merge) {
    && m.target != m.source && m.target in persons && m.source in persons
    && persons[m.target].mergedInto.None? && persons[m.source].mergedInto.None?
  }

  function AfterMerges(persons: map<PersonId, Person>, merges: seq<Merge>): map<PersonId, Person> {
    if merges == [] then
      persons
    else
      var m := merges[|merges| - 1];
      MovedPersons(AfterMerges(persons, merges[..|merges| - 1]), m.target, m.source)
  }

  /** Each merge was allowed when it was made. */
  ghost predicate AllAllowed(persons: map<PersonId, Person>, merges: seq<Merge>) {
    merges != [] ==>
      && AllAllowed(persons, merges[..|merges| - 1])
      && Mergeable(AfterMerges(persons, merges[..|merges| - 1]), merges[|merges| - 1])
  }

  /** Follow the whole merge history from one identity. */
  function Followed(merges: seq<Merge>, p: PersonId): PersonId {
    if merges == [] then
      p
    else
      var m, q := merges[|merges| - 1], Followed(merges[..|merges| - 1], p);
      Moved(q, m.target, m.source)
  }

  /** After any history of merges aliases are still one hop, and that hop leads where the
      whole history leads. */
  lemma {:induction false} AliasesStayFlat(persons: map<PersonId, Person>, merges: seq<Merge>, p: PersonId)
    requires Flat(LinksOf(persons)) && AllAllowed(persons, merges) && p in persons
    ensures var now := AfterMerges(persons, merges);
      && Flat(LinksOf(now)) && now.Keys == persons.Keys
      && Primary(LinksOf(now), p) == Followed(merges, Primary(LinksOf(persons), p))
      && now[Primary(LinksOf(now), p)].mergedInto.None?
  {
    if merges != [] {
      var front, m := merges[..|merges| - 1], merges[|merges| - 1];
      AliasesStayFlat(persons, front, p);
      var before, now := AfterMerges(persons, front), AfterMerges(persons, merges);
      RedirectKeepsFlat(LinksOf(before), LinksOf(now), m.target, m.source);
      assert LinksOf(now)[p].Some? ==> LinksOf(now)[LinksOf(now)[p].value].None?;
    }
  }

  // ---- Periods ----------------------------------------------------------------

  predicate MembershipApplies(m: Membership, person: PersonId, organization: nat, date: Date) {
    m.person == person && m.organization == organization && m.validFrom <= date
    && (m.validTo.None? || m.validTo.value >= date)
  }

  ghost predicate OneMembership(memberships: seq<Membership>, person: PersonId) {
    forall i, j, organization: nat, date: Date :: 0 <= i < j < |memberships| && date <= END_OF_TIME ==>
      !(MembershipApplies(memberships[i], person, organization, date)
        && MembershipApplies(memberships[j], person, organization, date))
  }

  /** A status type never multiplies twice on one date. */
  ghost predicate OneStatusEach(statuses: seq<StatusAssignment>, person: PersonId) {
    forall i, j, date: Date ::
      0 <= i < j < |statuses| && date <= END_OF_TIME && statuses[i].statusType == statuses[j].statusType ==>
      !(StatusApplies(statuses[i], person, date) && StatusApplies(statuses[j], person, date))
  }

  /** Rows that apply on a common date clash, so rows that do not clash never do. */
  lemma CommonDateClashes(a: Membership, b: Membership, organization: nat, date: Date)
    requires date <= END_OF_TIME
    requires MembershipApplies(a, a.person, organization, date) && MembershipApplies(b, b.person, organization, date)
    ensures MembershipsClash(a, b) && MembershipsClash(b, a)
  {
  }

  predicate Covers(m: Membership, date: Date) {
    m.validFrom <= date && (m.validTo.None? || m.validTo.value >= date)
  }

  /** Two memberships whose periods are not reversed clash exactly when some day has both,
      whatever their organizations. */
  lemma MembershipClashIsExact(a: Membership, b: Membership)
    requires a.validFrom <= Until(a.validTo) <= END_OF_TIME && b.validFrom <= Until(b.validTo) <= END_OF_TIME
    ensures MembershipsClash(a, b) <==> exists date: Date :: date <= END_OF_TIME && Covers(a, date) && Covers(b, date)
  {
    var later := if a.validFrom >= b.validFrom then a.validFrom else b.validFrom;
    if MembershipsClash(a, b) {
      assert Covers(a, later) && Covers(b, later);
    }
  }

  lemma CommonStatusDateClashes(a: StatusAssignment, b: StatusAssignment, date: Date)
    requires date <= END_OF_TIME && a.statusType == b.statusType
    requires StatusApplies(a, a.person, date) && StatusApplies(b, b.person, date)
    ensures StatusesClash(a, b) && StatusesClash(b, a)
  {
  }

  /** A merge without a membership conflict leaves at most one membership in force. */
  lemma MergedMembershipsApplyOnce(db: Db, target: PersonId, source: PersonId)
    requires target != source && !OverlappingMemberships(db, target, source)
    requires OneMembership(db.memberships, target) && OneMembership(db.memberships, source)
    ensures OneMembership(ApplyPersonMerge(db, target, source).memberships, target)
  {
    var was, now := db.memberships, MovedMemberships(db.memberships, target, source);
    forall i, j, organization: nat, date: Date | 0 <= i < j < |now| && date <= END_OF_TIME
      && MembershipApplies(now[i], target, organization, date) && MembershipApplies(now[j], target, organization, date)
      ensures false
    {
      assert was[i].person == target || was[i].person == source;
      assert MembershipApplies(was[i], was[i].person, organization, date);
      assert MembershipApplies(was[j], was[j].person, organization, date);
      CommonDateClashes(was[i], was[j], organization, date);
    }
  }

  /** A merge without a status conflict leaves each status type at most one multiplier a
      day, although the check treats the exclusive retirement day as still covered. */
  lemma MergedStatusesMultiplyOnce(db: Db, target: PersonId, source: PersonId)
    requires target != source && !OverlappingStatuses(db, target, source)
    requires OneStatusEach(db.statuses, target) && OneStatusEach(db.statuses, source)
    ensures OneStatusEach(ApplyPersonMerge(db, target, source).statuses, target)
  {
    var was, now := db.statuses, MovedStatuses(db.statuses, target, source);
    forall i, j, date: Date | 0 <= i < j < |now| && date <= END_OF_TIME && now[i].statusType == now[j].statusType
      && StatusApplies(now[i], target, date) && StatusApplies(now[j], target, date)
      ensures false
    {
      assert was[i].person == target || was[i].person == source;
      assert StatusApplies(was[i], was[i].person, date);
      assert StatusApplies(was[j], was[j].person, date);
      CommonStatusDateClashes(was[i], was[j], date);
    }
  }

  /** Rows of `membership_for_activity`; it answers only when there is exactly one. */
  function MatchingMemberships(
    memberships: seq<Membership>, person: PersonId, organization: nat, date: Date): set<nat>
  {
    set i | 0 <= i < |memberships| && MembershipApplies(memberships[i], person, organization, date)
  }

  /** With at most one membership in force the lookup is never ambiguous. */
  lemma LookupUnambiguous(memberships: seq<Membership>, person: PersonId, organization: nat, date: Date)
    requires OneMembership(memberships, person) && date <= END_OF_TIME
    ensures |MatchingMemberships(memberships, person, organization, date)| <= 1
  {
    var found := MatchingMemberships(memberships, person, organization, date);
    if found != {} {
      var i :| i in found;
      assert found == {i};
    }
  }

  /** The types of the statuses that multiply a person's score on a date, in row order. */
  function AppliedTypes(statuses: seq<StatusAssignment>, v: PolicyVersion, person: PersonId, date: Date): seq<nat> {
    if statuses == [] then
      []
    else
      (if StatusApplies(statuses[0], person, date) && statuses[0].statusType in v.statusMultipliers
       then [statuses[0].statusType] else [])
      + AppliedTypes(statuses[1..], v, person, date)
  }

  lemma {:induction false} AppliedTypeRow(
    statuses: seq<StatusAssignment>, v: PolicyVersion, person: PersonId, date: Date, t: nat)
    ensures t in AppliedTypes(statuses, v, person, date) ==>
      && t in v.statusMultipliers
      && exists i :: 0 <= i < |statuses| && StatusApplies(statuses[i], person, date) && statuses[i].statusType == t
  {
    if statuses != [] {
      AppliedTypeRow(statuses[1..], v, person, date, t);
      if t in AppliedTypes(statuses[1..], v, person, date) {
        var i :| 0 <= i < |statuses[1..]| && StatusApplies(statuses[1..][i], person, date)
          && statuses[1..][i].statusType == t;
        assert statuses[i + 1] == statuses[1..][i];
      }
    }
  }

  /** The calculation multiplies by each applying status type exactly once. */
  lemma {:induction false} MultipliersCountedOnce(
    statuses: seq<StatusAssignment>, v: PolicyVersion, person: PersonId, date: Date)
    requires OneStatusEach(statuses, person) && date <= END_OF_TIME
    ensures var types, factors := AppliedTypes(statuses, v, person, date), StatusFactors(statuses, v, person, date);
      && Distinct(types) && |factors| == |types|
      && forall i :: 0 <= i < |types| ==>
           types[i] in v.statusMultipliers && factors[i] == Exact(v.statusMultipliers[types[i]])
  {
    if statuses != [] {
      var a, rest := statuses[0], statuses[1..];
      assert forall i :: 0 <= i < |rest| ==> rest[i] == statuses[i + 1];
      MultipliersCountedOnce(rest, v, person, date);
      AppliedTypeRow(rest, v, person, date, a.statusType);
      assert StatusApplies(a, person, date) ==>
        forall j :: 0 < j < |statuses| && statuses[j].statusType == a.statusType ==>
          !StatusApplies(statuses[j], person, date);
    }
  }

  /** Well-formed rows of the schema: dates end by year 9999, and periods are not reversed. */
  predicate ProperStatus(a: StatusAssignment) {
    && a.validFrom <= END_OF_TIME
    && (a.validTo.Some? ==> a.validFrom <= a.validTo.value <= END_OF_TIME)
    && (a.retiredOn.Some? ==> a.validFrom <= a.retiredOn.value <= END_OF_TIME)
  }

  /** The first date of both. */
  function BothStarted(a: StatusAssignment, b: StatusAssignment): Date {
    if a.validFrom >= b.validFrom then a.validFrom else b.validFrom
  }

  /** Some date on which both statuses are factors. */
  ghost predicate MultiplyTogether(a: StatusAssignment, b: StatusAssignment) {
    exists date: Date :: date <= END_OF_TIME && StatusApplies(a, a.person, date) && StatusApplies(b, b.person, date)
  }

  /** Two rows of one type that clash multiply together on some date, except exactly when
      the later one starts on (or is itself emptied by) a retirement day. */
  lemma ClashIsExactUpToRetirement(a: StatusAssignment, b: StatusAssignment)
    requires ProperStatus(a) && ProperStatus(b) && StatusesClash(a, b)
    ensures MultiplyTogether(a, b)
      == (a.retiredOn != Some(BothStarted(a, b)) && b.retiredOn != Some(BothStarted(a, b)))
  {
    var d := BothStarted(a, b);
    if a.retiredOn != Some(d) && b.retiredOn != Some(d) {
      assert StatusApplies(a, a.person, d) && StatusApplies(b, b.person, d);
    }
  }
}
