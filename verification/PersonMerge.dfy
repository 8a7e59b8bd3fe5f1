/** Reconciliation of two student identities (person_merge.py): the plain merge, the
    conflicts that forbid it, and the ordered merge that renumbers and re-awards. */
module PersonMerge {
  import opened Common
  import opened ActivityModel
  import opened ActivityService

  const MAX_MERGE_ORDER := 5000
  /** The last day of year 9999, the stand-in for an open period. */
  const END_OF_TIME: Date := 3652059

  // ---- Who may be merged ------------------------------------------------------

  /** `merge_people`: two different current students of the tenant. */
  function MergePeople(db: Db, target: PersonId, source: PersonId, tenant: nat): Result<(), Error> {
    if target == source then Err(PersonMergeSelf)
    else if !Current(db, target, tenant) || !Current(db, source, tenant) then Err(PersonNotFound)
    else if !db.persons[target].kaitStudent || !db.persons[source].kaitStudent then Err(PersonMergeStudentOnly)
    else Ok(())
  }

  predicate Current(db: Db, person: PersonId, tenant: nat) {
    person in db.persons && db.persons[person].tenant == tenant && db.persons[person].mergedInto.None?
  }

  // ---- Conflicts --------------------------------------------------------------

  datatype MergeConflict =
    | ActiveRegistrationConflict | ConfirmedParticipationConflict | ScoringSequenceConflict
    | MembershipOverlap | StatusOverlap

  predicate BothRegistered(db: Db, target: PersonId, source: PersonId) {
    exists a, b :: a in db.registrations && b in db.registrations
      && db.registrations[a].person == source && db.registrations[b].person == target
      && db.registrations[a].active && db.registrations[b].active
      && db.registrations[a].event == db.registrations[b].event
  }

  predicate BothConfirmed(db: Db, target: PersonId, source: PersonId) {
    exists a, b :: a in db.participations && b in db.participations
      && db.participations[a].person == source && db.participations[b].person == target
      && db.participations[a].status == Confirmed && db.participations[b].status == Confirmed
      && db.participations[a].event == db.participations[b].event
  }

  predicate BothNumbered(db: Db, target: PersonId, source: PersonId) {
    exists a, b :: a in db.participations && b in db.participations
      && db.participations[a].person == source && db.participations[b].person == target
      && db.participations[a].sequence.Some?
      && db.participations[a].sequence == db.participations[b].sequence
  }

  function Until(d: Option<Date>): Date {
    if d.Some? then d.value else END_OF_TIME
  }

  function Earlier(a: Date, b: Date): Date {
    if a <= b then a else b
  }

  predicate MembershipsClash(a: Membership, b: Membership) {
    a.validFrom <= Until(b.validTo) && b.validFrom <= Until(a.validTo)
  }

  predicate StatusesClash(a: StatusAssignment, b: StatusAssignment) {
    && a.statusType == b.statusType
    && a.validFrom <= Earlier(Until(b.validTo), Until(b.retiredOn))
    && b.validFrom <= Earlier(Until(a.validTo), Until(a.retiredOn))
  }

  predicate OverlappingMemberships(db: Db, target: PersonId, source: PersonId) {
    exists i, j :: 0 <= i < |db.memberships| && 0 <= j < |db.memberships|
      && db.memberships[i].person == source && db.memberships[j].person == target
      && MembershipsClash(db.memberships[i], db.memberships[j])
  }

  predicate OverlappingStatuses(db: Db, target: PersonId, source: PersonId) {
    exists i, j :: 0 <= i < |db.statuses| && 0 <= j < |db.statuses|
      && db.statuses[i].person == source && db.statuses[j].person == target
      && StatusesClash(db.statuses[i], db.statuses[j])
  }

  function Report(found: bool, conflict: MergeConflict): seq<MergeConflict> {
    if found then [conflict] else []
  }

  /** `merge_conflicts`, in the order of its checks. */
  function MergeConflicts(db: Db, target: PersonId, source: PersonId): seq<MergeConflict> {
    Report(BothRegistered(db, target, source), ActiveRegistrationConflict)
    + Report(BothConfirmed(db, target, source), ConfirmedParticipationConflict)
    + Report(BothNumbered(db, target, source), ScoringSequenceConflict)
    + Report(OverlappingMemberships(db, target, source), MembershipOverlap)
    + Report(OverlappingStatuses(db, target, source), StatusOverlap)
  }

  // ---- The plain merge --------------------------------------------------------

  function Moved(person: PersonId, target: PersonId, source: PersonId): PersonId {
    if person == source then target else person
  }

  function MovedLink(link: Option<PersonId>, target: PersonId, source: PersonId): Option<PersonId> {
    if link == Some(source) then Some(target) else link
  }

  /** The ledger rows with the source's rows handed to the target. */
  function MovedLedger(ledger: seq<Transaction>, target: PersonId, source: PersonId): (moved: seq<Transaction>)
    ensures |moved| == |ledger|
    ensures forall i :: 0 <= i < |ledger| ==> moved[i] == ledger[i].(person := Moved(ledger[i].person, target, source))
  {
    if ledger == [] then
      []
    else
      var t := ledger[|ledger| - 1];
      MovedLedger(ledger[..|ledger| - 1], target, source) + [t.(person := Moved(t.person, target, source))]
  }

  function MovedParticipations(
    participations: map<RegistrationId, Participation>, target: PersonId, source: PersonId)
    : map<RegistrationId, Participation>
  {
    map r | r in participations :: participations[r].(person := Moved(participations[r].person, target, source))
  }

  function MovedRegistrations(
    registrations: map<RegistrationId, Registration>, target: PersonId, source: PersonId)
    : map<RegistrationId, Registration>
  {
    map r | r in registrations :: registrations[r].(
      person := Moved(registrations[r].person, target, source),
      rosterPerson := MovedLink(registrations[r].rosterPerson, target, source))
  }

  function MovedReviews(
    reviews: map<RegistrationId, Review>, target: PersonId, source: PersonId): map<RegistrationId, Review>
  {
    map r | r in reviews :: reviews[r].(rosterPerson := MovedLink(reviews[r].rosterPerson, target, source))
  }

  function MovedMemberships(memberships: seq<Membership>, target: PersonId, source: PersonId): (moved: seq<Membership>)
    ensures |moved| == |memberships|
    ensures forall i :: 0 <= i < |moved| ==>
      moved[i] == memberships[i].(person := Moved(memberships[i].person, target, source))
  {
    seq(|memberships|, i requires 0 <= i < |memberships| =>
      memberships[i].(person := Moved(memberships[i].person, target, source)))
  }

  function MovedStatuses(
    statuses: seq<StatusAssignment>, target: PersonId, source: PersonId): (moved: seq<StatusAssignment>)
    ensures |moved| == |statuses|
    ensures forall i :: 0 <= i < |moved| ==>
      moved[i] == statuses[i].(person := Moved(statuses[i].person, target, source))
  {
    seq(|statuses|, i requires 0 <= i < |statuses| =>
      statuses[i].(person := Moved(statuses[i].person, target, source)))
  }

  /** Aliases of the source, and the source itself, become aliases of the target. */
  function MovedPersons(persons: map<PersonId, Person>, target: PersonId, source: PersonId): map<PersonId, Person> {
    map p | p in persons :: persons[p].(
      mergedInto := if p == source || persons[p].mergedInto == Some(source) then Some(target)
        else persons[p].mergedInto)
  }

  /** The roster row follows the target only when the target has none of its own. */
  function MovedRoster(roster: set<PersonId>, target: PersonId, source: PersonId): set<PersonId> {
    if target in roster || source !in roster then roster else roster - {source} + {target}
  }

  function ApplyPersonMerge(db: Db, target: PersonId, source: PersonId): Db {
    db.(roster := MovedRoster(db.roster, target, source),
        registrations := MovedRegistrations(db.registrations, target, source),
        reviews := MovedReviews(db.reviews, target, source),
        participations := MovedParticipations(db.participations, target, source),
        ledger := MovedLedger(db.ledger, target, source),
        memberships := MovedMemberships(db.memberships, target, source),
        statuses := MovedStatuses(db.statuses, target, source),
        persons := MovedPersons(db.persons, target, source))
  }

  // ---- The ordered merge ------------------------------------------------------

  function NumberedSet(db: Db, target: PersonId, source: PersonId): set<RegistrationId> {
    set r | r in db.participations
      && (db.participations[r].person == target || db.participations[r].person == source)
      && (db.participations[r].status == Confirmed || db.participations[r].sequence.Some?)
  }

  /** Participations of either person that are confirmed or already numbered. */
  function NumberedParticipations(db: Db, target: PersonId, source: PersonId): seq<RegistrationId> {
    SortedIds(NumberedSet(db, target, source))
  }

  /** The row the order version covers; the digest is modelled as the rows themselves. */
  datatype OrderRow = OrderRow(id: RegistrationId, row: Participation, net: int)

  function OrderVersion(db: Db, ids: seq<RegistrationId>): seq<OrderRow>
    requires forall r :: r in ids ==> r in db.participations
  {
    seq(|ids|, i requires 0 <= i < |ids| => OrderRow(ids[i], db.participations[ids[i]], Net(db.ledger, ids[i])))
  }

  /** Of the listed participations, those whose award the merge recalculates. */
  function Recalculated(g: Engine, db: Db, ids: seq<RegistrationId>): set<RegistrationId>
    requires forall r :: r in ids ==> r in db.participations
  {
    set r | r in ids && db.participations[r].status == Confirmed && g.usesV2(db.participations[r].event)
  }

  function ReverseNext(db: Db, r: RegistrationId, chosen: set<RegistrationId>): Db {
    if r in chosen && r in db.participations then Reverse(db, r) else db
  }

  /** Phase 1: take back the awards that will be recalculated. */
  function ReverseAll(db: Db, ids: seq<RegistrationId>, chosen: set<RegistrationId>): Db
    requires forall r :: r in ids ==> r in db.participations
  {
    if ids == [] then
      db
    else
      ReverseNext(ReverseAll(db, ids[..|ids| - 1], chosen), ids[|ids| - 1], chosen)
  }

  /** Phase 2: forget every sequence of both people. */
  function ClearSequences(
    participations: map<RegistrationId, Participation>, target: PersonId, source: PersonId)
    : map<RegistrationId, Participation>
  {
    map r | r in participations ::
      if participations[r].person == target || participations[r].person == source
      then participations[r].(sequence := None) else participations[r]
  }

  /** Phases 2 and 3. */
  function ClearedAndMerged(db: Db, target: PersonId, source: PersonId): Db {
    ApplyPersonMerge(db.(participations := ClearSequences(db.participations, target, source)), target, source)
  }

  /** Phase 4: number the submitted order from 1. */
  function Renumber(
    participations: map<RegistrationId, Participation>, order: seq<RegistrationId>, target: PersonId)
    : map<RegistrationId, Participation>
  {
    if order == [] then
      participations
    else
      var r, before := order[|order| - 1], Renumber(participations, order[..|order| - 1], target);
      if r in before && before[r].person == target
      then before[r := before[r].(sequence := Some(|order|))] else before
  }

  function BumpCycle(db: Db, r: RegistrationId): Db
    requires r in db.participations
  {
    var p := db.participations[r];
    SetParticipation(db, r, p.(cycle := p.cycle + 1, state := NotScored))
  }

  function AwardNext(g: Engine, db: Db, r: RegistrationId, chosen: set<RegistrationId>): Result<Db, Error> {
    if r !in chosen then Ok(db)
    else if r !in db.participations then Err(ParticipationNotConfirmed)
    else AwardScore(g, BumpCycle(db, r), r)
  }

  /** Phase 5: open a new cycle for each recalculated participation and award it. */
  function AwardAll(g: Engine, db: Db, order: seq<RegistrationId>, chosen: set<RegistrationId>): Result<Db, Error> {
    if order == [] then
      Ok(db)
    else
      var before :- AwardAll(g, db, order[..|order| - 1], chosen);
      AwardNext(g, before, order[|order| - 1], chosen)
  }

  /** The tables before the re-awards: phases 1 to 4. */
  function Reordered(
    g: Engine, db: Db, target: PersonId, source: PersonId, ids: seq<RegistrationId>, order: seq<RegistrationId>): Db
    requires forall r :: r in ids ==> r in db.participations
  {
    var merged := ClearedAndMerged(ReverseAll(db, ids, Recalculated(g, db, ids)), target, source);
    merged.(participations := Renumber(merged.participations, order, target))
  }

  function ApplyOrderedPersonMerge(
    g: Engine, db: Db, target: PersonId, source: PersonId, order: seq<RegistrationId>, version: seq<OrderRow>)
    : Result<Db, Error>
  {
    var ids := NumberedParticipations(db, target, source);
    if |ids| > MAX_MERGE_ORDER then
      Err(PersonMergeOrderTooLarge)
    else if OrderVersion(db, ids) != version then
      Err(PersonMergeOrderChanged)
    else if |order| != |ids| || !Distinct(order) || (set r | r in order) != (set r | r in ids) then
      Err(PersonMergeOrderChanged)
    else
      AwardAll(g, Reordered(g, db, target, source, ids, order), order, Recalculated(g, db, ids))
  }

  /** The merge request: plain without conflicts, ordered when only sequences clash. */
  function MergePerson(
    g: Engine, db: Db, target: PersonId, source: PersonId, tenant: nat,
    order: Option<seq<RegistrationId>>, version: Option<seq<OrderRow>>): Result<Db, Error>
  {
    var _ :- MergePeople(db, target, source, tenant);
    var conflicts := MergeConflicts(db, target, source);
    if conflicts != [] then
      if conflicts != [ScoringSequenceConflict] || order.None? || version.None? then
        Err(PersonMergeConflict)
      else
        ApplyOrderedPersonMerge(g, db, target, source, order.value, version.value)
    else if order.Some? || version.Some? then
      Err(PersonMergeOrderNotRequired)
    else
      Ok(ApplyPersonMerge(db, target, source))
  }
}
