/** The tables the MosActive services read and write. A table is a map from its
    primary key; the ledger is the list of its rows in insertion order, and the
    position of a row is its id. A participation is keyed by its registration, which
    the schema makes unique. */
module ActivityModel {
  import opened Common

  type PersonId = nat
  type RegistrationId = nat
  type EventId = nat
  type RoleId = nat
  type ResultId = nat
  type Date = nat

  // ---- Business tables --------------------------------------------------------

  datatype Status = Draft | Confirmed | Cancelled
  datatype ScoringState = NotScored | Awarded | NoRule | ReversedState

  datatype Participation = Participation(
    person: PersonId, event: EventId, role: Option<RoleId>, result: Option<ResultId>,
    status: Status, state: ScoringState, cycle: nat, sequence: Option<nat>)

  datatype Kind = Award | Reversal | Adjustment

  /** One row of score_transactions. `original` is the position of the reversed row,
      `request` the identifier in the key of a manual adjustment. */
  datatype Transaction = Transaction(
    kind: Kind, person: PersonId, participation: Option<RegistrationId>, cycle: nat,
    points: int, original: Option<nat>, request: Option<nat>)

  datatype MatchState = NotApplicable | Matched | Unmatched | Ambiguous | Rejected

  datatype Registration = Registration(
    event: EventId, person: PersonId, kaitStudent: bool, active: bool, attendedAt: Option<int>,
    rosterPerson: Option<PersonId>, matchState: MatchState)

  datatype Review = Review(
    event: EventId, present: bool, scannerAttendedAt: Option<int>, role: RoleId,
    result: Option<ResultId>, rosterPerson: Option<PersonId>, matchState: MatchState,
    reason: Option<string>, reviewedAt: Option<int>)

  datatype ReviewState = NotStarted | Pending | Approved

  /** An event that is scored by review refuses direct confirmations and corrections. */
  datatype EventReview = EventReview(reviewRequired: bool, completed: bool, state: ReviewState, reviewedBefore: bool)

  datatype Person = Person(tenant: nat, kaitStudent: bool, mergedInto: Option<PersonId>)

  datatype Membership = Membership(
    person: PersonId, organization: nat, validFrom: Date, validTo: Option<Date>)

  datatype StatusAssignment = StatusAssignment(
    person: PersonId, statusType: nat, validFrom: Date, validTo: Option<Date>, retiredOn: Option<Date>)

  datatype Db = Db(
    participations: map<RegistrationId, Participation>,
    ledger: seq<Transaction>,
    registrations: map<RegistrationId, Registration>,
    reviews: map<RegistrationId, Review>,
    events: map<EventId, EventReview>,
    persons: map<PersonId, Person>,
    roster: set<PersonId>,
    memberships: seq<Membership>,
    statuses: seq<StatusAssignment>)

  datatype Error =
    | ParticipationNotFound | ParticipationNotConfirmed | RegistrationNotFound | AttendanceRequired
    | RoleRequired | InvalidReference | ScoringRuleAmbiguous | ScoringPolicyAmbiguous
    | ScoringPolicyNotAssigned | ScoringPolicyVersionNotFound | ScoringComponentMissing | PointsCheckViolated
    | PersonMergeSelf | PersonNotFound | PersonMergeStudentOnly | PersonMergeConflict
    | PersonMergeOrderNotRequired | PersonMergeOrderTooLarge | PersonMergeOrderChanged
    | ReviewNotPending | ReviewNotApproved | ReviewStale | ReviewItemNotFound | ReviewItemChanged
    | ReviewIdentityLocked | RosterMatchRequired | RosterLinkConflict | RosterPersonNotFound
    | ScoringSetupRequired | Forbidden | Validation | EventNotFound | UseEventReview | IdempotencyKeyReused | Conflict

  /** What a participation is worth: points, a missing component, or an error. */
  datatype Points = Points(points: int) | Missing(error: Error) | Failure(error: Error)

  /** The part of the reference data the ledger operations consult. The ledger laws hold
      for every engine; module ScoringEngine builds the one of the MosActive policies. */
  datatype Engine = Engine(
    hasSeason: EventId -> bool,
    hasLevel: EventId -> bool,
    usesV2: EventId -> bool,
    v2Points: (seq<StatusAssignment>, EventId, PersonId, Option<RoleId>, Option<ResultId>, nat) -> Points,
    v1Points: (EventId, Option<RoleId>, Option<ResultId>) -> Points,
    activeRoles: set<RoleId>,
    activeResults: set<ResultId>)

  function SetParticipation(db: Db, r: RegistrationId, p: Participation): Db {
    db.(participations := db.participations[r := p])
  }

  // ---- Ledger queries ---------------------------------------------------------

  predicate IsAward(t: Transaction, r: RegistrationId) {
    t.kind == Award && t.participation == Some(r)
  }

  /** Some later row has `a` as its original transaction. */
  predicate Reversed(ledger: seq<Transaction>, a: nat) {
    exists j :: 0 <= j < |ledger| && ledger[j].original == Some(a)
  }

  /** SUM(points) of one participation. */
  function Net(ledger: seq<Transaction>, r: RegistrationId): int {
    if ledger == [] then
      0
    else
      var t := ledger[|ledger| - 1];
      Net(ledger[..|ledger| - 1], r) + if t.participation == Some(r) then t.points else 0
  }

  /** SUM(points) of one person. */
  function Total(ledger: seq<Transaction>, person: PersonId): int {
    if ledger == [] then
      0
    else
      var t := ledger[|ledger| - 1];
      Total(ledger[..|ledger| - 1], person) + if t.person == person then t.points else 0
  }

  /** The newest AWARD of a participation's cycle. */
  function FindAward(ledger: seq<Transaction>, r: RegistrationId, cycle: nat): (a: Option<nat>)
    ensures a.Some? ==> a.value < |ledger| && IsAward(ledger[a.value], r) && ledger[a.value].cycle == cycle
    ensures a.None? ==> forall i :: 0 <= i < |ledger| ==> !(IsAward(ledger[i], r) && ledger[i].cycle == cycle)
  {
    if ledger == [] then
      None
    else if IsAward(ledger[|ledger| - 1], r) && ledger[|ledger| - 1].cycle == cycle then
      Some(|ledger| - 1)
    else
      FindAward(ledger[..|ledger| - 1], r, cycle)
  }

  lemma NetAppend(ledger: seq<Transaction>, t: Transaction, r: RegistrationId)
    ensures Net(ledger + [t], r) == Net(ledger, r) + if t.participation == Some(r) then t.points else 0
  {
    assert (ledger + [t])[..|ledger|] == ledger;
  }

  lemma TotalAppend(ledger: seq<Transaction>, t: Transaction, person: PersonId)
    ensures Total(ledger + [t], person) == Total(ledger, person) + if t.person == person then t.points else 0
  {
    assert (ledger + [t])[..|ledger|] == ledger;
  }
}
