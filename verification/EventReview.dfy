/** Review of a finished event (event_review.py): snapshot the registrations, edit one
    decision, preview its score, and approve the whole sheet. */
module EventReviewing {
  import opened Common
  import opened ActivityModel
  import opened ActivityService

  const MAX_REVIEW_ITEMS := 5000

  predicate ActiveIn(db: Db, event: EventId, r: RegistrationId) {
    r in db.registrations && db.registrations[r].event == event && db.registrations[r].active
  }

  function ActiveSet(db: Db, event: EventId): set<RegistrationId> {
    set r | r in db.registrations && ActiveIn(db, event, r)
  }

  /** The event's active registrations, by id. */
  function ActiveRegistrations(db: Db, event: EventId): seq<RegistrationId> {
    SortedIds(ActiveSet(db, event))
  }

  function ItemSet(db: Db, event: EventId): set<RegistrationId> {
    set r | r in db.reviews && db.reviews[r].event == event && r in db.registrations && db.registrations[r].active
  }

  /** The review rows of the event whose registration is active, by registration id. */
  function ReviewItems(db: Db, event: EventId): seq<RegistrationId> {
    SortedIds(ItemSet(db, event))
  }

  // ---- Preparation ------------------------------------------------------------

  /** The snapshot of one registration when its event goes to review. */
  function InitialReview(db: Db, event: EventId, r: RegistrationId, defaultRole: RoleId): Review
    requires r in db.registrations
  {
    var reg, p := db.registrations[r], Find(db.participations, r);
    Review(event, reg.attendedAt.Some?, reg.attendedAt,
      if p.Some? && p.value.role.Some? then p.value.role.value else defaultRole,
      if p.Some? then p.value.result else None,
      reg.rosterPerson, reg.matchState, None, None)
  }

  /** Rows that already exist keep the earlier staff decisions. */
  function PreparedReviews(
    db: Db, event: EventId, ids: seq<RegistrationId>, defaultRole: RoleId): map<RegistrationId, Review>
    requires forall r :: r in ids ==> r in db.registrations
  {
    if ids == [] then
      db.reviews
    else
      var before, r := PreparedReviews(db, event, ids[..|ids| - 1], defaultRole), ids[|ids| - 1];
      if r in before then before else before[r := InitialReview(db, event, r, defaultRole)]
  }

  /** `prepare_review`; the caller has just completed the event. */
  function PrepareReview(db: Db, event: EventId, defaultRole: Option<RoleId>): Result<Db, Error> {
    if defaultRole.None? then Err(RoleRequired)
    else if event !in db.events then Err(ReviewNotPending)
    else
      var ids := ActiveRegistrations(db, event);
      if |ids| > MAX_REVIEW_ITEMS then
        Err(Conflict)
      else
        var e := db.events[event];
        Ok(db.(reviews := PreparedReviews(db, event, ids, defaultRole.value),
               events := db.events[event :=
                 if e.state == NotStarted then e.(completed := true, state := Pending) else e.(completed := true)]))
  }

  // ---- One decision -----------------------------------------------------------

  /** The optimistic-concurrency token; the digest is modelled as what it covers. */
  datatype ReviewVersion = ReviewVersion(review: Review, attendedAt: Option<int>)

  function VersionOf(db: Db, r: RegistrationId): ReviewVersion
    requires r in db.reviews && r in db.registrations
  {
    ReviewVersion(db.reviews[r], db.registrations[r].attendedAt)
  }

  datatype Decision = Decision(
    present: bool, role: RoleId, result: Option<ResultId>, rosterPerson: Option<PersonId>,
    rejectMatch: bool, reason: string)

  predicate OnRoster(db: Db, person: PersonId, tenant: nat) {
    person in db.roster && person in db.persons && db.persons[person].tenant == tenant
    && db.persons[person].kaitStudent && db.persons[person].mergedInto.None?
  }

  function UpdateReviewItem(
    g: Engine, db: Db, event: EventId, r: RegistrationId, d: Decision, tenant: nat, expected: ReviewVersion, now: int)
    : Result<Db, Error>
  {
    if r !in db.reviews || db.reviews[r].event != event || r !in db.registrations then
      Err(ReviewItemNotFound)
    else if VersionOf(db, r) != expected then
      Err(ReviewItemChanged)
    else
      var p := Find(db.participations, r);
      if d.rosterPerson.Some? && p.Some? && p.value.sequence.Some? && d.rosterPerson.value != p.value.person then
        Err(ReviewIdentityLocked)
      else if !ValidReferences(g, d.role, d.result) then Err(InvalidReference)
      else if d.rejectMatch && d.rosterPerson.Some? then Err(Validation)
      else if d.rosterPerson.Some? && !OnRoster(db, d.rosterPerson.value, tenant) then Err(RosterPersonNotFound)
      else
        var reg, review := db.registrations[r], db.reviews[r];
        var state :=
          if !reg.kaitStudent then NotApplicable
          else if d.rejectMatch then Rejected
          else if d.rosterPerson.Some? then Matched
          else review.matchState;
        Ok(db.(reviews := db.reviews[r := Review(event, d.present, reg.attendedAt, d.role, d.result,
          if d.rejectMatch then None else d.rosterPerson, state, Some(d.reason), Some(now))]))
  }

  // ---- Approval ---------------------------------------------------------------

  predicate Eligible(item: Review, reg: Registration) {
    item.present && reg.kaitStudent && item.matchState != Rejected
  }

  /** Another active registration of the event already belongs to the person. */
  predicate Collides(db: Db, event: EventId, r: RegistrationId, person: PersonId) {
    exists q :: q in db.registrations && q != r && ActiveIn(db, event, q) && db.registrations[q].person == person
  }

  function LinkRegistration(db: Db, r: RegistrationId, person: PersonId): Db
    requires r in db.registrations
  {
    db.(registrations := db.registrations[r :=
      db.registrations[r].(person := person, rosterPerson := Some(person), matchState := Matched)])
  }

  /** The registration is linked to the roster student; only a draft follows it. */
  function Relinked(db: Db, r: RegistrationId, person: PersonId): Db
    requires r in db.registrations
  {
    var linked := LinkRegistration(db, r, person);
    if r in db.participations && db.participations[r].status == Draft
    then SetParticipation(linked, r, db.participations[r].(person := person)) else linked
  }

  function Linked(db: Db, r: RegistrationId, person: PersonId): Db
    requires r in db.registrations
  {
    if db.registrations[r].person != person then Relinked(db, r, person) else db
  }

  /** An existing participation takes the reviewed role and result first. */
  function TakeDecision(g: Engine, db: Db, r: RegistrationId, item: Review): Result<Db, Error> {
    if r in db.participations then UpdateParticipation(g, db, r, Set(Some(item.role)), Set(item.result)) else Ok(db)
  }

  function CancelIneligible(db: Db, r: RegistrationId): Result<Db, Error> {
    if r in db.participations && db.participations[r].status == Confirmed then CancelParticipation(db, r) else Ok(db)
  }

  /** Link the registration, reclassify and confirm one student who was present. */
  function ApproveStudent(
    g: Engine, db: Db, event: EventId, r: RegistrationId, item: Review, person: PersonId): Result<Db, Error>
    requires r in db.registrations
  {
    var reg, existing := db.registrations[r], Find(db.participations, r);
    if reg.person != person && existing.Some? && existing.value.sequence.Some? then
      Err(ReviewIdentityLocked)
    else if reg.person != person && Collides(db, event, r, person) then
      Err(RosterLinkConflict)
    else
      var updated :- TakeDecision(g, Linked(db, r, person), r, item);
      var confirmed :- ConfirmRegistration(g, updated, event, r, Some(item.role), item.result, reg.attendedAt.None?);
      if r in confirmed.participations && confirmed.participations[r].state == Awarded
      then Ok(confirmed) else Err(ScoringSetupRequired)
  }

  /** One row of the approval loop. */
  function ApproveItem(g: Engine, db: Db, event: EventId, r: RegistrationId): Result<Db, Error>
    requires r in db.reviews && r in db.registrations
  {
    var item, reg := db.reviews[r], db.registrations[r];
    if !Eligible(item, reg) then CancelIneligible(db, r)
    else if item.rosterPerson.None? then Err(RosterMatchRequired)
    else ApproveStudent(g, db, event, r, item, item.rosterPerson.value)
  }

  function ApproveItems(g: Engine, db: Db, event: EventId, ids: seq<RegistrationId>): Result<Db, Error> {
    if ids == [] then
      Ok(db)
    else
      var before :- ApproveItems(g, db, event, ids[..|ids| - 1]);
      var r := ids[|ids| - 1];
      if r in before.reviews && r in before.registrations then ApproveItem(g, before, event, r) else Ok(before)
  }

  /** Every condition checked before the loop. */
  function ApprovalError(g: Engine, db: Db, event: EventId, superAdmin: bool): Option<Error> {
    if event !in db.events || !db.events[event].completed || db.events[event].state != Pending then
      Some(ReviewNotPending)
    else if db.events[event].reviewedBefore && !superAdmin then Some(Forbidden)
    else if !g.hasLevel(event) || !g.hasSeason(event) || !g.usesV2(event) then Some(ScoringSetupRequired)
    else SheetError(db, ReviewItems(db, event), |ActiveRegistrations(db, event)|)
  }

  /** The sheet must cover every active registration, be up to date and be resolved. */
  function SheetError(db: Db, ids: seq<RegistrationId>, activeCount: nat): Option<Error>
    requires forall r :: r in ids ==> r in db.reviews && r in db.registrations
  {
    if |ids| != activeCount then Some(ReviewStale)
    else if exists r :: r in ids && Stale(db, r) then Some(ReviewStale)
    else if exists r :: r in ids && Unresolved(db, r) then Some(RosterMatchRequired)
    else None
  }

  /** The scanner marked attendance after the decision was saved. */
  predicate Stale(db: Db, r: RegistrationId)
    requires r in db.registrations && r in db.reviews
  {
    db.registrations[r].attendedAt != db.reviews[r].scannerAttendedAt
  }

  predicate Unresolved(db: Db, r: RegistrationId)
    requires r in db.registrations && r in db.reviews
  {
    db.registrations[r].kaitStudent && (db.reviews[r].matchState == Unmatched || db.reviews[r].matchState == Ambiguous)
  }

  datatype Summary = Summary(registered: nat, present: nat, absent: nat, awarded: nat)

  /** The counters the approval returns. */
  function Count(db: Db, ids: seq<RegistrationId>): Summary
    requires forall r :: r in ids ==> r in db.reviews && r in db.registrations
  {
    if ids == [] then
      Summary(0, 0, 0, 0)
    else
      var c, r := Count(db, ids[..|ids| - 1]), ids[|ids| - 1];
      Summary(c.registered + 1,
        c.present + if db.reviews[r].present then 1 else 0,
        c.absent + if db.reviews[r].present then 0 else 1,
        c.awarded + if Eligible(db.reviews[r], db.registrations[r]) then 1 else 0)
  }

  function MarkApproved(db: Db, event: EventId): Db {
    if event in db.events
    then db.(events := db.events[event := db.events[event].(state := Approved, reviewedBefore := true)])
    else db
  }

  /** `approve_review`. */
  function ApproveReview(g: Engine, db: Db, event: EventId, superAdmin: bool): Result<Db, Error> {
    var error := ApprovalError(g, db, event, superAdmin);
    if error.Some? then
      Err(error.value)
    else
      ApproveSheet(g, db, event, ReviewItems(db, event))
  }

  function ApproveSheet(g: Engine, db: Db, event: EventId, ids: seq<RegistrationId>): Result<Db, Error> {
    var scored :- ApproveItems(g, db, event, ids);
    Ok(MarkApproved(scored, event))
  }

  /** A super administrator sets an approved review back to pending. */
  function ReopenReview(db: Db, event: EventId): Result<Db, Error> {
    if event in db.events && db.events[event].completed && db.events[event].state == Approved
    then Ok(db.(events := db.events[event := db.events[event].(state := Pending)])) else Err(ReviewNotApproved)
  }

  // ---- Preview ----------------------------------------------------------------

  datatype Preview = NoScore | Blocked(error: Error) | Ready(points: int, sequence: nat)

  /** `preview_review_score` of a saved decision at the version the reader saw. */
  function PreviewReviewScore(
    g: Engine, db: Db, event: EventId, r: RegistrationId, expected: ReviewVersion): Result<Preview, Error>
  {
    if r !in db.reviews || db.reviews[r].event != event || r !in db.registrations || !db.registrations[r].active then
      Err(ReviewItemNotFound)
    else if VersionOf(db, r) != expected then Err(ReviewItemChanged)
    else if Stale(db, r) then Err(ReviewStale)
    else Ok(PreviewItem(g, db, event, r))
  }

  function PreviewItem(g: Engine, db: Db, event: EventId, r: RegistrationId): Preview
    requires r in db.reviews && r in db.registrations
  {
    var item, reg, p := db.reviews[r], db.registrations[r], Find(db.participations, r);
    if !Eligible(item, reg) then NoScore
    else if item.matchState != Matched || item.rosterPerson.None? then Blocked(RosterMatchRequired)
    else
      var person := item.rosterPerson.value;
      if p.Some? && p.value.sequence.Some? && p.value.person != person then Blocked(ReviewIdentityLocked)
      else if reg.person != person && Collides(db, event, r, person) then Blocked(RosterLinkConflict)
      else if !g.hasLevel(event) || !g.hasSeason(event) || !g.usesV2(event) then Blocked(ScoringSetupRequired)
      else
        var sequence := SequenceFor(g, db, person, r, if p.Some? then p.value.sequence else None);
        match g.v2Points(db.statuses, event, person, Some(item.role), item.result, sequence)
        case Points(points) => Ready(points, sequence)
        case Missing(error) => Blocked(error)
        case Failure(error) => Blocked(error)
  }
}
