/** When a preview says what, in terms of the rows of the tables, and that READY is exactly
    what an approval of the row on the same tables would go through with. */
module PreviewLaws {
  import opened Common
  import opened ActivityModel
  import opened ActivityService
  import opened LedgerInvariant
  import opened ActivityInvariant
  import opened EventReviewing
  import opened EventReviewProofs
  import opened PreviewProofs
  import opened ActivityLaws
  import opened ReviewLaws

  // ---- What a preview says ----------------------------------------------------

  /** Another active registration of the event belongs to the person. */
  ghost predicate TakenByAnother(db: Db, event: EventId, r: RegistrationId, person: PersonId) {
    exists q :: Attending(db, event, q) && q != r && db.registrations[q].person == person
  }

  /** The participation has a number and belongs to somebody else. */
  ghost predicate NumberedForAnother(db: Db, r: RegistrationId, person: PersonId) {
    NumberKept(db, r).Some? && db.participations[r].person != person
  }

  /** What keeps a row to score from being priced. */
  ghost function Obstacle(g: Engine, db: Db, event: EventId, r: RegistrationId): Option<Error>
    requires r in db.reviews && r in db.registrations
  {
    var roster := db.reviews[r].rosterPerson;
    if db.reviews[r].matchState != Matched || roster.None? then Some(RosterMatchRequired)
    else if NumberedForAnother(db, r, roster.value) then Some(ReviewIdentityLocked)
    else if db.registrations[r].person != roster.value && TakenByAnother(db, event, r, roster.value) then
      Some(RosterLinkConflict)
    else if !ScoringSetUp(g, event) then Some(ScoringSetupRequired)
    else None
  }

  /** The price of the decision at a number, or the reason why there is none. */
  ghost function Quote(
    g: Engine, db: Db, event: EventId, item: Review, person: PersonId, n: nat): Preview
  {
    match g.v2Points(db.statuses, event, person, Some(item.role), item.result, n)
    case Points(points) => Ready(points, n)
    case Missing(error) => Blocked(error)
    case Failure(error) => Blocked(error)
  }

  /** The first check that refuses to preview. */
  ghost function PreviewRefusal(db: Db, event: EventId, r: RegistrationId, expected: ReviewVersion): Option<Error> {
    if r !in db.reviews || db.reviews[r].event != event || r !in db.registrations || !db.registrations[r].active then
      Some(ReviewItemNotFound)
    else if expected != ReviewVersion(db.reviews[r], db.registrations[r].attendedAt) then Some(ReviewItemChanged)
    else if db.registrations[r].attendedAt != db.reviews[r].scannerAttendedAt then Some(ReviewStale)
    else None
  }

  /** A preview is refused by the first check that fails; it is NO_SCORE exactly for a row
      that is not to score, BLOCKED by the first obstacle there is, and otherwise the price at
      the student's number. */
  lemma PreviewAnswered(g: Engine, db: Db, event: EventId, r: RegistrationId, expected: ReviewVersion)
    returns (n: nat)
    ensures var refusal, outcome := PreviewRefusal(db, event, r, expected),
        PreviewReviewScore(g, db, event, r, expected);
      if refusal.Some? then outcome == Err(refusal.value)
      else if !ToScore(db, r) then outcome == Ok(NoScore)
      else if Obstacle(g, db, event, r).Some? then outcome == Ok(Blocked(Obstacle(g, db, event, r).value))
      else
        var person := db.reviews[r].rosterPerson.value;
        && NumberFor(g, db, person, r, NumberKept(db, r), n)
        && outcome == Ok(Quote(g, db, event, db.reviews[r], person, n))
  {
    n := 0;
    if PreviewRefusal(db, event, r, expected).None? && db.reviews[r].rosterPerson.Some? {
      var person := db.reviews[r].rosterPerson.value;
      n := SequenceFor(g, db, person, r, NumberKept(db, r));
      NextNumberIsLeast(g, db, person, r, NumberKept(db, r));
      CollisionIsTaken(db, event, r, person);
    }
  }

  lemma CollisionIsTaken(db: Db, event: EventId, r: RegistrationId, person: PersonId)
    ensures Collides(db, event, r, person) == TakenByAnother(db, event, r, person)
  {
    if Collides(db, event, r, person) {
      var q :| q in db.registrations && q != r && ActiveIn(db, event, q) && db.registrations[q].person == person;
      assert Attending(db, event, q);
    }
    if TakenByAnother(db, event, r, person) {
      var q :| Attending(db, event, q) && q != r && db.registrations[q].person == person;
      assert ActiveIn(db, event, q);
    }
  }

  // ---- READY is what would be approved ----------------------------------------

  /** The points go to the roster student, and there are points to give: the participation is
      absent, theirs, or a draft of a registration of somebody else, and not yet confirmed at
      the decided role and result. */
  ghost predicate DueTo(db: Db, r: RegistrationId, person: PersonId)
    requires r in db.reviews && r in db.registrations
  {
    r in db.participations ==>
      var p := db.participations[r];
      && (p.person == person || (p.status == Draft && db.registrations[r].person != person))
      && (p.status == Confirmed ==> p.role != Some(db.reviews[r].role) || p.result != db.reviews[r].result)
  }

  /** A numbered participation and its registration have one owner. */
  ghost predicate NumberedTogether(db: Db, r: RegistrationId)
    requires r in db.registrations
  {
    NumberKept(db, r).Some? ==> db.participations[r].person == db.registrations[r].person
  }

  /** `award_score` pays a participation that the tables `base` promise points. */
  lemma AwardGoesThrough(g: Engine, base: Db, next: Db, r: RegistrationId, points: int)
    requires r in next.participations && next.participations[r].status == Confirmed
    requires g.usesV2(next.participations[r].event) && points != 0
    requires SameHistory(base, next, next.participations[r].person, r) && next.statuses == base.statuses
    requires NumberKept(base, r) == next.participations[r].sequence
    requires var p := next.participations[r];
      g.v2Points(base.statuses, p.event, p.person, p.role, p.result, SequenceFor(g, base, p.person, r, p.sequence))
        == Points(points)
    ensures AwardScore(g, next, r).Ok? && r in AwardScore(g, next, r).value.participations
    ensures var p, p' := next.participations[r], AwardScore(g, next, r).value.participations[r];
      p' == p.(state := Awarded, sequence := p'.sequence)
  {
    SequenceAgrees(g, base, next, next.participations[r].person, r, next.participations[r].sequence);
  }

  /** The student is promised points at a number that stays. */
  ghost predicate Promised(g: Engine, db: Db, event: EventId, r: RegistrationId, item: Review, person: PersonId) {
    var worth := g.v2Points(db.statuses, event, person, Some(item.role), item.result,
      SequenceFor(g, db, person, r, NumberKept(db, r)));
    worth.Points? && worth.points != 0 && g.usesV2(event)
  }

  /** The row to score is the promised one. */
  ghost predicate RowPromised(
    db: Db, p: Participation, event: EventId, r: RegistrationId, item: Review, person: PersonId)
  {
    && p.person == person && p.event == event && p.role == Some(item.role) && p.result == item.result
    && p.status == Confirmed && p.sequence == NumberKept(db, r)
  }

  lemma PromiseKept(
    g: Engine, db: Db, next: Db, event: EventId, r: RegistrationId, item: Review, person: PersonId)
    requires Promised(g, db, event, r, item, person) && r in next.participations
    requires RowPromised(db, next.participations[r], event, r, item, person)
    requires SameHistory(db, next, person, r) && next.statuses == db.statuses
    ensures AwardScore(g, next, r).Ok? && ScoredAs(AwardScore(g, next, r).value, r, item.role, item.result)
  {
    var worth := g.v2Points(db.statuses, event, person, Some(item.role), item.result,
      SequenceFor(g, db, person, r, NumberKept(db, r)));
    AwardGoesThrough(g, db, next, r, worth.points);
  }

  lemma ConfirmedStudentApproved(
    g: Engine, db: Db, linked: Db, event: EventId, r: RegistrationId, item: Review, person: PersonId, allow: bool)
    requires Inv(linked) && ActiveIn(linked, event, r) && r in db.registrations && ItemChange(db, linked, r)
    requires Promised(g, db, event, r, item, person) && ValidReferences(g, item.role, item.result)
    requires linked.registrations[r].attendedAt.Some? || allow
    requires r in db.participations && r in linked.participations
    requires linked.participations[r] == db.participations[r].(person := person)
    requires linked.participations[r].status == Confirmed
    requires linked.participations[r].role != Some(item.role) || linked.participations[r].result != item.result
    ensures TakeDecision(g, linked, r, item).Ok?
    ensures var updated := TakeDecision(g, linked, r, item).value;
      ScoredAs(updated, r, item.role, item.result)
      && ConfirmRegistration(g, updated, event, r, Some(item.role), item.result, allow) == Ok(updated)
  {
    ReclassifiedStudentScored(g, db, linked, event, r, item, person);
    DecisionReclassifies(g, linked, r, item);
    UpdateKeepsInv(g, linked, r, Set(Some(item.role)), Set(item.result));
    NothingLeftToConfirm(g, TakeDecision(g, linked, r, item).value, event, r, item, allow);
  }

  lemma DecisionReclassifies(g: Engine, db: Db, r: RegistrationId, item: Review)
    requires r in db.participations && db.participations[r].status == Confirmed
    requires db.participations[r].role != Some(item.role) || db.participations[r].result != item.result
    requires ValidReferences(g, item.role, item.result)
    ensures TakeDecision(g, db, r, item) == AwardScore(g, Reclassified(db, r, Some(item.role), item.result), r)
  {
  }

  lemma NothingLeftToConfirm(
    g: Engine, db: Db, event: EventId, r: RegistrationId, item: Review, allow: bool)
    requires ActiveIn(db, event, r) && (db.registrations[r].attendedAt.Some? || allow)
    requires ScoredAs(db, r, item.role, item.result) && ValidReferences(g, item.role, item.result)
    ensures ConfirmRegistration(g, db, event, r, Some(item.role), item.result, allow) == Ok(db)
  {
  }

  lemma ReclassifiedStudentScored(
    g: Engine, db: Db, linked: Db, event: EventId, r: RegistrationId, item: Review, person: PersonId)
    requires Inv(linked) && r in db.registrations && ItemChange(db, linked, r)
    requires Promised(g, db, event, r, item, person)
    requires r in db.participations && r in linked.participations
    requires linked.participations[r] == db.participations[r].(person := person)
    requires linked.participations[r].status == Confirmed && linked.participations[r].event == event
    ensures var scored := AwardScore(g, Reclassified(linked, r, Some(item.role), item.result), r);
      scored.Ok? && ScoredAs(scored.value, r, item.role, item.result)
  {
    var next := Reclassified(linked, r, Some(item.role), item.result);
    ReclassifyingIsPending(linked, r, Some(item.role), item.result);
    LocalKeepsHistory(db, linked, next, r, person);
    PromiseKept(g, db, next, event, r, item, person);
  }

  lemma UnconfirmedStudentApproved(
    g: Engine, db: Db, linked: Db, event: EventId, r: RegistrationId, item: Review, person: PersonId, allow: bool)
    requires Inv(linked) && ActiveIn(linked, event, r) && r in db.registrations && ItemChange(db, linked, r)
    requires Promised(g, db, event, r, item, person) && ValidReferences(g, item.role, item.result)
    requires linked.registrations[r].attendedAt.Some? || allow
    requires r in linked.participations <==> r in db.participations
    requires if r in linked.participations
      then linked.participations[r].person == person && linked.participations[r].status != Confirmed
        && linked.participations[r].sequence == db.participations[r].sequence
      else linked.registrations[r].person == person
    ensures TakeDecision(g, linked, r, item).Ok?
    ensures var confirmed :=
        ConfirmRegistration(g, TakeDecision(g, linked, r, item).value, event, r, Some(item.role), item.result, allow);
      confirmed.Ok? && r in confirmed.value.participations && confirmed.value.participations[r].state == Awarded
  {
    var updated := TakeDecision(g, linked, r, item).value;
    if r in linked.participations {
      UnconfirmedDecision(g, linked, r, item);
      ItemThenLocal(db, linked, updated, r);
    }
    FreshStudentApproved(g, db, updated, event, r, item, person);
  }

  lemma FreshStudentApproved(
    g: Engine, db: Db, updated: Db, event: EventId, r: RegistrationId, item: Review, person: PersonId)
    requires Inv(updated) && ActiveIn(updated, event, r) && r in db.registrations && ItemChange(db, updated, r)
    requires Promised(g, db, event, r, item, person)
    requires r in updated.participations <==> r in db.participations
    requires if r in updated.participations
      then updated.participations[r].person == person && updated.participations[r].status != Confirmed
        && updated.participations[r].sequence == db.participations[r].sequence
      else updated.registrations[r].person == person
    ensures var scored := AwardScore(g, Opened(updated, r, item.role, item.result), r);
      scored.Ok? && r in scored.value.participations && scored.value.participations[r].state == Awarded
  {
    var next := Opened(updated, r, item.role, item.result);
    OpeningIsPending(updated, r, item.role, item.result);
    LocalKeepsHistory(db, updated, next, r, person);
    OpenedRowPromised(db, updated, event, r, item, person);
    PromiseKept(g, db, next, event, r, item, person);
  }

  lemma OpenedRowPromised(
    db: Db, updated: Db, event: EventId, r: RegistrationId, item: Review, person: PersonId)
    requires r in updated.registrations && updated.registrations[r].event == event
    requires r in updated.participations ==> updated.participations[r].event == event
    requires r in updated.participations <==> r in db.participations
    requires if r in updated.participations
      then updated.participations[r].person == person
        && updated.participations[r].sequence == db.participations[r].sequence
      else updated.registrations[r].person == person
    ensures var next := Opened(updated, r, item.role, item.result);
      RowPromised(db, next.participations[r], event, r, item, person)
  {
  }

  // ---- One row ----------------------------------------------------------------

  lemma PromisedStudentApproved(g: Engine, db: Db, event: EventId, r: RegistrationId, person: PersonId)
    requires Inv(db) && Attending(db, event, r) && r in db.reviews
    requires Promised(g, db, event, r, db.reviews[r], person)
    requires ValidReferences(g, db.reviews[r].role, db.reviews[r].result)
    requires DueTo(db, r, person) && NumberedTogether(db, r)
    requires db.registrations[r].person != person ==> !TakenByAnother(db, event, r, person)
    ensures ApproveStudent(g, db, event, r, db.reviews[r], person).Ok?
  {
    var item, linked, allow := db.reviews[r], Linked(db, r, person), db.registrations[r].attendedAt.None?;
    CollisionIsTaken(db, event, r, person);
    LinkedState(db, event, r, person);
    DueIsCredited(db, r, person);
    if r in db.participations && db.participations[r].status == Confirmed {
      ConfirmedStudentApproved(g, db, linked, event, r, item, person, allow);
    } else {
      UnconfirmedStudentApproved(g, db, linked, event, r, item, person, allow);
    }
    StepsApprove(g, db, event, r, item, person);
  }

  /** The approval of a student is its three steps, once nothing forbids the link. */
  lemma StepsApprove(g: Engine, db: Db, event: EventId, r: RegistrationId, item: Review, person: PersonId)
    requires r in db.registrations
    requires db.registrations[r].person != person ==> NumberKept(db, r).None? && !Collides(db, event, r, person)
    requires var updated := TakeDecision(g, Linked(db, r, person), r, item);
      updated.Ok? && var confirmed := ConfirmRegistration(g, updated.value, event, r, Some(item.role), item.result,
        db.registrations[r].attendedAt.None?);
      confirmed.Ok? && r in confirmed.value.participations && confirmed.value.participations[r].state == Awarded
    ensures ApproveStudent(g, db, event, r, item, person).Ok?
  {
  }

  lemma DueIsCredited(db: Db, r: RegistrationId, person: PersonId)
    requires Inv(db) && r in db.reviews && r in db.registrations && DueTo(db, r, person)
    ensures Credited(db, r, person) == person && NeedsAward(db, r, db.reviews[r].role, db.reviews[r].result)
    ensures NumberedTogether(db, r) && NumberKept(db, r).Some? ==> db.registrations[r].person == person
  {
    if r in db.participations {
      assert Consistent(db.ledger, r, db.participations[r]);
    }
  }

  lemma ApprovedStudentPromised(g: Engine, db: Db, event: EventId, r: RegistrationId, person: PersonId)
    requires Inv(db) && Attending(db, event, r) && r in db.reviews && g.usesV2(event) && DueTo(db, r, person)
    requires ApproveStudent(g, db, event, r, db.reviews[r], person).Ok?
    ensures Promised(g, db, event, r, db.reviews[r], person)
    ensures ValidReferences(g, db.reviews[r].role, db.reviews[r].result) && NumberedTogether(db, r)
    ensures db.registrations[r].person != person ==> !TakenByAnother(db, event, r, person)
  {
    var item := db.reviews[r];
    var after := ApproveStudent(g, db, event, r, item, person).value;
    DueIsCredited(db, r, person);
    CollisionIsTaken(db, event, r, person);
    StudentPaidAsPromised(g, db, after, event, r, item, person);
    StudentKeepsInv(g, db, event, r, item, person);
    NetIsLivePoints(after, r);
  }

  /** On the same tables, an approval would go through with a MATCHED row that is due points
      to its roster student exactly when its preview is READY with points other than zero, the
      decided role and result are still active, and the participation, once numbered, is not
      kept by somebody else than the registration. */
  lemma ReadyIsApprovable(g: Engine, db: Db, event: EventId, r: RegistrationId, person: PersonId)
    requires Inv(db) && Attending(db, event, r) && r in db.reviews && ToScore(db, r) && ScoringSetUp(g, event)
    requires db.reviews[r].matchState == Matched && db.reviews[r].rosterPerson == Some(person) && DueTo(db, r, person)
    ensures ApproveItem(g, db, event, r).Ok? <==>
      && PreviewItem(g, db, event, r).Ready? && PreviewItem(g, db, event, r).points != 0
      && KnownReferences(g, db.reviews[r].role, db.reviews[r].result) && NumberedTogether(db, r)
  {
    CollisionIsTaken(db, event, r, person);
    PreviewPromises(g, db, event, r, person);
    if ApproveItem(g, db, event, r).Ok? {
      ApprovedStudentPromised(g, db, event, r, person);
    }
    if Promised(g, db, event, r, db.reviews[r], person) && NumberedTogether(db, r)
      && (db.registrations[r].person != person ==> !TakenByAnother(db, event, r, person))
      && ValidReferences(g, db.reviews[r].role, db.reviews[r].result) {
      PromisedStudentApproved(g, db, event, r, person);
    }
  }

  lemma PreviewPromises(g: Engine, db: Db, event: EventId, r: RegistrationId, person: PersonId)
    requires Inv(db) && Attending(db, event, r) && r in db.reviews && ToScore(db, r) && ScoringSetUp(g, event)
    requires db.reviews[r].matchState == Matched && db.reviews[r].rosterPerson == Some(person) && DueTo(db, r, person)
    ensures PreviewItem(g, db, event, r).Ready? && PreviewItem(g, db, event, r).points != 0 <==>
      && Promised(g, db, event, r, db.reviews[r], person)
      && (db.registrations[r].person != person ==> !TakenByAnother(db, event, r, person))
  {
    CollisionIsTaken(db, event, r, person);
    if r in db.participations {
      assert Consistent(db.ledger, r, db.participations[r]);
    }
  }
}
