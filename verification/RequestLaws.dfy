/** Which requests about registrations and events their handlers admit, in terms of the rows
    of the tables. */
module RequestLaws {
  import opened Common
  import opened ActivityModel
  import opened ActivityService
  import opened EventReviewing
  import opened ActivityRuns
  import opened ReviewLaws
  import opened PreviewLaws

  ghost predicate ScoredByReview(db: Db, event: EventId) {
    event in db.events && db.events[event].reviewRequired
  }

  ghost predicate ReviewBegun(db: Db, event: EventId) {
    ScoredByReview(db, event) && !db.events[event].state.NotStarted?
  }

  ghost predicate HasConfirmed(db: Db, event: EventId) {
    exists r :: r in db.participations && db.participations[r].status.Confirmed? && db.participations[r].event == event
  }

  /** The event of the participation a correction is about, if there is one. */
  ghost predicate CorrectsReviewed(db: Db, r: RegistrationId) {
    r in db.participations && ScoredByReview(db, db.participations[r].event)
  }

  /** The answer of the service, unless the review of the event refuses the request. */
  ghost function Admitted(g: Engine, db: Db, op: Operation): Result<Db, Error>
    requires op.Confirm? || op.Cancel? || op.Update? || op.Assign? || op.Prepare?
  {
    match op
    case Confirm(event, r, role, result, allow) =>
      if event !in db.events then Err(EventNotFound)
      else if db.events[event].reviewRequired then Err(UseEventReview)
      else ConfirmRegistration(g, db, event, r, role, result, allow)
    case Cancel(r) => if CorrectsReviewed(db, r) then Err(UseEventReview) else CancelParticipation(db, r)
    case Update(r, role, result) =>
      if CorrectsReviewed(db, r) then Err(UseEventReview) else UpdateParticipation(g, db, r, role, result)
    case Assign(event, r, role, result) =>
      if event !in db.events then Err(EventNotFound)
      else if ReviewBegun(db, event) then Err(UseEventReview)
      else AssignParticipation(g, db, event, r, role, result)
    case Prepare(event, defaultRole) =>
      if ScoredByReview(db, event) then PrepareReview(db, event, defaultRole) else Err(ReviewNotPending)
  }

  /** An event that is scored by review refuses confirmations and corrections, and drafts once
      its review has begun; one that is not has no review to begin. */
  lemma ReviewedEventsRefuse(g: Engine, db: Db, op: Operation)
    requires op.Confirm? || op.Cancel? || op.Update? || op.Assign? || op.Prepare?
    ensures Perform(g, db, op) == Admitted(g, db, op)
  {
  }

  /** A registration is refused exactly for a taken identifier, or for another active one of
      the same person at the event. */
  lemma RegistrationAnswered(db: Db, r: RegistrationId, registration: Registration)
    ensures AddRegistration(db, r, registration) ==
      if r in db.registrations then Err(Conflict)
      else if registration.active && TakenByAnother(db, registration.event, r, registration.person) then Err(Conflict)
      else Ok(db.(registrations := db.registrations[r := registration]))
  {
    CollisionIsTaken(db, registration.event, r, registration.person);
  }

  /** Only an active registration is marked as attended or annulled, and nothing else of it
      changes. */
  lemma MarksAnswered(g: Engine, db: Db, r: RegistrationId, at: int)
    ensures var active := r in db.registrations && db.registrations[r].active;
      if !active then
        && Perform(g, db, Attend(r, at)) == Err(RegistrationNotFound)
        && Perform(g, db, Annul(r)) == Err(RegistrationNotFound)
      else
        var reg := db.registrations[r];
        && Perform(g, db, Attend(r, at)) ==
             Ok(db.(registrations := db.registrations[r := reg.(attendedAt := Some(at))]))
        && Perform(g, db, Annul(r)) == Ok(db.(registrations := db.registrations[r := reg.(active := false)]))
  {
  }

  /** An event comes to be scored by review exactly when it is unfinished and has no confirmed
      participation. */
  lemma UpgradeAnswered(db: Db, event: EventId)
    requires event in db.events
    ensures StartReviewing(db, event) ==
      if db.events[event].completed || HasConfirmed(db, event) then Err(Conflict)
      else Ok(db.(events := db.events[event := db.events[event].(reviewRequired := true)]))
  {
    assert AnyConfirmed(db, event) == HasConfirmed(db, event);
  }
}
