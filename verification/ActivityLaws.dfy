/** What each request about one participation is answered, in terms of the rows it finds and
    leaves: who is refused and why, which role, result and number the row ends with, and what
    it is worth afterwards. */
module ActivityLaws {
  import opened Common
  import opened ActivityModel
  import opened ActivityService
  import opened LedgerInvariant
  import opened ActivityInvariant
  import opened EventReviewProofs
  import opened PreviewProofs

  // ---- Numbers ----------------------------------------------------------------

  /** The ledger has an award of the participation. */
  ghost predicate HasAward(db: Db, q: RegistrationId) {
    exists i :: 0 <= i < |db.ledger| && db.ledger[i].kind == Award && db.ledger[i].participation == Some(q)
  }

  /** The person's other participations in seasons that are confirmed or were ever awarded. */
  ghost function ScoredOthers(g: Engine, db: Db, person: PersonId, r: RegistrationId): set<RegistrationId> {
    set q | q in db.participations && q != r && db.participations[q].person == person
      && g.hasSeason(db.participations[q].event) && (db.participations[q].status == Confirmed || HasAward(db, q))
  }

  /** One of the person's other participations has the number. */
  ghost predicate HasNumber(db: Db, person: PersonId, r: RegistrationId, n: int) {
    exists q :: q in db.participations && q != r && db.participations[q].person == person
      && db.participations[q].sequence.Some? && db.participations[q].sequence.value == n
  }

  /** The stored number, or the least one above all the person's others and their count. */
  ghost predicate NumberFor(
    g: Engine, db: Db, person: PersonId, r: RegistrationId, stored: Option<nat>, n: nat)
  {
    if stored.Some? then
      n == stored.value
    else
      && |ScoredOthers(g, db, person, r)| < n && (forall m: int :: m >= n ==> !HasNumber(db, person, r, m))
      && (n - 1 == |ScoredOthers(g, db, person, r)| || HasNumber(db, person, r, n - 1))
  }

  lemma NextNumberIsLeast(g: Engine, db: Db, person: PersonId, r: RegistrationId, stored: Option<nat>)
    requires r in db.participations ==> db.participations[r].sequence == stored
    ensures NumberFor(g, db, person, r, stored, SequenceFor(g, db, person, r, stored))
  {
    forall q
      ensures HasAward(db, q) == EverAwarded(db.ledger, q)
    {
      AwardsAlike(db, q);
    }
    assert History(g, db, person, r) == ScoredOthers(g, db, person, r);
    if stored.None? {
      LargestNumber(db, person, r);
      NextSequenceIsNew(g, db, person, r);
      forall q | q in db.participations && db.participations[q].person == person && db.participations[q].sequence.Some?
        ensures db.participations[q].sequence.value < NextSequence(g, db, person, r)
      {
        assert Holds(db.participations, q, person);
      }
    }
  }

  lemma AwardsAlike(db: Db, q: RegistrationId)
    ensures HasAward(db, q) == EverAwarded(db.ledger, q)
  {
    if HasAward(db, q) {
      var i :| 0 <= i < |db.ledger| && db.ledger[i].kind == Award && db.ledger[i].participation == Some(q);
      assert IsAward(db.ledger[i], q);
    }
  }

  lemma LargestNumber(db: Db, person: PersonId, r: RegistrationId)
    requires r in db.participations ==> db.participations[r].sequence.None?
    ensures var largest := Largest(Allocated(db.participations, person));
      largest == 0 || HasNumber(db, person, r, largest)
  {
    var largest := Largest(Allocated(db.participations, person));
    if largest != 0 {
      var q :| q in db.participations && db.participations[q].person == person
        && db.participations[q].sequence.Some? && db.participations[q].sequence.value == largest;
    }
  }

  /** The number the participation has so far. */
  ghost function NumberKept(db: Db, r: RegistrationId): Option<nat> {
    if r in db.participations then db.participations[r].sequence else None
  }

  // ---- One award --------------------------------------------------------------

  /** What the rules of its season give a participation at a number. */
  ghost function Rated(g: Engine, statuses: seq<StatusAssignment>, p: Participation, n: nat): Points {
    if g.usesV2(p.event) then g.v2Points(statuses, p.event, p.person, p.role, p.result, n)
    else g.v1Points(p.event, p.role, p.result)
  }

  /** The row has been scored: its state and, in a v2 season, its number are new, and its
      ledger rows sum to the points. */
  ghost predicate ScoredRowIs(
    g: Engine, after: Db, r: RegistrationId, p: Participation, n: nat, state: ScoringState, points: int)
  {
    && r in after.participations && Net(after.ledger, r) == points
    && after.participations[r] == p.(state := state, sequence := if g.usesV2(p.event) then Some(n) else p.sequence)
  }

  /** How scoring the row ends: refused for a failure of the rules or for zero points,
      otherwise written with exactly the points, or without a rule. */
  ghost predicate ScoredAsRated(
    g: Engine, statuses: seq<StatusAssignment>, r: RegistrationId, p: Participation, n: nat, outcome: Result<Db, Error>)
  {
    match Rated(g, statuses, p, n)
    case Failure(error) => outcome == Err(error)
    case Missing(_) => outcome.Ok? && ScoredRowIs(g, outcome.value, r, p, n, NoRule, 0)
    case Points(points) =>
      if points == 0 then outcome == Err(PointsCheckViolated)
      else outcome.Ok? && ScoredRowIs(g, outcome.value, r, p, n, Awarded, points)
  }

  lemma AwardOutcome(g: Engine, db: Db, next: Db, r: RegistrationId) returns (n: nat)
    requires r in db.registrations && LocalChange(db, next, r)
    requires Ledgered(next.ledger, next.participations, {r}) && ReadyToAward(next, r)
    requires next.participations[r].sequence == NumberKept(db, r)
    ensures NumberFor(g, db, next.participations[r].person, r, NumberKept(db, r), n)
    ensures ScoredAsRated(g, db.statuses, r, next.participations[r], n, AwardScore(g, next, r))
  {
    var p := next.participations[r];
    LocalIsItem(db, next, r);
    ItemKeepsHistory(db, next, r, p.person);
    SequenceAgrees(g, db, next, p.person, r, p.sequence);
    n := SequenceFor(g, db, p.person, r, p.sequence);
    NextNumberIsLeast(g, db, p.person, r, p.sequence);
    if AwardScore(g, next, r).Ok? {
      AwardKeepsLedgered(g, next, {r}, r);
    }
  }

  // ---- Confirmation -----------------------------------------------------------

  /** The requested role, or else the one of the participation there is. */
  ghost function RoleTaken(db: Db, r: RegistrationId, role: Option<RoleId>): Option<RoleId> {
    match role
    case Some(_) => role
    case None => if r in db.participations then db.participations[r].role else None
  }

  /** The same for the result. */
  ghost function ResultTaken(db: Db, r: RegistrationId, result: Option<ResultId>): Option<ResultId> {
    match result
    case Some(_) => result
    case None => if r in db.participations then db.participations[r].result else None
  }

  /** The role is active, and so is the result if there is one. */
  ghost predicate KnownReferences(g: Engine, role: RoleId, result: Option<ResultId>) {
    role in g.activeRoles && (result.Some? ==> result.value in g.activeResults)
  }

  ghost predicate IsConfirmed(db: Db, r: RegistrationId) {
    r in db.participations && db.participations[r].status == Confirmed
  }

  /** The unscored row of a confirmation: of the registration's person and event when it is
      new, otherwise the same row in its next cycle. */
  ghost predicate ConfirmedFrom(
    db: Db, r: RegistrationId, role: RoleId, result: Option<ResultId>, p: Participation)
    requires r in db.registrations
  {
    && p.role == Some(role) && p.result == result && p.status == Confirmed
    && if r in db.participations then
         var q := db.participations[r];
         p.person == q.person && p.event == q.event && p.cycle == q.cycle + 1 && p.sequence == q.sequence
       else
         && p.person == db.registrations[r].person && p.event == db.registrations[r].event
         && p.cycle == 1 && p.sequence.None?
  }

  lemma FreshConfirmation(g: Engine, db: Db, r: RegistrationId, role: RoleId, result: Option<ResultId>)
    returns (p: Participation, n: nat)
    requires Inv(db) && r in db.registrations && !IsConfirmed(db, r)
    ensures ConfirmedFrom(db, r, role, result, p) && NumberFor(g, db, p.person, r, NumberKept(db, r), n)
    ensures ScoredAsRated(g, db.statuses, r, p, n, AwardScore(g, Opened(db, r, role, result), r))
  {
    var next := Opened(db, r, role, result);
    OpeningIsPending(db, r, role, result);
    p := next.participations[r];
    n := AwardOutcome(g, db, next, r);
  }

  /** The first check that refuses a confirmation. */
  ghost function ConfirmRefusal(
    g: Engine, db: Db, event: EventId, r: RegistrationId, role: Option<RoleId>, result: Option<ResultId>, allow: bool)
    : Option<Error>
  {
    if r !in db.registrations || db.registrations[r].event != event || !db.registrations[r].active then
      Some(RegistrationNotFound)
    else if db.registrations[r].attendedAt.None? && !allow then Some(AttendanceRequired)
    else if RoleTaken(db, r, role).None? then Some(RoleRequired)
    else if !KnownReferences(g, RoleTaken(db, r, role).value, ResultTaken(db, r, result)) then Some(InvalidReference)
    else None
  }

  /** The answer to a confirmation: refused by the first check that fails, nothing to do, or
      the row scored at the role and the result taken. */
  lemma ConfirmAnswered(
    g: Engine, db: Db, event: EventId, r: RegistrationId, role: Option<RoleId>, result: Option<ResultId>, allow: bool)
    returns (p: Participation, n: nat)
    requires Inv(db)
    ensures var outcome, refusal := ConfirmRegistration(g, db, event, r, role, result, allow),
        ConfirmRefusal(g, db, event, r, role, result, allow);
      if refusal.Some? then outcome == Err(refusal.value)
      else if IsConfirmed(db, r) then outcome == Ok(db)
      else
        && ConfirmedFrom(db, r, RoleTaken(db, r, role).value, ResultTaken(db, r, result), p)
        && NumberFor(g, db, p.person, r, NumberKept(db, r), n)
        && ScoredAsRated(g, db.statuses, r, p, n, outcome)
  {
    p, n := Participation(0, 0, None, None, Draft, NotScored, 0, None), 0;
    if ConfirmRefusal(g, db, event, r, role, result, allow).None? && !IsConfirmed(db, r) {
      p, n := FreshConfirmation(g, db, r, RoleTaken(db, r, role).value, ResultTaken(db, r, result));
      ConfirmIsFresh(g, db, event, r, role, result, allow);
    }
  }

  lemma ConfirmIsFresh(
    g: Engine, db: Db, event: EventId, r: RegistrationId, role: Option<RoleId>, result: Option<ResultId>, allow: bool)
    requires ConfirmRefusal(g, db, event, r, role, result, allow).None? && !IsConfirmed(db, r)
    ensures ConfirmRegistration(g, db, event, r, role, result, allow)
      == AwardScore(g, Opened(db, r, RoleTaken(db, r, role).value, ResultTaken(db, r, result)), r)
  {
  }

  // ---- Correction -------------------------------------------------------------

  /** A field of the patch, or the stored value it keeps. */
  ghost function Wanted(field: Field, stored: Option<nat>): Option<nat> {
    match field
    case Keep => stored
    case Set(value) => value
  }

  /** The first check that refuses a correction. */
  ghost function UpdateRefusal(g: Engine, db: Db, r: RegistrationId, role: Field, result: Field): Option<Error> {
    if r !in db.participations then Some(ParticipationNotFound)
    else
      var newRole := Wanted(role, db.participations[r].role);
      if newRole.None? then Some(RoleRequired)
      else if !KnownReferences(g, newRole.value, Wanted(result, db.participations[r].result))
      then Some(InvalidReference) else None
  }

  lemma FreshCorrection(g: Engine, db: Db, r: RegistrationId, role: Option<RoleId>, result: Option<ResultId>)
    returns (n: nat)
    requires Inv(db) && IsConfirmed(db, r)
    ensures var p := db.participations[r];
      && NumberFor(g, db, p.person, r, p.sequence, n)
      && ScoredAsRated(g, db.statuses, r,
           p.(role := role, result := result, cycle := p.cycle + 1, state := NotScored), n,
           AwardScore(g, Reclassified(db, r, role, result), r))
  {
    ReclassifyingIsPending(db, r, role, result);
    n := AwardOutcome(g, db, Reclassified(db, r, role, result), r);
  }

  /** A row with the two fields as the patch wants them. */
  ghost function Corrected(p: Participation, role: Field, result: Field): Participation {
    p.(role := Wanted(role, p.role), result := Wanted(result, p.result))
  }

  lemma CorrectionServed(g: Engine, db: Db, r: RegistrationId, role: Field, result: Field)
    requires UpdateRefusal(g, db, r, role, result).None?
    ensures var p, q := db.participations[r], Corrected(db.participations[r], role, result);
      UpdateParticipation(g, db, r, role, result) ==
        if q == p then Ok(db)
        else if !IsConfirmed(db, r) then Ok(db.(participations := db.participations[r := q]))
        else AwardScore(g, Reclassified(db, r, q.role, q.result), r)
  {
  }

  /** The answer to a correction: refused by the first check that fails, nothing to do, the
      two fields alone replaced, or for a confirmed row a new cycle scored at them. */
  lemma UpdateAnswered(g: Engine, db: Db, r: RegistrationId, role: Field, result: Field) returns (n: nat)
    requires Inv(db)
    ensures var outcome, refusal := UpdateParticipation(g, db, r, role, result), UpdateRefusal(g, db, r, role, result);
      if refusal.Some? then outcome == Err(refusal.value)
      else
        var p, q := db.participations[r], Corrected(db.participations[r], role, result);
        if q == p then outcome == Ok(db)
        else if !IsConfirmed(db, r) then outcome == Ok(db.(participations := db.participations[r := q]))
        else
          && NumberFor(g, db, p.person, r, p.sequence, n)
          && ScoredAsRated(g, db.statuses, r, q.(cycle := p.cycle + 1, state := NotScored), n, outcome)
  {
    n := 0;
    if UpdateRefusal(g, db, r, role, result).None? {
      CorrectionServed(g, db, r, role, result);
      if IsConfirmed(db, r) {
        var q := Corrected(db.participations[r], role, result);
        n := FreshCorrection(g, db, r, q.role, q.result);
      }
    }
  }

  // ---- Draft assignment and cancellation --------------------------------------

  /** The answer to a draft assignment: refused, a correction of the row there is, or a new
      unscored draft of the registration's person, and nothing else. */
  lemma AssignAnswered(g: Engine, db: Db, event: EventId, r: RegistrationId, role: RoleId, result: Option<ResultId>)
    returns (draft: Participation)
    requires ParticipationsLinked(db.participations, db.registrations)
    ensures var outcome := AssignParticipation(g, db, event, r, role, result);
      if !KnownReferences(g, role, result) then outcome == Err(InvalidReference)
      else if r !in db.registrations || db.registrations[r].event != event || !db.registrations[r].active then
        outcome == Err(RegistrationNotFound)
      else if r in db.participations then
        outcome == UpdateParticipation(g, db, r, Set(Some(role)), Set(result))
      else
        && outcome == Ok(db.(participations := db.participations[r := draft]))
        && draft.person == db.registrations[r].person && draft.event == db.registrations[r].event
        && draft.role == Some(role) && draft.result == result && draft.status == Draft
        && draft.state == NotScored && draft.cycle == 0 && draft.sequence.None?
  {
    var person := if r in db.registrations then db.registrations[r].person else 0;
    draft := Participation(person, event, Some(role), result, Draft, NotScored, 0, None);
  }

  /** The row is cancelled, worth nothing, and the same but for its state if it was awarded. */
  ghost predicate CancelledAlone(db: Db, after: Db, r: RegistrationId)
    requires r in db.participations
  {
    var p := db.participations[r];
    && Net(after.ledger, r) == 0
    && after.participations == db.participations[r := p.(status := Cancelled,
         state := if p.state == Awarded then ReversedState else p.state)]
  }

  /** The answer to a cancellation. */
  lemma CancelAnswered(db: Db, r: RegistrationId)
    requires Inv(db)
    ensures if r !in db.participations then CancelParticipation(db, r) == Err(ParticipationNotFound)
      else CancelParticipation(db, r).Ok? && CancelledAlone(db, CancelParticipation(db, r).value, r)
  {
    if r in db.participations {
      CancelKeepsInv(db, r);
      if db.participations[r].status == Cancelled {
        NetIsLivePoints(db, r);
        assert db.participations[r := db.participations[r]] == db.participations;
      }
    }
  }
}
