/** What each operation of activity_service.py and scoring_v2.py does to the tables:
    one function per operation, from the tables before to the tables after or to the
    error that rolls the transaction back. */
module ActivityService {
  import opened Common
  import opened ActivityModel

  // ---- Scoring sequences ------------------------------------------------------

  predicate Scored(g: Engine, db: Db, q: RegistrationId)
    requires q in db.participations
  {
    g.hasSeason(db.participations[q].event)
    && (db.participations[q].status == Confirmed || EverAwarded(db.ledger, q))
  }

  predicate EverAwarded(ledger: seq<Transaction>, q: RegistrationId) {
    exists i :: 0 <= i < |ledger| && IsAward(ledger[i], q)
  }

  /** The person's other participations that count as scored history. */
  function History(g: Engine, db: Db, person: PersonId, except: RegistrationId): set<RegistrationId> {
    set q | q in db.participations && q != except && db.participations[q].person == person && Scored(g, db, q)
  }

  /** Every scoring sequence already allocated to the person. */
  function Allocated(participations: map<RegistrationId, Participation>, person: PersonId): set<nat> {
    set q | q in participations && participations[q].person == person && participations[q].sequence.Some?
      :: participations[q].sequence.value
  }

  function NextSequence(g: Engine, db: Db, person: PersonId, except: RegistrationId): nat {
    Max(|History(g, db, person, except)|, Largest(Allocated(db.participations, person))) + 1
  }

  /** `assign_scoring_sequence`; a stored sequence is kept. */
  function SequenceFor(
    g: Engine, db: Db, person: PersonId, r: RegistrationId, stored: Option<nat>): nat
  {
    if stored.Some? then stored.value else NextSequence(g, db, person, r)
  }

  // ---- Awards and reversals ---------------------------------------------------

  /** The tables after the sequence has been assigned; only v2 seasons number. */
  function Numbered(g: Engine, db: Db, r: RegistrationId): Db
    requires r in db.participations
  {
    var p := db.participations[r];
    if !g.usesV2(p.event) then
      db
    else
      SetParticipation(db, r, p.(sequence := Some(SequenceFor(g, db, p.person, r, p.sequence))))
  }

  /** What a confirmed, numbered participation is worth under the engine of its season. */
  function Worth(g: Engine, db: Db, r: RegistrationId): Points
    requires r in db.participations
  {
    var p := db.participations[r];
    if g.usesV2(p.event) then
      g.v2Points(db.statuses, p.event, p.person, p.role, p.result, if p.sequence.Some? then p.sequence.value else 0)
    else
      g.v1Points(p.event, p.role, p.result)
  }

  function AwardRow(p: Participation, r: RegistrationId, points: int): Transaction {
    Transaction(Award, p.person, Some(r), p.cycle, points, None, None)
  }

  /** INSERT of the AWARD row: the idempotency key keeps an existing row of the cycle,
      and the schema refuses a row of zero points. */
  function InsertAward(db: Db, r: RegistrationId, points: int): Result<Db, Error>
    requires r in db.participations
  {
    var p := db.participations[r];
    var marked := SetParticipation(db, r, p.(state := Awarded));
    if points == 0 then
      Err(PointsCheckViolated)
    else if FindAward(db.ledger, r, p.cycle).Some? then
      Ok(marked)
    else
      Ok(marked.(ledger := db.ledger + [AwardRow(p, r, points)]))
  }

  /** What is written once a numbered participation's worth is known. */
  function Settle(db: Db, r: RegistrationId, worth: Points): Result<Db, Error>
    requires r in db.participations
  {
    match worth
    case Failure(error) => Err(error)
    case Missing(_) => Ok(SetParticipation(db, r, db.participations[r].(state := NoRule)))
    case Points(points) => InsertAward(db, r, points)
  }

  function AwardScore(g: Engine, db: Db, r: RegistrationId): Result<Db, Error> {
    if r !in db.participations || db.participations[r].status != Confirmed then
      Err(ParticipationNotConfirmed)
    else
      Settle(Numbered(g, db, r), r, Worth(g, Numbered(g, db, r), r))
  }

  function ReversalRow(award: Transaction, a: nat): Transaction {
    Transaction(Reversal, award.person, award.participation, award.cycle, -award.points, Some(a), None)
  }

  /** `reverse_current_award`: at most one reversal of the current cycle's award. */
  function ReverseAward(ledger: seq<Transaction>, r: RegistrationId, cycle: nat): seq<Transaction> {
    var a := FindAward(ledger, r, cycle);
    if a.None? || Reversed(ledger, a.value) then
      ledger
    else
      ledger + [ReversalRow(ledger[a.value], a.value)]
  }

  function Reverse(db: Db, r: RegistrationId): Db
    requires r in db.participations
  {
    db.(ledger := ReverseAward(db.ledger, r, db.participations[r].cycle))
  }

  // ---- Confirm, cancel, reclassify --------------------------------------------

  predicate ValidReferences(g: Engine, role: RoleId, result: Option<ResultId>) {
    role in g.activeRoles && (result.None? || result.value in g.activeResults)
  }

  function OrElse<T>(a: Option<T>, b: Option<T>): Option<T> {
    if a.Some? then a else b
  }

  /** The participation row a confirmation writes, with the next scoring cycle. */
  function ConfirmedRow(
    reg: Registration, existing: Option<Participation>, role: RoleId, result: Option<ResultId>): Participation
  {
    if existing.Some? then
      existing.value.(role := Some(role), result := result, status := Confirmed, state := NotScored,
                      cycle := existing.value.cycle + 1)
    else
      Participation(reg.person, reg.event, Some(role), result, Confirmed, NotScored, 1, None)
  }

  function Find<T>(table: map<RegistrationId, T>, r: RegistrationId): Option<T> {
    if r in table then Some(table[r]) else None
  }

  /** The tables of a confirmation just before `award_score`. */
  function Opened(db: Db, r: RegistrationId, role: RoleId, result: Option<ResultId>): Db
    requires r in db.registrations
  {
    SetParticipation(db, r, ConfirmedRow(db.registrations[r], Find(db.participations, r), role, result))
  }

  function ConfirmRegistration(
    g: Engine, db: Db, event: EventId, r: RegistrationId, role: Option<RoleId>,
    result: Option<ResultId>, allowWithoutAttendance: bool): Result<Db, Error>
  {
    if r !in db.registrations || db.registrations[r].event != event || !db.registrations[r].active then
      Err(RegistrationNotFound)
    else
      var reg, existing := db.registrations[r], Find(db.participations, r);
      if reg.attendedAt.None? && !allowWithoutAttendance then
        Err(AttendanceRequired)
      else
        var newRole := OrElse(role, if existing.Some? then existing.value.role else None);
        var newResult := OrElse(result, if existing.Some? then existing.value.result else None);
        if newRole.None? then Err(RoleRequired)
        else if !ValidReferences(g, newRole.value, newResult) then Err(InvalidReference)
        else if existing.Some? && existing.value.status == Confirmed then Ok(db)
        else
          AwardScore(g, Opened(db, r, newRole.value, newResult), r)
  }

  function CancelledRow(p: Participation): Participation {
    p.(status := Cancelled, state := if p.state == Awarded then ReversedState else p.state)
  }

  function CancelParticipation(db: Db, r: RegistrationId): Result<Db, Error> {
    if r !in db.participations then
      Err(ParticipationNotFound)
    else
      var p := db.participations[r];
      if p.status == Cancelled then
        Ok(db)
      else
        var reversed := if p.status == Confirmed then Reverse(db, r) else db;
        Ok(SetParticipation(reversed, r, CancelledRow(p)))
  }

  /** A field of a PATCH request: absent, or present with a possibly null value. */
  datatype Field = Keep | Set(value: Option<nat>)

  function Patched(field: Field, current: Option<nat>): Option<nat> {
    if field.Set? then field.value else current
  }

  /** The tables of a reclassification of a confirmed participation before `award_score`. */
  function Reclassified(db: Db, r: RegistrationId, role: Option<RoleId>, result: Option<ResultId>): Db
    requires r in db.participations
  {
    var p := db.participations[r];
    SetParticipation(Reverse(db, r), r, p.(role := role, result := result, state := NotScored, cycle := p.cycle + 1))
  }

  function UpdateParticipation(g: Engine, db: Db, r: RegistrationId, role: Field, result: Field): Result<Db, Error> {
    if r !in db.participations then
      Err(ParticipationNotFound)
    else
      var p := db.participations[r];
      var newRole, newResult := Patched(role, p.role), Patched(result, p.result);
      if newRole.None? then Err(RoleRequired)
      else if !ValidReferences(g, newRole.value, newResult) then Err(InvalidReference)
      else if newRole == p.role && newResult == p.result then Ok(db)
      else if p.status != Confirmed then Ok(SetParticipation(db, r, p.(role := newRole, result := newResult)))
      else AwardScore(g, Reclassified(db, r, newRole, newResult), r)
  }

  /** The administrator's draft assignment of a role, before any confirmation. */
  function AssignParticipation(
    g: Engine, db: Db, event: EventId, r: RegistrationId, role: RoleId, result: Option<ResultId>): Result<Db, Error>
  {
    if !ValidReferences(g, role, result) then Err(InvalidReference)
    else if r !in db.registrations || db.registrations[r].event != event || !db.registrations[r].active then
      Err(RegistrationNotFound)
    else if r in db.participations then
      UpdateParticipation(g, db, r, Set(Some(role)), Set(result))
    else
      Ok(SetParticipation(db, r,
        Participation(db.registrations[r].person, event, Some(role), result, Draft, NotScored, 0, None)))
  }

  /** The row that carries the request identifier. */
  function FindRequest(ledger: seq<Transaction>, request: nat): (i: Option<nat>)
    ensures i.Some? ==> i.value < |ledger| && ledger[i.value].request == Some(request)
    ensures i.None? ==> forall k :: 0 <= k < |ledger| ==> ledger[k].request != Some(request)
  {
    if ledger == [] then None
    else if ledger[|ledger| - 1].request == Some(request) then Some(|ledger| - 1)
    else FindRequest(ledger[..|ledger| - 1], request)
  }

  function AdjustmentRow(person: PersonId, points: int, request: nat): Transaction {
    Transaction(Adjustment, person, None, 0, points, None, Some(request))
  }

  /** A manual correction of a person's total; a request that was served is not repeated,
      and the schema refuses zero. */
  function AdjustScore(db: Db, person: PersonId, points: int, request: nat): Result<Db, Error> {
    var existing := FindRequest(db.ledger, request);
    if person !in db.persons then Err(PersonNotFound)
    else if existing.Some? then
      if db.ledger[existing.value] == AdjustmentRow(person, points, request) then Ok(db) else Err(IdempotencyKeyReused)
    else if points == 0 then Err(PointsCheckViolated)
    else Ok(db.(ledger := db.ledger + [AdjustmentRow(person, points, request)]))
  }
}
