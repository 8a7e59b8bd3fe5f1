/** Whole histories of the activity services: any operations, in any order, each under
    whatever reference data is in force at that moment, failed ones rolled back. */
module ActivityRuns {
  import opened Common
  import opened Identities
  import opened ActivityModel
  import opened ActivityService
  import opened LedgerInvariant
  import opened ActivityInvariant
  import opened PersonMerge
  import opened PersonMergeProofs
  import opened PersonLaws
  import opened EventReviewing
  import opened EventReviewProofs

  datatype Operation =
    | Confirm(event: EventId, r: RegistrationId, role: Option<RoleId>, result: Option<ResultId>, allow: bool)
    | Cancel(r: RegistrationId)
    | Update(r: RegistrationId, toRole: Field, toResult: Field)
    | Assign(event: EventId, r: RegistrationId, draftRole: RoleId, result: Option<ResultId>)
    | Adjust(person: PersonId, points: int, request: nat)
    | Prepare(event: EventId, defaultRole: Option<RoleId>)
    | Decide(event: EventId, r: RegistrationId, decision: Decision, tenant: nat, expected: ReviewVersion, now: int)
    | Approve(event: EventId, superAdmin: bool)
    | Reopen(event: EventId)
    | MergeInto(target: PersonId, source: PersonId, tenant: nat,
        order: Option<seq<RegistrationId>>, version: Option<seq<OrderRow>>)
    | Register(r: RegistrationId, registration: Registration)
    | Attend(r: RegistrationId, at: int)
    | Annul(r: RegistrationId)
    | Enrol(person: PersonId, enrolled: nat, kaitStudent: bool)
    | AddEvent(event: EventId, reviewRequired: bool)
    | EditStatus(event: EventId, completed: bool)
    | RequireReview(event: EventId)
    | EditElsewhere(memberships: seq<Membership>, statuses: seq<StatusAssignment>, roster: set<PersonId>)

  /** An operation and the scoring rules in force when it runs. */
  datatype Step = Step(engine: Engine, op: Operation)

  /** A new registration; the unique key refuses a second active one. */
  function AddRegistration(db: Db, r: RegistrationId, registration: Registration): Result<Db, Error> {
    if r in db.registrations || (registration.active && Collides(db, registration.event, r, registration.person))
    then Err(Conflict) else Ok(db.(registrations := db.registrations[r := registration]))
  }

  function EditRegistration(db: Db, r: RegistrationId, at: Option<int>, active: bool): Result<Db, Error> {
    if r !in db.registrations || !db.registrations[r].active
    then Err(RegistrationNotFound)
    else Ok(db.(registrations := db.registrations[r := db.registrations[r].(attendedAt := at, active := active)]))
  }

  function AddPerson(db: Db, person: PersonId, tenant: nat, kaitStudent: bool): Result<Db, Error> {
    if person in db.persons then
      Err(Conflict)
    else
      Ok(db.(persons := db.persons[person := Person(tenant, kaitStudent, None)]))
  }

  function CreateEvent(db: Db, event: EventId, reviewRequired: bool): Result<Db, Error> {
    if event in db.events then
      Err(Conflict)
    else
      Ok(db.(events := db.events[event := EventReview(reviewRequired, false, NotStarted, false)]))
  }

  function EditEventStatus(db: Db, event: EventId, completed: bool): Result<Db, Error> {
    if event !in db.events then Err(EventNotFound)
    else Ok(db.(events := db.events[event := db.events[event].(completed := completed)]))
  }

  /** The upgrade that introduced reviews: unfinished events without a confirmed
      participation are scored by review from then on. */
  function StartReviewing(db: Db, event: EventId): Result<Db, Error> {
    if event !in db.events then Err(EventNotFound)
    else if db.events[event].completed || AnyConfirmed(db, event) then Err(Conflict)
    else Ok(db.(events := db.events[event := db.events[event].(reviewRequired := true)]))
  }

  predicate AnyConfirmed(db: Db, event: EventId) {
    exists r :: r in db.participations
      && db.participations[r].event == event && db.participations[r].status == Confirmed
  }

  predicate ByReview(db: Db, event: EventId) {
    event in db.events && db.events[event].reviewRequired
  }

  /** The checks of the request handlers: what an event that is scored by review refuses,
      and what an event that is not does not offer. */
  function Refusal(db: Db, op: Operation): Option<Error> {
    match op
    case Confirm(event, _, _, _, _) =>
      if event !in db.events then Some(EventNotFound)
      else if ByReview(db, event) then Some(UseEventReview)
      else None
    case Cancel(r) => CorrectionRefusal(db, r)
    case Update(r, _, _) => CorrectionRefusal(db, r)
    case Assign(event, _, _, _) =>
      if event !in db.events then Some(EventNotFound)
      else if ByReview(db, event) && db.events[event].state != NotStarted then Some(UseEventReview)
      else None
    case Prepare(event, _) => if ByReview(db, event) then None else Some(ReviewNotPending)
    case _ => None
  }

  function CorrectionRefusal(db: Db, r: RegistrationId): Option<Error> {
    if r in db.participations && ByReview(db, db.participations[r].event) then Some(UseEventReview) else None
  }

  /** One request: refused by its handler, or served. */
  function Perform(g: Engine, db: Db, op: Operation): Result<Db, Error> {
    var refusal := Refusal(db, op);
    if refusal.Some? then Err(refusal.value) else Serve(g, db, op)
  }

  function Serve(g: Engine, db: Db, op: Operation): Result<Db, Error> {
    match op
    case Confirm(event, r, role, result, allow) => ConfirmRegistration(g, db, event, r, role, result, allow)
    case Cancel(r) => CancelParticipation(db, r)
    case Update(r, role, result) => UpdateParticipation(g, db, r, role, result)
    case Assign(event, r, role, result) => AssignParticipation(g, db, event, r, role, result)
    case Adjust(person, points, request) => AdjustScore(db, person, points, request)
    case Prepare(event, defaultRole) => PrepareReview(db, event, defaultRole)
    case Decide(event, r, d, tenant, expected, now) => UpdateReviewItem(g, db, event, r, d, tenant, expected, now)
    case Approve(event, superAdmin) => ApproveReview(g, db, event, superAdmin)
    case Reopen(event) => ReopenReview(db, event)
    case MergeInto(target, source, tenant, order, version) => MergePerson(g, db, target, source, tenant, order, version)
    case Register(r, registration) => AddRegistration(db, r, registration)
    case Attend(r, at) => EditRegistration(db, r, Some(at), true)
    case Annul(r) =>
      EditRegistration(db, r, if r in db.registrations then db.registrations[r].attendedAt else None, false)
    case Enrol(person, tenant, kaitStudent) => AddPerson(db, person, tenant, kaitStudent)
    case AddEvent(event, reviewRequired) => CreateEvent(db, event, reviewRequired)
    case EditStatus(event, completed) => EditEventStatus(db, event, completed)
    case RequireReview(event) => StartReviewing(db, event)
    case EditElsewhere(memberships, statuses, roster) =>
      Ok(db.(memberships := memberships, statuses := statuses, roster := roster))
  }

  function Run(db: Db, steps: seq<Step>): Db {
    if |steps| == 0 then
      db
    else
      var before, s := Run(db, steps[..|steps| - 1]), steps[|steps| - 1];
      var outcome := Perform(s.engine, before, s.op);
      if outcome.Ok? then outcome.value else before
  }

  // ---- Each operation keeps the invariant -------------------------------------

  lemma AddRegistrationKeepsInv(db: Db, r: RegistrationId, registration: Registration)
    requires Inv(db) && AddRegistration(db, r, registration).Ok?
    ensures Inv(AddRegistration(db, r, registration).value)
  {
    var next := db.registrations[r := registration];
    forall q | q in db.registrations && db.registrations[q].active && db.registrations[q].event == registration.event
      && registration.active
      ensures db.registrations[q].person != registration.person
    {
      assert ActiveIn(db, registration.event, q);
    }
    assert ActiveUnique(next);
  }

  lemma EditRegistrationKeepsInv(db: Db, r: RegistrationId, at: Option<int>, active: bool)
    requires Inv(db) && EditRegistration(db, r, at, active).Ok?
    ensures Inv(EditRegistration(db, r, at, active).value)
  {
  }

  lemma {:induction false} PreparedReviewsLinked(db: Db, event: EventId, ids: seq<RegistrationId>, defaultRole: RoleId)
    requires ReviewsLinked(db.reviews, db.registrations)
    requires forall r :: r in ids ==> r in db.registrations && db.registrations[r].event == event
    ensures var reviews := PreparedReviews(db, event, ids, defaultRole);
      && ReviewsLinked(reviews, db.registrations)
      && (forall r :: r in db.reviews ==> r in reviews && reviews[r] == db.reviews[r])
      && (forall r :: r in ids ==> r in reviews)
      && forall r :: r in reviews && r !in db.reviews ==>
           reviews[r] == InitialReview(db, event, r, defaultRole) && r in ids
  {
    if ids != [] {
      var front, r := ids[..|ids| - 1], ids[|ids| - 1];
      assert ids == front + [r];
      PreparedReviewsLinked(db, event, front, defaultRole);
    }
  }

  /** Preparing keeps every earlier decision and snapshots each new registration. */
  lemma PrepareKeepsInv(db: Db, event: EventId, defaultRole: Option<RoleId>)
    requires Inv(db) && PrepareReview(db, event, defaultRole).Ok?
    ensures var db' := PrepareReview(db, event, defaultRole).value;
      && Inv(db') && db' == db.(reviews := db'.reviews, events := db'.events)
      && (forall r :: r in db.reviews ==> r in db'.reviews && db'.reviews[r] == db.reviews[r])
      && (forall r :: ActiveIn(db, event, r) ==> r in db'.reviews)
      && forall r :: r in db'.reviews && r !in db.reviews ==>
           ActiveIn(db, event, r) && db'.reviews[r] == InitialReview(db, event, r, defaultRole.value)
  {
    var ids := ActiveRegistrations(db, event);
    forall r
      ensures r in ids <==> ActiveIn(db, event, r)
    {
      assert r in ids <==> r in ActiveSet(db, event);
    }
    PreparedReviewsLinked(db, event, ids, defaultRole.value);
  }

  lemma RegisteredTwiceComesFirst(db: Db, target: PersonId, source: PersonId)
    requires BothRegistered(db, target, source)
    ensures var found := MergeConflicts(db, target, source); |found| > 0 && found[0] == ActiveRegistrationConflict
  {
  }

  lemma OnlySequencesClash(db: Db, target: PersonId, source: PersonId)
    requires MergeConflicts(db, target, source) == [ScoringSequenceConflict]
    ensures !BothRegistered(db, target, source)
  {
    if BothRegistered(db, target, source) {
      RegisteredTwiceComesFirst(db, target, source);
    }
  }

  /** Merging keeps the invariant whether or not the history must be ordered. */
  lemma MergeKeepsInv(
    g: Engine, db: Db, after: Db, target: PersonId, source: PersonId, tenant: nat,
    order: Option<seq<RegistrationId>>, version: Option<seq<OrderRow>>)
    requires Inv(db) && MergePerson(g, db, target, source, tenant, order, version) == Ok(after)
    ensures Inv(after)
  {
    if MergeConflicts(db, target, source) == [] {
      PlainMergeKeepsInv(db, target, source);
    } else {
      OnlySequencesClash(db, target, source);
      OrderedMergeCorrect(g, db, target, source, order.value, version.value);
    }
  }

  lemma OperationKeepsInv(g: Engine, db: Db, after: Db, op: Operation)
    requires Inv(db) && Perform(g, db, op) == Ok(after)
    ensures Inv(after)
  {
    match op
    case Confirm(event, r, role, result, allow) => ConfirmKeepsInv(g, db, event, r, role, result, allow);
    case Cancel(r) => CancelKeepsInv(db, r);
    case Update(r, role, result) => UpdateKeepsInv(g, db, r, role, result);
    case Assign(event, r, role, result) => AssignKeepsInv(g, db, event, r, role, result);
    case Adjust(person, points, request) => AdjustKeepsInv(db, person, points, request);
    case Prepare(event, defaultRole) => PrepareKeepsInv(db, event, defaultRole);
    case Approve(event, superAdmin) => ApprovalCorrect(g, db, event, superAdmin);
    case MergeInto(target, source, tenant, order, version) =>
      MergeKeepsInv(g, db, after, target, source, tenant, order, version);
    case _ => RecordsKeepInv(g, db, after, op);
  }

  /** Operations that change no participation. */
  lemma RecordsKeepInv(g: Engine, db: Db, after: Db, op: Operation)
    requires Inv(db) && Perform(g, db, op) == Ok(after)
    requires !op.Confirm? && !op.Cancel? && !op.Update? && !op.Assign? && !op.Adjust?
    requires !op.Prepare? && !op.Approve? && !op.MergeInto?
    ensures Inv(after)
  {
    match op
    case Register(r, registration) => AddRegistrationKeepsInv(db, r, registration);
    case Attend(r, at) => EditRegistrationKeepsInv(db, r, Some(at), true);
    case Annul(r) => EditRegistrationKeepsInv(db, r, db.registrations[r].attendedAt, false);
    case _ => PaperworkKeepsInv(db, after);
  }

  lemma PaperworkKeepsInv(db: Db, after: Db)
    requires Inv(db) && after.participations == db.participations && after.ledger == db.ledger
    requires after.registrations == db.registrations && ReviewsLinked(after.reviews, after.registrations)
    ensures Inv(after)
  {
  }

  // ---- Every run --------------------------------------------------------------

  /** After any history the invariant holds; in particular each participation's rows sum
      to its one standing award, and no person has two participations with one number. */
  lemma {:induction false} EveryRunKeepsInv(db: Db, steps: seq<Step>)
    requires Inv(db)
    ensures Inv(Run(db, steps))
    ensures SequencesUnique(Run(db, steps).participations)
    ensures forall r :: r in Run(db, steps).participations ==>
      Net(Run(db, steps).ledger, r) == LivePoints(Run(db, steps), r)
    decreases |steps|
  {
    if |steps| > 0 {
      var before, s := Run(db, steps[..|steps| - 1]), steps[|steps| - 1];
      EveryRunKeepsInv(db, steps[..|steps| - 1]);
      if Perform(s.engine, before, s.op).Ok? {
        OperationKeepsInv(s.engine, before, Run(db, steps), s.op);
      }
    }
    forall r | r in Run(db, steps).participations
      ensures Net(Run(db, steps).ledger, r) == LivePoints(Run(db, steps), r)
    {
      NetIsLivePoints(Run(db, steps), r);
    }
  }

  const EMPTY := Db(map[], [], map[], map[], map[], map[], {}, [], [])

  /** Starting from an empty installation, every person's total is what stands for the
      participations they own plus their adjustments. */
  lemma TotalsAfterEveryRun(steps: seq<Step>, person: PersonId)
    ensures var db := Run(EMPTY, steps);
      && Inv(db)
      && (forall r :: r in OwnedParticipations(db, person) ==> r in db.participations)
      && Total(db.ledger, person) == SumLive(db, OwnedParticipations(db, person)) + Adjustments(db.ledger, person)
  {
    assert Inv(EMPTY);
    EveryRunKeepsInv(EMPTY, steps);
    TotalIsStandingAwards(Run(EMPTY, steps), person);
  }

  // ---- What no run can undo ---------------------------------------------------

  /** Rows are never edited except for their owner, cycles never go back, and nothing
      returns to DRAFT or disappears. */
  ghost predicate Grows(a: Db, b: Db) {
    && |a.ledger| <= |b.ledger|
    && (forall i :: 0 <= i < |a.ledger| ==> SameRow(a.ledger[i], b.ledger[i]))
    && forall r :: r in a.participations ==> r in b.participations && Advances(a.participations[r], b.participations[r])
  }

  predicate SameRow(a: Transaction, b: Transaction) {
    b == a.(person := b.person)
  }

  predicate Advances(a: Participation, b: Participation) {
    && a.event == b.event && a.cycle <= b.cycle
    && (a.status != Draft ==> b.status != Draft)
  }

  lemma GrowsTransitive(a: Db, b: Db, d: Db)
    requires Grows(a, b) && Grows(b, d)
    ensures Grows(a, d)
  {
    forall i | 0 <= i < |a.ledger|
      ensures SameRow(a.ledger[i], d.ledger[i])
    {
      assert SameRow(b.ledger[i], d.ledger[i]);
    }
  }

  /** The same, and people, their memberships and their statuses are as they were. */
  ghost predicate Extends(a: Db, b: Db) {
    Grows(a, b) && b.persons == a.persons && b.memberships == a.memberships && b.statuses == a.statuses
  }

  lemma ExtendsTransitive(a: Db, b: Db, d: Db)
    requires Extends(a, b) && Extends(b, d)
    ensures Extends(a, d)
  {
    GrowsTransitive(a, b, d);
  }

  lemma SettleExtends(db: Db, r: RegistrationId, worth: Points)
    requires r in db.participations && Settle(db, r, worth).Ok?
    ensures Extends(db, Settle(db, r, worth).value)
  {
  }

  /** `award_score` only numbers, marks and appends. */
  lemma AwardGrows(g: Engine, db: Db, r: RegistrationId)
    requires AwardScore(g, db, r).Ok?
    ensures Extends(db, AwardScore(g, db, r).value)
  {
    var numbered := Numbered(g, db, r);
    assert Extends(db, numbered);
    SettleExtends(numbered, r, Worth(g, numbered, r));
    ExtendsTransitive(db, numbered, AwardScore(g, db, r).value);
  }

  lemma OpeningExtends(db: Db, r: RegistrationId, role: RoleId, result: Option<ResultId>)
    requires r in db.registrations
    ensures Extends(db, Opened(db, r, role, result))
  {
  }

  lemma ReclassifyingExtends(db: Db, r: RegistrationId, role: Option<RoleId>, result: Option<ResultId>)
    requires r in db.participations && db.participations[r].status == Confirmed
    ensures Extends(db, Reclassified(db, r, role, result))
  {
  }

  lemma ConfirmGrows(
    g: Engine, db: Db, event: EventId, r: RegistrationId, role: Option<RoleId>, result: Option<ResultId>, allow: bool)
    requires ConfirmRegistration(g, db, event, r, role, result, allow).Ok?
    ensures Extends(db, ConfirmRegistration(g, db, event, r, role, result, allow).value)
  {
    var existing := Find(db.participations, r);
    var newRole := OrElse(role, if existing.Some? then existing.value.role else None);
    var newResult := OrElse(result, if existing.Some? then existing.value.result else None);
    if !(existing.Some? && existing.value.status == Confirmed) {
      var next := Opened(db, r, newRole.value, newResult);
      OpeningExtends(db, r, newRole.value, newResult);
      AwardGrows(g, next, r);
      ExtendsTransitive(db, next, AwardScore(g, next, r).value);
    }
  }

  lemma UpdateGrows(g: Engine, db: Db, r: RegistrationId, role: Field, result: Field)
    requires UpdateParticipation(g, db, r, role, result).Ok?
    ensures Extends(db, UpdateParticipation(g, db, r, role, result).value)
  {
    var p := db.participations[r];
    var newRole, newResult := Patched(role, p.role), Patched(result, p.result);
    if !(newRole == p.role && newResult == p.result) && p.status == Confirmed {
      var next := Reclassified(db, r, newRole, newResult);
      ReclassifyingExtends(db, r, newRole, newResult);
      AwardGrows(g, next, r);
      ExtendsTransitive(db, next, AwardScore(g, next, r).value);
    }
  }

  lemma LinkExtends(db: Db, r: RegistrationId, person: PersonId)
    requires r in db.registrations
    ensures Extends(db, Linked(db, r, person))
  {
  }

  lemma StudentGrows(g: Engine, db: Db, event: EventId, r: RegistrationId, item: Review, person: PersonId)
    requires r in db.registrations && ApproveStudent(g, db, event, r, item, person).Ok?
    ensures Extends(db, ApproveStudent(g, db, event, r, item, person).value)
  {
    var linked, allow := Linked(db, r, person), db.registrations[r].attendedAt.None?;
    var updated := TakeDecision(g, linked, r, item).value;
    LinkExtends(db, r, person);
    if r in linked.participations {
      UpdateGrows(g, linked, r, Set(Some(item.role)), Set(item.result));
      ExtendsTransitive(db, linked, updated);
    }
    ConfirmGrows(g, updated, event, r, Some(item.role), item.result, allow);
    ExtendsTransitive(db, updated,
      ConfirmRegistration(g, updated, event, r, Some(item.role), item.result, allow).value);
  }

  lemma {:induction false} ItemsGrow(g: Engine, db: Db, event: EventId, ids: seq<RegistrationId>)
    requires ApproveItems(g, db, event, ids).Ok?
    ensures Extends(db, ApproveItems(g, db, event, ids).value)
  {
    if ids != [] {
      var front, r := ids[..|ids| - 1], ids[|ids| - 1];
      ItemsGrow(g, db, event, front);
      var before := ApproveItems(g, db, event, front).value;
      if r in before.reviews && r in before.registrations {
        var item := before.reviews[r];
        if Eligible(item, before.registrations[r]) {
          StudentGrows(g, before, event, r, item, item.rosterPerson.value);
        }
        assert Extends(before, ApproveItem(g, before, event, r).value);
        ExtendsTransitive(db, before, ApproveItem(g, before, event, r).value);
      }
    }
  }

  lemma {:induction false} ReverseAllGrows(db: Db, ids: seq<RegistrationId>, chosen: set<RegistrationId>)
    requires forall r :: r in ids ==> r in db.participations
    ensures Extends(db, ReverseAll(db, ids, chosen))
    ensures ReverseAll(db, ids, chosen).participations == db.participations
  {
    if ids != [] {
      ReverseAllGrows(db, ids[..|ids| - 1], chosen);
    }
  }

  lemma {:induction false} RenumberGrows(
    participations: map<RegistrationId, Participation>, order: seq<RegistrationId>, target: PersonId)
    ensures var after := Renumber(participations, order, target);
      && after.Keys == participations.Keys
      && forall r :: r in participations ==> after[r] == participations[r].(sequence := after[r].sequence)
  {
    if order != [] {
      RenumberGrows(participations, order[..|order| - 1], target);
    }
  }

  lemma {:induction false} AwardAllGrows(g: Engine, db: Db, order: seq<RegistrationId>, chosen: set<RegistrationId>)
    requires AwardAll(g, db, order, chosen).Ok?
    ensures Extends(db, AwardAll(g, db, order, chosen).value)
  {
    if order != [] {
      var r := order[|order| - 1];
      AwardAllGrows(g, db, order[..|order| - 1], chosen);
      var before := AwardAll(g, db, order[..|order| - 1], chosen).value;
      if r in chosen {
        AwardGrows(g, BumpCycle(before, r), r);
        assert Extends(before, BumpCycle(before, r));
        ExtendsTransitive(before, BumpCycle(before, r), AwardScore(g, BumpCycle(before, r), r).value);
        ExtendsTransitive(db, before, AwardScore(g, BumpCycle(before, r), r).value);
      }
    }
  }

  lemma ClearedAndMergedGrows(db: Db, target: PersonId, source: PersonId)
    ensures Grows(db, ClearedAndMerged(db, target, source))
  {
  }

  lemma MergeGrows(
    g: Engine, db: Db, after: Db, target: PersonId, source: PersonId, order: seq<RegistrationId>,
    version: seq<OrderRow>)
    requires ApplyOrderedPersonMerge(g, db, target, source, order, version) == Ok(after)
    ensures Grows(db, after) && IdentitiesMoved(db, after, target, source)
  {
    var ids := NumberedParticipations(db, target, source);
    var chosen, next := Recalculated(g, db, ids), Reordered(g, db, target, source, ids, order);
    ReorderedGrows(g, db, target, source, ids, order);
    AwardAllGrows(g, next, order, chosen);
    GrowsTransitive(db, next, after);
  }

  lemma ReorderedGrows(
    g: Engine, db: Db, target: PersonId, source: PersonId, ids: seq<RegistrationId>, order: seq<RegistrationId>)
    requires forall r :: r in ids ==> r in db.participations
    ensures Grows(db, Reordered(g, db, target, source, ids, order))
    ensures IdentitiesMoved(db, Reordered(g, db, target, source, ids, order), target, source)
  {
    var chosen, next := Recalculated(g, db, ids), Reordered(g, db, target, source, ids, order);
    var reversed := ReverseAll(db, ids, chosen);
    ReverseAllGrows(db, ids, chosen);
    var merged := ClearedAndMerged(reversed, target, source);
    ClearedAndMergedGrows(reversed, target, source);
    GrowsTransitive(db, reversed, merged);
    RenumberGrows(merged.participations, order, target);
    GrowsTransitive(db, merged, next);
  }

  /** The source's aliases, memberships and statuses are the target's now. */
  ghost predicate IdentitiesMoved(a: Db, b: Db, target: PersonId, source: PersonId) {
    && b.persons == MovedPersons(a.persons, target, source)
    && b.memberships == MovedMemberships(a.memberships, target, source)
    && b.statuses == MovedStatuses(a.statuses, target, source)
  }

  /** Operations on one registration, and approvals. */
  lemma ActivityExtends(g: Engine, db: Db, after: Db, op: Operation)
    requires op.Confirm? || op.Cancel? || op.Update? || op.Assign? || op.Approve?
    requires Perform(g, db, op) == Ok(after)
    ensures Extends(db, after)
  {
    match op
    case Confirm(event, r, role, result, allow) => ConfirmGrows(g, db, event, r, role, result, allow);
    case Cancel(r) => CancelExtends(db, r);
    case Update(r, role, result) => UpdateGrows(g, db, r, role, result);
    case Assign(event, r, role, result) => AssignExtends(g, db, event, r, role, result);
    case Approve(event, superAdmin) => ApproveExtends(g, db, after, event, superAdmin);
  }

  lemma ApproveExtends(g: Engine, db: Db, after: Db, event: EventId, superAdmin: bool)
    requires ApproveReview(g, db, event, superAdmin) == Ok(after)
    ensures Extends(db, after)
  {
    ItemsGrow(g, db, event, ReviewItems(db, event));
    MarkExtends(ApproveItems(g, db, event, ReviewItems(db, event)).value, event);
    ExtendsTransitive(db, ApproveItems(g, db, event, ReviewItems(db, event)).value, after);
  }

  lemma CancelExtends(db: Db, r: RegistrationId)
    requires CancelParticipation(db, r).Ok?
    ensures Extends(db, CancelParticipation(db, r).value)
  {
  }

  lemma MarkExtends(db: Db, event: EventId)
    ensures Extends(db, MarkApproved(db, event))
  {
  }

  lemma AssignExtends(g: Engine, db: Db, event: EventId, r: RegistrationId, role: RoleId, result: Option<ResultId>)
    requires AssignParticipation(g, db, event, r, role, result).Ok?
    ensures Extends(db, AssignParticipation(g, db, event, r, role, result).value)
  {
    if r in db.participations {
      UpdateGrows(g, db, r, Set(Some(role)), Set(result));
    }
  }

  /** What any merge does to history and to aliases. */
  lemma AnyMergeGrows(
    g: Engine, db: Db, after: Db, target: PersonId, source: PersonId, tenant: nat,
    order: Option<seq<RegistrationId>>, version: Option<seq<OrderRow>>)
    requires MergePerson(g, db, target, source, tenant, order, version) == Ok(after)
    ensures Grows(db, after) && IdentitiesMoved(db, after, target, source)
    ensures Mergeable(db.persons, Merge(target, source))
  {
    if MergeConflicts(db, target, source) != [] {
      MergeGrows(g, db, after, target, source, order.value, version.value);
    }
  }

  /** After any accepted merge, ordered or plain, the person still has at most one
      membership a day and each status type at most one multiplier a day. */
  lemma AcceptedMergeAppliesOnce(
    g: Engine, db: Db, after: Db, target: PersonId, source: PersonId, tenant: nat,
    order: Option<seq<RegistrationId>>, version: Option<seq<OrderRow>>)
    requires MergePerson(g, db, target, source, tenant, order, version) == Ok(after)
    requires OneMembership(db.memberships, target) && OneMembership(db.memberships, source)
    requires OneStatusEach(db.statuses, target) && OneStatusEach(db.statuses, source)
    ensures OneMembership(after.memberships, target) && OneStatusEach(after.statuses, target)
  {
    AnyMergeGrows(g, db, after, target, source, tenant, order, version);
    ConflictListed(db, target, source);
    MergedMembershipsApplyOnce(db, target, source);
    MergedStatusesMultiplyOnce(db, target, source);
  }

  lemma OperationGrows(g: Engine, db: Db, after: Db, op: Operation)
    requires Perform(g, db, op) == Ok(after)
    ensures Grows(db, after)
  {
    if op.Confirm? || op.Cancel? || op.Update? || op.Assign? || op.Approve? {
      ActivityExtends(g, db, after, op);
    } else if op.MergeInto? {
      AnyMergeGrows(g, db, after, op.target, op.source, op.tenant, op.order, op.version);
    }
  }

  /** No history edits or drops a ledger row, turns a cycle back or undoes a draft's end. */
  lemma {:induction false} EveryRunGrows(db: Db, steps: seq<Step>)
    ensures Grows(db, Run(db, steps))
    decreases |steps|
  {
    if |steps| > 0 {
      var before, s := Run(db, steps[..|steps| - 1]), steps[|steps| - 1];
      EveryRunGrows(db, steps[..|steps| - 1]);
      if Perform(s.engine, before, s.op).Ok? {
        OperationGrows(s.engine, before, Run(db, steps), s.op);
        GrowsTransitive(db, before, Run(db, steps));
      }
    }
  }

  // ---- Repeated adjustments ---------------------------------------------------

  /** Sending an adjustment again, after any history, changes nothing: one row serves the
      request, and the repetition is accepted exactly while that row is still the person's,
      that is until a merge takes it. */
  lemma RepeatedAdjustment(
    g: Engine, db: Db, first: Db, person: PersonId, points: int, request: nat, steps: seq<Step>, again: Engine)
    returns (i: nat)
    requires Inv(db) && Perform(g, db, Adjust(person, points, request)) == Ok(first)
    ensures var ledger := Run(first, steps).ledger;
      Serves(ledger, i, request) && forall k :: Serves(ledger, k, request) ==> k == i
    ensures Perform(again, Run(first, steps), Adjust(person, points, request)) ==
      if Run(first, steps).ledger[i].person == person then Ok(Run(first, steps)) else Err(IdempotencyKeyReused)
  {
    i := AdjustmentServed(g, db, first, person, points, request);
    EveryRunKeepsInv(first, steps);
    EveryRunKeepsPersons(first, steps, person);
    RowStaysServed(first, steps, person, points, request, i);
    ServedRequest(again, Run(first, steps), person, points, request, i);
  }

  lemma AdjustmentServed(g: Engine, db: Db, first: Db, person: PersonId, points: int, request: nat) returns (i: nat)
    requires Inv(db) && Perform(g, db, Adjust(person, points, request)) == Ok(first)
    ensures Inv(first) && person in first.persons
    ensures i < |first.ledger| && first.ledger[i] == AdjustmentRow(person, points, request)
  {
    AdjustKeepsInv(db, person, points, request);
    i := FindRequest(first.ledger, request).value;
  }

  lemma RowStaysServed(db: Db, steps: seq<Step>, person: PersonId, points: int, request: nat, i: nat)
    requires i < |db.ledger| && db.ledger[i] == AdjustmentRow(person, points, request)
    ensures var ledger := Run(db, steps).ledger;
      i < |ledger| && ledger[i] == AdjustmentRow(ledger[i].person, points, request)
  {
    EveryRunGrows(db, steps);
    assert SameRow(db.ledger[i], Run(db, steps).ledger[i]);
  }

  lemma ServedRequest(g: Engine, db: Db, person: PersonId, points: int, request: nat, i: nat)
    requires Inv(db) && Serves(db.ledger, i, request) && person in db.persons
    requires db.ledger[i] == AdjustmentRow(db.ledger[i].person, points, request)
    ensures forall k :: Serves(db.ledger, k, request) ==> k == i
    ensures Perform(g, db, Adjust(person, points, request)) ==
      if db.ledger[i].person == person then Ok(db) else Err(IdempotencyKeyReused)
  {
    forall k | Serves(db.ledger, k, request)
      ensures k == i
    {
      OneRowServes(db, i, k, request);
    }
    assert Serves(db.ledger, FindRequest(db.ledger, request).value, request);
  }

  lemma {:induction false} EveryRunKeepsPersons(db: Db, steps: seq<Step>, person: PersonId)
    requires person in db.persons
    ensures person in Run(db, steps).persons
    decreases |steps|
  {
    if |steps| > 0 {
      var before, s := Run(db, steps[..|steps| - 1]), steps[|steps| - 1];
      EveryRunKeepsPersons(db, steps[..|steps| - 1], person);
      if Perform(s.engine, before, s.op).Ok? {
        PersonsChange(s.engine, before, Run(db, steps), s.op);
      }
    }
  }

  predicate Serves(ledger: seq<Transaction>, i: nat, request: nat) {
    i < |ledger| && ledger[i].request == Some(request)
  }

  lemma OneRowServes(db: Db, i: nat, k: nat, request: nat)
    requires Inv(db) && Serves(db.ledger, i, request) && Serves(db.ledger, k, request)
    ensures i == k
  {
    assert i < k ==> RowsDiffer(db.ledger[i], db.ledger[k]);
    assert k < i ==> RowsDiffer(db.ledger[k], db.ledger[i]);
  }

  // ---- Aliases over every run -------------------------------------------------

  /** Only a merge of two current people, or a new person, changes who is an alias of whom. */
  lemma PersonsChange(g: Engine, db: Db, after: Db, op: Operation)
    requires Perform(g, db, op) == Ok(after)
    ensures match op
      case MergeInto(target, source, _, _, _) =>
        Mergeable(db.persons, Merge(target, source)) && after.persons == MovedPersons(db.persons, target, source)
      case Enrol(person, _, _) => person !in db.persons && after.persons == db.persons[person := after.persons[person]]
        && after.persons[person].mergedInto.None?
      case _ => after.persons == db.persons
  {
    if op.Confirm? || op.Cancel? || op.Update? || op.Assign? || op.Approve? {
      ActivityExtends(g, db, after, op);
    } else if op.MergeInto? {
      AnyMergeGrows(g, db, after, op.target, op.source, op.tenant, op.order, op.version);
    }
  }

  /** Over every history an alias is one hop from a person who is no alias. */
  lemma {:induction false} AliasesFlatAfterEveryRun(db: Db, steps: seq<Step>)
    requires Flat(LinksOf(db.persons))
    ensures Flat(LinksOf(Run(db, steps).persons))
    decreases |steps|
  {
    if |steps| > 0 {
      var before, s := Run(db, steps[..|steps| - 1]), steps[|steps| - 1];
      AliasesFlatAfterEveryRun(db, steps[..|steps| - 1]);
      if Perform(s.engine, before, s.op).Ok? {
        PersonsChange(s.engine, before, Run(db, steps), s.op);
        LinksStayFlat(before.persons, Run(db, steps).persons, s.op);
      }
    }
  }

  lemma LinksStayFlat(persons: map<PersonId, Person>, after: map<PersonId, Person>, op: Operation)
    requires Flat(LinksOf(persons))
    requires match op
      case MergeInto(target, source, _, _, _) =>
        Mergeable(persons, Merge(target, source)) && after == MovedPersons(persons, target, source)
      case Enrol(person, _, _) =>
        person !in persons && person in after
        && after == persons[person := after[person]] && after[person].mergedInto.None?
      case _ => after == persons
    ensures Flat(LinksOf(after))
  {
    match op
    case MergeInto(target, source, _, _, _) => RedirectKeepsFlat(LinksOf(persons), LinksOf(after), target, source);
    case Enrol(person, _, _) =>
      NewcomerKeepsFlat(LinksOf(persons), person);
      assert LinksOf(after) == LinksOf(persons)[person := None];
    case _ =>
  }
}
