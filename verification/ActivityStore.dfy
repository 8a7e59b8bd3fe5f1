/** The services as they run: methods that change the tables statement by statement,
    each proved to leave exactly the tables its specification function gives. */
module ActivityTables {
  import opened Common
  import opened ActivityModel
  import opened ActivityService
  import opened ActivityInvariant
  import opened PersonMerge
  import opened EventReviewing
  import opened PersonMergeProofs
  import opened ActivityRuns
  import opened Statements

  /** The specification's outcome is this outcome, with these tables when it commits. */
  predicate Follows(spec: Result<Db, Error>, outcome: Result<(), Error>, tables: Db) {
    match outcome
    case Ok(_) => spec.Ok? && spec.value == tables
    case Err(error) => spec == Err(error)
  }

  /** One row of the approval's query. */
  datatype SheetRow = SheetRow(id: RegistrationId, item: Review, registration: Registration)

  function SheetRows(db: Db, ids: seq<RegistrationId>): (sheet: seq<SheetRow>)
    requires forall r :: r in ids ==> r in db.reviews && r in db.registrations
    ensures |sheet| == |ids|
  {
    seq(|ids|, i requires 0 <= i < |ids| => SheetRow(ids[i], db.reviews[ids[i]], db.registrations[ids[i]]))
  }

  class ActivityStore {
    var participations: map<RegistrationId, Participation>
    var ledger: seq<Transaction>
    var registrations: map<RegistrationId, Registration>
    var reviews: map<RegistrationId, Review>
    var events: map<EventId, EventReview>
    var persons: map<PersonId, Person>
    var roster: set<PersonId>
    var memberships: seq<Membership>
    var statuses: seq<StatusAssignment>

    function View(): Db
      reads this
    {
      Db(participations, ledger, registrations, reviews, events, persons, roster, memberships, statuses)
    }

    constructor ()
      ensures View() == EMPTY && Inv(View())
    {
      participations, ledger, registrations, reviews, events := map[], [], map[], map[], map[];
      persons, roster, memberships, statuses := map[], {}, [], [];
    }

    /** What a rollback does. */
    method Restore(db: Db)
      modifies this
      ensures View() == db
    {
      participations, ledger, registrations := db.participations, db.ledger, db.registrations;
      reviews, events, persons, roster := db.reviews, db.events, db.persons, db.roster;
      memberships, statuses := db.memberships, db.statuses;
    }

    /** An operation of a single statement. */
    method Write(change: Result<Db, Error>) returns (outcome: Result<(), Error>)
      modifies this
      ensures Follows(change, outcome, View())
    {
      match change {
        case Ok(db) =>
          Restore(db);
          outcome := Ok(());
        case Err(error) => outcome := Err(error);
      }
    }

    // ---- Awards and reversals -------------------------------------------------

    method AssignScoringSequence(g: Engine, r: RegistrationId) returns (sequence: nat)
      requires r in participations
      modifies this`participations
      ensures sequence == SequenceFor(g, old(View()), old(participations[r]).person, r, old(participations[r]).sequence)
      ensures participations == old(participations)[r := old(participations[r]).(sequence := Some(sequence))]
    {
      var p := participations[r];
      if p.sequence.Some? {
        assert participations == participations[r := p];
        return p.sequence.value;
      }
      var historical := |History(g, View(), p.person, r)|;
      var largest := Largest(Allocated(participations, p.person));
      sequence := Max(historical, largest) + 1;
      participations := participations[r := p.(sequence := Some(sequence))];
    }

    method RecordAward(r: RegistrationId, points: int) returns (outcome: Result<(), Error>)
      requires r in participations
      modifies this`participations, this`ledger
      ensures Follows(InsertAward(old(View()), r, points), outcome, View())
    {
      if points == 0 {
        return Err(PointsCheckViolated);
      }
      var p := participations[r];
      var existing := FindAward(ledger, r, p.cycle);
      if existing.None? {
        ledger := ledger + [AwardRow(p, r, points)];
      }
      participations := participations[r := p.(state := Awarded)];
      return Ok(());
    }

    method AwardScore(g: Engine, r: RegistrationId) returns (outcome: Result<(), Error>)
      modifies this`participations, this`ledger
      ensures Follows(ActivityService.AwardScore(g, old(View()), r), outcome, View())
    {
      if r !in participations || participations[r].status != Confirmed {
        return Err(ParticipationNotConfirmed);
      }
      var p := participations[r];
      var worth;
      if g.usesV2(p.event) {
        var sequence := AssignScoringSequence(g, r);
        worth := g.v2Points(statuses, p.event, p.person, p.role, p.result, sequence);
      } else {
        worth := g.v1Points(p.event, p.role, p.result);
      }
      assert View() == Numbered(g, old(View()), r) && worth == Worth(g, View(), r);
      match worth {
        case Failure(error) => return Err(error);
        case Missing(_) =>
          participations := participations[r := participations[r].(state := NoRule)];
          return Ok(());
        case Points(points) => outcome := RecordAward(r, points);
      }
    }

    method ReverseCurrentAward(r: RegistrationId, cycle: nat)
      modifies this`ledger
      ensures ledger == ReverseAward(old(ledger), r, cycle)
    {
      var award := FindAward(ledger, r, cycle);
      if award.None? {
        return;
      }
      if Reversed(ledger, award.value) {
        return;
      }
      ledger := ledger + [ReversalRow(ledger[award.value], award.value)];
    }

    // ---- Confirm, cancel, reclassify ------------------------------------------

    method ConfirmRegistration(
      g: Engine, event: EventId, r: RegistrationId, role: Option<RoleId>, result: Option<ResultId>, allow: bool)
      returns (outcome: Result<(), Error>)
      modifies this`participations, this`ledger
      ensures Follows(ActivityService.ConfirmRegistration(g, old(View()), event, r, role, result, allow),
        outcome, View())
    {
      if r !in registrations || registrations[r].event != event || !registrations[r].active {
        return Err(RegistrationNotFound);
      }
      var reg := registrations[r];
      if reg.attendedAt.None? && !allow {
        return Err(AttendanceRequired);
      }
      var existing := Find(participations, r);
      var newRole := OrElse(role, if existing.Some? then existing.value.role else None);
      var newResult := OrElse(result, if existing.Some? then existing.value.result else None);
      if newRole.None? {
        return Err(RoleRequired);
      }
      if !ValidReferences(g, newRole.value, newResult) {
        return Err(InvalidReference);
      }
      if existing.Some? && existing.value.status == Confirmed {
        return Ok(());
      }
      if existing.Some? {
        participations := participations[r := existing.value.(
          role := newRole, result := newResult, status := Confirmed, state := NotScored,
          cycle := existing.value.cycle + 1)];
      } else {
        participations := participations[r :=
          Participation(reg.person, event, newRole, newResult, Confirmed, NotScored, 1, None)];
      }
      assert View() == Opened(old(View()), r, newRole.value, newResult);
      outcome := AwardScore(g, r);
    }

    method CancelParticipation(r: RegistrationId) returns (outcome: Result<(), Error>)
      modifies this`participations, this`ledger
      ensures Follows(ActivityService.CancelParticipation(old(View()), r), outcome, View())
    {
      if r !in participations {
        return Err(ParticipationNotFound);
      }
      var p := participations[r];
      if p.status == Cancelled {
        return Ok(());
      }
      if p.status == Confirmed {
        ReverseCurrentAward(r, p.cycle);
      }
      participations := participations[r := p.(
        status := Cancelled, state := if p.state == Awarded then ReversedState else p.state)];
      return Ok(());
    }

    method UpdateParticipation(g: Engine, r: RegistrationId, role: Field, result: Field)
      returns (outcome: Result<(), Error>)
      modifies this`participations, this`ledger
      ensures Follows(ActivityService.UpdateParticipation(g, old(View()), r, role, result), outcome, View())
    {
      if r !in participations {
        return Err(ParticipationNotFound);
      }
      var p := participations[r];
      var newRole, newResult := Patched(role, p.role), Patched(result, p.result);
      if newRole.None? {
        return Err(RoleRequired);
      }
      if !ValidReferences(g, newRole.value, newResult) {
        return Err(InvalidReference);
      }
      if newRole == p.role && newResult == p.result {
        return Ok(());
      }
      if p.status == Confirmed {
        ReverseCurrentAward(r, p.cycle);
        participations := participations[r := p.(
          role := newRole, result := newResult, state := NotScored, cycle := p.cycle + 1)];
        assert View() == Reclassified(old(View()), r, newRole, newResult);
        outcome := AwardScore(g, r);
      } else {
        participations := participations[r := p.(role := newRole, result := newResult)];
        outcome := Ok(());
      }
    }

    // ---- Merging --------------------------------------------------------------

    /** Each check is a join; a clean report means the plain merge is safe. */
    method MergeConflicts(target: PersonId, source: PersonId) returns (conflicts: seq<MergeConflict>)
      ensures conflicts == PersonMerge.MergeConflicts(View(), target, source)
      ensures CleanMergeSafe(View(), target, source, conflicts)
    {
      var registered := AnyBothRegistered(target, source);
      var confirmed := AnyBothConfirmed(target, source);
      var numbered := AnyBothNumbered(target, source);
      var memberClash := AnyMembershipOverlap(target, source);
      var statusClash := AnyStatusOverlap(target, source);
      conflicts := Report(registered, ActiveRegistrationConflict)
        + Report(confirmed, ConfirmedParticipationConflict)
        + Report(numbered, ScoringSequenceConflict)
        + Report(memberClash, MembershipOverlap)
        + Report(statusClash, StatusOverlap);
      CleanMergeIsSafe(View(), target, source);
    }

    method AnyMembershipOverlap(target: PersonId, source: PersonId) returns (found: bool)
      ensures found <==> OverlappingMemberships(View(), target, source)
    {
      found := Join(memberships, (a: Membership, b: Membership) =>
        a.person == source && b.person == target && a.validFrom <= Until(b.validTo) && b.validFrom <= Until(a.validTo));
    }

    method AnyStatusOverlap(target: PersonId, source: PersonId) returns (found: bool)
      ensures found <==> OverlappingStatuses(View(), target, source)
    {
      found := Join(statuses, (a: StatusAssignment, b: StatusAssignment) =>
        && a.person == source && b.person == target && a.statusType == b.statusType
        && a.validFrom <= Until(b.validTo) && a.validFrom <= Until(b.retiredOn)
        && b.validFrom <= Until(a.validTo) && b.validFrom <= Until(a.retiredOn));
    }

    method AnyBothRegistered(target: PersonId, source: PersonId) returns (found: bool)
      ensures found <==> BothRegistered(View(), target, source)
    {
      var rows := registrations;
      found := JoinKeys(rows.Keys, (a: RegistrationId, b: RegistrationId) =>
        && a in rows && rows[a].person == source && rows[a].active
        && b in rows && rows[b].person == target && rows[b].active && rows[b].event == rows[a].event);
    }

    method AnyBothConfirmed(target: PersonId, source: PersonId) returns (found: bool)
      ensures found <==> BothConfirmed(View(), target, source)
    {
      var rows := participations;
      found := JoinKeys(rows.Keys, (a: RegistrationId, b: RegistrationId) =>
        && a in rows && rows[a].person == source && rows[a].status == Confirmed
        && b in rows && rows[b].person == target && rows[b].status == Confirmed && rows[b].event == rows[a].event);
    }

    method AnyBothNumbered(target: PersonId, source: PersonId) returns (found: bool)
      ensures found <==> BothNumbered(View(), target, source)
    {
      var rows := participations;
      found := JoinKeys(rows.Keys, (a: RegistrationId, b: RegistrationId) =>
        && a in rows && rows[a].person == source && rows[a].sequence.Some?
        && b in rows && rows[b].person == target && rows[b].sequence == rows[a].sequence);
    }

    /** The merge statement by statement: no account changes but those of the two people. */
    method ApplyPersonMerge(target: PersonId, source: PersonId)
      modifies this
      ensures View() == PersonMerge.ApplyPersonMerge(old(View()), target, source)
      ensures forall r :: Net(ledger, r) == Net(old(ledger), r)
      ensures target != source ==>
        && Total(ledger, target) == Total(old(ledger), target) + Total(old(ledger), source)
        && Total(ledger, source) == 0
    {
      if target !in roster {
        if source in roster {
          roster := roster - {source} + {target};
        }
      }
      MoveLinks(target, source);
      MoveHistory(target, source);
      MoveIdentities(target, source);
      LinksThenOwners(old(registrations), target, source);
      PlainMergeNets(old(View()), target, source);
    }

    /** The roster links of registrations and of review rows. */
    method MoveLinks(target: PersonId, source: PersonId)
      modifies this`registrations, this`reviews
      ensures registrations == LinksMoved(old(registrations), target, source)
      ensures reviews == MovedReviews(old(reviews), target, source)
    {
      registrations := UpdateRows(registrations,
        (_: RegistrationId, row: Registration) => row.rosterPerson == Some(source),
        (row: Registration) => row.(rosterPerson := Some(target)));
      reviews := UpdateRows(reviews,
        (_: RegistrationId, row: Review) => row.rosterPerson == Some(source),
        (row: Review) => row.(rosterPerson := Some(target)));
    }

    /** The tables of a person's history. */
    method MoveHistory(target: PersonId, source: PersonId)
      modifies this`registrations, this`participations, this`ledger, this`memberships, this`statuses
      ensures registrations == OwnersMoved(old(registrations), target, source)
      ensures participations == MovedParticipations(old(participations), target, source)
      ensures ledger == MovedLedger(old(ledger), target, source)
      ensures memberships == MovedMemberships(old(memberships), target, source)
      ensures statuses == MovedStatuses(old(statuses), target, source)
    {
      registrations := UpdateRows(registrations,
        (_: RegistrationId, row: Registration) => row.person == source, (row: Registration) => row.(person := target));
      participations := UpdateRows(participations,
        (_: RegistrationId, row: Participation) => row.person == source,
        (row: Participation) => row.(person := target));
      ledger := UpdateList(ledger,
        (row: Transaction) => row.person == source, (row: Transaction) => row.(person := target));
      statuses := UpdateList(statuses,
        (row: StatusAssignment) => row.person == source, (row: StatusAssignment) => row.(person := target));
      memberships := UpdateList(memberships,
        (row: Membership) => row.person == source, (row: Membership) => row.(person := target));
    }

    /** First the aliases of the source, then the source itself. */
    method MoveIdentities(target: PersonId, source: PersonId)
      modifies this`persons
      ensures persons == MovedPersons(old(persons), target, source)
    {
      persons := UpdateRows(persons,
        (_: PersonId, row: Person) => row.mergedInto == Some(source),
        (row: Person) => row.(mergedInto := Some(target)));
      persons := UpdateRows(persons,
        (p: PersonId, _: Person) => p == source, (row: Person) => row.(mergedInto := Some(target)));
    }

    method ReverseNumbered(ids: seq<RegistrationId>, chosen: set<RegistrationId>)
      requires forall r :: r in ids ==> r in participations
      modifies this`ledger
      ensures View() == ReverseAll(old(View()), ids, chosen)
    {
      for i := 0 to |ids|
        invariant View() == ReverseAll(old(View()), ids[..i], chosen)
      {
        assert ids[..i + 1][..i] == ids[..i] && ids[i] in ids;
        if ids[i] in chosen {
          ReverseCurrentAward(ids[i], participations[ids[i]].cycle);
        }
      }
      assert ids[..|ids|] == ids;
    }

    method NumberInOrder(order: seq<RegistrationId>, target: PersonId)
      modifies this`participations
      ensures participations == Renumber(old(participations), order, target)
    {
      for i := 0 to |order|
        invariant participations == Renumber(old(participations), order[..i], target)
      {
        assert order[..i + 1][..i] == order[..i];
        var r := order[i];
        if r in participations && participations[r].person == target {
          participations := participations[r := participations[r].(sequence := Some(i + 1))];
        }
      }
      assert order[..|order|] == order;
    }

    method ReAwardOne(g: Engine, r: RegistrationId, chosen: set<RegistrationId>) returns (outcome: Result<(), Error>)
      modifies this`participations, this`ledger
      ensures Follows(AwardNext(g, old(View()), r, chosen), outcome, View())
    {
      if r !in chosen {
        return Ok(());
      }
      if r in participations {
        participations := participations[r :=
          participations[r].(cycle := participations[r].cycle + 1, state := NotScored)];
      }
      outcome := AwardScore(g, r);
    }

    method ReAward(g: Engine, order: seq<RegistrationId>, chosen: set<RegistrationId>)
      returns (outcome: Result<(), Error>)
      modifies this`participations, this`ledger
      ensures Follows(AwardAll(g, old(View()), order, chosen), outcome, View())
    {
      for i := 0 to |order|
        invariant AwardAll(g, old(View()), order[..i], chosen) == Ok(View())
      {
        assert order[..i + 1][..i] == order[..i];
        outcome := ReAwardOne(g, order[i], chosen);
        if outcome.Err? {
          FailureStays(g, old(View()), order, chosen, i + 1);
          return;
        }
      }
      assert order[..|order|] == order;
      outcome := Ok(());
    }

    method ApplyOrderedPersonMerge(
      g: Engine, target: PersonId, source: PersonId, order: seq<RegistrationId>, version: seq<OrderRow>)
      returns (outcome: Result<(), Error>)
      modifies this
      ensures Follows(PersonMerge.ApplyOrderedPersonMerge(g, old(View()), target, source, order, version),
        outcome, View())
    {
      var numbered := NumberedParticipations(View(), target, source);
      if |numbered| > MAX_MERGE_ORDER {
        return Err(PersonMergeOrderTooLarge);
      }
      if OrderVersion(View(), numbered) != version {
        return Err(PersonMergeOrderChanged);
      }
      if |order| != |numbered| || !Distinct(order) || (set r | r in order) != (set r | r in numbered) {
        return Err(PersonMergeOrderChanged);
      }
      var chosen := Recalculated(g, View(), numbered);
      Reorder(g, target, source, numbered, order, chosen);
      outcome := ReAward(g, order, chosen);
    }

    /** Phases 1 to 4 of the ordered merge. */
    method Reorder(
      g: Engine, target: PersonId, source: PersonId, numbered: seq<RegistrationId>, order: seq<RegistrationId>,
      chosen: set<RegistrationId>)
      requires forall r :: r in numbered ==> r in participations
      requires chosen == Recalculated(g, View(), numbered)
      modifies this
      ensures View() == Reordered(g, old(View()), target, source, numbered, order)
    {
      ReverseNumbered(numbered, chosen);
      participations := ClearSequences(participations, target, source);
      ApplyPersonMerge(target, source);
      NumberInOrder(order, target);
    }

    method MergePerson(
      g: Engine, target: PersonId, source: PersonId, tenant: nat,
      order: Option<seq<RegistrationId>>, version: Option<seq<OrderRow>>)
      returns (outcome: Result<(), Error>)
      modifies this
      ensures Follows(PersonMerge.MergePerson(g, old(View()), target, source, tenant, order, version), outcome, View())
    {
      var allowed := MergePeople(View(), target, source, tenant);
      if allowed.Err? {
        return Err(allowed.error);
      }
      var conflicts := MergeConflicts(target, source);
      if conflicts != [] {
        if conflicts != [ScoringSequenceConflict] || order.None? || version.None? {
          return Err(PersonMergeConflict);
        }
        outcome := ApplyOrderedPersonMerge(g, target, source, order.value, version.value);
      } else {
        if order.Some? || version.Some? {
          return Err(PersonMergeOrderNotRequired);
        }
        ApplyPersonMerge(target, source);
        outcome := Ok(());
      }
    }

    // ---- Event review ---------------------------------------------------------

    /** Rows that already exist are kept. */
    method Snapshot(event: EventId, ids: seq<RegistrationId>, defaultRole: RoleId)
      requires forall r :: r in ids ==> r in registrations
      modifies this`reviews
      ensures reviews == PreparedReviews(old(View()), event, ids, defaultRole)
    {
      for i := 0 to |ids|
        invariant reviews == PreparedReviews(old(View()), event, ids[..i], defaultRole)
      {
        var r := ids[i];
        assert ids[..i + 1][..i] == ids[..i];
        if r !in reviews {
          reviews := reviews[r := InitialReview(View(), event, r, defaultRole)];
        }
      }
      assert ids[..|ids|] == ids;
    }

    method PrepareReview(event: EventId, defaultRole: Option<RoleId>) returns (outcome: Result<(), Error>)
      modifies this`reviews, this`events
      ensures Follows(EventReviewing.PrepareReview(old(View()), event, defaultRole), outcome, View())
    {
      if defaultRole.None? {
        return Err(RoleRequired);
      }
      if event !in events {
        return Err(ReviewNotPending);
      }
      var ids := ActiveRegistrations(View(), event);
      if |ids| > MAX_REVIEW_ITEMS {
        return Err(Conflict);
      }
      Snapshot(event, ids, defaultRole.value);
      var e := events[event];
      events := events[event :=
        if e.state == NotStarted then e.(completed := true, state := Pending) else e.(completed := true)];
      outcome := Ok(());
    }

    /** Link the registration, reclassify and confirm one student who was present. */
    method ApproveStudent(g: Engine, event: EventId, row: SheetRow, person: PersonId)
      returns (outcome: Result<(), Error>)
      requires row.id in registrations && registrations[row.id] == row.registration
      modifies this`participations, this`ledger, this`registrations
      ensures Follows(EventReviewing.ApproveStudent(g, old(View()), event, row.id, row.item, person), outcome, View())
      ensures row.id in registrations && registrations == old(registrations)[row.id := registrations[row.id]]
    {
      var r, existing := row.id, Find(participations, row.id);
      if row.registration.person != person {
        if existing.Some? && existing.value.sequence.Some? {
          assert registrations == registrations[r := registrations[r]];
          return Err(ReviewIdentityLocked);
        }
        if Collides(View(), event, r, person) {
          assert registrations == registrations[r := registrations[r]];
          return Err(RosterLinkConflict);
        }
        registrations := registrations[r :=
          registrations[r].(person := person, rosterPerson := Some(person), matchState := Matched)];
        if r in participations && participations[r].status == Draft {
          participations := participations[r := participations[r].(person := person)];
        }
      }
      assert View() == Linked(old(View()), r, person);
      assert registrations == old(registrations)[r := registrations[r]];
      if existing.Some? {
        outcome := UpdateParticipation(g, r, Set(Some(row.item.role)), Set(row.item.result));
        if outcome.Err? {
          return;
        }
      }
      outcome := ConfirmRegistration(
        g, event, r, Some(row.item.role), row.item.result, row.registration.attendedAt.None?);
      if outcome.Err? {
        return;
      }
      if r !in participations || participations[r].state != Awarded {
        outcome := Err(ScoringSetupRequired);
      }
    }

    /** One row of the approval loop, and what it adds to the summary. */
    method ApproveRow(g: Engine, event: EventId, row: SheetRow, counted: Summary)
      returns (outcome: Result<(), Error>, summary: Summary)
      requires row.id in registrations && registrations[row.id] == row.registration
      requires row.id in reviews && reviews[row.id] == row.item
      modifies this`participations, this`ledger, this`registrations
      ensures Follows(EventReviewing.ApproveItem(g, old(View()), event, row.id), outcome, View())
      ensures row.id in registrations && registrations == old(registrations)[row.id := registrations[row.id]]
      ensures outcome.Ok? ==> summary == CountOne(counted, row.item, row.registration)
    {
      summary, outcome := counted, Ok(());
      assert registrations == registrations[row.id := registrations[row.id]];
      var eligible := row.item.present && row.registration.kaitStudent && row.item.matchState != Rejected;
      if row.id in participations && participations[row.id].status == Confirmed && !eligible {
        outcome := CancelParticipation(row.id);
      }
      if !row.item.present {
        summary := summary.(absent := summary.absent + 1);
        return;
      }
      summary := summary.(present := summary.present + 1);
      if !eligible {
        return;
      }
      if row.item.rosterPerson.None? {
        outcome := Err(RosterMatchRequired);
        return;
      }
      outcome := ApproveStudent(g, event, row, row.item.rosterPerson.value);
      summary := summary.(awarded := summary.awarded + 1);
    }

    method ApproveReview(g: Engine, event: EventId, superAdmin: bool)
      returns (outcome: Result<(), Error>, summary: Summary)
      modifies this
      ensures Follows(EventReviewing.ApproveReview(g, old(View()), event, superAdmin), outcome, View())
      ensures outcome.Ok? ==> summary == Count(old(View()), ReviewItems(old(View()), event))
    {
      summary := Summary(0, 0, 0, 0);
      var error := ApprovalError(g, View(), event, superAdmin);
      if error.Some? {
        return Err(error.value), summary;
      }
      outcome, summary := ApproveSheet(g, event, ReviewItems(View(), event));
      if outcome.Ok? && event in events {
        events := events[event := events[event].(state := Approved, reviewedBefore := true)];
      }
    }

    /** The loop over the sheet as it was read before the first row. */
    method ApproveSheet(g: Engine, event: EventId, ids: seq<RegistrationId>)
      returns (outcome: Result<(), Error>, summary: Summary)
      requires Distinct(ids) && forall r :: r in ids ==> r in reviews && r in registrations
      modifies this`participations, this`ledger, this`registrations
      ensures Follows(ApproveItems(g, old(View()), event, ids), outcome, View())
      ensures outcome.Ok? ==> summary == Count(old(View()), ids)
    {
      var sheet := SheetRows(View(), ids);
      summary := Summary(|sheet|, 0, 0, 0);
      for i := 0 to |sheet|
        invariant registrations.Keys == old(registrations.Keys)
        invariant forall k :: i <= k < |ids| ==> registrations[ids[k]] == old(registrations)[ids[k]]
        invariant ApproveItems(g, old(View()), event, ids[..i]) == Ok(View())
        invariant summary == Count(old(View()), ids[..i]).(registered := |sheet|)
      {
        NextItem(g, old(View()), View(), event, ids, i);
        outcome, summary := ApproveRow(g, event, sheet[i], summary);
        if outcome.Err? {
          SheetFailureStays(g, old(View()), event, ids, i + 1);
          return;
        }
      }
      assert ids[..|ids|] == ids;
      CountRegistered(old(View()), ids);
      outcome := Ok(());
    }

    // ---- One request, one transaction -----------------------------------------

    /** Commit what the operation gives, or roll back to the tables before it; either way
        consistent tables stay consistent. */
    method Execute(g: Engine, op: Operation) returns (outcome: Result<(), Error>)
      modifies this
      ensures Follows(Perform(g, old(View()), op), outcome, View())
      ensures outcome.Err? ==> View() == old(View())
      ensures View() == Run(old(View()), [Step(g, op)])
      ensures old(Inv(View())) ==> Inv(View())
    {
      var refusal := Refusal(View(), op);
      if refusal.Some? {
        SingleStep(g, View(), op);
        return Err(refusal.value);
      }
      var saved := View();
      outcome := ServeRequest(g, op);
      if outcome.Err? {
        Restore(saved);
      }
      SingleStep(g, old(View()), op);
    }

    /** What the handler does once it has not refused the request. */
    method ServeRequest(g: Engine, op: Operation) returns (outcome: Result<(), Error>)
      modifies this
      ensures Follows(Serve(g, old(View()), op), outcome, View())
    {
      if op.Confirm? || op.Cancel? || op.Update? {
        outcome := ServeDirectly(g, op);
      } else if op.Prepare? || op.Approve? || op.MergeInto? {
        outcome := ServeInBulk(g, op);
      } else {
        outcome := Write(Serve(g, View(), op));
      }
    }

    /** Requests about many rows. */
    method ServeInBulk(g: Engine, op: Operation) returns (outcome: Result<(), Error>)
      requires op.Prepare? || op.Approve? || op.MergeInto?
      modifies this
      ensures Follows(Serve(g, old(View()), op), outcome, View())
    {
      ServedInBulk(g, View(), op);
      if op.Prepare? {
        outcome := PrepareReview(op.event, op.defaultRole);
      } else if op.Approve? {
        var summary;
        outcome, summary := ApproveReview(g, op.event, op.superAdmin);
      } else {
        outcome := MergePerson(g, op.target, op.source, op.tenant, op.order, op.version);
      }
    }

    /** Requests about one participation. */
    method ServeDirectly(g: Engine, op: Operation) returns (outcome: Result<(), Error>)
      requires op.Confirm? || op.Cancel? || op.Update?
      modifies this
      ensures Follows(Serve(g, old(View()), op), outcome, View())
    {
      match op {
        case Confirm(event, r, role, result, allow) => outcome := ConfirmRegistration(g, event, r, role, result, allow);
        case Cancel(r) => outcome := CancelParticipation(r);
        case Update(r, role, result) => outcome := UpdateParticipation(g, r, role, result);
      }
    }
  }

  lemma ServedInBulk(g: Engine, db: Db, op: Operation)
    requires op.Prepare? || op.Approve? || op.MergeInto?
    ensures op.Prepare? ==> Serve(g, db, op) == EventReviewing.PrepareReview(db, op.event, op.defaultRole)
    ensures op.Approve? ==> Serve(g, db, op) == EventReviewing.ApproveReview(g, db, op.event, op.superAdmin)
    ensures op.MergeInto? ==>
      Serve(g, db, op) == PersonMerge.MergePerson(g, db, op.target, op.source, op.tenant, op.order, op.version)
  {
  }

  /** One request is a run of one step. */
  lemma SingleStep(g: Engine, db: Db, op: Operation)
    ensures Run(db, [Step(g, op)]) == if Perform(g, db, op).Ok? then Perform(g, db, op).value else db
    ensures Inv(db) ==> Inv(Run(db, [Step(g, op)]))
  {
    assert [Step(g, op)][..0] == [];
    if Inv(db) {
      EveryRunKeepsInv(db, [Step(g, op)]);
    }
  }

  /** Without conflicts, merging two different people keeps consistent tables consistent. */
  ghost predicate CleanMergeSafe(db: Db, target: PersonId, source: PersonId, conflicts: seq<MergeConflict>) {
    Inv(db) && target != source && conflicts == [] ==> Inv(PersonMerge.ApplyPersonMerge(db, target, source))
  }

  lemma CleanMergeIsSafe(db: Db, target: PersonId, source: PersonId)
    ensures CleanMergeSafe(db, target, source, PersonMerge.MergeConflicts(db, target, source))
  {
    if Inv(db) && target != source && PersonMerge.MergeConflicts(db, target, source) == [] {
      PlainMergeKeepsInv(db, target, source);
    }
  }

  /** Moving the roster links and then the owners moves the registrations. */
  lemma LinksThenOwners(registrations: map<RegistrationId, Registration>, target: PersonId, source: PersonId)
    ensures OwnersMoved(LinksMoved(registrations, target, source), target, source) ==
      MovedRegistrations(registrations, target, source)
  {
  }

  function LinksMoved(registrations: map<RegistrationId, Registration>, target: PersonId, source: PersonId)
    : map<RegistrationId, Registration>
  {
    map r | r in registrations ::
      registrations[r].(rosterPerson := MovedLink(registrations[r].rosterPerson, target, source))
  }

  function OwnersMoved(registrations: map<RegistrationId, Registration>, target: PersonId, source: PersonId)
    : map<RegistrationId, Registration>
  {
    map r | r in registrations :: registrations[r].(person := Moved(registrations[r].person, target, source))
  }

  lemma PlainMergeNets(db: Db, target: PersonId, source: PersonId)
    ensures var moved := MovedLedger(db.ledger, target, source);
      && (forall r :: Net(moved, r) == Net(db.ledger, r))
      && (target != source ==>
            Total(moved, target) == Total(db.ledger, target) + Total(db.ledger, source) && Total(moved, source) == 0)
  {
    forall r
      ensures Net(MovedLedger(db.ledger, target, source), r) == Net(db.ledger, r)
    {
      MovedNet(db.ledger, target, source, r);
    }
    if target != source {
      PlainMergePoints(db, target, source);
    }
  }

  // ---- What a loop that stops early has computed ------------------------------

  lemma {:induction false} FailureStays(
    g: Engine, db: Db, order: seq<RegistrationId>, chosen: set<RegistrationId>, n: nat)
    requires n <= |order| && AwardAll(g, db, order[..n], chosen).Err?
    ensures AwardAll(g, db, order, chosen) == AwardAll(g, db, order[..n], chosen)
    decreases |order| - n
  {
    if n == |order| {
      assert order[..n] == order;
    } else {
      assert order[..n + 1][..n] == order[..n];
      FailureStays(g, db, order, chosen, n + 1);
    }
  }

  lemma {:induction false} SheetFailureStays(g: Engine, db: Db, event: EventId, ids: seq<RegistrationId>, n: nat)
    requires n <= |ids| && ApproveItems(g, db, event, ids[..n]).Err?
    ensures ApproveItems(g, db, event, ids) == ApproveItems(g, db, event, ids[..n])
    decreases |ids| - n
  {
    if n == |ids| {
      assert ids[..n] == ids;
    } else {
      assert ids[..n + 1][..n] == ids[..n];
      SheetFailureStays(g, db, event, ids, n + 1);
    }
  }

  lemma NextItem(g: Engine, start: Db, now: Db, event: EventId, ids: seq<RegistrationId>, i: nat)
    requires i < |ids| && forall r :: r in ids ==> r in start.reviews && r in start.registrations
    requires ApproveItems(g, start, event, ids[..i]) == Ok(now) && ids[i] in now.reviews && ids[i] in now.registrations
    ensures ApproveItems(g, start, event, ids[..i + 1]) == ApproveItem(g, now, event, ids[i])
    ensures var c := Count(start, ids[..i]);
      Count(start, ids[..i + 1]) ==
        CountOne(c, start.reviews[ids[i]], start.registrations[ids[i]]).(registered := c.registered + 1)
  {
    assert ids[..i + 1][..i] == ids[..i];
  }

  /** What one row adds to the counters other than `registered`. */
  function CountOne(c: Summary, item: Review, registration: Registration): Summary {
    c.(present := c.present + if item.present then 1 else 0,
       absent := c.absent + if item.present then 0 else 1,
       awarded := c.awarded + if Eligible(item, registration) then 1 else 0)
  }

  lemma {:induction false} CountRegistered(db: Db, ids: seq<RegistrationId>)
    requires forall r :: r in ids ==> r in db.reviews && r in db.registrations
    ensures Count(db, ids).registered == |ids|
    ensures Count(db, ids).present + Count(db, ids).absent == |ids|
    ensures Count(db, ids).awarded <= Count(db, ids).present
  {
    if ids != [] {
      CountRegistered(db, ids[..|ids| - 1]);
    }
  }
}
