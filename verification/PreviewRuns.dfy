/** Why a preview is right in every installation. In an event that is scored by review a
    participation that stands, or that no longer belongs to its registration's person, was
    numbered and awarded by an approval, so no row of a sheet can take the number another
    row was promised. The scoring rules may change at every step. */
module PreviewRuns {
  import opened Common
  import opened ActivityModel
  import opened ActivityService
  import opened LedgerInvariant
  import opened ActivityInvariant
  import opened PersonMerge
  import opened PersonMergeProofs
  import opened EventReviewing
  import opened EventReviewProofs
  import opened PreviewProofs
  import opened ActivityRuns

  // ---- Participations and their registrations ---------------------------------

  /** The participation has a number and has been awarded. */
  ghost predicate Recorded(db: Db, r: RegistrationId)
    requires r in db.participations
  {
    db.participations[r].sequence.Some? && EverAwarded(db.ledger, r)
  }

  /** A participation belongs to its registration's person, except where an approval linked
      a participation that was cancelled before its event came to be scored by review; what
      stands in a reviewed event was recorded there. `upgraded` are the events that came to
      be scored by review. */
  ghost predicate RowAttributed(db: Db, upgraded: set<EventId>, r: RegistrationId)
    requires r in db.participations && r in db.registrations
  {
    var p := db.participations[r];
    && p.event in db.events
    && (p.person != db.registrations[r].person ==> ByReview(db, p.event) && p.event in upgraded && Recorded(db, r))
    && (ByReview(db, p.event) && MustBeRecorded(p, upgraded) ==> Recorded(db, r))
  }

  predicate MustBeRecorded(p: Participation, upgraded: set<EventId>) {
    p.status == Confirmed || (p.status == Cancelled && p.event !in upgraded)
  }

  /** Only events that are scored by review have a review. */
  ghost predicate ReviewsRequired(db: Db) {
    forall e :: e in db.events && db.events[e].state != NotStarted ==> db.events[e].reviewRequired
  }

  ghost predicate Attributed(db: Db, upgraded: set<EventId>) {
    && ReviewsRequired(db)
    && forall r :: r in db.participations ==> r in db.registrations && RowAttributed(db, upgraded, r)
  }

  // ---- Operations on one registration -----------------------------------------

  /** Only row `r` matters when only what belongs to `r` changed. */
  lemma ItemAttributed(before: Db, after: Db, upgraded: set<EventId>, r: RegistrationId)
    requires Attributed(before, upgraded) && r in before.registrations && ItemChange(before, after, r)
    requires r in after.participations ==> RowAttributed(after, upgraded, r)
    ensures Attributed(after, upgraded)
  {
    forall q | q in after.participations
      ensures q in after.registrations && RowAttributed(after, upgraded, q)
    {
      if q != r {
        assert RowAttributed(before, upgraded, q);
        AwardsOfOthers(before.ledger, after.ledger, q);
      }
    }
  }

  lemma LocalAttributed(before: Db, after: Db, upgraded: set<EventId>, r: RegistrationId)
    requires Attributed(before, upgraded) && LocalChange(before, after, r) && r in before.registrations
    requires RowAttributed(after, upgraded, r)
    ensures Attributed(after, upgraded)
  {
    forall q | q in after.participations
      ensures q in after.registrations && RowAttributed(after, upgraded, q)
    {
      if q != r {
        assert RowAttributed(before, upgraded, q);
        AwardsOfOthers(before.ledger, after.ledger, q);
      }
    }
  }

  lemma AwardsStay(before: seq<Transaction>, after: seq<Transaction>, r: RegistrationId)
    requires before <= after && EverAwarded(before, r)
    ensures EverAwarded(after, r)
  {
    var i :| 0 <= i < |before| && IsAward(before[i], r);
    assert IsAward(after[i], r);
  }

  /** Events that are not scored by review: any change of one participation. */
  lemma UnreviewedAttributed(before: Db, after: Db, upgraded: set<EventId>, r: RegistrationId)
    requires Attributed(before, upgraded) && LocalChange(before, after, r)
    requires r in before.registrations && before.registrations[r].event in before.events
    requires r in before.participations ==> before.participations[r].event == before.registrations[r].event
    requires !ByReview(before, before.registrations[r].event)
    ensures Attributed(after, upgraded)
  {
    assert r in before.participations ==> RowAttributed(before, upgraded, r);
    LocalAttributed(before, after, upgraded, r);
  }

  /** A record stays, and nothing new is to be recorded. */
  lemma KeptAttributed(before: Db, after: Db, upgraded: set<EventId>, r: RegistrationId)
    requires Attributed(before, upgraded) && LocalChange(before, after, r) && r in before.participations
    requires MustBeRecorded(after.participations[r], upgraded) ==> MustBeRecorded(before.participations[r], upgraded)
    ensures Attributed(after, upgraded)
  {
    assert RowAttributed(before, upgraded, r);
    if EverAwarded(before.ledger, r) {
      AwardsStay(before.ledger, after.ledger, r);
    }
    LocalAttributed(before, after, upgraded, r);
  }

  lemma ConfirmAttributed(
    g: Engine, db: Db, upgraded: set<EventId>, event: EventId, r: RegistrationId, role: Option<RoleId>,
    result: Option<ResultId>, allow: bool)
    requires Inv(db) && Attributed(db, upgraded) && event in db.events && !ByReview(db, event)
    requires ConfirmRegistration(g, db, event, r, role, result, allow).Ok?
    ensures Attributed(ConfirmRegistration(g, db, event, r, role, result, allow).value, upgraded)
  {
    ConfirmKeepsInv(g, db, event, r, role, result, allow);
    UnreviewedAttributed(db, ConfirmRegistration(g, db, event, r, role, result, allow).value, upgraded, r);
  }

  lemma CancelAttributed(db: Db, upgraded: set<EventId>, r: RegistrationId)
    requires Inv(db) && Attributed(db, upgraded) && CancelParticipation(db, r).Ok?
    requires !ByReview(db, db.participations[r].event) || db.participations[r].status == Confirmed
    ensures Attributed(CancelParticipation(db, r).value, upgraded)
  {
    CancelKeepsInv(db, r);
    assert RowAttributed(db, upgraded, r);
    if ByReview(db, db.participations[r].event) {
      KeptAttributed(db, CancelParticipation(db, r).value, upgraded, r);
    } else {
      UnreviewedAttributed(db, CancelParticipation(db, r).value, upgraded, r);
    }
  }

  lemma UpdateAttributed(g: Engine, db: Db, upgraded: set<EventId>, r: RegistrationId, role: Field, result: Field)
    requires Inv(db) && Attributed(db, upgraded) && UpdateParticipation(g, db, r, role, result).Ok?
    ensures Attributed(UpdateParticipation(g, db, r, role, result).value, upgraded)
  {
    UpdateKeepsInv(g, db, r, role, result);
    KeptAttributed(db, UpdateParticipation(g, db, r, role, result).value, upgraded, r);
  }

  lemma AssignAttributed(
    g: Engine, db: Db, upgraded: set<EventId>, event: EventId, r: RegistrationId, role: RoleId,
    result: Option<ResultId>)
    requires Inv(db) && Attributed(db, upgraded) && event in db.events
    requires AssignParticipation(g, db, event, r, role, result).Ok?
    ensures Attributed(AssignParticipation(g, db, event, r, role, result).value, upgraded)
  {
    if r in db.participations {
      UpdateAttributed(g, db, upgraded, r, Set(Some(role)), Set(result));
    } else {
      AssignKeepsInv(g, db, event, r, role, result);
      LocalAttributed(db, AssignParticipation(g, db, event, r, role, result).value, upgraded, r);
    }
  }

  lemma AdjustAttributed(db: Db, upgraded: set<EventId>, person: PersonId, points: int, request: nat)
    requires Attributed(db, upgraded) && AdjustScore(db, person, points, request).Ok?
    ensures Attributed(AdjustScore(db, person, points, request).value, upgraded)
  {
    var after := AdjustScore(db, person, points, request).value;
    forall r | r in after.participations
      ensures RowAttributed(after, upgraded, r)
    {
      assert RowAttributed(db, upgraded, r);
      AwardsOfOthers(db.ledger, after.ledger, r);
    }
  }

  // ---- Approval ---------------------------------------------------------------

  /** An approved student's participation ends recorded. */
  lemma StudentRecorded(
    g: Engine, db: Db, after: Db, upgraded: set<EventId>, event: EventId, r: RegistrationId, item: Review,
    person: PersonId)
    requires Inv(db) && Attributed(db, upgraded) && ActiveIn(db, event, r) && g.usesV2(event) && ByReview(db, event)
    requires ApproveStudent(g, db, event, r, item, person) == Ok(after)
    ensures r in after.participations && Recorded(after, r)
  {
    StudentKeepsInv(g, db, event, r, item, person);
    assert Consistent(after.ledger, r, after.participations[r]);
    if NeedsAward(db, r, item.role, item.result) {
      StudentPaidAsPromised(g, db, after, event, r, item, person);
    } else {
      UnneededRow(g, db, after, event, r, item, person);
      assert RowAttributed(db, upgraded, r);
    }
  }

  /** In an event that was always scored by review the participation ends with the student
      the registration is linked to. */
  lemma StudentLinked(
    g: Engine, db: Db, after: Db, upgraded: set<EventId>, event: EventId, r: RegistrationId, item: Review,
    person: PersonId)
    requires Inv(db) && Attributed(db, upgraded) && ActiveIn(db, event, r) && ByReview(db, event)
    requires event !in upgraded && ApproveStudent(g, db, event, r, item, person) == Ok(after)
    ensures Credited(db, r, person) == person
    ensures r in after.participations && after.participations[r].person == person
  {
    StudentCredited(g, db, after, event, r, item, person);
    assert r in db.participations ==> RowAttributed(db, upgraded, r);
  }

  lemma ApproveItemAttributed(
    g: Engine, db: Db, after: Db, upgraded: set<EventId>, event: EventId, r: RegistrationId)
    requires Inv(db) && Attributed(db, upgraded) && ActiveIn(db, event, r) && r in db.reviews
    requires g.usesV2(event) && ByReview(db, event) && ApproveItem(g, db, event, r) == Ok(after)
    ensures Attributed(after, upgraded)
  {
    var item := db.reviews[r];
    if Eligible(item, db.registrations[r]) {
      var person := item.rosterPerson.value;
      StudentKeepsInv(g, db, event, r, item, person);
      StudentRecorded(g, db, after, upgraded, event, r, item, person);
      if event !in upgraded {
        StudentLinked(g, db, after, upgraded, event, r, item, person);
      }
      ItemAttributed(db, after, upgraded, r);
    } else if r in db.participations && db.participations[r].status == Confirmed {
      CancelAttributed(db, upgraded, r);
    }
  }

  lemma {:induction false} SheetAttributed(
    g: Engine, db: Db, upgraded: set<EventId>, event: EventId, ids: seq<RegistrationId>)
    requires Inv(db) && Attributed(db, upgraded) && g.usesV2(event) && ByReview(db, event)
    requires Distinct(ids) && ApproveItems(g, db, event, ids).Ok?
    requires forall r :: r in ids ==> r in db.reviews && ActiveIn(db, event, r)
    ensures Attributed(ApproveItems(g, db, event, ids).value, upgraded)
  {
    if ids != [] {
      SheetAttributed(g, db, upgraded, event, ids[..|ids| - 1]);
      var mid := ReachedRow(g, db, event, ids);
      ApproveItemAttributed(g, mid, ApproveItems(g, db, event, ids).value, upgraded, event, ids[|ids| - 1]);
    }
  }

  /** The tables when the last row of the sheet is reached. */
  lemma ReachedRow(g: Engine, db: Db, event: EventId, ids: seq<RegistrationId>) returns (mid: Db)
    requires Inv(db) && ids != [] && Distinct(ids) && ApproveItems(g, db, event, ids[..|ids| - 1]).Ok?
    requires forall r :: r in ids ==> r in db.reviews && ActiveIn(db, event, r)
    ensures var r := ids[|ids| - 1];
      && ApproveItems(g, db, event, ids[..|ids| - 1]) == Ok(mid)
      && Inv(mid) && mid.events == db.events && ActiveIn(mid, event, r) && r in mid.reviews
      && ApproveItems(g, db, event, ids) == ApproveItem(g, mid, event, r)
  {
    var front := ids[..|ids| - 1];
    mid := ApproveItems(g, db, event, front).value;
    SheetKeepsInv(g, db, event, front);
    assert ids[|ids| - 1] in ids && ids[|ids| - 1] !in front;
  }

  lemma ApproveAttributed(g: Engine, db: Db, after: Db, upgraded: set<EventId>, event: EventId, superAdmin: bool)
    requires Inv(db) && Attributed(db, upgraded) && ApproveReview(g, db, event, superAdmin) == Ok(after)
    ensures Attributed(after, upgraded)
  {
    SheetIsComplete(g, db, event, superAdmin);
    SheetAttributed(g, db, upgraded, event, ReviewItems(db, event));
    SheetKeepsEvents(g, db, event, ReviewItems(db, event));
    MarkAttributed(ApproveItems(g, db, event, ReviewItems(db, event)).value, upgraded, event);
  }

  lemma SheetKeepsEvents(g: Engine, db: Db, event: EventId, ids: seq<RegistrationId>)
    requires Inv(db) && Distinct(ids) && ApproveItems(g, db, event, ids).Ok?
    requires forall r :: r in ids ==> r in db.reviews && ActiveIn(db, event, r)
    ensures ApproveItems(g, db, event, ids).value.events == db.events
  {
    SheetKeepsInv(g, db, event, ids);
  }

  lemma MarkAttributed(db: Db, upgraded: set<EventId>, event: EventId)
    requires Attributed(db, upgraded) && ByReview(db, event)
    ensures Attributed(MarkApproved(db, event), upgraded)
  {
    RestAttributed(db, MarkApproved(db, event), upgraded);
  }

  // ---- Merges -----------------------------------------------------------------

  /** Rows whose owner moved with their registration, that kept their status and their
      record, stay attributed. */
  lemma MovedAttributed(before: Db, after: Db, upgraded: set<EventId>, target: PersonId, source: PersonId)
    requires Attributed(before, upgraded) && after.participations.Keys == before.participations.Keys
    requires after.registrations == MovedRegistrations(before.registrations, target, source)
    requires after.events == before.events
    requires forall r :: r in before.participations ==>
      OwnerMoved(before.participations[r], after.participations[r], target, source)
    requires forall r :: r in before.participations && EverAwarded(before.ledger, r) ==> EverAwarded(after.ledger, r)
    ensures Attributed(after, upgraded)
  {
    forall r | r in after.participations
      ensures r in after.registrations && RowAttributed(after, upgraded, r)
    {
      assert OwnerMoved(before.participations[r], after.participations[r], target, source);
      assert RowAttributed(before, upgraded, r);
    }
  }

  ghost predicate OwnerMoved(p: Participation, p': Participation, target: PersonId, source: PersonId) {
    && p'.person == Moved(p.person, target, source) && p'.event == p.event && p'.status == p.status
    && (p.sequence.Some? ==> p'.sequence.Some?)
  }

  lemma MovedAwards(ledger: seq<Transaction>, target: PersonId, source: PersonId, r: RegistrationId)
    ensures EverAwarded(MovedLedger(ledger, target, source), r) == EverAwarded(ledger, r)
  {
    var moved := MovedLedger(ledger, target, source);
    assert forall i :: 0 <= i < |ledger| ==> IsAward(moved[i], r) == IsAward(ledger[i], r);
  }

  lemma PlainMergeAttributed(db: Db, upgraded: set<EventId>, target: PersonId, source: PersonId)
    requires Attributed(db, upgraded)
    ensures Attributed(ApplyPersonMerge(db, target, source), upgraded)
  {
    forall r
      ensures EverAwarded(MovedLedger(db.ledger, target, source), r) == EverAwarded(db.ledger, r)
    {
      MovedAwards(db.ledger, target, source, r);
    }
    MovedAttributed(db, ApplyPersonMerge(db, target, source), upgraded, target, source);
  }

  lemma OrderedMergeAttributed(
    g: Engine, db: Db, after: Db, upgraded: set<EventId>, target: PersonId, source: PersonId,
    order: seq<RegistrationId>, version: seq<OrderRow>)
    requires Inv(db) && Attributed(db, upgraded) && target != source && !BothRegistered(db, target, source)
    requires ApplyOrderedPersonMerge(g, db, target, source, order, version) == Ok(after)
    ensures Attributed(after, upgraded)
  {
    AcceptedOrderValid(g, db, target, source, order, version);
    OrderedMergeCorrect(g, db, target, source, order, version);
    OrderedMergeKeepsRest(g, db, after, target, source, order, version);
    OrderedMergeRows(g, db, after, target, source, order, version);
    forall r | r in db.participations
      ensures EverAwarded(db.ledger, r) ==> EverAwarded(after.ledger, r)
    {
      OrderedMergeAwards(g, db, after, target, source, order, version, r);
    }
    MovedAttributed(db, after, upgraded, target, source);
  }

  /** Every participation moves with its owner, and only those of the order are numbered. */
  lemma OrderedMergeRows(
    g: Engine, db: Db, after: Db, target: PersonId, source: PersonId, order: seq<RegistrationId>,
    version: seq<OrderRow>)
    requires Inv(db) && target != source && !BothRegistered(db, target, source)
    requires ApplyOrderedPersonMerge(g, db, target, source, order, version) == Ok(after)
    requires ValidOrder(db, target, source, order)
    ensures after.participations.Keys == db.participations.Keys
    ensures after.registrations == MovedRegistrations(db.registrations, target, source)
    ensures forall r :: r in db.participations ==>
      && OwnerMoved(db.participations[r], after.participations[r], target, source)
      && (r !in order && after.participations[r].sequence.Some? ==> db.participations[r].sequence.Some?)
  {
    var next, chosen := OrderedMergeStages(g, db, after, target, source, order, version);
    forall r | r in db.participations
      ensures OwnerMoved(db.participations[r], after.participations[r], target, source)
      ensures r !in order && after.participations[r].sequence.Some? ==> db.participations[r].sequence.Some?
    {
      ReAwardedRows(g, next, after, chosen, r);
      RepositionedRow(db.participations, next.participations, target, source, order, r);
    }
  }

  lemma RepositionedRow(
    before: map<RegistrationId, Participation>, after: map<RegistrationId, Participation>, target: PersonId,
    source: PersonId, order: seq<RegistrationId>, r: RegistrationId)
    requires forall q :: q in order ==> q in before && (before[q].person == target || before[q].person == source)
    requires Repositioned(before, after, order, target, source) && r in before
    ensures r in after && after[r].person == Moved(before[r].person, target, source)
    ensures after[r].event == before[r].event && after[r].status == before[r].status
    ensures r in order ==> after[r].sequence.Some?
    ensures r !in order && after[r].sequence.Some? ==> before[r].sequence.Some?
  {
    if r in order {
      var _ := PositionOf(before, after, order, target, source, r);
    }
  }

  lemma OrderedMergeKeepsRest(
    g: Engine, db: Db, after: Db, target: PersonId, source: PersonId, order: seq<RegistrationId>,
    version: seq<OrderRow>)
    requires ApplyOrderedPersonMerge(g, db, target, source, order, version) == Ok(after)
    ensures after.events == db.events && after.reviews == MovedReviews(db.reviews, target, source)
  {
    var ids := NumberedParticipations(db, target, source);
    var chosen, next := Recalculated(g, db, ids), Reordered(g, db, target, source, ids, order);
    ReversingKeepsRest(db, ids, chosen);
    ReAwardingKeepsRest(g, next, order, chosen);
  }

  lemma {:induction false} ReversingKeepsRest(db: Db, ids: seq<RegistrationId>, chosen: set<RegistrationId>)
    requires forall q :: q in ids ==> q in db.participations
    ensures var after := ReverseAll(db, ids, chosen); after == db.(ledger := after.ledger)
  {
    if ids != [] {
      ReversingKeepsRest(db, ids[..|ids| - 1], chosen);
    }
  }

  lemma {:induction false} ReAwardingKeepsRest(
    g: Engine, db: Db, order: seq<RegistrationId>, chosen: set<RegistrationId>)
    requires AwardAll(g, db, order, chosen).Ok?
    ensures var after := AwardAll(g, db, order, chosen).value;
      after == db.(participations := after.participations, ledger := after.ledger)
  {
    if order != [] {
      ReAwardingKeepsRest(g, db, order[..|order| - 1], chosen);
      AwardingKeepsRest(g, AwardAll(g, db, order[..|order| - 1], chosen).value, order[|order| - 1], chosen);
    }
  }

  lemma AwardingKeepsRest(g: Engine, db: Db, r: RegistrationId, chosen: set<RegistrationId>)
    requires AwardNext(g, db, r, chosen).Ok?
    ensures var after := AwardNext(g, db, r, chosen).value;
      after == db.(participations := after.participations, ledger := after.ledger)
  {
    if r in chosen && r in db.participations {
      ScoringKeepsRest(g, BumpCycle(db, r), r);
    }
  }

  lemma ScoringKeepsRest(g: Engine, db: Db, r: RegistrationId)
    requires AwardScore(g, db, r).Ok?
    ensures var after := AwardScore(g, db, r).value;
      after == db.(participations := after.participations, ledger := after.ledger)
  {
    SettlingKeepsRest(Numbered(g, db, r), r, Worth(g, Numbered(g, db, r), r));
  }

  lemma SettlingKeepsRest(db: Db, r: RegistrationId, worth: Points)
    requires r in db.participations && Settle(db, r, worth).Ok?
    ensures var after := Settle(db, r, worth).value;
      after == db.(participations := after.participations, ledger := after.ledger)
  {
  }

  /** The ordered merge takes no award out of the ledger. */
  lemma OrderedMergeAwards(
    g: Engine, db: Db, after: Db, target: PersonId, source: PersonId, order: seq<RegistrationId>,
    version: seq<OrderRow>, r: RegistrationId)
    requires ApplyOrderedPersonMerge(g, db, target, source, order, version) == Ok(after)
    ensures EverAwarded(db.ledger, r) ==> EverAwarded(after.ledger, r)
  {
    MergeGrows(g, db, after, target, source, order, version);
    if EverAwarded(db.ledger, r) {
      var i :| 0 <= i < |db.ledger| && IsAward(db.ledger[i], r);
      assert SameRow(db.ledger[i], after.ledger[i]);
      assert IsAward(after.ledger[i], r);
    }
  }

  lemma MergeAttributed(
    g: Engine, db: Db, after: Db, upgraded: set<EventId>, target: PersonId, source: PersonId, tenant: nat,
    order: Option<seq<RegistrationId>>, version: Option<seq<OrderRow>>)
    requires Inv(db) && Attributed(db, upgraded)
    requires MergePerson(g, db, target, source, tenant, order, version) == Ok(after)
    ensures Attributed(after, upgraded)
  {
    if MergeConflicts(db, target, source) == [] {
      PlainMergeAttributed(db, upgraded, target, source);
    } else {
      OnlySequencesClash(db, target, source);
      OrderedMergeAttributed(g, db, after, upgraded, target, source, order.value, version.value);
    }
  }

  // ---- Every run --------------------------------------------------------------

  /** Events may be added, finished or reviewed, but none starts being scored by review. */
  ghost predicate SameReviewing(a: Db, b: Db) {
    && (forall e :: e in a.events ==> e in b.events && b.events[e].reviewRequired == a.events[e].reviewRequired)
    && (ReviewsRequired(a) ==> ReviewsRequired(b))
  }

  lemma RestAttributed(db: Db, after: Db, upgraded: set<EventId>)
    requires Attributed(db, upgraded) && after.participations == db.participations && after.ledger == db.ledger
    requires forall r :: r in db.registrations ==>
      r in after.registrations && after.registrations[r].person == db.registrations[r].person
    requires SameReviewing(db, after)
    ensures Attributed(after, upgraded)
  {
    forall r | r in after.participations
      ensures RowAttributed(after, upgraded, r)
    {
      assert RowAttributed(db, upgraded, r);
    }
  }

  /** The upgrade finds every participation of the event with its registration's person. */
  lemma UpgradeAttributed(db: Db, upgraded: set<EventId>, event: EventId)
    requires Attributed(db, upgraded) && StartReviewing(db, event).Ok?
    ensures Attributed(StartReviewing(db, event).value, upgraded + {event})
  {
    var after := StartReviewing(db, event).value;
    forall r | r in after.participations
      ensures RowAttributed(after, upgraded + {event}, r)
    {
      assert RowAttributed(db, upgraded, r);
    }
  }

  function Upgrades(upgraded: set<EventId>, op: Operation): set<EventId> {
    if op.RequireReview? then upgraded + {op.event} else upgraded
  }

  lemma OperationAttributed(g: Engine, db: Db, after: Db, upgraded: set<EventId>, op: Operation)
    requires Inv(db) && Attributed(db, upgraded) && Perform(g, db, op) == Ok(after)
    ensures Attributed(after, Upgrades(upgraded, op))
  {
    if op.Confirm? || op.Cancel? || op.Update? || op.Assign? {
      DirectAttributed(g, db, after, upgraded, op);
    } else if op.Approve? || op.MergeInto? {
      SweepingAttributed(g, db, after, upgraded, op);
    } else if op.Adjust? || op.RequireReview? {
      PlainAttributed(g, db, after, upgraded, op);
    } else {
      ElsewhereAttributed(g, db, after, upgraded, op);
    }
  }

  lemma PlainAttributed(g: Engine, db: Db, after: Db, upgraded: set<EventId>, op: Operation)
    requires Inv(db) && Attributed(db, upgraded) && Perform(g, db, op) == Ok(after)
    requires op.Adjust? || op.RequireReview?
    ensures Attributed(after, Upgrades(upgraded, op))
  {
    match op
    case Adjust(person, points, request) => AdjustAttributed(db, upgraded, person, points, request);
    case RequireReview(event) => UpgradeAttributed(db, upgraded, event);
  }

  /** Requests about many participations at once. */
  lemma SweepingAttributed(g: Engine, db: Db, after: Db, upgraded: set<EventId>, op: Operation)
    requires Inv(db) && Attributed(db, upgraded) && Perform(g, db, op) == Ok(after) && (op.Approve? || op.MergeInto?)
    ensures Attributed(after, upgraded)
  {
    match op
    case Approve(event, superAdmin) => ApproveAttributed(g, db, after, upgraded, event, superAdmin);
    case MergeInto(target, source, tenant, order, version) =>
      MergeAttributed(g, db, after, upgraded, target, source, tenant, order, version);
  }

  /** Requests about one participation, as far as their handlers admit them. */
  lemma DirectAttributed(g: Engine, db: Db, after: Db, upgraded: set<EventId>, op: Operation)
    requires Inv(db) && Attributed(db, upgraded) && Perform(g, db, op) == Ok(after)
    requires op.Confirm? || op.Cancel? || op.Update? || op.Assign?
    ensures Attributed(after, upgraded)
  {
    match op
    case Confirm(event, r, role, result, allow) => ConfirmAttributed(g, db, upgraded, event, r, role, result, allow);
    case Cancel(r) => CancelAttributed(db, upgraded, r);
    case Update(r, role, result) => UpdateAttributed(g, db, upgraded, r, role, result);
    case Assign(event, r, role, result) => AssignAttributed(g, db, upgraded, event, r, role, result);
  }

  /** The operation touches neither participations nor the ledger. */
  predicate LeavesScores(op: Operation) {
    || op.Prepare? || op.Decide? || op.Reopen? || op.Register? || op.Attend? || op.Annul? || op.Enrol?
    || op.AddEvent? || op.EditStatus? || op.EditElsewhere?
  }

  lemma ElsewhereAttributed(g: Engine, db: Db, after: Db, upgraded: set<EventId>, op: Operation)
    requires Attributed(db, upgraded) && LeavesScores(op) && Perform(g, db, op) == Ok(after)
    ensures Attributed(after, upgraded)
  {
    if op.Prepare? || op.Reopen? || op.AddEvent? || op.EditStatus? {
      EventsAttributed(g, db, after, upgraded, op);
    } else if op.Register? || op.Attend? || op.Annul? {
      RegistrationsAttributed(g, db, after, upgraded, op);
    } else {
      RestAttributed(db, after, upgraded);
    }
  }

  lemma RegistrationsAttributed(g: Engine, db: Db, after: Db, upgraded: set<EventId>, op: Operation)
    requires Attributed(db, upgraded) && Perform(g, db, op) == Ok(after) && (op.Register? || op.Attend? || op.Annul?)
    ensures Attributed(after, upgraded)
  {
    RestAttributed(db, after, upgraded);
  }

  /** The operation changes events and reviews alone. */
  lemma EventsAttributed(g: Engine, db: Db, after: Db, upgraded: set<EventId>, op: Operation)
    requires Attributed(db, upgraded) && Perform(g, db, op) == Ok(after)
    requires op.Prepare? || op.Reopen? || op.AddEvent? || op.EditStatus?
    ensures Attributed(after, upgraded)
  {
    match op
    case Prepare(event, _) => EventAttributed(db, after, upgraded, event);
    case Reopen(event) => EventAttributed(db, after, upgraded, event);
    case AddEvent(event, _) => EventAttributed(db, after, upgraded, event);
    case EditStatus(event, _) => EventAttributed(db, after, upgraded, event);
  }

  /** One event is added, or edited without changing how it is scored. */
  lemma EventAttributed(db: Db, after: Db, upgraded: set<EventId>, event: EventId)
    requires Attributed(db, upgraded) && event in after.events
    requires after == db.(reviews := after.reviews, events := db.events[event := after.events[event]])
    requires event in db.events ==> after.events[event].reviewRequired == db.events[event].reviewRequired
    requires after.events[event].state != NotStarted ==> after.events[event].reviewRequired
    ensures Attributed(after, upgraded)
  {
    assert SameReviewing(db, after);
    RestAttributed(db, after, upgraded);
  }

  /** The events that came to be scored by review during the run. */
  function Upgraded(steps: seq<Step>): set<EventId>
    decreases |steps|
  {
    if |steps| == 0 then {} else Upgrades(Upgraded(steps[..|steps| - 1]), steps[|steps| - 1].op)
  }

  lemma MoreUpgraded(db: Db, upgraded: set<EventId>, more: set<EventId>)
    requires Attributed(db, upgraded) && upgraded <= more
    ensures Attributed(db, more)
  {
    forall r | r in db.participations
      ensures RowAttributed(db, more, r)
    {
      assert RowAttributed(db, upgraded, r);
    }
  }

  lemma {:induction false} EveryRunAttributed(steps: seq<Step>)
    ensures Inv(Run(EMPTY, steps)) && Attributed(Run(EMPTY, steps), Upgraded(steps))
    decreases |steps|
  {
    assert Inv(EMPTY);
    EveryRunKeepsInv(EMPTY, steps);
    if |steps| > 0 {
      var front, s := steps[..|steps| - 1], steps[|steps| - 1];
      EveryRunAttributed(front);
      var before := Run(EMPTY, front);
      if Perform(s.engine, before, s.op).Ok? {
        OperationAttributed(s.engine, before, Run(EMPTY, steps), Upgraded(front), s.op);
      } else {
        MoreUpgraded(before, Upgraded(front), Upgraded(steps));
      }
    }
  }

  // ---- The promise ------------------------------------------------------------

  /** On attributed tables no earlier row disturbs a READY preview. */
  lemma AttributedSheetIsSafe(
    g: Engine, db: Db, upgraded: set<EventId>, event: EventId, superAdmin: bool, r: RegistrationId)
    requires Inv(db) && Attributed(db, upgraded) && ApproveReview(g, db, event, superAdmin).Ok?
    requires r in db.reviews && ActiveIn(db, event, r) && PreviewItem(g, db, event, r).Ready?
    ensures SequenceSafe(db, event, r, db.reviews[r].rosterPerson.value)
  {
    var person := db.reviews[r].rosterPerson.value;
    forall q | PreviewProofs.Earlier(db, event, q, r)
      ensures !Disturbs(db, q, person)
    {
      assert db.registrations[q].person != person;
      assert q in db.participations ==> RowAttributed(db, upgraded, q);
      if Eligible(db.reviews[q], db.registrations[q]) {
        RosterStudentsDiffer(g, db, event, superAdmin, q, r);
      }
    }
  }

  /** After any history, under scoring rules that change as they like, a READY preview of an
      item credited to its roster student and due an award is exactly what approval writes,
      whatever else is on the sheet. */
  lemma EveryPreviewIsAwarded(
    steps: seq<Step>, g: Engine, after: Db, event: EventId, superAdmin: bool, r: RegistrationId, person: PersonId,
    points: int, sequence: nat)
    requires ApproveReview(g, Run(EMPTY, steps), event, superAdmin) == Ok(after)
    requires Previewed(g, Run(EMPTY, steps), event, r, person, points, sequence)
    ensures AwardWritten(after, r, person, points, sequence, |Run(EMPTY, steps).ledger|)
  {
    EveryRunAttributed(steps);
    AttributedSheetIsSafe(g, Run(EMPTY, steps), Upgraded(steps), event, superAdmin, r);
    PreviewIsAward(g, Run(EMPTY, steps), after, event, superAdmin, r, person, points, sequence);
  }

  lemma RowLinked(g: Engine, db: Db, upgraded: set<EventId>, event: EventId, ids: seq<RegistrationId>, k: nat)
    requires Inv(db) && Attributed(db, upgraded) && g.usesV2(event) && ByReview(db, event) && event !in upgraded
    requires k < |ids| && Distinct(ids) && ApproveItems(g, db, event, ids).Ok?
    requires forall q :: q in ids ==> q in db.reviews && ActiveIn(db, event, q)
    requires Eligible(db.reviews[ids[k]], db.registrations[ids[k]])
    ensures var last := ApproveItems(g, db, event, ids).value;
      && db.reviews[ids[k]].rosterPerson.Some? && ids[k] in last.participations
      && last.participations[ids[k]].person == db.reviews[ids[k]].rosterPerson.value
  {
    var mid, next := RowStep(g, db, event, ids, k);
    SheetAttributed(g, db, upgraded, event, ids[..k]);
    UnreachedRowAlike(db, mid, ids[..k], ids[k]);
    ReachedRowLinked(g, mid, next, upgraded, event, ids[k]);
    KeptToTheEnd(g, db, event, ids, k, next, ApproveItems(g, db, event, ids).value);
  }

  lemma ReachedRowLinked(
    g: Engine, db: Db, after: Db, upgraded: set<EventId>, event: EventId, r: RegistrationId)
    requires Inv(db) && Attributed(db, upgraded) && ActiveIn(db, event, r) && ByReview(db, event)
    requires event !in upgraded && r in db.reviews && Eligible(db.reviews[r], db.registrations[r])
    requires ApproveItem(g, db, event, r) == Ok(after)
    ensures db.reviews[r].rosterPerson.Some? && r in after.participations
    ensures after.participations[r].person == db.reviews[r].rosterPerson.value
  {
    StudentLinked(g, db, after, upgraded, event, r, db.reviews[r], db.reviews[r].rosterPerson.value);
  }

  lemma SheetLinked(
    g: Engine, db: Db, after: Db, upgraded: set<EventId>, event: EventId, superAdmin: bool, r: RegistrationId)
    requires Inv(db) && Attributed(db, upgraded) && event !in upgraded
    requires ApproveReview(g, db, event, superAdmin) == Ok(after)
    requires r in db.reviews && ActiveIn(db, event, r) && Eligible(db.reviews[r], db.registrations[r])
    ensures db.reviews[r].rosterPerson.Some? && r in after.participations
    ensures after.participations[r].person == db.reviews[r].rosterPerson.value
  {
    var ids := ReviewItems(db, event);
    SheetIsComplete(g, db, event, superAdmin);
    ApprovedSheet(g, db, after, event, superAdmin);
    var k := IndexOf(ids, r);
    RowLinked(g, db, upgraded, event, ids, k);
  }

  lemma IndexOf(ids: seq<RegistrationId>, r: RegistrationId) returns (k: nat)
    requires r in ids
    ensures k < |ids| && ids[k] == r
  {
    k :| 0 <= k < |ids| && ids[k] == r;
  }

  lemma ApprovedSheet(g: Engine, db: Db, after: Db, event: EventId, superAdmin: bool)
    requires ApproveReview(g, db, event, superAdmin) == Ok(after)
    ensures var scored := ApproveItems(g, db, event, ReviewItems(db, event));
      scored.Ok? && after.participations == scored.value.participations
    ensures g.usesV2(event) && event in db.events && db.events[event].state == Pending
  {
    assert ApprovalError(g, db, event, superAdmin).None?;
    SheetApproved(g, db, after, event, ReviewItems(db, event));
  }

  lemma SheetApproved(g: Engine, db: Db, after: Db, event: EventId, ids: seq<RegistrationId>)
    requires ApproveSheet(g, db, event, ids) == Ok(after)
    ensures var scored := ApproveItems(g, db, event, ids);
      scored.Ok? && after.participations == scored.value.participations
  {
  }

  /** In an event that was scored by review from the start, the points of every eligible row
      go to the roster student it names. */
  lemma EveryApprovalCreditsRosterStudent(
    steps: seq<Step>, g: Engine, after: Db, event: EventId, superAdmin: bool, r: RegistrationId)
    requires ApproveReview(g, Run(EMPTY, steps), event, superAdmin) == Ok(after) && event !in Upgraded(steps)
    requires var db := Run(EMPTY, steps);
      r in db.reviews && ActiveIn(db, event, r) && Eligible(db.reviews[r], db.registrations[r])
    ensures var roster := Run(EMPTY, steps).reviews[r].rosterPerson;
      roster.Some? && r in after.participations && after.participations[r].person == roster.value
  {
    EveryRunAttributed(steps);
    SheetLinked(g, Run(EMPTY, steps), after, Upgraded(steps), event, superAdmin, r);
  }
}
