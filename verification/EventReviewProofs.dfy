/** What an approval guarantees: every row of the sheet ends as it was decided, nothing
    outside the sheet changes, approving again changes nothing, and the previewed
    points are the awarded ones. */
module EventReviewProofs {
  import opened Common
  import opened ActivityModel
  import opened ActivityService
  import opened LedgerInvariant
  import opened ActivityInvariant
  import opened EventReviewing

  // ---- The effect of one row --------------------------------------------------

  /** Only what belongs to registration `r` changed: its link, its participation, and
      ledger rows about it. A new owner of the participation is the linked person. */
  ghost predicate ItemChange(before: Db, after: Db, r: RegistrationId)
    requires r in before.registrations
  {
    && r in after.registrations
    && after == before.(participations := after.participations, ledger := after.ledger,
         registrations := after.registrations)
    && after.registrations == before.registrations[r := after.registrations[r]]
    && SameAttendee(before.registrations[r], after.registrations[r])
    && (forall q :: q != r ==> (q in after.participations <==> q in before.participations))
    && (forall q :: q != r && q in before.participations ==> after.participations[q] == before.participations[q])
    && (r in before.participations ==> r in after.participations)
    && (r in after.participations ==>
         Owned(Find(before.participations, r), after.participations[r], after.registrations[r]))
    && before.ledger <= after.ledger
    && forall i :: |before.ledger| <= i < |after.ledger| ==> after.ledger[i].participation == Some(r)
  }

  /** The registration is the same up to the person it is linked to. */
  ghost predicate SameAttendee(a: Registration, b: Registration) {
    b == a.(person := b.person, rosterPerson := b.rosterPerson, matchState := b.matchState)
  }

  ghost predicate Owned(before: Option<Participation>, after: Participation, reg: Registration) {
    if before.Some? then after.person == before.value.person || after.person == reg.person
    else after.person == reg.person
  }

  lemma ItemThenLocal(a: Db, b: Db, d: Db, r: RegistrationId)
    requires r in a.registrations && ItemChange(a, b, r) && LocalChange(b, d, r)
    ensures ItemChange(a, d, r)
  {
  }

  lemma LocalIsItem(a: Db, b: Db, r: RegistrationId)
    requires r in a.registrations && LocalChange(a, b, r)
    ensures ItemChange(a, b, r)
  {
    assert a.registrations == a.registrations[r := a.registrations[r]];
  }

  lemma ItemSelf(a: Db, r: RegistrationId)
    requires r in a.registrations
    ensures ItemChange(a, a, r)
  {
    assert a.registrations == a.registrations[r := a.registrations[r]];
  }

  // ---- Linking ----------------------------------------------------------------

  lemma LinkKeepsInv(db: Db, event: EventId, r: RegistrationId, person: PersonId)
    requires Inv(db) && ActiveIn(db, event, r) && !Collides(db, event, r, person)
    ensures Inv(LinkRegistration(db, r, person)) && ItemChange(db, LinkRegistration(db, r, person), r)
  {
    var linked := LinkRegistration(db, r, person);
    forall q | q in linked.registrations && q != r
      && linked.registrations[q].active && linked.registrations[q].event == event
      ensures linked.registrations[q].person != person
    {
      assert ActiveIn(db, event, q);
    }
  }

  lemma DraftFollows(db: Db, r: RegistrationId, person: PersonId)
    requires Inv(db) && r in db.participations && db.participations[r].status == Draft
    ensures Inv(SetParticipation(db, r, db.participations[r].(person := person)))
  {
    var p := db.participations[r].(person := person);
    assert Consistent(db.ledger, r, db.participations[r]);
    DraftHasNoRows(db.ledger, db.participations, r);
    RowWrite(db, {}, r, p, {});
    SequenceWrite(db, r, p);
  }

  lemma RelinkKeepsInv(db: Db, event: EventId, r: RegistrationId, person: PersonId)
    requires Inv(db) && ActiveIn(db, event, r) && !Collides(db, event, r, person)
    ensures Inv(Relinked(db, r, person)) && ItemChange(db, Relinked(db, r, person), r)
  {
    LinkKeepsInv(db, event, r, person);
    if r in db.participations && db.participations[r].status == Draft {
      DraftFollows(LinkRegistration(db, r, person), r, person);
    }
  }

  lemma LinkedKeepsInv(db: Db, event: EventId, r: RegistrationId, person: PersonId)
    requires Inv(db) && ActiveIn(db, event, r)
    requires db.registrations[r].person != person ==> !Collides(db, event, r, person)
    ensures var linked := Linked(db, r, person);
      Inv(linked) && ItemChange(db, linked, r) && linked.registrations[r].person == person
  {
    if db.registrations[r].person != person {
      RelinkKeepsInv(db, event, r, person);
    } else {
      ItemSelf(db, r);
    }
  }

  // ---- One student ------------------------------------------------------------

  /** The participation carries the reviewed role and result and is scored. */
  ghost predicate ScoredAs(db: Db, r: RegistrationId, role: RoleId, result: Option<ResultId>) {
    && r in db.participations
    && db.participations[r].status == Confirmed && db.participations[r].state == Awarded
    && db.participations[r].role == Some(role) && db.participations[r].result == result
  }

  lemma ConfirmedFields(
    g: Engine, db: Db, event: EventId, r: RegistrationId, role: RoleId, result: Option<ResultId>, allow: bool)
    requires Inv(db) && ConfirmRegistration(g, db, event, r, Some(role), result, allow).Ok?
    requires r in db.participations ==> db.participations[r].role == Some(role) && db.participations[r].result == result
    ensures var db' := ConfirmRegistration(g, db, event, r, Some(role), result, allow).value;
      && ValidReferences(g, role, result)
      && r in db'.participations
      && db'.participations[r].role == Some(role) && db'.participations[r].result == result
  {
    if !(r in db.participations && db.participations[r].status == Confirmed) {
      OpenedAward(g, db, r, role, result);
      ScoredRowFields(g, Opened(db, r, role, result), r);
    }
  }

  lemma StudentKeepsInv(g: Engine, db: Db, event: EventId, r: RegistrationId, item: Review, person: PersonId)
    requires Inv(db) && ActiveIn(db, event, r) && ApproveStudent(g, db, event, r, item, person).Ok?
    ensures var db' := ApproveStudent(g, db, event, r, item, person).value;
      && Inv(db') && ItemChange(db, db', r)
      && ScoredAs(db', r, item.role, item.result) && ValidReferences(g, item.role, item.result)
      && db'.registrations[r].person == person
  {
    var linked := Linked(db, r, person);
    LinkedKeepsInv(db, event, r, person);
    var updated := TakeDecision(g, linked, r, item).value;
    DecisionKeepsInv(g, db, linked, r, item);
    var allow := db.registrations[r].attendedAt.None?;
    ConfirmKeepsInv(g, updated, event, r, Some(item.role), item.result, allow);
    ConfirmedFields(g, updated, event, r, item.role, item.result, allow);
    ItemThenLocal(db, updated, ConfirmRegistration(g, updated, event, r, Some(item.role), item.result, allow).value, r);
  }

  lemma DecisionKeepsInv(g: Engine, db: Db, linked: Db, r: RegistrationId, item: Review)
    requires Inv(linked) && r in db.registrations && ItemChange(db, linked, r) && TakeDecision(g, linked, r, item).Ok?
    ensures var updated := TakeDecision(g, linked, r, item).value;
      && Inv(updated) && ItemChange(db, updated, r) && updated.registrations == linked.registrations
      && (r in updated.participations ==>
           updated.participations[r].role == Some(item.role) && updated.participations[r].result == item.result)
  {
    if r in linked.participations {
      UpdateKeepsInv(g, linked, r, Set(Some(item.role)), Set(item.result));
      ItemThenLocal(db, linked, TakeDecision(g, linked, r, item).value, r);
    }
  }

  // ---- One row of the sheet ---------------------------------------------------

  /** What the sheet decides for `r` is what the tables say. */
  ghost predicate Decided(g: Engine, db: Db, r: RegistrationId)
    requires r in db.reviews && r in db.registrations
  {
    var item := db.reviews[r];
    if Eligible(item, db.registrations[r]) then
      && ScoredAs(db, r, item.role, item.result) && ValidReferences(g, item.role, item.result)
      && item.rosterPerson == Some(db.registrations[r].person)
    else
      && Net(db.ledger, r) == 0
      && (r in db.participations ==> db.participations[r].status != Confirmed)
  }

  lemma ItemKeepsInv(g: Engine, db: Db, event: EventId, r: RegistrationId)
    requires Inv(db) && ActiveIn(db, event, r) && r in db.reviews
    requires ApproveItem(g, db, event, r).Ok?
    ensures var db' := ApproveItem(g, db, event, r).value;
      Inv(db') && ItemChange(db, db', r) && Decided(g, db', r)
  {
    var item, reg := db.reviews[r], db.registrations[r];
    if Eligible(item, reg) {
      StudentKeepsInv(g, db, event, r, item, item.rosterPerson.value);
    } else if r in db.participations && db.participations[r].status == Confirmed {
      CancelKeepsInv(db, r);
      LocalIsItem(db, CancelParticipation(db, r).value, r);
    } else {
      ItemSelf(db, r);
      if r in db.participations {
        NetIsLivePoints(db, r);
      } else {
        DraftHasNoRows(db.ledger, db.participations, r);
        NoRowsNetZero(db.ledger, r);
      }
    }
  }

  // ---- The whole sheet --------------------------------------------------------

  /** The combined effect of the rows `ids`. */
  ghost predicate SheetChange(before: Db, after: Db, ids: seq<RegistrationId>) {
    && after == before.(participations := after.participations, ledger := after.ledger,
         registrations := after.registrations)
    && after.registrations.Keys == before.registrations.Keys
    && (forall q :: q in before.registrations ==> SameAttendee(before.registrations[q], after.registrations[q]))
    && (forall q :: q in before.registrations && q !in ids ==> after.registrations[q] == before.registrations[q])
    && (forall q :: q !in ids ==> (q in after.participations <==> q in before.participations))
    && (forall q :: q in before.participations && q !in ids ==> after.participations[q] == before.participations[q])
    && (forall q :: q in before.participations ==> q in after.participations)
    && (forall q :: q in after.participations && q in after.registrations ==>
         Owned(Find(before.participations, q), after.participations[q], after.registrations[q]))
    && before.ledger <= after.ledger
    && forall i :: |before.ledger| <= i < |after.ledger| ==> AboutOne(after.ledger[i], ids)
  }

  ghost predicate AboutOne(t: Transaction, ids: seq<RegistrationId>) {
    t.participation.Some? && t.participation.value in ids
  }

  lemma SheetSelf(db: Db)
    ensures SheetChange(db, db, [])
  {
  }

  lemma SheetOneMore(a: Db, b: Db, d: Db, ids: seq<RegistrationId>, r: RegistrationId)
    requires SheetChange(a, b, ids) && r in a.registrations && r !in ids && ItemChange(b, d, r)
    requires ParticipationsLinked(a.participations, a.registrations)
    ensures SheetChange(a, d, ids + [r])
  {
    forall q | q in d.participations && q in d.registrations
      ensures Owned(Find(a.participations, q), d.participations[q], d.registrations[q])
    {
      if q == r {
        assert r in b.participations <==> r in a.participations;
      }
    }
    forall i | |a.ledger| <= i < |d.ledger|
      ensures AboutOne(d.ledger[i], ids + [r])
    {
      assert i < |b.ledger| ==> AboutOne(b.ledger[i], ids);
    }
  }

  lemma ItemKeepsDecided(g: Engine, before: Db, after: Db, r: RegistrationId, q: RegistrationId)
    requires r in before.registrations && ItemChange(before, after, r) && q != r
    requires q in before.reviews && q in before.registrations && Decided(g, before, q)
    ensures Decided(g, after, q)
  {
    AppendedNet(before.ledger, after.ledger, r, q);
  }

  lemma {:induction false} SheetKeepsInv(g: Engine, db: Db, event: EventId, ids: seq<RegistrationId>)
    requires Inv(db) && Distinct(ids) && ApproveItems(g, db, event, ids).Ok?
    requires forall r :: r in ids ==> r in db.reviews && ActiveIn(db, event, r)
    ensures var after := ApproveItems(g, db, event, ids).value;
      && Inv(after) && SheetChange(db, after, ids)
      && forall r :: r in ids ==> Decided(g, after, r)
  {
    if ids == [] {
      SheetSelf(db);
    } else {
      var front, r := ids[..|ids| - 1], ids[|ids| - 1];
      assert ids == front + [r];
      assert r !in front;
      SheetKeepsInv(g, db, event, front);
      var before := ApproveItems(g, db, event, front).value;
      ItemKeepsInv(g, before, event, r);
      var after := ApproveItem(g, before, event, r).value;
      SheetOneMore(db, before, after, front, r);
      forall q | q in ids
        ensures Decided(g, after, q)
      {
        if q != r {
          ItemKeepsDecided(g, before, after, r, q);
        }
      }
    }
  }

  // ---- One saved decision -----------------------------------------------------

  /** A saved decision was made on the current version, is up to date with the scanner,
      names a current roster student or nobody, never hands a numbered participation to
      somebody else, and changes no other row. */
  lemma SavedDecision(
    g: Engine, db: Db, after: Db, event: EventId, r: RegistrationId, d: Decision, tenant: nat, expected: ReviewVersion,
    now: int)
    requires UpdateReviewItem(g, db, event, r, d, tenant, expected, now) == Ok(after)
    ensures r in db.reviews && r in db.registrations && r in after.reviews && VersionOf(db, r) == expected
    ensures after == db.(reviews := db.reviews[r := after.reviews[r]])
    ensures !Stale(after, r) && after.reviews[r].present == d.present
    ensures after.reviews[r].role == d.role && after.reviews[r].result == d.result
    ensures ValidReferences(g, d.role, d.result)
    ensures MatchDecided(db, r, d, tenant, after.reviews[r])
  {
  }

  /** How the saved row matches the roster. */
  ghost predicate MatchDecided(db: Db, r: RegistrationId, d: Decision, tenant: nat, saved: Review)
    requires r in db.reviews && r in db.registrations
  {
    && (!db.registrations[r].kaitStudent ==> saved.matchState == NotApplicable)
    && (d.rejectMatch ==> saved.rosterPerson.None?)
    && (db.registrations[r].kaitStudent ==>
         if d.rejectMatch then saved.matchState == Rejected
         else if saved.rosterPerson.Some? then saved.matchState == Matched
         else saved.matchState == db.reviews[r].matchState)
    && (saved.rosterPerson.Some? ==> LinkAllowed(db, r, saved.rosterPerson.value, tenant))
  }

  /** A current student of the roster, and the owner of the participation once numbered. */
  ghost predicate LinkAllowed(db: Db, r: RegistrationId, person: PersonId, tenant: nat) {
    && OnRoster(db, person, tenant)
    && (r in db.participations && db.participations[r].sequence.Some? ==> db.participations[r].person == person)
  }

  // ---- The approval -----------------------------------------------------------

  lemma SubsetOfSameSize<T>(a: set<T>, b: set<T>)
    requires a <= b && |a| == |b|
    ensures a == b
  {
    if a != b {
      var x :| x in b && x !in a;
      assert a <= b - {x};
      SmallerSubset(a, b - {x});
    }
  }

  lemma SmallerSubset<T>(a: set<T>, b: set<T>)
    requires a <= b
    ensures |a| <= |b|
  {
    assert b == a + (b - a);
    assert |b| == |a| + |b - a|;
  }

  /** A sheet that passes the checks has one row for each active registration. */
  lemma SheetIsComplete(g: Engine, db: Db, event: EventId, superAdmin: bool)
    requires ReviewsLinked(db.reviews, db.registrations) && ApprovalError(g, db, event, superAdmin).None?
    ensures forall r :: r in ReviewItems(db, event) <==> ActiveIn(db, event, r)
    ensures Distinct(ReviewItems(db, event))
  {
    forall r | r in ItemSet(db, event)
      ensures r in ActiveSet(db, event)
    {
    }
    SubsetOfSameSize(ItemSet(db, event), ActiveSet(db, event));
    forall r
      ensures r in ReviewItems(db, event) <==> ActiveIn(db, event, r)
    {
      assert r in ReviewItems(db, event) <==> r in ItemSet(db, event);
      assert r in ActiveSet(db, event) <==> ActiveIn(db, event, r);
    }
  }

  /** A successful approval keeps the invariant, and every active registration of the
      event ends exactly as the sheet decided. */
  lemma ApprovalCorrect(g: Engine, db: Db, event: EventId, superAdmin: bool)
    requires Inv(db) && ApproveReview(g, db, event, superAdmin).Ok?
    ensures var after := ApproveReview(g, db, event, superAdmin).value;
      && Inv(after) && after.reviews == db.reviews
      && forall r :: ActiveIn(db, event, r) ==> ActiveIn(after, event, r) && r in after.reviews && Decided(g, after, r)
  {
    var ids := ReviewItems(db, event);
    SheetIsComplete(g, db, event, superAdmin);
    SheetKeepsInv(g, db, event, ids);
    var scored := ApproveItems(g, db, event, ids).value;
    forall r | ActiveIn(db, event, r)
      ensures Decided(g, MarkApproved(scored, event), r)
    {
      assert r in ids;
      assert Decided(g, scored, r);
    }
  }

  /** A student who was present must be linked, whatever the match state says: a row that
      stayed MATCHED without a link blocks the whole approval. */
  lemma UnlinkedStudentBlocks(g: Engine, db: Db, event: EventId, superAdmin: bool, r: RegistrationId)
    requires Inv(db) && ActiveIn(db, event, r) && r in db.reviews
    requires Eligible(db.reviews[r], db.registrations[r]) && db.reviews[r].rosterPerson.None?
    ensures ApproveReview(g, db, event, superAdmin).Err?
  {
    if ApproveReview(g, db, event, superAdmin).Ok? {
      var ids := ReviewItems(db, event);
      SheetIsComplete(g, db, event, superAdmin);
      SheetKeepsInv(g, db, event, ids);
    }
  }

  /** Nobody outside the sheet loses or gains a point, a participation or a link, and the
      ledger only grows. */
  lemma ApprovalTouchesOnlyTheSheet(g: Engine, db: Db, event: EventId, superAdmin: bool)
    requires Inv(db) && ApproveReview(g, db, event, superAdmin).Ok?
    ensures var after := ApproveReview(g, db, event, superAdmin).value;
      && db.ledger <= after.ledger
      && forall r :: !ActiveIn(db, event, r) ==>
           && Net(after.ledger, r) == Net(db.ledger, r)
           && Find(after.participations, r) == Find(db.participations, r)
           && Find(after.registrations, r) == Find(db.registrations, r)
  {
    var ids := ReviewItems(db, event);
    SheetIsComplete(g, db, event, superAdmin);
    SheetKeepsInv(g, db, event, ids);
    var scored := ApproveItems(g, db, event, ids).value;
    forall r | !ActiveIn(db, event, r)
      ensures Net(scored.ledger, r) == Net(db.ledger, r)
      ensures Find(scored.participations, r) == Find(db.participations, r)
      ensures Find(scored.registrations, r) == Find(db.registrations, r)
    {
      assert r !in ids;
      OthersNet(db.ledger, scored.ledger, ids, r);
    }
  }

  lemma {:induction false} OthersNet(
    before: seq<Transaction>, after: seq<Transaction>, ids: seq<RegistrationId>, r: RegistrationId)
    requires before <= after && r !in ids
    requires forall i :: |before| <= i < |after| ==> AboutOne(after[i], ids)
    ensures Net(after, r) == Net(before, r)
    decreases |after|
  {
    if |after| > |before| {
      OthersNet(before, after[..|after| - 1], ids, r);
    } else {
      assert after == before;
    }
  }

  /** Scored on the sheet exactly when present, a KAIT student and not rejected. */
  lemma ApprovedIffEligible(g: Engine, db: Db, event: EventId, superAdmin: bool, r: RegistrationId)
    requires Inv(db) && ApproveReview(g, db, event, superAdmin).Ok? && ActiveIn(db, event, r)
    ensures var after := ApproveReview(g, db, event, superAdmin).value;
      && r in after.reviews && r in after.registrations
      && (Eligible(after.reviews[r], after.registrations[r]) <==>
           ScoredAs(after, r, after.reviews[r].role, after.reviews[r].result))
      && (Net(after.ledger, r) != 0 <==> Eligible(after.reviews[r], after.registrations[r]))
  {
    ApprovalCorrect(g, db, event, superAdmin);
    var after := ApproveReview(g, db, event, superAdmin).value;
    assert Decided(g, after, r);
    if r in after.participations {
      NetIsLivePoints(after, r);
    }
  }

  // ---- Approving again --------------------------------------------------------

  lemma DecidedItemIsFixed(g: Engine, g': Engine, db: Db, event: EventId, r: RegistrationId)
    requires ActiveIn(db, event, r) && r in db.reviews && Decided(g, db, r)
    ensures ApproveItem(g', db, event, r).Ok? ==> ApproveItem(g', db, event, r) == Ok(db)
    ensures ApproveItem(g, db, event, r) == Ok(db)
  {
  }

  lemma {:induction false} DecidedSheetIsFixed(g: Engine, g': Engine, db: Db, event: EventId, ids: seq<RegistrationId>)
    requires forall r :: r in ids ==> ActiveIn(db, event, r) && r in db.reviews && Decided(g, db, r)
    ensures ApproveItems(g', db, event, ids).Ok? ==> ApproveItems(g', db, event, ids) == Ok(db)
    ensures ApproveItems(g, db, event, ids) == Ok(db)
  {
    if ids != [] {
      var front, r := ids[..|ids| - 1], ids[|ids| - 1];
      DecidedSheetIsFixed(g, g', db, event, front);
      DecidedItemIsFixed(g, g', db, event, r);
    }
  }

  /** Reopening an approved review and approving it again with unchanged decisions restores
      the same tables and appends nothing, whatever the scoring policy says by then; under
      the same reference data a super administrator's second approval always succeeds. */
  lemma ReapprovalChangesNothing(g: Engine, g': Engine, db: Db, event: EventId, superAdmin: bool, again: bool)
    requires Inv(db) && ApproveReview(g, db, event, superAdmin).Ok?
    ensures var after := ApproveReview(g, db, event, superAdmin).value;
      && ReopenReview(after, event).Ok?
      && var reopened := ReopenReview(after, event).value;
         && (ApproveReview(g', reopened, event, again).Ok? ==> ApproveReview(g', reopened, event, again) == Ok(after))
         && ApproveReview(g, reopened, event, true) == Ok(after)
  {
    var after := ApproveReview(g, db, event, superAdmin).value;
    ApprovedSheet(g, db, event, superAdmin);
    var reopened := ReopenReview(after, event).value;
    var ids := ReviewItems(db, event);
    SheetApprovedAgain(g, g', after, reopened, event, ids);
    ListedAgain(g, g', db, reopened, event, superAdmin, again, ids);
  }

  /** What a second approval needs to know about the first. */
  lemma ApprovedSheet(g: Engine, db: Db, event: EventId, superAdmin: bool)
    requires Inv(db) && ApproveReview(g, db, event, superAdmin).Ok?
    ensures var after := ApproveReview(g, db, event, superAdmin).value; var ids := ReviewItems(db, event);
      && event in after.events && after.events[event].state == Approved && after.events[event].completed
      && after.events[event].reviewedBefore
      && after.reviews == db.reviews && after.registrations.Keys == db.registrations.Keys
      && (forall q :: q in db.registrations ==> SameAttendee(db.registrations[q], after.registrations[q]))
      && (forall r :: r in ids ==> ActiveIn(after, event, r) && r in after.reviews && Decided(g, after, r))
  {
    var ids := ReviewItems(db, event);
    SheetIsComplete(g, db, event, superAdmin);
    SheetKeepsInv(g, db, event, ids);
    var scored := ApproveItems(g, db, event, ids).value;
    forall r | r in ids
      ensures Decided(g, MarkApproved(scored, event), r)
    {
      assert Decided(g, scored, r) && ActiveIn(db, event, r);
    }
  }

  lemma SheetApprovedAgain(g: Engine, g': Engine, after: Db, reopened: Db, event: EventId, ids: seq<RegistrationId>)
    requires event in after.events && after.events[event].state == Approved && after.events[event].reviewedBefore
    requires reopened == after.(events := after.events[event := after.events[event].(state := Pending)])
    requires forall r :: r in ids ==> ActiveIn(after, event, r) && r in after.reviews && Decided(g, after, r)
    ensures ApproveSheet(g', reopened, event, ids).Ok? ==> ApproveSheet(g', reopened, event, ids) == Ok(after)
    ensures ApproveSheet(g, reopened, event, ids) == Ok(after)
  {
    forall r | r in ids
      ensures ActiveIn(reopened, event, r) && r in reopened.reviews && Decided(g, reopened, r)
    {
      assert Decided(g, after, r);
    }
    DecidedSheetIsFixed(g, g', reopened, event, ids);
    assert reopened.events[event := after.events[event]] == after.events;
  }

  /** The second approval walks the same sheet, and passes the checks under the same data. */
  lemma ListedAgain(
    g: Engine, g': Engine, db: Db, reopened: Db, event: EventId, superAdmin: bool, again: bool,
    ids: seq<RegistrationId>)
    requires ApprovalError(g, db, event, superAdmin).None? && ids == ReviewItems(db, event)
    requires reopened.reviews == db.reviews && reopened.registrations.Keys == db.registrations.Keys
    requires forall q :: q in db.registrations ==> SameAttendee(db.registrations[q], reopened.registrations[q])
    requires event in reopened.events && reopened.events[event].completed && reopened.events[event].state == Pending
    ensures ApproveReview(g', reopened, event, again).Ok? ==>
      ApproveReview(g', reopened, event, again) == ApproveSheet(g', reopened, event, ids)
    ensures ApproveReview(g, reopened, event, true) == ApproveSheet(g, reopened, event, ids)
  {
    SameListing(db, reopened, event);
    SameSheetError(db, reopened, ids, |ActiveRegistrations(db, event)|);
  }

  /** Linking registrations does not change which rows are listed. */
  lemma SameListing(db: Db, later: Db, event: EventId)
    requires later.reviews == db.reviews && later.registrations.Keys == db.registrations.Keys
    requires forall q :: q in db.registrations ==> SameAttendee(db.registrations[q], later.registrations[q])
    ensures ReviewItems(later, event) == ReviewItems(db, event)
    ensures ActiveRegistrations(later, event) == ActiveRegistrations(db, event)
  {
    assert ItemSet(later, event) == ItemSet(db, event);
    assert ActiveSet(later, event) == ActiveSet(db, event);
  }

  lemma SameSheetError(db: Db, later: Db, ids: seq<RegistrationId>, activeCount: nat)
    requires forall r :: r in ids ==> r in db.reviews && r in db.registrations
    requires later.reviews == db.reviews && later.registrations.Keys == db.registrations.Keys
    requires forall q :: q in db.registrations ==> SameAttendee(db.registrations[q], later.registrations[q])
    ensures SheetError(later, ids, activeCount) == SheetError(db, ids, activeCount)
  {
    forall r | r in ids
      ensures Stale(later, r) == Stale(db, r) && Unresolved(later, r) == Unresolved(db, r)
    {
    }
  }
}
