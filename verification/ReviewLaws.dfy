/** What the review of an event answers, in terms of the rows of the tables: which approvals
    are let through and what they leave, when a preview says what, and which decisions are
    saved. */
module ReviewLaws {
  import opened Common
  import opened ActivityModel
  import opened ActivityService
  import opened LedgerInvariant
  import opened ActivityInvariant
  import opened EventReviewing
  import opened EventReviewProofs
  import opened ActivityRuns
  import opened ActivityLaws

  // ---- Which approvals are let through ----------------------------------------

  /** An active registration of the event. */
  ghost predicate Attending(db: Db, event: EventId, r: RegistrationId) {
    r in db.registrations && db.registrations[r].event == event && db.registrations[r].active
  }

  ghost predicate AwaitsApproval(db: Db, event: EventId) {
    event in db.events && db.events[event].completed && db.events[event].state == Pending
  }

  /** Every active registration has a row of the sheet. */
  ghost predicate SheetCovers(db: Db, event: EventId) {
    forall r :: Attending(db, event, r) ==> r in db.reviews && db.reviews[r].event == event
  }

  /** No row was decided before the scanner's last mark of its registration. */
  ghost predicate SheetCurrent(db: Db, event: EventId) {
    forall r :: Attending(db, event, r) && r in db.reviews ==>
      db.registrations[r].attendedAt == db.reviews[r].scannerAttendedAt
  }

  /** No student's match with the roster is left open. */
  ghost predicate SheetResolved(db: Db, event: EventId) {
    forall r :: Attending(db, event, r) && r in db.reviews && db.registrations[r].kaitStudent ==>
      db.reviews[r].matchState != Unmatched && db.reviews[r].matchState != Ambiguous
  }

  ghost predicate ScoringSetUp(g: Engine, event: EventId) {
    g.hasLevel(event) && g.hasSeason(event) && g.usesV2(event)
  }

  /** The first check that stops an approval before its first row. */
  ghost function ApprovalRefusal(g: Engine, db: Db, event: EventId, superAdmin: bool): Option<Error> {
    if !AwaitsApproval(db, event) then Some(ReviewNotPending)
    else if db.events[event].reviewedBefore && !superAdmin then Some(Forbidden)
    else if !ScoringSetUp(g, event) then Some(ScoringSetupRequired)
    else if !SheetCovers(db, event) || !SheetCurrent(db, event) then Some(ReviewStale)
    else if !SheetResolved(db, event) then Some(RosterMatchRequired)
    else None
  }

  lemma ItemsAndAttendance(db: Db, event: EventId)
    requires ReviewsLinked(db.reviews, db.registrations)
    ensures |ReviewItems(db, event)| == |ActiveRegistrations(db, event)| <==> SheetCovers(db, event)
    ensures SheetCovers(db, event) ==> forall r :: r in ReviewItems(db, event) <==> Attending(db, event, r)
    ensures SheetCovers(db, event) ==> ReviewItems(db, event) == ActiveRegistrations(db, event)
  {
    assert ItemSet(db, event) <= ActiveSet(db, event);
    assert forall r :: r in ActiveSet(db, event) <==> Attending(db, event, r);
    assert forall r :: r in ItemSet(db, event) ==> r in db.reviews && db.reviews[r].event == event;
    if |ItemSet(db, event)| == |ActiveSet(db, event)| {
      SubsetOfSameSize(ItemSet(db, event), ActiveSet(db, event));
      forall r | Attending(db, event, r)
        ensures r in db.reviews && db.reviews[r].event == event
      {
        assert r in ItemSet(db, event);
      }
    }
    if SheetCovers(db, event) {
      assert ItemSet(db, event) == ActiveSet(db, event);
    }
  }

  lemma SheetChecks(db: Db, event: EventId)
    requires ReviewsLinked(db.reviews, db.registrations)
    ensures SheetError(db, ReviewItems(db, event), |ActiveRegistrations(db, event)|) ==
      if !SheetCovers(db, event) || !SheetCurrent(db, event) then Some(ReviewStale)
      else if !SheetResolved(db, event) then Some(RosterMatchRequired)
      else None
  {
    ItemsAndAttendance(db, event);
    if SheetCovers(db, event) {
      SheetScanned(db, event, ReviewItems(db, event));
    }
  }

  lemma SheetScanned(db: Db, event: EventId, ids: seq<RegistrationId>)
    requires forall r :: r in ids <==> Attending(db, event, r)
    requires forall r :: r in ids ==> r in db.reviews && r in db.registrations
    ensures (exists r :: r in ids && Stale(db, r)) == !SheetCurrent(db, event)
    ensures (exists r :: r in ids && Unresolved(db, r)) == !SheetResolved(db, event)
  {
  }

  lemma ChecksInOrder(g: Engine, db: Db, event: EventId, superAdmin: bool)
    requires ReviewsLinked(db.reviews, db.registrations)
    ensures ApprovalError(g, db, event, superAdmin) == ApprovalRefusal(g, db, event, superAdmin)
  {
    SheetChecks(db, event);
  }

  lemma WalkedIfChecked(g: Engine, db: Db, event: EventId, superAdmin: bool)
    ensures var error := ApprovalError(g, db, event, superAdmin);
      ApproveReview(g, db, event, superAdmin) ==
        if error.Some? then Err(error.value) else ApproveSheet(g, db, event, ReviewItems(db, event))
  {
  }

  /** An approval is stopped by the first check that fails, and by nothing else before its
      first row: then it walks the active registrations by id. */
  lemma ApprovalChecked(g: Engine, db: Db, event: EventId, superAdmin: bool)
    requires ReviewsLinked(db.reviews, db.registrations)
    ensures var refusal := ApprovalRefusal(g, db, event, superAdmin);
      ApproveReview(g, db, event, superAdmin) ==
        if refusal.Some? then Err(refusal.value) else ApproveSheet(g, db, event, ActiveRegistrations(db, event))
  {
    ItemsAndAttendance(db, event);
    ChecksInOrder(g, db, event, superAdmin);
    WalkedIfChecked(g, db, event, superAdmin);
  }

  // ---- What a successful approval leaves --------------------------------------

  /** The row is scored: the participant was present, is a KAIT student, and staff did not
      reject the match. */
  ghost predicate ToScore(db: Db, r: RegistrationId)
    requires r in db.reviews && r in db.registrations
  {
    db.reviews[r].present && db.registrations[r].kaitStudent && db.reviews[r].matchState != Rejected
  }

  /** Scored as decided and linked to the roster student, or without points. */
  ghost predicate EndsAsDecided(db: Db, after: Db, r: RegistrationId)
    requires r in db.reviews && r in db.registrations
  {
    if ToScore(db, r) then
      && r in after.participations && after.participations[r].status == Confirmed
      && after.participations[r].state == Awarded && Net(after.ledger, r) != 0
      && after.participations[r].role == Some(db.reviews[r].role)
      && after.participations[r].result == db.reviews[r].result
      && r in after.registrations && db.reviews[r].rosterPerson == Some(after.registrations[r].person)
    else
      && Net(after.ledger, r) == 0
      && (r in after.participations ==> after.participations[r].status != Confirmed)
  }

  /** What was true of the tables of every successful approval, and what it leaves. */
  lemma ApprovalSound(g: Engine, db: Db, after: Db, event: EventId, superAdmin: bool)
    requires Inv(db) && ApproveReview(g, db, event, superAdmin) == Ok(after)
    ensures event in db.events && db.events[event].completed && db.events[event].state == Pending
    ensures db.events[event].reviewedBefore ==> superAdmin
    ensures SheetCovers(db, event) && SheetCurrent(db, event) && SheetResolved(db, event)
    ensures after.events == db.events[event := db.events[event].(state := Approved, reviewedBefore := true)]
    ensures forall r :: Attending(db, event, r) ==> EndsAsDecided(db, after, r)
  {
    ApprovalChecked(g, db, event, superAdmin);
    ApprovalCorrect(g, db, event, superAdmin);
    SheetKept(g, db, after, event, superAdmin);
    forall r | Attending(db, event, r)
      ensures EndsAsDecided(db, after, r)
    {
      assert ActiveIn(db, event, r);
      assert Decided(g, after, r);
      if r in after.participations {
        NetIsLivePoints(after, r);
      }
    }
  }

  lemma SheetKept(g: Engine, db: Db, after: Db, event: EventId, superAdmin: bool)
    requires Inv(db) && ApproveReview(g, db, event, superAdmin) == Ok(after)
    ensures after.registrations.Keys == db.registrations.Keys
    ensures forall r :: r in db.registrations ==> after.registrations[r].kaitStudent == db.registrations[r].kaitStudent
    ensures after.events == db.events[event := db.events[event].(state := Approved, reviewedBefore := true)]
  {
    SheetIsComplete(g, db, event, superAdmin);
    SheetKeepsInv(g, db, event, ReviewItems(db, event));
  }

  // ---- Links ------------------------------------------------------------------

  /** The registration after the approval: a scored one whose participant was not yet the
      roster student is theirs and MATCHED, any other is as it was. */
  ghost function LinkedAs(db: Db, r: RegistrationId): Registration
    requires r in db.reviews && r in db.registrations
  {
    var reg, roster := db.registrations[r], db.reviews[r].rosterPerson;
    if ToScore(db, r) && roster.Some? && roster.value != reg.person
    then reg.(person := roster.value, rosterPerson := roster, matchState := Matched) else reg
  }

  lemma StudentLinks(g: Engine, db: Db, event: EventId, r: RegistrationId, item: Review, person: PersonId)
    requires Inv(db) && ActiveIn(db, event, r) && ApproveStudent(g, db, event, r, item, person).Ok?
    ensures ApproveStudent(g, db, event, r, item, person).value.registrations == Linked(db, r, person).registrations
  {
    var linked := Linked(db, r, person);
    LinkedKeepsInv(db, event, r, person);
    DecisionKeepsInv(g, db, linked, r, item);
    ConfirmKeepsInv(g, TakeDecision(g, linked, r, item).value, event, r, Some(item.role), item.result,
      db.registrations[r].attendedAt.None?);
  }

  lemma RowLinks(g: Engine, db: Db, event: EventId, r: RegistrationId)
    requires Inv(db) && ActiveIn(db, event, r) && r in db.reviews && ApproveItem(g, db, event, r).Ok?
    ensures ApproveItem(g, db, event, r).value.registrations == db.registrations[r := LinkedAs(db, r)]
  {
    if ToScore(db, r) {
      StudentLinks(g, db, event, r, db.reviews[r], db.reviews[r].rosterPerson.value);
    }
    assert db.registrations[r := db.registrations[r]] == db.registrations;
  }

  lemma {:induction false} SheetLinks(g: Engine, db: Db, event: EventId, ids: seq<RegistrationId>, q: RegistrationId)
    requires Inv(db) && Distinct(ids) && ApproveItems(g, db, event, ids).Ok? && q in db.registrations
    requires forall r :: r in ids ==> r in db.reviews && ActiveIn(db, event, r)
    ensures Find(ApproveItems(g, db, event, ids).value.registrations, q)
      == Some(if q in ids then LinkedAs(db, q) else db.registrations[q])
  {
    if ids != [] {
      var front, r := ids[..|ids| - 1], ids[|ids| - 1];
      assert ids == front + [r];
      assert r !in front;
      SheetLinks(g, db, event, front, q);
      SheetKeepsInv(g, db, event, front);
      NextRowLinks(g, db, ApproveItems(g, db, event, front).value, event, front, r, q);
    }
  }

  lemma NextRowLinks(
    g: Engine, db: Db, before: Db, event: EventId, front: seq<RegistrationId>, r: RegistrationId, q: RegistrationId)
    requires Inv(before) && SheetChange(db, before, front) && r !in front && r in db.reviews && r in db.registrations
    requires ActiveIn(before, event, r) && ApproveItem(g, before, event, r).Ok?
    ensures Find(ApproveItem(g, before, event, r).value.registrations, q)
      == if q == r then Some(LinkedAs(db, r)) else Find(before.registrations, q)
  {
    RowLinks(g, before, event, r);
  }

  /** An approval relinks exactly the scored registrations of somebody else. */
  lemma ApprovalLinks(g: Engine, db: Db, after: Db, event: EventId, superAdmin: bool)
    requires Inv(db) && ApproveReview(g, db, event, superAdmin) == Ok(after)
    ensures SheetCovers(db, event) && after.registrations.Keys == db.registrations.Keys
    ensures forall r :: r in db.registrations ==>
      after.registrations[r] == if Attending(db, event, r) then LinkedAs(db, r) else db.registrations[r]
  {
    ApprovalChecked(g, db, event, superAdmin);
    ItemsAndAttendance(db, event);
    MarkedSheetLinks(g, db, after, event, ActiveRegistrations(db, event));
  }

  lemma MarkedSheetLinks(g: Engine, db: Db, after: Db, event: EventId, ids: seq<RegistrationId>)
    requires Inv(db) && SheetCovers(db, event) && ApproveSheet(g, db, event, ids) == Ok(after)
    requires Distinct(ids) && forall r :: r in ids <==> Attending(db, event, r)
    ensures after.registrations.Keys == db.registrations.Keys
    ensures forall r :: r in db.registrations ==>
      after.registrations[r] == if Attending(db, event, r) then LinkedAs(db, r) else db.registrations[r]
  {
    forall r | r in db.registrations
      ensures r in after.registrations
      ensures after.registrations[r] == if Attending(db, event, r) then LinkedAs(db, r) else db.registrations[r]
    {
      SheetLinks(g, db, event, ids, r);
    }
    SheetKeepsInv(g, db, event, ids);
  }

  // ---- Rows without points ----------------------------------------------------

  /** What becomes of the participation of a row that is not to score: a confirmed one is
      cancelled, any other stays as it is. */
  ghost function Withdrawn(db: Db, r: RegistrationId): Option<Participation> {
    if r !in db.participations then None
    else
      var p := db.participations[r];
      Some(if p.status != Confirmed then p
        else p.(status := Cancelled, state := if p.state == Awarded then ReversedState else p.state))
  }

  lemma RowWithdrawn(g: Engine, db: Db, event: EventId, r: RegistrationId)
    requires Inv(db) && r in db.reviews && r in db.registrations && !ToScore(db, r)
    requires ApproveItem(g, db, event, r).Ok?
    ensures Find(ApproveItem(g, db, event, r).value.participations, r) == Withdrawn(db, r)
  {
    if r in db.participations {
      CancelAnswered(db, r);
    }
  }

  lemma {:induction false} SheetWithdraws(
    g: Engine, db: Db, event: EventId, ids: seq<RegistrationId>, q: RegistrationId)
    requires Inv(db) && Distinct(ids) && ApproveItems(g, db, event, ids).Ok?
    requires forall r :: r in ids ==> r in db.reviews && ActiveIn(db, event, r)
    requires q in db.reviews && q in db.registrations && !ToScore(db, q)
    ensures Find(ApproveItems(g, db, event, ids).value.participations, q)
      == if q in ids then Withdrawn(db, q) else Find(db.participations, q)
  {
    if ids != [] {
      var front, r := ids[..|ids| - 1], ids[|ids| - 1];
      assert ids == front + [r];
      assert r !in front;
      SheetWithdraws(g, db, event, front, q);
      SheetKeepsInv(g, db, event, front);
      NextRowWithdraws(g, db, ApproveItems(g, db, event, front).value, event, front, r, q);
    }
  }

  lemma NextRowWithdraws(
    g: Engine, db: Db, before: Db, event: EventId, front: seq<RegistrationId>, r: RegistrationId, q: RegistrationId)
    requires Inv(before) && SheetChange(db, before, front) && r !in front && r in db.reviews
    requires ActiveIn(before, event, r) && ApproveItem(g, before, event, r).Ok?
    requires q in db.reviews && q in db.registrations && !ToScore(db, q)
    ensures var after := ApproveItem(g, before, event, r).value;
      Find(after.participations, q) == if q == r then Withdrawn(db, q) else Find(before.participations, q)
  {
    if q == r {
      UnreachedAlike(db, before, front, r);
      RowWithdrawn(g, before, event, r);
    } else {
      ItemKeepsOthers(g, before, event, r, q);
    }
  }

  lemma UnreachedAlike(db: Db, mid: Db, done: seq<RegistrationId>, r: RegistrationId)
    requires SheetChange(db, mid, done) && r !in done && r in db.reviews && r in db.registrations
    ensures r in mid.reviews && r in mid.registrations && ToScore(mid, r) == ToScore(db, r)
    ensures Withdrawn(mid, r) == Withdrawn(db, r)
  {
  }

  lemma ItemKeepsOthers(g: Engine, db: Db, event: EventId, r: RegistrationId, q: RegistrationId)
    requires Inv(db) && ActiveIn(db, event, r) && r in db.reviews && ApproveItem(g, db, event, r).Ok? && q != r
    ensures Find(ApproveItem(g, db, event, r).value.participations, q) == Find(db.participations, q)
  {
    ItemKeepsInv(g, db, event, r);
  }

  /** An approval cancels exactly the confirmed participations of rows that are not to score. */
  lemma ApprovalWithdraws(g: Engine, db: Db, after: Db, event: EventId, superAdmin: bool, r: RegistrationId)
    requires Inv(db) && ApproveReview(g, db, event, superAdmin) == Ok(after)
    requires Attending(db, event, r) && r in db.reviews && !ToScore(db, r)
    ensures Find(after.participations, r) == Withdrawn(db, r)
  {
    SheetIsComplete(g, db, event, superAdmin);
    SheetWithdraws(g, db, event, ReviewItems(db, event), r);
  }

  /** Only an approved review of a completed event is reopened, and then waits again. */
  lemma ReopenAnswered(db: Db, event: EventId)
    ensures var outcome := ReopenReview(db, event);
      if event !in db.events || !db.events[event].completed || db.events[event].state != Approved then
        outcome == Err(ReviewNotApproved)
      else
        outcome == Ok(db.(events := db.events[event := db.events[event].(state := Pending)]))
  {
  }

  // ---- Counters ---------------------------------------------------------------

  /** The rows of the sheet that meet the condition. */
  ghost function Among(ids: seq<RegistrationId>, meets: RegistrationId -> bool): set<RegistrationId> {
    set r | r in ids && meets(r)
  }

  lemma AmongOneMore(ids: seq<RegistrationId>, meets: RegistrationId -> bool)
    requires Distinct(ids) && ids != []
    ensures var front, last := ids[..|ids| - 1], ids[|ids| - 1];
      |Among(ids, meets)| == |Among(front, meets)| + if meets(last) then 1 else 0
  {
    var front, last := ids[..|ids| - 1], ids[|ids| - 1];
    assert ids == front + [last];
    assert last !in front;
    assert Among(ids, meets) == if meets(last) then Among(front, meets) + {last} else Among(front, meets);
  }

  ghost function IsPresent(db: Db): RegistrationId -> bool {
    r => r in db.reviews && db.reviews[r].present
  }

  ghost function IsAbsent(db: Db): RegistrationId -> bool {
    r => r in db.reviews && !db.reviews[r].present
  }

  ghost function IsToScore(db: Db): RegistrationId -> bool {
    r => r in db.reviews && r in db.registrations && ToScore(db, r)
  }

  /** The counters an approval returns are the numbers of rows of each kind. */
  lemma {:induction false} CountsAreSizes(db: Db, ids: seq<RegistrationId>)
    requires Distinct(ids) && forall r :: r in ids ==> r in db.reviews && r in db.registrations
    ensures Count(db, ids) ==
      Summary(|ids|, |Among(ids, IsPresent(db))|, |Among(ids, IsAbsent(db))|, |Among(ids, IsToScore(db))|)
  {
    if ids == [] {
      assert Among(ids, IsPresent(db)) == Among(ids, IsAbsent(db)) == Among(ids, IsToScore(db)) == {};
    } else {
      CountsAreSizes(db, ids[..|ids| - 1]);
      AmongOneMore(ids, IsPresent(db));
      AmongOneMore(ids, IsAbsent(db));
      AmongOneMore(ids, IsToScore(db));
    }
  }

  // ---- Preparation ------------------------------------------------------------

  /** The first row of a registration: what the scanner saw, the participation's role and
      result as far as it has them, and the registration's own link. */
  ghost predicate FirstRow(db: Db, event: EventId, r: RegistrationId, defaultRole: RoleId, row: Review)
    requires r in db.registrations
  {
    && row.event == event && row.present == db.registrations[r].attendedAt.Some?
    && row.scannerAttendedAt == db.registrations[r].attendedAt
    && row.rosterPerson == db.registrations[r].rosterPerson && row.matchState == db.registrations[r].matchState
    && row.reason.None? && row.reviewedAt.None?
    && row.role == (if r in db.participations && db.participations[r].role.Some?
         then db.participations[r].role.value else defaultRole)
    && row.result == if r in db.participations then db.participations[r].result else None
  }

  /** Rows are only added, for active registrations that had none, and the event is completed
      and, unless it was reviewed before, waits for approval. */
  ghost predicate PreparedFrom(db: Db, after: Db, event: EventId, defaultRole: RoleId) {
    && event in db.events
    && after == db.(reviews := after.reviews, events := db.events[event := db.events[event].(completed := true,
         state := if db.events[event].state == NotStarted then Pending else db.events[event].state)])
    && (forall r :: r in after.reviews <==> r in db.reviews || Attending(db, event, r))
    && (forall r :: r in db.reviews ==> after.reviews[r] == db.reviews[r])
    && forall r :: Attending(db, event, r) && r !in db.reviews ==> FirstRow(db, event, r, defaultRole, after.reviews[r])
  }

  /** The answer to completing a reviewed event. */
  lemma PrepareAnswered(db: Db, event: EventId, defaultRole: Option<RoleId>)
    requires Inv(db)
    ensures var outcome := PrepareReview(db, event, defaultRole);
      if defaultRole.None? then outcome == Err(RoleRequired)
      else if event !in db.events then outcome == Err(ReviewNotPending)
      else if |set r | r in db.registrations && Attending(db, event, r)| > 5000 then outcome == Err(Conflict)
      else outcome.Ok? && PreparedFrom(db, outcome.value, event, defaultRole.value)
  {
    assert ActiveSet(db, event) == set r | r in db.registrations && Attending(db, event, r);
    if PrepareReview(db, event, defaultRole).Ok? {
      PreparedRows(db, PrepareReview(db, event, defaultRole).value, event, defaultRole);
    }
  }

  lemma PreparedRows(db: Db, after: Db, event: EventId, defaultRole: Option<RoleId>)
    requires Inv(db) && PrepareReview(db, event, defaultRole) == Ok(after)
    ensures PreparedFrom(db, after, event, defaultRole.value)
  {
    PrepareKeepsInv(db, event, defaultRole);
    forall r | Attending(db, event, r) && r !in db.reviews
      ensures r in after.reviews && FirstRow(db, event, r, defaultRole.value, after.reviews[r])
    {
      assert ActiveIn(db, event, r);
    }
  }

  // ---- One decision -----------------------------------------------------------

  /** The first check that refuses to save a decision. */
  ghost function DecisionRefusal(
    g: Engine, db: Db, event: EventId, r: RegistrationId, d: Decision, tenant: nat, expected: ReviewVersion)
    : Option<Error>
  {
    if r !in db.reviews || db.reviews[r].event != event || r !in db.registrations then Some(ReviewItemNotFound)
    else if expected != ReviewVersion(db.reviews[r], db.registrations[r].attendedAt) then Some(ReviewItemChanged)
    else if d.rosterPerson.Some? && NumberKept(db, r).Some? && db.participations[r].person != d.rosterPerson.value then
      Some(ReviewIdentityLocked)
    else if !KnownReferences(g, d.role, d.result) then Some(InvalidReference)
    else if d.rejectMatch && d.rosterPerson.Some? then Some(Validation)
    else if d.rosterPerson.Some? && !RosterStudent(db, d.rosterPerson.value, tenant) then Some(RosterPersonNotFound)
    else None
  }

  /** A current student of the tenant who is on the roster. */
  ghost predicate RosterStudent(db: Db, person: PersonId, tenant: nat) {
    && person in db.roster && person in db.persons && db.persons[person].tenant == tenant
    && db.persons[person].kaitStudent && db.persons[person].mergedInto.None?
  }

  /** The saved row, seen at the current scanner mark. */
  ghost predicate SavedAs(db: Db, r: RegistrationId, d: Decision, now: int, saved: Review)
    requires r in db.reviews && r in db.registrations
  {
    && saved.event == db.reviews[r].event && saved.present == d.present
    && saved.scannerAttendedAt == db.registrations[r].attendedAt
    && saved.role == d.role && saved.result == d.result && saved.reason == Some(d.reason)
    && saved.reviewedAt == Some(now) && saved.rosterPerson == d.rosterPerson
    && saved.matchState == match db.registrations[r].kaitStudent
         case false => NotApplicable
         case true => if d.rejectMatch then Rejected
           else if d.rosterPerson.Some? then Matched else db.reviews[r].matchState
  }

  /** The answer to a decision. */
  lemma DecisionAnswered(
    g: Engine, db: Db, event: EventId, r: RegistrationId, d: Decision, tenant: nat, expected: ReviewVersion, now: int)
    returns (saved: Review)
    ensures var outcome, refusal := UpdateReviewItem(g, db, event, r, d, tenant, expected, now),
        DecisionRefusal(g, db, event, r, d, tenant, expected);
      if refusal.Some? then outcome == Err(refusal.value)
      else SavedAs(db, r, d, now, saved) && outcome == Ok(db.(reviews := db.reviews[r := saved]))
  {
    var outcome := UpdateReviewItem(g, db, event, r, d, tenant, expected, now);
    saved := if outcome.Ok? && r in outcome.value.reviews then outcome.value.reviews[r]
      else Review(0, false, None, 0, None, None, NotApplicable, None, None);
  }
}
