/** What checking a link when a decision is saved is worth: in an event that was scored by
    review from the start, a numbered participation and the review row of its registration
    name the same student after any history, so no preview or approval meets the conflict. */
module ReviewLinks {
  import opened Common
  import opened ActivityModel
  import opened ActivityService
  import opened ActivityInvariant
  import opened PersonMerge
  import opened PersonMergeProofs
  import opened EventReviewing
  import opened EventReviewProofs
  import opened PreviewProofs
  import opened ActivityRuns
  import opened PreviewRuns
  import ScoringEngine

  /** The participation has a number that only an approval can have given it. */
  ghost predicate NumberedByApproval(db: Db, upgraded: set<EventId>, r: RegistrationId)
    requires r in db.participations
  {
    var p := db.participations[r];
    ByReview(db, p.event) && p.event !in upgraded && p.sequence.Some?
  }

  ghost predicate NamesNobodyElse(db: Db, r: RegistrationId)
    requires r in db.participations
  {
    && r in db.reviews
    && (db.reviews[r].rosterPerson.Some? ==> db.reviews[r].rosterPerson.value == db.participations[r].person)
  }

  ghost predicate LinksAgree(db: Db, upgraded: set<EventId>) {
    forall r :: r in db.participations && NumberedByApproval(db, upgraded, r) ==> NamesNobodyElse(db, r)
  }

  // ---- Operations other than decisions and approvals --------------------------

  /** Nothing got a number, and no review row lost or changed its link. */
  ghost predicate NoNewNumber(db: Db, after: Db, upgraded: set<EventId>, r: RegistrationId)
    requires r in after.participations
  {
    NumberedByApproval(after, upgraded, r) ==>
      && r in db.participations && db.participations[r].sequence.Some?
      && after.participations[r].person == db.participations[r].person
      && after.participations[r].event == db.participations[r].event
  }

  ghost predicate LinksKept(db: Db, after: Db) {
    forall r :: r in db.reviews ==> r in after.reviews && after.reviews[r].rosterPerson == db.reviews[r].rosterPerson
  }

  lemma KeptAgree(db: Db, after: Db, upgraded: set<EventId>, more: set<EventId>)
    requires Attributed(db, upgraded) && LinksAgree(db, upgraded) && upgraded <= more && LinksKept(db, after)
    requires forall e :: e in db.events && e !in more ==> ByReview(after, e) == ByReview(db, e)
    requires forall r :: r in after.participations ==> NoNewNumber(db, after, more, r)
    ensures LinksAgree(after, more)
  {
    forall r | r in after.participations && NumberedByApproval(after, more, r)
      ensures NamesNobodyElse(after, r)
    {
      assert NoNewNumber(db, after, more, r);
      assert RowAttributed(db, upgraded, r);
      assert NumberedByApproval(db, upgraded, r);
    }
  }

  lemma LocalAgree(db: Db, after: Db, upgraded: set<EventId>, r: RegistrationId)
    requires Attributed(db, upgraded) && LinksAgree(db, upgraded) && LocalChange(db, after, r)
    requires NoNewNumber(db, after, upgraded, r)
    ensures LinksAgree(after, upgraded)
  {
    forall q | q in after.participations
      ensures NoNewNumber(db, after, upgraded, q)
    {
    }
    KeptAgree(db, after, upgraded, upgraded);
  }

  lemma AssignAgrees(
    g: Engine, db: Db, upgraded: set<EventId>, event: EventId, r: RegistrationId, role: RoleId,
    result: Option<ResultId>)
    requires Inv(db) && Attributed(db, upgraded) && LinksAgree(db, upgraded)
    requires AssignParticipation(g, db, event, r, role, result).Ok?
    ensures LinksAgree(AssignParticipation(g, db, event, r, role, result).value, upgraded)
  {
    AssignKeepsInv(g, db, event, r, role, result);
    if r in db.participations {
      assert RowAttributed(db, upgraded, r);
    }
    LocalAgree(db, AssignParticipation(g, db, event, r, role, result).value, upgraded, r);
  }

  lemma DirectAgrees(g: Engine, db: Db, after: Db, upgraded: set<EventId>, op: Operation)
    requires Inv(db) && Attributed(db, upgraded) && LinksAgree(db, upgraded) && Perform(g, db, op) == Ok(after)
    requires op.Confirm? || op.Cancel? || op.Update? || op.Assign?
    ensures LinksAgree(after, upgraded)
  {
    if op.Assign? {
      AssignAgrees(g, db, upgraded, op.event, op.r, op.draftRole, op.result);
    } else {
      DirectIsLocal(g, db, after, op);
      UnreviewedAgree(db, after, upgraded, op.r);
    }
  }

  /** A confirmation or correction that is admitted is outside reviewed events. */
  lemma DirectIsLocal(g: Engine, db: Db, after: Db, op: Operation)
    requires Inv(db) && Perform(g, db, op) == Ok(after) && (op.Confirm? || op.Cancel? || op.Update?)
    ensures LocalChange(db, after, op.r) && !ByReview(db, after.participations[op.r].event)
  {
    match op
    case Confirm(event, r, role, result, allow) => ConfirmKeepsInv(g, db, event, r, role, result, allow);
    case Cancel(r) => CancelKeepsInv(db, r);
    case Update(r, role, result) => UpdateKeepsInv(g, db, r, role, result);
  }

  /** Numbers given outside reviewed events do not matter. */
  lemma UnreviewedAgree(db: Db, after: Db, upgraded: set<EventId>, r: RegistrationId)
    requires Attributed(db, upgraded) && LinksAgree(db, upgraded) && LocalChange(db, after, r)
    requires !ByReview(db, after.participations[r].event)
    ensures LinksAgree(after, upgraded)
  {
    LocalAgree(db, after, upgraded, r);
  }

  // ---- Decisions --------------------------------------------------------------

  lemma DecisionAgrees(
    g: Engine, db: Db, after: Db, upgraded: set<EventId>, event: EventId, r: RegistrationId, d: Decision, tenant: nat,
    expected: ReviewVersion, now: int)
    requires LinksAgree(db, upgraded) && UpdateReviewItem(g, db, event, r, d, tenant, expected, now) == Ok(after)
    ensures LinksAgree(after, upgraded)
  {
    SavedDecision(g, db, after, event, r, d, tenant, expected, now);
    forall q | q in after.participations && NumberedByApproval(after, upgraded, q)
      ensures NamesNobodyElse(after, q)
    {
      assert NumberedByApproval(db, upgraded, q);
    }
  }

  // ---- Approvals --------------------------------------------------------------

  lemma ItemAgrees(g: Engine, db: Db, after: Db, upgraded: set<EventId>, event: EventId, r: RegistrationId)
    requires Inv(db) && Attributed(db, upgraded) && LinksAgree(db, upgraded) && ActiveIn(db, event, r)
    requires r in db.reviews && ByReview(db, event) && ApproveItem(g, db, event, r) == Ok(after)
    ensures LinksAgree(after, upgraded)
  {
    ItemKeepsInv(g, db, event, r);
    forall q | q in after.participations && NumberedByApproval(after, upgraded, q)
      ensures NamesNobodyElse(after, q)
    {
      if q != r {
        assert NumberedByApproval(db, upgraded, q);
      } else if Eligible(db.reviews[r], db.registrations[r]) {
        assert event !in upgraded;
        ReachedRowLinked(g, db, after, upgraded, event, r);
      } else {
        assert NumberedByApproval(db, upgraded, r);
      }
    }
  }

  lemma {:induction false} SheetAgrees(
    g: Engine, db: Db, upgraded: set<EventId>, event: EventId, ids: seq<RegistrationId>)
    requires Inv(db) && Attributed(db, upgraded) && LinksAgree(db, upgraded) && g.usesV2(event) && ByReview(db, event)
    requires Distinct(ids) && ApproveItems(g, db, event, ids).Ok?
    requires forall r :: r in ids ==> r in db.reviews && ActiveIn(db, event, r)
    ensures LinksAgree(ApproveItems(g, db, event, ids).value, upgraded)
  {
    if ids != [] {
      var front, r := ids[..|ids| - 1], ids[|ids| - 1];
      SheetAgrees(g, db, upgraded, event, front);
      SheetAttributed(g, db, upgraded, event, front);
      var mid := ReachedRow(g, db, event, ids);
      ItemAgrees(g, mid, ApproveItems(g, db, event, ids).value, upgraded, event, r);
    }
  }

  // ---- Merges -----------------------------------------------------------------

  lemma MovedAgree(before: Db, after: Db, upgraded: set<EventId>, target: PersonId, source: PersonId)
    requires LinksAgree(before, upgraded) && after.participations.Keys == before.participations.Keys
    requires after.reviews == MovedReviews(before.reviews, target, source) && after.events == before.events
    requires forall r :: r in before.participations ==>
      OwnerMoved(before.participations[r], after.participations[r], target, source)
    requires forall r :: r in after.participations && NumberedByApproval(after, upgraded, r) ==>
      before.participations[r].sequence.Some?
    ensures LinksAgree(after, upgraded)
  {
    forall r | r in after.participations && NumberedByApproval(after, upgraded, r)
      ensures NamesNobodyElse(after, r)
    {
      assert OwnerMoved(before.participations[r], after.participations[r], target, source);
      assert NumberedByApproval(before, upgraded, r);
      assert NamesNobodyElse(before, r);
    }
  }

  /** What an approval numbered was numbered before. */
  lemma OrderedRowsNumbered(
    db: Db, after: Db, upgraded: set<EventId>, target: PersonId, source: PersonId, order: seq<RegistrationId>)
    requires Attributed(db, upgraded) && ValidOrder(db, target, source, order)
    requires after.events == db.events && after.participations.Keys == db.participations.Keys
    requires forall r :: r in db.participations ==>
      && OwnerMoved(db.participations[r], after.participations[r], target, source)
      && (r !in order && after.participations[r].sequence.Some? ==> db.participations[r].sequence.Some?)
    ensures forall r :: r in after.participations && NumberedByApproval(after, upgraded, r) ==>
      db.participations[r].sequence.Some?
  {
    forall r | r in after.participations && NumberedByApproval(after, upgraded, r)
      ensures db.participations[r].sequence.Some?
    {
      assert RowAttributed(db, upgraded, r);
    }
  }

  lemma OrderedMergeAgrees(
    g: Engine, db: Db, after: Db, upgraded: set<EventId>, target: PersonId, source: PersonId,
    order: seq<RegistrationId>, version: seq<OrderRow>)
    requires Inv(db) && Attributed(db, upgraded) && LinksAgree(db, upgraded)
    requires target != source && !BothRegistered(db, target, source)
    requires ApplyOrderedPersonMerge(g, db, target, source, order, version) == Ok(after)
    ensures LinksAgree(after, upgraded)
  {
    AcceptedOrderValid(g, db, target, source, order, version);
    OrderedMergeKeepsRest(g, db, after, target, source, order, version);
    OrderedMergeRows(g, db, after, target, source, order, version);
    OrderedRowsNumbered(db, after, upgraded, target, source, order);
    MovedAgree(db, after, upgraded, target, source);
  }

  lemma MergeAgrees(
    g: Engine, db: Db, after: Db, upgraded: set<EventId>, target: PersonId, source: PersonId, tenant: nat,
    order: Option<seq<RegistrationId>>, version: Option<seq<OrderRow>>)
    requires Inv(db) && Attributed(db, upgraded) && LinksAgree(db, upgraded)
    requires MergePerson(g, db, target, source, tenant, order, version) == Ok(after)
    ensures LinksAgree(after, upgraded)
  {
    if MergeConflicts(db, target, source) == [] {
      MovedAgree(db, after, upgraded, target, source);
    } else {
      OnlySequencesClash(db, target, source);
      OrderedMergeAgrees(g, db, after, upgraded, target, source, order.value, version.value);
    }
  }

  // ---- Every run --------------------------------------------------------------

  lemma ApproveAgrees(g: Engine, db: Db, after: Db, upgraded: set<EventId>, event: EventId, superAdmin: bool)
    requires Inv(db) && Attributed(db, upgraded) && LinksAgree(db, upgraded)
    requires ApproveReview(g, db, event, superAdmin) == Ok(after)
    ensures LinksAgree(after, upgraded)
  {
    SheetIsComplete(g, db, event, superAdmin);
    SheetAttributed(g, db, upgraded, event, ReviewItems(db, event));
    SheetAgrees(g, db, upgraded, event, ReviewItems(db, event));
    MarkAgrees(ApproveItems(g, db, event, ReviewItems(db, event)).value, upgraded, event);
  }

  lemma MarkAgrees(db: Db, upgraded: set<EventId>, event: EventId)
    requires Attributed(db, upgraded) && LinksAgree(db, upgraded)
    ensures LinksAgree(MarkApproved(db, event), upgraded)
  {
    KeptAgree(db, MarkApproved(db, event), upgraded, upgraded);
  }

  /** Operations that touch no participation but perhaps events, registrations or new review
      rows. */
  lemma PrepareAgrees(db: Db, after: Db, upgraded: set<EventId>, event: EventId, defaultRole: Option<RoleId>)
    requires Inv(db) && Attributed(db, upgraded) && LinksAgree(db, upgraded)
    requires PrepareReview(db, event, defaultRole) == Ok(after)
    ensures LinksAgree(after, upgraded)
  {
    PrepareKeepsInv(db, event, defaultRole);
    KeptAgree(db, after, upgraded, upgraded);
  }

  lemma ElsewhereAgrees(g: Engine, db: Db, after: Db, upgraded: set<EventId>, op: Operation)
    requires Attributed(db, upgraded) && LinksAgree(db, upgraded) && Perform(g, db, op) == Ok(after)
    requires op.Adjust? || op.RequireReview? || (LeavesScores(op) && !op.Prepare? && !op.Decide?)
    ensures LinksAgree(after, Upgrades(upgraded, op))
  {
    if op.AddEvent? || op.EditStatus? || op.Reopen? || op.RequireReview? {
      EventsAgree(g, db, after, upgraded, op);
    } else if op.Register? || op.Attend? || op.Annul? {
      RegistrationsAgree(g, db, after, upgraded, op);
    } else {
      KeptAgree(db, after, upgraded, upgraded);
    }
  }

  lemma RegistrationsAgree(g: Engine, db: Db, after: Db, upgraded: set<EventId>, op: Operation)
    requires Attributed(db, upgraded) && LinksAgree(db, upgraded) && Perform(g, db, op) == Ok(after)
    requires op.Register? || op.Attend? || op.Annul?
    ensures LinksAgree(after, upgraded)
  {
    KeptAgree(db, after, upgraded, upgraded);
  }

  lemma EventsAgree(g: Engine, db: Db, after: Db, upgraded: set<EventId>, op: Operation)
    requires Attributed(db, upgraded) && LinksAgree(db, upgraded) && Perform(g, db, op) == Ok(after)
    requires op.AddEvent? || op.EditStatus? || op.Reopen? || op.RequireReview?
    ensures LinksAgree(after, Upgrades(upgraded, op))
  {
    KeptAgree(db, after, upgraded, Upgrades(upgraded, op));
  }

  lemma OperationAgrees(g: Engine, db: Db, after: Db, upgraded: set<EventId>, op: Operation)
    requires Inv(db) && Attributed(db, upgraded) && LinksAgree(db, upgraded) && Perform(g, db, op) == Ok(after)
    ensures LinksAgree(after, Upgrades(upgraded, op))
  {
    if op.Confirm? || op.Cancel? || op.Update? || op.Assign? {
      DirectAgrees(g, db, after, upgraded, op);
    } else if op.Approve? {
      ApproveAgrees(g, db, after, upgraded, op.event, op.superAdmin);
    } else if op.MergeInto? {
      MergeAgrees(g, db, after, upgraded, op.target, op.source, op.tenant, op.order, op.version);
    } else if op.Prepare? {
      PrepareAgrees(db, after, upgraded, op.event, op.defaultRole);
    } else if op.Decide? {
      DecisionAgrees(g, db, after, upgraded, op.event, op.r, op.decision, op.tenant, op.expected, op.now);
    } else {
      ElsewhereAgrees(g, db, after, upgraded, op);
    }
  }

  lemma MoreAgree(db: Db, upgraded: set<EventId>, more: set<EventId>)
    requires LinksAgree(db, upgraded) && upgraded <= more
    ensures LinksAgree(db, more)
  {
    forall r | r in db.participations && NumberedByApproval(db, more, r)
      ensures NamesNobodyElse(db, r)
    {
      assert NumberedByApproval(db, upgraded, r);
    }
  }

  lemma {:induction false} EveryRunLinksAgree(steps: seq<Step>)
    ensures LinksAgree(Run(EMPTY, steps), Upgraded(steps))
    decreases |steps|
  {
    if |steps| > 0 {
      var front, s := steps[..|steps| - 1], steps[|steps| - 1];
      EveryRunLinksAgree(front);
      EveryRunAttributed(front);
      if Perform(s.engine, Run(EMPTY, front), s.op).Ok? {
        OperationAgrees(s.engine, Run(EMPTY, front), Run(EMPTY, steps), Upgraded(front), s.op);
      } else {
        MoreAgree(Run(EMPTY, front), Upgraded(front), Upgraded(steps));
      }
    }
  }

  // ---- The conflict that never comes ------------------------------------------

  /** The scoring rules fail for reasons of their own. */
  ghost predicate ScoringErrorsOnly(g: Engine) {
    && (forall statuses, e, p, role, result, n ::
         g.v2Points(statuses, e, p, role, result, n) !in {Failure(ReviewIdentityLocked), Missing(ReviewIdentityLocked)})
    && (forall e, role, result :: g.v1Points(e, role, result) != Failure(ReviewIdentityLocked))
  }

  /** The rules of the service do. */
  lemma ServiceRulesFailOnTheirOwn(c: ScoringEngine.Catalog)
    ensures ScoringErrorsOnly(ScoringEngine.EngineOf(c))
  {
    var g := ScoringEngine.EngineOf(c);
    forall statuses, e, p, role, result, n
      ensures g.v2Points(statuses, e, p, role, result, n)
        !in {Failure(ReviewIdentityLocked), Missing(ReviewIdentityLocked)}
    {
      assert g.v2Points(statuses, e, p, role, result, n) ==
        ScoringEngine.CalculatePoints(c, statuses, e, p, role, result, n);
    }
    forall e, role, result
      ensures g.v1Points(e, role, result) != Failure(ReviewIdentityLocked)
    {
      assert g.v1Points(e, role, result) == ScoringEngine.RulePoints(c, e, role, result);
    }
  }

  lemma AwardNotLocked(g: Engine, db: Db, r: RegistrationId)
    requires ScoringErrorsOnly(g)
    ensures AwardScore(g, db, r) != Err(ReviewIdentityLocked)
  {
  }

  lemma ConfirmNotLocked(
    g: Engine, db: Db, event: EventId, r: RegistrationId, role: Option<RoleId>, result: Option<ResultId>, allow: bool)
    requires ScoringErrorsOnly(g)
    ensures ConfirmRegistration(g, db, event, r, role, result, allow) != Err(ReviewIdentityLocked)
  {
    if r in db.registrations {
      var existing := Find(db.participations, r);
      var newRole := OrElse(role, if existing.Some? then existing.value.role else None);
      var newResult := OrElse(result, if existing.Some? then existing.value.result else None);
      if newRole.Some? {
        AwardNotLocked(g, Opened(db, r, newRole.value, newResult), r);
      }
    }
  }

  lemma UpdateNotLocked(g: Engine, db: Db, r: RegistrationId, role: Field, result: Field)
    requires ScoringErrorsOnly(g)
    ensures UpdateParticipation(g, db, r, role, result) != Err(ReviewIdentityLocked)
  {
    if r in db.participations {
      var p := db.participations[r];
      AwardNotLocked(g, Reclassified(db, r, Patched(role, p.role), Patched(result, p.result)), r);
    }
  }

  /** The row's student is the one its participation was numbered for. */
  lemma SameStudent(db: Db, upgraded: set<EventId>, event: EventId, r: RegistrationId)
    requires Inv(db) && Attributed(db, upgraded) && LinksAgree(db, upgraded) && ActiveIn(db, event, r)
    requires r in db.reviews && ByReview(db, event) && event !in upgraded && db.reviews[r].rosterPerson.Some?
    ensures Stored(db, r).Some? ==>
      db.registrations[r].person == db.participations[r].person == db.reviews[r].rosterPerson.value
  {
    if r in db.participations && db.participations[r].sequence.Some? {
      assert RowAttributed(db, upgraded, r);
      assert NumberedByApproval(db, upgraded, r);
    }
  }

  lemma PreviewNotLocked(g: Engine, db: Db, upgraded: set<EventId>, event: EventId, r: RegistrationId)
    requires Inv(db) && Attributed(db, upgraded) && LinksAgree(db, upgraded) && ActiveIn(db, event, r)
    requires r in db.reviews && ByReview(db, event) && event !in upgraded && ScoringErrorsOnly(g)
    ensures PreviewItem(g, db, event, r) != Blocked(ReviewIdentityLocked)
  {
    if db.reviews[r].rosterPerson.Some? {
      SameStudent(db, upgraded, event, r);
      UnlockedPreview(g, db, event, r);
    }
  }

  lemma UnlockedPreview(g: Engine, db: Db, event: EventId, r: RegistrationId)
    requires r in db.reviews && r in db.registrations && ScoringErrorsOnly(g) && db.reviews[r].rosterPerson.Some?
    requires Stored(db, r).Some? ==> db.participations[r].person == db.reviews[r].rosterPerson.value
    ensures PreviewItem(g, db, event, r) != Blocked(ReviewIdentityLocked)
  {
  }

  lemma ItemNotLocked(g: Engine, db: Db, upgraded: set<EventId>, event: EventId, r: RegistrationId)
    requires Inv(db) && Attributed(db, upgraded) && LinksAgree(db, upgraded) && ActiveIn(db, event, r)
    requires r in db.reviews && ByReview(db, event) && event !in upgraded && ScoringErrorsOnly(g)
    ensures ApproveItem(g, db, event, r) != Err(ReviewIdentityLocked)
  {
    var item := db.reviews[r];
    if item.rosterPerson.Some? {
      SameStudent(db, upgraded, event, r);
      StudentNotLocked(g, db, event, r, item, item.rosterPerson.value);
    }
  }

  lemma StudentNotLocked(g: Engine, db: Db, event: EventId, r: RegistrationId, item: Review, person: PersonId)
    requires r in db.registrations && ScoringErrorsOnly(g)
    requires Stored(db, r).Some? ==> db.registrations[r].person == person
    ensures ApproveStudent(g, db, event, r, item, person) != Err(ReviewIdentityLocked)
  {
    var linked := Linked(db, r, person);
    UpdateNotLocked(g, linked, r, Set(Some(item.role)), Set(item.result));
    if TakeDecision(g, linked, r, item).Ok? {
      var updated := TakeDecision(g, linked, r, item).value;
      ConfirmNotLocked(g, updated, event, r, Some(item.role), item.result, db.registrations[r].attendedAt.None?);
    }
  }

  lemma {:induction false} SheetNotLocked(
    g: Engine, db: Db, upgraded: set<EventId>, event: EventId, ids: seq<RegistrationId>)
    requires Inv(db) && Attributed(db, upgraded) && LinksAgree(db, upgraded) && g.usesV2(event) && ByReview(db, event)
    requires Distinct(ids) && event !in upgraded && ScoringErrorsOnly(g)
    requires forall r :: r in ids ==> r in db.reviews && ActiveIn(db, event, r)
    ensures ApproveItems(g, db, event, ids) != Err(ReviewIdentityLocked)
  {
    if ids != [] {
      var front, r := ids[..|ids| - 1], ids[|ids| - 1];
      SheetNotLocked(g, db, upgraded, event, front);
      if ApproveItems(g, db, event, front).Ok? {
        SheetAgrees(g, db, upgraded, event, front);
        SheetAttributed(g, db, upgraded, event, front);
      var mid := ReachedRow(g, db, event, ids);
        ItemNotLocked(g, mid, upgraded, event, r);
      }
    }
  }

  lemma ApprovalNotLocked(g: Engine, db: Db, upgraded: set<EventId>, event: EventId, superAdmin: bool)
    requires Inv(db) && Attributed(db, upgraded) && LinksAgree(db, upgraded)
    requires event !in upgraded && ScoringErrorsOnly(g)
    ensures ApproveReview(g, db, event, superAdmin) != Err(ReviewIdentityLocked)
  {
    if ApprovalError(g, db, event, superAdmin).None? {
      SheetIsComplete(g, db, event, superAdmin);
      PassedIsReviewed(g, db, upgraded, event, superAdmin);
      SheetNotLocked(g, db, upgraded, event, ReviewItems(db, event));
      assert ApproveReview(g, db, event, superAdmin) == ApproveSheet(g, db, event, ReviewItems(db, event));
    } else {
      ChecksNotLocked(g, db, event, superAdmin);
    }
  }

  lemma PassedIsReviewed(g: Engine, db: Db, upgraded: set<EventId>, event: EventId, superAdmin: bool)
    requires Attributed(db, upgraded) && ApprovalError(g, db, event, superAdmin).None?
    ensures g.usesV2(event) && ByReview(db, event)
  {
  }

  lemma ChecksNotLocked(g: Engine, db: Db, event: EventId, superAdmin: bool)
    requires ApprovalError(g, db, event, superAdmin).Some?
    ensures ApproveReview(g, db, event, superAdmin) != Err(ReviewIdentityLocked)
  {
  }

  /** After any history, in an event that was scored by review from the start, no approval
      and no preview meets a numbered participation of somebody else: the check made when a
      decision is saved is enough. */
  lemma NoReviewMeetsLockedIdentity(
    steps: seq<Step>, g: Engine, event: EventId, superAdmin: bool, r: RegistrationId)
    requires event !in Upgraded(steps) && ScoringErrorsOnly(g)
    ensures var db := Run(EMPTY, steps);
      && ApproveReview(g, db, event, superAdmin) != Err(ReviewIdentityLocked)
      && (ByReview(db, event) && ActiveIn(db, event, r) && r in db.reviews ==>
            PreviewItem(g, db, event, r) != Blocked(ReviewIdentityLocked))
  {
    EveryRunAttributed(steps);
    EveryRunLinksAgree(steps);
    var db := Run(EMPTY, steps);
    ApprovalNotLocked(g, db, Upgraded(steps), event, superAdmin);
    if ByReview(db, event) && ActiveIn(db, event, r) && r in db.reviews {
      PreviewNotLocked(g, db, Upgraded(steps), event, r);
    }
  }
}
