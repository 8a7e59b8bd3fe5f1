/** Which merge requests are accepted, exactly, and what every accepted one leaves, in terms
    of the rows of the tables. */
module MergeLaws {
  import opened Common
  import opened ActivityModel
  import opened ActivityService
  import opened LedgerInvariant
  import opened ActivityInvariant
  import opened PersonMerge
  import opened PersonMergeProofs
  import opened ActivityRuns

  // ---- Whose histories may be joined ------------------------------------------

  /** A KAIT student of the tenant who is nobody's alias. */
  ghost predicate CurrentStudent(db: Db, person: PersonId, tenant: nat) {
    && person in db.persons && db.persons[person].tenant == tenant
    && db.persons[person].kaitStudent && db.persons[person].mergedInto.None?
  }

  /** The two are never actively registered for one event. */
  ghost predicate RegisteredApart(db: Db, target: PersonId, source: PersonId) {
    forall a, b :: a in db.registrations && b in db.registrations
      && db.registrations[a].active && db.registrations[a].person == source
      && db.registrations[b].active && db.registrations[b].person == target
      ==> db.registrations[a].event != db.registrations[b].event
  }

  /** The two are never both confirmed at one event, whatever became of the registrations. */
  ghost predicate ConfirmedApart(db: Db, target: PersonId, source: PersonId) {
    forall a, b :: a in db.participations && b in db.participations
      && db.participations[a].status == Confirmed && db.participations[a].person == source
      && db.participations[b].status == Confirmed && db.participations[b].person == target
      ==> db.participations[a].event != db.participations[b].event
  }

  /** The two share no scoring number. */
  ghost predicate NumberedApart(db: Db, target: PersonId, source: PersonId) {
    forall a, b :: a in db.participations && b in db.participations && db.participations[a].sequence.Some?
      && db.participations[a].person == source && db.participations[b].person == target
      ==> db.participations[a].sequence != db.participations[b].sequence
  }

  /** The last day of a period, the last representable one when it is open. */
  ghost function LastDay(until: Option<Date>): Date {
    match until
    case Some(day) => day
    case None => END_OF_TIME
  }

  ghost predicate OneEndsBefore(a: Membership, b: Membership) {
    LastDay(a.validTo) < b.validFrom || LastDay(b.validTo) < a.validFrom
  }

  /** Of a membership of the one and a membership of the other, one ends before the other
      begins. */
  ghost predicate MembersApart(db: Db, target: PersonId, source: PersonId) {
    forall i, j :: 0 <= i < |db.memberships| && 0 <= j < |db.memberships|
      && db.memberships[i].person == source && db.memberships[j].person == target
      ==> OneEndsBefore(db.memberships[i], db.memberships[j])
  }

  /** The status has ended, or its retirement day lies behind. */
  ghost predicate OverBefore(a: StatusAssignment, day: Date) {
    LastDay(a.validTo) < day || LastDay(a.retiredOn) < day
  }

  ghost predicate OneOverBefore(a: StatusAssignment, b: StatusAssignment) {
    OverBefore(a, b.validFrom) || OverBefore(b, a.validFrom)
  }

  /** The same for two statuses of one type. */
  ghost predicate StatusesApart(db: Db, target: PersonId, source: PersonId) {
    forall i, j :: 0 <= i < |db.statuses| && 0 <= j < |db.statuses|
      && db.statuses[i].person == source && db.statuses[j].person == target
      && db.statuses[i].statusType == db.statuses[j].statusType
      ==> OneOverBefore(db.statuses[i], db.statuses[j])
  }

  /** Nothing forbids the merge but, perhaps, shared numbers. */
  ghost predicate HistoriesApart(db: Db, target: PersonId, source: PersonId) {
    && RegisteredApart(db, target, source) && ConfirmedApart(db, target, source)
    && MembersApart(db, target, source) && StatusesApart(db, target, source)
  }

  // ---- Which order is accepted ------------------------------------------------

  /** The participation belongs to one of the two and is confirmed or numbered. */
  ghost predicate ToOrder(db: Db, target: PersonId, source: PersonId, r: RegistrationId) {
    && r in db.participations && (db.participations[r].person == target || db.participations[r].person == source)
    && (db.participations[r].status == Confirmed || db.participations[r].sequence.Some?)
  }

  ghost function RowsToOrder(db: Db, target: PersonId, source: PersonId): set<RegistrationId> {
    set r | r in db.participations && ToOrder(db, target, source, r)
  }

  /** The version quotes every participation to order, as it is now, by ascending id. */
  ghost predicate UpToDate(db: Db, target: PersonId, source: PersonId, version: seq<OrderRow>) {
    && (forall i :: 0 <= i < |version| ==>
         && ToOrder(db, target, source, version[i].id) && version[i].row == db.participations[version[i].id]
         && version[i].net == Net(db.ledger, version[i].id))
    && (forall i, j :: 0 <= i < j < |version| ==> version[i].id < version[j].id)
    && forall r :: ToOrder(db, target, source, r) ==> exists i :: 0 <= i < |version| && version[i].id == r
  }

  /** The order lists every participation to order once. */
  ghost predicate Permutes(db: Db, target: PersonId, source: PersonId, order: seq<RegistrationId>) {
    && (forall i, j :: 0 <= i < j < |order| ==> order[i] != order[j])
    && (forall i :: 0 <= i < |order| ==> ToOrder(db, target, source, order[i]))
    && forall r :: ToOrder(db, target, source, r) ==> exists i :: 0 <= i < |order| && order[i] == r
  }

  /** What the rules give a participation once it is the target's at a position. */
  ghost function RatedAt(
    g: Engine, db: Db, target: PersonId, source: PersonId, r: RegistrationId, position: nat): Points
    requires r in db.participations
  {
    var p := db.participations[r];
    g.v2Points(MovedStatuses(db.statuses, target, source), p.event, target, p.role, p.result, position)
  }

  /** The award may be written: the rules do not fail, and the points are not zero. */
  predicate Writable(worth: Points) {
    !worth.Failure? && worth != Points(0)
  }

  /** Every award to recalculate may be written at its new position. */
  ghost predicate AwardsWritable(
    g: Engine, db: Db, target: PersonId, source: PersonId, order: seq<RegistrationId>)
  {
    forall k :: 0 <= k < |order| && order[k] in db.participations
      && db.participations[order[k]].status == Confirmed && g.usesV2(db.participations[order[k]].event)
      ==> Writable(RatedAt(g, db, target, source, order[k], k + 1))
  }

  ghost predicate OrderAccepted(
    g: Engine, db: Db, target: PersonId, source: PersonId, order: seq<RegistrationId>, version: seq<OrderRow>)
  {
    && |RowsToOrder(db, target, source)| <= 5000 && UpToDate(db, target, source, version)
    && Permutes(db, target, source, order) && AwardsWritable(g, db, target, source, order)
  }

  // ---- The report -------------------------------------------------------------

  lemma ReportIsExact(db: Db, target: PersonId, source: PersonId)
    ensures (ActiveRegistrationConflict in MergeConflicts(db, target, source)) == !RegisteredApart(db, target, source)
    ensures (ConfirmedParticipationConflict in MergeConflicts(db, target, source))
      == !ConfirmedApart(db, target, source)
    ensures (ScoringSequenceConflict in MergeConflicts(db, target, source)) == !NumberedApart(db, target, source)
    ensures (MembershipOverlap in MergeConflicts(db, target, source)) == !MembersApart(db, target, source)
    ensures (StatusOverlap in MergeConflicts(db, target, source)) == !StatusesApart(db, target, source)
  {
    ConflictListed(db, target, source);
    MembershipReportExact(db, target, source);
    StatusReportExact(db, target, source);
  }

  lemma MembershipReportExact(db: Db, target: PersonId, source: PersonId)
    ensures OverlappingMemberships(db, target, source) == !MembersApart(db, target, source)
  {
    if OverlappingMemberships(db, target, source) {
      var i, j :| 0 <= i < |db.memberships| && 0 <= j < |db.memberships|
        && db.memberships[i].person == source && db.memberships[j].person == target
        && MembershipsClash(db.memberships[i], db.memberships[j]);
    } else {
      forall i, j | 0 <= i < |db.memberships| && 0 <= j < |db.memberships|
        && db.memberships[i].person == source && db.memberships[j].person == target
        ensures !MembershipsClash(db.memberships[i], db.memberships[j])
      {
      }
    }
  }

  lemma StatusReportExact(db: Db, target: PersonId, source: PersonId)
    ensures OverlappingStatuses(db, target, source) == !StatusesApart(db, target, source)
  {
    if OverlappingStatuses(db, target, source) {
      var i, j :| 0 <= i < |db.statuses| && 0 <= j < |db.statuses|
        && db.statuses[i].person == source && db.statuses[j].person == target
        && StatusesClash(db.statuses[i], db.statuses[j]);
    } else {
      forall i, j | 0 <= i < |db.statuses| && 0 <= j < |db.statuses|
        && db.statuses[i].person == source && db.statuses[j].person == target
        ensures !StatusesClash(db.statuses[i], db.statuses[j])
      {
      }
    }
  }

  /** What the request handler sees of the report. */
  lemma ReportRead(db: Db, target: PersonId, source: PersonId)
    ensures MergeConflicts(db, target, source) == [] <==>
      HistoriesApart(db, target, source) && NumberedApart(db, target, source)
    ensures MergeConflicts(db, target, source) == [ScoringSequenceConflict] <==>
      HistoriesApart(db, target, source) && !NumberedApart(db, target, source)
  {
    ReportIsExact(db, target, source);
    var found := MergeConflicts(db, target, source);
    if HistoriesApart(db, target, source) {
      assert found == Report(BothNumbered(db, target, source), ScoringSequenceConflict) by {
        ConflictListed(db, target, source);
      }
    }
  }

  // ---- The order --------------------------------------------------------------

  /** A set has one increasing listing. */
  lemma {:induction false} ListingUnique(a: seq<RegistrationId>, b: seq<RegistrationId>)
    requires forall i, j :: 0 <= i < j < |a| ==> a[i] < a[j]
    requires forall i, j :: 0 <= i < j < |b| ==> b[i] < b[j]
    requires forall r :: r in a <==> r in b
    ensures a == b
  {
    if b != [] {
      assert b[0] in b;
    }
    if a != [] {
      assert a[0] in b && b != [];
      assert b[0] in a;
      forall r
        ensures r in a[1..] <==> r in b[1..]
      {
        TailWithoutHead(a, r);
        TailWithoutHead(b, r);
      }
      ListingUnique(a[1..], b[1..]);
      assert a == [a[0]] + a[1..] && b == [b[0]] + b[1..];
    }
  }

  lemma TailWithoutHead(a: seq<RegistrationId>, r: RegistrationId)
    requires a != [] && forall i, j :: 0 <= i < j < |a| ==> a[i] < a[j]
    ensures r in a[1..] <==> r in a && r != a[0]
    ensures r in a ==> a[0] <= r
  {
    assert a == [a[0]] + a[1..];
  }

  lemma RowsListed(db: Db, target: PersonId, source: PersonId)
    ensures var ids := NumberedParticipations(db, target, source);
      && |ids| == |RowsToOrder(db, target, source)|
      && (forall i, j :: 0 <= i < j < |ids| ==> ids[i] < ids[j])
      && forall r :: r in ids <==> ToOrder(db, target, source, r)
  {
    forall r
      ensures r in NumberedSet(db, target, source) <==> ToOrder(db, target, source, r)
    {
    }
    assert RowsToOrder(db, target, source) == NumberedSet(db, target, source);
  }

  /** The participations to order, by id. */
  ghost predicate Lists(db: Db, target: PersonId, source: PersonId, ids: seq<RegistrationId>) {
    && (forall i, j :: 0 <= i < j < |ids| ==> ids[i] < ids[j])
    && forall r :: r in ids <==> ToOrder(db, target, source, r)
  }

  lemma VersionUpToDate(db: Db, target: PersonId, source: PersonId, ids: seq<RegistrationId>)
    requires Lists(db, target, source, ids)
    ensures forall r :: r in ids ==> r in db.participations
    ensures UpToDate(db, target, source, OrderVersion(db, ids))
  {
    assert forall i :: 0 <= i < |ids| ==> ids[i] in ids;
    var version := OrderVersion(db, ids);
    forall r | ToOrder(db, target, source, r)
      ensures exists i :: 0 <= i < |version| && version[i].id == r
    {
      var i :| 0 <= i < |ids| && ids[i] == r;
      assert version[i].id == r;
    }
  }

  lemma UpToDateIsVersion(
    db: Db, target: PersonId, source: PersonId, ids: seq<RegistrationId>, version: seq<OrderRow>)
    requires Lists(db, target, source, ids) && UpToDate(db, target, source, version)
    ensures forall r :: r in ids ==> r in db.participations
    ensures OrderVersion(db, ids) == version
  {
    var quoted := seq(|version|, i requires 0 <= i < |version| => version[i].id);
    forall r
      ensures r in quoted <==> r in ids
    {
      if r in ids {
        var i :| 0 <= i < |version| && version[i].id == r;
        assert quoted[i] == r;
      }
    }
    ListingUnique(quoted, ids);
    assert forall i :: 0 <= i < |ids| ==> version[i].id == ids[i];
  }

  lemma VersionIsExact(db: Db, target: PersonId, source: PersonId, version: seq<OrderRow>)
    ensures OrderVersion(db, NumberedParticipations(db, target, source)) == version <==>
      UpToDate(db, target, source, version)
  {
    var ids := NumberedParticipations(db, target, source);
    RowsListed(db, target, source);
    VersionUpToDate(db, target, source, ids);
    if UpToDate(db, target, source, version) {
      UpToDateIsVersion(db, target, source, ids, version);
    }
  }

  lemma PermutationIsExact(db: Db, target: PersonId, source: PersonId, order: seq<RegistrationId>)
    ensures var ids := NumberedParticipations(db, target, source);
      |order| == |ids| && Distinct(order) && (set r | r in order) == (set r | r in ids) <==>
      Permutes(db, target, source, order)
  {
    var ids := NumberedParticipations(db, target, source);
    RowsListed(db, target, source);
    var a, b := set r | r in order, set r | r in ids;
    if Permutes(db, target, source, order) {
      SameLength(order, ids);
      assert a == b;
    }
    if a == b {
      assert forall r :: r in order <==> r in a;
      assert forall r :: r in ids <==> r in b;
    }
  }

  lemma SameLength<T>(a: seq<T>, b: seq<T>)
    requires Distinct(a) && Distinct(b) && forall x :: x in a <==> x in b
    ensures |a| == |b|
  {
    DistinctLength(a);
    DistinctLength(b);
    assert (set x | x in a) == (set x | x in b);
  }

  // ---- The awards -------------------------------------------------------------

  /** What the rules give a numbered row. */
  ghost function RowWorth(g: Engine, db: Db, r: RegistrationId): Points
    requires r in db.participations && db.participations[r].sequence.Some?
  {
    var p := db.participations[r];
    g.v2Points(db.statuses, p.event, p.person, p.role, p.result, p.sequence.value)
  }

  lemma OneAwardAccepted(g: Engine, db: Db, r: RegistrationId)
    requires r in db.participations && db.participations[r].sequence.Some?
    requires db.participations[r].status == Confirmed && g.usesV2(db.participations[r].event)
    ensures AwardScore(g, BumpCycle(db, r), r).Ok? <==> Writable(RowWorth(g, db, r))
  {
    var next := BumpCycle(db, r);
    assert next.participations[r := next.participations[r]] == next.participations;
    assert Numbered(g, next, r) == next;
  }

  /** Recalculating succeeds exactly when each single award may be written. */
  lemma {:induction false} AwardsAccepted(g: Engine, db: Db, order: seq<RegistrationId>, chosen: set<RegistrationId>)
    requires Ledgered(db.ledger, db.participations, chosen) && Distinct(order)
    requires forall r :: r in chosen ==> r in db.participations && g.usesV2(db.participations[r].event)
    requires forall r :: r in order ==> r in db.participations && db.participations[r].sequence.Some?
    ensures AwardAll(g, db, order, chosen).Ok? <==>
      forall r :: r in order && r in chosen ==> Writable(RowWorth(g, db, r))
  {
    if order != [] {
      var front, r := order[..|order| - 1], order[|order| - 1];
      assert order == front + [r];
      AmongOneMore(order, chosen);
      AwardsAccepted(g, db, front, chosen);
      if AwardAll(g, db, front, chosen).Ok? && r in chosen {
        LastAwardAccepted(g, db, front, chosen, r);
      }
    }
  }

  lemma LastAwardAccepted(
    g: Engine, db: Db, front: seq<RegistrationId>, chosen: set<RegistrationId>, r: RegistrationId)
    requires Ledgered(db.ledger, db.participations, chosen) && Distinct(front) && r !in Among(front, chosen)
    requires forall q :: q in chosen ==> q in db.participations && g.usesV2(db.participations[q].event)
    requires forall q :: q in front ==> q in db.participations && db.participations[q].sequence.Some?
    requires AwardAll(g, db, front, chosen).Ok? && r in chosen && db.participations[r].sequence.Some?
    ensures AwardNext(g, AwardAll(g, db, front, chosen).value, r, chosen).Ok? <==> Writable(RowWorth(g, db, r))
  {
    AwardAllKeeps(g, db, front, chosen);
    var before := AwardAll(g, db, front, chosen).value;
    assert PendingAward(db.ledger, r, db.participations[r]);
    OneAwardAccepted(g, before, r);
  }

  lemma OrderIsExact(
    g: Engine, db: Db, target: PersonId, source: PersonId, order: seq<RegistrationId>, version: seq<OrderRow>)
    requires Inv(db) && target != source
    ensures ApplyOrderedPersonMerge(g, db, target, source, order, version).Ok? <==>
      OrderAccepted(g, db, target, source, order, version)
  {
    RowsListed(db, target, source);
    VersionIsExact(db, target, source, version);
    PermutationIsExact(db, target, source, order);
    if Permutes(db, target, source, order) {
      ReorderedAccepted(g, db, target, source, order);
    }
  }

  lemma ReorderedAccepted(g: Engine, db: Db, target: PersonId, source: PersonId, order: seq<RegistrationId>)
    requires Inv(db) && target != source && Permutes(db, target, source, order)
    ensures var ids := NumberedParticipations(db, target, source);
      AwardAll(g, Reordered(g, db, target, source, ids, order), order, Recalculated(g, db, ids)).Ok? <==>
      AwardsWritable(g, db, target, source, order)
  {
    var ids := NumberedParticipations(db, target, source);
    RowsListed(db, target, source);
    PermutedOrderValid(db, target, source, order, ids);
    ReorderedState(g, db, target, source, ids, order);
    ReorderedGrows(g, db, target, source, ids, order);
    AwardsAtPositions(
      g, db, Reordered(g, db, target, source, ids, order), target, source, order, Recalculated(g, db, ids));
  }

  lemma PermutedOrderValid(
    db: Db, target: PersonId, source: PersonId, order: seq<RegistrationId>, ids: seq<RegistrationId>)
    requires Permutes(db, target, source, order) && forall r :: r in ids <==> ToOrder(db, target, source, r)
    ensures ValidOrder(db, target, source, order) && forall r :: r in ids <==> r in order
  {
    assert forall r :: r in order <==> ToOrder(db, target, source, r);
  }

  lemma AwardsAtPositions(
    g: Engine, db: Db, next: Db, target: PersonId, source: PersonId, order: seq<RegistrationId>,
    chosen: set<RegistrationId>)
    requires Permutes(db, target, source, order) && Ledgered(next.ledger, next.participations, chosen)
    requires Repositioned(db.participations, next.participations, order, target, source)
    requires next.statuses == MovedStatuses(db.statuses, target, source)
    requires forall r :: r in chosen <==>
      r in order && db.participations[r].status == Confirmed && g.usesV2(db.participations[r].event)
    ensures AwardAll(g, next, order, chosen).Ok? <==> AwardsWritable(g, db, target, source, order)
  {
    RepositionedWorth(g, db, next, target, source, order, chosen);
    AwardsAccepted(g, next, order, chosen);
  }

  lemma RepositionedWorth(
    g: Engine, db: Db, next: Db, target: PersonId, source: PersonId, order: seq<RegistrationId>,
    chosen: set<RegistrationId>)
    requires Permutes(db, target, source, order)
    requires Repositioned(db.participations, next.participations, order, target, source)
    requires next.statuses == MovedStatuses(db.statuses, target, source)
    requires forall r :: r in chosen <==>
      r in order && db.participations[r].status == Confirmed && g.usesV2(db.participations[r].event)
    ensures forall r :: r in order ==> NumberedRow(db, next, r)
    ensures AwardsWritable(g, db, target, source, order) <==>
      forall r :: r in order && r in chosen ==> Writable(RowWorth(g, next, r))
  {
    assert forall k :: 0 <= k < |order| ==>
      RowWorth(g, next, order[k]) == RatedAt(g, db, target, source, order[k], k + 1);
    if AwardsWritable(g, db, target, source, order) {
      forall r | r in order && r in chosen
        ensures Writable(RowWorth(g, next, r))
      {
        var k :| 0 <= k < |order| && order[k] == r;
      }
    }
  }

  ghost predicate NumberedRow(db: Db, next: Db, r: RegistrationId) {
    && r in db.participations && r in next.participations && next.participations[r].sequence.Some?
    && next.participations[r].event == db.participations[r].event
  }

  // ---- The request ------------------------------------------------------------

  /** How the handler goes on once the two people are admitted. */
  lemma MergeAdmitted(
    g: Engine, db: Db, target: PersonId, source: PersonId, tenant: nat,
    order: Option<seq<RegistrationId>>, version: Option<seq<OrderRow>>)
    requires MergePeople(db, target, source, tenant).Ok?
    ensures var outcome := MergePerson(g, db, target, source, tenant, order, version);
      if !HistoriesApart(db, target, source) then outcome == Err(PersonMergeConflict)
      else if NumberedApart(db, target, source) then
        outcome == if order.None? && version.None? then Ok(ApplyPersonMerge(db, target, source))
          else Err(PersonMergeOrderNotRequired)
      else
        outcome == if order.None? || version.None? then Err(PersonMergeConflict)
          else ApplyOrderedPersonMerge(g, db, target, source, order.value, version.value)
  {
    ReportRead(db, target, source);
  }

  lemma PeopleAdmitted(db: Db, target: PersonId, source: PersonId, tenant: nat)
    ensures MergePeople(db, target, source, tenant).Ok? <==>
      target != source && CurrentStudent(db, target, tenant) && CurrentStudent(db, source, tenant)
  {
  }

  /** A merge is accepted exactly between two different current students of the tenant whose
      histories are apart, without an order when their numbers are, and otherwise with a
      complete order at the current version all of whose awards may be written. */
  lemma MergeIsExact(
    g: Engine, db: Db, target: PersonId, source: PersonId, tenant: nat,
    order: Option<seq<RegistrationId>>, version: Option<seq<OrderRow>>)
    requires Inv(db)
    ensures MergePerson(g, db, target, source, tenant, order, version).Ok? <==>
      && target != source && CurrentStudent(db, target, tenant) && CurrentStudent(db, source, tenant)
      && HistoriesApart(db, target, source)
      && if NumberedApart(db, target, source) then order.None? && version.None?
         else order.Some? && version.Some? && OrderAccepted(g, db, target, source, order.value, version.value)
  {
    PeopleAdmitted(db, target, source, tenant);
    if MergePeople(db, target, source, tenant).Ok? {
      MergeAdmitted(g, db, target, source, tenant, order, version);
      if order.Some? && version.Some? {
        OrderIsExact(g, db, target, source, order.value, version.value);
      }
    }
  }

  /** What a refused request is told, by the first reason that applies; an order that cannot
      be awarded is refused for the scoring error. */
  lemma MergeRefused(
    g: Engine, db: Db, target: PersonId, source: PersonId, tenant: nat,
    order: Option<seq<RegistrationId>>, version: Option<seq<OrderRow>>)
    requires Inv(db)
    ensures var outcome := MergePerson(g, db, target, source, tenant, order, version);
      if target == source then outcome == Err(PersonMergeSelf)
      else if !IsCurrent(db, target, tenant) || !IsCurrent(db, source, tenant) then outcome == Err(PersonNotFound)
      else if !CurrentStudent(db, target, tenant) || !CurrentStudent(db, source, tenant) then
        outcome == Err(PersonMergeStudentOnly)
      else if !HistoriesApart(db, target, source) then outcome == Err(PersonMergeConflict)
      else if NumberedApart(db, target, source) then
        order.Some? || version.Some? ==> outcome == Err(PersonMergeOrderNotRequired)
      else if order.None? || version.None? then outcome == Err(PersonMergeConflict)
      else if |RowsToOrder(db, target, source)| > 5000 then outcome == Err(PersonMergeOrderTooLarge)
      else
        !(UpToDate(db, target, source, version.value) && Permutes(db, target, source, order.value)) ==>
        outcome == Err(PersonMergeOrderChanged)
  {
    if MergePeople(db, target, source, tenant).Ok? {
      MergeAdmitted(g, db, target, source, tenant, order, version);
      if order.Some? && version.Some? {
        OrderRefused(g, db, target, source, order.value, version.value);
      }
    }
  }

  lemma OrderRefused(
    g: Engine, db: Db, target: PersonId, source: PersonId, order: seq<RegistrationId>, version: seq<OrderRow>)
    ensures var outcome := ApplyOrderedPersonMerge(g, db, target, source, order, version);
      if |RowsToOrder(db, target, source)| > 5000 then outcome == Err(PersonMergeOrderTooLarge)
      else
        !(UpToDate(db, target, source, version) && Permutes(db, target, source, order)) ==>
        outcome == Err(PersonMergeOrderChanged)
  {
    RowsListed(db, target, source);
    VersionIsExact(db, target, source, version);
    PermutationIsExact(db, target, source, order);
  }

  /** Somebody of the tenant who is nobody's alias. */
  ghost predicate IsCurrent(db: Db, person: PersonId, tenant: nat) {
    person in db.persons && db.persons[person].tenant == tenant && db.persons[person].mergedInto.None?
  }

  // ---- What an accepted merge leaves ------------------------------------------

  /** The participation belongs to the target instead of the source, and is otherwise the
      same row but for its number and the bookkeeping of its award. */
  ghost predicate Handed(p: Participation, p': Participation, target: PersonId, source: PersonId) {
    && p'.person == (if p.person == source then target else p.person)
    && p'.event == p.event && p'.role == p.role && p'.result == p.result && p'.status == p.status
  }

  /** Every participation is handed over, and none appears or disappears. */
  ghost predicate AllHanded(db: Db, after: Db, target: PersonId, source: PersonId) {
    && after.participations.Keys == db.participations.Keys
    && forall r :: r in db.participations ==> Handed(db.participations[r], after.participations[r], target, source)
  }

  lemma OrderedRowsHanded(
    g: Engine, db: Db, after: Db, target: PersonId, source: PersonId, order: seq<RegistrationId>,
    version: seq<OrderRow>)
    requires Inv(db) && target != source && !BothRegistered(db, target, source)
    requires ApplyOrderedPersonMerge(g, db, target, source, order, version) == Ok(after)
    ensures AllHanded(db, after, target, source)
  {
    AcceptedOrderValid(g, db, target, source, order, version);
    var next, chosen := OrderedMergeStages(g, db, after, target, source, order, version);
    forall r | r in db.participations
      ensures Handed(db.participations[r], after.participations[r], target, source)
    {
      ReAwardedRows(g, next, after, chosen, r);
      PositionedRowHanded(db, next, target, source, order, r);
    }
  }

  lemma PositionedRowHanded(
    db: Db, next: Db, target: PersonId, source: PersonId, order: seq<RegistrationId>, r: RegistrationId)
    requires ValidOrder(db, target, source, order) && r in db.participations
    requires Repositioned(db.participations, next.participations, order, target, source)
    ensures Handed(db.participations[r], next.participations[r], target, source)
  {
    if r in order {
      var k :| 0 <= k < |order| && order[k] == r;
    }
  }

  lemma PlainRowsHanded(db: Db, target: PersonId, source: PersonId)
    ensures AllHanded(db, ApplyPersonMerge(db, target, source), target, source)
  {
  }

  lemma HandedConfirmedOnce(db: Db, after: Db, target: PersonId, source: PersonId)
    requires AllHanded(db, after, target, source) && ConfirmedApart(db, target, source)
    requires ConfirmedOnce(db.participations, target) && ConfirmedOnce(db.participations, source)
    ensures ConfirmedOnce(after.participations, target)
  {
    var before, now := db.participations, after.participations;
    forall q, r | q in now && r in now && q != r && now[q].person == target && now[r].person == target
      && now[q].status == Confirmed && now[r].status == Confirmed
      ensures now[q].event != now[r].event
    {
      assert Handed(before[q], now[q], target, source) && Handed(before[r], now[r], target, source);
    }
  }

  /** Every accepted merge, plain or ordered, is between two different current students, hands
      each of the source's participations over unchanged, and never leaves the target with two
      confirmed participations of one event if neither of the two had them. */
  lemma AcceptedMergeHandsOver(
    g: Engine, db: Db, after: Db, target: PersonId, source: PersonId, tenant: nat,
    order: Option<seq<RegistrationId>>, version: Option<seq<OrderRow>>)
    requires Inv(db) && MergePerson(g, db, target, source, tenant, order, version) == Ok(after)
    ensures target != source && CurrentStudent(db, target, tenant) && CurrentStudent(db, source, tenant)
    ensures AllHanded(db, after, target, source)
    ensures ConfirmedOnce(db.participations, target) && ConfirmedOnce(db.participations, source) ==>
      ConfirmedOnce(after.participations, target)
  {
    PeopleAdmitted(db, target, source, tenant);
    MergeAdmitted(g, db, target, source, tenant, order, version);
    if NumberedApart(db, target, source) {
      PlainRowsHanded(db, target, source);
    } else {
      ReportIsExact(db, target, source);
      ConflictListed(db, target, source);
      OrderedRowsHanded(g, db, after, target, source, order.value, version.value);
    }
    if ConfirmedOnce(db.participations, target) && ConfirmedOnce(db.participations, source) {
      HandedConfirmedOnce(db, after, target, source);
    }
  }
}
