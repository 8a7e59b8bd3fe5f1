/** The read-only preview of a decision equals what the approval later awards, and the
    exact reach of that promise. */
module PreviewProofs {
  import opened Common
  import opened ActivityModel
  import opened ActivityService
  import opened LedgerInvariant
  import opened ActivityInvariant
  import opened EventReviewing
  import opened EventReviewProofs

  // ---- What a scoring sequence depends on -------------------------------------

  /** The participation counts as scored history of the person. */
  predicate Standing(db: Db, q: RegistrationId, person: PersonId) {
    && q in db.participations && db.participations[q].person == person
    && (db.participations[q].status == Confirmed || EverAwarded(db.ledger, q))
  }

  function NumberOf(db: Db, q: RegistrationId, person: PersonId): Option<nat> {
    if q in db.participations && db.participations[q].person == person then db.participations[q].sequence else None
  }

  /** Registration `q` contributes the same to the person's numbering in both databases. */
  ghost predicate SameCredit(a: Db, b: Db, person: PersonId, q: RegistrationId) {
    && (Standing(a, q, person) <==> Standing(b, q, person))
    && NumberOf(a, q, person) == NumberOf(b, q, person)
    && (Standing(a, q, person) && Standing(b, q, person) ==> a.participations[q].event == b.participations[q].event)
  }

  ghost predicate SameHistory(a: Db, b: Db, person: PersonId, r: RegistrationId) {
    forall q :: q != r ==> SameCredit(a, b, person, q)
  }

  lemma HistoryAgrees(g: Engine, a: Db, b: Db, person: PersonId, r: RegistrationId)
    requires SameHistory(a, b, person, r)
    ensures History(g, a, person, r) == History(g, b, person, r)
  {
    forall q
      ensures q in History(g, a, person, r) <==> q in History(g, b, person, r)
    {
      assert q != r ==> SameCredit(a, b, person, q);
    }
  }

  lemma AllocatedAgrees(a: Db, b: Db, person: PersonId, r: RegistrationId)
    requires SameHistory(a, b, person, r)
    requires r in a.participations ==> a.participations[r].sequence.None?
    requires r in b.participations ==> b.participations[r].sequence.None?
    ensures Allocated(a.participations, person) == Allocated(b.participations, person)
  {
    AllocatedIncluded(a, b, person, r);
    assert forall q :: SameCredit(a, b, person, q) ==> SameCredit(b, a, person, q);
    AllocatedIncluded(b, a, person, r);
  }

  lemma AllocatedIncluded(a: Db, b: Db, person: PersonId, r: RegistrationId)
    requires SameHistory(a, b, person, r)
    requires r in a.participations ==> a.participations[r].sequence.None?
    ensures Allocated(a.participations, person) <= Allocated(b.participations, person)
  {
    forall n | n in Allocated(a.participations, person)
      ensures n in Allocated(b.participations, person)
    {
      var q :| q in a.participations && a.participations[q].person == person
        && a.participations[q].sequence.Some? && a.participations[q].sequence.value == n;
      assert SameCredit(a, b, person, q);
    }
  }

  /** Equal histories give equal scoring sequences. */
  lemma SequenceAgrees(g: Engine, a: Db, b: Db, person: PersonId, r: RegistrationId, stored: Option<nat>)
    requires SameHistory(a, b, person, r)
    requires r in a.participations ==> a.participations[r].sequence == stored
    requires r in b.participations ==> b.participations[r].sequence == stored
    ensures SequenceFor(g, a, person, r, stored) == SequenceFor(g, b, person, r, stored)
  {
    if stored.None? {
      HistoryAgrees(g, a, b, person, r);
      AllocatedAgrees(a, b, person, r);
    }
  }

  lemma AwardsOfOthers(before: seq<Transaction>, after: seq<Transaction>, q: RegistrationId)
    requires before <= after
    requires forall i :: |before| <= i < |after| ==> after[i].participation != Some(q)
    ensures EverAwarded(before, q) == EverAwarded(after, q)
  {
    if EverAwarded(before, q) {
      var i :| 0 <= i < |before| && IsAward(before[i], q);
      assert IsAward(after[i], q);
    }
  }

  lemma ItemKeepsHistory(before: Db, after: Db, r: RegistrationId, person: PersonId)
    requires r in before.registrations && ItemChange(before, after, r)
    ensures SameHistory(before, after, person, r)
  {
    forall q | q != r
      ensures EverAwarded(before.ledger, q) == EverAwarded(after.ledger, q)
    {
      AwardsOfOthers(before.ledger, after.ledger, q);
    }
  }

  // ---- One award --------------------------------------------------------------

  /** The participation of `r` holds the sequence, and the newest row, not one of the first
      `from`, awards it the points. */
  ghost predicate AwardedWith(db: Db, r: RegistrationId, person: PersonId, points: int, sequence: nat, from: nat) {
    && r in db.participations
    && db.participations[r].person == person && db.participations[r].sequence == Some(sequence)
    && Net(db.ledger, r) == points
    && |db.ledger| > from && db.ledger[|db.ledger| - 1] == AwardRow(db.participations[r], r, points)
  }

  /** `award_score` on the tables `next` pays what the tables `base` promised. */
  lemma AwardMatchesPromise(g: Engine, base: Db, next: Db, after: Db, r: RegistrationId, person: PersonId)
    requires Ledgered(next.ledger, next.participations, {r}) && r in next.participations
    requires ReadyToAward(next, r)
    requires next.participations[r].person == person && g.usesV2(next.participations[r].event)
    requires SameHistory(base, next, person, r) && next.statuses == base.statuses && base.ledger <= next.ledger
    requires r in base.participations ==> base.participations[r].sequence == next.participations[r].sequence
    requires AwardScore(g, next, r) == Ok(after) && r in after.participations
    requires after.participations[r].state == Awarded
    ensures var p := next.participations[r]; var sequence := SequenceFor(g, base, person, r, p.sequence);
      var worth := g.v2Points(base.statuses, p.event, person, p.role, p.result, sequence);
      worth.Points? && AwardedWith(after, r, person, worth.points, sequence, |base.ledger|)
  {
    AwardKeepsLedgered(g, next, {r}, r);
    SequenceAgrees(g, base, next, person, r, next.participations[r].sequence);
  }

  // ---- One student ------------------------------------------------------------

  /** Whose account the approval credits: only an absent or draft participation follows
      the registration to another roster student. */
  function Credited(db: Db, r: RegistrationId, person: PersonId): PersonId
    requires r in db.registrations
  {
    if r !in db.participations || (db.participations[r].status == Draft && db.registrations[r].person != person)
    then person else db.participations[r].person
  }

  /** A new award is due: the participation is not yet confirmed as reviewed. */
  predicate NeedsAward(db: Db, r: RegistrationId, role: RoleId, result: Option<ResultId>) {
    r in db.participations && db.participations[r].status == Confirmed ==>
      db.participations[r].role != Some(role) || db.participations[r].result != result
  }

  lemma LinkedState(db: Db, event: EventId, r: RegistrationId, person: PersonId)
    requires Inv(db) && ActiveIn(db, event, r)
    requires db.registrations[r].person != person ==> !Collides(db, event, r, person)
    ensures var linked := Linked(db, r, person);
      && Inv(linked) && ItemChange(db, linked, r) && linked.registrations[r].person == person
      && (r in linked.participations <==> r in db.participations)
      && (r in linked.participations ==>
           linked.participations[r] == db.participations[r].(person := Credited(db, r, person)))
  {
    LinkedKeepsInv(db, event, r, person);
  }

  function Stored(db: Db, r: RegistrationId): Option<nat> {
    if r in db.participations then db.participations[r].sequence else None
  }

  /** The credited person is paid what the tables `base` promise for the decision. */
  ghost predicate PaidAsPromised(
    g: Engine, base: Db, after: Db, event: EventId, r: RegistrationId, item: Review, person: PersonId)
  {
    var sequence := SequenceFor(g, base, person, r, Stored(base, r));
    var worth := g.v2Points(base.statuses, event, person, Some(item.role), item.result, sequence);
    worth.Points? && AwardedWith(after, r, person, worth.points, sequence, |base.ledger|)
  }

  lemma LocalKeepsHistory(db: Db, mid: Db, next: Db, r: RegistrationId, person: PersonId)
    requires r in db.registrations && ItemChange(db, mid, r) && LocalChange(mid, next, r)
    ensures SameHistory(db, next, person, r) && next.statuses == db.statuses && db.ledger <= next.ledger
  {
    ItemThenLocal(db, mid, next, r);
    ItemKeepsHistory(db, next, r, person);
  }

  /** A confirmed participation is paid when it is reclassified. */
  lemma ReclassifiedStudentPaid(
    g: Engine, db: Db, linked: Db, after: Db, event: EventId, r: RegistrationId, item: Review, person: PersonId)
    requires Inv(linked) && r in db.registrations && ItemChange(db, linked, r) && g.usesV2(event)
    requires r in db.participations && r in linked.participations
    requires linked.participations[r] == db.participations[r].(person := person)
    requires linked.participations[r].event == event && linked.participations[r].status == Confirmed
    requires AwardScore(g, Reclassified(linked, r, Some(item.role), item.result), r) == Ok(after)
    requires r in after.participations && after.participations[r].state == Awarded
    ensures PaidAsPromised(g, db, after, event, r, item, person)
  {
    var next := Reclassified(linked, r, Some(item.role), item.result);
    ReclassifyingIsPending(linked, r, Some(item.role), item.result);
    LocalKeepsHistory(db, linked, next, r, person);
    AwardMatchesPromise(g, db, next, after, r, person);
  }

  /** Any other participation is paid when it is confirmed. */
  lemma ConfirmedStudentPaid(
    g: Engine, db: Db, updated: Db, after: Db, event: EventId, r: RegistrationId, item: Review, person: PersonId)
    requires Inv(updated) && r in db.registrations && ItemChange(db, updated, r) && g.usesV2(event)
    requires updated.registrations[r].event == event
    requires r in updated.participations <==> r in db.participations
    requires if r in updated.participations
      then updated.participations[r].person == person && updated.participations[r].status != Confirmed
        && updated.participations[r].sequence == db.participations[r].sequence
      else updated.registrations[r].person == person
    requires AwardScore(g, Opened(updated, r, item.role, item.result), r) == Ok(after)
    requires r in after.participations && after.participations[r].state == Awarded
    ensures PaidAsPromised(g, db, after, event, r, item, person)
  {
    var next := Opened(updated, r, item.role, item.result);
    OpeningIsPending(updated, r, item.role, item.result);
    LocalKeepsHistory(db, updated, next, r, person);
    AwardMatchesPromise(g, db, next, after, r, person);
  }

  lemma UnconfirmedStudentPaid(
    g: Engine, db: Db, linked: Db, after: Db, event: EventId, r: RegistrationId, item: Review, person: PersonId)
    requires Inv(linked) && r in db.registrations && ItemChange(db, linked, r) && g.usesV2(event)
    requires linked.registrations[r].event == event
    requires r in linked.participations <==> r in db.participations
    requires if r in linked.participations
      then linked.participations[r].person == person && linked.participations[r].status != Confirmed
        && linked.participations[r].sequence == db.participations[r].sequence
      else linked.registrations[r].person == person
    requires TakeDecision(g, linked, r, item).Ok?
    requires ConfirmRegistration(g, TakeDecision(g, linked, r, item).value, event, r, Some(item.role), item.result,
      db.registrations[r].attendedAt.None?) == Ok(after)
    requires r in after.participations && after.participations[r].state == Awarded
    ensures PaidAsPromised(g, db, after, event, r, item, person)
  {
    var updated := TakeDecision(g, linked, r, item).value;
    if r in linked.participations {
      UnconfirmedDecision(g, linked, r, item);
      ItemThenLocal(db, linked, updated, r);
    }
    ConfirmedStudentPaid(g, db, updated, after, event, r, item, person);
  }

  /** Approving one student pays the credited person the points and the sequence that the
      tables promised before, at the reviewed role and result. */
  lemma StudentPaidAsPromised(
    g: Engine, db: Db, after: Db, event: EventId, r: RegistrationId, item: Review, person: PersonId)
    requires Inv(db) && ActiveIn(db, event, r) && g.usesV2(event)
    requires ApproveStudent(g, db, event, r, item, person) == Ok(after) && NeedsAward(db, r, item.role, item.result)
    ensures PaidAsPromised(g, db, after, event, r, item, Credited(db, r, person))
  {
    var linked, credited := Linked(db, r, person), Credited(db, r, person);
    LinkedState(db, event, r, person);
    if r in db.participations && db.participations[r].status == Confirmed {
      UpdateKeepsInv(g, linked, r, Set(Some(item.role)), Set(item.result));
      ReclassifiedStudentPaid(g, db, linked, after, event, r, item, credited);
    } else {
      UnconfirmedStudentPaid(g, db, linked, after, event, r, item, credited);
    }
  }

  lemma UnconfirmedDecision(g: Engine, db: Db, r: RegistrationId, item: Review)
    requires Inv(db) && r in db.participations && db.participations[r].status != Confirmed
    requires TakeDecision(g, db, r, item).Ok?
    ensures var updated := TakeDecision(g, db, r, item).value;
      && Inv(updated) && LocalChange(db, updated, r)
      && updated.participations[r] == db.participations[r].(role := Some(item.role), result := item.result)
  {
    UpdateKeepsInv(g, db, r, Set(Some(item.role)), Set(item.result));
  }

  // ---- The position of one row in the sheet -----------------------------------

  /** The tables just before and just after row `k` of the sheet. */
  function Before(g: Engine, db: Db, event: EventId, ids: seq<RegistrationId>, k: nat): Result<Db, Error>
    requires k <= |ids|
  {
    ApproveItems(g, db, event, ids[..k])
  }

  lemma {:induction false} PrefixesSucceed(g: Engine, db: Db, event: EventId, ids: seq<RegistrationId>, k: nat)
    requires k <= |ids| && ApproveItems(g, db, event, ids).Ok?
    ensures Before(g, db, event, ids, k).Ok?
    decreases |ids| - k
  {
    if k == |ids| {
      assert ids[..k] == ids;
    } else {
      PrefixesSucceed(g, db, event, ids, k + 1);
      assert ids[..k + 1][..k] == ids[..k];
    }
  }

  /** Row `k` runs on consistent tables changed only by the rows before it. */
  lemma RowStep(g: Engine, db: Db, event: EventId, ids: seq<RegistrationId>, k: nat) returns (mid: Db, next: Db)
    requires Inv(db) && Distinct(ids) && k < |ids| && ApproveItems(g, db, event, ids).Ok?
    requires forall r :: r in ids ==> r in db.reviews && ActiveIn(db, event, r)
    ensures Before(g, db, event, ids, k) == Ok(mid) && Before(g, db, event, ids, k + 1) == Ok(next)
    ensures Inv(mid) && SheetChange(db, mid, ids[..k]) && mid.reviews == db.reviews
    ensures ids[k] !in ids[..k] && ActiveIn(mid, event, ids[k])
    ensures ApproveItem(g, mid, event, ids[k]) == Ok(next)
    ensures ItemChange(mid, next, ids[k])
  {
    PrefixesSucceed(g, db, event, ids, k);
    PrefixesSucceed(g, db, event, ids, k + 1);
    mid, next := Before(g, db, event, ids, k).value, Before(g, db, event, ids, k + 1).value;
    assert ids[..k + 1][..k] == ids[..k] && ids[..k + 1][k] == ids[k];
    SheetKeepsInv(g, db, event, ids[..k]);
    ItemKeepsInv(g, mid, event, ids[k]);
  }

  /** The participation of `r`, its points and every earlier ledger row are kept. */
  ghost predicate RowKept(a: Db, b: Db, r: RegistrationId) {
    Find(b.participations, r) == Find(a.participations, r) && Net(b.ledger, r) == Net(a.ledger, r)
    && a.ledger <= b.ledger
  }

  lemma ItemKeepsRow(a: Db, b: Db, q: RegistrationId, r: RegistrationId)
    requires q in a.registrations && ItemChange(a, b, q) && r != q
    ensures RowKept(a, b, r)
  {
    AppendedNet(a.ledger, b.ledger, q, r);
  }

  lemma RowKeepsOther(g: Engine, db: Db, event: EventId, ids: seq<RegistrationId>, k: nat, r: RegistrationId)
    requires Inv(db) && Distinct(ids) && k < |ids| && ApproveItems(g, db, event, ids).Ok? && r != ids[k]
    requires forall q :: q in ids ==> q in db.reviews && ActiveIn(db, event, q)
    ensures Before(g, db, event, ids, k).Ok? && Before(g, db, event, ids, k + 1).Ok?
    ensures RowKept(Before(g, db, event, ids, k).value, Before(g, db, event, ids, k + 1).value, r)
  {
    var mid, next := RowStep(g, db, event, ids, k);
    ItemKeepsRow(mid, next, ids[k], r);
  }

  ghost predicate OthersKept(a: Db, b: Db, q: RegistrationId) {
    forall r :: r != q ==> RowKept(a, b, r)
  }

  /** Along a run in which step `i` keeps every row but `ids[i]`, row `ids[k]` is kept
      from its own step on. */
  lemma {:induction false} LaterStepsKeep(trace: seq<Db>, ids: seq<RegistrationId>, k: nat, n: nat)
    requires |trace| == |ids| + 1 && Distinct(ids) && k < n <= |ids|
    requires forall i :: 0 <= i < |ids| ==> OthersKept(trace[i], trace[i + 1], ids[i])
    ensures RowKept(trace[k + 1], trace[n], ids[k])
  {
    if n > k + 1 {
      var m := n - 1;
      LaterStepsKeep(trace, ids, k, m);
      assert OthersKept(trace[m], trace[m + 1], ids[m]);
      assert RowKept(trace[m], trace[m + 1], ids[k]);
    }
  }

  /** What row `k` wrote about its registration is still there after any later row. */
  lemma LaterRowsKeep(g: Engine, db: Db, event: EventId, ids: seq<RegistrationId>, k: nat, n: nat, next: Db, later: Db)
    requires Inv(db) && Distinct(ids) && k < n <= |ids| && ApproveItems(g, db, event, ids).Ok?
    requires forall r :: r in ids ==> r in db.reviews && ActiveIn(db, event, r)
    requires Before(g, db, event, ids, k + 1) == Ok(next) && Before(g, db, event, ids, n) == Ok(later)
    ensures RowKept(next, later, ids[k])
  {
    forall i | 0 <= i <= |ids|
      ensures Before(g, db, event, ids, i).Ok?
    {
      PrefixesSucceed(g, db, event, ids, i);
    }
    var trace := seq(|ids| + 1, i requires 0 <= i <= |ids| => Before(g, db, event, ids, i).value);
    forall i | 0 <= i < |ids|
      ensures OthersKept(trace[i], trace[i + 1], ids[i])
    {
      var a, b := trace[i], trace[i + 1];
      forall r | r != ids[i]
        ensures RowKept(a, b, r)
      {
        RowKeepsOther(g, db, event, ids, i, r);
      }
    }
    LaterStepsKeep(trace, ids, k, n);
  }

  lemma KeptToTheEnd(g: Engine, db: Db, event: EventId, ids: seq<RegistrationId>, k: nat, next: Db, last: Db)
    requires Inv(db) && Distinct(ids) && k < |ids| && ApproveItems(g, db, event, ids) == Ok(last)
    requires forall r :: r in ids ==> r in db.reviews && ActiveIn(db, event, r)
    requires Before(g, db, event, ids, k + 1) == Ok(next)
    ensures RowKept(next, last, ids[k])
  {
    assert ids[..|ids|] == ids;
    LaterRowsKeep(g, db, event, ids, k, |ids|, next, last);
  }

  // ---- What earlier rows do to the next number --------------------------------

  /** The two amounts the person's next sequence is computed from: how many of their other
      participations count as scored history, and their largest number. */
  datatype Tally = Tally(history: int, largest: int)

  function TallyOf(g: Engine, db: Db, person: PersonId, r: RegistrationId): Tally {
    Tally(|History(g, db, person, r)|, Largest(Allocated(db.participations, person)))
  }

  function Following(t: Tally): int {
    Max(t.history, t.largest) + 1
  }

  function Bit(b: bool): int {
    if b then 1 else 0
  }

  /** How deciding row `q` moves the tally of the person whom row `r` is for: a new award
      counts from then on and takes a number unless it has one; a withdrawn confirmation
      that was never awarded no longer counts. */
  function RowTally(db: Db, q: RegistrationId, r: RegistrationId, person: PersonId, t: Tally): Tally
    requires q in db.reviews && q in db.registrations
  {
    var item := db.reviews[q];
    if Eligible(item, db.registrations[q]) then
      if item.rosterPerson.None? || Credited(db, q, item.rosterPerson.value) != person
         || !NeedsAward(db, q, item.role, item.result) then
        t
      else
        var others := t.history - Bit(Standing(db, q, person)) + Bit(Standing(db, r, person));
        Tally(t.history + Bit(!Standing(db, q, person)),
          if NumberOf(db, q, person).Some? then t.largest else Max(others, t.largest) + 1)
    else if q in db.participations && db.participations[q].person == person
      && db.participations[q].status == Confirmed && !EverAwarded(db.ledger, q) then
      Tally(t.history - 1, t.largest)
    else
      t
  }

  /** The tally after the listed rows, read off the tables before the approval. */
  function EarlierTally(g: Engine, db: Db, rows: seq<RegistrationId>, r: RegistrationId, person: PersonId): Tally
    requires forall q :: q in rows ==> q in db.reviews && q in db.registrations
  {
    if rows == [] then TallyOf(g, db, person, r)
    else RowTally(db, rows[|rows| - 1], r, person, EarlierTally(g, db, rows[..|rows| - 1], r, person))
  }

  /** Rows `q` and `r` keep their registration, participation and awards until reached. */
  lemma UnreachedRowAlike(db: Db, mid: Db, done: seq<RegistrationId>, q: RegistrationId)
    requires SheetChange(db, mid, done) && q !in done && q in db.registrations
    ensures q in mid.registrations && mid.registrations[q] == db.registrations[q]
    ensures Find(mid.participations, q) == Find(db.participations, q)
    ensures EverAwarded(mid.ledger, q) == EverAwarded(db.ledger, q)
  {
    forall i | |db.ledger| <= i < |mid.ledger|
      ensures mid.ledger[i].participation != Some(q)
    {
      assert AboutOne(mid.ledger[i], done);
    }
    AwardsOfOthers(db.ledger, mid.ledger, q);
  }

  predicate Counts(g: Engine, db: Db, q: RegistrationId, person: PersonId) {
    Standing(db, q, person) && g.hasSeason(db.participations[q].event)
  }

  /** Only row `q` can have moved the history. */
  lemma OneRowMoved(g: Engine, a: Db, b: Db, q: RegistrationId, r: RegistrationId, person: PersonId)
    requires q != r && SameHistory(a, b, person, q)
    ensures TallyOf(g, b, person, r).history
      == TallyOf(g, a, person, r).history - Bit(Counts(g, a, q, person)) + Bit(Counts(g, b, q, person))
  {
    SameHistoryElsewhere(g, a, b, q, r, person);
    OneMember(History(g, a, person, r), q);
    OneMember(History(g, b, person, r), q);
  }

  lemma OneMember(s: set<RegistrationId>, q: RegistrationId)
    ensures |s| == |s - {q}| + Bit(q in s)
  {
    assert s == if q in s then (s - {q}) + {q} else s - {q};
  }

  lemma SameHistoryElsewhere(g: Engine, a: Db, b: Db, q: RegistrationId, r: RegistrationId, person: PersonId)
    requires SameHistory(a, b, person, q)
    ensures History(g, a, person, r) - {q} == History(g, b, person, r) - {q}
  {
    forall x
      ensures x in History(g, a, person, r) - {q} <==> x in History(g, b, person, r) - {q}
    {
      assert x != q ==> SameCredit(a, b, person, x);
    }
  }

  lemma SameNumbers(a: Db, b: Db, q: RegistrationId, person: PersonId)
    requires SameHistory(a, b, person, q) && NumberOf(a, q, person) == NumberOf(b, q, person)
    ensures Allocated(a.participations, person) == Allocated(b.participations, person)
  {
    forall x
      ensures NumberOf(a, x, person) == NumberOf(b, x, person)
    {
      assert x != q ==> SameCredit(a, b, person, x);
    }
    NumbersIncluded(a, b, person);
    NumbersIncluded(b, a, person);
  }

  lemma NumbersIncluded(a: Db, b: Db, person: PersonId)
    requires forall x :: NumberOf(a, x, person).Some? ==> NumberOf(a, x, person) == NumberOf(b, x, person)
    ensures Allocated(a.participations, person) <= Allocated(b.participations, person)
  {
    forall n | n in Allocated(a.participations, person)
      ensures n in Allocated(b.participations, person)
    {
      var x :| x in a.participations && a.participations[x].person == person
        && a.participations[x].sequence.Some? && a.participations[x].sequence.value == n;
      assert NumberOf(a, x, person) == Some(n);
    }
  }

  /** Row `q` took the number `n`, larger than every earlier one. */
  lemma NumberAdded(g: Engine, a: Db, b: Db, q: RegistrationId, r: RegistrationId, person: PersonId, n: nat)
    requires SameHistory(a, b, person, q) && NumberOf(a, q, person).None? && NumberOf(b, q, person) == Some(n)
    requires n > TallyOf(g, a, person, r).largest
    ensures TallyOf(g, b, person, r).largest == n
  {
    var numbers := Allocated(b.participations, person);
    assert n in numbers by {
      assert q in b.participations && b.participations[q].sequence == Some(n);
    }
    forall m | m in numbers
      ensures m <= n
    {
      var x :| x in b.participations && b.participations[x].person == person
        && b.participations[x].sequence.Some? && b.participations[x].sequence.value == m;
      if x != q {
        assert SameCredit(a, b, person, x);
        assert m in Allocated(a.participations, person);
      }
    }
  }

  /** The history that numbers row `q`, from the tally kept for row `r`. */
  lemma HistoryOfOther(g: Engine, db: Db, q: RegistrationId, r: RegistrationId, person: PersonId)
    requires q != r
    ensures |History(g, db, person, q)|
      == TallyOf(g, db, person, r).history - Bit(Counts(g, db, q, person)) + Bit(Counts(g, db, r, person))
  {
    var forQ, forR := History(g, db, person, q), History(g, db, person, r);
    OneMember(forQ, r);
    OneMember(forR, q);
    assert forQ - {r} == forR - {q};
  }

  lemma AwardedRowTally(
    g: Engine, db: Db, after: Db, event: EventId, q: RegistrationId, r: RegistrationId, item: Review, roster: PersonId)
    requires Inv(db) && ActiveIn(db, event, q) && g.usesV2(event) && g.hasSeason(event) && q != r
    requires r in db.participations ==> db.participations[r].event == event
    requires ApproveStudent(g, db, event, q, item, roster) == Ok(after) && NeedsAward(db, q, item.role, item.result)
    ensures var person := Credited(db, q, roster); var t := TallyOf(g, db, person, r);
      var others := t.history - Bit(Standing(db, q, person)) + Bit(Standing(db, r, person));
      TallyOf(g, after, person, r) == Tally(t.history + Bit(!Standing(db, q, person)),
        if NumberOf(db, q, person).Some? then t.largest else Max(others, t.largest) + 1)
  {
    var person := Credited(db, q, roster);
    AwardedRow(g, db, after, event, q, item, roster);
    OneRowMoved(g, db, after, q, r, person);
    NumberTaken(g, db, after, q, r, person);
  }

  lemma AwardedRow(g: Engine, db: Db, after: Db, event: EventId, q: RegistrationId, item: Review, roster: PersonId)
    requires Inv(db) && ActiveIn(db, event, q) && g.usesV2(event) && g.hasSeason(event)
    requires ApproveStudent(g, db, event, q, item, roster) == Ok(after) && NeedsAward(db, q, item.role, item.result)
    ensures var person := Credited(db, q, roster); var number := NumberOf(db, q, person);
      && SameHistory(db, after, person, q) && Counts(g, after, q, person)
      && (Counts(g, db, q, person) <==> Standing(db, q, person))
      && NumberOf(after, q, person) == Some(if number.Some? then number.value else NextSequence(g, db, person, q))
  {
    var person := Credited(db, q, roster);
    StudentPaidAsPromised(g, db, after, event, q, item, roster);
    StudentKeepsInv(g, db, event, q, item, roster);
    ItemKeepsHistory(db, after, q, person);
    OwnNumber(db, q, roster);
  }

  /** The row's number afterwards is its old one, or the next of the person's history. */
  lemma NumberTaken(g: Engine, a: Db, b: Db, q: RegistrationId, r: RegistrationId, person: PersonId)
    requires q != r && SameHistory(a, b, person, q)
    requires NumberOf(b, q, person) ==
      Some(if NumberOf(a, q, person).Some? then NumberOf(a, q, person).value else NextSequence(g, a, person, q))
    ensures var t := TallyOf(g, a, person, r);
      TallyOf(g, b, person, r).largest == if NumberOf(a, q, person).Some? then t.largest
        else Max(t.history - Bit(Counts(g, a, q, person)) + Bit(Counts(g, a, r, person)), t.largest) + 1
  {
    if NumberOf(a, q, person).Some? {
      SameNumbers(a, b, q, person);
    } else {
      HistoryOfOther(g, a, q, r, person);
      NumberAdded(g, a, b, q, r, person, NextSequence(g, a, person, q));
    }
  }

  /** The number kept by an approval is one the credited person already has. */
  lemma OwnNumber(db: Db, q: RegistrationId, roster: PersonId)
    requires Inv(db) && q in db.registrations
    ensures Stored(db, q) == NumberOf(db, q, Credited(db, q, roster))
  {
    if q in db.participations {
      assert Consistent(db.ledger, q, db.participations[q]);
    }
  }

  /** A row credited to somebody else does not count for the person before or after. */
  lemma ForeignRowTally(
    g: Engine, db: Db, after: Db, event: EventId, q: RegistrationId, r: RegistrationId, item: Review,
    roster: PersonId, person: PersonId)
    requires Inv(db) && ActiveIn(db, event, q) && q != r && Credited(db, q, roster) != person
    requires ApproveStudent(g, db, event, q, item, roster) == Ok(after)
    ensures TallyOf(g, after, person, r) == TallyOf(g, db, person, r)
  {
    ForeignRowCounts(g, db, after, event, q, item, roster, person);
    OneRowMoved(g, db, after, q, r, person);
    SameNumbers(db, after, q, person);
  }

  /** Neither before nor after does the row count for anybody but the student credited. */
  lemma ForeignRowCounts(
    g: Engine, db: Db, after: Db, event: EventId, q: RegistrationId, item: Review, roster: PersonId, person: PersonId)
    requires Inv(db) && ActiveIn(db, event, q) && Credited(db, q, roster) != person
    requires ApproveStudent(g, db, event, q, item, roster) == Ok(after)
    ensures SameHistory(db, after, person, q) && NumberOf(db, q, person) == NumberOf(after, q, person)
    ensures Counts(g, db, q, person) == Counts(g, after, q, person)
  {
    StudentCredited(g, db, after, event, q, item, roster);
    StudentKeepsInv(g, db, event, q, item, roster);
    ItemKeepsHistory(db, after, q, person);
    if q in db.participations {
      assert Consistent(db.ledger, q, db.participations[q]);
      if db.participations[q].status == Draft {
        DraftsHaveNoRows(db, q);
      }
    }
  }

  /** A participation that is already confirmed as reviewed is left alone. */
  lemma UnneededRow(g: Engine, db: Db, after: Db, event: EventId, q: RegistrationId, item: Review, roster: PersonId)
    requires Inv(db) && ActiveIn(db, event, q) && ApproveStudent(g, db, event, q, item, roster) == Ok(after)
    requires !NeedsAward(db, q, item.role, item.result)
    ensures after.participations == db.participations && after.ledger == db.ledger
  {
    LinkedState(db, event, q, roster);
  }

  lemma SameTally(g: Engine, a: Db, b: Db, person: PersonId, r: RegistrationId)
    requires a.participations == b.participations && a.ledger == b.ledger
    ensures TallyOf(g, a, person, r) == TallyOf(g, b, person, r)
  {
    assert History(g, a, person, r) == History(g, b, person, r);
  }

  lemma WithdrawnRowTally(g: Engine, db: Db, event: EventId, q: RegistrationId, r: RegistrationId, person: PersonId)
    requires Inv(db) && ActiveIn(db, event, q) && g.hasSeason(event) && q != r
    requires q in db.participations && db.participations[q].status == Confirmed
    ensures CancelParticipation(db, q).Ok?
    ensures var t := TallyOf(g, db, person, r);
      TallyOf(g, CancelParticipation(db, q).value, person, r) ==
        if db.participations[q].person == person && !EverAwarded(db.ledger, q) then
          Tally(t.history - 1, t.largest)
        else
          t
  {
    var after := CancelParticipation(db, q).value;
    CancelKeepsInv(db, q);
    LocalIsItem(db, after, q);
    ItemKeepsHistory(db, after, q, person);
    CancellingKeepsAwards(db.ledger, q, db.participations[q].cycle);
    OneRowMoved(g, db, after, q, r, person);
    SameNumbers(db, after, q, person);
  }

  /** A reversal is not an award. */
  lemma CancellingKeepsAwards(ledger: seq<Transaction>, q: RegistrationId, cycle: nat)
    ensures EverAwarded(ReverseAward(ledger, q, cycle), q) == EverAwarded(ledger, q)
  {
    var after := ReverseAward(ledger, q, cycle);
    if EverAwarded(ledger, q) {
      var i :| 0 <= i < |ledger| && IsAward(ledger[i], q);
      assert IsAward(after[i], q);
    }
    if EverAwarded(after, q) {
      var i :| 0 <= i < |after| && IsAward(after[i], q);
      assert i < |ledger|;
    }
  }

  /** One row moves the tally exactly as read off the tables before it. */
  lemma RowTallied(g: Engine, db: Db, after: Db, event: EventId, q: RegistrationId, r: RegistrationId, person: PersonId)
    requires Inv(db) && ActiveIn(db, event, q) && q in db.reviews && g.usesV2(event) && g.hasSeason(event) && q != r
    requires r in db.participations ==> db.participations[r].event == event
    requires ApproveItem(g, db, event, q) == Ok(after)
    ensures TallyOf(g, after, person, r) == RowTally(db, q, r, person, TallyOf(g, db, person, r))
  {
    var item := db.reviews[q];
    if Eligible(item, db.registrations[q]) {
      var roster := item.rosterPerson.value;
      if Credited(db, q, roster) != person {
        ForeignRowTally(g, db, after, event, q, r, item, roster, person);
      } else if NeedsAward(db, q, item.role, item.result) {
        AwardedRowTally(g, db, after, event, q, r, item, roster);
      } else {
        UnneededRow(g, db, after, event, q, item, roster);
        SameTally(g, db, after, person, r);
      }
    } else if q in db.participations && db.participations[q].status == Confirmed {
      WithdrawnRowTally(g, db, event, q, r, person);
    }
  }

  /** What a row does to a tally is the same while it and `r` are not reached. */
  lemma RowTallyAlike(
    db: Db, mid: Db, done: seq<RegistrationId>, q: RegistrationId, r: RegistrationId, person: PersonId, t: Tally)
    requires SheetChange(db, mid, done) && q !in done && r !in done && mid.reviews == db.reviews
    requires q in db.reviews && q in db.registrations && r in db.registrations
    ensures q in mid.registrations && RowTally(mid, q, r, person, t) == RowTally(db, q, r, person, t)
  {
    UnreachedRowAlike(db, mid, done, q);
    UnreachedRowAlike(db, mid, done, r);
    assert Standing(mid, q, person) == Standing(db, q, person) && Standing(mid, r, person) == Standing(db, r, person);
  }

  /** The tally just before row `k` is the one read off the tables before the approval. */
  lemma {:induction false} RowsTallied(
    g: Engine, db: Db, event: EventId, ids: seq<RegistrationId>, n: nat, r: RegistrationId, person: PersonId)
    requires Inv(db) && Distinct(ids) && n <= |ids| && ApproveItems(g, db, event, ids).Ok?
    requires forall q :: q in ids ==> q in db.reviews && ActiveIn(db, event, q)
    requires g.usesV2(event) && g.hasSeason(event) && ActiveIn(db, event, r) && r !in ids[..n]
    ensures Before(g, db, event, ids, n).Ok?
    ensures TallyOf(g, Before(g, db, event, ids, n).value, person, r) == EarlierTally(g, db, ids[..n], r, person)
  {
    PrefixesSucceed(g, db, event, ids, n);
    if n > 0 {
      var k, q := n - 1, ids[n - 1];
      assert ids[..n] == ids[..k] + [q];
      RowsTallied(g, db, event, ids, k, r, person);
      var mid, next := RowStep(g, db, event, ids, k);
      UnreachedRowAlike(db, mid, ids[..k], r);
      RowTallied(g, mid, next, event, q, r, person);
      RowTallyAlike(db, mid, ids[..k], q, r, person, TallyOf(g, mid, person, r));
    }
  }

  // ---- Preview and approval ---------------------------------------------------

  /** The rows of the sheet before row `r`. */
  function RowsBefore(ids: seq<RegistrationId>, r: RegistrationId): (rows: seq<RegistrationId>)
    ensures forall q :: q in rows ==> q in ids
  {
    if ids == [] || ids[0] == r then [] else [ids[0]] + RowsBefore(ids[1..], r)
  }

  lemma {:induction false} RowsBeforeAt(ids: seq<RegistrationId>, k: nat)
    requires Distinct(ids) && k < |ids|
    ensures RowsBefore(ids, ids[k]) == ids[..k]
  {
    if k > 0 {
      RowsBeforeAt(ids[1..], k - 1);
      assert ids[..k] == [ids[0]] + ids[1..][..k - 1];
    }
  }

  /** The sequence the approval gives row `r`, computed from the tables before it. */
  function PredictedSequence(g: Engine, db: Db, event: EventId, r: RegistrationId, person: PersonId): int {
    if Stored(db, r).Some? then Stored(db, r).value
    else Following(EarlierTally(g, db, RowsBefore(ReviewItems(db, event), r), r, person))
  }

  /** The award the preview promised: same person, points and newcomer sequence. */
  ghost predicate AwardWritten(after: Db, r: RegistrationId, person: PersonId, points: int, sequence: int, from: nat) {
    && r in after.participations
    && after.participations[r].status == Confirmed && after.participations[r].state == Awarded
    && after.participations[r].person == person
    && after.participations[r].sequence.Some? && after.participations[r].sequence.value == sequence
    && Net(after.ledger, r) == points
    && exists i :: from <= i < |after.ledger| && after.ledger[i] == AwardRow(after.participations[r], r, points)
  }

  /** The decision of row `r` will be paid to its roster student at the previewed points. */
  ghost predicate Previewed(
    g: Engine, db: Db, event: EventId, r: RegistrationId, person: PersonId, points: int, sequence: nat)
  {
    && r in db.reviews && ActiveIn(db, event, r)
    && PreviewReviewScore(g, db, event, r, VersionOf(db, r)) == Ok(Ready(points, sequence))
    && NeedsAward(db, r, db.reviews[r].role, db.reviews[r].result)
    && db.reviews[r].rosterPerson == Some(person) && Credited(db, r, person) == person
  }

  /** Row `r` is due an award to the person. */
  ghost predicate Due(g: Engine, db: Db, event: EventId, r: RegistrationId, person: PersonId)
    requires r in db.reviews && r in db.registrations
  {
    var item := db.reviews[r];
    && Eligible(item, db.registrations[r]) && item.rosterPerson == Some(person)
    && g.usesV2(event) && g.hasSeason(event)
    && NeedsAward(db, r, item.role, item.result) && Credited(db, r, person) == person
  }

  /** What the approval pays for row `r` at the given number. */
  ghost function PaidAt(g: Engine, db: Db, event: EventId, r: RegistrationId, person: PersonId, number: nat): Points
    requires r in db.reviews
  {
    g.v2Points(db.statuses, event, person, Some(db.reviews[r].role), db.reviews[r].result, number)
  }

  /** Row `k` is paid at the number that the earlier rows leave for it. */
  lemma RowPaid(g: Engine, db: Db, last: Db, event: EventId, ids: seq<RegistrationId>, k: nat, person: PersonId)
    returns (number: nat)
    requires Inv(db) && k < |ids| && Distinct(ids) && ApproveItems(g, db, event, ids) == Ok(last)
    requires forall q :: q in ids ==> q in db.reviews && ActiveIn(db, event, q)
    requires Due(g, db, event, ids[k], person)
    ensures number == if Stored(db, ids[k]).Some? then Stored(db, ids[k]).value
      else Following(EarlierTally(g, db, ids[..k], ids[k], person))
    ensures PaidAt(g, db, event, ids[k], person, number).Points?
    ensures AwardWritten(last, ids[k], person, PaidAt(g, db, event, ids[k], person, number).points, number, |db.ledger|)
  {
    var r := ids[k];
    var mid, next := RowStep(g, db, event, ids, k);
    RowsTallied(g, db, event, ids, k, r, person);
    number := StudentPaidFrom(g, db, mid, next, event, ids[..k], r, person);
    KeptToTheEnd(g, db, event, ids, k, next, last);
    KeptAwardWritten(next, last, r, person, PaidAt(g, db, event, r, person, number).points, number, |db.ledger|);
  }

  lemma StudentPaidFrom(
    g: Engine, db: Db, mid: Db, next: Db, event: EventId, done: seq<RegistrationId>, r: RegistrationId,
    person: PersonId)
    returns (number: nat)
    requires Inv(mid) && ActiveIn(mid, event, r) && SheetChange(db, mid, done)
    requires r !in done && mid.reviews == db.reviews
    requires r in db.reviews && r in db.registrations && Due(g, db, event, r, person)
    requires ApproveItem(g, mid, event, r) == Ok(next)
    ensures number == if Stored(db, r).Some? then Stored(db, r).value else Following(TallyOf(g, mid, person, r))
    ensures PaidAt(g, db, event, r, person, number).Points?
    ensures AwardedWith(next, r, person, PaidAt(g, db, event, r, person, number).points, number, |db.ledger|)
    ensures next.participations[r].state == Awarded && next.participations[r].status == Confirmed
  {
    UnreachedRowAlike(db, mid, done, r);
    number := DueStudentPaid(g, mid, next, event, r, person);
  }

  lemma DueStudentPaid(g: Engine, db: Db, next: Db, event: EventId, r: RegistrationId, person: PersonId)
    returns (number: nat)
    requires Inv(db) && ActiveIn(db, event, r) && r in db.reviews && Due(g, db, event, r, person)
    requires ApproveItem(g, db, event, r) == Ok(next)
    ensures number == if Stored(db, r).Some? then Stored(db, r).value else Following(TallyOf(g, db, person, r))
    ensures PaidAt(g, db, event, r, person, number).Points?
    ensures AwardedWith(next, r, person, PaidAt(g, db, event, r, person, number).points, number, |db.ledger|)
    ensures next.participations[r].state == Awarded && next.participations[r].status == Confirmed
  {
    StudentKeepsInv(g, db, event, r, db.reviews[r], person);
    StudentPaidAsPromised(g, db, next, event, r, db.reviews[r], person);
    number := SequenceFor(g, db, person, r, Stored(db, r));
  }

  lemma KeptAwardWritten(
    next: Db, last: Db, r: RegistrationId, person: PersonId, points: int, sequence: nat, from: nat)
    requires AwardedWith(next, r, person, points, sequence, from) && RowKept(next, last, r)
    requires next.participations[r].state == Awarded && next.participations[r].status == Confirmed
    ensures AwardWritten(last, r, person, points, sequence, from)
  {
    assert last.ledger[|next.ledger| - 1] == AwardRow(last.participations[r], r, points);
  }

  lemma MarkingKeepsAward(
    db: Db, event: EventId, r: RegistrationId, person: PersonId, points: int, sequence: nat, from: nat)
    requires AwardWritten(db, r, person, points, sequence, from)
    ensures AwardWritten(MarkApproved(db, event), r, person, points, sequence, from)
  {
  }

  lemma PreviewedIsDue(
    g: Engine, db: Db, event: EventId, r: RegistrationId, person: PersonId, points: int, sequence: nat)
    requires Previewed(g, db, event, r, person, points, sequence)
    ensures Due(g, db, event, r, person) && PaidAt(g, db, event, r, person, sequence) == Points(points)
    ensures sequence == if Stored(db, r).Some? then Stored(db, r).value else Following(TallyOf(g, db, person, r))
  {
  }

  /** The approval of a READY row awards exactly the predicted sequence, at its points. */
  lemma AwardPredicted(
    g: Engine, db: Db, after: Db, event: EventId, superAdmin: bool, r: RegistrationId, person: PersonId)
    requires Inv(db) && ApproveReview(g, db, event, superAdmin) == Ok(after)
    requires r in db.reviews && ActiveIn(db, event, r) && Due(g, db, event, r, person)
    ensures PredictedSequence(g, db, event, r, person) >= 0
    ensures PaidAt(g, db, event, r, person, PredictedSequence(g, db, event, r, person)).Points?
    ensures AwardWritten(after, r, person,
      PaidAt(g, db, event, r, person, PredictedSequence(g, db, event, r, person)).points,
      PredictedSequence(g, db, event, r, person), |db.ledger|)
  {
    var ids := ReviewItems(db, event);
    SheetIsComplete(g, db, event, superAdmin);
    var k :| 0 <= k < |ids| && ids[k] == r;
    var last := ApproveItems(g, db, event, ids).value;
    RowsBeforeAt(ids, k);
    var number := RowPaid(g, db, last, event, ids, k, person);
    MarkingKeepsAward(last, event, r, person, PaidAt(g, db, event, r, person, number).points, number, |db.ledger|);
  }

  /** A READY preview is what the approval awards, whatever else is on the sheet, if and
      only if the rows approved earlier leave the student's next number as it was. */
  lemma PreviewExact(
    g: Engine, db: Db, after: Db, event: EventId, superAdmin: bool, r: RegistrationId, person: PersonId,
    points: int, sequence: nat)
    requires Inv(db) && ApproveReview(g, db, event, superAdmin) == Ok(after)
    requires Previewed(g, db, event, r, person, points, sequence)
    ensures AwardWritten(after, r, person, points, sequence, |db.ledger|)
      <==> PredictedSequence(g, db, event, r, person) == sequence
  {
    PreviewedIsDue(g, db, event, r, person, points, sequence);
    AwardPredicted(g, db, after, event, superAdmin, r, person);
  }

  // ---- When a preview is safe -------------------------------------------------

  /** Deciding row `q` awards the person something that is not yet both counted and
      numbered, or withdraws a confirmation that was never awarded. */
  ghost predicate Disturbs(db: Db, q: RegistrationId, person: PersonId)
    requires q in db.reviews && q in db.registrations
  {
    var item := db.reviews[q];
    if Eligible(item, db.registrations[q]) then
      && item.rosterPerson.Some? && Credited(db, q, item.rosterPerson.value) == person
      && NeedsAward(db, q, item.role, item.result)
      && !(Standing(db, q, person) && NumberOf(db, q, person).Some?)
    else
      && q in db.participations && db.participations[q].person == person
      && db.participations[q].status == Confirmed && !EverAwarded(db.ledger, q)
  }

  /** Row `q` of the sheet is approved before row `r`. */
  predicate Earlier(db: Db, event: EventId, q: RegistrationId, r: RegistrationId) {
    q < r && ActiveIn(db, event, q) && q in db.reviews
  }

  /** The previewed sequence cannot be taken by another row: it is stored already, or no
      row that is approved earlier disturbs the person. */
  ghost predicate SequenceSafe(db: Db, event: EventId, r: RegistrationId, person: PersonId) {
    Stored(db, r).Some? || forall q :: Earlier(db, event, q, r) ==> !Disturbs(db, q, person)
  }

  lemma {:induction false} QuietRows(g: Engine, db: Db, rows: seq<RegistrationId>, r: RegistrationId, person: PersonId)
    requires forall q :: q in rows ==> q in db.reviews && q in db.registrations && !Disturbs(db, q, person)
    ensures EarlierTally(g, db, rows, r, person) == TallyOf(g, db, person, r)
  {
    if rows != [] {
      var front, q := rows[..|rows| - 1], rows[|rows| - 1];
      QuietRows(g, db, front, r, person);
      assert q in rows;
    }
  }

  /** In particular a preview holds when no earlier row disturbs the student. */
  lemma PreviewIsAward(
    g: Engine, db: Db, after: Db, event: EventId, superAdmin: bool, r: RegistrationId, person: PersonId,
    points: int, sequence: nat)
    requires Inv(db) && ApproveReview(g, db, event, superAdmin) == Ok(after)
    requires Previewed(g, db, event, r, person, points, sequence) && SequenceSafe(db, event, r, person)
    ensures AwardWritten(after, r, person, points, sequence, |db.ledger|)
  {
    var ids := ReviewItems(db, event);
    SheetIsComplete(g, db, event, superAdmin);
    var k :| 0 <= k < |ids| && ids[k] == r;
    RowsBeforeAt(ids, k);
    if Stored(db, r).None? {
      forall q | q in ids[..k]
        ensures !Disturbs(db, q, person)
      {
        assert Earlier(db, event, q, r);
      }
      QuietRows(g, db, ids[..k], r, person);
    }
    PreviewedIsDue(g, db, event, r, person, points, sequence);
    PreviewExact(g, db, after, event, superAdmin, r, person, points, sequence);
  }

  /** A successful approval never credits one roster student through two registrations. */
  lemma RosterStudentsDiffer(g: Engine, db: Db, event: EventId, superAdmin: bool, q: RegistrationId, r: RegistrationId)
    requires Inv(db) && ApproveReview(g, db, event, superAdmin).Ok? && q != r
    requires ActiveIn(db, event, q) && q in db.reviews && Eligible(db.reviews[q], db.registrations[q])
    requires ActiveIn(db, event, r) && r in db.reviews && Eligible(db.reviews[r], db.registrations[r])
    ensures db.reviews[q].rosterPerson != db.reviews[r].rosterPerson
  {
    var after := ApproveReview(g, db, event, superAdmin).value;
    ApprovalCorrect(g, db, event, superAdmin);
    ApprovalSheetChange(g, db, event, superAdmin);
    assert Decided(g, after, q) && Decided(g, after, r) && ActiveIn(after, event, q) && ActiveIn(after, event, r);
  }

  lemma ApprovalSheetChange(g: Engine, db: Db, event: EventId, superAdmin: bool)
    requires Inv(db) && ApproveReview(g, db, event, superAdmin).Ok?
    ensures var after := ApproveReview(g, db, event, superAdmin).value;
      && after.registrations.Keys == db.registrations.Keys
      && forall q :: q in db.registrations ==> SameAttendee(db.registrations[q], after.registrations[q])
  {
    SheetIsComplete(g, db, event, superAdmin);
    SheetKeepsInv(g, db, event, ReviewItems(db, event));
  }

  // ---- Whose account is credited ----------------------------------------------

  lemma StudentCredited(g: Engine, db: Db, after: Db, event: EventId, r: RegistrationId, item: Review, person: PersonId)
    requires Inv(db) && ActiveIn(db, event, r) && ApproveStudent(g, db, event, r, item, person) == Ok(after)
    ensures r in after.participations && after.participations[r].person == Credited(db, r, person)
    ensures Stored(db, r).Some? ==> Stored(after, r) == Stored(db, r)
  {
    var linked := Linked(db, r, person);
    LinkedState(db, event, r, person);
    var updated := TakeDecision(g, linked, r, item).value;
    if r in linked.participations {
      UpdateKeepsInv(g, linked, r, Set(Some(item.role)), Set(item.result));
    }
    ConfirmKeepsInv(g, updated, event, r, Some(item.role), item.result, db.registrations[r].attendedAt.None?);
  }

  /** An approved student's points belong to the roster student exactly when the
      participation was absent, already theirs, or a draft of a registration linked to
      somebody else; a cancelled or confirmed one stays with its old person. */
  lemma ApprovalCredits(g: Engine, db: Db, after: Db, event: EventId, superAdmin: bool, r: RegistrationId)
    requires Inv(db) && ApproveReview(g, db, event, superAdmin) == Ok(after)
    requires r in db.reviews && ActiveIn(db, event, r) && Eligible(db.reviews[r], db.registrations[r])
    ensures db.reviews[r].rosterPerson.Some? && r in after.participations
    ensures after.participations[r].person == Credited(db, r, db.reviews[r].rosterPerson.value)
    ensures after.participations[r].person == db.reviews[r].rosterPerson.value <==>
      (r in db.participations && db.participations[r].person != db.reviews[r].rosterPerson.value ==>
         db.participations[r].status == Draft && db.registrations[r].person != db.reviews[r].rosterPerson.value)
  {
    var ids := ReviewItems(db, event);
    SheetIsComplete(g, db, event, superAdmin);
    var k :| 0 <= k < |ids| && ids[k] == r;
    RowCredits(g, db, event, ids, k);
  }

  /** In particular a cancelled participation keeps the points for the person it had when its
      registration is linked to somebody else. */
  lemma CancelledStaysBehind(g: Engine, db: Db, after: Db, event: EventId, superAdmin: bool, r: RegistrationId)
    requires Inv(db) && ApproveReview(g, db, event, superAdmin) == Ok(after)
    requires r in db.reviews && ActiveIn(db, event, r) && Eligible(db.reviews[r], db.registrations[r])
    requires r in db.participations && db.participations[r].status == Cancelled
    requires db.reviews[r].rosterPerson != Some(db.participations[r].person)
    ensures r in after.participations && after.participations[r].person == db.participations[r].person
  {
    ApprovalCredits(g, db, after, event, superAdmin, r);
  }

  lemma EligibleRowCredits(
    g: Engine, db: Db, mid: Db, next: Db, event: EventId, done: seq<RegistrationId>, r: RegistrationId)
    requires Inv(mid) && ActiveIn(mid, event, r) && SheetChange(db, mid, done)
    requires r !in done && mid.reviews == db.reviews
    requires r in db.reviews && r in db.registrations && Eligible(db.reviews[r], db.registrations[r])
    requires ApproveItem(g, mid, event, r) == Ok(next)
    ensures db.reviews[r].rosterPerson.Some? && r in next.participations
    ensures next.participations[r].person == Credited(db, r, db.reviews[r].rosterPerson.value)
  {
    assert mid.registrations[r] == db.registrations[r] && Find(mid.participations, r) == Find(db.participations, r);
    StudentCredited(g, mid, next, event, r, db.reviews[r], db.reviews[r].rosterPerson.value);
  }

  lemma RowCredits(g: Engine, db: Db, event: EventId, ids: seq<RegistrationId>, k: nat)
    requires Inv(db) && k < |ids| && Distinct(ids) && ApproveItems(g, db, event, ids).Ok?
    requires forall q :: q in ids ==> q in db.reviews && ActiveIn(db, event, q)
    requires Eligible(db.reviews[ids[k]], db.registrations[ids[k]])
    ensures var last := ApproveItems(g, db, event, ids).value;
      && db.reviews[ids[k]].rosterPerson.Some? && ids[k] in last.participations
      && last.participations[ids[k]].person == Credited(db, ids[k], db.reviews[ids[k]].rosterPerson.value)
  {
    var r := ids[k];
    var mid, next := RowStep(g, db, event, ids, k);
    EligibleRowCredits(g, db, mid, next, event, ids[..k], r);
    KeptToTheEnd(g, db, event, ids, k, next, ApproveItems(g, db, event, ids).value);
  }
}
