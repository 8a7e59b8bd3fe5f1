/** What holds between any two transactions, and that confirming, cancelling,
    reclassifying, assigning and adjusting keep it. */
module ActivityInvariant {
  import opened Common
  import opened ActivityModel
  import opened ActivityService
  import opened LedgerInvariant

  ghost predicate ParticipationsLinked(
    participations: map<RegistrationId, Participation>, registrations: map<RegistrationId, Registration>)
  {
    forall r :: r in participations ==> r in registrations && registrations[r].event == participations[r].event
  }

  ghost predicate ReviewsLinked(
    reviews: map<RegistrationId, Review>, registrations: map<RegistrationId, Registration>)
  {
    forall r :: r in reviews ==> r in registrations && registrations[r].event == reviews[r].event
  }

  /** A person has at most one active registration for an event. */
  ghost predicate ActiveUnique(registrations: map<RegistrationId, Registration>) {
    forall q, r :: q in registrations && r in registrations && q != r
      && registrations[q].active && registrations[r].active && registrations[q].event == registrations[r].event
      ==> registrations[q].person != registrations[r].person
  }

  ghost predicate Inv(db: Db) {
    && Ledgered(db.ledger, db.participations, {})
    && SequencesUnique(db.participations)
    && ParticipationsLinked(db.participations, db.registrations)
    && ActiveUnique(db.registrations)
    && ReviewsLinked(db.reviews, db.registrations)
  }

  // ---- What the invariant says about points -----------------------------------

  /** Points of the one award that stands for a participation, 0 when none does. */
  function LivePoints(db: Db, r: RegistrationId): int
    requires r in db.participations
  {
    var p := db.participations[r];
    var a := FindAward(db.ledger, r, p.cycle);
    if p.status == Confirmed && p.state == Awarded && a.Some? then db.ledger[a.value].points else 0
  }

  /** In every consistent database the sum of a participation's rows is exactly the
      current-cycle award of a confirmed, awarded participation, and zero otherwise. */
  lemma NetIsLivePoints(db: Db, r: RegistrationId)
    requires Inv(db) && r in db.participations
    ensures Net(db.ledger, r) == LivePoints(db, r)
    ensures Net(db.ledger, r) != 0 <==>
      db.participations[r].status == Confirmed && db.participations[r].state == Awarded
  {
    var p := db.participations[r];
    assert Consistent(db.ledger, r, p);
    if p.status == Confirmed && p.state == Awarded {
      var a: nat :| Stands(db.ledger, r, p.cycle, a);
      StandingAwardFound(db.ledger, r, p.cycle, a);
      assert RowValid(db.ledger, db.participations, a);
    }
  }

  /** Every award of an older cycle has exactly one reversal, which is its negation, and
      no award is ahead of the current cycle. */
  lemma OldAwardsReversedOnce(db: Db, r: RegistrationId, a: nat)
    requires Inv(db) && r in db.participations && a < |db.ledger| && IsAward(db.ledger[a], r)
    ensures 1 <= db.ledger[a].cycle <= db.participations[r].cycle
    ensures db.ledger[a].cycle < db.participations[r].cycle || db.participations[r].status != Confirmed ==>
      exists j :: 0 <= j < |db.ledger| && IsReversalOf(db.ledger, j, a)
        && forall k :: 0 <= k < |db.ledger| && k != j ==> db.ledger[k].original != Some(a)
    ensures forall b :: 0 <= b < |db.ledger| && b != a && IsAward(db.ledger[b], r) ==>
      db.ledger[b].cycle != db.ledger[a].cycle
  {
    var p, l := db.participations[r], db.ledger;
    assert Consistent(l, r, p);
    if p.status == Confirmed && p.state == Awarded {
      var s: nat :| Stands(l, r, p.cycle, s);
      assert a != s ==> Settled(l, r, p.cycle - 1, a);
    } else {
      assert Settled(l, r, p.cycle, a);
    }
    if l[a].cycle < p.cycle || p.status != Confirmed {
      var j :| 0 <= j < |l| && l[j].original == Some(a);
      assert RowValid(l, db.participations, j);
      assert IsReversalOf(l, j, a);
      forall k | 0 <= k < |l| && k != j
        ensures l[k].original != Some(a)
      {
        assert if k < j then RowsDiffer(l[k], l[j]) else RowsDiffer(l[j], l[k]);
      }
    }
    forall b | 0 <= b < |l| && b != a && IsAward(l[b], r)
      ensures l[b].cycle != l[a].cycle
    {
      assert if b < a then RowsDiffer(l[b], l[a]) else RowsDiffer(l[a], l[b]);
    }
  }

  predicate IsReversalOf(ledger: seq<Transaction>, j: nat, a: nat)
    requires j < |ledger| && a < |ledger|
  {
    var t, o := ledger[j], ledger[a];
    t.kind == Reversal && t.original == Some(a) && t.participation == o.participation && t.cycle == o.cycle
    && t.person == o.person && t.points == -o.points
  }

  /** A draft has no ledger rows. */
  lemma DraftsHaveNoRows(db: Db, r: RegistrationId)
    requires Inv(db) && r in db.participations && db.participations[r].status == Draft
    ensures NoRows(db.ledger, r)
  {
    DraftHasNoRows(db.ledger, db.participations, r);
  }

  // ---- Locality ---------------------------------------------------------------

  /** The operation wrote the row of `r`, appended rows about `r`, and nothing else. */
  ghost predicate LocalChange(before: Db, after: Db, r: RegistrationId) {
    && r in after.participations
    && after.participations == before.participations[r := after.participations[r]]
    && after == before.(participations := after.participations, ledger := after.ledger)
    && before.ledger <= after.ledger
    && (forall i :: |before.ledger| <= i < |after.ledger| ==> after.ledger[i].participation == Some(r))
    && (r in before.participations ==>
         && after.participations[r].person == before.participations[r].person
         && after.participations[r].event == before.participations[r].event
         && (before.participations[r].sequence.Some? ==>
             after.participations[r].sequence == before.participations[r].sequence))
    && (r !in before.participations && r in before.registrations ==>
         after.participations[r].person == before.registrations[r].person
         && after.participations[r].event == before.registrations[r].event)
  }

  lemma LocalChangeComposes(a: Db, b: Db, d: Db, r: RegistrationId)
    requires LocalChange(a, b, r) && LocalChange(b, d, r)
    ensures LocalChange(a, d, r)
  {
    assert a.participations[r := d.participations[r]] == b.participations[r := d.participations[r]];
  }

  lemma {:induction false} AppendedNet(
    before: seq<Transaction>, after: seq<Transaction>, r: RegistrationId, q: RegistrationId)
    requires before <= after && q != r
    requires forall i :: |before| <= i < |after| ==> after[i].participation == Some(r)
    ensures Net(after, q) == Net(before, q)
    decreases |after|
  {
    if |after| > |before| {
      AppendedNet(before, after[..|after| - 1], r, q);
    } else {
      assert after == before;
    }
  }

  /** A local change cannot alter what any other participation is owed. */
  lemma LocalChangeKeepsOthers(before: Db, after: Db, r: RegistrationId, q: RegistrationId)
    requires LocalChange(before, after, r) && q != r
    ensures Net(after.ledger, q) == Net(before.ledger, q)
    ensures q in before.participations <==> q in after.participations
    ensures q in before.participations ==> after.participations[q] == before.participations[q]
  {
    AppendedNet(before.ledger, after.ledger, r, q);
  }

  // ---- Confirmation -----------------------------------------------------------

  lemma OpeningIsPending(db: Db, r: RegistrationId, role: RoleId, result: Option<ResultId>)
    requires Inv(db) && r in db.registrations
    requires r in db.participations ==> db.participations[r].status != Confirmed
    ensures var next := Opened(db, r, role, result);
      && Ledgered(next.ledger, next.participations, {r})
      && ReadyToAward(next, r)
      && SequencesUnique(next.participations)
      && ParticipationsLinked(next.participations, next.registrations)
      && LocalChange(db, next, r)
  {
    var p := Opened(db, r, role, result).participations[r];
    if r !in db.participations {
      DraftHasNoRows(db.ledger, db.participations, r);
      NoRowsClosed(db.ledger, r, 0);
    } else {
      assert Consistent(db.ledger, r, db.participations[r]);
    }
    ClosedMonotone(db.ledger, r, p.cycle - 1, p.cycle);
    RowWrite(db, {}, r, p, {r});
    SequenceWrite(db, r, p);
  }

  /** Confirming an unconfirmed participation opens a new cycle worth exactly what the
      engine of its season gives. */
  lemma OpenedAward(g: Engine, db: Db, r: RegistrationId, role: RoleId, result: Option<ResultId>)
    requires Inv(db) && r in db.registrations
    requires r in db.participations ==> db.participations[r].status != Confirmed
    requires AwardScore(g, Opened(db, r, role, result), r).Ok?
    ensures var next := Opened(db, r, role, result); var db' := AwardScore(g, next, r).value;
      && Inv(db') && LocalChange(db, db', r)
      && db'.participations[r] == ScoredRow(g, next, r)
      && Net(db'.ledger, r) == WorthOr0(Worth(g, Numbered(g, next, r), r))
  {
    var next := Opened(db, r, role, result);
    OpeningIsPending(db, r, role, result);
    FinishAward(g, next, r);
    LocalChangeComposes(db, next, AwardScore(g, next, r).value, r);
  }

  lemma FinishAward(g: Engine, db: Db, r: RegistrationId)
    requires Ledgered(db.ledger, db.participations, {r}) && r in db.participations
    requires ReadyToAward(db, r)
    requires SequencesUnique(db.participations)
    requires ParticipationsLinked(db.participations, db.registrations) && ActiveUnique(db.registrations)
    requires ReviewsLinked(db.reviews, db.registrations)
    requires AwardScore(g, db, r).Ok?
    ensures var db' := AwardScore(g, db, r).value;
      && Inv(db') && LocalChange(db, db', r)
      && db'.participations[r] == ScoredRow(g, db, r)
      && Net(db'.ledger, r) == WorthOr0(Worth(g, Numbered(g, db, r), r))
  {
    AwardKeepsLedgered(g, db, {r}, r);
    AwardKeepsSequences(g, db, r);
    assert {r} - {r} == {};
  }

  lemma ConfirmKeepsInv(
    g: Engine, db: Db, event: EventId, r: RegistrationId, role: Option<RoleId>, result: Option<ResultId>, allow: bool)
    requires Inv(db) && ConfirmRegistration(g, db, event, r, role, result, allow).Ok?
    ensures var db' := ConfirmRegistration(g, db, event, r, role, result, allow).value;
      && Inv(db') && LocalChange(db, db', r) && db'.participations[r].status == Confirmed
      && (r in db.participations && db.participations[r].status == Confirmed ==> db' == db)
  {
    var existing := Find(db.participations, r);
    var newRole := OrElse(role, if existing.Some? then existing.value.role else None);
    var newResult := OrElse(result, if existing.Some? then existing.value.result else None);
    if existing.Some? && existing.value.status == Confirmed {
      assert db.participations == db.participations[r := db.participations[r]];
    } else {
      OpenedAward(g, db, r, newRole.value, newResult);
    }
  }

  // ---- Cancellation -----------------------------------------------------------

  lemma CancelKeepsInv(db: Db, r: RegistrationId)
    requires Inv(db) && CancelParticipation(db, r).Ok?
    ensures var db' := CancelParticipation(db, r).value;
      && Inv(db') && LocalChange(db, db', r) && db'.participations[r].status == Cancelled
      && Net(db'.ledger, r) == 0
      && CancelParticipation(db', r) == Ok(db')
  {
    var p := db.participations[r];
    assert Consistent(db.ledger, r, p);
    if p.status == Cancelled {
      assert db.participations == db.participations[r := p];
    } else if p.status == Confirmed {
      CancelConfirmed(db, r);
    } else {
      RowWrite(db, {}, r, CancelledRow(p), {});
      SequenceWrite(db, r, CancelledRow(p));
    }
  }

  lemma CancelConfirmed(db: Db, r: RegistrationId)
    requires Inv(db) && r in db.participations && db.participations[r].status == Confirmed
    ensures var db' := SetParticipation(Reverse(db, r), r, CancelledRow(db.participations[r]));
      Inv(db') && LocalChange(db, db', r) && Net(db'.ledger, r) == 0
  {
    var p := db.participations[r];
    ReverseKeepsLedgered(db, {}, r);
    RowWrite(Reverse(db, r), {r}, r, CancelledRow(p), {});
    SequenceWrite(db, r, CancelledRow(p));
  }

  // ---- Reclassification -------------------------------------------------------

  lemma ReclassifyingIsPending(db: Db, r: RegistrationId, role: Option<RoleId>, result: Option<ResultId>)
    requires Inv(db) && r in db.participations && db.participations[r].status == Confirmed
    ensures var next := Reclassified(db, r, role, result);
      && Ledgered(next.ledger, next.participations, {r})
      && ReadyToAward(next, r)
      && SequencesUnique(next.participations)
      && ParticipationsLinked(next.participations, next.registrations)
      && LocalChange(db, next, r)
  {
    var p := Reclassified(db, r, role, result).participations[r];
    ReverseKeepsLedgered(db, {}, r);
    ClosedMonotone(Reverse(db, r).ledger, r, p.cycle - 1, p.cycle);
    RowWrite(Reverse(db, r), {r}, r, p, {r});
    SequenceWrite(db, r, p);
  }

  lemma ReclassifiedAward(g: Engine, db: Db, r: RegistrationId, role: Option<RoleId>, result: Option<ResultId>)
    requires Inv(db) && r in db.participations && db.participations[r].status == Confirmed
    requires AwardScore(g, Reclassified(db, r, role, result), r).Ok?
    ensures var next := Reclassified(db, r, role, result); var db' := AwardScore(g, next, r).value;
      && Inv(db') && LocalChange(db, db', r)
      && db'.participations[r] == ScoredRow(g, next, r)
      && Net(db'.ledger, r) == WorthOr0(Worth(g, Numbered(g, next, r), r))
  {
    var next := Reclassified(db, r, role, result);
    ReclassifyingIsPending(db, r, role, result);
    FinishAward(g, next, r);
    LocalChangeComposes(db, next, AwardScore(g, next, r).value, r);
  }

  lemma ReclassifiedRow(g: Engine, db: Db, r: RegistrationId, role: Option<RoleId>, result: Option<ResultId>)
    requires Inv(db) && r in db.participations && db.participations[r].status == Confirmed
    requires AwardScore(g, Reclassified(db, r, role, result), r).Ok?
    ensures var db' := AwardScore(g, Reclassified(db, r, role, result), r).value;
      && Inv(db') && LocalChange(db, db', r)
      && db'.participations[r].status == Confirmed
      && db'.participations[r].role == role && db'.participations[r].result == result
  {
    ReclassifiedAward(g, db, r, role, result);
    ScoredRowFields(g, Reclassified(db, r, role, result), r);
  }

  lemma UpdateKeepsInv(g: Engine, db: Db, r: RegistrationId, role: Field, result: Field)
    requires Inv(db) && UpdateParticipation(g, db, r, role, result).Ok?
    ensures var db' := UpdateParticipation(g, db, r, role, result).value;
      && Inv(db') && LocalChange(db, db', r)
      && db'.participations[r].status == db.participations[r].status
      && db'.participations[r].role == Patched(role, db.participations[r].role)
      && db'.participations[r].result == Patched(result, db.participations[r].result)
  {
    var p := db.participations[r];
    var newRole, newResult := Patched(role, p.role), Patched(result, p.result);
    if newRole == p.role && newResult == p.result {
      assert db.participations == db.participations[r := p];
    } else if p.status == Confirmed {
      ReclassifiedRow(g, db, r, newRole, newResult);
    } else {
      RelabelUnconfirmed(db, r, p.(role := newRole, result := newResult));
    }
  }

  /** `award_score` writes only the scoring state and a missing sequence. */
  lemma ScoredRowFields(g: Engine, db: Db, r: RegistrationId)
    requires r in db.participations
    ensures var p, p' := db.participations[r], ScoredRow(g, db, r);
      p' == p.(state := p'.state, sequence := p'.sequence) && (p.sequence.Some? ==> p'.sequence == p.sequence)
  {
  }

  lemma RelabelUnconfirmed(db: Db, r: RegistrationId, p': Participation)
    requires Inv(db) && r in db.participations && db.participations[r].status != Confirmed
    requires p' == db.participations[r].(role := p'.role, result := p'.result)
    ensures Inv(SetParticipation(db, r, p')) && LocalChange(db, SetParticipation(db, r, p'), r)
  {
    assert Consistent(db.ledger, r, db.participations[r]);
    RowWrite(db, {}, r, p', {});
    SequenceWrite(db, r, p');
  }

  // ---- Draft assignment and manual adjustment ---------------------------------

  lemma AssignKeepsInv(g: Engine, db: Db, event: EventId, r: RegistrationId, role: RoleId, result: Option<ResultId>)
    requires Inv(db) && AssignParticipation(g, db, event, r, role, result).Ok?
    ensures var db' := AssignParticipation(g, db, event, r, role, result).value;
      Inv(db') && LocalChange(db, db', r)
  {
    if r in db.participations {
      UpdateKeepsInv(g, db, r, Set(Some(role)), Set(result));
    } else {
      var p := AssignParticipation(g, db, event, r, role, result).value.participations[r];
      DraftHasNoRows(db.ledger, db.participations, r);
      NoRowsClosed(db.ledger, r, 0);
      RowWrite(db, {}, r, p, {});
      SequenceWrite(db, r, p);
    }
  }

  /** An adjustment counts once: repeating its request changes nothing, and a request
      identifier used for something else is refused. */
  lemma AdjustKeepsInv(db: Db, person: PersonId, points: int, request: nat)
    requires Inv(db) && AdjustScore(db, person, points, request).Ok?
    ensures var db', known := AdjustScore(db, person, points, request).value, FindRequest(db.ledger, request).Some?;
      && Inv(db')
      && Total(db'.ledger, person) == Total(db.ledger, person) + (if known then 0 else points)
      && (forall r :: Net(db'.ledger, r) == Net(db.ledger, r))
      && AdjustScore(db', person, points, request) == Ok(db')
  {
    if FindRequest(db.ledger, request).None? {
      AdjustmentAdded(db, person, points, request);
    }
  }

  lemma AdjustmentAdded(db: Db, person: PersonId, points: int, request: nat)
    requires Inv(db) && points != 0 && FindRequest(db.ledger, request).None?
    ensures var ledger := db.ledger + [AdjustmentRow(person, points, request)];
      && Inv(db.(ledger := ledger))
      && Total(ledger, person) == Total(db.ledger, person) + points
      && forall r :: Net(ledger, r) == Net(db.ledger, r)
  {
    var t := AdjustmentRow(person, points, request);
    TotalAppend(db.ledger, t, person);
    forall r
      ensures Net(db.ledger + [t], r) == Net(db.ledger, r)
    {
      NetAppend(db.ledger, t, r);
    }
    AppendValid(db.ledger, t, db.participations);
    forall q | q in db.participations
      ensures Consistent(db.ledger + [t], q, db.participations[q])
    {
      AppendFrame(db.ledger, t, q, db.participations[q]);
    }
  }
}
