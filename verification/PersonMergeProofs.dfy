/** What both merges keep, and what the ordered merge promises. */
module PersonMergeProofs {
  import opened Common
  import opened ActivityModel
  import opened ActivityService
  import opened LedgerInvariant
  import opened ActivityInvariant
  import opened PersonMerge

  // ---- Handing rows over ------------------------------------------------------

  lemma {:induction false} MovedNet(ledger: seq<Transaction>, target: PersonId, source: PersonId, r: RegistrationId)
    ensures Net(MovedLedger(ledger, target, source), r) == Net(ledger, r)
  {
    if ledger != [] {
      var front, t := ledger[..|ledger| - 1], ledger[|ledger| - 1];
      MovedNet(front, target, source, r);
      NetAppend(MovedLedger(front, target, source), t.(person := Moved(t.person, target, source)), r);
    }
  }

  /** The target gets both totals, the source nothing, and everyone else what they had. */
  lemma {:induction false} MovedTotal(ledger: seq<Transaction>, target: PersonId, source: PersonId, person: PersonId)
    requires target != source
    ensures Total(MovedLedger(ledger, target, source), person) ==
      if person == target then Total(ledger, target) + Total(ledger, source)
      else if person == source then 0 else Total(ledger, person)
  {
    if ledger != [] {
      var front, t := ledger[..|ledger| - 1], ledger[|ledger| - 1];
      MovedTotal(front, target, source, person);
      TotalAppend(MovedLedger(front, target, source), t.(person := Moved(t.person, target, source)), person);
    }
  }

  lemma MovedReversed(ledger: seq<Transaction>, target: PersonId, source: PersonId, i: nat)
    ensures Reversed(MovedLedger(ledger, target, source), i) == Reversed(ledger, i)
  {
    var l' := MovedLedger(ledger, target, source);
    assert forall j :: 0 <= j < |ledger| ==> l'[j].original == ledger[j].original;
  }

  lemma MovedRow(ledger: seq<Transaction>, target: PersonId, source: PersonId, r: RegistrationId, p: Participation)
    ensures var l' := MovedLedger(ledger, target, source); var p' := p.(person := Moved(p.person, target, source));
      && (Consistent(ledger, r, p) ==> Consistent(l', r, p'))
      && (PendingAward(ledger, r, p) ==> PendingAward(l', r, p'))
  {
    var l' := MovedLedger(ledger, target, source);
    MovedNet(ledger, target, source, r);
    forall i, cycle | 0 <= i < |ledger|
      ensures Settled(l', r, cycle, i) == Settled(ledger, r, cycle, i)
    {
      MovedReversed(ledger, target, source, i);
    }
    forall cycle: nat, a: nat | Stands(ledger, r, cycle, a)
      ensures Stands(l', r, cycle, a)
    {
      MovedReversed(ledger, target, source, a);
    }
  }

  lemma MoveKeepsLedgered(
    ledger: seq<Transaction>, participations: map<RegistrationId, Participation>, pending: set<RegistrationId>,
    target: PersonId, source: PersonId)
    requires Ledgered(ledger, participations, pending)
    ensures Ledgered(MovedLedger(ledger, target, source), MovedParticipations(participations, target, source), pending)
  {
    var l', parts' := MovedLedger(ledger, target, source), MovedParticipations(participations, target, source);
    forall i | 0 <= i < |l'|
      ensures RowValid(l', parts', i)
    {
      assert RowValid(ledger, participations, i);
    }
    forall i, j | 0 <= i < j < |l'|
      ensures RowsDiffer(l'[i], l'[j])
    {
      assert RowsDiffer(ledger[i], ledger[j]);
    }
    forall r | r in parts'
      ensures if r in pending then PendingAward(l', r, parts'[r]) else Consistent(l', r, parts'[r])
    {
      MovedRow(ledger, target, source, r, participations[r]);
    }
  }

  // ---- The plain merge --------------------------------------------------------

  lemma PlainMergeKeepsInv(db: Db, target: PersonId, source: PersonId)
    requires Inv(db) && target != source && MergeConflicts(db, target, source) == []
    ensures Inv(ApplyPersonMerge(db, target, source))
  {
    var db' := ApplyPersonMerge(db, target, source);
    assert !BothNumbered(db, target, source) && !BothRegistered(db, target, source);
    MoveKeepsLedgered(db.ledger, db.participations, {}, target, source);
    MergedRegistrationsUnique(db, target, source);
    forall q, r | q in db'.participations && r in db'.participations && q != r
      && db'.participations[q].person == db'.participations[r].person && db'.participations[q].sequence.Some?
      ensures db'.participations[q].sequence != db'.participations[r].sequence
    {
      assert q in db.participations && r in db.participations;
    }
  }

  lemma MergedRegistrationsUnique(db: Db, target: PersonId, source: PersonId)
    requires ActiveUnique(db.registrations) && !BothRegistered(db, target, source)
    ensures ActiveUnique(MovedRegistrations(db.registrations, target, source))
  {
    var regs := MovedRegistrations(db.registrations, target, source);
    forall q, r | q in regs && r in regs && q != r
      && regs[q].active && regs[r].active && regs[q].event == regs[r].event
      ensures regs[q].person != regs[r].person
    {
      assert q in db.registrations && r in db.registrations;
    }
  }

  /** A plain merge changes nobody's points but moves the source's to the target. */
  lemma PlainMergePoints(db: Db, target: PersonId, source: PersonId)
    requires target != source
    ensures var db' := ApplyPersonMerge(db, target, source);
      && (forall r :: Net(db'.ledger, r) == Net(db.ledger, r))
      && Total(db'.ledger, target) == Total(db.ledger, target) + Total(db.ledger, source)
      && Total(db'.ledger, source) == 0
      && forall person :: person != target && person != source ==>
           Total(db'.ledger, person) == Total(db.ledger, person)
  {
    forall r
      ensures Net(MovedLedger(db.ledger, target, source), r) == Net(db.ledger, r)
    {
      MovedNet(db.ledger, target, source, r);
    }
    forall person
      ensures Total(MovedLedger(db.ledger, target, source), person) ==
        if person == target then Total(db.ledger, target) + Total(db.ledger, source)
        else if person == source then 0 else Total(db.ledger, person)
    {
      MovedTotal(db.ledger, target, source, person);
    }
  }

  // ---- Conflicts and leftovers ------------------------------------------------

  lemma ConflictListed(db: Db, target: PersonId, source: PersonId)
    ensures var found := MergeConflicts(db, target, source);
      && (ActiveRegistrationConflict in found <==> BothRegistered(db, target, source))
      && (ConfirmedParticipationConflict in found <==> BothConfirmed(db, target, source))
      && (ScoringSequenceConflict in found <==> BothNumbered(db, target, source))
      && (MembershipOverlap in found <==> OverlappingMemberships(db, target, source))
      && (StatusOverlap in found <==> OverlappingStatuses(db, target, source))
  {
  }

  /** No event has two confirmed participations of the person. */
  ghost predicate ConfirmedOnce(participations: map<RegistrationId, Participation>, person: PersonId) {
    forall q, r :: q in participations && r in participations && q != r
      && participations[q].person == person && participations[r].person == person
      && participations[q].status == Confirmed && participations[r].status == Confirmed
      ==> participations[q].event != participations[r].event
  }

  /** Each of the first three conflicts is reported exactly when the plain merge would break
      the uniqueness it protects. */
  lemma ConflictsAreExact(db: Db, target: PersonId, source: PersonId)
    requires target != source && ActiveUnique(db.registrations) && SequencesUnique(db.participations)
    requires ConfirmedOnce(db.participations, target) && ConfirmedOnce(db.participations, source)
    ensures var after := ApplyPersonMerge(db, target, source);
      && (ActiveRegistrationConflict in MergeConflicts(db, target, source) <==> !ActiveUnique(after.registrations))
      && (ConfirmedParticipationConflict in MergeConflicts(db, target, source) <==>
           !ConfirmedOnce(after.participations, target))
      && (ScoringSequenceConflict in MergeConflicts(db, target, source) <==> !SequencesUnique(after.participations))
  {
    ConflictListed(db, target, source);
    RegistrationConflictExact(db, target, source);
    ConfirmedConflictExact(db, target, source);
    SequenceConflictExact(db, target, source);
  }

  lemma RegistrationConflictExact(db: Db, target: PersonId, source: PersonId)
    requires target != source && ActiveUnique(db.registrations)
    ensures BothRegistered(db, target, source) <==> !ActiveUnique(MovedRegistrations(db.registrations, target, source))
  {
    var regs := MovedRegistrations(db.registrations, target, source);
    if BothRegistered(db, target, source) {
      var a, b :| a in db.registrations && b in db.registrations
        && db.registrations[a].person == source && db.registrations[b].person == target
        && db.registrations[a].active && db.registrations[b].active
        && db.registrations[a].event == db.registrations[b].event;
      assert regs[a].person == regs[b].person && a != b;
    } else {
      MergedRegistrationsUnique(db, target, source);
    }
  }

  lemma ConfirmedConflictExact(db: Db, target: PersonId, source: PersonId)
    requires target != source && ConfirmedOnce(db.participations, target) && ConfirmedOnce(db.participations, source)
    ensures BothConfirmed(db, target, source) <==>
      !ConfirmedOnce(MovedParticipations(db.participations, target, source), target)
  {
    var parts := MovedParticipations(db.participations, target, source);
    if BothConfirmed(db, target, source) {
      var a, b :| a in db.participations && b in db.participations
        && db.participations[a].person == source && db.participations[b].person == target
        && db.participations[a].status == Confirmed && db.participations[b].status == Confirmed
        && db.participations[a].event == db.participations[b].event;
      assert parts[a].person == target && parts[b].person == target && a != b;
    }
  }

  lemma SequenceConflictExact(db: Db, target: PersonId, source: PersonId)
    requires target != source && SequencesUnique(db.participations)
    ensures BothNumbered(db, target, source) <==>
      !SequencesUnique(MovedParticipations(db.participations, target, source))
  {
    var parts := MovedParticipations(db.participations, target, source);
    if BothNumbered(db, target, source) {
      var a, b :| a in db.participations && b in db.participations
        && db.participations[a].person == source && db.participations[b].person == target
        && db.participations[a].sequence.Some? && db.participations[a].sequence == db.participations[b].sequence;
      assert parts[a].person == parts[b].person && a != b;
    }
  }

  /** Nothing refers to the source any more, and nobody on the roster is lost. */
  lemma SourceLeftEmpty(db: Db, target: PersonId, source: PersonId)
    requires target != source && source in db.persons
    ensures var after := ApplyPersonMerge(db, target, source);
      && (forall r :: r in after.participations ==> after.participations[r].person != source)
      && (forall i :: 0 <= i < |after.ledger| ==> after.ledger[i].person != source)
      && (forall r :: r in after.registrations ==>
           after.registrations[r].person != source && after.registrations[r].rosterPerson != Some(source))
      && (forall r :: r in after.reviews ==> after.reviews[r].rosterPerson != Some(source))
      && (forall i :: 0 <= i < |after.memberships| ==> after.memberships[i].person != source)
      && (forall i :: 0 <= i < |after.statuses| ==> after.statuses[i].person != source)
      && (forall p :: p in after.persons ==> after.persons[p].mergedInto != Some(source))
      && after.persons[source].mergedInto == Some(target)
      && (target in after.roster <==> target in db.roster || source in db.roster)
      && (source in after.roster <==> source in db.roster && target in db.roster)
      && forall p :: p != target && p != source ==> (p in after.roster <==> p in db.roster)
  {
  }

  // ---- Phases of the ordered merge --------------------------------------------

  /** Phase 1 has taken back exactly the awards of `done`. */
  ghost predicate ReversedSoFar(db: Db, after: Db, done: set<RegistrationId>) {
    && after == db.(ledger := after.ledger) && db.ledger <= after.ledger
    && Ledgered(after.ledger, after.participations, done)
    && forall r :: Net(after.ledger, r) == if r in done then 0 else Net(db.ledger, r)
  }

  lemma ReversedOneMore(db: Db, before: Db, done: set<RegistrationId>, r: RegistrationId)
    requires ReversedSoFar(db, before, done)
    requires r in db.participations && r !in done && db.participations[r].status == Confirmed
    ensures ReversedSoFar(db, Reverse(before, r), done + {r})
  {
    ReverseKeepsLedgered(before, done, r);
  }

  /** The listed registrations that were chosen. */
  function Among(ids: seq<RegistrationId>, chosen: set<RegistrationId>): set<RegistrationId> {
    set r | r in ids && r in chosen
  }

  lemma AmongOneMore(ids: seq<RegistrationId>, chosen: set<RegistrationId>)
    requires ids != [] && Distinct(ids)
    ensures var front, r := ids[..|ids| - 1], ids[|ids| - 1];
      && Distinct(front) && r !in Among(front, chosen)
      && Among(ids, chosen) == if r in chosen then Among(front, chosen) + {r} else Among(front, chosen)
  {
    var front, r := ids[..|ids| - 1], ids[|ids| - 1];
    assert ids == front + [r];
    assert r !in front;
  }

  lemma {:induction false} ReverseAllKeeps(db: Db, ids: seq<RegistrationId>, chosen: set<RegistrationId>)
    requires Ledgered(db.ledger, db.participations, {}) && Distinct(ids)
    requires forall r :: r in ids ==> r in db.participations
    requires forall r :: r in ids && r in chosen ==> db.participations[r].status == Confirmed
    ensures ReversedSoFar(db, ReverseAll(db, ids, chosen), Among(ids, chosen))
  {
    if ids == [] {
      assert Among(ids, chosen) == {};
    } else {
      var front, r := ids[..|ids| - 1], ids[|ids| - 1];
      AmongOneMore(ids, chosen);
      ReverseAllKeeps(db, front, chosen);
      ReversedNext(db, ReverseAll(db, front, chosen), Among(front, chosen), chosen, r);
    }
  }

  lemma ReversedNext(db: Db, before: Db, earlier: set<RegistrationId>, chosen: set<RegistrationId>, r: RegistrationId)
    requires ReversedSoFar(db, before, earlier) && r in db.participations && r !in earlier
    requires r in chosen ==> db.participations[r].status == Confirmed
    ensures ReversedSoFar(db, ReverseNext(before, r, chosen), if r in chosen then earlier + {r} else earlier)
  {
    if r in chosen {
      ReversedOneMore(db, before, earlier, r);
    }
  }

  /** Rewriting sequences alone, never giving one to a draft, keeps every row consistent. */
  lemma ResequenceKeepsLedgered(
    ledger: seq<Transaction>, a: map<RegistrationId, Participation>, b: map<RegistrationId, Participation>,
    pending: set<RegistrationId>)
    requires Ledgered(ledger, a, pending) && a.Keys == b.Keys
    requires forall r :: r in a ==> b[r] == a[r].(sequence := b[r].sequence)
    requires forall r :: r in a && a[r].status == Draft ==> b[r].sequence.None?
    ensures Ledgered(ledger, b, pending)
  {
    forall i | 0 <= i < |ledger|
      ensures RowValid(ledger, b, i)
    {
      assert RowValid(ledger, a, i);
    }
    forall r | r in b
      ensures if r in pending then PendingAward(ledger, r, b[r]) else Consistent(ledger, r, b[r])
    {
      assert if r in pending then PendingAward(ledger, r, a[r]) else Consistent(ledger, r, a[r]);
    }
  }

  lemma {:induction false} RenumberAt(
    participations: map<RegistrationId, Participation>, order: seq<RegistrationId>, target: PersonId)
    requires Distinct(order)
    requires forall r :: r in order ==> r in participations && participations[r].person == target
    ensures var b := Renumber(participations, order, target);
      && b.Keys == participations.Keys
      && (forall r :: r in participations && r !in order ==> b[r] == participations[r])
      && forall k :: 0 <= k < |order| ==> b[order[k]] == participations[order[k]].(sequence := Some(k + 1))
  {
    if order != [] {
      var front, r := order[..|order| - 1], order[|order| - 1];
      assert order == front + [r];
      RenumberAt(participations, front, target);
      var a, b := Renumber(participations, front, target), Renumber(participations, order, target);
      assert r !in front;
      assert b == a[r := participations[r].(sequence := Some(|order|))];
      forall k | 0 <= k < |order|
        ensures b[order[k]] == participations[order[k]].(sequence := Some(k + 1))
      {
        assert k < |front| ==> order[k] == front[k];
      }
    }
  }

  /** What phase 5 makes of the row of a recalculated participation. */
  ghost predicate ReAwarded(g: Engine, before: Db, after: Db, r: RegistrationId)
    requires r in before.participations && r in after.participations
  {
    var p, p' := before.participations[r], after.participations[r];
    var worth := g.v2Points(before.statuses, p.event, p.person, p.role, p.result,
      if p.sequence.Some? then p.sequence.value else 0);
    && p' == p.(cycle := p.cycle + 1, state := if worth.Points? then Awarded else NoRule)
    && Net(after.ledger, r) == WorthOr0(worth)
  }

  /** Phase 5 has dealt with exactly the recalculated participations among `done`. */
  ghost predicate AwardedSoFar(g: Engine, db: Db, after: Db, done: set<RegistrationId>) {
    && after == db.(participations := after.participations, ledger := after.ledger)
    && db.ledger <= after.ledger && after.participations.Keys == db.participations.Keys
    && (forall r :: r in done && r in db.participations ==> ReAwarded(g, db, after, r))
    && (forall r :: r !in done ==> Net(after.ledger, r) == Net(db.ledger, r))
    && forall r :: r in db.participations && r !in done ==> after.participations[r] == db.participations[r]
  }

  lemma AwardedOneMore(g: Engine, db: Db, before: Db, after: Db, done: set<RegistrationId>, r: RegistrationId)
    requires AwardedSoFar(g, db, before, done) && r in db.participations && r !in done
    requires r in before.participations && r in after.participations
    requires after ==
      before.(participations := before.participations[r := after.participations[r]], ledger := after.ledger)
    requires before.ledger <= after.ledger && ReAwarded(g, before, after, r)
    requires forall q :: q != r ==> Net(after.ledger, q) == Net(before.ledger, q)
    ensures AwardedSoFar(g, db, after, done + {r})
  {
    assert ReAwarded(g, db, after, r);
    forall q | q in done + {r} && q in db.participations
      ensures ReAwarded(g, db, after, q)
    {
      assert q == r || ReAwarded(g, db, before, q);
    }
  }

  lemma {:induction false} AwardAllKeeps(g: Engine, db: Db, order: seq<RegistrationId>, chosen: set<RegistrationId>)
    requires Ledgered(db.ledger, db.participations, chosen) && Distinct(order)
    requires forall r :: r in chosen ==> r in db.participations && g.usesV2(db.participations[r].event)
    requires forall r :: r in order ==> r in db.participations && db.participations[r].sequence.Some?
    requires AwardAll(g, db, order, chosen).Ok?
    ensures var db' := AwardAll(g, db, order, chosen).value; var done := Among(order, chosen);
      AwardedSoFar(g, db, db', done) && Ledgered(db'.ledger, db'.participations, chosen - done)
  {
    if order == [] {
      assert Among(order, chosen) == {} && chosen - {} == chosen;
    } else {
      var front, r := order[..|order| - 1], order[|order| - 1];
      AmongOneMore(order, chosen);
      AwardAllKeeps(g, db, front, chosen);
      AwardNextKeeps(g, db, AwardAll(g, db, front, chosen).value, AwardAll(g, db, order, chosen).value, chosen,
        Among(front, chosen), r);
    }
  }

  lemma AwardNextKeeps(
    g: Engine, db: Db, before: Db, after: Db, chosen: set<RegistrationId>, earlier: set<RegistrationId>,
    r: RegistrationId)
    requires AwardedSoFar(g, db, before, earlier) && Ledgered(before.ledger, before.participations, chosen - earlier)
    requires forall q :: q in chosen ==> q in db.participations && g.usesV2(db.participations[q].event)
    requires r in db.participations && db.participations[r].sequence.Some? && r !in earlier
    requires AwardNext(g, before, r, chosen) == Ok(after)
    ensures var done := if r in chosen then earlier + {r} else earlier;
      AwardedSoFar(g, db, after, done) && Ledgered(after.ledger, after.participations, chosen - done)
  {
    if r in chosen {
      AwardOne(g, before, chosen - earlier, r);
      assert chosen - (earlier + {r}) == chosen - earlier - {r};
      AwardedOneMore(g, db, before, after, earlier, r);
    }
  }

  lemma AwardOne(g: Engine, db: Db, pending: set<RegistrationId>, r: RegistrationId)
    requires Ledgered(db.ledger, db.participations, pending) && r in pending && r in db.participations
    requires g.usesV2(db.participations[r].event) && db.participations[r].sequence.Some?
    requires AwardScore(g, BumpCycle(db, r), r).Ok?
    ensures var after := AwardScore(g, BumpCycle(db, r), r).value;
      && after == db.(participations := after.participations, ledger := after.ledger)
      && after.participations.Keys == db.participations.Keys
      && after.participations == db.participations[r := after.participations[r]]
      && db.ledger <= after.ledger
      && Ledgered(after.ledger, after.participations, pending - {r})
      && ReAwarded(g, db, after, r)
      && forall q :: q != r ==> Net(after.ledger, q) == Net(db.ledger, q)
  {
    var next, p := BumpCycle(db, r), db.participations[r];
    ClosedMonotone(db.ledger, r, p.cycle, p.cycle + 1);
    RowWrite(db, pending, r, next.participations[r], pending);
    AwardKeepsLedgered(g, next, pending, r);
    assert Numbered(g, next, r) == next by {
      assert next.participations[r := next.participations[r]] == next.participations;
    }
  }

  // ---- The ordered merge ------------------------------------------------------

  /** The submitted order lists exactly the participations of the two people that are
      confirmed or numbered, each once. */
  ghost predicate ValidOrder(db: Db, target: PersonId, source: PersonId, order: seq<RegistrationId>) {
    && Distinct(order)
    && forall r :: r in order <==>
         && r in db.participations
         && (db.participations[r].person == target || db.participations[r].person == source)
         && (db.participations[r].status == Confirmed || db.participations[r].sequence.Some?)
  }

  lemma AcceptedOrderValid(
    g: Engine, db: Db, target: PersonId, source: PersonId, order: seq<RegistrationId>, version: seq<OrderRow>)
    requires ApplyOrderedPersonMerge(g, db, target, source, order, version).Ok?
    ensures ValidOrder(db, target, source, order)
    ensures var ids := NumberedParticipations(db, target, source);
      Distinct(ids) && forall r :: r in ids <==> r in order
  {
    var ids := NumberedParticipations(db, target, source);
    var a, b := set q | q in order, set q | q in ids;
    assert a == b;
    forall r
      ensures r in order <==> r in ids
    {
      assert r in order <==> r in a;
      assert r in ids <==> r in b;
    }
  }

  /** Phases 2 and 3 leave the people's participations with the target and unnumbered. */
  lemma ClearedAndMergedState(db: Db, pending: set<RegistrationId>, target: PersonId, source: PersonId)
    requires Ledgered(db.ledger, db.participations, pending)
    ensures var m := ClearedAndMerged(db, target, source);
      && Ledgered(m.ledger, m.participations, pending)
      && m.ledger == MovedLedger(db.ledger, target, source)
      && m.participations.Keys == db.participations.Keys
      && (forall r :: Net(m.ledger, r) == Net(db.ledger, r))
      && forall r :: r in db.participations ==>
           var p, q := db.participations[r], m.participations[r];
           q == p.(person := Moved(p.person, target, source),
                   sequence := if p.person == target || p.person == source then None else p.sequence)
  {
    var cleared := ClearSequences(db.participations, target, source);
    ResequenceKeepsLedgered(db.ledger, db.participations, cleared, pending) by {
      forall r | r in cleared && cleared[r].status == Draft
        ensures cleared[r].sequence.None?
      {
        assert if r in pending then PendingAward(db.ledger, r, db.participations[r])
               else Consistent(db.ledger, r, db.participations[r]);
      }
    }
    MoveKeepsLedgered(db.ledger, cleared, pending, target, source);
    forall r
      ensures Net(MovedLedger(db.ledger, target, source), r) == Net(db.ledger, r)
    {
      MovedNet(db.ledger, target, source, r);
    }
  }

  lemma RenumberKeepsLedgered(
    db: Db, pending: set<RegistrationId>, order: seq<RegistrationId>, target: PersonId)
    requires Ledgered(db.ledger, db.participations, pending) && Distinct(order)
    requires forall r :: r in order ==>
      r in db.participations && db.participations[r].person == target && db.participations[r].status != Draft
    ensures Ledgered(db.ledger, Renumber(db.participations, order, target), pending)
  {
    RenumberAt(db.participations, order, target);
    var parts := Renumber(db.participations, order, target);
    forall r | r in parts
      ensures parts[r] == db.participations[r].(sequence := parts[r].sequence)
      ensures parts[r].status == Draft ==> parts[r].sequence.None?
    {
      if r in order {
        var k :| 0 <= k < |order| && order[k] == r;
      } else {
        assert if r in pending then PendingAward(db.ledger, r, parts[r]) else Consistent(db.ledger, r, parts[r]);
      }
    }
    ResequenceKeepsLedgered(db.ledger, db.participations, parts, pending);
  }

  /** Every row belongs to the target under its new position, or is as the plain merge
      leaves it and, if it is the target's, unnumbered. */
  ghost predicate Repositioned(
    before: map<RegistrationId, Participation>, after: map<RegistrationId, Participation>,
    order: seq<RegistrationId>, target: PersonId, source: PersonId)
    requires forall r :: r in order ==> r in before
  {
    && after.Keys == before.Keys
    && (forall k :: 0 <= k < |order| ==>
         after[order[k]] == before[order[k]].(person := target, sequence := Some(k + 1)))
    && forall r :: r in before && r !in order ==>
         after[r] == before[r].(person := Moved(before[r].person, target, source),
           sequence := if before[r].person == target || before[r].person == source then None else before[r].sequence)
  }

  /** The tables before the re-awards: everything recalculated is pending, everything
      ordered is the target's and numbered by its position. */
  lemma ReorderedState(
    g: Engine, db: Db, target: PersonId, source: PersonId, ids: seq<RegistrationId>, order: seq<RegistrationId>)
    requires Inv(db) && target != source && ValidOrder(db, target, source, order) && Distinct(ids)
    requires forall r :: r in ids <==> r in order
    ensures var next := Reordered(g, db, target, source, ids, order); var chosen := Recalculated(g, db, ids);
      && Ledgered(next.ledger, next.participations, chosen)
      && MovedLedger(db.ledger, target, source) <= next.ledger
      && (forall r :: Net(next.ledger, r) == if r in chosen then 0 else Net(db.ledger, r))
      && Repositioned(db.participations, next.participations, order, target, source)
      && next.registrations == MovedRegistrations(db.registrations, target, source)
      && next.reviews == MovedReviews(db.reviews, target, source)
  {
    var chosen := Recalculated(g, db, ids);
    ReverseAllKeeps(db, ids, chosen);
    assert Among(ids, chosen) == chosen;
    OrderedAreNotDrafts(db, target, source, order);
    RepositionedState(db, ReverseAll(db, ids, chosen), chosen, order, target, source);
  }

  lemma RepositionedState(
    db: Db, reversed: Db, chosen: set<RegistrationId>, order: seq<RegistrationId>, target: PersonId, source: PersonId)
    requires ReversedSoFar(db, reversed, chosen) && Distinct(order)
    requires forall r :: r in order ==>
      && r in db.participations && db.participations[r].status != Draft
      && (db.participations[r].person == target || db.participations[r].person == source)
    ensures var merged := ClearedAndMerged(reversed, target, source);
      var parts := Renumber(merged.participations, order, target);
      && Ledgered(merged.ledger, parts, chosen)
      && Repositioned(db.participations, parts, order, target, source)
      && MovedLedger(db.ledger, target, source) <= merged.ledger
      && (forall r :: Net(merged.ledger, r) == if r in chosen then 0 else Net(db.ledger, r))
      && merged.registrations == MovedRegistrations(db.registrations, target, source)
      && merged.reviews == MovedReviews(db.reviews, target, source)
  {
    ClearedAndMergedState(reversed, chosen, target, source);
    var merged := ClearedAndMerged(reversed, target, source);
    RenumberKeepsLedgered(merged, chosen, order, target);
    RenumberAt(merged.participations, order, target);
  }

  lemma OrderedAreNotDrafts(db: Db, target: PersonId, source: PersonId, order: seq<RegistrationId>)
    requires Inv(db) && ValidOrder(db, target, source, order)
    ensures forall r :: r in order ==> db.participations[r].status != Draft
  {
    forall r | r in order
      ensures db.participations[r].status != Draft
    {
      assert Consistent(db.ledger, r, db.participations[r]);
    }
  }

  lemma PositionOf(
    before: map<RegistrationId, Participation>, after: map<RegistrationId, Participation>,
    order: seq<RegistrationId>, target: PersonId, source: PersonId, r: RegistrationId) returns (k: nat)
    requires forall r :: r in order ==> r in before
    requires Repositioned(before, after, order, target, source) && r in order
    ensures k < |order| && order[k] == r && after[r].person == target && after[r].sequence == Some(k + 1)
  {
    k :| 0 <= k < |order| && order[k] == r;
  }

  /** After phase 4 no two participations of one person share a sequence. */
  lemma RepositionedUnique(
    before: map<RegistrationId, Participation>, after: map<RegistrationId, Participation>,
    order: seq<RegistrationId>, target: PersonId, source: PersonId)
    requires forall r :: r in order ==> r in before
    requires Repositioned(before, after, order, target, source) && SequencesUnique(before) && Distinct(order)
    ensures SequencesUnique(after)
  {
    forall q, r | q in after && r in after && q != r && after[q].person == after[r].person && after[q].sequence.Some?
      ensures after[q].sequence != after[r].sequence
    {
      if r in order {
        var _ := PositionOf(before, after, order, target, source, r);
      }
      if q in order {
        var _ := PositionOf(before, after, order, target, source, q);
      }
    }
  }

  /** What a participation is worth at a position of the target's history. */
  ghost function PointsAt(
    g: Engine, statuses: seq<StatusAssignment>, p: Participation, person: PersonId, position: nat): int
  {
    WorthOr0(g.v2Points(statuses, p.event, person, p.role, p.result, position))
  }

  /** The submitted order is the sequence 1..n of the target, which has no other numbers. */
  ghost predicate OrderTaken(after: Db, target: PersonId, order: seq<RegistrationId>) {
    && (forall k :: 0 <= k < |order| ==>
         && order[k] in after.participations
         && after.participations[order[k]].person == target
         && after.participations[order[k]].sequence == Some(k + 1))
    && forall r :: r in after.participations && r !in order && after.participations[r].person == target ==>
         after.participations[r].sequence.None?
  }

  /** Confirmed v2 participations are worth exactly what their new position gives. */
  ghost predicate Recomputed(g: Engine, db: Db, after: Db, target: PersonId, order: seq<RegistrationId>) {
    forall k :: 0 <= k < |order| && order[k] in db.participations && order[k] in after.participations ==>
      var p := db.participations[order[k]];
      p.status == Confirmed && g.usesV2(p.event) ==>
        && Net(after.ledger, order[k]) == PointsAt(g, after.statuses, p, target, k + 1)
        && after.participations[order[k]].cycle == p.cycle + 1
        && after.participations[order[k]].status == Confirmed
  }

  /** No other points change, nobody else's rows change, and the ledger only grows up to
      the owner of the source's rows. */
  ghost predicate RestUntouched(
    g: Engine, db: Db, after: Db, target: PersonId, source: PersonId, order: seq<RegistrationId>)
  {
    && after.participations.Keys == db.participations.Keys
    && (forall r :: !(r in order && r in db.participations && db.participations[r].status == Confirmed
                      && g.usesV2(db.participations[r].event)) ==>
         Net(after.ledger, r) == Net(db.ledger, r))
    && (forall r :: r in db.participations && db.participations[r].person !in {target, source} ==>
         after.participations[r] == db.participations[r])
    && MovedLedger(db.ledger, target, source) <= after.ledger
  }

  /** How the final tables follow from those before the re-awards. */
  lemma ReAwardedRows(g: Engine, next: Db, after: Db, chosen: set<RegistrationId>, r: RegistrationId)
    requires AwardedSoFar(g, next, after, chosen) && r in next.participations
    ensures r in after.participations
    ensures var p, p' := next.participations[r], after.participations[r];
      && p' == p.(state := p'.state, cycle := p'.cycle)
      && (r !in chosen ==> p' == p)
      && (r in chosen ==> p'.cycle == p.cycle + 1)
      && (r in chosen && p.sequence.Some? ==>
           Net(after.ledger, r) == PointsAt(g, next.statuses, p, p.person, p.sequence.value))
  {
    assert r in chosen ==> ReAwarded(g, next, after, r);
  }

  /** A successful ordered merge keeps the invariant; the order becomes the target's
      sequence; recalculated points are those of the new positions; the rest is untouched. */
  lemma OrderedMergeCorrect(
    g: Engine, db: Db, target: PersonId, source: PersonId, order: seq<RegistrationId>, version: seq<OrderRow>)
    requires Inv(db) && target != source && !BothRegistered(db, target, source)
    requires ApplyOrderedPersonMerge(g, db, target, source, order, version).Ok?
    ensures ValidOrder(db, target, source, order)
    ensures var after := ApplyOrderedPersonMerge(g, db, target, source, order, version).value;
      && Inv(after)
      && OrderTaken(after, target, order)
      && Recomputed(g, db, after, target, order)
      && RestUntouched(g, db, after, target, source, order)
  {
    AcceptedOrderValid(g, db, target, source, order, version);
    var after := ApplyOrderedPersonMerge(g, db, target, source, order, version).value;
    var next, chosen := OrderedMergeStages(g, db, after, target, source, order, version);
    ReAwardedInv(g, db, next, after, chosen, target, source, order);
    ReAwardedOutcome(g, db, next, after, chosen, target, source, order);
  }

  /** The tables `next` before the re-awards, and what the re-awards do to them. */
  lemma OrderedMergeStages(
    g: Engine, db: Db, after: Db, target: PersonId, source: PersonId, order: seq<RegistrationId>,
    version: seq<OrderRow>)
    returns (next: Db, chosen: set<RegistrationId>)
    requires Inv(db) && target != source && !BothRegistered(db, target, source)
    requires ApplyOrderedPersonMerge(g, db, target, source, order, version) == Ok(after)
    requires ValidOrder(db, target, source, order)
    ensures AwardedSoFar(g, next, after, chosen) && Ledgered(after.ledger, after.participations, {})
    ensures SequencesUnique(next.participations)
    ensures Repositioned(db.participations, next.participations, order, target, source)
    ensures next.registrations == MovedRegistrations(db.registrations, target, source)
    ensures ActiveUnique(next.registrations)
    ensures ReviewsLinked(next.reviews, next.registrations)
    ensures forall r :: r in chosen <==>
      r in order && db.participations[r].status == Confirmed && g.usesV2(db.participations[r].event)
    ensures forall r :: Net(next.ledger, r) == if r in chosen then 0 else Net(db.ledger, r)
    ensures MovedLedger(db.ledger, target, source) <= next.ledger
  {
    AcceptedOrderValid(g, db, target, source, order, version);
    var ids := NumberedParticipations(db, target, source);
    chosen := Recalculated(g, db, ids);
    next := Reordered(g, db, target, source, ids, order);
    ReorderedState(g, db, target, source, ids, order);
    RepositionedUnique(db.participations, next.participations, order, target, source);
    MergedRegistrationsUnique(db, target, source);
    ReAwarding(g, db, next, after, chosen, target, source, order);
  }

  lemma ReAwarding(
    g: Engine, db: Db, next: Db, after: Db, chosen: set<RegistrationId>, target: PersonId, source: PersonId,
    order: seq<RegistrationId>)
    requires ValidOrder(db, target, source, order)
    requires Repositioned(db.participations, next.participations, order, target, source)
    requires Ledgered(next.ledger, next.participations, chosen)
    requires forall r :: r in chosen <==>
      r in order && db.participations[r].status == Confirmed && g.usesV2(db.participations[r].event)
    requires AwardAll(g, next, order, chosen) == Ok(after)
    ensures AwardedSoFar(g, next, after, chosen) && Ledgered(after.ledger, after.participations, {})
  {
    forall r | r in order
      ensures next.participations[r].sequence.Some? && next.participations[r].event == db.participations[r].event
    {
      var k :| 0 <= k < |order| && order[k] == r;
    }
    AwardAllKeeps(g, next, order, chosen);
    assert Among(order, chosen) == chosen && chosen - chosen == {};
  }

  lemma ReAwardedInv(
    g: Engine, db: Db, next: Db, after: Db, chosen: set<RegistrationId>, target: PersonId, source: PersonId,
    order: seq<RegistrationId>)
    requires AwardedSoFar(g, next, after, chosen) && Ledgered(after.ledger, after.participations, {})
    requires SequencesUnique(next.participations)
    requires forall r :: r in order ==> r in db.participations
    requires Repositioned(db.participations, next.participations, order, target, source)
    requires ParticipationsLinked(db.participations, db.registrations)
    requires next.registrations == MovedRegistrations(db.registrations, target, source)
    requires ActiveUnique(next.registrations)
    requires ReviewsLinked(next.reviews, next.registrations)
    ensures Inv(after)
  {
    forall r | r in after.participations
      ensures after.participations[r].person == next.participations[r].person
      ensures after.participations[r].sequence == next.participations[r].sequence
      ensures after.participations[r].event == db.participations[r].event
    {
      ReAwardedRows(g, next, after, chosen, r);
      if r in order {
        var k :| 0 <= k < |order| && order[k] == r;
      }
    }
  }

  lemma ReAwardedOutcome(
    g: Engine, db: Db, next: Db, after: Db, chosen: set<RegistrationId>, target: PersonId, source: PersonId,
    order: seq<RegistrationId>)
    requires AwardedSoFar(g, next, after, chosen) && ValidOrder(db, target, source, order)
    requires Repositioned(db.participations, next.participations, order, target, source)
    requires forall r :: r in chosen <==>
      r in order && db.participations[r].status == Confirmed && g.usesV2(db.participations[r].event)
    requires forall r :: Net(next.ledger, r) == if r in chosen then 0 else Net(db.ledger, r)
    requires MovedLedger(db.ledger, target, source) <= next.ledger
    ensures OrderTaken(after, target, order)
    ensures Recomputed(g, db, after, target, order)
    ensures RestUntouched(g, db, after, target, source, order)
  {
    forall r | r in after.participations
      ensures after.participations[r].person == next.participations[r].person
      ensures after.participations[r].sequence == next.participations[r].sequence
      ensures r !in chosen ==> after.participations[r] == next.participations[r]
    {
      ReAwardedRows(g, next, after, chosen, r);
    }
    forall k | 0 <= k < |order| && order[k] in chosen
      ensures Net(after.ledger, order[k]) == PointsAt(g, after.statuses, db.participations[order[k]], target, k + 1)
      ensures after.participations[order[k]].cycle == db.participations[order[k]].cycle + 1
      ensures after.participations[order[k]].status == Confirmed
    {
      ReAwardedRows(g, next, after, chosen, order[k]);
    }
  }
}
