/** The invariant that ties a participation's status, cycle and scoring state to the
    ledger, and what every elementary write does to it. A participation is `pending`
    between the reversal of its award and its next award or cancellation. */
module LedgerInvariant {
  import opened Common
  import opened ActivityModel
  import opened ActivityService

  // ---- Row structure ----------------------------------------------------------

  ghost predicate RowValid(ledger: seq<Transaction>, participations: map<RegistrationId, Participation>, i: nat)
    requires i < |ledger|
  {
    var t := ledger[i];
    t.points != 0
    && match t.kind
       case Adjustment => t.participation.None? && t.original.None?
       case Award =>
         && t.original.None? && t.participation.Some? && t.participation.value in participations
         && t.person == participations[t.participation.value].person
       case Reversal =>
         && t.original.Some? && t.original.value < i
         && var o := ledger[t.original.value];
            && o.kind == Award && t.participation == o.participation && t.cycle == o.cycle
            && t.person == o.person && t.points == -o.points
  }

  /** Two rows never award the same cycle, reverse the same award or serve the same request. */
  ghost predicate RowsDiffer(a: Transaction, b: Transaction) {
    && (a.kind == Award && b.kind == Award && a.participation == b.participation ==> a.cycle != b.cycle)
    && (a.original.Some? ==> a.original != b.original)
    && (a.request.Some? ==> a.request != b.request)
  }

  ghost predicate LedgerValid(ledger: seq<Transaction>, participations: map<RegistrationId, Participation>) {
    && (forall i :: 0 <= i < |ledger| ==> RowValid(ledger, participations, i))
    && (forall i, j :: 0 <= i < j < |ledger| ==> RowsDiffer(ledger[i], ledger[j]))
  }

  // ---- One participation ------------------------------------------------------

  /** Row `i`, if it awards `r`, is for one of the cycles 1..cycle and has been reversed. */
  ghost predicate Settled(ledger: seq<Transaction>, r: RegistrationId, cycle: int, i: nat)
    requires i < |ledger|
  {
    IsAward(ledger[i], r) ==> 1 <= ledger[i].cycle <= cycle && Reversed(ledger, i)
  }

  /** Nothing is owed: every award up to `cycle` has been reversed and the net is zero. */
  ghost predicate Closed(ledger: seq<Transaction>, r: RegistrationId, cycle: nat) {
    && Net(ledger, r) == 0
    && forall i :: 0 <= i < |ledger| ==> Settled(ledger, r, cycle, i)
  }

  /** Row `a` is the only award that stands, and it is for `cycle`. */
  ghost predicate Stands(ledger: seq<Transaction>, r: RegistrationId, cycle: nat, a: nat) {
    && a < |ledger| && IsAward(ledger[a], r) && ledger[a].cycle == cycle && cycle >= 1
    && !Reversed(ledger, a)
    && Net(ledger, r) == ledger[a].points
    && OthersSettled(ledger, r, cycle - 1, a)
  }

  ghost predicate OthersSettled(ledger: seq<Transaction>, r: RegistrationId, cycle: int, a: nat) {
    forall i :: 0 <= i < |ledger| && i != a ==> Settled(ledger, r, cycle, i)
  }

  ghost predicate Consistent(ledger: seq<Transaction>, r: RegistrationId, p: Participation) {
    match p.status
    case Draft => p.cycle == 0 && p.state == NotScored && p.sequence.None? && Closed(ledger, r, 0)
    case Cancelled => p.state != Awarded && Closed(ledger, r, p.cycle)
    case Confirmed =>
      p.cycle >= 1
      && ((p.state == Awarded && exists a: nat :: Stands(ledger, r, p.cycle, a))
          || (p.state == NoRule && Closed(ledger, r, p.cycle)))
  }

  /** Between two writes of one transaction: confirmed, with its award taken back. */
  ghost predicate PendingAward(ledger: seq<Transaction>, r: RegistrationId, p: Participation) {
    p.status == Confirmed && p.cycle >= 1 && Closed(ledger, r, p.cycle)
  }

  /** Every cycle before the current one is closed, so the current one may be awarded. */
  ghost predicate ReadyToAward(db: Db, r: RegistrationId)
    requires r in db.participations
  {
    db.participations[r].cycle >= 1 && Closed(db.ledger, r, db.participations[r].cycle - 1)
  }

  ghost predicate Ledgered(
    ledger: seq<Transaction>, participations: map<RegistrationId, Participation>, pending: set<RegistrationId>)
  {
    && LedgerValid(ledger, participations)
    && forall r :: r in participations ==>
         if r in pending then PendingAward(ledger, r, participations[r])
         else Consistent(ledger, r, participations[r])
  }

  /** No two participations of one person share a scoring sequence. */
  ghost predicate SequencesUnique(participations: map<RegistrationId, Participation>) {
    forall q, r :: q in participations && r in participations && q != r
      && participations[q].person == participations[r].person && participations[q].sequence.Some?
      ==> participations[q].sequence != participations[r].sequence
  }

  // ---- Frames -----------------------------------------------------------------

  /** A row about another participation leaves `q` as it was. */
  lemma AppendFrame(ledger: seq<Transaction>, t: Transaction, q: RegistrationId, p: Participation)
    requires t.participation != Some(q)
    requires t.original.Some? ==> t.original.value < |ledger| && !IsAward(ledger[t.original.value], q)
    ensures Consistent(ledger, q, p) ==> Consistent(ledger + [t], q, p)
    ensures PendingAward(ledger, q, p) ==> PendingAward(ledger + [t], q, p)
  {
    var l' := ledger + [t];
    NetAppend(ledger, t, q);
    forall i | 0 <= i < |ledger| && IsAward(ledger[i], q)
      ensures Reversed(l', i) == Reversed(ledger, i)
    {
      ReversedAppend(ledger, t, i);
    }
    forall cycle: nat | Closed(ledger, q, cycle)
      ensures Closed(l', q, cycle)
    {
      forall i | 0 <= i < |l'|
        ensures Settled(l', q, cycle, i)
      {
        assert i < |ledger| ==> Settled(ledger, q, cycle, i);
      }
    }
    forall cycle: nat, a: nat | Stands(ledger, q, cycle, a)
      ensures Stands(l', q, cycle, a)
    {
      var low := cycle - 1;
      forall i | 0 <= i < |l'| && i != a
        ensures Settled(l', q, low, i)
      {
        assert i < |ledger| ==> Settled(ledger, q, low, i);
      }
    }
  }

  lemma ReversedAppend(ledger: seq<Transaction>, t: Transaction, i: nat)
    ensures Reversed(ledger + [t], i) <==> Reversed(ledger, i) || t.original == Some(i)
  {
    var l' := ledger + [t];
    if Reversed(ledger, i) {
      var j :| 0 <= j < |ledger| && ledger[j].original == Some(i);
      assert l'[j].original == Some(i);
    }
    if t.original == Some(i) {
      assert l'[|ledger|].original == Some(i);
    }
  }

  // ---- Taking an award back ---------------------------------------------------

  lemma StandingAwardFound(ledger: seq<Transaction>, r: RegistrationId, cycle: nat, a: nat)
    requires Stands(ledger, r, cycle, a)
    ensures FindAward(ledger, r, cycle) == Some(a)
  {
    var f := FindAward(ledger, r, cycle);
    assert IsAward(ledger[a], r) && ledger[a].cycle == cycle;
    assert f.value != a ==> Settled(ledger, r, cycle - 1, f.value);
  }

  /** Reversing the current cycle leaves the participation with nothing owed. */
  lemma ReversalCloses(
    ledger: seq<Transaction>, participations: map<RegistrationId, Participation>, r: RegistrationId)
    requires LedgerValid(ledger, participations) && r in participations
    requires participations[r].status == Confirmed && Consistent(ledger, r, participations[r])
    ensures var l' := ReverseAward(ledger, r, participations[r].cycle);
      && Closed(l', r, participations[r].cycle) && LedgerValid(l', participations)
      && (participations[r].state == Awarded ==> |l'| == |ledger| + 1)
      && (participations[r].state == NoRule ==> l' == ledger)
  {
    var p := participations[r];
    var l' := ReverseAward(ledger, r, p.cycle);
    if p.state == Awarded {
      var a: nat :| Stands(ledger, r, p.cycle, a);
      StandingAwardFound(ledger, r, p.cycle, a);
      var t := ReversalRow(ledger[a], a);
      assert l' == ledger + [t];
      NetAppend(ledger, t, r);
      forall i | 0 <= i < |l'|
        ensures Settled(l', r, p.cycle, i)
      {
        ReversedAppend(ledger, t, i);
        assert i < |ledger| && i != a ==> Settled(ledger, r, p.cycle - 1, i);
      }
      forall i | 0 <= i < |ledger|
        ensures RowsDiffer(ledger[i], t)
      {
        assert RowValid(ledger, participations, i);
        assert !Reversed(ledger, a);
      }
      assert RowValid(ledger, participations, a);
      assert RowValid(ledger + [t], participations, |ledger|);
      AppendValid(ledger, t, participations);
    } else {
      var f := FindAward(ledger, r, p.cycle);
      if f.Some? {
        assert Settled(ledger, r, p.cycle, f.value);
      }
    }
  }

  lemma AppendValid(ledger: seq<Transaction>, t: Transaction, participations: map<RegistrationId, Participation>)
    requires LedgerValid(ledger, participations)
    requires RowValid(ledger + [t], participations, |ledger|)
    requires forall i :: 0 <= i < |ledger| ==> RowsDiffer(ledger[i], t)
    ensures LedgerValid(ledger + [t], participations)
  {
    forall i | 0 <= i < |ledger|
      ensures RowValid(ledger + [t], participations, i)
    {
      assert RowValid(ledger, participations, i);
    }
  }

  /** The first half of a cancellation, a reclassification and an ordered merge. */
  lemma ReverseKeepsLedgered(db: Db, pending: set<RegistrationId>, r: RegistrationId)
    requires Ledgered(db.ledger, db.participations, pending)
    requires r in db.participations && r !in pending && db.participations[r].status == Confirmed
    ensures Ledgered(Reverse(db, r).ledger, db.participations, pending + {r})
    ensures db.ledger <= Reverse(db, r).ledger
    ensures Net(Reverse(db, r).ledger, r) == 0
    ensures forall q :: q != r ==> Net(Reverse(db, r).ledger, q) == Net(db.ledger, q)
  {
    var p := db.participations[r];
    var l' := Reverse(db, r).ledger;
    ReversalCloses(db.ledger, db.participations, r);
    if l' != db.ledger {
      var a := FindAward(db.ledger, r, p.cycle).value;
      var t := ReversalRow(db.ledger[a], a);
      forall q | q != r
        ensures Net(l', q) == Net(db.ledger, q)
      {
        NetAppend(db.ledger, t, q);
      }
      forall q | q in db.participations && q != r
        ensures if q in pending then PendingAward(l', q, db.participations[q])
                else Consistent(l', q, db.participations[q])
      {
        AppendFrame(db.ledger, t, q, db.participations[q]);
      }
    }
  }

  // ---- Writing the participation row ------------------------------------------

  /** Changing a row without touching its owner or the ledger keeps every other row. */
  lemma RowWrite(
    db: Db, pending: set<RegistrationId>, r: RegistrationId, p: Participation, pending': set<RegistrationId>)
    requires LedgerValid(db.ledger, db.participations)
    requires forall q :: q in db.participations && q != r ==>
      if q in pending then PendingAward(db.ledger, q, db.participations[q])
      else Consistent(db.ledger, q, db.participations[q])
    requires forall q :: q != r ==> (q in pending' <==> q in pending)
    requires r in db.participations ==> p.person == db.participations[r].person || NoRows(db.ledger, r)
    requires if r in pending' then PendingAward(db.ledger, r, p) else Consistent(db.ledger, r, p)
    ensures Ledgered(db.ledger, db.participations[r := p], pending')
  {
    var parts := db.participations[r := p];
    forall i | 0 <= i < |db.ledger|
      ensures RowValid(db.ledger, parts, i)
    {
      assert RowValid(db.ledger, db.participations, i);
    }
  }

  ghost predicate NoRows(ledger: seq<Transaction>, r: RegistrationId) {
    forall i :: 0 <= i < |ledger| ==> ledger[i].participation != Some(r)
  }

  /** A draft has no ledger rows at all, and so does a registration without participation. */
  lemma DraftHasNoRows(ledger: seq<Transaction>, participations: map<RegistrationId, Participation>, r: RegistrationId)
    requires LedgerValid(ledger, participations)
    requires r in participations ==> Closed(ledger, r, 0)
    ensures NoRows(ledger, r)
  {
    forall i | 0 <= i < |ledger|
      ensures ledger[i].participation != Some(r)
    {
      assert RowValid(ledger, participations, i);
      var a := if ledger[i].kind == Reversal then ledger[i].original.value else i;
      assert RowValid(ledger, participations, a);
      assert r in participations ==> Settled(ledger, r, 0, a);
    }
  }

  lemma {:induction false} NoRowsNetZero(ledger: seq<Transaction>, r: RegistrationId)
    requires NoRows(ledger, r)
    ensures Net(ledger, r) == 0
  {
    if ledger != [] {
      NoRowsNetZero(ledger[..|ledger| - 1], r);
    }
  }

  lemma NoRowsClosed(ledger: seq<Transaction>, r: RegistrationId, cycle: nat)
    requires NoRows(ledger, r)
    ensures Closed(ledger, r, cycle)
  {
    NoRowsNetZero(ledger, r);
  }

  lemma ClosedMonotone(ledger: seq<Transaction>, r: RegistrationId, low: nat, high: nat)
    requires Closed(ledger, r, low) && low <= high
    ensures Closed(ledger, r, high)
  {
    forall i | 0 <= i < |ledger|
      ensures Settled(ledger, r, high, i)
    {
      assert Settled(ledger, r, low, i);
    }
  }

  // ---- Awarding ---------------------------------------------------------------

  ghost function WorthOr0(points: Points): int {
    if points.Points? then points.points else 0
  }

  /** The writes of `award_score`, whatever the participation turned out to be worth: the
      idempotency key never fires, and the participation ends consistent. */
  lemma SettleKeepsLedgered(db: Db, pending: set<RegistrationId>, r: RegistrationId, worth: Points)
    requires Ledgered(db.ledger, db.participations, pending) && r in pending && r in db.participations
    requires ReadyToAward(db, r)
    requires Settle(db, r, worth).Ok?
    ensures var db' := Settle(db, r, worth).value; var p := db.participations[r];
      && db'.participations == db.participations[r := p.(state := if worth.Points? then Awarded else NoRule)]
      && db'.ledger == (if worth.Points? then db.ledger + [AwardRow(p, r, worth.points)] else db.ledger)
      && db' == db.(participations := db'.participations, ledger := db'.ledger)
      && Ledgered(db'.ledger, db'.participations, pending - {r})
      && Net(db'.ledger, r) == WorthOr0(worth)
      && forall q :: q != r ==> Net(db'.ledger, q) == Net(db.ledger, q)
  {
    var p, db' := db.participations[r], Settle(db, r, worth).value;
    var f := FindAward(db.ledger, r, p.cycle);
    assert f.Some? ==> Settled(db.ledger, r, p.cycle - 1, f.value);
    if worth.Missing? {
      ClosedMonotone(db.ledger, r, p.cycle - 1, p.cycle);
      RowWrite(db, pending, r, db'.participations[r], pending - {r});
    } else {
      AppendAward(db, pending, r, AwardRow(p, r, worth.points), db'.participations[r]);
    }
  }

  /** The participation row `award_score` leaves behind. */
  function ScoredRow(g: Engine, db: Db, r: RegistrationId): Participation
    requires r in db.participations
  {
    var numbered := Numbered(g, db, r);
    numbered.participations[r].(state := if Worth(g, numbered, r).Points? then Awarded else NoRule)
  }

  /** `award_score` on a participation whose earlier cycles are closed. */
  lemma AwardKeepsLedgered(g: Engine, db: Db, pending: set<RegistrationId>, r: RegistrationId)
    requires Ledgered(db.ledger, db.participations, pending) && r in pending && r in db.participations
    requires ReadyToAward(db, r)
    requires AwardScore(g, db, r).Ok?
    ensures var db' := AwardScore(g, db, r).value; var worth := Worth(g, Numbered(g, db, r), r);
      && db'.participations == db.participations[r := ScoredRow(g, db, r)]
      && db'.ledger ==
           (if worth.Points? then db.ledger + [AwardRow(db.participations[r], r, worth.points)] else db.ledger)
      && db' == db.(participations := db'.participations, ledger := db'.ledger)
      && Ledgered(db'.ledger, db'.participations, pending - {r})
      && Net(db'.ledger, r) == WorthOr0(worth)
      && forall q :: q != r ==> Net(db'.ledger, q) == Net(db.ledger, q)
  {
    var numbered, p := Numbered(g, db, r), db.participations[r];
    NumberingKeepsLedgered(g, db, pending, r);
    var worth := Worth(g, numbered, r);
    SettleKeepsLedgered(numbered, pending, r, worth);
    assert ScoredRow(g, db, r) == numbered.participations[r].(state := if worth.Points? then Awarded else NoRule);
  }

  lemma NumberingKeepsLedgered(g: Engine, db: Db, pending: set<RegistrationId>, r: RegistrationId)
    requires Ledgered(db.ledger, db.participations, pending) && r in pending && r in db.participations
    ensures var numbered := Numbered(g, db, r); var p, p' := db.participations[r], numbered.participations[r];
      && Ledgered(numbered.ledger, numbered.participations, pending)
      && numbered == db.(participations := db.participations[r := p'])
      && p' == p.(sequence := p'.sequence) && (p.sequence.Some? ==> p'.sequence == p.sequence)
  {
    var numbered := Numbered(g, db, r);
    RowWrite(db, pending, r, numbered.participations[r], pending);
    assert numbered.participations == db.participations[r := numbered.participations[r]];
  }

  lemma AppendAward(db: Db, pending: set<RegistrationId>, r: RegistrationId, t: Transaction, p': Participation)
    requires Ledgered(db.ledger, db.participations, pending) && r in pending && r in db.participations
    requires ReadyToAward(db, r)
    requires t.points != 0 && t == AwardRow(db.participations[r], r, t.points)
    requires p' == db.participations[r].(state := Awarded, sequence := p'.sequence)
    ensures Ledgered(db.ledger + [t], db.participations[r := p'], pending - {r})
    ensures Net(db.ledger + [t], r) == t.points
    ensures forall q :: q != r ==> Net(db.ledger + [t], q) == Net(db.ledger, q)
  {
    NewAwardValid(db, pending, r, t);
    NewAwardFrame(db, pending, r, t);
    NetAppend(db.ledger, t, r);
    AwardStands(db, r, t);
    RowWrite(db.(ledger := db.ledger + [t]), pending, r, p', pending - {r});
  }

  lemma NewAwardValid(db: Db, pending: set<RegistrationId>, r: RegistrationId, t: Transaction)
    requires Ledgered(db.ledger, db.participations, pending) && r in pending && r in db.participations
    requires ReadyToAward(db, r)
    requires t.points != 0 && t == AwardRow(db.participations[r], r, t.points)
    ensures LedgerValid(db.ledger + [t], db.participations)
  {
    forall i | 0 <= i < |db.ledger|
      ensures RowsDiffer(db.ledger[i], t)
    {
      assert RowValid(db.ledger, db.participations, i);
      assert Settled(db.ledger, r, db.participations[r].cycle - 1, i);
    }
    AppendValid(db.ledger, t, db.participations);
  }

  lemma NewAwardFrame(db: Db, pending: set<RegistrationId>, r: RegistrationId, t: Transaction)
    requires Ledgered(db.ledger, db.participations, pending) && t.participation == Some(r) && t.original.None?
    ensures forall q :: q in db.participations && q != r ==>
      if q in pending then PendingAward(db.ledger + [t], q, db.participations[q])
      else Consistent(db.ledger + [t], q, db.participations[q])
    ensures forall q :: q != r ==> Net(db.ledger + [t], q) == Net(db.ledger, q)
  {
    forall q | q in db.participations && q != r
      ensures if q in pending then PendingAward(db.ledger + [t], q, db.participations[q])
              else Consistent(db.ledger + [t], q, db.participations[q])
    {
      AppendFrame(db.ledger, t, q, db.participations[q]);
    }
    forall q | q != r
      ensures Net(db.ledger + [t], q) == Net(db.ledger, q)
    {
      NetAppend(db.ledger, t, q);
    }
  }

  lemma AwardStands(db: Db, r: RegistrationId, t: Transaction)
    requires LedgerValid(db.ledger, db.participations) && r in db.participations
    requires ReadyToAward(db, r)
    requires t == AwardRow(db.participations[r], r, t.points)
    ensures Stands(db.ledger + [t], r, db.participations[r].cycle, |db.ledger|)
  {
    var l', n, cycle := db.ledger + [t], |db.ledger|, db.participations[r].cycle;
    NetAppend(db.ledger, t, r);
    forall j | 0 <= j < |l'|
      ensures l'[j].original != Some(n)
    {
      assert j < n ==> RowValid(db.ledger, db.participations, j);
    }
    var low := cycle - 1;
    forall i | 0 <= i < |l'| && i != n
      ensures Settled(l', r, low, i)
    {
      assert Settled(db.ledger, r, low, i);
      ReversedAppend(db.ledger, t, i);
    }
  }

  // ---- Scoring sequences ------------------------------------------------------

  /** Participation `q` is the person's and has a scoring sequence. */
  ghost predicate Holds(participations: map<RegistrationId, Participation>, q: RegistrationId, person: PersonId) {
    q in participations && participations[q].person == person && participations[q].sequence.Some?
  }

  /** A new sequence exceeds every number the person has and the size of their scored history. */
  lemma NextSequenceIsNew(g: Engine, db: Db, person: PersonId, r: RegistrationId)
    ensures NextSequence(g, db, person, r) > |History(g, db, person, r)|
    ensures forall q :: Holds(db.participations, q, person) ==>
      db.participations[q].sequence.value < NextSequence(g, db, person, r)
  {
    forall q | Holds(db.participations, q, person)
      ensures db.participations[q].sequence.value < NextSequence(g, db, person, r)
    {
      assert db.participations[q].sequence.value in Allocated(db.participations, person);
    }
  }

  lemma AwardKeepsSequences(g: Engine, db: Db, r: RegistrationId)
    requires SequencesUnique(db.participations) && r in db.participations
    ensures SequencesUnique(db.participations[r := ScoredRow(g, db, r)])
  {
    NextSequenceIsNew(g, db, db.participations[r].person, r);
    SequenceWrite(db, r, ScoredRow(g, db, r));
  }

  lemma SequenceWrite(db: Db, r: RegistrationId, p: Participation)
    requires SequencesUnique(db.participations)
    requires p.sequence.Some? ==> forall q :: q != r && Holds(db.participations, q, p.person) ==>
      db.participations[q].sequence != p.sequence
    ensures SequencesUnique(db.participations[r := p])
  {
    assert forall q :: q in db.participations && db.participations[q].sequence.Some? ==>
      Holds(db.participations, q, db.participations[q].person);
  }
}
