/** Everything the scanner app may interleave around its queue: new scans, overlapping
    flushes, answers lost or late, failures, handoffs, owner changes and logouts. Each
    action is one database transaction or one message; the server may answer anything. */
module ScannerProtocol {
  import opened Common
  import opened ScannerModel
  import opened FlushModel

  /** Where a flush stands: about to take its next batch, waiting, holding an answer, or
      about to put the batch back. */
  datatype Phase = Ready | Sent | Received(response: Response) | Failing

  datatype FlushRun = FlushRun(pending: seq<PendingRecord>, offset: nat, phase: Phase)

  /** A sign-in that found another owner and an empty queue, and the scans known then. */
  datatype Takeover = Takeover(user: nat, known: set<ClientEventId>)

  /** Why a scan is no longer stored. */
  datatype Reason =
    | Confirmed(result: SyncResult) | HandedOff(item: PendingRecord, stored: PendingRecord) | LoggedOut
    | TakenOver(takeover: Takeover)

  /** `recorded`, `gone` and `answers` are history: every scan ever queued, why each missing
      one left, and every result the server ever sent. */
  datatype State = State(
    queue: Queue, owner: Option<nat>, flushes: map<nat, FlushRun>, takeovers: map<nat, Takeover>,
    recorded: map<ClientEventId, Scan>, gone: map<ClientEventId, Reason>, answers: set<SyncResult>)

  datatype Action =
    | QueueScan(record: PendingRecord)
    | BeginFlush(f: nat, event: EventId)
    | SendNext(f: nat)
    | Answer(f: nat, response: Response)
    | Break(f: nat)
    | Apply(f: nat)
    | Reset(f: nat)
    | Handoff(item: PendingRecord)
    | CheckOwner(t: nat, user: nat)
    | TakeOver(t: nat)
    | Logout

  const START := State(map[], None, map[], map[], map[], map[], {})

  /** The batch a flush is working on. */
  function Batch(run: FlushRun): seq<PendingRecord> {
    if run.offset >= |run.pending| then []
    else if run.offset + BATCH <= |run.pending| then run.pending[run.offset..run.offset + BATCH]
    else run.pending[run.offset..]
  }

  predicate InPhase(s: State, f: nat, ready: bool, sent: bool, received: bool, failing: bool) {
    f in s.flushes
    && match s.flushes[f].phase
       case Ready => ready
       case Sent => sent
       case Received(_) => received
       case Failing => failing
  }

  function SetFlush(s: State, f: nat, run: FlushRun): State {
    s.(flushes := s.flushes[f := run])
  }

  /** The scans one result deletes. */
  function GoneAfter(gone: map<ClientEventId, Reason>, q: Queue, result: SyncResult): map<ClientEventId, Reason> {
    if Confirms(result.status) && result.id in q then gone[result.id := Confirmed(result)] else gone
  }

  function GoneAfterAll(
    gone: map<ClientEventId, Reason>, q: Queue, results: seq<SyncResult>): map<ClientEventId, Reason>
  {
    if results == [] then
      gone
    else
      var front := results[..|results| - 1];
      GoneAfter(GoneAfterAll(gone, q, front), QueueAfterAll(q, front), results[|results| - 1])
  }

  function Dropped(s: State, reason: Reason): State {
    s.(queue := map[],
       gone := map id | id in s.gone.Keys + s.queue.Keys :: if id in s.queue then reason else s.gone[id])
  }

  /** One atomic step; an action that is not possible changes nothing. */
  function Next(s: State, a: Action): State {
    match a
    case QueueScan(record) =>
      if record.scan.id in s.recorded || record.status != Pending || record.rejection.Some? then s
      else s.(queue := s.queue[record.scan.id := record], recorded := s.recorded[record.scan.id := record.scan])
    case BeginFlush(f, event) =>
      if f in s.flushes then s else SetFlush(s, f, FlushRun(PendingForEvent(s.queue, event), 0, Ready))
    case SendNext(f) =>
      if !InPhase(s, f, true, false, false, false) || Batch(s.flushes[f]) == [] then s
      else SetFlush(s.(queue := Marked(s.queue, Ids(Batch(s.flushes[f])), Syncing)), f, s.flushes[f].(phase := Sent))
    case Answer(f, response) =>
      if !InPhase(s, f, false, true, false, false) then s
      else SetFlush(
        s.(answers := s.answers + set r | r in response.results), f, s.flushes[f].(phase := Received(response)))
    case Break(f) =>
      if !InPhase(s, f, false, true, true, false) then s
      else SetFlush(s, f, s.flushes[f].(phase := Failing))
    case Apply(f) =>
      if !InPhase(s, f, false, false, true, false) then
        s
      else
        var results := s.flushes[f].phase.response.results;
        SetFlush(s.(queue := QueueAfterAll(s.queue, results), gone := GoneAfterAll(s.gone, s.queue, results)),
          f, s.flushes[f].(offset := s.flushes[f].offset + BATCH, phase := Ready))
    case Reset(f) =>
      if !InPhase(s, f, false, false, false, true) then s
      else s.(queue := Marked(s.queue, Ids(Batch(s.flushes[f])), Pending), flushes := s.flushes - {f})
    case Handoff(item) =>
      if item.scan.id in s.queue && Matches(s.queue[item.scan.id], item)
      then s.(queue := HandedOver(s.queue, item),
              gone := s.gone[item.scan.id := HandedOff(item, s.queue[item.scan.id])])
      else s
    case CheckOwner(t, user) =>
      if s.owner.None? then s.(owner := Some(user))
      else if s.owner == Some(user) || |s.queue| > 0 || t in s.takeovers then s
      else s.(takeovers := s.takeovers[t := Takeover(user, s.recorded.Keys)])
    case TakeOver(t) =>
      if t !in s.takeovers then s
      else Dropped(s, TakenOver(s.takeovers[t])).(owner := Some(s.takeovers[t].user), takeovers := s.takeovers - {t})
    case Logout => Dropped(s, LoggedOut).(owner := None)
  }

  function Run(s: State, actions: seq<Action>): State {
    if actions == [] then s else Next(Run(s, actions[..|actions| - 1]), actions[|actions| - 1])
  }

  // ---- What always holds ------------------------------------------------------

  /** The server once refused the scan for the reason the record has. */
  ghost predicate RefusedBy(answers: set<SyncResult>, record: PendingRecord) {
    && record.rejection.Some?
    && exists r :: r in answers && r.id == record.scan.id && r.status.Refused? && r.status == record.rejection.value
  }

  /** What a stored record says about a refusal is true. */
  ghost predicate Genuine(answers: set<SyncResult>, record: PendingRecord) {
    record.status == Rejected || record.rejection.Some? ==> RefusedBy(answers, record)
  }

  /** The reason is a real one: the server accepted this very scan or knew it already, or had
      refused it and the handoff quoted the stored record and its refusal, or it arrived after
      the owner check had seen an empty queue. */
  ghost predicate Justified(s: State, id: ClientEventId)
    requires id in s.gone && id in s.recorded
  {
    match s.gone[id]
    case Confirmed(result) => result.id == id && !result.status.Refused? && result in s.answers
    case HandedOff(item, stored) =>
      && stored.status == Rejected && RefusedBy(s.answers, stored)
      && stored.scan == s.recorded[id] && item.scan == stored.scan && item.rejection == stored.rejection
    case LoggedOut => true
    case TakenOver(takeover) => id !in takeover.known
  }

  ghost predicate Accounted(s: State) {
    && (forall id :: id in s.recorded <==> id in s.queue || id in s.gone)
    && (forall id :: id in s.queue ==> id !in s.gone && s.queue[id].scan == s.recorded[id] && s.recorded[id].id == id)
    && (forall id :: id in s.queue ==> Genuine(s.answers, s.queue[id]))
    && (forall id :: id in s.gone ==> Justified(s, id))
    && (forall t :: t in s.takeovers ==> forall id :: id in s.takeovers[t].known ==> id in s.gone)
    && (forall f :: f in s.flushes && s.flushes[f].phase.Received? ==>
         forall r :: r in s.flushes[f].phase.response.results ==> r in s.answers)
  }

  lemma {:induction false} ResultsAccounted(s: State, results: seq<SyncResult>)
    requires Accounted(s) && forall r :: r in results ==> r in s.answers
    ensures Accounted(s.(queue := QueueAfterAll(s.queue, results), gone := GoneAfterAll(s.gone, s.queue, results)))
    ensures forall id :: id in s.gone ==>
      id in GoneAfterAll(s.gone, s.queue, results) && GoneAfterAll(s.gone, s.queue, results)[id] == s.gone[id]
  {
    if results != [] {
      var front, last := results[..|results| - 1], results[|results| - 1];
      assert last in results;
      ResultsAccounted(s, front);
      var mid := s.(queue := QueueAfterAll(s.queue, front), gone := GoneAfterAll(s.gone, s.queue, front));
      ResultAccounted(mid, last);
    }
  }

  lemma ResultAccounted(s: State, result: SyncResult)
    requires Accounted(s) && result in s.answers
    ensures Accounted(s.(queue := QueueAfter(s.queue, result), gone := GoneAfter(s.gone, s.queue, result)))
    ensures forall id :: id in s.gone ==>
      id in GoneAfter(s.gone, s.queue, result) && GoneAfter(s.gone, s.queue, result)[id] == s.gone[id]
  {
    ResultGenuine(s.queue, s.answers, result);
    ResultJustified(s, result);
  }

  lemma ResultJustified(s: State, result: SyncResult)
    requires Accounted(s) && result in s.answers
    ensures var next := s.(queue := QueueAfter(s.queue, result), gone := GoneAfter(s.gone, s.queue, result));
      forall id :: id in next.gone ==> id in next.recorded && Justified(next, id)
  {
    var next := s.(queue := QueueAfter(s.queue, result), gone := GoneAfter(s.gone, s.queue, result));
    forall id | id in next.gone
      ensures id in next.recorded && Justified(next, id)
    {
      assert id in s.gone ==> Justified(s, id);
    }
  }

  lemma ResultGenuine(q: Queue, answers: set<SyncResult>, result: SyncResult)
    requires result in answers && Keyed(q) && forall id :: id in q ==> Genuine(answers, q[id])
    ensures forall id :: id in QueueAfter(q, result) ==> Genuine(answers, QueueAfter(q, result)[id])
  {
  }

  lemma DroppedAccounted(s: State, reason: Reason)
    requires Accounted(s)
    requires reason == LoggedOut || (reason.TakenOver? && forall id :: id in s.queue ==> id !in reason.takeover.known)
    ensures Accounted(Dropped(s, reason))
  {
    var next := Dropped(s, reason);
    forall id | id in next.gone
      ensures Justified(next, id)
    {
      assert id in s.gone ==> Justified(s, id);
    }
  }

  /** Deleting is final, whatever happens next. */
  ghost predicate Final(a: State, b: State) {
    && (forall id :: id in a.gone ==> id in b.gone && b.gone[id] == a.gone[id])
    && (forall id :: id in a.recorded ==> id in b.recorded && b.recorded[id] == a.recorded[id])
  }

  lemma StepAccounted(s: State, a: Action)
    requires Accounted(s)
    ensures Accounted(Next(s, a)) && Final(s, Next(s, a))
  {
    match a
    case QueueScan(record) => QueueAccounted(s, record);
    case BeginFlush(f, event) => BeginAccounted(s, f, event);
    case SendNext(f) => SendAccounted(s, f);
    case Answer(f, response) => AnswerAccounted(s, f, response);
    case Break(f) => BreakAccounted(s, f);
    case Apply(f) => ApplyAccounted(s, f);
    case Reset(f) => ResetAccounted(s, f);
    case Handoff(item) => HandoffAccounted(s, item);
    case CheckOwner(t, user) => CheckAccounted(s, t, user);
    case TakeOver(t) => TakeOverAccounted(s, t);
    case Logout => LogoutAccounted(s);
  }

  lemma ApplyAccounted(s: State, f: nat)
    requires Accounted(s)
    ensures Accounted(Next(s, Apply(f))) && Final(s, Next(s, Apply(f)))
  {
    if InPhase(s, f, false, false, true, false) {
      var results := s.flushes[f].phase.response.results;
      ResultsAccounted(s, results);
      FlushesIrrelevant(
        s.(queue := QueueAfterAll(s.queue, results), gone := GoneAfterAll(s.gone, s.queue, results)),
        Next(s, Apply(f)));
    }
  }

  lemma TakeOverAccounted(s: State, t: nat)
    requires Accounted(s)
    ensures Accounted(Next(s, TakeOver(t))) && Final(s, Next(s, TakeOver(t)))
  {
    if t in s.takeovers {
      DroppedAccounted(s, TakenOver(s.takeovers[t]));
      FlushesIrrelevant(Dropped(s, TakenOver(s.takeovers[t])), Next(s, TakeOver(t)));
    }
  }

  lemma LogoutAccounted(s: State)
    requires Accounted(s)
    ensures Accounted(Next(s, Logout)) && Final(s, Next(s, Logout))
  {
    DroppedAccounted(s, LoggedOut);
    FlushesIrrelevant(Dropped(s, LoggedOut), Next(s, Logout));
  }

  lemma FlushesIrrelevant(s: State, s': State)
    requires Accounted(s)
    requires s' == s.(flushes := s'.flushes, owner := s'.owner, takeovers := s'.takeovers)
    requires forall f :: f in s'.flushes && s'.flushes[f].phase.Received? ==>
      f in s.flushes && s'.flushes[f] == s.flushes[f]
    requires forall t :: t in s'.takeovers ==> t in s.takeovers && s'.takeovers[t] == s.takeovers[t]
    ensures Accounted(s')
  {
    forall id | id in s'.gone
      ensures Justified(s', id)
    {
      assert Justified(s, id);
    }
  }

  lemma BeginAccounted(s: State, f: nat, event: EventId)
    requires Accounted(s)
    ensures Accounted(Next(s, BeginFlush(f, event))) && Final(s, Next(s, BeginFlush(f, event)))
  {
    FlushSet(s, f, FlushRun(PendingForEvent(s.queue, event), 0, Ready));
  }

  lemma FlushSet(s: State, f: nat, run: FlushRun)
    requires Accounted(s) && !run.phase.Received?
    ensures Accounted(SetFlush(s, f, run)) && Final(s, SetFlush(s, f, run))
  {
    FlushesIrrelevant(s, SetFlush(s, f, run));
  }

  lemma BreakAccounted(s: State, f: nat)
    requires Accounted(s)
    ensures Accounted(Next(s, Break(f))) && Final(s, Next(s, Break(f)))
  {
    if f in s.flushes {
      FlushSet(s, f, s.flushes[f].(phase := Failing));
    }
  }

  lemma HandoffAccounted(s: State, item: PendingRecord)
    requires Accounted(s)
    ensures Accounted(Next(s, Handoff(item))) && Final(s, Next(s, Handoff(item)))
  {
    var next := Next(s, Handoff(item));
    forall id | id in next.gone
      ensures Justified(next, id)
    {
      assert id in s.gone ==> Justified(s, id);
    }
  }

  lemma QueueAccounted(s: State, record: PendingRecord)
    requires Accounted(s)
    ensures Accounted(Next(s, QueueScan(record))) && Final(s, Next(s, QueueScan(record)))
  {
    if record.scan.id !in s.recorded && record.status == Pending && record.rejection.None? {
      NewScanAccounted(s, record);
    }
  }

  lemma NewScanAccounted(s: State, record: PendingRecord)
    requires Accounted(s) && record.scan.id !in s.recorded && Genuine(s.answers, record)
    ensures var next :=
      s.(queue := s.queue[record.scan.id := record], recorded := s.recorded[record.scan.id := record.scan]);
      Accounted(next) && Final(s, next)
  {
    var next := s.(queue := s.queue[record.scan.id := record], recorded := s.recorded[record.scan.id := record.scan]);
    forall id | id in next.gone
      ensures Justified(next, id)
    {
      assert Justified(s, id);
    }
  }

  lemma MarkAccounted(s: State, ids: seq<ClientEventId>, status: QueueStatus)
    requires Accounted(s) && status != Rejected
    ensures Accounted(s.(queue := Marked(s.queue, ids, status)))
  {
    var next := s.(queue := Marked(s.queue, ids, status));
    forall id | id in next.gone
      ensures Justified(next, id)
    {
      assert Justified(s, id);
    }
  }

  lemma AnswerAccounted(s: State, f: nat, response: Response)
    requires Accounted(s)
    ensures Accounted(Next(s, Answer(f, response))) && Final(s, Next(s, Answer(f, response)))
  {
    var next := Next(s, Answer(f, response));
    forall id | id in next.gone
      ensures Justified(next, id)
    {
      assert Justified(s, id);
    }
  }

  lemma CheckAccounted(s: State, t: nat, user: nat)
    requires Accounted(s)
    ensures Accounted(Next(s, CheckOwner(t, user))) && Final(s, Next(s, CheckOwner(t, user)))
  {
    if s.owner.None? || s.owner == Some(user) || |s.queue| > 0 || t in s.takeovers {
      FlushesIrrelevant(s, Next(s, CheckOwner(t, user)));
    } else {
      assert s.queue.Keys == {};
      TakeoverNoted(s, t, user);
    }
  }

  lemma TakeoverNoted(s: State, t: nat, user: nat)
    requires Accounted(s) && s.queue.Keys == {}
    ensures Accounted(s.(takeovers := s.takeovers[t := Takeover(user, s.recorded.Keys)]))
  {
    var next := s.(takeovers := s.takeovers[t := Takeover(user, s.recorded.Keys)]);
    forall id | id in next.gone
      ensures Justified(next, id)
    {
      assert Justified(s, id);
    }
  }

  lemma MarkStepAccounted(s: State, s': State, ids: seq<ClientEventId>, status: QueueStatus)
    requires Accounted(s) && status != Rejected
    requires s' == s.(queue := Marked(s.queue, ids, status), flushes := s'.flushes)
    requires forall f :: f in s'.flushes && s'.flushes[f].phase.Received? ==>
      f in s.flushes && s'.flushes[f] == s.flushes[f]
    ensures Accounted(s') && Final(s, s')
  {
    MarkAccounted(s, ids, status);
    FlushesIrrelevant(s.(queue := Marked(s.queue, ids, status)), s');
  }

  lemma SendAccounted(s: State, f: nat)
    requires Accounted(s)
    ensures Accounted(Next(s, SendNext(f))) && Final(s, Next(s, SendNext(f)))
  {
    if InPhase(s, f, true, false, false, false) && Batch(s.flushes[f]) != [] {
      MarkStepAccounted(s, Next(s, SendNext(f)), Ids(Batch(s.flushes[f])), Syncing);
    }
  }

  lemma ResetAccounted(s: State, f: nat)
    requires Accounted(s)
    ensures Accounted(Next(s, Reset(f))) && Final(s, Next(s, Reset(f)))
  {
    if InPhase(s, f, false, false, false, true) {
      MarkStepAccounted(s, Next(s, Reset(f)), Ids(Batch(s.flushes[f])), Pending);
    }
  }

  /** Under every interleaving each scan ever queued is stored unchanged, or left for a
      recorded and genuine reason. */
  lemma {:induction false} EveryScanAccountedFor(actions: seq<Action>)
    ensures Accounted(Run(START, actions))
  {
    if actions != [] {
      EveryScanAccountedFor(actions[..|actions| - 1]);
      StepAccounted(Run(START, actions[..|actions| - 1]), actions[|actions| - 1]);
    }
  }

  /** A scan that has left never comes back: late answers, resets and blind status updates
      of other flushes cannot re-create it. */
  lemma {:induction false} DeletedScansStayDeleted(actions: seq<Action>, n: nat, id: ClientEventId)
    requires n <= |actions| && id in Run(START, actions[..n]).gone
    ensures id !in Run(START, actions).queue
    ensures id in Run(START, actions).gone && Run(START, actions).gone[id] == Run(START, actions[..n]).gone[id]
    decreases |actions|
  {
    EveryScanAccountedFor(actions);
    if n < |actions| {
      var front := actions[..|actions| - 1];
      assert front[..n] == actions[..n];
      DeletedScansStayDeleted(front, n, id);
      EveryScanAccountedFor(front);
      StepAccounted(Run(START, front), actions[|actions| - 1]);
    } else {
      assert actions[..n] == actions;
    }
  }

  // ---- Losing scans -----------------------------------------------------------

  /** The scans a step drops without a confirmation or a handoff. */
  function Lost(s: State, a: Action): set<ClientEventId> {
    set id | id in s.queue && id in Next(s, a).gone
      && (Next(s, a).gone[id].LoggedOut? || Next(s, a).gone[id].TakenOver?)
  }

  /** In every reachable state an owner change loses exactly the scans that were queued
      after its check and are still stored; it loses none exactly when there are none. */
  lemma TakeoverLosesLateScans(actions: seq<Action>, t: nat)
    requires t in Run(START, actions).takeovers
    ensures var s := Run(START, actions);
      && Lost(s, TakeOver(t)) == s.queue.Keys && Next(s, TakeOver(t)).owner == Some(s.takeovers[t].user)
      && (forall id :: id in s.queue ==> id !in s.takeovers[t].known)
      && (Lost(s, TakeOver(t)) == {} <==> forall id :: id in s.recorded && id !in s.takeovers[t].known ==> id in s.gone)
  {
    var s := Run(START, actions);
    EveryScanAccountedFor(actions);
    assert forall id :: id in s.queue ==> id in Lost(s, TakeOver(t));
  }

  /** The window is real: a scan queued between the check and the clearing is lost. */
  lemma LateScanIsLost(record: PendingRecord)
    requires record.status == Pending && record.rejection.None?
    ensures var owned := Next(START, CheckOwner(0, 1));
      var checked := Next(owned, CheckOwner(1, 2));
      var scanned := Next(checked, QueueScan(record));
      && record.scan.id in scanned.queue
      && Lost(scanned, TakeOver(1)) == {record.scan.id}
  {
    var owned := START.(owner := Some(1));
    assert Next(START, CheckOwner(0, 1)) == owned;
    var checked := owned.(takeovers := map[1 := Takeover(2, {})]);
    assert Next(owned, CheckOwner(1, 2)) == checked;
  }

  /** Apart from logouts and owner changes no step ever loses a scan. */
  lemma OnlyClearingLoses(actions: seq<Action>, a: Action)
    requires !a.Logout? && !a.TakeOver?
    ensures var s := Run(START, actions); forall id :: id in s.queue ==>
      var s' := Next(s, a);
      id in s'.queue || (id in s'.gone && (s'.gone[id].Confirmed? || s'.gone[id].HandedOff?))
  {
    var s := Run(START, actions);
    EveryScanAccountedFor(actions);
    if a.Apply? && InPhase(s, a.f, false, false, true, false) {
      ConfirmedOnly(s.gone, s.queue, s.flushes[a.f].phase.response.results);
    }
  }

  lemma {:induction false} ConfirmedOnly(gone: map<ClientEventId, Reason>, q: Queue, results: seq<SyncResult>)
    ensures forall id :: id in q && id !in QueueAfterAll(q, results) ==>
      id in GoneAfterAll(gone, q, results) && GoneAfterAll(gone, q, results)[id].Confirmed?
  {
    if results != [] {
      ConfirmedOnly(gone, q, results[..|results| - 1]);
    }
  }

  // ---- A flush that nothing disturbs ------------------------------------------

  /** What happens around batches `k` and later, up to the first request that fails. */
  function FlushActions(f: nat, count: nat, server: nat -> FlushModel.Answer, k: nat): seq<Action>
    requires k <= count
    decreases count - k
  {
    if k == count then
      []
    else
      match server(k)
      case Failed(_) => [SendNext(f), Break(f), Reset(f)]
      case Reply(response) => [SendNext(f), Answer(f, response), Apply(f)] + FlushActions(f, count, server, k + 1)
  }

  lemma {:induction false} RunInParts(s: State, first: seq<Action>, second: seq<Action>)
    ensures Run(s, first + second) == Run(Run(s, first), second)
    decreases |second|
  {
    if second == [] {
      assert first + second == first;
    } else {
      var front := second[..|second| - 1];
      assert (first + second)[..|first + second| - 1] == first + front;
      RunInParts(s, first, front);
    }
  }

  lemma RunOfThree(s: State, a: Action, b: Action, c: Action)
    ensures Run(s, [a, b, c]) == Next(Next(Next(s, a), b), c)
  {
    assert [] + [a] == [a] && [a] + [b] == [a, b] && [a, b] + [c] == [a, b, c];
    RunOneMore(s, [], a);
    RunOneMore(s, [a], b);
    RunOneMore(s, [a, b], c);
  }

  lemma RunOneMore(s: State, actions: seq<Action>, a: Action)
    ensures Run(s, actions + [a]) == Next(Run(s, actions), a)
  {
    assert (actions + [a])[..|actions|] == actions;
  }

  /** Flush `f` is about to send batch `k`. */
  ghost predicate AtBatch(s: State, f: nat, pending: seq<PendingRecord>, k: nat) {
    && f in s.flushes && s.flushes[f] == FlushRun(pending, BATCH * k, Ready)
    && k <= |Batches(pending)|
    && (k < |Batches(pending)| <==> BATCH * k < |pending|)
  }

  /** State `s` with flush `f` in another phase of the batch at `offset`. */
  function InBatch(s: State, q: Queue, f: nat, pending: seq<PendingRecord>, offset: nat, phase: Phase): State {
    SetFlush(s.(queue := q), f, FlushRun(pending, offset, phase))
  }

  lemma SentStep(s: State, f: nat, pending: seq<PendingRecord>, k: nat)
    requires AtBatch(s, f, pending, k) && k < |Batches(pending)|
    ensures Next(s, SendNext(f)) ==
      InBatch(s, Marked(s.queue, Ids(Batches(pending)[k]), Syncing), f, pending, BATCH * k, Sent)
  {
    BatchIndex(pending, k);
    assert Batch(s.flushes[f]) == Batches(pending)[k];
    BatchSizes(pending, k);
  }

  lemma AnswerStep(s: State, q: Queue, f: nat, pending: seq<PendingRecord>, offset: nat, response: Response)
    ensures Next(InBatch(s, q, f, pending, offset, Sent), Answer(f, response)) ==
      InBatch(s.(answers := s.answers + set r | r in response.results), q, f, pending, offset, Received(response))
  {
  }

  lemma BreakStep(s: State, q: Queue, f: nat, pending: seq<PendingRecord>, offset: nat)
    ensures Next(InBatch(s, q, f, pending, offset, Sent), Break(f)) == InBatch(s, q, f, pending, offset, Failing)
  {
  }

  lemma ApplyStep(s: State, q: Queue, f: nat, pending: seq<PendingRecord>, offset: nat, response: Response)
    ensures var after := Next(InBatch(s, q, f, pending, offset, Received(response)), Apply(f));
      && after.queue == QueueAfterAll(q, response.results)
      && f in after.flushes && after.flushes[f] == FlushRun(pending, offset + BATCH, Ready)
  {
  }

  lemma ResetStep(s: State, q: Queue, f: nat, pending: seq<PendingRecord>, offset: nat)
    ensures Next(InBatch(s, q, f, pending, offset, Failing), Reset(f)).queue ==
      Marked(q, Ids(Batch(FlushRun(pending, offset, Failing))), Pending)
  {
  }

  lemma AnsweredStep(s: State, f: nat, pending: seq<PendingRecord>, k: nat, response: Response)
    requires AtBatch(s, f, pending, k) && k < |Batches(pending)|
    ensures var after := Run(s, [SendNext(f), Answer(f, response), Apply(f)]);
      && after.queue == QueueAfterAll(Marked(s.queue, Ids(Batches(pending)[k]), Syncing), response.results)
      && AtBatch(after, f, pending, k + 1)
  {
    SentStep(s, f, pending, k);
    var q, heard := Marked(s.queue, Ids(Batches(pending)[k]), Syncing), s.answers + set r | r in response.results;
    AnswerStep(s, q, f, pending, BATCH * k, response);
    ApplyStep(s.(answers := heard), q, f, pending, BATCH * k, response);
    RunOfThree(s, SendNext(f), Answer(f, response), Apply(f));
    BatchIndex(pending, k);
  }

  lemma FailedStep(s: State, f: nat, pending: seq<PendingRecord>, k: nat)
    requires AtBatch(s, f, pending, k) && k < |Batches(pending)|
    ensures var ids := Ids(Batches(pending)[k]);
      Run(s, [SendNext(f), Break(f), Reset(f)]).queue == Marked(Marked(s.queue, ids, Syncing), ids, Pending)
  {
    SentStep(s, f, pending, k);
    var q := Marked(s.queue, Ids(Batches(pending)[k]), Syncing);
    BreakStep(s, q, f, pending, BATCH * k);
    ResetStep(s, q, f, pending, BATCH * k);
    RunOfThree(s, SendNext(f), Break(f), Reset(f));
    BatchIndex(pending, k);
    assert Batch(FlushRun(pending, BATCH * k, Failing)) == Batches(pending)[k];
  }

  lemma {:induction false} FlushFollowsSteps(
    s: State, store: Store, f: nat, event: EventId, pending: seq<PendingRecord>, server: nat -> FlushModel.Answer,
    k: nat, now: int)
    requires AtBatch(s, f, pending, k) && store.queue == s.queue
    ensures var batches := Batches(pending);
      Run(s, FlushActions(f, |batches|, server, k)).queue == Flush(store, event, batches, server, k, now).store.queue
    decreases |Batches(pending)| - k
  {
    var batches := Batches(pending);
    if k < |batches| {
      match server(k)
      case Failed(_) => FailedStep(s, f, pending, k);
      case Reply(response) =>
        var round := [SendNext(f), Answer(f, response), Apply(f)];
        AnsweredStep(s, f, pending, k, response);
        RunInParts(s, round, FlushActions(f, |batches|, server, k + 1));
        FlushFollowsSteps(
          Run(s, round), Answered(store, event, batches[k], response, now), f, event, pending, server, k + 1, now);
    }
  }

  /** The flush of the database object is a run of this protocol: what is proved of every
      interleaving holds of it, whatever ran before. */
  lemma FlushIsRun(
    before: seq<Action>, store: Store, f: nat, event: EventId, server: nat -> FlushModel.Answer, now: int)
    requires store.queue == Run(START, before).queue && f !in Run(START, before).flushes
    ensures var batches := Batches(PendingForEvent(store.queue, event));
      Run(START, before + ([BeginFlush(f, event)] + FlushActions(f, |batches|, server, 0))).queue ==
      Flush(store, event, batches, server, 0, now).store.queue
  {
    var pending := PendingForEvent(store.queue, event);
    var begun := Next(Run(START, before), BeginFlush(f, event));
    var steps := FlushActions(f, |Batches(pending)|, server, 0);
    RunOneMore(Run(START, before), [], BeginFlush(f, event));
    assert [] + [BeginFlush(f, event)] == [BeginFlush(f, event)];
    RunInParts(Run(START, before), [BeginFlush(f, event)], steps);
    RunInParts(START, before, [BeginFlush(f, event)] + steps);
    FlushFollowsSteps(begun, store, f, event, pending, server, 0, now);
  }
}
