/** The delivery lease and retry machine of the mail workers (email_worker.py). Whether a
    message is sent, refused or no longer wanted is decided outside. Times are seconds. */
module EmailWorker {
  import opened Common

  type DeliveryId = nat
  type Worker = nat

  const LEASE := 600

  datatype Status = Queued | Sending | Sent | Failed | Cancelled

  datatype Row = Row(status: Status, attempts: nat, queuedAt: int, nextAttempt: Option<int>, updatedAt: int)

  /** What processing a claimed delivery ends with. */
  datatype Outcome = Delivered | Refused | Withdrawn

  // ---- Retry delays -----------------------------------------------------------

  function Power(n: nat): nat {
    if n == 0 then 1 else 2 * Power(n - 1)
  }

  /** Seconds until the next try after the given number of attempts. */
  function RetryDelay(attempts: nat): int
    requires attempts >= 1
  {
    var exponent := if attempts - 1 <= 6 then attempts - 1 else 6;
    var delay := 60 * Power(exponent);
    if delay <= 3600 then delay else 3600
  }

  lemma {:induction false} PowerGrows(m: nat, n: nat)
    requires m <= n
    ensures 1 <= Power(m) <= Power(n)
    decreases n
  {
    if m < n {
      PowerGrows(m, n - 1);
    } else if m > 0 {
      PowerGrows(m - 1, n - 1);
    }
  }

  /** Delays never shrink and stay between a minute and an hour. */
  lemma DelaysGrow(a: nat, b: nat)
    requires 1 <= a <= b
    ensures 60 <= RetryDelay(a) <= RetryDelay(b) <= 3600
  {
    var low, high := if a - 1 <= 6 then a - 1 else 6, if b - 1 <= 6 then b - 1 else 6;
    PowerGrows(low, high);
  }

  /** The first delay is a minute, and each further one is twice as long up to an hour. */
  lemma DelayDoubles(attempts: nat)
    requires attempts >= 1
    ensures RetryDelay(1) == 60
    ensures RetryDelay(attempts + 1) == if 2 * RetryDelay(attempts) <= 3600 then 2 * RetryDelay(attempts) else 3600
  {
    if attempts > 6 {
      assert Power(6) == 2 * Power(5) && Power(5) == 2 * Power(4) && Power(4) == 2 * Power(3);
    } else {
      PowerGrows(0, attempts - 1);
      PowersUpTo64();
    }
  }

  lemma PowersUpTo64()
    ensures Power(0) == 1 && Power(1) == 2 && Power(2) == 4 && Power(3) == 8 && Power(4) == 16
    ensures Power(5) == 32 && Power(6) == 64
  {
    assert Power(3) == 2 * Power(2) && Power(4) == 2 * Power(3) && Power(5) == 2 * Power(4) && Power(6) == 2 * Power(5);
  }

  // ---- One row ----------------------------------------------------------------

  /** Due, or abandoned for longer than the lease. */
  predicate Claimable(row: Row, now: int) {
    (row.status == Queued && (row.nextAttempt.None? || row.nextAttempt.value <= now))
    || (row.status == Sending && row.updatedAt < now - LEASE)
  }

  function ClaimedRow(row: Row, now: int): Row {
    row.(status := Sending, attempts := row.attempts + 1, nextAttempt := None, updatedAt := now)
  }

  /** The update after processing; it looks at the attempts of the claim, not at the row. */
  function FinishedRow(row: Row, attempts: nat, outcome: Outcome, max: nat, now: int): Row
    requires attempts >= 1
  {
    match outcome
    case Delivered => row.(status := Sent, updatedAt := now)
    case Withdrawn => row.(status := Cancelled, updatedAt := now)
    case Refused =>
      if attempts >= max then row.(status := Failed, nextAttempt := None, updatedAt := now)
      else row.(status := Queued, nextAttempt := Some(now + RetryDelay(attempts)), updatedAt := now)
  }

  /** A delivery that was refused with attempts left may be claimed again exactly from the end
      of its delay on, and a claimed one exactly once its lease of ten minutes has run out. */
  lemma ClaimableAgainExactly(row: Row, attempts: nat, max: nat, now: int, later: int)
    requires 1 <= attempts < max
    ensures Claimable(FinishedRow(row, attempts, Refused, max, now), later) <==> later >= now + RetryDelay(attempts)
    ensures Claimable(ClaimedRow(row, now), later) <==> later > now + 600
    ensures forall outcome: Outcome :: outcome.Delivered? || outcome.Withdrawn? ==>
      !Claimable(FinishedRow(row, attempts, outcome, max, now), later)
    ensures !Claimable(FinishedRow(row, max, Refused, max, now), later)
    ensures ClaimedRow(row, now).nextAttempt.None? && FinishedRow(row, max, Refused, max, now).nextAttempt.None?
  {
  }

  // ---- Many workers -----------------------------------------------------------

  /** A delivery in a worker's hands. */
  datatype Job = Job(id: DeliveryId, attempts: nat, claimedAt: int)

  /** `claims` is history: how often each delivery was claimed. */
  datatype State = State(now: int, rows: map<DeliveryId, Row>, jobs: map<Worker, Job>, claims: map<DeliveryId, nat>)

  datatype Action =
    | Pass(seconds: nat)
    | Enqueue(id: DeliveryId)
    | Claim(w: Worker, id: DeliveryId)
    | Finish(w: Worker, outcome: Outcome)
    | Crash(w: Worker)

  predicate CanClaim(s: State, w: Worker, id: DeliveryId) {
    w !in s.jobs && id in s.rows && Claimable(s.rows[id], s.now)
  }

  function Count(s: State, id: DeliveryId): nat {
    if id in s.claims then s.claims[id] else 0
  }

  function Next(s: State, max: nat, a: Action): State {
    match a
    case Pass(seconds) => s.(now := s.now + seconds)
    case Enqueue(id) => if id in s.rows then s else s.(rows := s.rows[id := Row(Queued, 0, s.now, None, s.now)])
    case Claim(w, id) =>
      if !CanClaim(s, w, id) then s
      else s.(rows := s.rows[id := ClaimedRow(s.rows[id], s.now)],
              jobs := s.jobs[w := Job(id, s.rows[id].attempts + 1, s.now)],
              claims := s.claims[id := Count(s, id) + 1])
    case Finish(w, outcome) =>
      if w !in s.jobs || s.jobs[w].id !in s.rows || s.jobs[w].attempts == 0 then s
      else
        var job := s.jobs[w];
        s.(rows := s.rows[job.id := FinishedRow(s.rows[job.id], job.attempts, outcome, max, s.now)],
          jobs := s.jobs - {w})
    case Crash(w) => s.(jobs := s.jobs - {w})
  }

  /** The job's lease has not run out. */
  predicate Live(s: State, w: Worker) {
    w in s.jobs && s.now <= s.jobs[w].claimedAt + LEASE
  }

  /** Whoever writes an outcome does so within the lease. */
  predicate Timely(s: State, a: Action) {
    a.Finish? && a.w in s.jobs ==> Live(s, a.w)
  }

  predicate Final(status: Status) {
    status == Sent || status == Failed || status == Cancelled
  }

  function Run(s: State, max: nat, actions: seq<Action>): State {
    if actions == [] then s else Next(Run(s, max, actions[..|actions| - 1]), max, actions[|actions| - 1])
  }

  predicate TimelyRun(s: State, max: nat, actions: seq<Action>) {
    actions != [] ==>
      && TimelyRun(s, max, actions[..|actions| - 1])
      && Timely(Run(s, max, actions[..|actions| - 1]), actions[|actions| - 1])
  }

  const START := State(0, map[], map[], map[])

  /** A live job is the row's own latest claim. */
  ghost predicate Owns(s: State, w: Worker)
    requires w in s.jobs
  {
    var job := s.jobs[w];
    job.id in s.rows && s.rows[job.id].status == Sending
    && s.rows[job.id].updatedAt == job.claimedAt && s.rows[job.id].attempts == job.attempts
  }

  ghost predicate Leased(s: State) {
    && (forall w :: w in s.jobs ==> s.jobs[w].attempts >= 1 && s.jobs[w].id in s.rows && s.jobs[w].claimedAt <= s.now)
    && (forall w :: Live(s, w) ==> Owns(s, w))
    && (forall v, w :: Live(s, v) && Live(s, w) && s.jobs[v].id == s.jobs[w].id ==> v == w)
    && (forall id :: id in s.rows ==> s.rows[id].attempts == Count(s, id))
    && (forall id :: id in s.claims ==> id in s.rows)
  }

  /** A claimable delivery is in nobody's live hands. */
  lemma ClaimableIsFree(s: State, id: DeliveryId, v: Worker)
    requires Leased(s) && id in s.rows && Claimable(s.rows[id], s.now) && Live(s, v)
    ensures s.jobs[v].id != id
  {
    assert Owns(s, v);
  }

  lemma ClaimLeased(s: State, max: nat, w: Worker, id: DeliveryId)
    requires Leased(s) && CanClaim(s, w, id)
    ensures Leased(Next(s, max, Claim(w, id)))
  {
    var next := Next(s, max, Claim(w, id));
    forall v | Live(next, v) && v != w
      ensures Live(s, v) && Owns(next, v) && next.jobs[v].id != id
    {
      assert Live(s, v) && Owns(s, v);
      ClaimableIsFree(s, id, v);
    }
    assert Owns(next, w);
  }

  lemma FinishLeased(s: State, max: nat, w: Worker, outcome: Outcome)
    requires Leased(s) && w in s.jobs && Live(s, w)
    ensures Leased(Next(s, max, Finish(w, outcome))) && s.rows[s.jobs[w].id].status == Sending
  {
    var next := Next(s, max, Finish(w, outcome));
    assert Owns(s, w);
    forall v | Live(next, v)
      ensures Owns(next, v)
    {
      assert Live(s, v) && Owns(s, v);
    }
    assert forall v :: Live(next, v) ==> Live(s, v);
  }

  lemma OtherLeased(s: State, max: nat, a: Action)
    requires Leased(s) && (a.Pass? || a.Enqueue? || a.Crash?)
    ensures Leased(Next(s, max, a))
  {
    var next := Next(s, max, a);
    forall v | Live(next, v)
      ensures Live(s, v) && Owns(next, v)
    {
      assert Live(s, v) && Owns(s, v);
    }
  }

  lemma StepLeased(s: State, max: nat, a: Action)
    requires Leased(s) && Timely(s, a)
    ensures Leased(Next(s, max, a))
    ensures forall id :: id in s.rows && Final(s.rows[id].status) ==>
      id in Next(s, max, a).rows && Next(s, max, a).rows[id] == s.rows[id]
  {
    match a
    case Claim(w, id) =>
      if CanClaim(s, w, id) {
        ClaimLeased(s, max, w, id);
      }
    case Finish(w, outcome) =>
      if w in s.jobs {
        FinishLeased(s, max, w, outcome);
      }
    case _ => OtherLeased(s, max, a);
  }

  /** While outcomes are written within the lease, a delivery has at most one live holder,
      whatever crashes, and its attempts count its claims. */
  lemma {:induction false} EveryTimelyRunLeased(max: nat, actions: seq<Action>)
    requires TimelyRun(START, max, actions)
    ensures Leased(Run(START, max, actions))
  {
    if actions != [] {
      EveryTimelyRunLeased(max, actions[..|actions| - 1]);
      StepLeased(Run(START, max, actions[..|actions| - 1]), max, actions[|actions| - 1]);
    }
  }

  lemma {:induction false} PrefixTimely(max: nat, actions: seq<Action>, n: nat)
    requires n <= |actions| && TimelyRun(START, max, actions)
    ensures TimelyRun(START, max, actions[..n])
    decreases |actions|
  {
    if n < |actions| {
      assert actions[..|actions| - 1][..n] == actions[..n];
      PrefixTimely(max, actions[..|actions| - 1], n);
    } else {
      assert actions[..n] == actions;
    }
  }

  /** SENT, FAILED and CANCELLED are final in every timely run. */
  lemma {:induction false} OutcomesAreFinal(max: nat, actions: seq<Action>, n: nat, id: DeliveryId)
    requires n <= |actions| && TimelyRun(START, max, actions)
    requires id in Run(START, max, actions[..n]).rows && Final(Run(START, max, actions[..n]).rows[id].status)
    ensures id in Run(START, max, actions).rows
    ensures Run(START, max, actions).rows[id] == Run(START, max, actions[..n]).rows[id]
    decreases |actions|
  {
    if n < |actions| {
      var front := actions[..|actions| - 1];
      assert front[..n] == actions[..n];
      OutcomesAreFinal(max, front, n, id);
      EveryTimelyRunLeased(max, front);
      StepLeased(Run(START, max, front), max, actions[|actions| - 1]);
    } else {
      assert actions[..n] == actions;
    }
  }

  /** The status an outcome writes. */
  function StatusOf(attempts: nat, outcome: Outcome, max: nat): Status {
    match outcome
    case Delivered => Sent
    case Withdrawn => Cancelled
    case Refused => if attempts >= max then Failed else Queued
  }

  /** The step changes the final status of some delivery. */
  ghost predicate Overwrites(s: State, max: nat, a: Action) {
    exists id :: id in s.rows && Final(s.rows[id].status)
      && id in Next(s, max, a).rows && Next(s, max, a).rows[id].status != s.rows[id].status
  }

  /** Some worker's outcome differs from the final status its delivery already has. */
  ghost predicate WritesOverFinal(s: State, max: nat, a: Action) {
    && a.Finish? && a.w in s.jobs && s.jobs[a.w].id in s.rows && s.jobs[a.w].attempts >= 1
    && var row := s.rows[s.jobs[a.w].id];
       Final(row.status) && row.status != StatusOf(s.jobs[a.w].attempts, a.outcome, max)
  }

  /** Over every history a final status changes exactly when a worker finishes, with another
      status, a delivery that is already final: the outcome update has no guard. */
  lemma OverwrittenExactly(max: nat, actions: seq<Action>, a: Action)
    ensures var s := Run(START, max, actions); Overwrites(s, max, a) <==> WritesOverFinal(s, max, a)
  {
    var s := Run(START, max, actions);
    if WritesOverFinal(s, max, a) {
      var id := s.jobs[a.w].id;
      assert id in Next(s, max, a).rows && Next(s, max, a).rows[id].status != s.rows[id].status;
    }
  }

  /** After a timely history that worker's lease has run out; so a final status changes
      exactly when an outcome arrives late for a delivery that ended differently. */
  lemma LateOverwritesExactly(max: nat, actions: seq<Action>, a: Action)
    requires TimelyRun(START, max, actions)
    ensures var s := Run(START, max, actions);
      Overwrites(s, max, a) <==> WritesOverFinal(s, max, a) && !Live(s, a.w)
  {
    var s := Run(START, max, actions);
    OverwrittenExactly(max, actions, a);
    EveryTimelyRunLeased(max, actions);
    if WritesOverFinal(s, max, a) && Live(s, a.w) {
      LiveIsSending(s, a.w);
    }
  }

  lemma LiveIsSending(s: State, w: Worker)
    requires Leased(s) && Live(s, w)
    ensures s.rows[s.jobs[w].id].status == Sending
  {
    assert Owns(s, w);
  }

  /** Such a history exists: the second worker sent the message, then the first one, late,
      puts it back in the queue. */
  lemma LateOutcomeUndoesSent(id: DeliveryId)
    ensures var queued := Next(START, 3, Enqueue(id));
      var late := Next(Next(queued, 3, Claim(0, id)), 3, Pass(LEASE + 1));
      var sent := Next(Next(late, 3, Claim(1, id)), 3, Finish(1, Delivered));
      && sent.rows[id].status == Sent && Overwrites(sent, 3, Finish(0, Refused))
      && Next(sent, 3, Finish(0, Refused)).rows[id].status == Queued
  {
    var queued := Next(START, 3, Enqueue(id));
    var late := Next(Next(queued, 3, Claim(0, id)), 3, Pass(LEASE + 1));
    var sent := Next(Next(late, 3, Claim(1, id)), 3, Finish(1, Delivered));
    assert id in sent.rows && id in Next(sent, 3, Finish(0, Refused)).rows;
  }

  // ---- Attempts ---------------------------------------------------------------

  /** No worker dies, and none is still busy when its lease ends. */
  predicate Prompt(s: State, a: Action) {
    && !a.Crash?
    && (a.Pass? ==> forall w :: w in s.jobs ==> s.now + a.seconds <= s.jobs[w].claimedAt + LEASE)
  }

  predicate PromptRun(s: State, max: nat, actions: seq<Action>) {
    actions != [] ==>
      && PromptRun(s, max, actions[..|actions| - 1])
      && Prompt(Run(s, max, actions[..|actions| - 1]), actions[|actions| - 1])
  }

  /** A row the retry rule has not given up yet still has attempts left. */
  ghost predicate Budgeted(s: State, max: nat) {
    && (forall w :: w in s.jobs ==> Live(s, w))
    && (forall id :: id in s.rows ==> WithinBudget(s.rows[id], max))
    && (forall id :: id in s.rows && s.rows[id].status == Sending ==> HasWorker(s, id))
  }

  predicate WithinBudget(row: Row, max: nat) {
    match row.status
    case Queued => row.attempts < max
    case Failed => row.attempts == max
    case Sending => 1 <= row.attempts <= max
    case Sent => row.attempts <= max
    case Cancelled => row.attempts <= max
  }

  ghost predicate HasWorker(s: State, id: DeliveryId) {
    exists w :: w in s.jobs && s.jobs[w].id == id
  }

  /** Nothing abandoned can be claimed, because nothing is abandoned. */
  lemma OnlyQueuedClaimed(s: State, max: nat, w: Worker, id: DeliveryId)
    requires Leased(s) && Budgeted(s, max) && CanClaim(s, w, id)
    ensures s.rows[id].status == Queued
  {
    if s.rows[id].status == Sending {
      assert HasWorker(s, id);
      var v :| v in s.jobs && s.jobs[v].id == id;
      assert Live(s, v) && Owns(s, v);
    }
  }

  lemma ClaimBudgeted(s: State, max: nat, w: Worker, id: DeliveryId)
    requires Leased(s) && Budgeted(s, max) && CanClaim(s, w, id)
    ensures Budgeted(Next(s, max, Claim(w, id)), max)
  {
    var next := Next(s, max, Claim(w, id));
    OnlyQueuedClaimed(s, max, w, id);
    forall x | x in next.rows && next.rows[x].status == Sending
      ensures HasWorker(next, x)
    {
      if x == id {
        assert next.jobs[w].id == x;
      } else {
        var v :| v in s.jobs && s.jobs[v].id == x;
        assert next.jobs[v].id == x;
      }
    }
    assert forall v :: v in next.jobs && v != w ==> Live(s, v);
  }

  lemma FinishBudgeted(s: State, max: nat, w: Worker, outcome: Outcome)
    requires Leased(s) && Budgeted(s, max) && w in s.jobs
    ensures Budgeted(Next(s, max, Finish(w, outcome)), max)
  {
    var next := Next(s, max, Finish(w, outcome));
    assert Live(s, w) && Owns(s, w);
    forall x | x in next.rows && next.rows[x].status == Sending
      ensures HasWorker(next, x)
    {
      var v :| v in s.jobs && s.jobs[v].id == x;
      assert v != w && next.jobs[v].id == x;
    }
    assert forall v :: v in next.jobs ==> Live(s, v);
  }

  lemma QuietBudgeted(s: State, max: nat, a: Action)
    requires max >= 1 && Budgeted(s, max) && Prompt(s, a) && (a.Pass? || a.Enqueue?)
    ensures Budgeted(Next(s, max, a), max)
  {
    var next := Next(s, max, a);
    forall x | x in next.rows && next.rows[x].status == Sending
      ensures HasWorker(next, x)
    {
      var v :| v in s.jobs && s.jobs[v].id == x;
      assert next.jobs[v].id == x;
    }
    assert forall v :: v in next.jobs ==> Live(s, v);
  }

  lemma StepBudgeted(s: State, max: nat, a: Action)
    requires max >= 1 && Leased(s) && Budgeted(s, max) && Prompt(s, a)
    ensures Timely(s, a) && Budgeted(Next(s, max, a), max)
  {
    match a
    case Claim(w, id) =>
      if CanClaim(s, w, id) {
        ClaimBudgeted(s, max, w, id);
      }
    case Finish(w, outcome) =>
      if w in s.jobs {
        FinishBudgeted(s, max, w, outcome);
      }
    case _ => QuietBudgeted(s, max, a);
  }

  /** With prompt workers a delivery is claimed at most `max` times, and one that always
      fails is FAILED after exactly `max` claims, never earlier. */
  lemma {:induction false} FailsAfterExactlyMax(max: nat, actions: seq<Action>)
    requires max >= 1 && PromptRun(START, max, actions)
    ensures TimelyRun(START, max, actions)
    ensures var s := Run(START, max, actions); Leased(s) && Budgeted(s, max)
    ensures forall id :: id in Run(START, max, actions).rows ==>
      && Count(Run(START, max, actions), id) <= max
      && (Run(START, max, actions).rows[id].status == Failed ==> Count(Run(START, max, actions), id) == max)
      && (Run(START, max, actions).rows[id].status == Queued ==> Count(Run(START, max, actions), id) < max)
  {
    if actions != [] {
      var front := actions[..|actions| - 1];
      FailsAfterExactlyMax(max, front);
      StepBudgeted(Run(START, max, front), max, actions[|actions| - 1]);
      StepLeased(Run(START, max, front), max, actions[|actions| - 1]);
    }
  }

  /** `n` rounds of claiming, failing and waiting an hour. */
  function Rounds(s: State, max: nat, w: Worker, id: DeliveryId, n: nat): State {
    if n == 0 then s
    else Next(Next(Next(Rounds(s, max, w, id, n - 1), max, Claim(w, id)), max, Finish(w, Refused)), max, Pass(3600))
  }

  /** A delivery that always fails is back in the queue after each of the first rounds and
      FAILED after round `max`. */
  lemma {:induction false} AlwaysFailing(s: State, max: nat, w: Worker, id: DeliveryId, n: nat)
    requires 1 <= max && n <= max && w !in s.jobs && id in s.rows && s.rows[id].attempts == 0
    requires s.rows[id].status == Queued && Claimable(s.rows[id], s.now)
    ensures var after := Rounds(s, max, w, id, n);
      && id in after.rows && w !in after.jobs && after.rows[id].attempts == n
      && after.rows[id].status == (if n < max then Queued else Failed)
      && (n < max ==> Claimable(after.rows[id], after.now))
  {
    if n > 0 {
      AlwaysFailing(s, max, w, id, n - 1);
      DelaysGrow(n, n);
    }
  }

  /** Whoever is queued still has attempts left. */
  ghost predicate QueuedHaveAttempts(s: State, max: nat) {
    forall id :: id in s.rows && s.rows[id].status == Queued ==> s.rows[id].attempts < max
  }

  lemma {:induction false} EveryTimelyRunQueues(max: nat, actions: seq<Action>)
    requires max >= 1 && TimelyRun(START, max, actions)
    ensures QueuedHaveAttempts(Run(START, max, actions), max)
  {
    if actions != [] {
      var front, a := actions[..|actions| - 1], actions[|actions| - 1];
      EveryTimelyRunQueues(max, front);
      EveryTimelyRunLeased(max, front);
      var s := Run(START, max, front);
      assert a.Finish? && a.w in s.jobs ==> Owns(s, a.w);
    }
  }

  /** In every timely history a claim exceeds the maximum exactly when it takes over an
      abandoned delivery that has used all its attempts: a crash is not an attempt the
      limit sees. */
  lemma ClaimExceedsMaxExactly(max: nat, actions: seq<Action>, w: Worker, id: DeliveryId)
    requires max >= 1 && TimelyRun(START, max, actions) && CanClaim(Run(START, max, actions), w, id)
    ensures var s := Run(START, max, actions);
      Count(Next(s, max, Claim(w, id)), id) > max <==> s.rows[id].status == Sending && s.rows[id].attempts >= max
  {
    EveryTimelyRunLeased(max, actions);
    EveryTimelyRunQueues(max, actions);
  }

  /** Such a claim exists: with the limit 1 a delivery abandoned once is claimed a second
      time. */
  lemma CrashExceedsMax(id: DeliveryId)
    ensures var queued := Next(START, 1, Enqueue(id));
      var crashed := Next(Next(queued, 1, Claim(0, id)), 1, Crash(0));
      var again := Next(Next(crashed, 1, Pass(LEASE + 1)), 1, Claim(1, id));
      again.rows[id].status == Sending && Count(again, id) == 2
  {
  }
}
