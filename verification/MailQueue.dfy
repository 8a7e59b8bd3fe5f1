/** One worker iteration over the delivery table: claim the oldest due delivery, then
    write its outcome. */
module MailQueue {
  import opened Common
  import opened EmailWorker

  function Due(rows: map<DeliveryId, Row>, now: int): set<DeliveryId> {
    set id | id in rows && Claimable(rows[id], now)
  }

  predicate IsOldest(rows: map<DeliveryId, Row>, id: DeliveryId, among: set<DeliveryId>) {
    id in rows && id in among && forall x :: x in among && x in rows ==> rows[id].queuedAt <= rows[x].queuedAt
  }

  class Deliveries {
    var rows: map<DeliveryId, Row>

    constructor ()
      ensures rows == map[]
    {
      rows := map[];
    }

    /** The oldest queued delivery that may be claimed. */
    method Oldest(now: int) returns (found: Option<DeliveryId>)
      ensures found.None? <==> Due(rows, now) == {}
      ensures found.Some? ==> IsOldest(rows, found.value, Due(rows, now))
    {
      var ids := SortedIds(Due(rows, now));
      assert forall id :: id in ids ==> id in rows;
      found := None;
      for i := 0 to |ids|
        invariant found.None? <==> i == 0
        invariant found.Some? ==> found.value in ids
        invariant found.Some? ==> forall k :: 0 <= k < i ==> rows[found.value].queuedAt <= rows[ids[k]].queuedAt
      {
        if found.None? || rows[ids[i]].queuedAt < rows[found.value].queuedAt {
          found := Some(ids[i]);
        }
      }
    }

    /** `_claim`: the attempts include this one. */
    method Claim(now: int) returns (job: Option<Job>)
      modifies this
      ensures job.None? <==> Due(old(rows), now) == {}
      ensures job.None? ==> rows == old(rows)
      ensures job.Some? ==>
        && IsOldest(old(rows), job.value.id, Due(old(rows), now))
        && job.value == Job(job.value.id, old(rows)[job.value.id].attempts + 1, now)
        && rows == old(rows)[job.value.id := ClaimedRow(old(rows)[job.value.id], now)]
    {
      var item := Oldest(now);
      if item.None? {
        return None;
      }
      var id := item.value;
      rows := rows[id := rows[id].(
        status := Sending, attempts := rows[id].attempts + 1, nextAttempt := None, updatedAt := now)];
      return Some(Job(id, rows[id].attempts, now));
    }

    /** The final update of `process_once`. */
    method Finish(job: Job, outcome: Outcome, max: nat, now: int)
      requires job.id in rows && job.attempts >= 1
      modifies this
      ensures rows == old(rows)[job.id := FinishedRow(old(rows)[job.id], job.attempts, outcome, max, now)]
    {
      var row := rows[job.id];
      match outcome {
        case Withdrawn => rows := rows[job.id := row.(status := Cancelled, updatedAt := now)];
        case Delivered => rows := rows[job.id := row.(status := Sent, updatedAt := now)];
        case Refused =>
          var status := if job.attempts >= max then Failed else Queued;
          var retry := if status == Queued then Some(now + RetryDelay(job.attempts)) else None;
          rows := rows[job.id := row.(status := status, nextAttempt := retry, updatedAt := now)];
      }
    }

    /** `process_once`: the two updates are a claim and an outcome of the many-worker machine,
        `seconds` apart. */
    method ProcessOnce(s: State, w: Worker, outcome: Outcome, max: nat, seconds: nat) returns (job: Option<Job>)
      requires s.rows == rows && w !in s.jobs
      modifies this
      ensures job.None? <==> Due(old(rows), s.now) == {}
      ensures job.None? ==> rows == old(rows)
      ensures job.Some? ==> rows == Processed(s, w, job.value.id, outcome, max, seconds).rows
    {
      job := Claim(s.now);
      if job.Some? {
        Finish(job.value, outcome, max, s.now + seconds);
      }
    }
  }

  function Processed(s: State, w: Worker, id: DeliveryId, outcome: Outcome, max: nat, seconds: nat): State {
    var claimed := Next(s, max, EmailWorker.Action.Claim(w, id));
    Next(Next(claimed, max, Pass(seconds)), max, EmailWorker.Action.Finish(w, outcome))
  }
}
