/** What a flush does: its batches, its effect when the server answers or a request fails,
    and what that means for each scan of the snapshot. */
module FlushModel {
  import opened Common
  import opened ScannerModel

  const BATCH := 500

  /** The fate of the k-th request: an answer, or an error code. */
  datatype Answer = Reply(response: Response) | Failed(code: nat)

  function Ids(batch: seq<PendingRecord>): (ids: seq<ClientEventId>)
    ensures |ids| == |batch| && forall i :: 0 <= i < |ids| ==> ids[i] == batch[i].scan.id
  {
    seq(|batch|, i requires 0 <= i < |batch| => batch[i].scan.id)
  }

  /** `pending.slice(500 * k, 500 * k + 500)`. */
  function BatchAt(pending: seq<PendingRecord>, k: nat): seq<PendingRecord>
    requires BATCH * k < |pending|
  {
    if BATCH * k + BATCH <= |pending| then pending[BATCH * k..BATCH * k + BATCH] else pending[BATCH * k..]
  }

  function Batches(pending: seq<PendingRecord>): seq<seq<PendingRecord>> {
    if pending == [] then []
    else if |pending| <= BATCH then [pending]
    else [pending[..BATCH]] + Batches(pending[BATCH..])
  }

  datatype Flushed = Flushed(store: Store, results: seq<SyncResult>, error: Option<nat>) {
    function Prepend(earlier: seq<SyncResult>): Flushed {
      this.(results := earlier + results)
    }
  }

  function MarkedStore(s: Store, batch: seq<PendingRecord>, status: QueueStatus): Store {
    s.(queue := Marked(s.queue, Ids(batch), status))
  }

  function Answered(s: Store, event: EventId, batch: seq<PendingRecord>, response: Response, now: int): Store {
    ApplySyncResults(MarkedStore(s, batch, Syncing), event, response, now)
  }

  function PutBack(s: Store, event: EventId, batch: seq<PendingRecord>, code: nat): Store {
    RecordSyncError(MarkedStore(MarkedStore(s, batch, Syncing), batch, Pending), event, code)
  }

  /** Batches `k` and later. */
  function Flush(
    s: Store, event: EventId, batches: seq<seq<PendingRecord>>, server: nat -> Answer, k: nat, now: int): Flushed
    requires k <= |batches|
    decreases |batches| - k
  {
    if k == |batches| then
      Flushed(s, [], None)
    else
      match server(k)
      case Failed(code) => Flushed(PutBack(s, event, batches[k], code), [], Some(code))
      case Reply(response) =>
        Flush(Answered(s, event, batches[k], response, now), event, batches, server, k + 1, now)
          .Prepend(response.results)
  }

  // ---- Batches ----------------------------------------------------------------

  lemma {:induction false} BatchIndex(pending: seq<PendingRecord>, k: nat)
    requires BATCH * k < |pending|
    ensures k < |Batches(pending)| && Batches(pending)[k] == BatchAt(pending, k)
    ensures BATCH * (k + 1) < |pending| <==> k + 1 < |Batches(pending)|
    decreases k
  {
    if k > 0 {
      BatchIndex(pending[BATCH..], k - 1);
    } else if |pending| > BATCH {
      assert pending[BATCH..] != [];
    }
  }

  function Flat(batches: seq<seq<PendingRecord>>): seq<PendingRecord> {
    if batches == [] then [] else batches[0] + Flat(batches[1..])
  }

  lemma {:induction false} BatchesConcatenate(pending: seq<PendingRecord>)
    ensures Flat(Batches(pending)) == pending
  {
    if |pending| > BATCH {
      BatchesConcatenate(pending[BATCH..]);
    }
  }

  lemma {:induction false} FlatMember(batches: seq<seq<PendingRecord>>, x: PendingRecord) returns (k: nat)
    requires x in Flat(batches)
    ensures k < |batches| && x in batches[k]
  {
    if x in batches[0] {
      k := 0;
    } else {
      k := FlatMember(batches[1..], x);
      k := k + 1;
    }
  }

  lemma {:induction false} ElementOf(pending: seq<PendingRecord>, k: nat, i: nat)
    requires k < |Batches(pending)| && i < |Batches(pending)[k]|
    ensures i < BATCH && BATCH * k + i < |pending| && Batches(pending)[k][i] == pending[BATCH * k + i]
  {
    if |pending| > BATCH && k > 0 {
      ElementOf(pending[BATCH..], k - 1, i);
    }
  }

  lemma {:induction false} BatchSizes(pending: seq<PendingRecord>, k: nat)
    requires k < |Batches(pending)|
    ensures 1 <= |Batches(pending)[k]| <= BATCH
  {
    if |pending| > BATCH && k > 0 {
      BatchSizes(pending[BATCH..], k - 1);
    }
  }

  /** Every record of the snapshot is sent exactly once, in order, in batches of 1 to 500
      records with different identifiers, as the sync contract demands. */
  lemma BatchesCover(q: Queue, event: EventId)
    requires Keyed(q)
    ensures var pending, batches := PendingForEvent(q, event), Batches(PendingForEvent(q, event));
      && Flat(batches) == pending
      && forall k :: 0 <= k < |batches| ==> 1 <= |batches[k]| <= BATCH && Distinct(Ids(batches[k]))
  {
    var pending := PendingForEvent(q, event);
    var batches := Batches(pending);
    BatchesConcatenate(pending);
    forall k | 0 <= k < |batches|
      ensures 1 <= |batches[k]| <= BATCH && Distinct(Ids(batches[k]))
    {
      BatchDistinct(q, event, k);
    }
  }

  lemma BatchDistinct(q: Queue, event: EventId, k: nat)
    requires Keyed(q) && k < |Batches(PendingForEvent(q, event))|
    ensures var batch := Batches(PendingForEvent(q, event))[k]; 1 <= |batch| <= BATCH && Distinct(Ids(batch))
  {
    var pending := PendingForEvent(q, event);
    var batch := Batches(pending)[k];
    SnapshotComplete(q, event);
    BatchSizes(pending, k);
    forall i, j | 0 <= i < j < |batch|
      ensures batch[i].scan.id != batch[j].scan.id
    {
      ElementOf(pending, k, i);
      ElementOf(pending, k, j);
    }
  }

  // ---- What results do to one scan --------------------------------------------

  predicate Mentions(results: seq<SyncResult>, id: ClientEventId) {
    exists i :: 0 <= i < |results| && results[i].id == id
  }

  /** Nothing is left to send: deleted after a confirmation, or rejected. */
  predicate Settled(q: Queue, id: ClientEventId) {
    id in q ==> q[id].status == Rejected
  }

  lemma {:induction false} ResultsOnOne(q: Queue, results: seq<SyncResult>, id: ClientEventId)
    ensures var after := QueueAfterAll(q, results);
      && (Mentions(results, id) || Settled(q, id) ==> Settled(after, id))
      && (!Mentions(results, id) ==> (id in after <==> id in q) && (id in q ==> after[id] == q[id]))
      && (id !in q ==> id !in after)
  {
    if results != [] {
      var front, last := results[..|results| - 1], results[|results| - 1];
      ResultsOnOne(q, front, id);
      assert Mentions(results, id) <==> Mentions(front, id) || last.id == id by {
        if Mentions(front, id) {
          var i :| 0 <= i < |front| && front[i].id == id;
          assert results[i].id == id;
        }
        if last.id == id {
          assert results[|results| - 1].id == id;
        }
      }
    }
  }

  /** Some result confirms the scan. */
  predicate ConfirmedBy(results: seq<SyncResult>, id: ClientEventId) {
    exists i :: 0 <= i < |results| && results[i].id == id && Confirms(results[i].status)
  }

  /** Results delete exactly the stored scans they confirm. */
  lemma {:induction false} ResultsDeleteExactly(q: Queue, results: seq<SyncResult>, id: ClientEventId)
    requires id in q
    ensures id !in QueueAfterAll(q, results) <==> ConfirmedBy(results, id)
  {
    if results != [] {
      var front, last := results[..|results| - 1], results[|results| - 1];
      ResultsDeleteExactly(q, front, id);
      ConfirmedByOneMore(results, id);
    }
  }

  lemma ConfirmedByOneMore(results: seq<SyncResult>, id: ClientEventId)
    requires results != []
    ensures var last := results[|results| - 1];
      ConfirmedBy(results, id) ==
        (ConfirmedBy(results[..|results| - 1], id) || (last.id == id && Confirms(last.status)))
  {
    var n := |results| - 1;
    assert forall i :: 0 <= i < n ==> results[..n][i] == results[i];
    if ConfirmedBy(results[..n], id) {
      var i :| 0 <= i < n && results[..n][i].id == id && Confirms(results[..n][i].status);
      assert results[i].id == id;
    }
    if results[n].id == id && Confirms(results[n].status) {
      assert results[n].id == id;
    }
  }

  lemma ConfirmedByEither(a: seq<SyncResult>, b: seq<SyncResult>, id: ClientEventId)
    ensures ConfirmedBy(a + b, id) <==> ConfirmedBy(a, id) || ConfirmedBy(b, id)
  {
    if ConfirmedBy(a, id) {
      var i :| 0 <= i < |a| && a[i].id == id && Confirms(a[i].status);
      assert (a + b)[i] == a[i];
    }
    if ConfirmedBy(b, id) {
      var i :| 0 <= i < |b| && b[i].id == id && Confirms(b[i].status);
      assert (a + b)[|a| + i] == b[i];
    }
    if ConfirmedBy(a + b, id) {
      var i :| 0 <= i < |a + b| && (a + b)[i].id == id && Confirms((a + b)[i].status);
      assert if i < |a| then (a + b)[i] == a[i] else (a + b)[i] == b[i - |a|];
    }
  }

  /** A flush, failed or not, deletes exactly the scans one of its answers confirmed. */
  lemma {:induction false} FlushDeletesExactly(
    s: Store, event: EventId, batches: seq<seq<PendingRecord>>, server: nat -> Answer, k: nat, now: int,
    id: ClientEventId)
    requires k <= |batches|
    ensures var flushed := Flush(s, event, batches, server, k, now);
      && (id !in s.queue ==> id !in flushed.store.queue)
      && (id in s.queue ==> (id !in flushed.store.queue <==> ConfirmedBy(flushed.results, id)))
    decreases |batches| - k
  {
    if k < |batches| && server(k).Reply? {
      var response := server(k).response;
      var marked, next := MarkedStore(s, batches[k], Syncing), Answered(s, event, batches[k], response, now);
      FlushDeletesExactly(next, event, batches, server, k + 1, now, id);
      ConfirmedByEither(response.results, Flush(next, event, batches, server, k + 1, now).results, id);
      if id in s.queue {
        ResultsDeleteExactly(marked.queue, response.results, id);
      } else {
        ResultsOnOne(marked.queue, response.results, id);
      }
    }
  }

  /** Batches `k` and later do not undo what is settled, as long as they do not send it,
      and leave alone what they neither send nor hear about. */
  lemma {:induction false} LaterBatches(
    s: Store, event: EventId, batches: seq<seq<PendingRecord>>, server: nat -> Answer, k: nat, now: int,
    id: ClientEventId)
    requires k <= |batches| && forall i :: k <= i < |batches| ==> id !in Ids(batches[i])
    ensures var after := Flush(s, event, batches, server, k, now).store.queue;
      && (Settled(s.queue, id) ==> Settled(after, id))
      && ((forall i :: k <= i < |batches| && server(i).Reply? ==> !Mentions(server(i).response.results, id)) ==>
           (id in after <==> id in s.queue) && (id in s.queue ==> after[id] == s.queue[id]))
    decreases |batches| - k
  {
    if k < |batches| && server(k).Reply? {
      var response := server(k).response;
      ResultsOnOne(MarkedStore(s, batches[k], Syncing).queue, response.results, id);
      LaterBatches(Answered(s, event, batches[k], response, now), event, batches, server, k + 1, now, id);
    }
  }

  /** No batch sends what another batch sends. */
  ghost predicate Disjoint(batches: seq<seq<PendingRecord>>) {
    forall i, j, id :: 0 <= i < |batches| && 0 <= j < |batches| && i != j && id in Ids(batches[i]) ==>
      id !in Ids(batches[j])
  }

  /** A batch the server answered in full stays settled through the rest of the flush. */
  lemma {:induction false} AnsweredStaysSettled(
    s: Store, event: EventId, batches: seq<seq<PendingRecord>>, server: nat -> Answer, from: nat, k: nat, now: int,
    id: ClientEventId)
    requires from <= k < |batches| && Disjoint(batches) && id in Ids(batches[k])
    requires forall i :: from <= i <= k ==> server(i).Reply?
    requires Mentions(server(k).response.results, id)
    ensures Settled(Flush(s, event, batches, server, from, now).store.queue, id)
    decreases k - from
  {
    var next := Answered(s, event, batches[from], server(from).response, now);
    if from == k {
      ResultsOnOne(MarkedStore(s, batches[k], Syncing).queue, server(k).response.results, id);
      LaterBatches(next, event, batches, server, k + 1, now, id);
    } else {
      AnsweredStaysSettled(next, event, batches, server, from + 1, k, now, id);
    }
  }

  /** When request `k` is the first to fail, its scans are back to PENDING unless an answer
      deleted them, and scans of later batches are exactly as they were unless mentioned. */
  lemma {:induction false} FailureKeepsRest(
    s: Store, event: EventId, batches: seq<seq<PendingRecord>>, server: nat -> Answer, from: nat, k: nat, now: int,
    id: ClientEventId)
    requires from <= k < |batches| && Disjoint(batches) && server(k).Failed?
    requires forall i :: from <= i < k ==> server(i).Reply? && id !in Ids(batches[i])
    ensures var after := Flush(s, event, batches, server, from, now);
      && after.error == Some(server(k).code)
      && (id in Ids(batches[k]) && id in after.store.queue ==> after.store.queue[id].status == Pending)
      && (id !in Ids(batches[k]) && (forall i :: from <= i < k ==> !Mentions(server(i).response.results, id)) ==>
           (id in after.store.queue <==> id in s.queue) && (id in s.queue ==> after.store.queue[id] == s.queue[id]))
    decreases k - from
  {
    if from < k {
      var response := server(from).response;
      ResultsOnOne(MarkedStore(s, batches[from], Syncing).queue, response.results, id);
      FailureKeepsRest(Answered(s, event, batches[from], response, now), event, batches, server, from + 1, k, now, id);
    }
  }

  lemma BatchesDisjoint(q: Queue, event: EventId)
    requires Keyed(q)
    ensures Disjoint(Batches(PendingForEvent(q, event)))
  {
    var pending := PendingForEvent(q, event);
    var batches := Batches(pending);
    SnapshotComplete(q, event);
    forall i, j, id | 0 <= i < |batches| && 0 <= j < |batches| && i != j && id in Ids(batches[i])
      ensures id !in Ids(batches[j])
    {
      var a :| 0 <= a < |batches[i]| && Ids(batches[i])[a] == id;
      forall b | 0 <= b < |batches[j]|
        ensures Ids(batches[j])[b] != id
      {
        ElementOf(pending, i, a);
        ElementOf(pending, j, b);
        assert BATCH * i + a != BATCH * j + b;
      }
    }
  }

  /** If the server answers every scan it is sent, nothing of the snapshot is left to send. */
  lemma FullAnswerSettlesAll(s: Store, event: EventId, server: nat -> Answer, now: int, id: ClientEventId)
    requires Keyed(s.queue)
    requires var batches := Batches(PendingForEvent(s.queue, event));
      forall k :: 0 <= k < |batches| ==>
        && server(k).Reply?
        && forall x :: x in Ids(batches[k]) ==> Mentions(server(k).response.results, x)
    ensures id in s.queue && s.queue[id].scan.event == event ==>
      Settled(Flush(s, event, Batches(PendingForEvent(s.queue, event)), server, 0, now).store.queue, id)
  {
    var pending := PendingForEvent(s.queue, event);
    var batches := Batches(pending);
    if id in s.queue && s.queue[id].scan.event == event {
      BatchesDisjoint(s.queue, event);
      if s.queue[id].status == Rejected {
        forall k | 0 <= k < |batches|
          ensures id !in Ids(batches[k])
        {
          NotSent(s.queue, event, k, id);
        }
        LaterBatches(s, event, batches, server, 0, now, id);
      } else {
        var k := SentIn(s.queue, event, id);
        AnsweredStaysSettled(s, event, batches, server, 0, k, now, id);
      }
    }
  }

  lemma SentIn(q: Queue, event: EventId, id: ClientEventId) returns (k: nat)
    requires Keyed(q) && id in q && q[id].scan.event == event && q[id].status != Rejected
    ensures k < |Batches(PendingForEvent(q, event))| && id in Ids(Batches(PendingForEvent(q, event))[k])
  {
    var pending := PendingForEvent(q, event);
    SnapshotComplete(q, event);
    BatchesConcatenate(pending);
    k := FlatMember(Batches(pending), q[id]);
    var i :| 0 <= i < |Batches(pending)[k]| && Batches(pending)[k][i] == q[id];
    assert Ids(Batches(pending)[k])[i] == id;
  }

  lemma NotSent(q: Queue, event: EventId, k: nat, id: ClientEventId)
    requires Keyed(q) && k < |Batches(PendingForEvent(q, event))| && id in q && q[id].status == Rejected
    ensures id !in Ids(Batches(PendingForEvent(q, event))[k])
  {
    var pending := PendingForEvent(q, event);
    SnapshotComplete(q, event);
    forall i | 0 <= i < |Batches(pending)[k]|
      ensures Batches(pending)[k][i].scan.id != id
    {
      ElementOf(pending, k, i);
      assert pending[BATCH * k + i] in pending;
    }
  }

  // ---- What the operator is told ----------------------------------------------

  /** What `recordAttendance` reports about one scan. */
  datatype Outcome = Shown(result: SyncResult) | Queued | Thrown(code: nat)

  const NETWORK_ERROR := 0

  function FirstResult(results: seq<SyncResult>, id: ClientEventId): (found: Option<SyncResult>)
    ensures found.Some? ==> found.value.id == id && found.value in results
    ensures found.None? <==> !Mentions(results, id)
  {
    if results == [] then
      None
    else if results[0].id == id then
      Some(results[0])
    else
      assert Mentions(results, id) == Mentions(results[1..], id) by {
        MentionsLater(results, id);
      }
      FirstResult(results[1..], id)
  }

  lemma MentionsLater(results: seq<SyncResult>, id: ClientEventId)
    requires results != [] && results[0].id != id
    ensures Mentions(results, id) == Mentions(results[1..], id)
  {
    assert forall i :: 0 < i < |results| ==> results[i] == results[1..][i - 1];
    if Mentions(results[1..], id) {
      var i :| 0 <= i < |results[1..]| && results[1..][i].id == id;
      assert results[i + 1].id == id;
    }
  }

  function OutcomeOf(flushed: Flushed, id: ClientEventId): Outcome {
    if flushed.error.Some? then
      if flushed.error.value == NETWORK_ERROR then Queued else Thrown(flushed.error.value)
    else
      match FirstResult(flushed.results, id)
      case Some(result) => Shown(result)
      case None => Queued
  }

  /** Every result names a scan of the batch it answers. */
  ghost predicate AnswersOwnBatch(batches: seq<seq<PendingRecord>>, server: nat -> Answer) {
    forall k, r :: 0 <= k < |batches| && server(k).Reply? && r in server(k).response.results ==> r.id in Ids(batches[k])
  }

  /** A scan that the flush heard about was in an answered batch; if that was the last
      batch, the flush did not fail. */
  lemma {:induction false} HeardInBatch(
    s: Store, event: EventId, batches: seq<seq<PendingRecord>>, server: nat -> Answer, k: nat, now: int,
    id: ClientEventId) returns (j: nat)
    requires k <= |batches| && AnswersOwnBatch(batches, server)
    requires ConfirmedBy(Flush(s, event, batches, server, k, now).results, id)
    ensures k <= j < |batches| && id in Ids(batches[j])
    ensures j + 1 == |batches| ==> Flush(s, event, batches, server, k, now).error.None?
    decreases |batches| - k
  {
    var response := server(k).response;
    var next := Answered(s, event, batches[k], response, now);
    ConfirmedByEither(response.results, Flush(next, event, batches, server, k + 1, now).results, id);
    if ConfirmedBy(Flush(next, event, batches, server, k + 1, now).results, id) {
      j := HeardInBatch(next, event, batches, server, k + 1, now, id);
    } else {
      j := k;
      var i :| 0 <= i < |response.results| && response.results[i].id == id && Confirms(response.results[i].status);
      assert response.results[i] in response.results;
    }
  }

  /** The youngest scan waiting for the event. */
  ghost predicate Youngest(q: Queue, event: EventId, id: ClientEventId) {
    && id in q && q[id].scan.event == event && q[id].status != Rejected
    && forall x :: x in q && x != id && q[x].scan.event == event && q[x].status != Rejected ==> Precedes(q[x], q[id])
  }

  lemma YoungestIsSentLast(q: Queue, event: EventId, id: ClientEventId, k: nat)
    requires Keyed(q) && Youngest(q, event, id) && k < |Batches(PendingForEvent(q, event))|
    requires id in Ids(Batches(PendingForEvent(q, event))[k])
    ensures k + 1 == |Batches(PendingForEvent(q, event))|
  {
    var pending := PendingForEvent(q, event);
    SnapshotComplete(q, event);
    var i :| 0 <= i < |Batches(pending)[k]| && Ids(Batches(pending)[k])[i] == id;
    ElementOf(pending, k, i);
    var last := pending[|pending| - 1];
    assert last in pending && pending[BATCH * k + i] in pending;
    assert BATCH * k + i == |pending| - 1;
    BatchIndex(pending, k);
  }

  /** While the newest scan is the youngest and answers name only the scans they were sent,
      an operator who is not shown a result may rely on the scan being stored. */
  lemma UnansweredStaysStored(s: Store, event: EventId, server: nat -> Answer, now: int, id: ClientEventId)
    requires Keyed(s.queue) && Youngest(s.queue, event, id)
    requires AnswersOwnBatch(Batches(PendingForEvent(s.queue, event)), server)
    ensures var flushed := Flush(s, event, Batches(PendingForEvent(s.queue, event)), server, 0, now);
      !OutcomeOf(flushed, id).Shown? ==> id in flushed.store.queue
  {
    var batches := Batches(PendingForEvent(s.queue, event));
    var flushed := Flush(s, event, batches, server, 0, now);
    FlushDeletesExactly(s, event, batches, server, 0, now, id);
    if ConfirmedBy(flushed.results, id) {
      var j := HeardInBatch(s, event, batches, server, 0, now, id);
      YoungestIsSentLast(s.queue, event, id, j);
      var i :| 0 <= i < |flushed.results| && flushed.results[i].id == id && Confirms(flushed.results[i].status);
      assert Mentions(flushed.results, id);
    }
  }

  // ---- A queued answer after a confirmation -----------------------------------

  /** Scan `id` of a backlog of event 0: the one just made is number 0 and sorts before the
      others, which were queued before the snapshot was taken or bear a later time. */
  function BacklogRecord(id: nat): PendingRecord {
    PendingRecord(Scan(id, 0, id, 0, 0, true, id, id), id, Pending, None)
  }

  function Backlog(n: nat): (q: Queue)
    ensures |q| == n && forall id: nat :: id in q <==> id < n
    ensures forall id: nat :: id in q ==> q[id] == BacklogRecord(id)
  {
    if n == 0 then map[] else Backlog(n - 1)[n - 1 := BacklogRecord(n - 1)]
  }

  /** The first batch is answered with a confirmation of scan 0, the second one is lost. */
  function SecondBatchLost(): nat -> Answer {
    (k: nat) => if k == 0 then Reply(Response([SyncResult(0, Accepted, None)], 1)) else Failed(NETWORK_ERROR)
  }

  lemma SnapshotSize(q: Queue, event: EventId)
    requires Keyed(q) && forall id :: id in q ==> q[id].scan.event == event && q[id].status != Rejected
    ensures |PendingForEvent(q, event)| == |q|
  {
    ByCreationInOrder(q, SortedIds(WaitingIds(q, event)));
    assert WaitingIds(q, event) == q.Keys;
  }

  lemma FirstOfMany(pending: seq<PendingRecord>)
    requires |pending| > BATCH
    ensures |Batches(pending)| >= 2 && pending[0].scan.id in Ids(Batches(pending)[0])
  {
    BatchIndex(pending, 0);
    ElementOf(pending, 0, 0);
    assert Ids(Batches(pending)[0])[0] == pending[0].scan.id;
  }

  lemma BacklogBatches(q: Queue, n: nat)
    requires n > BATCH && q == Backlog(n)
    ensures var batches := Batches(PendingForEvent(q, 0)); |batches| >= 2 && 0 in Ids(batches[0])
  {
    SnapshotSize(q, 0);
    BacklogStarts(q, PendingForEvent(q, 0), n);
    FirstOfMany(PendingForEvent(q, 0));
  }

  lemma BacklogStarts(q: Queue, pending: seq<PendingRecord>, n: nat)
    requires q == Backlog(n) && pending == PendingForEvent(q, 0) && |pending| > 0
    ensures pending[0].scan.id == 0
  {
    SnapshotComplete(q, 0);
    assert q[0] in pending && pending[0] in pending;
    var i :| 0 <= i < |pending| && pending[i] == q[0];
    assert i > 0 ==> Precedes(pending[0], pending[i]);
  }

  lemma SecondLost(s: Store, batches: seq<seq<PendingRecord>>, now: int)
    requires |batches| >= 2
    ensures var flushed := Flush(s, 0, batches, SecondBatchLost(), 0, now);
      flushed.error == Some(NETWORK_ERROR) && ConfirmedBy(flushed.results, 0)
  {
    var server := SecondBatchLost();
    var next := Answered(s, 0, batches[0], server(0).response, now);
    assert Flush(next, 0, batches, server, 1, now).error == Some(NETWORK_ERROR);
    assert Flush(s, 0, batches, server, 0, now).results[0] == SyncResult(0, Accepted, None);
  }

  /** With any backlog of more than one batch the operator may be told QUEUED although the
      scan was confirmed and is gone. */
  lemma QueuedThoughConfirmed(s: Store, n: nat, now: int)
    requires n > BATCH && s.queue == Backlog(n)
    ensures var flushed := Flush(s, 0, Batches(PendingForEvent(s.queue, 0)), SecondBatchLost(), 0, now);
      0 in s.queue && OutcomeOf(flushed, 0) == Queued && 0 !in flushed.store.queue
    ensures 0 in Ids(Batches(PendingForEvent(s.queue, 0))[0])
  {
    BacklogBatches(s.queue, n);
    SecondLost(s, Batches(PendingForEvent(s.queue, 0)), now);
    FlushDeletesExactly(s, 0, Batches(PendingForEvent(s.queue, 0)), SecondBatchLost(), 0, now, 0);
  }
}
