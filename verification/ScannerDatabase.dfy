/** The scanner's IndexedDB tables as an object, its operations row by row, and the flush
    loop that sends the queue to the server in batches (scanner-service.ts). */
module OfflineDatabase {
  import opened Common
  import opened ScannerModel
  import opened FlushModel

  class ScannerDatabase {
    var prepared: map<EventId, Prepared>
    var cache: Cache
    var queue: Queue
    var sync: map<EventId, SyncState>
    var owner: Option<Owner>

    function View(): Store
      reads this
    {
      Store(prepared, cache, queue, sync, owner)
    }

    ghost predicate Valid()
      reads this
    {
      Keyed(queue) && CachesPrepared(View())
    }

    constructor ()
      ensures Valid() && View() == Store(map[], map[], map[], map[], None)
    {
      prepared, cache, queue, sync, owner := map[], map[], map[], map[], None;
    }

    /** The identifiers and clock readings come from the platform; a fresh identifier is
        one no stored scan has. */
    method QueueAttendance(scan: Scan, createdAt: int) returns (pending: PendingRecord)
      requires Valid() && scan.id !in queue
      modifies this`queue
      ensures Valid() && queue == old(queue)[scan.id := pending]
      ensures pending == PendingRecord(scan.(estimatedAt := scan.scannedAt
        + if scan.event in prepared then prepared[scan.event].clockOffset else 0), createdAt, Pending, None)
    {
      var offset := if scan.event in prepared then prepared[scan.event].clockOffset else 0;
      pending := PendingRecord(scan.(estimatedAt := scan.scannedAt + offset), createdAt, Pending, None);
      queue := queue[scan.id := pending];
    }

    method UpdatePendingStatus(ids: seq<ClientEventId>, status: QueueStatus)
      requires Valid()
      modifies this`queue
      ensures Valid() && queue == Marked(old(queue), ids, status)
    {
      for i := 0 to |ids|
        invariant queue == Marked(old(queue), ids[..i], status)
      {
        if ids[i] in queue {
          queue := queue[ids[i] := queue[ids[i]].(status := status)];
        }
      }
      assert ids[..|ids|] == ids;
    }

    method ApplySyncResults(event: EventId, response: Response, now: int)
      requires Valid()
      modifies this`queue, this`cache, this`sync
      ensures Valid() && View() == ScannerModel.ApplySyncResults(old(View()), event, response, now)
    {
      var results := response.results;
      for i := 0 to |results|
        invariant queue == QueueAfterAll(old(queue), results[..i])
        invariant cache == CacheAfterAll(old(cache), old(queue), event, results[..i])
        invariant sync == old(sync)
      {
        assert results[..i + 1][..i] == results[..i];
        var result := results[i];
        var pending := if result.id in queue then Some(queue[result.id]) else None;
        if Confirms(result.status) {
          queue := queue - {result.id};
          if result.firstAttendedAt.Some? && pending.Some? {
            var key := (event, pending.value.scan.registration);
            if key in cache {
              cache := cache[key := cache[key].(firstAttendedAt := result.firstAttendedAt)];
            }
          }
        } else if result.id in queue {
          queue := queue[result.id := queue[result.id].(status := Rejected, rejection := Some(result.status))];
        }
      }
      assert results[..|results|] == response.results;
      sync := sync[event := SyncState(None, Some(now), Some(response.version))];
      KeyedAfterAll(old(queue), results);
      ResultsKeepPrepared(old(View()), event, response, now);
    }

    method RecordSyncError(event: EventId, error: nat)
      requires Valid()
      modifies this`sync
      ensures Valid() && View() == ScannerModel.RecordSyncError(old(View()), event, error)
    {
      var previous := if event in sync then sync[event] else SyncState(None, None, None);
      sync := sync[event := SyncState(Some(error), previous.lastSyncAt, previous.version)];
    }

    /** Delete the scan only if it is still the rejected record that was handed over. */
    method AcknowledgeRejectedHandoff(item: PendingRecord) returns (deleted: bool)
      requires Valid()
      modifies this`queue
      ensures Valid() && queue == HandedOver(old(queue), item)
      ensures deleted <==> queue != old(queue)
    {
      if item.scan.id !in queue || !Matches(queue[item.scan.id], item) {
        return false;
      }
      queue := queue - {item.scan.id};
      return true;
    }

    /** A bundle that fails its integrity check leaves the previous one in use. */
    method ReplaceBundle(b: Bundle, clockOffset: int, summary: Option<nat>, now: int)
      returns (outcome: Result<(), ScannerError>)
      requires Valid()
      modifies this`prepared, this`cache, this`sync
      ensures Valid()
      ensures match ScannerModel.ReplaceBundle(old(View()), b, clockOffset, summary, now)
        case Ok(after) => outcome.Ok? && View() == after
        case Err(error) => outcome == Err(error) && View() == old(View())
    {
      if b.count != |b.registrations| || b.checksum != b.registrations {
        return Err(BundleIntegrity);
      }
      var previous := if b.event in prepared then Some(prepared[b.event].summary) else None;
      var title := if summary.Some? then summary else previous;
      if title.None? {
        return Err(BundleIntegrity);
      }
      cache := Without(cache, b.event);
      for i := 0 to |b.registrations|
        invariant cache == PutAll(Without(old(cache), b.event), b.event, b.registrations[..i])
        invariant prepared == old(prepared) && sync == old(sync)
      {
        assert b.registrations[..i + 1][..i] == b.registrations[..i];
        cache := cache[(b.event, b.registrations[i].id) := b.registrations[i]];
      }
      assert b.registrations[..|b.registrations|] == b.registrations;
      prepared := prepared[b.event := Prepared(title.value, b.version, b.count, b.expiresAt, clockOffset)];
      sync := sync[b.event := SyncState(None, Some(now), Some(b.version))];
      BundleKeepsPrepared(old(View()), b, clockOffset, summary, now);
      return Ok(());
    }

    method ClearExpired(now: int)
      requires Valid()
      modifies this`prepared, this`cache, this`sync
      ensures Valid() && View() == ScannerModel.ClearExpired(old(View()), now)
    {
      var expired := SortedIds(Expired(View(), now));
      ClearAll(expired);
      SortedListsAll(Expired(old(View()), now));
    }

    method ClearAll(expired: seq<EventId>)
      requires Valid()
      modifies this`prepared, this`cache, this`sync
      ensures Valid() && View() == Cleared(old(View()), Listed(expired))
    {
      ClearedNone(View());
      for i := 0 to |expired|
        invariant View() == Cleared(old(View()), Listed(expired[..i]))
      {
        ClearedOneMore(old(View()), expired, i);
        prepared := prepared - {expired[i]};
        cache := Without(cache, expired[i]);
        sync := sync - {expired[i]};
      }
      assert expired[..|expired|] == expired;
    }

    method BindOwner(user: nat) returns (outcome: Result<(), ScannerError>)
      requires Valid()
      modifies this
      ensures Valid()
      ensures match ScannerModel.BindOwner(old(View()), user)
        case Ok(after) => outcome.Ok? && View() == after
        case Err(error) => outcome == Err(error) && View() == old(View())
    {
      if owner.Some? && owner.value.user == user {
        if !owner.value.accessValid {
          owner := Some(owner.value.(accessValid := true));
        }
        return Ok(());
      }
      if owner.None? {
        prepared, cache, sync := map[], map[], map[];
        owner := Some(Owner(user, true));
        return Ok(());
      }
      if |queue| > 0 {
        return Err(OwnerMismatch);
      }
      prepared, cache, queue, sync := map[], map[], map[], map[];
      owner := Some(Owner(user, true));
      return Ok(());
    }

    method RevokeOfflineAccess()
      requires Valid()
      modifies this`prepared, this`cache, this`sync, this`owner
      ensures Valid() && View() == ScannerModel.RevokeOfflineAccess(old(View()))
    {
      prepared, cache, sync := map[], map[], map[];
      if owner.Some? {
        owner := Some(owner.value.(accessValid := false));
      }
    }

    method ClearBusinessData()
      requires Valid()
      modifies this
      ensures Valid() && View() == ScannerModel.ClearBusinessData(old(View()))
    {
      prepared, cache, queue, sync := map[], map[], map[], map[];
      owner := None;
    }

    /** One request: mark the batch, then apply the answer or put the batch back. */
    method SendBatch(event: EventId, batch: seq<PendingRecord>, answer: Answer, now: int) returns (error: Option<nat>)
      requires Valid()
      modifies this`queue, this`cache, this`sync
      ensures Valid()
      ensures match answer
        case Reply(response) => View() == Answered(old(View()), event, batch, response, now) && error.None?
        case Failed(code) => View() == PutBack(old(View()), event, batch, code) && error == Some(code)
    {
      var ids := Ids(batch);
      UpdatePendingStatus(ids, Syncing);
      match answer {
        case Reply(response) =>
          ApplySyncResults(event, response, now);
          error := None;
        case Failed(code) =>
          UpdatePendingStatus(ids, Pending);
          RecordSyncError(event, code);
          error := Some(code);
      }
    }

    /** `flushPending`, when nothing else runs: send the snapshot in batches; on the first
        failure put the batch back and stop. */
    method FlushPending(event: EventId, server: nat -> Answer, now: int)
      returns (results: seq<SyncResult>, error: Option<nat>)
      requires Valid()
      modifies this`queue, this`cache, this`sync
      ensures Valid()
      ensures Flushed(View(), results, error) ==
        Flush(old(View()), event, Batches(PendingForEvent(old(queue), event)), server, 0, now)
    {
      var pending := PendingForEvent(queue, event);
      ghost var batches, begin := Batches(pending), View();
      results, error := [], None;
      var offset, k := 0, 0;
      ghost var whole := Flush(begin, event, batches, server, 0, now);
      FlushBegins(begin, event, batches, server, now);
      while offset < |pending|
        invariant offset == 500 * k && k <= |batches| && Valid()
        invariant offset < |pending| <==> k < |batches|
        invariant error.None? && Underway(whole, View(), event, batches, server, k, now, results)
        decreases |pending| - offset
      {
        BatchIndex(pending, k);
        ghost var before := View();
        error := SendBatch(event, BatchAt(pending, k), server(k), now);
        if error.Some? {
          FlushFails(whole, before, event, batches, server, k, now, results);
          return;
        }
        FlushStep(whole, before, View(), event, batches, server, k, now, results);
        results := results + server(k).response.results;
        offset, k := offset + 500, k + 1;
      }
      FlushEnds(whole, View(), event, batches, server, now, results);
    }
  }

  /** The flush that gives `whole` has collected `results` and stands before batch `k`. */
  ghost predicate Underway(
    whole: Flushed, s: Store, event: EventId, batches: seq<seq<PendingRecord>>, server: nat -> Answer, k: nat, now: int,
    results: seq<SyncResult>)
  {
    k <= |batches|
    && whole == Flush(s, event, batches, server, k, now).Prepend(results)
  }

  lemma FlushBegins(s: Store, event: EventId, batches: seq<seq<PendingRecord>>, server: nat -> Answer, now: int)
    ensures Underway(Flush(s, event, batches, server, 0, now), s, event, batches, server, 0, now, [])
  {
    var whole := Flush(s, event, batches, server, 0, now);
    assert [] + whole.results == whole.results;
  }

  /** One more answered batch joins what was collected before. */
  lemma FlushStep(
    whole: Flushed, s: Store, after: Store, event: EventId, batches: seq<seq<PendingRecord>>, server: nat -> Answer,
    k: nat, now: int, results: seq<SyncResult>)
    requires k < |batches| && server(k).Reply? && after == Answered(s, event, batches[k], server(k).response, now)
    requires Underway(whole, s, event, batches, server, k, now, results)
    ensures Underway(whole, after, event, batches, server, k + 1, now, results + server(k).response.results)
  {
    assert Flush(s, event, batches, server, k, now).Prepend(results) ==
      Flush(after, event, batches, server, k + 1, now).Prepend(results + server(k).response.results);
  }

  lemma FlushFails(
    whole: Flushed, s: Store, event: EventId, batches: seq<seq<PendingRecord>>, server: nat -> Answer, k: nat, now: int,
    results: seq<SyncResult>)
    requires k < |batches| && server(k).Failed? && Underway(whole, s, event, batches, server, k, now, results)
    ensures whole == Flushed(PutBack(s, event, batches[k], server(k).code), results, Some(server(k).code))
  {
    assert results + [] == results;
  }

  lemma FlushEnds(
    whole: Flushed, s: Store, event: EventId, batches: seq<seq<PendingRecord>>, server: nat -> Answer, now: int,
    results: seq<SyncResult>)
    requires Underway(whole, s, event, batches, server, |batches|, now, results)
    ensures whole == Flushed(s, results, None)
  {
    assert results + [] == results;
  }

  /** The scan is the youngest one waiting, and answers name only what they were sent. */
  ghost predicate Unambiguous(q: Queue, scan: Scan, server: nat -> Answer) {
    Youngest(q, scan.event, scan.id) && AnswersOwnBatch(Batches(PendingForEvent(q, scan.event)), server)
  }

  /** `recordAttendance`: queue first, then try to send. Unless the operator is shown a
      server result, the scan is gone exactly when an answered batch of this flush confirmed
      it, and stored when it was the youngest and answers name only what they were sent. */
  method RecordAttendance(
    database: ScannerDatabase, scan: Scan, createdAt: int, online: bool, server: nat -> Answer, now: int)
    returns (outcome: Outcome, ghost begin: Store, ghost flushed: Flushed)
    requires database.Valid() && scan.id !in database.queue
    modifies database
    ensures database.Valid()
    ensures begin.queue.Keys == old(database.queue).Keys + {scan.id} && begin.queue[scan.id].createdAt == createdAt
    ensures forall id :: id in old(database.queue) ==> begin.queue[id] == old(database.queue)[id]
    ensures !online ==> outcome == Queued && database.View() == begin
    ensures online ==> database.View() == flushed.store && outcome == OutcomeOf(flushed, scan.id)
    ensures online ==>
      flushed == Flush(begin, scan.event, Batches(PendingForEvent(begin.queue, scan.event)), server, 0, now)
    ensures online ==> (scan.id !in database.queue <==> ConfirmedBy(flushed.results, scan.id))
    ensures !outcome.Shown? && Unambiguous(begin.queue, scan, server) ==> scan.id in database.queue
  {
    var _ := database.QueueAttendance(scan, createdAt);
    begin, flushed := database.View(), Flushed(database.View(), [], None);
    if !online {
      return Queued, begin, flushed;
    }
    var results, error := database.FlushPending(scan.event, server, now);
    flushed := Flushed(database.View(), results, error);
    FlushDeletesExactly(begin, scan.event, Batches(PendingForEvent(begin.queue, scan.event)), server, 0, now, scan.id);
    if Unambiguous(begin.queue, scan, server) {
      UnansweredStaysStored(begin, scan.event, server, now, scan.id);
    }
    if error.Some? {
      outcome := if error.value == NETWORK_ERROR then Queued else Thrown(error.value);
    } else {
      var found := FirstResult(results, scan.id);
      outcome := if found.Some? then Shown(found.value) else Queued;
    }
  }

  lemma ClearedOneMore(s: Store, gone: seq<EventId>, i: nat)
    requires i < |gone|
    ensures var before, after := Cleared(s, Listed(gone[..i])), Cleared(s, Listed(gone[..i + 1]));
      after == before.(prepared := before.prepared - {gone[i]}, cache := Without(before.cache, gone[i]),
        sync := before.sync - {gone[i]})
  {
    assert Listed(gone[..i + 1]) == Listed(gone[..i]) + {gone[i]};
  }

  lemma SortedListsAll(events: set<EventId>)
    ensures Listed(SortedIds(events)) == events
  {
  }

  lemma ClearedNone(s: Store)
    ensures Cleared(s, Listed([])) == s
  {
    assert Listed([]) == {};
  }

  function Listed(q: seq<EventId>): set<EventId> {
    set e | e in q
  }

  lemma {:induction false} KeyedAfterAll(q: Queue, results: seq<SyncResult>)
    requires Keyed(q)
    ensures Keyed(QueueAfterAll(q, results))
  {
    if results != [] {
      KeyedAfterAll(q, results[..|results| - 1]);
    }
  }
}
