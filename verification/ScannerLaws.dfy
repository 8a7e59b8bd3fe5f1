/** What the scanner's database operations leave of every row, in terms of the fields they
    look at: server results, handoffs, bundles, expiry and owners. */
module ScannerLaws {
  import opened Common
  import opened ScannerModel

  // ---- Server results ---------------------------------------------------------

  /** Result `i` is the last one about the scan. */
  ghost predicate LastAbout(results: seq<SyncResult>, id: ClientEventId, i: nat) {
    && i < |results| && results[i].id == id
    && forall j :: i < j < |results| ==> results[j].id != id
  }

  /** No result is about the scan. */
  ghost predicate Unmentioned(results: seq<SyncResult>, id: ClientEventId) {
    forall i :: 0 <= i < |results| ==> results[i].id != id
  }

  /** Some result says that the server has the scan: accepted now, processed before, or
      attended already. */
  ghost predicate ServerHas(results: seq<SyncResult>, id: ClientEventId) {
    exists i :: 0 <= i < |results| && results[i].id == id
      && match results[i].status
         case Accepted => true
         case AlreadyProcessed => true
         case AlreadyAttended => true
         case Refused(_) => false
  }

  /** Applying results deletes exactly the stored scans the server has; any other scan they
      mention is rejected for the last reason given, and the rest are as they were. */
  lemma {:induction false} ResultsAppliedExactly(q: Queue, results: seq<SyncResult>, id: ClientEventId)
    returns (i: nat)
    ensures var after := QueueAfterAll(q, results);
      && (id in after <==> id in q && !ServerHas(results, id))
      && (id in after && Unmentioned(results, id) ==> after[id] == q[id])
      && (id in after && !Unmentioned(results, id) ==>
           LastAbout(results, id, i) && after[id] == q[id].(status := Rejected, rejection := Some(results[i].status)))
  {
    i := 0;
    if results != [] {
      var n := |results| - 1;
      var front, last := results[..n], results[n];
      i := ResultsAppliedExactly(q, front, id);
      ServerHasOneMore(results, id);
      assert forall j :: 0 <= j < n ==> front[j] == results[j];
      assert Unmentioned(results, id) <==> Unmentioned(front, id) && last.id != id;
      if last.id == id {
        i := n;
      }
    }
  }

  lemma ServerHasOneMore(results: seq<SyncResult>, id: ClientEventId)
    requires results != []
    ensures var n := |results| - 1;
      ServerHas(results, id) <==> ServerHas(results[..n], id) || (results[n].id == id && !results[n].status.Refused?)
  {
    var n := |results| - 1;
    assert forall j :: 0 <= j < n ==> results[..n][j] == results[j];
    if ServerHas(results[..n], id) {
      var j :| 0 <= j < n && results[..n][j].id == id && !results[..n][j].status.Refused?;
      assert results[j].id == id;
    }
    if results[n].id == id && !results[n].status.Refused? {
      assert results[n].id == id;
    }
  }

  // ---- Handoffs ---------------------------------------------------------------

  /** The stored record is rejected, for the reason quoted, and every field of the scan is the
      one quoted. */
  ghost predicate Quoted(stored: PendingRecord, item: PendingRecord) {
    && stored.status == Rejected && stored.rejection == item.rejection
    && stored.scan.event == item.scan.event && stored.scan.registration == item.scan.registration
    && stored.scan.device == item.scan.device && stored.scan.mode == item.scan.mode
    && stored.scan.online == item.scan.online && stored.scan.scannedAt == item.scan.scannedAt
    && stored.scan.estimatedAt == item.scan.estimatedAt
  }

  /** A handoff deletes the stored record it quotes, or nothing. */
  lemma HandoffExactly(q: Queue, item: PendingRecord)
    requires Keyed(q)
    ensures HandedOver(q, item) ==
      if item.scan.id in q && Quoted(q[item.scan.id], item) then q - {item.scan.id} else q
  {
    if item.scan.id in q {
      assert q[item.scan.id].scan.id == item.scan.id;
    }
  }

  // ---- Bundles ----------------------------------------------------------------

  /** The bundle has as many rows as it says, they are the rows its digest covers, and the
      event's summary is given or known. */
  ghost predicate Acceptable(s: Store, b: Bundle, summary: Option<nat>) {
    && |b.registrations| == b.count && b.registrations == b.checksum
    && (summary.Some? || b.event in s.prepared)
  }

  /** Only the event of the bundle changed: prepared anew and synchronised. */
  ghost predicate Installed(s: Store, after: Store, b: Bundle, clockOffset: int, summary: Option<nat>, now: int) {
    && after.queue == s.queue && after.owner == s.owner
    && (forall e :: e != b.event ==> (e in after.prepared <==> e in s.prepared) && (e in after.sync <==> e in s.sync))
    && (forall e :: e != b.event && e in s.prepared ==> after.prepared[e] == s.prepared[e])
    && (forall e :: e != b.event && e in s.sync ==> after.sync[e] == s.sync[e])
    && (forall key: (EventId, RegistrationId) :: key.0 != b.event ==> (key in after.cache <==> key in s.cache))
    && (forall key: (EventId, RegistrationId) :: key.0 != b.event && key in s.cache ==>
         after.cache[key] == s.cache[key])
    && b.event in after.prepared && b.event in after.sync
    && after.sync[b.event].lastError.None? && after.sync[b.event].lastSyncAt == Some(now)
    && after.sync[b.event].version == Some(b.version)
    && after.prepared[b.event].version == b.version && after.prepared[b.event].count == b.count
    && after.prepared[b.event].expiresAt == b.expiresAt && after.prepared[b.event].clockOffset == clockOffset
    && (summary.Some? ==> after.prepared[b.event].summary == summary.value)
    && (summary.None? ==> b.event in s.prepared && after.prepared[b.event].summary == s.prepared[b.event].summary)
  }

  lemma {:induction false} PutAllElsewhere(cache: Cache, event: EventId, registrations: seq<CachedRegistration>)
    ensures var after := PutAll(cache, event, registrations);
      && (forall key: (EventId, RegistrationId) :: key.0 != event ==> (key in after <==> key in cache))
      && forall key: (EventId, RegistrationId) :: key.0 != event && key in cache ==> after[key] == cache[key]
  {
    if registrations != [] {
      PutAllElsewhere(cache, event, registrations[..|registrations| - 1]);
    }
  }

  /** A bundle is installed exactly when it is acceptable. */
  lemma BundleAnswered(s: Store, b: Bundle, clockOffset: int, summary: Option<nat>, now: int)
    ensures var outcome := ReplaceBundle(s, b, clockOffset, summary, now);
      if Acceptable(s, b, summary) then outcome.Ok? && Installed(s, outcome.value, b, clockOffset, summary, now)
      else outcome == Err(BundleIntegrity)
  {
    PutAllElsewhere(Without(s.cache, b.event), b.event, b.registrations);
  }

  // ---- Expiry and owners ------------------------------------------------------

  /** The event is prepared, and its bundle is no longer valid now. */
  ghost predicate HasExpired(s: Store, e: EventId, now: int) {
    e in s.prepared && now >= s.prepared[e].expiresAt
  }

  /** Expired events lose everything but their queue, other events nothing. */
  lemma ExpiryExactly(s: Store, now: int)
    ensures var after := ClearExpired(s, now);
      && after.queue == s.queue && after.owner == s.owner
      && (forall e :: e in after.prepared <==> e in s.prepared && !HasExpired(s, e, now))
      && (forall e :: e in after.sync <==> e in s.sync && !HasExpired(s, e, now))
      && (forall key: (EventId, RegistrationId) :: key in after.cache <==> key in s.cache && !HasExpired(s, key.0, now))
      && (forall e :: e in after.prepared ==> after.prepared[e] == s.prepared[e])
      && (forall e :: e in after.sync ==> after.sync[e] == s.sync[e])
      && forall key: (EventId, RegistrationId) :: key in after.cache ==> after.cache[key] == s.cache[key]
  {
    assert forall e :: e in Expired(s, now) <==> HasExpired(s, e, now);
  }

  /** The device keeps nothing of what it downloaded. */
  ghost predicate CachesEmpty(s: Store) {
    s.prepared == map[] && s.cache == map[] && s.sync == map[]
  }

  /** The owner is the user; a first or changed one finds nothing of what was downloaded. */
  ghost predicate BoundTo(s: Store, after: Store, user: nat) {
    && after.owner == Some(Owner(user, true)) && after.queue == s.queue
    && if s.owner.Some? && s.owner.value.user == user then after == s.(owner := after.owner) else CachesEmpty(after)
  }

  /** A sign-in is refused exactly when another owner's scans are stored; a changed or a first
      owner finds the caches empty, the same one finds everything as it was. */
  lemma OwnerBoundExactly(s: Store, user: nat)
    ensures var outcome := BindOwner(s, user);
      if s.owner.Some? && s.owner.value.user != user && s.queue != map[] then outcome == Err(OwnerMismatch)
      else outcome.Ok? && BoundTo(s, outcome.value, user)
  {
    if |s.queue| == 0 {
      assert s.queue == map[];
    }
  }

  /** Logging out forgets everything, losing access only what was downloaded. */
  lemma AccessEndedExactly(s: Store)
    ensures var out, revoked := ClearBusinessData(s), RevokeOfflineAccess(s);
      && CachesEmpty(out) && out.queue == map[] && out.owner.None?
      && CachesEmpty(revoked) && revoked.queue == s.queue && revoked.owner.Some? == s.owner.Some?
      && (s.owner.Some? ==> revoked.owner == Some(Owner(s.owner.value.user, false)))
  {
  }
}
