/** The offline scanner's local tables and what each of its database operations does to
    them (offline-database.ts). Times are numbers; a digest is the data it covers. */
module ScannerModel {
  import opened Common

  type EventId = nat
  type RegistrationId = nat
  type ClientEventId = nat

  datatype ResultStatus = Accepted | AlreadyProcessed | AlreadyAttended | Refused(code: nat)

  datatype QueueStatus = Pending | Syncing | Rejected

  /** What was scanned; it never changes after the scan is queued. */
  datatype Scan = Scan(
    id: ClientEventId, event: EventId, registration: RegistrationId, device: nat, mode: nat, online: bool,
    scannedAt: int, estimatedAt: int)

  datatype PendingRecord = PendingRecord(
    scan: Scan, createdAt: int, status: QueueStatus, rejection: Option<ResultStatus>)

  type Queue = map<ClientEventId, PendingRecord>

  datatype SyncResult = SyncResult(id: ClientEventId, status: ResultStatus, firstAttendedAt: Option<int>)

  datatype Response = Response(results: seq<SyncResult>, version: nat)

  datatype CachedRegistration = CachedRegistration(
    id: RegistrationId, qrHash: nat, person: nat, firstAttendedAt: Option<int>)

  datatype Bundle = Bundle(
    event: EventId, version: nat, count: nat, registrations: seq<CachedRegistration>,
    checksum: seq<CachedRegistration>, expiresAt: int)

  datatype Prepared = Prepared(summary: nat, version: nat, count: nat, expiresAt: int, clockOffset: int)

  datatype SyncState = SyncState(lastError: Option<nat>, lastSyncAt: Option<int>, version: Option<nat>)

  datatype Owner = Owner(user: nat, accessValid: bool)

  type Cache = map<(EventId, RegistrationId), CachedRegistration>

  datatype Store = Store(
    prepared: map<EventId, Prepared>, cache: Cache, queue: Queue, sync: map<EventId, SyncState>, owner: Option<Owner>)

  datatype ScannerError = BundleIntegrity | OwnerMismatch

  // ---- The queue --------------------------------------------------------------

  predicate Confirms(status: ResultStatus) {
    status == Accepted || status == AlreadyProcessed || status == AlreadyAttended
  }

  /** `updatePendingStatus`: rows that are gone stay gone. */
  function Marked(q: Queue, ids: seq<ClientEventId>, status: QueueStatus): (q': Queue)
    ensures q'.Keys == q.Keys
  {
    map id | id in q :: if id in ids then q[id].(status := status) else q[id]
  }

  /** One server result: confirmed scans are deleted, others rejected. */
  function QueueAfter(q: Queue, result: SyncResult): Queue {
    if Confirms(result.status) then q - {result.id}
    else if result.id in q then q[result.id := q[result.id].(status := Rejected, rejection := Some(result.status))]
    else q
  }

  function QueueAfterAll(q: Queue, results: seq<SyncResult>): Queue {
    if results == [] then q else QueueAfter(QueueAfterAll(q, results[..|results| - 1]), results[|results| - 1])
  }

  /** Compare-and-delete of a rejected scan that was handed to an administrator. */
  predicate Matches(current: PendingRecord, item: PendingRecord) {
    current.status == Rejected && current.rejection == item.rejection && current.scan == item.scan
  }

  function HandedOver(q: Queue, item: PendingRecord): Queue {
    if item.scan.id in q && Matches(q[item.scan.id], item) then q - {item.scan.id} else q
  }

  // ---- The snapshot of a flush ------------------------------------------------

  /** Creation order, ties by id. */
  predicate Precedes(a: PendingRecord, b: PendingRecord) {
    a.createdAt < b.createdAt || (a.createdAt == b.createdAt && a.scan.id < b.scan.id)
  }

  function Inserted(r: PendingRecord, sorted: seq<PendingRecord>): seq<PendingRecord> {
    if sorted == [] || Precedes(r, sorted[0]) then [r] + sorted else [sorted[0]] + Inserted(r, sorted[1..])
  }

  function ByCreation(q: Queue, ids: seq<ClientEventId>): seq<PendingRecord>
    requires forall id :: id in ids ==> id in q
  {
    if ids == [] then [] else Inserted(q[ids[0]], ByCreation(q, ids[1..]))
  }

  function WaitingIds(q: Queue, event: EventId): set<ClientEventId> {
    set id | id in q && q[id].scan.event == event && q[id].status != Rejected
  }

  /** `pendingForEvent`. */
  function PendingForEvent(q: Queue, event: EventId): seq<PendingRecord> {
    ByCreation(q, SortedIds(WaitingIds(q, event)))
  }

  // ---- The cache of registrations ---------------------------------------------

  /** A confirmed result carrying a time updates the cached registration of its scan. */
  function CacheAfter(cache: Cache, q: Queue, event: EventId, result: SyncResult): Cache {
    if Confirms(result.status) && result.firstAttendedAt.Some? && result.id in q
       && (event, q[result.id].scan.registration) in cache then
      var key := (event, q[result.id].scan.registration);
      cache[key := cache[key].(firstAttendedAt := result.firstAttendedAt)]
    else
      cache
  }

  function CacheAfterAll(cache: Cache, q: Queue, event: EventId, results: seq<SyncResult>): Cache {
    if results == [] then
      cache
    else
      var front := results[..|results| - 1];
      CacheAfter(CacheAfterAll(cache, q, event, front), QueueAfterAll(q, front), event, results[|results| - 1])
  }

  /** `applySyncResults`. */
  function ApplySyncResults(s: Store, event: EventId, response: Response, now: int): Store {
    s.(queue := QueueAfterAll(s.queue, response.results),
       cache := CacheAfterAll(s.cache, s.queue, event, response.results),
       sync := s.sync[event := SyncState(None, Some(now), Some(response.version))])
  }

  function RecordSyncError(s: Store, event: EventId, error: nat): Store {
    var previous := if event in s.sync then s.sync[event] else SyncState(None, None, None);
    s.(sync := s.sync[event := previous.(lastError := Some(error))])
  }

  function Without(cache: Cache, event: EventId): Cache {
    map key | key in cache && key.0 != event :: cache[key]
  }

  /** `bulkPut`: a later row of the same registration wins. */
  function PutAll(cache: Cache, event: EventId, registrations: seq<CachedRegistration>): Cache {
    if registrations == [] then
      cache
    else
      var last := registrations[|registrations| - 1];
      PutAll(cache, event, registrations[..|registrations| - 1])[(event, last.id) := last]
  }

  /** `replaceBundle`: all of the new bundle or none of it. */
  function ReplaceBundle(
    s: Store, b: Bundle, clockOffset: int, summary: Option<nat>, now: int): Result<Store, ScannerError>
  {
    if b.count != |b.registrations| || b.checksum != b.registrations then
      Err(BundleIntegrity)
    else if summary.None? && b.event !in s.prepared then
      Err(BundleIntegrity)
    else
      var title := if summary.Some? then summary.value else s.prepared[b.event].summary;
      Ok(s.(cache := PutAll(Without(s.cache, b.event), b.event, b.registrations),
            prepared := s.prepared[b.event := Prepared(title, b.version, b.count, b.expiresAt, clockOffset)],
            sync := s.sync[b.event := SyncState(None, Some(now), Some(b.version))]))
  }

  function HashMatches(cache: Cache, event: EventId, hash: nat): set<RegistrationId> {
    set key | key in cache && key.0 == event && cache[key].qrHash == hash :: key.1
  }

  /** `lookupQr`: the first match of the compound index, in primary key order. */
  function LookupQr(cache: Cache, event: EventId, hash: nat): Option<CachedRegistration> {
    var found := HashMatches(cache, event, hash);
    if found == {} then None else Some(cache[(event, Least(found))])
  }

  function Expired(s: Store, now: int): set<EventId> {
    set e | e in s.prepared && s.prepared[e].expiresAt <= now
  }

  function Cleared(s: Store, gone: set<EventId>): Store {
    s.(prepared := s.prepared - gone,
       cache := map key | key in s.cache && key.0 !in gone :: s.cache[key], sync := s.sync - gone)
  }

  /** `clearExpired`. */
  function ClearExpired(s: Store, now: int): Store {
    Cleared(s, Expired(s, now))
  }

  function NoCaches(s: Store): Store {
    s.(prepared := map[], cache := map[], sync := map[])
  }

  /** `bindOwner` when nothing runs between its check and its transaction. */
  function BindOwner(s: Store, user: nat): Result<Store, ScannerError> {
    if s.owner.None? then
      Ok(NoCaches(s).(owner := Some(Owner(user, true))))
    else if s.owner.value.user == user then
      Ok(s.(owner := Some(s.owner.value.(accessValid := true))))
    else if |s.queue| > 0 then
      Err(OwnerMismatch)
    else
      Ok(NoCaches(s).(queue := map[], owner := Some(Owner(user, true))))
  }

  function RevokeOfflineAccess(s: Store): Store {
    NoCaches(s).(owner := if s.owner.Some? then Some(s.owner.value.(accessValid := false)) else None)
  }

  function ClearBusinessData(s: Store): Store {
    NoCaches(s).(queue := map[], owner := None)
  }

  // ---- The snapshot is complete and ordered -----------------------------------

  ghost predicate Keyed(q: Queue) {
    forall id :: id in q ==> q[id].scan.id == id
  }

  ghost predicate InOrder(s: seq<PendingRecord>) {
    forall i, j :: 0 <= i < j < |s| ==> Precedes(s[i], s[j])
  }

  lemma {:induction false} InsertedInOrder(r: PendingRecord, sorted: seq<PendingRecord>)
    requires InOrder(sorted) && forall x :: x in sorted ==> x.scan.id != r.scan.id
    ensures InOrder(Inserted(r, sorted)) && |Inserted(r, sorted)| == |sorted| + 1
    ensures forall x :: x in Inserted(r, sorted) <==> x == r || x in sorted
  {
    if !(sorted == [] || Precedes(r, sorted[0])) {
      var rest := Inserted(r, sorted[1..]);
      InsertedInOrder(r, sorted[1..]);
      assert sorted == [sorted[0]] + sorted[1..];
      assert sorted[0] in sorted;
      forall j | 0 <= j < |rest|
        ensures Precedes(sorted[0], rest[j])
      {
        assert rest[j] in rest;
      }
    }
  }

  lemma {:induction false} ByCreationInOrder(q: Queue, ids: seq<ClientEventId>)
    requires Keyed(q) && Distinct(ids) && forall id :: id in ids ==> id in q
    ensures InOrder(ByCreation(q, ids)) && |ByCreation(q, ids)| == |ids|
    ensures forall x :: x in ByCreation(q, ids) <==> x.scan.id in ids && q[x.scan.id] == x
  {
    if ids != [] {
      ByCreationInOrder(q, ids[1..]);
      assert ids == [ids[0]] + ids[1..];
      assert ids[0] !in ids[1..];
      InsertedInOrder(q[ids[0]], ByCreation(q, ids[1..]));
    }
  }

  /** A flush takes exactly the event's scans that are not rejected, each once, in
      creation order; a scan left SYNCING by an earlier failure is among them. */
  lemma SnapshotComplete(q: Queue, event: EventId)
    requires Keyed(q)
    ensures var pending := PendingForEvent(q, event);
      && InOrder(pending)
      && (forall i, j :: 0 <= i < j < |pending| ==> pending[i].scan.id != pending[j].scan.id)
      && (forall x :: x in pending <==>
           x.scan.id in q && q[x.scan.id] == x && x.scan.event == event && x.status != Rejected)
  {
    var ids := SortedIds(WaitingIds(q, event));
    ByCreationInOrder(q, ids);
    var pending := PendingForEvent(q, event);
    forall i, j | 0 <= i < j < |pending|
      ensures pending[i].scan.id != pending[j].scan.id
    {
      assert pending[i] in pending && pending[j] in pending;
      assert Precedes(pending[i], pending[j]);
    }
  }

  // ---- Cached registrations belong to prepared events -------------------------

  ghost predicate CachesPrepared(s: Store) {
    forall key :: key in s.cache ==> key.0 in s.prepared
  }

  lemma {:induction false} PutAllKeys(cache: Cache, event: EventId, registrations: seq<CachedRegistration>)
    ensures forall key :: key in PutAll(cache, event, registrations) ==> key in cache || key.0 == event
  {
    if registrations != [] {
      PutAllKeys(cache, event, registrations[..|registrations| - 1]);
    }
  }

  lemma {:induction false} CacheAfterAllKeys(cache: Cache, q: Queue, event: EventId, results: seq<SyncResult>)
    ensures var after := CacheAfterAll(cache, q, event, results);
      && after.Keys == cache.Keys
      && forall key :: key in cache ==> after[key] == cache[key].(firstAttendedAt := after[key].firstAttendedAt)
  {
    if results != [] {
      CacheAfterAllKeys(cache, q, event, results[..|results| - 1]);
    }
  }

  /** The result confirms a stored scan of the cached registration and carries a time. */
  predicate Marks(q: Queue, event: EventId, result: SyncResult, key: (EventId, RegistrationId)) {
    && Confirms(result.status) && result.firstAttendedAt.Some? && result.id in q
    && key == (event, q[result.id].scan.registration)
  }

  lemma {:induction false} QueueScansKept(q: Queue, results: seq<SyncResult>, id: ClientEventId)
    ensures id in QueueAfterAll(q, results) ==> id in q && QueueAfterAll(q, results)[id].scan == q[id].scan
    ensures id in q && (forall i :: 0 <= i < |results| ==> results[i].id != id) ==> id in QueueAfterAll(q, results)
  {
    if results != [] {
      QueueScansKept(q, results[..|results| - 1], id);
    }
  }

  /** A cached attendance time changes only to that of a result confirming a stored scan of
      that registration, and does change to it when there is just one. */
  lemma {:induction false} AttendanceFromResults(
    cache: Cache, q: Queue, event: EventId, results: seq<SyncResult>, key: (EventId, RegistrationId))
    requires key in cache
    requires forall i, j :: 0 <= i < j < |results| ==> results[i].id != results[j].id
    ensures key in CacheAfterAll(cache, q, event, results)
    ensures var after := CacheAfterAll(cache, q, event, results)[key].firstAttendedAt;
      if forall i :: 0 <= i < |results| ==> !Marks(q, event, results[i], key)
      then after == cache[key].firstAttendedAt
      else exists i :: 0 <= i < |results| && Marks(q, event, results[i], key) && after == results[i].firstAttendedAt
  {
    CacheAfterAllKeys(cache, q, event, results);
    if results != [] {
      var n := |results| - 1;
      var front, last := results[..n], results[n];
      CacheAfterAllKeys(cache, q, event, front);
      AttendanceFromResults(cache, q, event, front, key);
      QueueScansKept(q, front, last.id);
      if Marks(q, event, last, key) {
        assert Marks(q, event, results[n], key);
      } else if exists i :: 0 <= i < n && Marks(q, event, front[i], key) {
        var i :| 0 <= i < n && Marks(q, event, front[i], key)
          && CacheAfterAll(cache, q, event, front)[key].firstAttendedAt == front[i].firstAttendedAt;
        assert Marks(q, event, results[i], key);
      } else {
        assert forall i :: 0 <= i < n ==> front[i] == results[i];
      }
    }
  }

  lemma ResultsKeepPrepared(s: Store, event: EventId, response: Response, now: int)
    requires CachesPrepared(s)
    ensures CachesPrepared(ApplySyncResults(s, event, response, now))
  {
    CacheAfterAllKeys(s.cache, s.queue, event, response.results);
  }

  lemma BundleKeepsPrepared(s: Store, b: Bundle, offset: int, summary: Option<nat>, now: int)
    requires CachesPrepared(s) && ReplaceBundle(s, b, offset, summary, now).Ok?
    ensures CachesPrepared(ReplaceBundle(s, b, offset, summary, now).value)
  {
    PutAllKeys(Without(s.cache, b.event), b.event, b.registrations);
  }

  /** After `clearExpired` a lookup answers only from a bundle that has not expired. */
  lemma LookupIsFresh(s: Store, event: EventId, hash: nat, now: int)
    requires CachesPrepared(s) && LookupQr(ClearExpired(s, now).cache, event, hash).Some?
    ensures event in s.prepared && s.prepared[event].expiresAt > now
    ensures LookupQr(ClearExpired(s, now).cache, event, hash) == LookupQr(s.cache, event, hash)
  {
    var after := ClearExpired(s, now).cache;
    var found := HashMatches(after, event, hash);
    assert (event, Least(found)) in after;
    assert found == HashMatches(s.cache, event, hash);
  }

  // ---- The index agrees with the bundle ---------------------------------------

  /** Registrations and codes of a bundle are unique. */
  ghost predicate Proper(registrations: seq<CachedRegistration>) {
    forall i, j :: 0 <= i < j < |registrations| ==>
      registrations[i].id != registrations[j].id && registrations[i].qrHash != registrations[j].qrHash
  }

  /** A linear search of the downloaded list. */
  function Search(registrations: seq<CachedRegistration>, hash: nat): Option<CachedRegistration> {
    if registrations == [] then None
    else if registrations[0].qrHash == hash then Some(registrations[0])
    else Search(registrations[1..], hash)
  }

  /** The cache holds exactly the bundle's registrations, up to later attendance times. */
  ghost predicate Mirrors(cache: Cache, b: Bundle) {
    && (forall i :: 0 <= i < |b.registrations| ==> Holds(cache, b.event, b.registrations[i]))
    && forall key :: key in cache && key.0 == b.event ==>
         exists i :: 0 <= i < |b.registrations| && b.registrations[i].id == key.1
  }

  ghost predicate Holds(cache: Cache, event: EventId, r: CachedRegistration) {
    (event, r.id) in cache && cache[(event, r.id)] == r.(firstAttendedAt := cache[(event, r.id)].firstAttendedAt)
  }

  lemma {:induction false} PutAllMirrors(cache: Cache, event: EventId, registrations: seq<CachedRegistration>)
    requires Proper(registrations) && forall key :: key in cache ==> key.0 != event
    ensures var after := PutAll(cache, event, registrations);
      && (forall i :: 0 <= i < |registrations| ==>
           (event, registrations[i].id) in after && after[(event, registrations[i].id)] == registrations[i])
      && forall key :: key in after && key.0 == event ==>
           exists i :: 0 <= i < |registrations| && registrations[i].id == key.1
  {
    if registrations != [] {
      var front, last := registrations[..|registrations| - 1], registrations[|registrations| - 1];
      PutAllMirrors(cache, event, front);
      var after := PutAll(cache, event, registrations);
      forall key | key in after && key.0 == event
        ensures exists i :: 0 <= i < |registrations| && registrations[i].id == key.1
      {
        if key.1 == last.id {
          assert registrations[|registrations| - 1].id == key.1;
        } else {
          var i :| 0 <= i < |front| && front[i].id == key.1;
          assert registrations[i].id == key.1;
        }
      }
    }
  }

  /** An accepted bundle is mirrored exactly, other events keep their cache, and applying
      server results keeps the mirror up to attendance times. */
  lemma BundleMirrored(s: Store, b: Bundle, offset: int, summary: Option<nat>, now: int)
    requires Proper(b.registrations) && ReplaceBundle(s, b, offset, summary, now).Ok?
    ensures var after := ReplaceBundle(s, b, offset, summary, now).value.cache;
      && Mirrors(after, b)
      && forall hash :: LookupQr(after, b.event, hash) == Search(b.registrations, hash)
  {
    var after := ReplaceBundle(s, b, offset, summary, now).value.cache;
    PutAllMirrors(Without(s.cache, b.event), b.event, b.registrations);
    forall hash
      ensures LookupQr(after, b.event, hash) == Search(b.registrations, hash)
    {
      LookupIsSearch(after, b, hash);
      SearchFinds(b.registrations, hash);
    }
  }

  lemma ResultsKeepMirror(s: Store, event: EventId, response: Response, now: int, b: Bundle)
    requires Mirrors(s.cache, b)
    ensures Mirrors(ApplySyncResults(s, event, response, now).cache, b)
  {
    CacheAfterAllKeys(s.cache, s.queue, event, response.results);
    forall i | 0 <= i < |b.registrations|
      ensures Holds(ApplySyncResults(s, event, response, now).cache, b.event, b.registrations[i])
    {
      assert Holds(s.cache, b.event, b.registrations[i]);
    }
  }

  lemma {:induction false} SearchFinds(registrations: seq<CachedRegistration>, hash: nat)
    ensures match Search(registrations, hash)
      case None => forall i :: 0 <= i < |registrations| ==> registrations[i].qrHash != hash
      case Some(r) => r.qrHash == hash && exists i :: 0 <= i < |registrations| && registrations[i] == r
  {
    if registrations != [] && registrations[0].qrHash != hash {
      SearchFinds(registrations[1..], hash);
      match Search(registrations, hash)
      case None =>
        forall i | 0 <= i < |registrations|
          ensures registrations[i].qrHash != hash
        {
          assert i > 0 ==> registrations[i] == registrations[1..][i - 1];
        }
      case Some(r) =>
        var i :| 0 <= i < |registrations[1..]| && registrations[1..][i] == r;
        assert registrations[i + 1] == r;
    }
  }

  lemma MatchesAreListed(cache: Cache, b: Bundle, hash: nat, id: RegistrationId) returns (i: nat)
    requires Mirrors(cache, b) && id in HashMatches(cache, b.event, hash)
    ensures i < |b.registrations| && b.registrations[i].id == id && b.registrations[i].qrHash == hash
  {
    assert (b.event, id) in cache;
    i :| 0 <= i < |b.registrations| && b.registrations[i].id == id;
    assert Holds(cache, b.event, b.registrations[i]);
  }

  /** The index lookup finds the registration a linear search of the bundle finds. */
  lemma LookupIsSearch(cache: Cache, b: Bundle, hash: nat)
    requires Proper(b.registrations) && Mirrors(cache, b)
    ensures var found, listed := LookupQr(cache, b.event, hash), Search(b.registrations, hash);
      && found.Some? == listed.Some?
      && (found.Some? ==> found.value == listed.value.(firstAttendedAt := found.value.firstAttendedAt)
                          && (b.event, listed.value.id) in cache && found.value == cache[(b.event, listed.value.id)])
  {
    SearchFinds(b.registrations, hash);
    var found := HashMatches(cache, b.event, hash);
    if found != {} {
      var i := MatchesAreListed(cache, b, hash, Least(found));
      assert Holds(cache, b.event, b.registrations[i]);
    }
    if Search(b.registrations, hash).Some? {
      var r := Search(b.registrations, hash).value;
      var i :| 0 <= i < |b.registrations| && b.registrations[i] == r;
      assert Holds(cache, b.event, r);
      assert (b.event, r.id) in cache && r.id in found;
    }
  }
}
