/** The scanner's cached bundles over any interleaving of database transactions: answers
    applied by any flush, downloads accepted or refused, expiry, owner changes, logouts. */
module CacheRuns {
  import opened Common
  import opened ScannerModel

  /** One transaction. `ClearExpired` picks its events before it deletes them, so the set
      to clear is arbitrary here; `events` are those found. */
  datatype Change =
    | Scanned(record: PendingRecord)
    | Marking(ids: seq<ClientEventId>, status: QueueStatus)
    | Applied(event: EventId, response: Response, now: int)
    | Failed(event: EventId, error: nat)
    | Downloaded(bundle: Bundle, clockOffset: int, summary: Option<nat>, now: int)
    | Expiring(events: set<EventId>)
    | HandedOff(item: PendingRecord)
    | Bound(user: nat)
    | Revoked
    | WipedOut

  function Next(s: Store, c: Change): Store {
    match c
    case Scanned(record) => s.(queue := s.queue[record.scan.id := record])
    case Marking(ids, status) => s.(queue := Marked(s.queue, ids, status))
    case Applied(event, response, now) => ApplySyncResults(s, event, response, now)
    case Failed(event, error) => RecordSyncError(s, event, error)
    case Downloaded(bundle, clockOffset, summary, now) =>
      (match ReplaceBundle(s, bundle, clockOffset, summary, now)
       case Ok(after) => after
       case Err(_) => s)
    case Expiring(events) => Cleared(s, events)
    case HandedOff(item) => s.(queue := HandedOver(s.queue, item))
    case Bound(user) =>
      (match BindOwner(s, user)
       case Ok(after) => after
       case Err(_) => s)
    case Revoked => RevokeOfflineAccess(s)
    case WipedOut => ClearBusinessData(s)
  }

  const NOTHING := Store(map[], map[], map[], map[], None)

  function Run(changes: seq<Change>): Store {
    if changes == [] then NOTHING else Next(Run(changes[..|changes| - 1]), changes[|changes| - 1])
  }

  /** The bundle held for the event after one more change. */
  function HeldNext(before: Option<Bundle>, s: Store, c: Change, event: EventId): Option<Bundle> {
    match c
    case Downloaded(bundle, clockOffset, summary, now) =>
      if bundle.event == event && ReplaceBundle(s, bundle, clockOffset, summary, now).Ok? then Some(bundle) else before
    case Expiring(events) => if event in events then None else before
    case Bound(user) => if s.owner.None? || (s.owner.value.user != user && |s.queue| == 0) then None else before
    case Revoked => None
    case WipedOut => None
    case _ => before
  }

  /** The bundle of the event that was accepted last and has not been cleared since. */
  function Held(changes: seq<Change>, event: EventId): Option<Bundle> {
    if changes == [] then
      None
    else
      var front := changes[..|changes| - 1];
      HeldNext(Held(front, event), Run(front), changes[|changes| - 1], event)
  }

  /** Every downloaded bundle lists different registrations with different codes. */
  ghost predicate ProperDownloads(changes: seq<Change>) {
    forall c :: c in changes && c.Downloaded? ==> Proper(c.bundle.registrations)
  }

  /** The cache of the event is the held bundle, or empty; the event is prepared exactly
      when a bundle is held, with that bundle's version and expiry. */
  ghost predicate CacheIs(s: Store, event: EventId, bundle: Option<Bundle>) {
    && (event in s.prepared <==> bundle.Some?)
    && match bundle
       case None => forall key :: key in s.cache ==> key.0 != event
       case Some(b) =>
         && b.event == event && Proper(b.registrations) && Mirrors(s.cache, b)
         && s.prepared[event].version == b.version && s.prepared[event].expiresAt == b.expiresAt
  }

  /** The two caches agree about the event. */
  ghost predicate SameFor(a: Cache, b: Cache, event: EventId) {
    && (forall key: (EventId, RegistrationId) :: key.0 == event ==> (key in a <==> key in b))
    && (forall key: (EventId, RegistrationId) :: key.0 == event && key in a ==> a[key] == b[key])
  }

  lemma CacheFrame(a: Store, b: Store, event: EventId, bundle: Option<Bundle>)
    requires CacheIs(a, event, bundle) && SameFor(a.cache, b.cache, event)
    requires event in a.prepared <==> event in b.prepared
    requires event in a.prepared ==> a.prepared[event] == b.prepared[event]
    ensures CacheIs(b, event, bundle)
  {
    if bundle.Some? {
      var registrations := bundle.value.registrations;
      forall i | 0 <= i < |registrations|
        ensures Holds(b.cache, event, registrations[i])
      {
        assert Holds(a.cache, event, registrations[i]);
      }
    }
  }

  lemma {:induction false} PutAllOthers(
    cache: Cache, event: EventId, registrations: seq<CachedRegistration>, other: EventId)
    requires other != event
    ensures SameFor(cache, PutAll(cache, event, registrations), other)
  {
    if registrations != [] {
      PutAllOthers(cache, event, registrations[..|registrations| - 1], other);
    }
  }

  lemma DownloadKeepsCache(
    s: Store, bundle: Bundle, clockOffset: int, summary: Option<nat>, now: int, event: EventId, before: Option<Bundle>)
    requires CacheIs(s, event, before) && Proper(bundle.registrations)
    ensures var c := Downloaded(bundle, clockOffset, summary, now);
      CacheIs(Next(s, c), event, HeldNext(before, s, c, event))
  {
    var c := Downloaded(bundle, clockOffset, summary, now);
    if ReplaceBundle(s, bundle, clockOffset, summary, now).Ok? {
      if bundle.event == event {
        BundleMirrored(s, bundle, clockOffset, summary, now);
      } else {
        PutAllOthers(Without(s.cache, bundle.event), bundle.event, bundle.registrations, event);
        CacheFrame(s, Next(s, c), event, before);
      }
    }
  }

  lemma ResultsKeepCache(
    s: Store, answered: EventId, response: Response, now: int, event: EventId, held: Option<Bundle>)
    requires CacheIs(s, event, held)
    ensures CacheIs(ApplySyncResults(s, answered, response, now), event, held)
  {
    CacheAfterAllKeys(s.cache, s.queue, answered, response.results);
    if held.Some? {
      ResultsKeepMirror(s, answered, response, now, held.value);
    }
  }

  lemma ChangeKeepsCache(s: Store, c: Change, event: EventId, before: Option<Bundle>)
    requires CacheIs(s, event, before) && (c.Downloaded? ==> Proper(c.bundle.registrations))
    ensures CacheIs(Next(s, c), event, HeldNext(before, s, c, event))
  {
    match c
    case Downloaded(bundle, clockOffset, summary, now) =>
      DownloadKeepsCache(s, bundle, clockOffset, summary, now, event, before);
    case Applied(answered, response, now) => ResultsKeepCache(s, answered, response, now, event, before);
    case Expiring(events) =>
      if event !in events {
        CacheFrame(s, Next(s, c), event, before);
      }
    case _ =>
      if HeldNext(before, s, c, event) == before && before.Some? {
        CacheFrame(s, Next(s, c), event, before);
      }
  }

  /** Whatever is interleaved, the cache of every event is the bundle accepted last, up to
      attendance times, or empty. */
  lemma {:induction false} EveryRunCachesLastBundle(changes: seq<Change>, event: EventId)
    requires ProperDownloads(changes)
    ensures CacheIs(Run(changes), event, Held(changes, event))
    decreases |changes|
  {
    if changes != [] {
      var front, c := changes[..|changes| - 1], changes[|changes| - 1];
      EveryRunCachesLastBundle(front, event);
      assert c in changes;
      ChangeKeepsCache(Run(front), c, event, Held(front, event));
    }
  }

  /** A scanned code is looked up in the bundle accepted last, as a linear search of it
      would do, and finds nothing once the bundle is cleared. */
  lemma EveryLookupFromLastBundle(changes: seq<Change>, event: EventId, hash: nat)
    requires ProperDownloads(changes)
    ensures var found := LookupQr(Run(changes).cache, event, hash);
      match Held(changes, event)
      case None => found.None?
      case Some(b) =>
        var listed := Search(b.registrations, hash);
        && found.Some? == listed.Some?
        && (found.Some? ==> found.value == listed.value.(firstAttendedAt := found.value.firstAttendedAt))
  {
    EveryRunCachesLastBundle(changes, event);
    var cache := Run(changes).cache;
    match Held(changes, event)
    case Some(b) => LookupIsSearch(cache, b, hash);
    case None => assert HashMatches(cache, event, hash) == {};
  }
}
