/** The named locks that serialise registrations of one person
    (registration_service.py): re-entrant per session, taken key by key. */
module NamedLocks {
  import opened Common

  type Session = nat
  /** Keys, ordered as their texts sort. */
  type Key = nat

  datatype Hold = Hold(session: Session, count: nat)

  type Table = map<Key, Hold>

  ghost predicate Proper(t: Table) {
    forall k :: k in t ==> t[k].count > 0
  }

  /** GET_LOCK, None when another session still holds the key at the timeout. */
  function Grant(t: Table, s: Session, k: Key): Option<Table> {
    if k !in t then Some(t[k := Hold(s, 1)])
    else if t[k].session == s then Some(t[k := Hold(s, t[k].count + 1)])
    else None
  }

  /** RELEASE_LOCK; a lock of another session is left alone. */
  function Release(t: Table, s: Session, k: Key): Table {
    if k !in t || t[k].session != s then t
    else if t[k].count <= 1 then t - {k}
    else t[k := Hold(s, t[k].count - 1)]
  }

  function GrantAll(t: Table, s: Session, keys: seq<Key>): Option<Table> {
    if keys == [] then
      Some(t)
    else
      match GrantAll(t, s, keys[..|keys| - 1])
      case None => None
      case Some(before) => Grant(before, s, keys[|keys| - 1])
  }

  /** The keys are released in reverse. */
  function ReleaseAll(t: Table, s: Session, keys: seq<Key>): Table {
    if keys == [] then t else ReleaseAll(Release(t, s, keys[|keys| - 1]), s, keys[..|keys| - 1])
  }

  lemma ReleaseUndoesGrant(t: Table, s: Session, k: Key)
    requires Proper(t) && Grant(t, s, k).Some?
    ensures Proper(Grant(t, s, k).value) && Release(Grant(t, s, k).value, s, k) == t
  {
    assert k !in t ==> t[k := Hold(s, 1)] - {k} == t;
  }

  /** Releasing what was granted restores the table exactly, whatever it was. */
  lemma {:induction false} ReleaseAllUndoesGrantAll(t: Table, s: Session, keys: seq<Key>)
    requires Proper(t) && GrantAll(t, s, keys).Some?
    ensures Proper(GrantAll(t, s, keys).value) && ReleaseAll(GrantAll(t, s, keys).value, s, keys) == t
  {
    if keys != [] {
      ReleaseAllUndoesGrantAll(t, s, keys[..|keys| - 1]);
      ReleaseUndoesGrant(GrantAll(t, s, keys[..|keys| - 1]).value, s, keys[|keys| - 1]);
    }
  }

  lemma {:induction false} FailureIsFinal(t: Table, s: Session, keys: seq<Key>, n: nat)
    requires n <= |keys| && GrantAll(t, s, keys[..n]).None?
    ensures GrantAll(t, s, keys).None?
    decreases |keys| - n
  {
    if n == |keys| {
      assert keys[..n] == keys;
    } else {
      assert keys[..n + 1][..n] == keys[..n];
      FailureIsFinal(t, s, keys, n + 1);
    }
  }

  class LockServer {
    var locks: Table

    constructor ()
      ensures locks == map[]
    {
      locks := map[];
    }

    method ReleasePersonLocks(s: Session, keys: seq<Key>)
      modifies this
      ensures locks == ReleaseAll(old(locks), s, keys)
    {
      var i := |keys|;
      assert keys[..i] == keys;
      while i > 0
        invariant 0 <= i <= |keys|
        invariant ReleaseAll(old(locks), s, keys) == ReleaseAll(locks, s, keys[..i])
      {
        i := i - 1;
        assert keys[..i + 1][..i] == keys[..i];
        locks := Release(locks, s, keys[i]);
      }
    }

    /** All of the keys, or exactly the table as it was. */
    method AcquireLockKeys(s: Session, keys: seq<Key>) returns (acquired: bool)
      requires Proper(locks)
      modifies this
      ensures Proper(locks)
      ensures acquired <==> GrantAll(old(locks), s, keys).Some?
      ensures locks == if acquired then GrantAll(old(locks), s, keys).value else old(locks)
    {
      for i := 0 to |keys|
        invariant GrantAll(old(locks), s, keys[..i]) == Some(locks)
      {
        assert keys[..i + 1][..i] == keys[..i];
        var result := Grant(locks, s, keys[i]);
        if result.None? {
          ReleaseAllUndoesGrantAll(old(locks), s, keys[..i]);
          ReleasePersonLocks(s, keys[..i]);
          FailureIsFinal(old(locks), s, keys, i + 1);
          return false;
        }
        locks := result.value;
      }
      assert keys[..|keys|] == keys;
      ReleaseAllUndoesGrantAll(old(locks), s, keys);
      return true;
    }
  }

  // ---- Many sessions ----------------------------------------------------------

  /** A session's current request: the first `got` keys are held. */
  datatype Request = Request(keys: seq<Key>, got: nat, releasing: bool)

  datatype State = State(locks: Table, requests: map<Session, Request>)

  datatype Action =
    | Begin(s: Session, keys: seq<Key>)
    | Take(s: Session)
    | TimeOut(s: Session)
    | Finish(s: Session)
    | Drop(s: Session)

  predicate Ascending(keys: seq<Key>) {
    forall i, j :: 0 <= i < j < |keys| ==> keys[i] <= keys[j]
  }

  /** One statement of one session; an action that is not possible changes nothing. */
  function Next(st: State, a: Action): State {
    match a
    case Begin(s, keys) =>
      if s in st.requests || !Ascending(keys) then st
      else st.(requests := st.requests[s := Request(keys, 0, false)])
    case Take(s) =>
      if !CanTake(st, s) then st
      else
        var r := st.requests[s];
        State(Grant(st.locks, s, r.keys[r.got]).value, st.requests[s := r.(got := r.got + 1)])
    case TimeOut(s) =>
      if !Waiting(st, s) then st else st.(requests := st.requests[s := st.requests[s].(releasing := true)])
    case Finish(s) =>
      if s !in st.requests || st.requests[s].releasing || st.requests[s].got < |st.requests[s].keys| then st
      else st.(requests := st.requests[s := st.requests[s].(releasing := true)])
    case Drop(s) =>
      if s !in st.requests || !st.requests[s].releasing || st.requests[s].got > |st.requests[s].keys| then st
      else
        var r := st.requests[s];
        if r.got == 0 then st.(requests := st.requests - {s})
        else State(Release(st.locks, s, r.keys[r.got - 1]), st.requests[s := r.(got := r.got - 1)])
  }

  predicate Acquiring(st: State, s: Session) {
    s in st.requests && !st.requests[s].releasing && st.requests[s].got < |st.requests[s].keys|
  }

  /** The key the session asks for next. */
  function Wanted(st: State, s: Session): Key
    requires Acquiring(st, s)
  {
    st.requests[s].keys[st.requests[s].got]
  }

  predicate CanTake(st: State, s: Session) {
    Acquiring(st, s) && Grant(st.locks, s, Wanted(st, s)).Some?
  }

  /** Another session holds the key asked for. */
  predicate Waiting(st: State, s: Session) {
    Acquiring(st, s) && Grant(st.locks, s, Wanted(st, s)).None?
  }

  predicate WaitsFor(st: State, s: Session, t: Session) {
    Waiting(st, s) && st.locks[Wanted(st, s)].session == t
  }

  function Run(st: State, actions: seq<Action>): State {
    if actions == [] then st else Next(Run(st, actions[..|actions| - 1]), actions[|actions| - 1])
  }

  /** A session that has begun to release its keys takes none, and gives them back in the
      reverse order, also after a key it could not get. */
  lemma ReleasingSessionTakesNothing(st: State, s: Session)
    requires s in st.requests && st.requests[s].releasing && st.requests[s].got <= |st.requests[s].keys|
    ensures Next(st, Take(s)) == st && Next(st, TimeOut(s)) == st && Next(st, Finish(s)) == st
    ensures var after, got := Next(st, Drop(s)), st.requests[s].got;
      if got == 0 then s !in after.requests && after.locks == st.locks
      else
        && after.locks == Release(st.locks, s, st.requests[s].keys[got - 1])
        && s in after.requests && after.requests[s] == st.requests[s].(got := got - 1)
  {
  }

  // ---- Safety -----------------------------------------------------------------

  /** How often the session holds the key. */
  function Held(r: Request, k: Key): nat
    requires r.got <= |r.keys|
  {
    multiset(r.keys[..r.got])[k]
  }

  ghost predicate Orderly(r: Request) {
    r.got <= |r.keys| && Ascending(r.keys)
  }

  /** Whatever the session has taken is locked by it. */
  ghost predicate TakenIsLocked(locks: Table, s: Session, r: Request)
    requires r.got <= |r.keys|
  {
    forall k :: Held(r, k) > 0 ==> k in locks && locks[k].session == s
  }

  /** The holder of a lock has taken it exactly as often as the table counts. */
  ghost predicate HolderKnown(st: State, k: Key)
    requires k in st.locks
  {
    var h := st.locks[k];
    && h.count > 0 && h.session in st.requests && st.requests[h.session].got <= |st.requests[h.session].keys|
    && Held(st.requests[h.session], k) == h.count
  }

  /** The table is exactly what the sessions have taken. */
  ghost predicate Consistent(st: State) {
    && (forall s :: s in st.requests ==> Orderly(st.requests[s]))
    && (forall k :: k in st.locks ==> HolderKnown(st, k))
    && (forall s :: s in st.requests ==> TakenIsLocked(st.locks, s, st.requests[s]))
  }

  lemma HeldOneMore(r: Request, k: Key)
    requires r.got < |r.keys|
    ensures Held(r.(got := r.got + 1), k) == Held(r, k) + if k == r.keys[r.got] then 1 else 0
  {
    assert r.keys[..r.got + 1] == r.keys[..r.got] + [r.keys[r.got]];
  }

  /** Only the session's own count of one key moved, by one. */
  lemma OneKeyConsistent(st: State, next: State, s: Session, key: Key)
    requires Consistent(st) && s in st.requests && s in next.requests && Orderly(next.requests[s])
    requires next.requests == st.requests[s := next.requests[s]]
    requires key in st.locks ==> st.locks[key].session == s
    requires forall k :: k != key ==> (k in next.locks <==> k in st.locks)
    requires forall k :: k != key && k in st.locks ==> next.locks[k] == st.locks[k]
    requires forall k :: k != key ==> Held(next.requests[s], k) == Held(st.requests[s], k)
    requires if key in next.locks then
      next.locks[key] == Hold(s, Held(next.requests[s], key)) && Held(next.requests[s], key) > 0
      else Held(next.requests[s], key) == 0
    ensures Consistent(next)
  {
    forall k | k in next.locks
      ensures HolderKnown(next, k)
    {
      assert k != key ==> HolderKnown(st, k);
    }
    forall x | x in next.requests
      ensures TakenIsLocked(next.locks, x, next.requests[x])
    {
      assert TakenIsLocked(st.locks, x, st.requests[x]);
      forall k | Held(next.requests[x], k) > 0
        ensures k in next.locks && next.locks[k].session == x
      {
        assert k != key ==> Held(st.requests[x], k) > 0;
      }
    }
  }

  lemma NotHeldUnlessLocked(st: State, s: Session, k: Key)
    requires Consistent(st) && s in st.requests
    ensures Held(st.requests[s], k) == if k in st.locks && st.locks[k].session == s then st.locks[k].count else 0
  {
    assert TakenIsLocked(st.locks, s, st.requests[s]);
    assert k in st.locks ==> HolderKnown(st, k);
  }

  lemma TakeConsistent(st: State, s: Session)
    requires Consistent(st) && CanTake(st, s)
    ensures Consistent(Next(st, Take(s)))
  {
    var next, key := Next(st, Take(s)), Wanted(st, s);
    TakenLocks(st, s);
    TakenCounts(st, s);
    OneKeyConsistent(st, next, s, key);
  }

  /** Taking a key counts it once more, for this session alone. */
  lemma TakenLocks(st: State, s: Session)
    requires CanTake(st, s)
    ensures var locks, key := Next(st, Take(s)).locks, Wanted(st, s);
      && (key in st.locks ==> st.locks[key].session == s)
      && key in locks && locks[key] == Hold(s, (if key in st.locks then st.locks[key].count else 0) + 1)
      && (forall k :: k != key ==> (k in locks <==> k in st.locks))
      && (forall k :: k != key && k in st.locks ==> locks[k] == st.locks[k])
  {
  }

  lemma TakenCounts(st: State, s: Session)
    requires Consistent(st) && CanTake(st, s)
    ensures var r, key := Next(st, Take(s)).requests[s], Wanted(st, s);
      && Next(st, Take(s)).requests == st.requests[s := r] && Orderly(r)
      && (forall k :: k != key ==> Held(r, k) == Held(st.requests[s], k))
      && Held(r, key) ==
           (if key in st.locks && st.locks[key].session == s then st.locks[key].count else 0) + 1
  {
    TakenOneMore(st.requests[s]);
    NotHeldUnlessLocked(st, s, Wanted(st, s));
  }

  lemma TakenOneMore(r: Request)
    requires r.got < |r.keys|
    ensures forall k :: Held(r.(got := r.got + 1), k) == Held(r, k) + if k == r.keys[r.got] then 1 else 0
  {
    forall k
      ensures Held(r.(got := r.got + 1), k) == Held(r, k) + if k == r.keys[r.got] then 1 else 0
    {
      HeldOneMore(r, k);
    }
  }

  lemma DropConsistent(st: State, s: Session)
    requires Consistent(st) && s in st.requests && st.requests[s].releasing && st.requests[s].got > 0
    ensures Consistent(Next(st, Drop(s)))
  {
    var key := st.requests[s].keys[st.requests[s].got - 1];
    DroppedCounts(st, s);
    DroppedLocks(st, s);
    OneKeyConsistent(st, Next(st, Drop(s)), s, key);
  }

  /** Letting the last key go counts it once less, for this session alone. */
  lemma DroppedCounts(st: State, s: Session)
    requires Consistent(st) && s in st.requests && st.requests[s].releasing && st.requests[s].got > 0
    ensures var before := st.requests[s]; var r, key := before.(got := before.got - 1), before.keys[before.got - 1];
      && s in Next(st, Drop(s)).requests && Next(st, Drop(s)).requests == st.requests[s := r] && Orderly(r)
      && (forall k :: k != key ==> Held(r, k) == Held(before, k))
      && Held(before, key) == Held(r, key) + 1
      && key in st.locks && st.locks[key].session == s && st.locks[key].count == Held(before, key)
  {
    var before := st.requests[s];
    TakenOneMore(before.(got := before.got - 1));
    NotHeldUnlessLocked(st, s, before.keys[before.got - 1]);
  }

  lemma DroppedLocks(st: State, s: Session)
    requires s in st.requests && st.requests[s].releasing && 0 < st.requests[s].got <= |st.requests[s].keys|
    requires var key := st.requests[s].keys[st.requests[s].got - 1];
      key in st.locks && st.locks[key].session == s && st.locks[key].count > 0
    ensures var locks, key := Next(st, Drop(s)).locks, st.requests[s].keys[st.requests[s].got - 1];
      && (key in locks <==> st.locks[key].count > 1)
      && (key in locks ==> locks[key] == Hold(s, st.locks[key].count - 1))
      && (forall k :: k != key ==> (k in locks <==> k in st.locks))
      && (forall k :: k != key && k in st.locks ==> locks[k] == st.locks[k])
  {
  }

  lemma NoneHeldAtZero(st: State, s: Session)
    requires Consistent(st) && s in st.requests && st.requests[s].got == 0
    ensures forall k :: k in st.locks ==> st.locks[k].session != s
  {
    forall k | k in st.locks
      ensures st.locks[k].session != s
    {
      assert HolderKnown(st, k);
    }
  }

  lemma StepConsistent(st: State, a: Action)
    requires Consistent(st)
    ensures Consistent(Next(st, a))
  {
    match a
    case Take(s) =>
      if CanTake(st, s) {
        TakeConsistent(st, s);
      }
    case Drop(s) =>
      if s in st.requests && st.requests[s].releasing {
        if st.requests[s].got > 0 {
          DropConsistent(st, s);
        } else {
          LeaveConsistent(st, s);
        }
      }
    case Begin(s, keys) => BeginConsistent(st, s, keys);
    case TimeOut(s) => SameHolds(st, Next(st, a), s);
    case Finish(s) => SameHolds(st, Next(st, a), s);
  }

  lemma LeaveConsistent(st: State, s: Session)
    requires Consistent(st) && s in st.requests && st.requests[s].releasing && st.requests[s].got == 0
    ensures Consistent(Next(st, Drop(s)))
  {
    NoneHeldAtZero(st, s);
    SameHolds(st, Next(st, Drop(s)), s);
  }

  lemma BeginConsistent(st: State, s: Session, keys: seq<Key>)
    requires Consistent(st)
    ensures Consistent(Next(st, Begin(s, keys)))
  {
    SameHolds(st, Next(st, Begin(s, keys)), s);
  }

  /** A request that holds nothing may come or go, and any request may start releasing. */
  lemma SameHolds(st: State, next: State, s: Session)
    requires Consistent(st) && next.locks == st.locks
    requires forall x :: x != s ==> (x in next.requests <==> x in st.requests)
    requires forall x :: x != s && x in st.requests ==> next.requests[x] == st.requests[x]
    requires if s in st.requests && s in next.requests then
        next.requests[s].keys == st.requests[s].keys && next.requests[s].got == st.requests[s].got
      else if s in next.requests then next.requests[s].got == 0 && Ascending(next.requests[s].keys)
      else forall k :: k in st.locks ==> st.locks[k].session != s
    ensures Consistent(next)
  {
    forall k | k in next.locks
      ensures HolderKnown(next, k)
    {
      assert HolderKnown(st, k);
    }
    forall x | x in next.requests
      ensures TakenIsLocked(next.locks, x, next.requests[x])
    {
      assert x in st.requests ==> TakenIsLocked(st.locks, x, st.requests[x]);
    }
  }

  const IDLE := State(map[], map[])

  lemma {:induction false} EveryRunConsistent(actions: seq<Action>)
    ensures Consistent(Run(IDLE, actions))
  {
    if actions != [] {
      EveryRunConsistent(actions[..|actions| - 1]);
      StepConsistent(Run(IDLE, actions[..|actions| - 1]), actions[|actions| - 1]);
    }
  }

  // ---- No deadlock ------------------------------------------------------------

  /** Whoever a session waits for, if it waits too, waits for a larger key. */
  lemma WaitsUpward(st: State, s: Session, t: Session)
    requires Consistent(st) && WaitsFor(st, s, t) && Waiting(st, t)
    ensures Wanted(st, s) < Wanted(st, t)
  {
    assert HolderKnown(st, Wanted(st, s));
    HeldIsBelow(st.requests[t], Wanted(st, s));
  }

  /** What a waiting session holds is below what it waits for, or the same key. */
  lemma HeldIsBelow(r: Request, k: Key)
    requires Orderly(r) && r.got < |r.keys| && Held(r, k) > 0
    ensures k <= r.keys[r.got]
  {
    var taken := r.keys[..r.got];
    assert k in multiset(taken);
    var i :| 0 <= i < r.got && taken[i] == k;
    assert r.keys[i] <= r.keys[r.got];
  }

  ghost predicate Chain(st: State, ring: seq<Session>) {
    forall i, j :: 0 <= i < j < |ring| && j == i + 1 ==> WaitsFor(st, ring[i], ring[j])
  }

  /** Each session of the ring waits for the next, the last for the first. */
  ghost predicate WaitCycle(st: State, ring: seq<Session>) {
    ring != [] && Chain(st, ring) && WaitsFor(st, ring[|ring| - 1], ring[0])
  }

  lemma {:induction false} KeysClimbAlong(st: State, ring: seq<Session>, j: nat)
    requires Consistent(st) && j < |ring| && Chain(st, ring) && Waiting(st, ring[|ring| - 1])
    ensures Waiting(st, ring[0]) && Waiting(st, ring[j]) && Wanted(st, ring[0]) <= Wanted(st, ring[j])
  {
    if j + 1 < |ring| {
      var next := j + 1;
      assert WaitsFor(st, ring[j], ring[next]);
    }
    if j > 0 {
      var before := j - 1;
      KeysClimbAlong(st, ring, before);
      assert WaitsFor(st, ring[before], ring[j]);
      WaitsUpward(st, ring[before], ring[j]);
    }
  }

  /** Sessions that take sorted keys never wait for each other in a circle. */
  lemma NoDeadlock(actions: seq<Action>, ring: seq<Session>)
    ensures !WaitCycle(Run(IDLE, actions), ring)
  {
    var st := Run(IDLE, actions);
    EveryRunConsistent(actions);
    if WaitCycle(st, ring) {
      KeysClimbAlong(st, ring, |ring| - 1);
      WaitsUpward(st, ring[|ring| - 1], ring[0]);
    }
  }

  /** The session can take its next key, finish or release. */
  predicate CanProceed(st: State, s: Session) {
    s in st.requests && !Waiting(st, s)
  }

  /** While anybody waits, some session that holds a lock can proceed: the one holding the
      largest key waited for. */
  lemma SomebodyProceeds(actions: seq<Action>, s: Session) returns (t: Session)
    requires Waiting(Run(IDLE, actions), s)
    ensures CanProceed(Run(IDLE, actions), t)
    ensures Next(Run(IDLE, actions), Take(t)) != Run(IDLE, actions)
      || Next(Run(IDLE, actions), Finish(t)) != Run(IDLE, actions)
      || Next(Run(IDLE, actions), Drop(t)) != Run(IDLE, actions)
  {
    var st := Run(IDLE, actions);
    EveryRunConsistent(actions);
    t := Unblocked(st, s, set x | x in st.requests && Waiting(st, x));
    assert st.requests[t].got <= |st.requests[t].keys|;
    StepVisible(st, t);
  }

  lemma StepVisible(st: State, t: Session)
    requires Consistent(st) && CanProceed(st, t)
    ensures Next(st, Take(t)) != st || Next(st, Finish(t)) != st || Next(st, Drop(t)) != st
  {
    var r := st.requests[t];
    if r.releasing {
      assert Next(st, Drop(t)).requests != st.requests by {
        assert r.got == 0 ==> t !in Next(st, Drop(t)).requests;
        assert r.got > 0 ==> Next(st, Drop(t)).requests[t].got != r.got;
      }
    } else if r.got == |r.keys| {
      assert Next(st, Finish(t)).requests[t].releasing;
    } else {
      assert Next(st, Take(t)).requests[t].got == r.got + 1;
    }
  }

  /** Follow the waits upward; each step leaves a waiter behind. */
  lemma {:induction false} Unblocked(st: State, s: Session, waiters: set<Session>) returns (t: Session)
    requires Consistent(st) && Waiting(st, s) && s in waiters
    requires forall x :: x in st.requests && Waiting(st, x) && Wanted(st, x) >= Wanted(st, s) ==> x in waiters
    ensures CanProceed(st, t)
    decreases |waiters|
  {
    t := st.locks[Wanted(st, s)].session;
    assert HolderKnown(st, Wanted(st, s));
    if Waiting(st, t) {
      WaitsUpward(st, s, t);
      t := Unblocked(st, t, waiters - {s});
    }
  }
}
