/**
 * The in-memory idempotency store (kernel-api/src/middleware.rs, `InMemoryIdempotencyStore`).
 *
 * Each method is one critical section, except `try_acquire` on an expired in-flight entry: it
 * removes the entry, unlocks to wake the waiters, locks again and inserts without looking.
 * Class `LeaseTable` holds the map and runs the critical sections; `Next` is the protocol of many
 * callers interleaving them.
 */
module InMemoryLeases {
  import opened Prelude
  import opened IdempotencyLeases

  datatype FirstSection = Existing(value: Value) | Won | Unlocked

  /** The first critical section of try_acquire. */
  function TryFirst(store: Store, key: ScopeKey, v: Value, ttl: nat, now: int): (Store, FirstSection) {
    if Live(store, key, now).Some? then (store, Existing(store[key].value))
    else if key in store && store[key].value.InFlight? then (store - {key}, Unlocked)
    else (store[key := Slot(v, now + ttl)], Won)
  }

  /** The second critical section: an insert with no check. */
  function InsertBlindly(store: Store, key: ScopeKey, v: Value, ttl: nat, now: int): Store {
    store[key := Slot(v, now + ttl)]
  }

  /** complete and release compare the owner of an in-flight entry, expired or not. */
  predicate InFlightBy(store: Store, key: ScopeKey, o: nat) {
    key in store && store[key].value.InFlight? && store[key].value.owner == o
  }

  function Prune(store: Store, now: int): Store {
    map k | k in store && now < store[k].expiresAt :: store[k]
  }

  class LeaseTable {
    var inner: Store

    constructor ()
      ensures inner == map[]
    {
      inner := map[];
    }

    method AcquireFirst(key: ScopeKey, owner: nat, bodyHash: string, ttl: nat, now: int)
      returns (r: FirstSection)
      modifies this
      ensures (inner, r) == TryFirst(old(inner), key, InFlight(owner, bodyHash), ttl, now)
      ensures r.Existing? <==> key in old(inner) && now < old(inner)[key].expiresAt
      ensures r.Existing? ==> inner == old(inner) && r.value == old(inner)[key].value
      ensures r.Won? ==> inner == old(inner)[key := Slot(InFlight(owner, bodyHash), now + ttl)]
      ensures r.Unlocked? <==> key in old(inner) && old(inner)[key].value.InFlight? && old(inner)[key].expiresAt <= now
      ensures r.Unlocked? ==> inner == old(inner) - {key}
    {
      if key in inner {
        var entry := inner[key];
        if entry.value.InFlight? {
          if entry.expiresAt <= now {
            inner := inner - {key};
            return Unlocked;
          } else {
            return Existing(entry.value);
          }
        } else {
          if entry.expiresAt <= now {
            inner := inner - {key};
          } else {
            return Existing(entry.value);
          }
        }
      }
      inner := inner[key := Slot(InFlight(owner, bodyHash), now + ttl)];
      assert old(inner)[key := Slot(InFlight(owner, bodyHash), now + ttl)] == inner;
      return Won;
    }

    method Complete(key: ScopeKey, owner: nat, record: Record, expiresAt: int) returns (ok: bool)
      modifies this
      ensures ok <==> InFlightBy(old(inner), key, owner)
      ensures inner == if ok then old(inner)[key := Slot(Completed(owner, record), expiresAt)] else old(inner)
    {
      ok := key in inner && inner[key].value.InFlight? && inner[key].value.owner == owner;
      if ok { inner := inner[key := Slot(Completed(owner, record), expiresAt)]; }
    }

    method Release(key: ScopeKey, owner: nat) returns (ok: bool)
      modifies this
      ensures ok <==> InFlightBy(old(inner), key, owner)
      ensures inner == if ok then old(inner) - {key} else old(inner)
    {
      ok := key in inner && inner[key].value.InFlight? && inner[key].value.owner == owner;
      if ok { inner := inner - {key}; }
    }

    method Cleanup(now: int)
      modifies this
      ensures inner == Prune(old(inner), now)
      ensures forall k :: k in inner <==> k in old(inner) && now < old(inner)[k].expiresAt
      ensures forall k :: k in inner ==> inner[k] == old(inner)[k]
    {
      inner := map k | k in inner && now < inner[k].expiresAt :: inner[k];
    }
  }

  // ---------------------------------------------------------------- many callers

  datatype CallerPhase = Asking | BetweenSections | Owner(owner: nat) | Finished

  datatype Caller = Caller(key: ScopeKey, bodyHash: string, phase: CallerPhase)

  datatype Shared = Shared(now: int, store: Store, callers: map<nat, Caller>, nextOwner: nat,
                           inserted: map<ScopeKey, nat>)

  datatype Move =
    | Elapse(seconds: nat)
    | Call(id: nat, key: ScopeKey, bodyHash: string)
    | First(id: nat, ttl: nat)
    | Second(id: nat, ttl: nat)
    | Finish(id: nat, record: Record, expiresAt: int)
    | GiveUp(id: nat)
    | Clean

  predicate CanMove(s: Shared, m: Move) {
    match m
    case Elapse(_) => true
    case Clean => true
    case Call(id, _, _) => id !in s.callers
    case First(id, _) => id in s.callers && s.callers[id].phase.Asking?
    case Second(id, _) => id in s.callers && s.callers[id].phase.BetweenSections?
    case Finish(id, _, _) => id in s.callers && s.callers[id].phase.Owner?
    case GiveUp(id) => id in s.callers && s.callers[id].phase.Owner?
  }

  function Enter(s: Shared, id: nat, phase: CallerPhase): Shared
    requires id in s.callers
  {
    s.(callers := s.callers[id := s.callers[id].(phase := phase)])
  }

  /** `inserted` remembers the owner of the latest lease inserted under each key. */
  function Grant(s: Shared, id: nat, store: Store): Shared
    requires id in s.callers
  {
    Enter(s.(store := store, nextOwner := s.nextOwner + 1, inserted := s.inserted[s.callers[id].key := s.nextOwner]),
          id, Owner(s.nextOwner))
  }

  function NextShared(s: Shared, m: Move): Shared {
    if !CanMove(s, m) then s else
    match m
    case Elapse(d) => s.(now := s.now + d)
    case Call(id, key, hash) => s.(callers := s.callers[id := Caller(key, hash, Asking)])
    case First(id, ttl) =>
      var c := s.callers[id];
      var (store, r) := TryFirst(s.store, c.key, InFlight(s.nextOwner, c.bodyHash), ttl, s.now);
      (match r
       case Existing(_) => Enter(s, id, Finished)
       case Unlocked => Enter(s.(store := store), id, BetweenSections)
       case Won => Grant(s, id, store))
    case Second(id, ttl) =>
      var c := s.callers[id];
      Grant(s, id, InsertBlindly(s.store, c.key, InFlight(s.nextOwner, c.bodyHash), ttl, s.now))
    case Finish(id, rec, expiresAt) =>
      var (key, o) := (s.callers[id].key, s.callers[id].phase.owner);
      Enter(if InFlightBy(s.store, key, o) then s.(store := s.store[key := Slot(Completed(o, rec), expiresAt)]) else s,
            id, Finished)
    case GiveUp(id) =>
      var (key, o) := (s.callers[id].key, s.callers[id].phase.owner);
      Enter(if InFlightBy(s.store, key, o) then s.(store := s.store - {key}) else s, id, Finished)
    case Clean => s.(store := Prune(s.store, s.now))
  }

  const IDLE := Shared(0, map[], map[], 0, map[])

  ghost function RunShared(moves: seq<Move>): Shared {
    if moves == [] then IDLE else NextShared(RunShared(moves[..|moves| - 1]), moves[|moves| - 1])
  }

  /** Cleaning removes exactly the expired entries, which no acquisition would have returned. */
  lemma CleaningIsUnobservable(s: Shared, key: ScopeKey)
    ensures var t := NextShared(s, Clean);
            && t.callers == s.callers && Live(t.store, key, t.now) == Live(s.store, key, s.now)
            && (key in t.store <==> Live(s.store, key, s.now).Some?)
  {
  }

  /** A caller that finds the key live gets no lease and leaves the store as it is. */
  lemma LosingCallerGetsNoLease(s: Shared, m: Move)
    requires m.First? && CanMove(s, m) && Live(s.store, s.callers[m.id].key, s.now).Some?
    ensures NextShared(s, m) == s.(callers := s.callers[m.id := s.callers[m.id].(phase := Finished)])
  {
  }

  // ---------------------------------------------------------------- who can complete or release

  ghost predicate LatestOnly(s: Shared) {
    && (forall k :: k in s.store && s.store[k].value.InFlight? ==>
          k in s.inserted && s.inserted[k] == s.store[k].value.owner)
    && (forall k :: k in s.store ==> s.store[k].value.owner < s.nextOwner)
    && (forall id :: id in s.callers && s.callers[id].phase.Owner? ==> s.callers[id].phase.owner < s.nextOwner)
    && (forall a, b :: (a in s.callers && b in s.callers && s.callers[a].phase.Owner? && s.callers[b].phase.Owner?
                        && s.callers[a].phase.owner == s.callers[b].phase.owner) ==> a == b)
  }

  lemma FirstKeepsLatestOnly(s: Shared, m: Move)
    requires LatestOnly(s) && m.First? && CanMove(s, m)
    ensures LatestOnly(NextShared(s, m))
  {
  }

  lemma MoveKeepsLatestOnly(s: Shared, m: Move)
    requires LatestOnly(s)
    ensures LatestOnly(NextShared(s, m))
  {
    if CanMove(s, m) {
      match m
      case First(_, _) => FirstKeepsLatestOnly(s, m);
      case Second(_, _) =>
      case _ =>
    }
  }

  /**
   * In every interleaving, a completion or release that changes the store is by the lease
   * inserted last under its key: a lease that was displaced can do neither.
   */
  lemma {:induction false} OnlyLatestLeaseCompletesOrReleases(moves: seq<Move>, m: Move)
    ensures LatestOnly(RunShared(moves))
    ensures var s := RunShared(moves);
            (m.Finish? || m.GiveUp?) && CanMove(s, m) && NextShared(s, m).store != s.store ==>
              var c := s.callers[m.id]; c.key in s.inserted && s.inserted[c.key] == c.phase.owner
  {
    if moves != [] {
      OnlyLatestLeaseCompletesOrReleases(moves[..|moves| - 1], m);
      MoveKeepsLatestOnly(RunShared(moves[..|moves| - 1]), moves[|moves| - 1]);
    }
  }

  // ---------------------------------------------------------------- mutual exclusion

  predicate LiveBy(s: Shared, key: ScopeKey, o: nat) {
    Live(s.store, key, s.now).Some? && s.store[key].value.owner == o
  }

  /** The state before move i of the run. */
  ghost function Before(moves: seq<Move>, i: nat): Shared
    requires i <= |moves|
  {
    RunShared(moves[..i])
  }

  lemma BeforeNext(moves: seq<Move>, i: nat)
    requires i < |moves|
    ensures Before(moves, i + 1) == NextShared(Before(moves, i), moves[i])
  {
    assert moves[..i + 1][..i] == moves[..i];
  }

  /** The move makes its caller the owner of a new lease, with token s.nextOwner, on the key. */
  predicate Grants(s: Shared, m: Move, key: ScopeKey) {
    && (m.First? || m.Second?) && CanMove(s, m) && s.callers[m.id].key == key
    && (m.First? ==> Live(s.store, key, s.now).None? && !(key in s.store && s.store[key].value.InFlight?))
  }

  /** The move ends o's hold on the key the regular way: a release, a record past its end, or time. */
  predicate Ends(s: Shared, m: Move, key: ScopeKey, o: nat) {
    && LiveBy(s, key, o)
    && ((m.Elapse? && s.store[key].expiresAt <= s.now + m.seconds)
        || ((m.GiveUp? || (m.Finish? && m.expiresAt <= s.now))
            && CanMove(s, m) && s.callers[m.id].key == key && s.callers[m.id].phase == Owner(o)
            && s.store[key].value.InFlight?))
  }

  /** The second section of try_acquire runs although the key is live. */
  predicate SecondOnLive(s: Shared, m: Move, key: ScopeKey) {
    m.Second? && CanMove(s, m) && s.callers[m.id].key == key && Live(s.store, key, s.now).Some?
  }

  /** One move on a key that o has. */
  lemma MoveOnLiveKey(s: Shared, m: Move, key: ScopeKey, o: nat)
    requires LatestOnly(s) && LiveBy(s, key, o)
    ensures LiveBy(NextShared(s, m), key, o) <==> !Ends(s, m, key, o) && !SecondOnLive(s, m, key)
  {
  }

  /** The move takes a live key from o although o neither gave it up nor ran out of time. */
  predicate Displaces(s: Shared, m: Move, key: ScopeKey, o: nat) {
    LiveBy(s, key, o) && !LiveBy(NextShared(s, m), key, o) && !Ends(s, m, key, o)
  }

  /**
   * A lease is displaced exactly when the second section of try_acquire runs on a key that
   * another caller made live since the first section.
   */
  lemma DisplacedExactlyWhen(s: Shared, m: Move, key: ScopeKey, o: nat)
    requires LatestOnly(s)
    ensures Displaces(s, m, key, o) <==> LiveBy(s, key, o) && SecondOnLive(s, m, key)
  {
    if LiveBy(s, key, o) { MoveOnLiveKey(s, m, key, o); }
    hide NextShared;
  }

  /** Between two states of a run, a lost key was ended by a release or expiry, or was displaced. */
  lemma {:induction false} LostKeyWasEndedOrDisplaced(moves: seq<Move>, i: nat, j: nat, key: ScopeKey, o: nat)
    requires i <= j <= |moves| && LiveBy(Before(moves, i), key, o) && !LiveBy(Before(moves, j), key, o)
    ensures exists n :: i <= n < j && LiveBy(Before(moves, n), key, o)
              && (Ends(Before(moves, n), moves[n], key, o) || SecondOnLive(Before(moves, n), moves[n], key))
  {
    if i < j {
      if LiveBy(Before(moves, j - 1), key, o) {
        BeforeNext(moves, j - 1);
        OnlyLatestLeaseCompletesOrReleases(moves[..j - 1], Clean);
        MoveOnLiveKey(Before(moves, j - 1), moves[j - 1], key, o);
      } else {
        LostKeyWasEndedOrDisplaced(moves, i, j - 1, key, o);
      }
    }
  }

  /** A lease is live from its grant on, if it is given any time at all. */
  lemma GrantIsLive(s: Shared, m: Move, key: ScopeKey)
    requires Grants(s, m, key)
    ensures LiveBy(NextShared(s, m), key, s.nextOwner) <==> m.ttl > 0
  {
  }

  /**
   * What mutual exclusion amounts to here.  Of two grants of a key, the first had no time to live;
   * or it was released or expired before the second; or the second section of some try_acquire, the
   * second grant's own or an earlier one, ran while the first lease was live.
   */
  lemma {:induction false} SecondGrantNeedsEndOrDisplacement(moves: seq<Move>, i: nat, j: nat, key: ScopeKey)
    requires i < j < |moves| && Grants(Before(moves, i), moves[i], key) && Grants(Before(moves, j), moves[j], key)
    ensures var o := Before(moves, i).nextOwner;
            || moves[i].ttl == 0
            || (exists n :: i < n < j && Ends(Before(moves, n), moves[n], key, o))
            || (exists n :: i < n <= j && LiveBy(Before(moves, n), key, o)
                            && SecondOnLive(Before(moves, n), moves[n], key))
  {
    var o := Before(moves, i).nextOwner;
    BeforeNext(moves, i);
    GrantIsLive(Before(moves, i), moves[i], key);
    if moves[i].ttl > 0 {
      if LiveBy(Before(moves, j), key, o) {
        assert SecondOnLive(Before(moves, j), moves[j], key);
      } else {
        LostKeyWasEndedOrDisplaced(moves, i + 1, j, key, o);
      }
    }
  }

  lemma OwnerComesFromGrant(s: Shared, m: Move, key: ScopeKey)
    requires key in NextShared(s, m).store
    ensures var o := NextShared(s, m).store[key].value.owner;
            (key in s.store && s.store[key].value.owner == o) || (Grants(s, m, key) && s.nextOwner == o)
  {
  }

  /** Whoever is in the store was granted the key at some earlier move. */
  lemma {:induction false} StoredOwnerWasGranted(moves: seq<Move>, n: nat, key: ScopeKey)
    requires n <= |moves| && key in Before(moves, n).store
    ensures exists i :: 0 <= i < n && Grants(Before(moves, i), moves[i], key)
              && Before(moves, i).nextOwner == Before(moves, n).store[key].value.owner
  {
    if n > 0 {
      BeforeNext(moves, n - 1);
      OwnerComesFromGrant(Before(moves, n - 1), moves[n - 1], key);
      if !Grants(Before(moves, n - 1), moves[n - 1], key)
         || Before(moves, n - 1).nextOwner != Before(moves, n).store[key].value.owner {
        StoredOwnerWasGranted(moves, n - 1, key);
      }
    }
  }

  /** The key is granted at move j while the lease granted at move i still has it. */
  ghost predicate Overlap(moves: seq<Move>, key: ScopeKey, i: nat, j: nat) {
    && i < j < |moves|
    && Grants(Before(moves, i), moves[i], key) && Grants(Before(moves, j), moves[j], key)
    && LiveBy(Before(moves, j), key, Before(moves, i).nextOwner)
  }

  /**
   * Mutual exclusion, exactly.  In a run, two grants of a key overlap if and only if the second
   * section of some try_acquire runs while the key is live.
   */
  lemma {:induction false} GrantsOverlapExactlyWhen(moves: seq<Move>, key: ScopeKey)
    ensures (exists i: nat, j: nat :: Overlap(moves, key, i, j)) <==>
            (exists j :: 0 <= j < |moves| && SecondOnLive(Before(moves, j), moves[j], key))
  {
    if i: nat, j: nat :| Overlap(moves, key, i, j) {
      assert SecondOnLive(Before(moves, j), moves[j], key);
    }
    if j :| 0 <= j < |moves| && SecondOnLive(Before(moves, j), moves[j], key) {
      StoredOwnerWasGranted(moves, j, key);
      var i :| 0 <= i < j && Grants(Before(moves, i), moves[i], key)
               && Before(moves, i).nextOwner == Before(moves, j).store[key].value.owner;
      assert Overlap(moves, key, i, j);
    }
  }

  lemma RunOneMore(moves: seq<Move>, m: Move)
    ensures RunShared(moves + [m]) == NextShared(RunShared(moves), m)
  {
    assert (moves + [m])[..|moves + [m]| - 1] == moves;
  }

  /** Lease 0 on the key has just expired, and callers 1 and 2 are about to ask for the key. */
  function Opening(key: ScopeKey, hash: string): seq<Move> {
    [Call(0, key, hash)] + [First(0, 10)] + [Elapse(10)] + [Call(1, key, hash)] + [Call(2, key, hash)]
  }

  lemma AfterOpening(key: ScopeKey, hash: string)
    ensures RunShared(Opening(key, hash)) ==
            Shared(10, map[key := Slot(InFlight(0, hash), 10)],
                   map[0 := Caller(key, hash, Owner(0)), 1 := Caller(key, hash, Asking),
                       2 := Caller(key, hash, Asking)],
                   1, map[key := 0])
  {
    var m := [Call(0, key, hash)];
    assert [] + m == m;
    RunOneMore([], m[0]);
    RunOneMore(m, First(0, 10));
    RunOneMore(m + [First(0, 10)], Elapse(10));
    RunOneMore(m + [First(0, 10)] + [Elapse(10)], Call(1, key, hash));
    RunOneMore(m + [First(0, 10)] + [Elapse(10)] + [Call(1, key, hash)], Call(2, key, hash));
  }

  /**
   * Mutual exclusion does not hold for this store.  A first lease expires; callers 1 and 2 both
   * ask; 1 removes the expired entry and unlocks, 2 wins the free key, then 1 inserts: both own a
   * lease on the same key at the same instant, and nothing was released and no time passed.
   */
  lemma TwoOwnersAtOnce(key: ScopeKey, hash: string)
    ensures var s := RunShared(Opening(key, hash) + [First(1, 10)] + [First(2, 10)] + [Second(1, 10)]);
            && 1 in s.callers && s.callers[1] == Caller(key, hash, Owner(2))
            && 2 in s.callers && s.callers[2] == Caller(key, hash, Owner(1))
            && LiveBy(s, key, 2)
  {
    AfterOpening(key, hash);
    var m := Opening(key, hash);
    RunOneMore(m, First(1, 10));
    RunOneMore(m + [First(1, 10)], First(2, 10));
    RunOneMore(m + [First(1, 10)] + [First(2, 10)], Second(1, 10));
  }
}
