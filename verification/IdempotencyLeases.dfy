/**
 * Idempotency leases on the Redis store, driven by the middleware's retry loop
 * (kernel-api/src/middleware.rs).
 *
 * The store commands (SET NX EX, GET and the two compare-and-swap scripts) are atomic.  Any
 * number of requests interleave command by command; clients may vanish, commands may fail after
 * or before taking effect, and time passes between any two commands.
 */
module IdempotencyLeases {
  import opened Prelude

  const MAX_ATTEMPTS := 3

  datatype ScopeKey = ScopeKey(tenantId: string, verb: string, target: string, idempotencyKey: string)

  datatype Record = Record(bodyHash: string, actionId: string, status: nat, body: string)

  datatype Value =
    | InFlight(owner: nat, bodyHash: string)
    | Completed(owner: nat, record: Record)

  datatype Slot = Slot(value: Value, expiresAt: int)

  type Store = map<ScopeKey, Slot>

  // ---------------------------------------------------------------- store commands

  /** A key past its expiry is absent to every command. */
  function Live(store: Store, key: ScopeKey, now: int): Option<Value> {
    if key in store && now < store[key].expiresAt then Some(store[key].value) else None
  }

  function Seconds(ttl: nat): nat {
    if ttl < 1 then 1 else ttl
  }

  function SetNx(store: Store, key: ScopeKey, v: Value, ttl: nat, now: int): (Store, bool) {
    if Live(store, key, now).Some? then (store, false)
    else (store[key := Slot(v, now + Seconds(ttl))], true)
  }

  function CompleteCas(store: Store, key: ScopeKey, owner: nat, r: Record, ttl: nat, now: int): (Store, int) {
    match Live(store, key, now)
    case None => (store, 0)
    case Some(Completed(_, _)) => (store, -1)
    case Some(InFlight(current, _)) =>
      if current != owner then (store, -1)
      else (store[key := Slot(Completed(owner, r), now + Seconds(ttl))], 1)
  }

  function ReleaseCas(store: Store, key: ScopeKey, owner: nat, now: int): (Store, int) {
    match Live(store, key, now)
    case None => (store, 0)
    case Some(Completed(_, _)) => (store, 0)
    case Some(InFlight(current, _)) =>
      if current == owner then (store - {key}, 1) else (store, 0)
  }

  // ---------------------------------------------------------------- requests

  datatype Answer =
    | Replayed(status: nat, body: string)
    | Conflict
    | Unavailable
    | Handled(status: nat, body: string)

  /** Where one request stands in the middleware; attempts counts the loop iterations entered. */
  datatype Phase =
    | Acquiring(attempts: nat)
    | Reading(attempts: nat)
    | Waiting(attempts: nat)
    | Handling(owner: nat)
    | Completing(owner: nat, record: Record)
    | Releasing(owner: nat, status: nat, body: string)
    | Answered(answer: Answer)
    | Vanished

  datatype Request = Request(key: ScopeKey, bodyHash: string, phase: Phase)

  datatype System = System(now: int, store: Store, requests: map<nat, Request>, nextOwner: nat)

  datatype Step =
    | Tick(seconds: nat)
    | Arrive(id: nat, key: ScopeKey, bodyHash: string)
    | Acquire(id: nat, ttl: nat)
    | AcquireError(id: nat, ttl: nat, tookEffect: bool)
    | Read(id: nat)
    | ReadError(id: nat)
    | Wake(id: nat)
    | WaitTimeout(id: nat)
    | Respond(id: nat, status: nat, body: string, actionId: string, cacheable: bool)
    | Complete(id: nat, ttl: nat)
    | CompleteError(id: nat, ttl: nat, tookEffect: bool)
    | Release(id: nat)
    | ReleaseError(id: nat, tookEffect: bool)
    | Vanish(id: nat)

  function SetPhase(s: System, id: nat, phase: Phase): System
    requires id in s.requests
  {
    s.(requests := s.requests[id := s.requests[id].(phase := phase)])
  }

  /** SET NX with a fresh owner token; the loop gives up after three iterations. */
  function DoAcquire(s: System, id: nat, ttl: nat): System
    requires id in s.requests && s.requests[id].phase.Acquiring?
  {
    var r := s.requests[id];
    if r.phase.attempts > MAX_ATTEMPTS then SetPhase(s, id, Answered(Unavailable))
    else
      var (store, won) := SetNx(s.store, r.key, InFlight(s.nextOwner, r.bodyHash), ttl, s.now);
      SetPhase(s.(store := store, nextOwner := s.nextOwner + 1), id,
               if won then Handling(s.nextOwner) else Reading(r.phase.attempts))
  }

  function DoRead(s: System, id: nat): System
    requires id in s.requests && s.requests[id].phase.Reading?
  {
    var r := s.requests[id];
    match Live(s.store, r.key, s.now)
    case None => SetPhase(s, id, Acquiring(r.phase.attempts + 1))
    case Some(Completed(_, record)) =>
      SetPhase(s, id, Answered(if r.bodyHash != record.bodyHash then Conflict
                               else Replayed(record.status, record.body)))
    case Some(InFlight(_, existing)) =>
      SetPhase(s, id, if r.bodyHash != existing then Answered(Conflict) else Waiting(r.phase.attempts))
  }

  function DoComplete(s: System, id: nat, ttl: nat): System
    requires id in s.requests && s.requests[id].phase.Completing?
  {
    var r := s.requests[id];
    var rec := r.phase.record;
    var (store, code) := CompleteCas(s.store, r.key, r.phase.owner, rec, ttl, s.now);
    SetPhase(s.(store := store), id,
             if code == 1 then Answered(Handled(rec.status, rec.body))
             else Releasing(r.phase.owner, rec.status, rec.body))
  }

  function DoRelease(s: System, id: nat): System
    requires id in s.requests && s.requests[id].phase.Releasing?
  {
    var r := s.requests[id];
    SetPhase(s.(store := ReleaseCas(s.store, r.key, r.phase.owner, s.now).0), id,
             Answered(Handled(r.phase.status, r.phase.body)))
  }

  /** The step is one the request can take where it stands. */
  predicate Ready(s: System, step: Step) {
    match step
    case Tick(_) => true
    case Arrive(id, _, _) => id !in s.requests
    case _ =>
      && step.id in s.requests
      && var phase := s.requests[step.id].phase;
         match step
         case Acquire(_, _) => phase.Acquiring?
         case AcquireError(_, _, _) => phase.Acquiring? && phase.attempts <= MAX_ATTEMPTS
         case Read(_) => phase.Reading?
         case ReadError(_) => phase.Reading?
         case Wake(_) => phase.Waiting?
         case WaitTimeout(_) => phase.Waiting?
         case Respond(_, _, _, _, _) => phase.Handling?
         case Complete(_, _) => phase.Completing?
         case CompleteError(_, _, _) => phase.Completing?
         case Release(_) => phase.Releasing?
         case ReleaseError(_, _) => phase.Releasing?
         case Vanish(_) => !phase.Answered? && !phase.Vanished?
         case _ => false
  }

  /** One atomic step; a step that is not ready changes nothing. */
  function Next(s: System, step: Step): System {
    if !Ready(s, step) then s else
    match step
    case Tick(d) => s.(now := s.now + d)
    case Arrive(id, key, hash) => s.(requests := s.requests[id := Request(key, hash, Acquiring(1))])
    case Acquire(id, ttl) => DoAcquire(s, id, ttl)
    case AcquireError(id, ttl, tookEffect) =>
      SetPhase(if tookEffect then DoAcquire(s, id, ttl) else s, id, Answered(Unavailable))
    case Read(id) => DoRead(s, id)
    case ReadError(id) => SetPhase(s, id, Answered(Unavailable))
    case Wake(id) => SetPhase(s, id, Acquiring(s.requests[id].phase.attempts + 1))
    case WaitTimeout(id) => SetPhase(s, id, Answered(Unavailable))
    case Respond(id, status, body, actionId, cacheable) =>
      var owner := s.requests[id].phase.owner;
      SetPhase(s, id, if 200 <= status < 300 && cacheable
                      then Completing(owner, Record(s.requests[id].bodyHash, actionId, status, body))
                      else Releasing(owner, status, body))
    case Complete(id, ttl) => DoComplete(s, id, ttl)
    case CompleteError(id, ttl, tookEffect) =>
      var (owner, rec) := (s.requests[id].phase.owner, s.requests[id].phase.record);
      SetPhase(if tookEffect then DoComplete(s, id, ttl) else s, id, Releasing(owner, rec.status, rec.body))
    case Release(id) => DoRelease(s, id)
    case ReleaseError(id, tookEffect) =>
      var phase := s.requests[id].phase;
      SetPhase(if tookEffect then DoRelease(s, id) else s, id, Answered(Handled(phase.status, phase.body)))
    case Vanish(id) => SetPhase(s, id, Vanished)
  }

  const START := System(0, map[], map[], 0)

  ghost function Run(steps: seq<Step>): System {
    if steps == [] then START else Next(Run(steps[..|steps| - 1]), steps[|steps| - 1])
  }

  /** The state before step i of the run. */
  ghost function At(steps: seq<Step>, i: nat): System
    requires i <= |steps|
  {
    Run(steps[..i])
  }

  lemma AtNext(steps: seq<Step>, i: nat)
    requires i < |steps|
    ensures At(steps, i + 1) == Next(At(steps, i), steps[i])
  {
    assert steps[..i + 1][..i] == steps[..i];
  }

  // ---------------------------------------------------------------- leases

  /** Owner o has the key: its in-flight lease or the record it completed is live. */
  predicate Holds(s: System, key: ScopeKey, o: nat) {
    Live(s.store, key, s.now).Some? && s.store[key].value.owner == o
  }

  /** The step wins the key for a new owner. */
  predicate Wins(s: System, step: Step, key: ScopeKey) {
    && Ready(s, step)
    && (step.Acquire? || (step.AcquireError? && step.tookEffect))
    && s.requests[step.id].key == key
    && s.requests[step.id].phase.attempts <= MAX_ATTEMPTS
    && Live(s.store, key, s.now).None?
  }

  /** The step releases o's in-flight lease on the key. */
  predicate Releases(s: System, step: Step, key: ScopeKey, o: nat) {
    && Ready(s, step)
    && (step.Release? || (step.ReleaseError? && step.tookEffect))
    && s.requests[step.id].key == key && s.requests[step.id].phase.owner == o
    && Live(s.store, key, s.now).Some? && s.store[key].value.InFlight?
  }

  /** The step lets the time to live of the key run out. */
  predicate Expires(s: System, step: Step, key: ScopeKey) {
    step.Tick? && key in s.store && s.now < s.store[key].expiresAt <= s.now + step.seconds
  }

  /** The step replaces o's in-flight lease on the key by its record. */
  predicate Records(s: System, step: Step, key: ScopeKey, o: nat) {
    && Ready(s, step)
    && (step.Complete? || (step.CompleteError? && step.tookEffect))
    && s.requests[step.id].key == key && s.requests[step.id].phase.owner == o
    && Live(s.store, key, s.now).Some? && s.store[key].value.InFlight? && s.store[key].value.owner == o
  }

  /** What one step can do to a key that o has. */
  lemma StepOnHeldKey(s: System, step: Step, key: ScopeKey, o: nat)
    requires Holds(s, key, o)
    ensures var s' := Next(s, step);
            if Releases(s, step, key, o) || Expires(s, step, key) then !Holds(s', key, o)
            else Holds(s', key, o) && (s'.store[key] == s.store[key] || Records(s, step, key, o))
  {
  }

  /**
   * A key that o has stays o's until a step releases it or its time to live runs out: between
   * any two states of a run, if o lost the key then some step in between did one of the two.
   */
  lemma {:induction false} LeaseEndsOnlyByReleaseOrExpiry(steps: seq<Step>, i: nat, j: nat, key: ScopeKey, o: nat)
    requires i <= j <= |steps| && Holds(At(steps, i), key, o) && !Holds(At(steps, j), key, o)
    ensures exists m :: i <= m < j && Holds(At(steps, m), key, o)
              && (Releases(At(steps, m), steps[m], key, o) || Expires(At(steps, m), steps[m], key))
  {
    if i < j {
      if Holds(At(steps, j - 1), key, o) {
        AtNext(steps, j - 1);
        StepOnHeldKey(At(steps, j - 1), steps[j - 1], key, o);
      } else {
        LeaseEndsOnlyByReleaseOrExpiry(steps, i, j - 1, key, o);
      }
    }
  }

  /**
   * Mutual exclusion.  In every interleaving, after one request wins a scope key another wins it
   * only once the first lease was released, or the key's time to live ran out.
   */
  lemma {:induction false} SecondWinNeedsReleaseOrExpiry(steps: seq<Step>, i: nat, j: nat, key: ScopeKey)
    requires i < j < |steps| && Wins(At(steps, i), steps[i], key) && Wins(At(steps, j), steps[j], key)
    ensures var o := At(steps, i).nextOwner;
            exists m :: i < m < j && Holds(At(steps, m), key, o)
              && (Releases(At(steps, m), steps[m], key, o) || Expires(At(steps, m), steps[m], key))
  {
    AtNext(steps, i);
    LeaseEndsOnlyByReleaseOrExpiry(steps, i + 1, j, key, At(steps, i).nextOwner);
  }

  /** An in-flight lease keeps the expiry it was won with; only completing changes the slot. */
  lemma {:induction false} LeaseKeepsItsExpiry(steps: seq<Step>, i: nat, j: nat, key: ScopeKey)
    requires i < j <= |steps| && Wins(At(steps, i), steps[i], key)
    requires forall m :: i < m <= j ==> Holds(At(steps, m), key, At(steps, i).nextOwner)
    ensures var o := At(steps, i).nextOwner;
            Holds(At(steps, j), key, o) &&
            var slot := At(steps, j).store[key];
            slot.value.InFlight? ==>
              slot.expiresAt == At(steps, i).now + (if steps[i].ttl < 1 then 1 else steps[i].ttl)
              && slot.value.bodyHash == At(steps, i).requests[steps[i].id].bodyHash
  {
    AtNext(steps, j - 1);
    if i < j - 1 {
      LeaseKeepsItsExpiry(steps, i, j - 1, key);
      StepOnHeldKey(At(steps, j - 1), steps[j - 1], key, At(steps, i).nextOwner);
    }
  }

  // ---------------------------------------------------------------- one live owner

  predicate OwnsToken(phase: Phase, o: nat) {
    (phase.Handling? || phase.Completing? || phase.Releasing?) && phase.owner == o
  }

  ghost predicate Inv(s: System) {
    && (forall k :: k in s.store ==> s.store[k].value.owner < s.nextOwner)
    && (forall id, o: nat :: id in s.requests && OwnsToken(s.requests[id].phase, o) ==> o < s.nextOwner)
    && (forall a, b, o: nat ::
          (a in s.requests && b in s.requests
           && OwnsToken(s.requests[a].phase, o) && OwnsToken(s.requests[b].phase, o)) ==> a == b)
    && (forall id :: id in s.requests && s.requests[id].phase.Completing? ==>
          s.requests[id].phase.record.bodyHash == s.requests[id].bodyHash)
  }

  /** A step gives out at most the next token, to the request that takes it. */
  lemma TokensAreNew(s: System, step: Step, id: nat, o: nat)
    requires id in Next(s, step).requests && OwnsToken(Next(s, step).requests[id].phase, o)
    ensures (id in s.requests && OwnsToken(s.requests[id].phase, o))
            || (step.Acquire? && step.id == id && s.nextOwner == o < Next(s, step).nextOwner)
  {
  }

  lemma StoredOwnersAreOld(s: System, step: Step, key: ScopeKey)
    requires Inv(s) && key in Next(s, step).store
    ensures s.nextOwner <= Next(s, step).nextOwner
    ensures Next(s, step).store[key].value.owner < Next(s, step).nextOwner
  {
  }

  lemma RecordsKeepTheirHash(s: System, step: Step, id: nat)
    requires Inv(s) && id in Next(s, step).requests && Next(s, step).requests[id].phase.Completing?
    ensures Next(s, step).requests[id].phase.record.bodyHash == Next(s, step).requests[id].bodyHash
  {
  }

  lemma OwnersNeverShrink(s: System, step: Step)
    ensures s.nextOwner <= Next(s, step).nextOwner
  {
  }

  lemma NextKeepsInv(s: System, step: Step)
    requires Inv(s)
    ensures Inv(Next(s, step))
  {
    hide Next, OwnsToken;
    var s' := Next(s, step);
    OwnersNeverShrink(s, step);
    forall k | k in s'.store ensures s'.store[k].value.owner < s'.nextOwner { StoredOwnersAreOld(s, step, k); }
    forall id, o: nat | id in s'.requests && OwnsToken(s'.requests[id].phase, o)
      ensures o < s'.nextOwner
    {
      TokensAreNew(s, step, id, o);
    }
    forall a, b, o: nat | a in s'.requests && b in s'.requests
                          && OwnsToken(s'.requests[a].phase, o) && OwnsToken(s'.requests[b].phase, o)
      ensures a == b
    {
      TokensAreNew(s, step, a, o);
      TokensAreNew(s, step, b, o);
    }
    forall id | id in s'.requests && s'.requests[id].phase.Completing?
      ensures s'.requests[id].phase.record.bodyHash == s'.requests[id].bodyHash
    {
      RecordsKeepTheirHash(s, step, id);
    }
  }

  lemma {:induction false} RunKeepsInv(steps: seq<Step>)
    ensures Inv(Run(steps))
  {
    if steps != [] {
      RunKeepsInv(steps[..|steps| - 1]);
      NextKeepsInv(Run(steps[..|steps| - 1]), steps[|steps| - 1]);
    }
  }

  /** In every reachable state at most one request works on a key under a live lease. */
  lemma {:induction false} OneLiveOwnerPerKey(steps: seq<Step>, a: nat, b: nat, o: nat, p: nat)
    requires var s := Run(steps);
             && a in s.requests && b in s.requests && s.requests[a].key == s.requests[b].key
             && OwnsToken(s.requests[a].phase, o) && Holds(s, s.requests[a].key, o)
             && OwnsToken(s.requests[b].phase, p) && Holds(s, s.requests[b].key, p)
    ensures a == b && o == p
  {
    RunKeepsInv(steps);
  }

  // ---------------------------------------------------------------- replay window

  predicate Recorded(s: System, key: ScopeKey, slot: Slot) {
    slot.value.Completed? && key in s.store && s.store[key] == slot
  }

  /** The record a completing step stores, and until when. */
  function RecordedBy(s: System, step: Step): Slot
    requires Ready(s, step) && (step.Complete? || step.CompleteError?)
  {
    Slot(Completed(s.requests[step.id].phase.owner, s.requests[step.id].phase.record), s.now + Seconds(step.ttl))
  }

  lemma {:induction false} RecordStays(steps: seq<Step>, i: nat, j: nat, key: ScopeKey, o: nat)
    requires i < j <= |steps| && Records(At(steps, i), steps[i], key, o)
    requires At(steps, j).now < At(steps, i).now + Seconds(steps[i].ttl)
    ensures Recorded(At(steps, j), key, RecordedBy(At(steps, i), steps[i]))
  {
    AtNext(steps, j - 1);
    if i < j - 1 {
      hide Records, RecordedBy, Run, Ready, Next;
      TimeOnlyPasses(At(steps, j - 1), steps[j - 1]);
      RecordStays(steps, i, j - 1, key, o);
      StepKeepsRecord(At(steps, j - 1), steps[j - 1], key, RecordedBy(At(steps, i), steps[i]));
    }
  }

  lemma TimeOnlyPasses(s: System, step: Step)
    ensures s.now <= Next(s, step).now
  {
  }

  lemma StepKeepsRecord(s: System, step: Step, key: ScopeKey, slot: Slot)
    requires Recorded(s, key, slot) && s.now < slot.expiresAt
    ensures Recorded(Next(s, step), key, slot)
  {
  }

  /** What a step can do around a key whose record is live. */
  predicate OnlyReplays(s: System, step: Step, key: ScopeKey, rec: Record) {
    && !Wins(s, step, key)
    && (forall id :: id in Next(s, step).requests && Next(s, step).requests[id].key == key
                     && Next(s, step).requests[id].phase.Handling? ==>
                       id in s.requests && s.requests[id].phase.Handling?)
    && (step.Read? && Ready(s, step) && s.requests[step.id].key == key ==>
          && step.id in Next(s, step).requests
          && Next(s, step).requests[step.id].phase ==
             Answered(if s.requests[step.id].bodyHash == rec.bodyHash
                      then Replayed(rec.status, rec.body) else Conflict))
  }

  lemma HandlerNeedsWin(s: System, step: Step, id: nat)
    requires id in Next(s, step).requests && Next(s, step).requests[id].phase.Handling?
    ensures (id in s.requests && s.requests[id].phase.Handling?)
            || Wins(s, step, Next(s, step).requests[id].key)
  {
  }

  lemma ReadReplays(s: System, step: Step, slot: Slot)
    requires step.Read? && Ready(s, step)
    requires Recorded(s, s.requests[step.id].key, slot) && s.now < slot.expiresAt
    ensures step.id in Next(s, step).requests
    ensures Next(s, step).requests[step.id].phase ==
            Answered(if s.requests[step.id].bodyHash == slot.value.record.bodyHash
                     then Replayed(slot.value.record.status, slot.value.record.body) else Conflict)
  {
  }

  lemma RecordedKeyOnlyReplays(s: System, step: Step, key: ScopeKey, slot: Slot)
    requires Recorded(s, key, slot) && s.now < slot.expiresAt
    ensures OnlyReplays(s, step, key, slot.value.record)
  {
    hide Next;
    if step.Read? && Ready(s, step) && s.requests[step.id].key == key { ReadReplays(s, step, slot); }
    forall id | id in Next(s, step).requests && Next(s, step).requests[id].key == key
                && Next(s, step).requests[id].phase.Handling?
      ensures id in s.requests && s.requests[id].phase.Handling?
    {
      HandlerNeedsWin(s, step, id);
    }
  }

  /** The request whose record is stored is itself answered with the recorded status and body. */
  lemma RecordedIsAnswered(s: System, step: Step, key: ScopeKey, o: nat)
    requires step.Complete? && Records(s, step, key, o)
    ensures var rec := s.requests[step.id].phase.record;
            && step.id in Next(s, step).requests
            && Next(s, step).requests[step.id].phase == Answered(Handled(rec.status, rec.body))
  {
  }

  /**
   * What a handler that still holds its lease leaves: a cacheable success becomes the key's record,
   * anything else frees the key; either way the client gets the handler's own response.
   */
  lemma SuccessIsRecordedFailureReleased(s: System, id: nat, status: nat, body: string, actionId: string,
                                         cacheable: bool, ttl: nat)
    requires id in s.requests && s.requests[id].phase.Handling?
    requires var r := s.requests[id];
             Holds(s, r.key, r.phase.owner) && s.store[r.key].value.InFlight?
    ensures var r := s.requests[id];
            var kept := 200 <= status < 300 && cacheable;
            var t := Next(Next(s, Respond(id, status, body, actionId, cacheable)),
                          if kept then Complete(id, ttl) else Release(id));
            && t.requests == s.requests[id := r.(phase := Answered(Handled(status, body)))]
            && var record := Record(r.bodyHash, actionId, status, body);
               t.store == if kept
                          then s.store[r.key := Slot(Completed(r.phase.owner, record), s.now + Seconds(ttl))]
                          else s.store - {r.key}
  {
  }

  /**
   * Replay.  After a completion takes effect and until it expires, in every interleaving: no
   * step wins the key, so no handler starts for it; and every request that reads the key is
   * answered with the recorded status and body if its body hash is the completing request's,
   * and with a conflict otherwise.
   */
  lemma {:induction false} CompletedKeyReplays(steps: seq<Step>, i: nat, j: nat, key: ScopeKey, o: nat)
    requires i < j < |steps| && Records(At(steps, i), steps[i], key, o)
    requires At(steps, j).now < At(steps, i).now + Seconds(steps[i].ttl)
    ensures var rec := At(steps, i).requests[steps[i].id].phase.record;
            && rec.bodyHash == At(steps, i).requests[steps[i].id].bodyHash
            && OnlyReplays(At(steps, j), steps[j], key, rec)
    ensures var rec := At(steps, i).requests[steps[i].id].phase.record;
            steps[i].Complete? ==>
              && steps[i].id in At(steps, i + 1).requests
              && At(steps, i + 1).requests[steps[i].id].phase == Answered(Handled(rec.status, rec.body))
  {
    AtNext(steps, i);
    if steps[i].Complete? { RecordedIsAnswered(At(steps, i), steps[i], key, o); }
    hide Next;
    RecordStays(steps, i, j, key, o);
    RunKeepsInv(steps[..i]);
    RecordedKeyOnlyReplays(At(steps, j), steps[j], key, RecordedBy(At(steps, i), steps[i]));
  }

  // ---------------------------------------------------------------- what a request that loses gets

  /** The step is not one the request takes. */
  predicate NotBy(step: Step, id: nat) {
    step.Tick? || step.id != id
  }

  /** Whatever others do, and however long it takes, a request stands where it stood. */
  lemma {:induction false} StandsStill(steps: seq<Step>, j: nat, k: nat, id: nat)
    requires j <= k <= |steps| && id in At(steps, j).requests
    requires forall m :: j <= m < k ==> NotBy(steps[m], id)
    ensures id in At(steps, k).requests && At(steps, k).requests[id] == At(steps, j).requests[id]
  {
    if j < k {
      StandsStill(steps, j, k - 1, id);
      AtNext(steps, k - 1);
      hide At, Run;
      OthersLeaveRequest(At(steps, k - 1), steps[k - 1], id);
    }
  }

  lemma OthersLeaveRequest(s: System, step: Step, id: nat)
    requires id in s.requests && NotBy(step, id)
    ensures id in Next(s, step).requests && Next(s, step).requests[id] == s.requests[id]
  {
  }

  /** In the run, the request asks for its key at step j while the key is live, then reads it at step k. */
  ghost predicate LosesThenReads(steps: seq<Step>, j: nat, k: nat, id: nat) {
    && j < k < |steps| && steps[j].Acquire? && steps[j].id == id && steps[k] == Read(id)
    && (forall m :: j < m < k ==> NotBy(steps[m], id))
    && id in At(steps, j).requests
    && At(steps, j).requests[id].phase.Acquiring? && At(steps, j).requests[id].phase.attempts <= MAX_ATTEMPTS
    && Live(At(steps, j).store, At(steps, j).requests[id].key, At(steps, j).now).Some?
  }

  lemma LosingLeadsToReading(s: System, step: Step)
    requires step.Acquire? && Ready(s, step) && s.requests[step.id].phase.attempts <= MAX_ATTEMPTS
    requires Live(s.store, s.requests[step.id].key, s.now).Some?
    ensures var r := s.requests[step.id];
            step.id in Next(s, step).requests
            && Next(s, step).requests[step.id] == r.(phase := Reading(r.phase.attempts))
  {
  }

  /** What the read answers by: nothing there, a lease, or a record. */
  lemma ReadAnswersBy(s: System, id: nat)
    requires id in s.requests && s.requests[id].phase.Reading?
    ensures var r := s.requests[id];
            var found := Live(s.store, r.key, s.now);
            && id in Next(s, Read(id)).requests
            && var phase := Next(s, Read(id)).requests[id].phase;
               && (found.None? ==> phase == Acquiring(r.phase.attempts + 1))
               && (found.Some? && found.value.InFlight? ==>
                     phase == if found.value.bodyHash == r.bodyHash then Waiting(r.phase.attempts)
                              else Answered(Conflict))
               && (found.Some? && found.value.Completed? ==>
                     phase == Answered(if found.value.record.bodyHash == r.bodyHash
                                       then Replayed(found.value.record.status, found.value.record.body)
                                       else Conflict))
  {
  }

  /**
   * A request that finds its key taken.  In every interleaving, whatever others do before it reads:
   * an equal body hash waits for a lease still in flight, a different one is a conflict; a record
   * is replayed or, to a different hash, a conflict; a key gone by then is asked for again.
   */
  lemma {:induction false} LoserIsAnsweredByTheKey(steps: seq<Step>, j: nat, k: nat, id: nat)
    requires LosesThenReads(steps, j, k, id)
    ensures var r := At(steps, j).requests[id];
            var found := Live(At(steps, k).store, r.key, At(steps, k).now);
            && id in At(steps, k + 1).requests
            && var phase := At(steps, k + 1).requests[id].phase;
               && (found.None? ==> phase == Acquiring(r.phase.attempts + 1))
               && (found.Some? && found.value.InFlight? ==>
                     phase == if found.value.bodyHash == r.bodyHash then Waiting(r.phase.attempts)
                              else Answered(Conflict))
               && (found.Some? && found.value.Completed? ==>
                     phase == Answered(if found.value.record.bodyHash == r.bodyHash
                                       then Replayed(found.value.record.status, found.value.record.body)
                                       else Conflict))
  {
    AtNext(steps, j);
    LosingLeadsToReading(At(steps, j), steps[j]);
    StandsStill(steps, j + 1, k, id);
    AtNext(steps, k);
    ReadAnswersBy(At(steps, k), id);
    hide At, Next, Live;
  }

  /**
   * The promise to the client, end to end.  After a completion, a request for the same key that asks
   * while the record is live and reads before it expires is answered, whatever others do in
   * between, with the completing request's status and body if its hash is that request's, and with
   * a conflict otherwise.
   */
  lemma {:induction false} LateRequestIsReplayed(steps: seq<Step>, i: nat, j: nat, k: nat,
                                                 key: ScopeKey, o: nat, id: nat)
    requires i < j < k < |steps| && Records(At(steps, i), steps[i], key, o)
    requires steps[j].Acquire? && steps[j].id == id && steps[k] == Read(id)
    requires forall m :: j < m < k ==> NotBy(steps[m], id)
    requires id in At(steps, j).requests && At(steps, j).requests[id].key == key
    requires At(steps, j).requests[id].phase.Acquiring? && At(steps, j).requests[id].phase.attempts <= MAX_ATTEMPTS
    requires At(steps, k).now < At(steps, i).now + (if steps[i].ttl < 1 then 1 else steps[i].ttl)
    ensures var first := At(steps, i).requests[steps[i].id];
            && id in At(steps, k + 1).requests
            && At(steps, k + 1).requests[id].phase ==
               Answered(if At(steps, j).requests[id].bodyHash == first.bodyHash
                        then Replayed(first.phase.record.status, first.phase.record.body) else Conflict)
  {
    hide Next, Run, At;
    ClockOnlyAdvances(steps, j, k);
    RecordStays(steps, i, j, key, o);
    RecordStays(steps, i, k, key, o);
    CompletedKeyReplays(steps, i, k, key, o);
    LoserIsAnsweredByTheKey(steps, j, k, id);
  }

  lemma {:induction false} ClockOnlyAdvances(steps: seq<Step>, j: nat, k: nat)
    requires j <= k <= |steps|
    ensures At(steps, j).now <= At(steps, k).now
  {
    if j < k {
      ClockOnlyAdvances(steps, j, k - 1);
      AtNext(steps, k - 1);
      hide At, Run;
      TimeOnlyPasses(At(steps, k - 1), steps[k - 1]);
    }
  }

  /** The step is a failed command, a timed-out wait or a fourth attempt of the request. */
  predicate GivesUp(s: System, step: Step) {
    && Ready(s, step)
    && (step.AcquireError? || step.ReadError? || step.WaitTimeout?
        || (step.Acquire? && s.requests[step.id].phase.attempts > 3))
  }

  /** A 503, exactly: a failed command, a timed-out wait or a fourth attempt is behind each, and leads to one. */
  lemma UnavailableExactlyWhen(s: System, step: Step, id: nat)
    requires id in Next(s, step).requests
    requires id in s.requests ==> s.requests[id].phase != Answered(Unavailable)
    ensures Next(s, step).requests[id].phase == Answered(Unavailable) <==>
            !step.Tick? && step.id == id && GivesUp(s, step)
  {
  }

  /** A new request for a key nobody has is handled, under a lease it holds. */
  lemma NewRequestOnFreeKeyIsHandled(s: System, id: nat, key: ScopeKey, hash: string, ttl: nat)
    requires id !in s.requests && Live(s.store, key, s.now).None?
    ensures var t := Next(Next(s, Arrive(id, key, hash)), Acquire(id, ttl));
            && id in t.requests && t.requests[id] == Request(key, hash, Handling(s.nextOwner))
            && Holds(t, key, s.nextOwner) && t.store[key].value == InFlight(s.nextOwner, hash)
  {
  }

  /** The request is on its way to its client with the response, or has reached it. */
  predicate Responding(phase: Phase, status: nat, body: string) {
    match phase
    case Completing(_, record) => record.status == status && record.body == body
    case Releasing(_, st, b) => st == status && b == body
    case Answered(answer) => answer == Handled(status, body)
    case _ => false
  }

  lemma ResponseIsKept(s: System, step: Step, id: nat, status: nat, body: string)
    requires id in s.requests && Responding(s.requests[id].phase, status, body) && step != Vanish(id)
    ensures id in Next(s, step).requests && Responding(Next(s, step).requests[id].phase, status, body)
  {
  }

  /**
   * Whatever becomes of the lease, of the record and of the store commands, in every run the client
   * whose handler responded is answered with that response and nothing else, unless it vanishes.
   */
  lemma {:induction false} ResponseReachesClient(steps: seq<Step>, i: nat, j: nat)
    requires i < j <= |steps| && steps[i].Respond? && Ready(At(steps, i), steps[i])
    requires forall m :: i < m < j ==> steps[m] != Vanish(steps[i].id)
    ensures steps[i].id in At(steps, j).requests
    ensures Responding(At(steps, j).requests[steps[i].id].phase, steps[i].status, steps[i].body)
  {
    AtNext(steps, j - 1);
    if i < j - 1 {
      ResponseReachesClient(steps, i, j - 1);
      hide At;
      ResponseIsKept(At(steps, j - 1), steps[j - 1], steps[i].id, steps[i].status, steps[i].body);
    }
  }

  /** A request that is woken asks again, counting the attempt. */
  lemma WokenAsksAgain(s: System, id: nat)
    requires id in s.requests && s.requests[id].phase.Waiting?
    ensures Next(s, Wake(id)).requests ==
            s.requests[id := s.requests[id].(phase := Acquiring(s.requests[id].phase.attempts + 1))]
  {
  }

  // ---------------------------------------------------------------- each request ends

  /** How many more steps of its own a request can take. */
  function Remaining(phase: Phase): nat {
    match phase
    case Acquiring(a) => if a > MAX_ATTEMPTS then 4 else 3 * (MAX_ATTEMPTS - a) + 7
    case Reading(a) => if a > MAX_ATTEMPTS then 6 else 3 * (MAX_ATTEMPTS - a) + 6
    case Waiting(a) => if a > MAX_ATTEMPTS then 5 else 3 * (MAX_ATTEMPTS - a) + 5
    case Handling(_) => 3
    case Completing(_, _) => 2
    case Releasing(_, _, _) => 1
    case Answered(_) => 0
    case Vanished => 0
  }

  /** Every step a request takes brings it closer to its answer, so at most 13 steps finish it. */
  lemma StepsBringAnAnswerCloser(s: System, step: Step)
    requires Ready(s, step) && !step.Tick? && !step.Arrive?
    ensures Remaining(Next(s, step).requests[step.id].phase) < Remaining(s.requests[step.id].phase)
    ensures forall id :: id in s.requests && id != step.id ==> Next(s, step).requests[id] == s.requests[id]
    ensures Remaining(Acquiring(1)) == 13
  {
  }
}
