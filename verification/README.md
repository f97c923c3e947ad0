# Kernel protocols, modelled and proved

This project models the protocol cores of the kernel and proves what they are for: ordered event
delivery, idempotency leases, quota buckets, signing keys and tenant tokens, the archiver, entity
history, the stream consumer, request-target canonicalisation and the network allowlist.
`dafny verify dfyconfig.toml` checks all of it.

Every protocol is a step function on values, folded over an arbitrary sequence of steps. A step
that is not enabled changes nothing, so a theorem about all step sequences is a theorem about all
interleavings, failures and crash points. Where the source updates an object in place, a class with
the same fields and branches is proved to compute the step function; the theorems are then about the
function. Pure code is modelled by functions alone.

Main results, by module:

* **GapTracking, DeferredDelivery, EventOutbox, OrderedDelivery.** Each sequence number is applied
  once and in order by every sequence of tracker calls; a caller that buffers and re-feeds applies
  exactly the longest contiguous run that arrived, in any arrival order; committed outbox numbers have
  no gaps; and, composed, whatever the stream loses, repeats or reorders, the events applied are a
  prefix of the committed outbox, no rebuild is ever required, and working recovery closes a gap of g
  missing events in g rounds.
* **IdempotencyLeases, InMemoryLeases, ChannelListeners.** On the Redis store a second winner of a key
  needs a release or an expiry, and a completed key only replays. On the in-memory store mutual
  exclusion fails; when it does is stated exactly, for single moves and for whole runs, with a
  concrete run. A channel has exactly one listener while it is marked running, and, while
  nothing fails, a waiter's wake-up is lost in exactly two windows, each with a concrete run.
* **Quota.** The token-bucket bound holds in every window of every run if and only if the capacity
  refills before a written key can expire; the two-pass script equals the single-key scripts one after
  another; Retry-After is sufficient exactly when the delay is within the layer's ceiling or the key has
  expired by then.
* **KeyLifecycle, KeyInterleaving, TenantTokens.** The unique indexes never abort a rotation or a revocation
  that does not have to wait; a rotation that waits is aborted exactly when the active key is revoked
  meanwhile, and all interleavings end in the states of serial runs; one active key exists forever after the first rotation; pruning cannot be observed; a minted token is accepted
  if and only if it is in its time window, its key is not revoked and its nonce is unused; the closure of
  a tenant transaction sees one tenant everywhere; a nonce commits at most once; and, of all tokens, exactly
  those signed with an accepted key are accepted.
* **Archiver, EntityHistory.** A row marked archived has its own object whatever crashes happened; the
  history of an entity replays to its content at every version, and no update is lost to another.
* **StreamConsumer, RequestTarget, Allowlist.** No published entry is lost by group recreation or
  truncation; canonical targets are equal exactly for equal paths and parameter multisets; the bucketed
  index decides as the linear scan does.

Where the code and its own comments or tests disagree, the model follows the code:

* kernel-data/src/event/redis_consumer.rs:329 expects a fairness blip when the poll counter overflows.
  There is none, because 64 divides the range of the counter (`StreamConsumer.DrawsCoverEveryShard`).
* kernel-data/tests/integration_tests.rs:244-252 expects a delete to succeed. `delete_entity` first writes a
  history row that references the record, so the foreign key, ON DELETE NO ACTION, refuses every
  delete (`EntityHistory.DeleteNeverSucceeds`).
* `try_acquire` of the in-memory store can hand the same key to two callers at one instant
  (`InMemoryLeases.TwoOwnersAtOnce`).
* `register_waiter` makes its own GET so that no wake-up is missed (kernel-api/src/middleware.rs:660-682), yet
  it does so before it spawns the listener and before the request awaits. A completion published between
  the GET and the subscription is lost (`ChannelListeners.LostBeforeSubscribing`), and so is one delivered
  between the GET and the await (`ChannelListeners.LostBeforeAwaiting`); the waiter then runs into its timeout.
* A rotation can be aborted by the index on active keys, because a revocation takes no advisory lock
  (`KeyInterleaving.RevocationAbortsWaitingRotation`).
* A `register_waiter` future dropped between marking its channel running and spawning the listener leaves
  the channel without a listener for good (`ChannelListeners.CancelledRegistrationDeafens`).

## Model

| member | source | states |
|---|---|---|
| GapTracking.GapTracker.constructor | kernel-core/src/event.rs:58-66 | a new tracker is normal, at the given sequence, without gap or timer |
| GapTracking.GapTracker.ObserveDelivery | kernel-core/src/event.rs:80-169 | the four fields after the call are those of the delivery step, the invariant is kept, and the debug assertion on the way holds |
| GapTracking.GapTracker.RecoverGap | kernel-core/src/event.rs:171-229 | the same for recovery, for every answer of the lookup |
| GapTracking.GapTracker.ConfirmGapReplay | kernel-core/src/event.rs:231-305 | the same for confirmation; the overflow error is never returned |
| GapTracking.StepKeepsConsistent | kernel-core/src/event.rs:80-305 | one call keeps: gap present iff timer present iff detected or recovering, gap starts at the expected sequence and ends beyond it; the position moves by exactly what was reported applied |
| GapTracking.StepKeepsHighest | kernel-core/src/event.rs:137-168 | one call keeps the end of an open gap equal to the highest sequence seen |
| GapTracking.RunInvariant | kernel-core/src/event.rs:80-305 | for every call sequence the tracker is consistent, an open gap ends at the highest sequence ever accepted, and the sequences applied or confirmed are exactly start, ..., expected-1, once each, in order |
| GapTracking.DeliveryIsToldExactly | kernel-core/src/event.rs:80-169 | in every reachable state a delivery is a duplicate iff already processed or before the start, applied iff first not processed, and otherwise told the gap up to the highest sequence seen |
| GapTracking.TimerIsLastProgress | kernel-core/src/event.rs:109-305 | the timer of an open gap is the time of the last progress of any kind |
| GapTracking.StateTellsProgress | kernel-core/src/event.rs:109-305 | an open gap is merely detected exactly while nothing was processed or handed out since it opened, and recovering after that |
| GapTracking.RecoveryWaitsExactly | kernel-core/src/event.rs:171-229 | recovery waits exactly until the timeout passed since the last progress, then hands out the event iff the lookup finds the right one |
| GapTracking.ConfirmedExactly | kernel-core/src/event.rs:231-305 | which confirmations succeed and which of them advance, in every reachable state |
| GapTracking.ConfirmNeverOverflows | kernel-core/src/event.rs:277-284 | in no reachable state does a confirmation report an overflow |
| GapTracking.RebuildIsAbsorbing | kernel-core/src/event.rs:85-90 | once a rebuild is required no call sequence changes the tracker or applies anything |
| GapTracking.RebuildEnteredExactlyWhen | kernel-core/src/event.rs:182-228 | a call enters the rebuild state iff it is a recovery past the timeout whose lookup answered without the missing event |
| DeferredDelivery.ReceiveAllKeeps | kernel-data/src/event/types.rs:185-189 | after every arrival sequence, every number seen is applied or still buffered, nothing buffered is next, and only numbers seen were applied |
| DeferredDelivery.AppliesLongestRun | kernel-core/src/event.rs:109-168 | for every arrival order with duplicates and foreign keys, exactly the longest contiguous run from the start that arrived is applied, one delivery per sequence, in order |
| DeferredDelivery.RunEndIsUnique | kernel-core/src/event.rs:109-168 | the end of that run depends only on which sequences are present |
| DeferredDelivery.OrderDoesNotMatter | kernel-core/src/event.rs:109-168 | two arrival sequences with the same sequences present end at the same position with the same numbers applied |
| EventOutbox.EventStore.NextSeq | kernel-data/src/event/repository.rs:106-153 | the counter the transaction sees plus one, in 1..i64::MAX, recorded in that transaction only; otherwise the transaction is aborted |
| EventOutbox.EventStore.CreateEventIn | kernel-data/src/event/repository.rs:16-104 | counter and outbox row are written together in the transaction, or neither is |
| EventOutbox.StepKeepsValid | kernel-data/src/event/repository.rs:16-153 | every begin, create, failure, commit and rollback keeps the numbering of committed rows and of every open transaction |
| EventOutbox.CommitExtends | kernel-data/src/event/repository.rs:16-153 | a commit continues the numbering of each key and only appends to it |
| EventOutbox.CommittedSequencesAreGapless | kernel-data/src/event/repository.rs:106-153 | for every interleaving of transactions, the committed rows of each tenant and key carry exactly 1, ..., last_seq in outbox order |
| EventOutbox.CommittedEventIsPublished | kernel-data/src/event/repository.rs:16-104 | in every run an event created in a transaction that is open when it commits is in the outbox from then on |
| EventOutbox.RowsAreTheEventsCreated | kernel-data/src/event/repository.rs:58-104 | every row ever written carries id, tenant, type, payload and ordering of an event some call created |
| EventOutbox.UnfinishedWorkLeavesNoTrace | kernel-data/src/event/repository.rs:16-104 | a transaction that is rolled back, or fails and is committed, leaves the store as it was |
| EventTypes.SameKeyExactly | kernel-data/src/event/types.rs:81-95 | two modes share an ordering key iff they are of one kind and name the same thing |
| OrderedDelivery.NextKeeps | kernel-core/src/event.rs:80-305 | every producer, stream, recovery and confirmation step keeps: applied events are the committed rows before the expected sequence |
| OrderedDelivery.AppliesOutboxInOrder | kernel-core/src/event.rs:80-305 | for every run of producers and any loss, duplication and reordering, the applied events are exactly the first expected-1 committed rows of the key in outbox order and no rebuild is required |
| OrderedDelivery.RoundAdvances | kernel-core/src/event.rs:171-305 | a recovery whose lookup works, and its confirmation, advance by exactly one |
| OrderedDelivery.GapClosesInItsLength | kernel-core/src/event.rs:171-305 | a gap of g missing sequences closes after exactly g such rounds, leaving the tracker normal at the sequence that opened it |
| IdempotencyLeases.StepOnHeldKey | kernel-api/src/middleware.rs:770-921 | a step takes a held key from its owner iff it releases it or lets it expire; otherwise the slot is unchanged or becomes the owner's record |
| IdempotencyLeases.LeaseEndsOnlyByReleaseOrExpiry | kernel-api/src/middleware.rs:770-921 | between two states of any run, a lost key was released by its owner or expired in between |
| IdempotencyLeases.SecondWinNeedsReleaseOrExpiry | kernel-api/src/middleware.rs:770-807 | mutual exclusion: two wins of a key have a release or an expiry of the first lease between them |
| IdempotencyLeases.LeaseKeepsItsExpiry | kernel-api/src/middleware.rs:770-921 | an in-flight lease keeps the expiry and body hash it was won with |
| IdempotencyLeases.NextKeepsInv | kernel-api/src/middleware.rs:770-921 | owner tokens stay unique to one request and every pending record carries its request's body hash |
| IdempotencyLeases.OneLiveOwnerPerKey | kernel-api/src/middleware.rs:1822-1977 | in every reachable state at most one request works on a key under a live lease |
| IdempotencyLeases.RecordStays | kernel-api/src/middleware.rs:809-879 | from a successful completion until its expiry the record is unchanged in every state |
| IdempotencyLeases.RecordedKeyOnlyReplays | kernel-api/src/middleware.rs:1822-1977 | while a record is live no step wins the key or starts a handler, and a read is answered by the record for an equal body hash and by a conflict otherwise |
| IdempotencyLeases.CompletedKeyReplays | kernel-api/src/middleware.rs:1822-1977 | the same for every later state of every run, with the completing request's own hash, and with the status and body that request was itself answered with |
| IdempotencyLeases.LoserIsAnsweredByTheKey | kernel-api/src/middleware.rs:770-807 | in every interleaving a request that finds its key taken, and then reads it, waits for an equal hash in flight, gets a conflict for a different one, the record once completed, and asks again when the key is gone |
| IdempotencyLeases.LateRequestIsReplayed | kernel-api/src/middleware.rs:1845-1910 | end to end: a request that asks while a record is live and reads before it expires gets that record's status and body, or a conflict, whatever others do in between |
| IdempotencyLeases.UnavailableExactlyWhen | kernel-api/src/middleware.rs:1825-1915 | a request gets a 503 iff a command failed, its wait timed out or it is at its fourth attempt |
| IdempotencyLeases.NewRequestOnFreeKeyIsHandled | kernel-api/src/middleware.rs:1822-1860 | a new request for a key nobody has is handled under a lease it holds |
| IdempotencyLeases.ResponseReachesClient | kernel-api/src/middleware.rs:1917-1977 | in every run the client whose handler responded is answered with that response, whatever becomes of lease, record and store commands |
| IdempotencyLeases.SuccessIsRecordedFailureReleased | kernel-api/src/middleware.rs:1822-1977 | a handler still holding its lease leaves its cacheable success as the record, and frees the key otherwise; the client gets the handler's response either way |
| IdempotencyLeases.StepsBringAnAnswerCloser | kernel-api/src/middleware.rs:1822-1977 | every step a request takes lowers a measure that starts at 13, so the retry loop ends |
| InMemoryLeases.LeaseTable.constructor | kernel-api/src/middleware.rs:311-317 | an empty table |
| InMemoryLeases.LeaseTable.AcquireFirst | kernel-api/src/middleware.rs:344-394 | the first critical section: an existing live entry, a win, or an expired in-flight entry removed before unlocking |
| InMemoryLeases.LeaseTable.Complete | kernel-api/src/middleware.rs:396-415 | succeeds iff the in-flight entry is the caller's, and then replaces it by the record |
| InMemoryLeases.LeaseTable.Release | kernel-api/src/middleware.rs:417-435 | removes the entry iff it is in flight and the caller's |
| InMemoryLeases.LeaseTable.Cleanup | kernel-api/src/middleware.rs:437-456 | exactly the entries not yet expired remain |
| InMemoryLeases.CleaningIsUnobservable | kernel-api/src/middleware.rs:437-456 | cleaning removes exactly the entries no acquisition would return |
| InMemoryLeases.LosingCallerGetsNoLease | kernel-api/src/middleware.rs:350-375 | a caller that finds the key live gets no lease and leaves the store alone |
| InMemoryLeases.OnlyLatestLeaseCompletesOrReleases | kernel-api/src/middleware.rs:344-435 | in every interleaving a completion or release that changes the store is by the lease inserted last under its key |
| InMemoryLeases.DisplacedExactlyWhen | kernel-api/src/middleware.rs:357-394 | a move takes a live lease away without release or expiry iff it is the second section of try_acquire on a key made live since the first |
| InMemoryLeases.LostKeyWasEndedOrDisplaced | kernel-api/src/middleware.rs:344-456 | between two states of any run, a lost key was released, expired, or displaced by such a second section |
| InMemoryLeases.SecondGrantNeedsEndOrDisplacement | kernel-api/src/middleware.rs:344-435 | of two grants of a key in any run, the first had no time to live, was released or expired before the second, or was displaced by a second section while it was live |
| InMemoryLeases.StoredOwnerWasGranted | kernel-api/src/middleware.rs:376-394 | whoever is in the store was granted the key by an earlier move |
| InMemoryLeases.GrantsOverlapExactlyWhen | kernel-api/src/middleware.rs:344-394 | two grants of a key overlap in a run iff the second section of some try_acquire runs while the key is live |
| InMemoryLeases.TwoOwnersAtOnce | kernel-api/src/middleware.rs:357-394 | a concrete interleaving in which two callers own the same key at the same instant |
| ChannelListeners.Prune | kernel-api/src/middleware.rs:517-541 | pruning keeps exactly the waiters still alive |
| ChannelListeners.NextKeeps | kernel-api/src/middleware.rs:517-693 | every critical section and listener step keeps the bookkeeping invariant |
| ChannelListeners.ExactlyOneListenerPerRunningChannel | kernel-api/src/middleware.rs:543-657 | in every interleaving a channel is marked running iff a listener is live or committed to it, and there is never a second |
| ChannelListeners.LiveWaiterStaysListed | kernel-api/src/middleware.rs:517-657 | no waiter whose Notify is alive is ever removed from its channel's list |
| ChannelListeners.StopsExactlyWhen | kernel-api/src/middleware.rs:571-612 | a listener stops listening iff its stream ends or a check or message finds no live waiter |
| ChannelListeners.RespawnsExactlyWhen | kernel-api/src/middleware.rs:614-637 | a closing listener commits to a successor iff a live waiter wants the channel; otherwise the channel is removed |
| ChannelListeners.DroppedWaiterIsForgotten | kernel-api/src/middleware.rs:531-541 | a dropped waiter leaves the list at the next check |
| ChannelListeners.MessageWakesExactlyTheAwaiting | kernel-api/src/middleware.rs:591-606 | in every reachable state a delivered message wakes exactly the live waiters of the channel that already await |
| ChannelListeners.WokenExactlyWhen | kernel-api/src/middleware.rs:640-693 | in every interleaving, a waiter is woken by the end of a flight iff its GET was still to come at the publish, or a listener was subscribed then and the waiter awaited already or began to before the last delivery |
| ChannelListeners.LostBeforeSubscribing | kernel-api/src/middleware.rs:660-690 | a concrete run in which the completion falls between the GET and the subscription, and the waiter sleeps on |
| ChannelListeners.LostBeforeAwaiting | kernel-api/src/middleware.rs:660-693 | a concrete run in which the listener is subscribed and delivers before the waiter begins to await, and the waiter sleeps on |
| ChannelListeners.CancelledRegistrationDeafens | kernel-api/src/middleware.rs:640-692 | a registration dropped before it spawns leaves its channel marked running with no listener in every later state |
| Quota.QuotaStore.CheckAndUpdate | kernel-api/src/middleware.rs:1458-1508 | statement by statement, the script leaves the bucket and answer of its specification, on present, expired and absent keys |
| Quota.QuotaStore.Validate | kernel-api/src/middleware.rs:1285-1341 | the first pass changes nothing unless it denies; a denial is the first failing layer's own script |
| Quota.QuotaStore.Commit | kernel-api/src/middleware.rs:1343-1357 | the second pass leaves the state of running the single-key scripts one after another |
| Quota.QuotaStore.CheckAndUpdateMulti | kernel-api/src/middleware.rs:1510-1584 | admits iff every single-key script would, with their combined effect; a denial names the first failing layer and its delay and changes no tokens of any key |
| Quota.ScriptAccounts | kernel-api/src/middleware.rs:1183-1261 | a call takes from the bucket exactly what it admits, answers with what is left, closes an admitting breaker, and the bucket is full by the time its key expires |
| Quota.AdmittedWithin | kernel-api/src/middleware.rs:1183-1261 | from any such bucket the cost admitted in a window is at most its tokens plus rate times length |
| Quota.WindowBound | kernel-api/src/middleware.rs:1183-1261 | when the capacity refills before a written key can expire: after any history, every window admits at most capacity + rate*(t-s), expiries and breaker included |
| Quota.OverdrawnExceeds | kernel-api/src/middleware.rs:1229-1248 | a capacity that outlasts its key admits twice the capacity in a window too short for it |
| Quota.WindowBoundExactly | kernel-api/src/middleware.rs:1183-1261 | the bound holds for all costs and runs iff capacity <= 60*rate, or rate*(backoff+30) for the breaker |
| Quota.OpenedBreakerAdmitsNothing | kernel-api/src/middleware.rs:1205-1248 | a breaker that opens admits nothing before its until time |
| Quota.BreakerDelayIsExact | kernel-api/src/middleware.rs:1205-1248 | the delay a denying breaker names is exact to the second, and on opening it is the backoff rounded up, at most a year |
| Quota.RetryAfterSufficesExactly | kernel-core/src/quota.rs:37-60 | waiting for the emitted Retry-After is enough iff the delay is within the layer's clamp or the key expired by then |
| Quota.ClampedRetryIsDenied | kernel-core/src/quota.rs:42-45 | every system bucket that takes over 30 seconds to refill, once emptied, denies again after its own header's 30 seconds |
| Quota.RunEachAt | kernel-api/src/middleware.rs:1343-1357 | on distinct keys each script acts on its own key as if alone |
| Quota.DenialKeepsFills | kernel-api/src/middleware.rs:1320-1336 | a denied check changes no tokens and no refill time of any key |
| Quota.DefaultLayersAreBounded | kernel-api/src/middleware.rs:177-203 | the shipped defaults of all four layers respect their rate in every window |
| Quota.DefaultLimits | kernel-api/src/middleware.rs:177-203 | the bound of each shipped layer in numbers |
| Quota.DefaultBursts | kernel-api/src/middleware.rs:177-203 | the bursts the shipped layers admit: 1000, 600, 100 and 100 requests |
| KeyLifecycle.KeyTable.RotateKeyType | kernel-core/src/auth/key_manager.rs:56-148 | the transaction, statement by statement under the indexes, commits the specified table or leaves the old one |
| KeyLifecycle.KeyTable.PromoteNext | kernel-core/src/auth/key_manager.rs:98-118 | promotion of the next key, or creation of a pair when there is none |
| KeyLifecycle.KeyTable.RevokeKey | kernel-core/src/auth/key_manager.rs:249-300 | the same for revocation, with promotion when the active key was revoked |
| KeyLifecycle.RotateNeverAborts | kernel-core/src/auth/key_manager.rs:56-148 | from a good table no statement of a rotation violates an index, the result is good and has an active key |
| KeyLifecycle.RevokeNeverAborts | kernel-core/src/auth/key_manager.rs:249-300 | the same for revoking any existing key |
| KeyLifecycle.IndexesNeverAbort | kernel-data/migration/src/m20250521_000001_key_management.rs:32-35 | after every serial run from the empty table: at most one active and one next key per type, next implies active, and the next rotation or revocation succeeds |
| KeyInterleaving.WaitAbortsExactlyWhen | kernel-core/src/auth/key_manager.rs:68-148 | what follows a rotation's wait for the active row aborts iff the active key of its snapshot was revoked meanwhile; otherwise it is a rotation of the table as it is now |
| KeyInterleaving.InterleavingIsSerial | kernel-core/src/auth/key_manager.rs:56-300 | every interleaving of waiting rotations, revocations and time ends in the state of a serial run without the aborted rotations |
| KeyInterleaving.RotationAbortsExactlyWhen | kernel-core/src/auth/key_manager.rs:68-148 | in every interleaving the index aborts a rotation iff the key active at its snapshot was revoked during the wait, and a rotation begun anew then succeeds |
| KeyInterleaving.RevocationAbortsWaitingRotation | kernel-core/src/auth/key_manager.rs:249-300 | from every state with an active key, revoking it while a rotation waits makes that rotation abort |
| KeyLifecycle.DoAt | kernel-core/src/auth/key_manager.rs:56-300 | a transaction may only retire an active row, activate a next one, revoke its target or prune a row retired over 48 hours ago |
| KeyLifecycle.RotateCreates | kernel-core/src/auth/key_manager.rs:150-210 | a rotation adds only generated keys, with their own secret and time, of its own type |
| KeyLifecycle.RevokeCreates | kernel-core/src/auth/key_manager.rs:249-300 | a revocation adds generated keys only to replace an active key, of its type |
| KeyLifecycle.RotationPrunes | kernel-core/src/auth/key_manager.rs:136-144 | after a rotation no key of the type retired over 48 hours ago is left |
| KeyLifecycle.AcceptedKeysAre | kernel-data/migration/src/m20250521_000001_key_management.rs:94-104 | in every reachable state the lookup accepts exactly the HMAC keys not revoked nor retired 48 hours ago |
| KeyLifecycle.ReplacedExactlyWhenDue | kernel-core/src/auth/key_manager.rs:84-148 | a rotation replaces the active key iff it has been active for 30 days; the old key is retired as of now, the next one takes over and a next key exists afterwards |
| KeyLifecycle.RevokedActiveHandsOver | kernel-core/src/auth/key_manager.rs:249-300 | revoking the active key makes the next key the one active key at once, with a new next key |
| KeyLifecycle.OneActiveKeyForever | kernel-core/src/auth/key_manager.rs:56-148 | after a type's first rotation exactly one active key of it exists in every later state |
| KeyLifecycle.RevokedForever | kernel-core/src/auth/key_manager.rs:249-300 | a revoked key stays in the table, revoked |
| KeyLifecycle.SigningKeyStaysAccepted | kernel-data/migration/src/m20250521_000001_key_management.rs:94-104 | the key active at some moment is accepted with its secret for 48 hours across all rotations and prunes unless it is revoked |
| KeyLifecycle.PruningIsUnobservable | kernel-core/src/auth/key_manager.rs:128-148 | at every later time the key lookup answers as in a system that never prunes |
| TenantTokens.TenantDatabase.WithTenantTx | kernel-data/src/connection.rs:69-164 | authorise, compare tenants, run, commit or roll back: result and database state, for every commit outcome |
| TenantTokens.TxTakesEffectExactlyWhen | kernel-data/src/connection.rs:69-164 | the closure runs iff the token is authorised, names the caller's tenant and has no empty field; its work stays iff it succeeds and the commit takes effect |
| TenantTokens.AcceptedTokenIsGenuine | kernel-data/migration/src/m20250521_000001_key_management.rs:44-136 | every accepted token is m:mac(secret, m) for the secret of an accepted HMAC key named in m, in time and with an unused nonce, and its own tenant is set |
| TenantTokens.AcceptedExactlyWhenGenuine | kernel-data/migration/src/m20250521_000001_key_management.rs:44-136 | for every token: accepted iff genuine in that sense and the internal secret is set |
| TenantTokens.SignatureIsUnique | kernel-data/migration/src/m20250521_000001_key_management.rs:106-114 | two accepted tokens that agree up to the signature are the same token |
| TenantTokens.RefusalsAre | kernel-data/migration/src/m20250521_000001_key_management.rs:60-136 | an absent token is reported missing, and a token genuine but for a used nonce is reported as used |
| TenantTokens.WindowInMilliseconds | kernel-data/migration/src/m20250521_000001_key_management.rs:81-91 | the 30 second window between the two clocks, in milliseconds on either side |
| TenantTokens.TenantIsReadExactlyWhenSigned | kernel-data/migration/src/m20240216_000001_init_rls.rs:172-198 | row-level security reads a tenant iff the settings carry that tenant's own signature |
| TenantTokens.BigintExactly | kernel-data/migration/src/m20250521_000001_key_management.rs:86-91 | a timestamp casts to n iff it is an optional sign and digits that stand for n, within range |
| TenantTokens.BigintRoundTrip | kernel-data/migration/src/m20250521_000001_key_management.rs:86-91 | a formatted timestamp casts back to itself and holds no separator |
| TenantTokens.NextPartIsSplit | kernel-data/src/connection.rs:208-214 | one cut of the iterator at the first separator yields the first of the split parts and leaves the others |
| TenantTokens.ParserTakesSixParts | kernel-data/src/connection.rs:208-226 | six cuts and a seventh that fails accept exactly the tokens of six parts, version v2 and no empty field, and name the fifth |
| TenantTokens.ParsersAgree | kernel-data/src/connection.rs:166-226 | on every token the database accepts, the iterator in Rust and the array split in SQL name the same tenant, and the Rust one refuses exactly the tokens with an empty field |
| TenantTokens.ClosureSeesOneTenant | kernel-data/src/connection.rs:69-164 | whenever the closure runs, the tenant set in the database, the one row-level security reads, the one parsed and the caller's are equal |
| TenantTokens.MintRoundTrip | kernel-core/src/auth/key_manager.rs:303-341 | a minted token splits back into the six fields it was made from |
| TenantTokens.MintedTokenAcceptedExactly | kernel-data/migration/src/m20250521_000001_key_management.rs:44-136 | after any rotations, prunes and revocations a token minted under the active key is accepted iff it is within 30 seconds, its key is not revoked, its nonce is unused and the internal secret is set |
| TenantTokens.OneCommitPerNonce | kernel-data/migration/src/m20240216_000001_init_rls.rs:48-65 | in every run, from any state where it holds, with the key table and secret changing arbitrarily between transactions, no nonce commits twice and consumed nonces stay consumed |
| Archiver.SanitizeExactly | kernel-archiver/src/main.rs:648-658 | sanitising changes nothing iff every character is in the principal alphabet, replaces exactly the others by an underscore, and leaves no slash |
| Archiver.ArchiveKeyIsInjective | kernel-archiver/src/main.rs:51-60 | rows with valid tenants and clean ids that share a key are the same row |
| Archiver.KeysCollideExactlyWhen | kernel-archiver/src/main.rs:51-60 | two rows share a key iff kind, day, sanitised tenant and sanitised id agree |
| Archiver.KeyLayout | kernel-archiver/src/main.rs:51-60 | the layout of a valid row's key: kind, tenant, year, month, day, id |
| Archiver.KeyFits | kernel-archiver/src/main.rs:51-60 | the key of a valid tenant, a UUID and a date has at most 207 characters |
| Archiver.LostReplyIsFoundLater | kernel-archiver/src/main.rs:545-583 | an upload stored but reported as failed is found by the next attempt, which lists the row without storing again |
| Archiver.MarksExactly | kernel-data/src/repository.rs:393-451 | marking archives exactly the listed rows of the tenant |
| Archiver.CrashLosesNothing | kernel-archiver/src/main.rs:317-474 | a crash loses no row and no object and leaves the archiver ready for a new cycle |
| Archiver.ArchiveStore.ArchiveItems | kernel-archiver/src/main.rs:515-583 | objects and ids after any outcomes of the calls, including a foreign row and a stop in the middle |
| Archiver.ArchiveStore.MarkArchived | kernel-data/src/repository.rs:393-414 | marking in chunks of 500 equals one update of the whole id list |
| Archiver.MarkInTwo | kernel-data/src/repository.rs:429-450 | marking two lists in turn equals marking both at once |
| Archiver.ListedHasObject | kernel-archiver/src/main.rs:515-583 | an id listed for marking has its own object in the store, also when an object was already there |
| Archiver.RunKeepsSafe | kernel-archiver/src/main.rs:317-474 | the safety invariant holds in every reachable state |
| Archiver.ArchivedRowsHaveTheirObject | kernel-archiver/src/main.rs:317-474 | after any cycles cut short anywhere, every archived row has an object at its own key holding that row |
| Archiver.ObjectsAreNeverOverwritten | kernel-archiver/src/main.rs:515-583 | an object, once stored, is the same in every later state |
| Archiver.ItemsAreArchiveItems | kernel-archiver/src/main.rs:515-583 | the item steps of a cycle leave the objects and ids that archive_items leaves on as many items |
| Archiver.FetchedExactly | kernel-data/src/repository.rs:375-387 | a fetch returns exactly the unarchived rows of the tenant among those picked |
| Archiver.CleanCycleArchives | kernel-archiver/src/main.rs:317-474 | from every reachable idle state, a cycle without failures marks exactly the picked unarchived rows of its tenant and changes no other row |
| EntityHistory.EntityRepository.CreateEntity | kernel-data/src/repository.rs:108-148 | record and history row are written together, or the specified error leaves both untouched |
| EntityHistory.EntityRepository.UpdateEntity | kernel-data/src/repository.rs:160-239 | the same for the versioned update, with its five error cases |
| EntityHistory.CreateTakesEffectExactlyWhen | kernel-data/src/repository.rs:108-148 | a create takes effect iff id, type and content are given and the id is new, and leaves that content |
| EntityHistory.UpdateTakesEffectExactlyWhen | kernel-data/src/repository.rs:160-239 | an update takes effect iff it carries the version the record has, and leaves the content sent one version on |
| EntityHistory.EffectiveVersionsIncrease | kernel-data/src/repository.rs:183-200 | in every run the versions carried by updates that take effect strictly increase, so of two with the same version at most one does |
| EntityHistory.NoLostUpdate | kernel-data/src/repository.rs:183-200 | in every run an update that takes effect overwrites exactly the record its author read |
| EntityHistory.ChainExtends | kernel-data/src/repository.rs:215-239 | an update's patch extends a history that replays to the record |
| EntityHistory.RunKeepsConsistent | kernel-data/src/repository.rs:108-287 | in every run exactly the entities with a record have a history, and it replays to the record |
| EntityHistory.HistoryOnlyGrows | kernel-data/src/repository.rs:108-287 | the history at any moment is a prefix of every later one |
| EntityHistory.HistoryReplaysEveryVersion | kernel-data/src/repository.rs:108-287 | versions are consecutive without repeats, and the rows up to any moment replay to the content the entity had then |
| EntityHistory.DeleteNeverSucceeds | kernel-data/migration/src/m20240216_000003_create_audit_tables.rs:43-55 | the foreign key refuses every delete of a record, and a missing one is not found, so no chain ends or restarts |
| StreamConsumer.AutoClaim | kernel-data/src/event/redis_consumer.rs:449-458 | one page claims only pending idle entries, all of those before the new cursor, and the cursor moves forward |
| StreamConsumer.RunConserves | kernel-data/src/event/redis_consumer.rs:225-313 | in every run every entry handed out is pending or acknowledged, and only a call on a pending entry acknowledges |
| StreamConsumer.EveryEntryIsAccountedFor | kernel-data/src/event/redis_consumer.rs:225-313 | in every run, once a missing group is recreated from the start, every published entry is still to be handed out, pending, or was acknowledged while it was pending |
| StreamConsumer.RecreateConservesExactly | kernel-data/src/event/redis_consumer.rs:225-251 | recreating a lost group at a position loses nothing iff everything before it was acknowledged |
| StreamConsumer.AcknowledgesExactly | kernel-data/src/event/redis_consumer.rs:551-582 | an acknowledgement takes exactly its entry from the pending ones and fails iff there is no group |
| StreamConsumer.BacklogIsEverything | kernel-data/src/event/redis_consumer.rs:104-117 | the backlog of a scan is every entry not handed out, of every shard |
| StreamConsumer.DrawsCoverEveryShard | kernel-data/src/event/redis_consumer.rs:323-330 | any 64 consecutive draws start at each shard exactly once, across integer wrap-around |
| StreamConsumer.ScanReaches | kernel-data/src/event/redis_consumer.rs:104-117 | the rotated scan visits every shard |
| StreamConsumer.Consumer.EnsureGroups | kernel-data/src/event/redis_consumer.rs:225-251 | every shard has a group, existing ones untouched, and no pending entry changes |
| StreamConsumer.Consumer.ReadShard | kernel-data/src/event/redis_consumer.rs:279-313 | a read that is answered and decodes returns exactly the first entries not handed out, up to the count; what it made pending is what it returns, and nothing pending is lost when it fails |
| StreamConsumer.Consumer.ScanShards | kernel-data/src/event/redis_consumer.rs:332-372 | when every read is answered and decodes, the scan returns the first max_count entries of everything not handed out, in scan order |
| StreamConsumer.Consumer.PollOnce | kernel-data/src/event/redis_consumer.rs:315-422 | when every read is answered and decodes: the first max_count of everything not handed out, or, if nothing was, the first entry to arrive at the shard it blocks on; always at most max_count, all pending, and everything the poll made pending, so truncation drops nothing |
| StreamConsumer.Consumer.ClaimShard | kernel-data/src/event/redis_consumer.rs:444-514 | the cursor loop ends, claims in order and without repeats, and unless the batch fills claims every pending idle entry of the shard; answered reads that decode always give a result |
| StreamConsumer.Consumer.ClaimPendingOnce | kernel-data/src/event/redis_consumer.rs:424-519 | at most max_count distinct claims; when fewer, every pending idle entry of every shard is claimed; no pending set changes; answered reads that decode always give a result |
| RequestTarget.Sort | kernel-core/src/idempotency.rs:26-61 | sorting permutes |
| RequestTarget.SortSorts | kernel-core/src/idempotency.rs:26-61 | the result is in order |
| RequestTarget.SortedIsUnique | kernel-core/src/idempotency.rs:26-61 | a multiset of strings has one sorted sequence |
| RequestTarget.SameQuery | kernel-core/src/idempotency.rs:26-61 | two queries canonicalise alike iff their parameters are the same multiset |
| RequestTarget.LeIsLexicographic | kernel-core/src/idempotency.rs:37-43 | parameters are ordered by their first difference, a prefix first |
| RequestTarget.CanonicalTargetIs | kernel-core/src/idempotency.rs:24-61 | the canonical target of a bare path, and of it with one slash more, is that path, followed by the parameters in order if there are any |
| RequestTarget.SameCanonicalTargetExactly | kernel-core/src/idempotency.rs:24-61 | two origin-form targets canonicalise alike iff their paths are equal or differ in one slash after a bare path, and their parameters are the same multiset |
| Allowlist.Build | kernel-runtime/src/lib.rs:169-210 | one pass yields the host set, the rule list, an index holding each rule in its own bucket and nothing else, and the resolver's hosts |
| Allowlist.AddKeepsIndexed | kernel-runtime/src/lib.rs:179-190 | adding a rule keeps the index exact |
| Allowlist.RulesHavePorts | kernel-runtime/src/lib.rs:101-119 | every rule from an http or https entry has a port, so all are indexed |
| Allowlist.IndexAgreesWithScan | kernel-runtime/src/lib.rs:217-245 | for every allowlist and URL the bucketed lookup decides as the linear scan |
| Allowlist.AllowedHostsResolve | kernel-runtime/src/lib.rs:212-245 | the host of an allowed URL passes contains_host |
| Allowlist.PathMatchesWholeSegments | kernel-runtime/src/lib.rs:121-136 | a rule path without trailing slash matches exactly the paths whose segments begin with its own |
| Allowlist.SlashPathMatchesPrefix | kernel-runtime/src/lib.rs:121-136 | a rule path that ends in a slash matches by plain prefix |
| Allowlist.RootMatchesEverything | kernel-runtime/src/lib.rs:107-125 | the root path, and a rule written without a path, match everything |
| Allowlist.DefaultPortsAreTheSchemes | kernel-runtime/src/lib.rs:101-158 | a rule without a port stands for port 80 of http and 443 of https |
| Allowlist.LowerHasNoCapitals | kernel-runtime/src/lib.rs:113-141 | schemes are compared without regard to ASCII case |

## Left out

- Redis, Postgres, S3 and HTTP clients: each command, script or statement is one atomic effect, and failures are steps or outcome parameters.
- SHA-256, HMAC, PASETO, XxHash64 sharding, gzip and JSON encoding: functions passed as parameters, with the assumption used (a hexadecimal MAC, the RFC 6902 patch law) stated as a requires clause.
- Floating-point rounding and number formatting in the quota scripts: the arithmetic is over reals, on one clock that does not go back, with one configuration per key.
- The string formats of Redis keys and of the in-flight lease value: keys and values are datatypes.
- Interleavings of key transactions other than a rotation waiting at its first SELECT: that everything else is serial is an assumption, on the grounds that rotations of one type hold an advisory lock and the later statements work on rows the transaction has locked.
- Interleavings of tenant transactions: they are serial by assumption; the unique index on nonces is what orders two that share one. Nonces are never deleted.
- Casts to bigint accept optional sign and decimal digits only: surrounding blanks, hexadecimal and underscore forms that Postgres also takes are not modelled.
- OrderedDelivery counts an event as applied when its replay is confirmed; a caller that applied it earlier must be idempotent at its apply site, as recover_gap notes. Only committed rows are ever delivered.
- ChannelListeners: a cancelled registration is modelled only in `CancelledRegistrationDeafens`. `WokenExactlyWhen` speaks of runs in which the key is not acquired again, the waiter's GET succeeds and the listener keeps its connection.
- StreamConsumer: one consumer polls at a time, streams are not trimmed, and the group cache is left out because group creation is idempotent.
- The absolute-form branch of request-target canonicalisation and `Url::parse`: URLs arrive parsed, and host normalisation is a parameter of the allowlist.
- Replayed headers: a replay is compared by status and body only, since repeated header names keep their last value.
- The check in generate_tenant_token that a context may mint for the tenant: one comparison.
- The action store, the in-memory quota store and the environment loader of the middleware: single-branch code.
- The archiver's token recovery, object lock settings and privileged audit record: they do not touch the rows or objects.
- Deno and Wasm runtimes and their watchdogs: the behaviour is that of a foreign engine.
- The text sanitizer and the linters: they are regular expressions, and renaming a sanitised key can meet an existing one.
- Manifests, trust roots, PASETO keysets, the revocation overlay, RBAC, diagnostics and routing: each decision is a comparison or two with no state that a later call depends on.
