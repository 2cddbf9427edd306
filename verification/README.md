# Kuybi: proofs about its concurrent protocols and algorithms

Kuybi is a NestJS backend. This project models the parts of it whose guarantees rest on the
order of concurrent steps, and a few self-contained algorithms, and proves what they promise.
`dafny verify dfyconfig.toml` checks everything.

| file | what it models |
|---|---|
| `TagCache.dfy` | the two Redis scripts of the tag-invalidated cache, with TTLs, tag sets and fence records |
| `CacheCoherence.dfy` | fills, commits, invalidations and clock ticks of many processes, interleaved |
| `CachedRepository.dfy` | `BaseRepository` as one process runs it |
| `DirectUpload.dfy` | completing a direct upload against a client that keeps writing, and the clean-up |
| `Visibility.dfy` | the ACL of stored objects against the row's flags, while a worker processes the image |
| `Idempotency.dfy` | claims, heartbeats, takeovers and outcomes of idempotency keys |
| `Outbox.dfy` | the outbox relay: disjoint batches, crashes, timeouts, bounded retries, the drain loop |
| `CircuitBreaker.dfy` | the breaker with generations, its calls starting and settling in any order |
| `Throttler.dfy` | the Redis rate-limit script over whole traces |
| `ModuleGraph.dfy` | the depth-first search for module cycles |
| `CanonicalJson.dfy` | the canonical printer behind the request fingerprint |
| `JsonReader.dfy` | a JSON reader, which gives back what the printer printed |
| `RecordScope.dfy`, `AbilityFactory.dfy` | permission rules, and their translation to a database filter |
| `Renumbering.dfy` | the SQL renumbering of duplicate story versions |
| `Utf8Tail.dfy` | the trimming of a text head cut at an arbitrary byte |

How the protocols are modelled. A `System` holds the shared state and every process's position;
an `Action` is one atomic step (a script, a conditional SQL statement, a commit, a storage call,
the synchronous code between two awaits, a clock tick, a crash). `Runs` is a sequence of enabled
steps in any interleaving, `Final` the state it reaches, `Inv` what every step keeps. Code that
changes fields is also written as a class, statement by statement, and proved against the same
specification functions. Time is one integer clock in milliseconds. A Redis key is live while the
clock is before its expiry.

## What turned out false

- **A write that reaches no tag.** The comment at `base.repository.ts:15-19` says that every write
  through a repository invalidates the tag of each row it changes, so entries of other
  repositories that embed the row are dropped. Two kinds of write do not.
  - `transaction()` without `touched` invalidates only its own entity's tag (lines 306-311), which
    an entry that embeds one of its rows does not carry. `OpenTransactionLeavesStaleEntry` is a run
    that ends with nothing left to invalidate and a stale entry; in `OpenTransactionLeavesStaleFill`
    the value is only loaded when the transaction runs and is stored stale afterwards.
  - `delete()` (lines 251-255) invalidates the row it names, and the database changes others: the
    foreign key of `stories.parentId` is ON DELETE SET NULL (`story.entity.ts:107-110`, line 426 of
    the baseline migration). `DeleteLeavesStaleChild`: after a parent is deleted
    (`story-lifecycle.service.ts:58`) the cached child still names it, with nothing left to
    invalidate.

  A write of the model therefore commits any table. `WriteExactly`: after any write to an
  up-to-date cache, with its tags invalidated in any order, every careful future is right exactly
  when nothing that the write affects is left, as a live entry that no invalidated tag's set holds
  or as a loaded value that would still be stored. `CommitKeepsInvExactly` is the condition for a
  commit at any moment, which the run theorems ask for. `NamedChangesLeaveNothingStale`: a write
  that changes only the rows it names meets it, `transaction()` without `touched` if no entry embeds
  a changed row.
- **Fractional TTLs.** `setWithTags` promises never to leave an entry without its tags, but `ttl`
  need not be whole, and `EXPIRE` rejects a fraction after the entry was written.
  `FractionalTtlLeavesEntryUntagged` is an input. `TrackedExactly`: every tag's set holds the key
  until the entry expires exactly when the TTL is whole seconds, or the sets from the first one
  that needs `EXPIRE` on suffice as they were before the call. A set left without a TTL is given one
  of at least 301 s by the tag's next entry, so it holds a key for good exactly when the key's entry
  ends within that time (`HeldForGoodExactly`, for every schedule of later entries;
  `UntimedSetIsCutShort` is an input). The run theorems ask for the sets to hold their keys for good.
- **How late a script may run.** The code bounds the load (60 s), not the script after it.
  `ScriptLimitExactly`: the cache is right in every careful run whose scripts run less than `limit`
  after their fences exactly when `limit` is at most the 300 s a fence record is kept.
- **The attempt's age does not bound an idempotency key.** A takeover does not extend `expiresAt`,
  so an attempt much younger than the TTL can run beside a request that found the record expired
  (`YoungAttemptsMayOverlap`). Exclusion holds while the *record* has not expired and the lease is
  renewed (`HandlersExcludeEachOther`); `SecondHandlerExactly` is the exact condition.
- **A kept upload may lose its object.** `reject()` deletes the attachment's own key; when storage
  does not answer the delete and the rejection then fails too, the upload is pending again, and the
  delete may still land after a later completion was kept (`KeptVersionMayBeLost`).
  `LateDeleteLosesExactly`: a delete that lands leads to a kept upload without an object exactly
  when the upload is kept by then or a completion has copied its version and not yet let go.
- **A failed image may be public.** Marking the row `completed` and applying the ACLs are two steps
  (`attachment.processor.ts:119-131`). An owner may publish the file in between; when the database
  then fails, the row says `failed` and its objects stay public (`FailedFileMayStayPublic`; they are
  the processed copies, never the raw image). `FailApplyExactly`: the failure breaks the rule
  exactly when an object is public at that moment.
- **The filter may miss allowed records** when a rule does not translate or stands below a
  "cannot" (`MissedExactly`); it never selects a forbidden one. Empty conditions `{}` match every
  record in the per-record check and none in the filter; `createForUser` never produces them.
- **A head may be accepted although no text starts with it** (`AcceptedHeadMayStartNoText`): the
  trimming looks only at the length a first byte asks for, so it drops as cut-off what no character
  starts with (0xf8, 0xc0) or goes on with (0xe0 0x80, 0xed 0xa0, 0xf0 0x80, 0xf4 0x90).
  `HeadStartsTextExactly`: a text file starts with the head exactly when it is accepted and the
  dropped bytes begin a character.

## Model

| member | source | states |
|---|---|---|
| TagCaching.TrackOutlivesEntry | src/core/cache/services/cache.service.ts:45-50 | recording a key under a tag leaves a set that outlives the entry, although Redis reports TTLs in rounded seconds |
| TagCaching.TrackKeeps | src/core/cache/services/cache.service.ts:46-50 | tag sets only grow: no member is lost and no expiry moves earlier than an entry it covers |
| TagCaching.TrackFirstRecords | src/core/cache/services/cache.service.ts:45-50 | a loop without error leaves every tag's set holding the key for as long as the entry lives |
| TagCaching.StoredExactly | src/core/cache/services/cache.service.ts:143-178 | the entry is reported as stored exactly when it is not refused and its TTL is whole seconds or every tag's set is long enough already |
| TagCaching.RefusedExactly | src/core/cache/services/cache.service.ts:33-43 | a store is refused exactly when one of its tags carries a live number newer than the fence; the key is then dropped and nothing stored; no other key ever changes |
| TagCaching.InvalidatedExactly | src/core/cache/services/cache.service.ts:59-65 | an invalidation drops exactly the members of the tag's live set, and stamps the tag with the next number for five minutes |
| TagCaching.TrackedExactly | src/core/cache/services/cache.service.ts:137-142 | never an entry without its tags: every tag's set holds the key until the entry expires, for now or for good, exactly when the TTL is whole seconds or the sets suffice as they were |
| TagCaching.HeldForGoodExactly | src/core/cache/services/cache.service.ts:45-50 | a set holds a key for good, that is through whatever entries of the tag are stored while its entry lives, exactly when its TTL covers the entry or it has none and the entry ends within 301 s |
| TagCaching.UntimedSetIsCutShort | src/core/cache/services/cache.service.ts:45-50 | an input: the set of a 1000.5 s entry is left without a TTL, the next entry gives it 301 s, and the first entry outlives it |
| TagCaching.StoredIsTracked | src/core/cache/services/cache.service.ts:26-27 | with a whole-second TTL the entry is in each tag's set until it expires |
| TagCaching.OthersStayTracked | src/core/cache/services/cache.service.ts:45-50 | storing one entry drops no other entry from a set it is tracked in |
| TagCaching.FractionalTtlLeavesEntryUntagged | src/core/cache/services/cache.service.ts:150-151 | a fractional TTL on an empty cache leaves a live entry that the invalidation of one of its tags does not delete |
| TagCaching.TagCache.Fence | src/core/cache/services/cache.service.ts:116-135 | the number that tells past from future: no invalidation so far refuses a fill with it, the next one of any of its tags does |
| TagCaching.TagCache.SetWithTags | src/core/cache/services/cache.service.ts:33-51 | the script's statements do what the interleaved model takes as one step, including the error half way |
| TagCaching.TagCache.InvalidateTag | src/core/cache/services/cache.service.ts:59-65 | every member of the tag's set is deleted and the tag stamped with the next number; the count is that of the set |
| CacheCoherence.CacheTagsAre | src/core/database/repositories/base.repository.ts:105-120 | exactly which tags a value carries: entity, row or list, both for a selection, and every embedded row |
| CacheCoherence.LoadChangesExactly | src/core/database/repositories/base.repository.ts:41-51 | whatever a write does to the table, a cached value is still what its load returns exactly when the write changes neither its row, nor an embedded row, nor which row or list the query gives |
| CacheCoherence.UnreachedLoadsStay | src/core/database/repositories/base.repository.ts:41-51 | a write that changes only what it names does not change what an entry's query returns when the entry carries none of its tags and, without `touched`, embeds no changed row |
| CacheCoherence.CommitKeepsInvExactly | src/core/database/repositories/base.repository.ts:212-313 | a commit of any change to the table, at any moment, keeps the cache contract exactly when it leaves no live entry, and no value about to be stored, stale without an invalidation to come |
| CacheCoherence.NamedChangesLeaveNothingStale | src/core/database/repositories/base.repository.ts:15-19 | create, update, delete, save and transaction() leave nothing of the kind when they change only the rows they name; without `touched`, when besides no entry embeds a changed row |
| CacheCoherence.InvalidateKeepsInv | src/core/cache/services/cache.service.ts:59-65 | an invalidation may be crossed off: no entry or fill still depends on it |
| CacheCoherence.StampedIsRefused | src/core/cache/services/cache.service.ts:35-43 | a fill one of whose tags was stamped after its fence is refused until 300 s after the fence |
| CacheCoherence.StoreKeepsInv | src/core/cache/services/cache.service.ts:33-51 | storing a loaded value within 300 s of its fence keeps the cache contract, whatever was written and invalidated since |
| CacheCoherence.CacheAgreesWithTable | src/core/database/repositories/base.repository.ts:41-55 | in every interleaving, when no write is between its commit and its last invalidation, every live entry is what its load returns now |
| CacheCoherence.StaleEntriesAreAwaited | src/core/database/repositories/base.repository.ts:80-99 | at every moment a stale live entry carries a tag some committed write still has to invalidate |
| CacheCoherence.ExpiryNeverLosesAnEntry | src/core/cache/services/cache.service.ts:26-27 | at every clock tick each live entry is in the live set of each of its tags, whatever was committed and however late scripts ran |
| CacheCoherence.LateFillIsRefused | src/core/cache/services/cache.service.ts:67-68 | an invalidation between fence and script refuses the fill whatever happens in between, for scripts within 300 s of the fence |
| CacheCoherence.ScriptLimitExactly | src/core/database/repositories/base.repository.ts:92-97 | the cache is right in every careful run whose scripts run less than a limit after their fences exactly when the limit is at most 300 s |
| CacheCoherence.WriteExactly | src/core/database/repositories/base.repository.ts:212-313 | after any write to an up-to-date cache and the invalidation of its tags in any order, every careful future is right, and the contract kept, exactly when nothing that the write affects is left behind, stored or about to be |
| CacheCoherence.WriteRun | src/core/database/repositories/base.repository.ts:326-331 | the run that commits the write and invalidates each of its tags once ends in the state WriteExactly speaks of |
| CacheCoherence.DeleteLeavesStaleChild | src/core/database/repositories/base.repository.ts:251-255 | a run in which delete() of a parent story leaves the cached child naming it, with nothing left to invalidate |
| CacheCoherence.OpenTransactionExactly | src/core/database/repositories/base.repository.ts:301-313 | transaction() without `touched` that changes rows of its entity only: every careful future is right, and the contract kept, exactly when nothing it leaves behind, stored or about to be, embeds a changed row |
| CacheCoherence.OpenTransactionLeavesStaleEntry | src/core/database/repositories/base.repository.ts:306-311 | a run in which it leaves a stale entry with nothing left to invalidate |
| CacheCoherence.OpenTransactionLeavesStaleFill | src/core/database/repositories/base.repository.ts:89-97 | a run in which the value loaded before it is stored stale after it |
| CachedRepositories.CachedRepository.Cached | src/core/database/repositories/base.repository.ts:80-99 | alone, cached() always returns what the query returns now, stores it for its TTL, and changes nothing on a hit |
| CachedRepositories.CachedRepository.InvalidateRowAndLists | src/core/database/repositories/base.repository.ts:326-331 | the list tag and the row tag are invalidated and no longer awaited, and the contract is kept |
| CachedRepositories.CachedRepository.Apply | src/core/database/repositories/base.repository.ts:212-313 | whatever the write does to the table, once its invalidations are through the cache agrees with the table again exactly when it was harmless in the sense of WriteExactly |
| DirectUploads.OnlyVerifiedBytesAreKept | src/modules/attachments/services/direct-upload.service.ts:127-224 | whatever the client puts at the upload key and whenever, a kept upload has at its own key a version of the declared size whose head passed validation, unless a late delete took it; nothing else is ever there |
| DirectUploads.LateDeleteLosesExactly | src/modules/attachments/services/direct-upload.service.ts:240-248 | a late delete of the attachment's own key leads to a kept upload without its object exactly when the upload is kept, or copied by a completion that still holds it |
| DirectUploads.KeptVersionMayBeLost | src/modules/attachments/services/direct-upload.service.ts:226-248 | a run in which a kept upload loses its object to the delete of an earlier rejection that was rolled back |
| DirectUploads.ClaimsAreExclusive | src/modules/attachments/services/direct-upload.service.ts:133-137 | at most one completion holds an upload, and the row is neither pending nor gone meanwhile |
| DirectUploads.HolderExcludesOthers | src/modules/attachments/repositories/attachment.repository.ts:160-167 | while one completion holds the upload no step of another one changes row, objects or messages |
| DirectUploads.OneProcessingMessage | src/modules/attachments/services/direct-upload.service.ts:195-224 | at most one PROCESS_IMAGE message is ever enqueued, and only with the row in processing |
| DirectUploads.CleanupSparesClaimedUploads | src/modules/attachments/services/direct-upload.service.ts:261-284 | the clean-up deletes objects only once the row is gone and no completion holds it |
| DirectUploads.Upload.Complete | src/modules/attachments/services/direct-upload.service.ts:127-238 | exactly which answer each combination of client writes and failing calls gets: done when a good version was measured and not replaced up to the copy, rejected for a bad one, conflict when there was none or it was swapped; done keeps the version that was checked, and after a conflict or a failure the upload can be completed again unless the revert failed too |
| DirectUploads.DecisionIsFinal | src/modules/attachments/services/direct-upload.service.ts:240-259 | over all runs a rejected upload is never claimed or kept, a kept one never rejected or enqueued again, a deleted one stays gone |
| DirectUploads.UploadCleaner.RemoveAbandoned | src/modules/attachments/services/direct-upload.service.ts:266-284 | exactly the listed uploads that are still pending lose their row and, but for deletes storage refuses, their objects; the result counts the rows |
| Visibility.RawImageIsNeverPublic | src/modules/attachments/services/attachment-visibility.service.ts:9-13 | in no interleaving of owners and worker, failing or not, is an unprocessed image public |
| Visibility.AclFollowsRow | src/modules/attachments/services/attachment-visibility.service.ts:15-20 | with nothing in flight an object is public exactly when the row names it and is public, not deleted and processed; in every interleaving in which no run fails with its file already public |
| Visibility.PublicOnlyOnRequest | src/modules/attachments/services/attachment-visibility.service.ts:39-44 | in those interleavings, at any moment a public object belongs to a row that is, or is just being made, public |
| Visibility.FailApplyExactly | src/modules/attachments/jobs/attachment.processor.ts:131-153 | a database failure after the row said completed keeps the ACLs in step with the row exactly when no object is public by then |
| Visibility.FailedFileMayStayPublic | src/modules/attachments/jobs/attachment.processor.ts:119-153 | a run in which an owner publishes the file just before such a failure, and the failed file stays public |
| Visibility.StorageKeyList | src/modules/attachments/services/attachment-visibility.service.ts:109-119 | the image, the thumbnail, every other thumbnail and the placeholder, each once, and nothing else |
| Visibility.MergedExactly | src/modules/attachments/jobs/attachment.processor.ts:119-125 | of each kind of stored name a run found replaces what was there, what it did not find stays, and so do the flags |
| Visibility.AttachmentStore.SetVisibility | src/modules/attachments/services/attachment-visibility.service.ts:45-66 | flag and ACLs change together, an unprocessed file's ACL not at all, and forced-public categories refuse |
| Visibility.AttachmentStore.SoftDelete | src/modules/attachments/services/attachment-visibility.service.ts:72-79 | no object of a deleted file is public |
| Visibility.AttachmentStore.Restore | src/modules/attachments/services/attachment-visibility.service.ts:82-89 | the objects get the row's visibility back |
| Visibility.AttachmentStore.ProcessImage | src/modules/attachments/jobs/attachment.processor.ts:75-188 | a processed file has no raw object left and its ACLs follow the row; a run that fails anywhere leaves everything private and says what remains of the row; a row deleted for good meanwhile leaves none of its objects |
| IdempotencyKeys.OneHashOneOutcome | src/core/idempotency/idempotency.service.ts:38-131 | over all runs every start and replay of a record carries one request hash, and at most one outcome is stored, which every replay returns |
| IdempotencyKeys.SupersededForever | src/core/idempotency/idempotency.service.ts:72-93 | a lock that lost its key never holds it again |
| IdempotencyKeys.OnlyTheHolderActs | src/core/idempotency/idempotency.service.ts:95-136 | renew, complete and release of any attempt but the holder change nothing |
| IdempotencyKeys.LateDeleteSparesNewClaim | src/core/idempotency/idempotency.service.ts:56-61 | a late delete of an expired record never removes a newer claim of the key |
| IdempotencyKeys.HandlersExcludeEachOther | src/core/idempotency/idempotency.interceptor.ts:50-72 | while the handlers of one key renew within the lease and their records are unexpired, no two of them run at once, whatever crashes and whatever attempts for other keys do |
| IdempotencyKeys.YoungAttemptsMayOverlap | src/core/idempotency/idempotency.service.ts:79-93 | a run in which two young, well-renewed attempts of one key overlap, because a takeover does not extend the record |
| IdempotencyKeys.SecondHandlerExactly | src/core/idempotency/idempotency.service.ts:38-93 | beside a handler that holds its key, the steps of a new request can lead to a second running handler exactly when the record expired, or the lease ran out and the request is the same |
| IdempotencyKeys.LoneAttemptEndsAsBegin | src/core/idempotency/idempotency.service.ts:38-70 | in any state, the steps of a new attempt with no others in between leave the table as begin() does and end as it answers: running under that record and lock, or over with the replay it gave |
| IdempotencyKeys.BeginAnswersExactly | src/core/idempotency/idempotency.service.ts:38-93 | told from the record alone: an unexpired record is a mismatch exactly for another hash, a replay of its outcome exactly when completed, a takeover exactly when in progress past its lease, in progress otherwise; a missing or expired one is claimed afresh for a day |
| IdempotencyKeys.HolderSettles | src/core/idempotency/idempotency.service.ts:115-136 | a holder's outcome is stored on its record, and a holder's release leaves the key unclaimed |
| IdempotencyKeys.PruneTakesTheExpired | src/core/idempotency/idempotency.service.ts:139-142 | pruning removes records whose expiry has passed and changes no other |
| IdempotencyKeys.IdempotencyService.Begin | src/core/idempotency/idempotency.service.ts:38-70 | two rounds are enough when nothing interferes: start, takeover, replay, mismatch and in-progress each exactly when promised |
| IdempotencyKeys.IdempotencyService.RenewLock | src/core/idempotency/idempotency.service.ts:99-109 | true exactly for the holder, who cannot be taken over for a whole lease |
| IdempotencyKeys.IdempotencyService.StoreOutcome | src/core/idempotency/idempotency.service.ts:115-131 | true exactly for the holder, and nothing more can be stored under that lock |
| IdempotencyKeys.IdempotencyService.ReleaseKey | src/core/idempotency/idempotency.service.ts:134-136 | the holder's key may be claimed again; anyone else's release changes nothing |
| Outbox.MessagesAreConserved | src/core/outbox/outbox-relay.service.ts:24-36 | after any run with any crashes a committed message is in the table or was pruned after its job was accepted with its payload; unsent rows keep their payload, sent rows hold none; failed means ten attempts |
| Outbox.WorkersHoldDisjointBatches | src/core/outbox/outbox-relay.service.ts:80-91 | no two workers hold the same message |
| Outbox.TenFailuresTakeTime | src/core/outbox/outbox-relay.service.ts:19-22 | a message is parked as failed no sooner than 810 seconds after its first failure |
| Outbox.BackoffsAre | src/core/outbox/outbox-relay.service.ts:19-22 | 2 s, 4 s, and so on up to 256 s, then 5 minutes |
| Outbox.EnqueuedIsDueAfterDelay | src/core/outbox/outbox.service.ts:33-43 | an enqueued message is pending with its payload, and due exactly from the end of its delay |
| Outbox.MessageWaitsUntilDue | src/core/outbox/outbox-relay.service.ts:82-91 | over all runs nobody claims or changes a waiting message before its delay or backoff is over |
| Outbox.DispatchedIsQueued | src/core/outbox/outbox-relay.service.ts:24-36 | over all runs the job of a dispatched message is in the queue with its payload until the job is done |
| Outbox.PruneTakesOldDispatched | src/core/outbox/outbox-relay.service.ts:157-165 | pruning removes exactly what was dispatched before its cutoff, at least a week ago |
| Outbox.SavedBatchUsesAttempts | src/core/outbox/outbox-relay.service.ts:93-101 | every saved non-empty batch lowers the total of attempts left |
| Outbox.RestOfBatchIsUntouched | src/core/outbox/outbox-relay.service.ts:93-96 | rows after a timed-out one are saved as they were, without spending an attempt |
| Outbox.DispatchKeepsMessage | src/core/outbox/outbox-relay.service.ts:105-146 | one dispatch keeps a message's accounts: payload, attempts and the spacing of its failures |
| Outbox.DispatchExactly | src/core/outbox/outbox-relay.service.ts:105-146 | field by field: an accepted message is stamped and stripped of its payload; any other spends an attempt and waits its backoff, or is parked after the tenth |
| Outbox.OutboxMessage.DispatchOne | src/core/outbox/outbox-relay.service.ts:105-146 | the statements do what the interleaved model takes as one dispatch; false exactly on a time-out |
| Outbox.DispatchBatchAt | src/core/outbox/outbox-relay.service.ts:93-96 | a row of a batch is dispatched exactly when none before it timed out |
| Outbox.OutboxRelay.ClaimBatch | src/core/outbox/outbox-relay.service.ts:82-91 | at most 50 due rows, each once, earliest first, and none earlier left out |
| Outbox.OutboxRelay.RelayBatch | src/core/outbox/outbox-relay.service.ts:80-102 | the table afterwards is the claimed batch dispatched in order; the result counts what was claimed |
| Outbox.LastBatchClearsDue | src/core/outbox/outbox-relay.service.ts:65-67 | after a batch that is not full and was answered, no message is due |
| Outbox.OutboxRelay.Drain | src/core/outbox/outbox-relay.service.ts:61-77 | the drain loop ends, whatever the clock says each round, and when the queue answers in the last one no message is due after it |
| CircuitBreaking.ProbesAreCounted | src/shared/utils/resilience.ts:28-101 | for every interleaving the probe counter is the number of unsettled calls of a half-open generation, within the limit, and zero otherwise; no unsettled call belongs to an open generation |
| CircuitBreaking.StateFollowsHistory | src/shared/utils/resilience.ts:18-27 | for every interleaving the state is the one that the history of the calls prescribes, which counts its phases and who belongs to them by itself; the generation is the number of the phase |
| CircuitBreaking.CallsRunExactly | src/shared/utils/resilience.ts:51-65 | for every interleaving, told from the history alone: a call is let through exactly while closed, while half-open with fewer unsettled calls of the phase than probes allowed, or once an open phase is over |
| CircuitBreaking.SettlesExactly | src/shared/utils/resilience.ts:64-101 | for every interleaving: what a settlement does to a closed and a half-open circuit, and that one of an earlier phase does nothing |
| CircuitBreaking.SettlementFollowsHistory | src/shared/utils/resilience.ts:79-101 | the counters decide each settlement as the history does: threshold failures in a row open, enough probes and no failure close |
| CircuitBreaking.TrailingCounts | src/shared/utils/resilience.ts:87-92 | the failure counter reaches n exactly when the last n settlements failed |
| CircuitBreaking.OpenStaysShut | src/shared/utils/resilience.ts:51-55 | until nextAttemptTs no call starts and late settlements change nothing |
| CircuitBreaking.CircuitBreaker.Begin | src/shared/utils/resilience.ts:51-62 | the code before the call, as one atomic step |
| CircuitBreaking.CircuitBreaker.Finish | src/shared/utils/resilience.ts:64-76 | the code after the call, as one atomic step; a call of an earlier generation leaves every field unchanged |
| Throttling.WindowHoldsLimit | src/core/throttling/redis-throttler.storage.ts:14-20 | in every trace, a pass and the one `limit` later are in different windows: at most `limit` pass in one |
| Throttling.FewPassesInAnyInterval | src/core/throttling/redis-throttler.storage.ts:9-22 | in every trace at most 2 x limit - 1 calls pass in any half-open interval as long as the window, none with limit 0 |
| Throttling.BoundIsReached | src/core/throttling/redis-throttler.storage.ts:9-22 | for every positive limit and every window longer than a millisecond, a trace that reaches that bound |
| Throttling.NonePassesWhileBlocked | src/core/throttling/redis-throttler.storage.ts:10-13 | after a call exceeds the limit none passes until the block duration is over, and each refusal says how long that is |
| Throttling.ExceedsOnlyPastLimit | src/core/throttling/redis-throttler.storage.ts:14-20 | a call exceeds the limit only after `limit` calls passed within the last window length, in the window still open |
| Throttling.RepliesFollowHistory | src/core/throttling/redis-throttler.storage.ts:9-22 | each reply of a trace told from the times of its calls alone: whether it is refused, how many calls its open window has counted, when the window and the block end |
| Throttling.RedisThrottler.RunScript | src/core/throttling/redis-throttler.storage.ts:9-22 | the script's statements do what the traces take as one step |
| Throttling.RedisThrottler.Increment | src/core/throttling/redis-throttler.storage.ts:46-75 | a client told to wait finds the block over after that many seconds, and still on one second earlier; the hits are the script's and the window's end is rounded up to whole seconds |
| ModuleGraph.ModuleSearch.Search | scripts/check-module-graph.js:50-64 | every reported list is a cycle that repeats no module, no edge closes two of them, every cycle has an edge closing a reported one, nothing is reported exactly for acyclic graphs, and then the finish order is topological |
| ModuleGraph.ModuleSearch.Visit | scripts/check-module-graph.js:53-63 | the search terminates and leaves the module done, with the stack as it was |
| ModuleGraph.EveryCycleIsReported | scripts/check-module-graph.js:50-64 | a cycle none of whose edges was reported would go back in the finish order forever |
| CanonicalJson.TextsEqualExactly | src/core/idempotency/idempotency.interceptor.ts:194-203 | two values print alike exactly when they are equal up to object key order |
| JsonReading.PrintedIsReadBack | src/core/idempotency/idempotency.interceptor.ts:194-203 | the printed text is JSON: a reader of RFC 8259 gets back the same value, with the keys of every object in order |
| JsonReading.ValueIsRead | src/core/idempotency/idempotency.interceptor.ts:194-203 | whatever follows it, a printed value is read to its end and no further |
| CanonicalJson.AtMostExactly | src/core/idempotency/idempotency.interceptor.ts:197-198 | keys are ordered by the first code unit that differs, a beginning before its continuation |
| CanonicalJson.EscapesAre | src/core/idempotency/idempotency.interceptor.ts:199-199 | the short escapes, the four lower-case hexadecimal digits of the other controls and of lone surrogates, and everything else as it is |
| CanonicalJson.FingerprintDeterminesRequest | src/core/idempotency/idempotency.interceptor.ts:178-181 | printed query followed by printed body is equal exactly when both query and body are |
| CanonicalJson.PrefixFree | src/core/idempotency/idempotency.interceptor.ts:194-203 | no printed value is a proper prefix of another |
| CanonicalJson.QuoteUnique | src/core/idempotency/idempotency.interceptor.ts:199-199 | a quoted key ends where it seems to end: it determines the string and the rest of the text |
| CanonicalJson.SameKeysSortAlike | src/core/idempotency/idempotency.interceptor.ts:197-198 | objects with the same keys print them in the same order |
| RecordScoping.RecordScope | src/modules/acl/abilities/record-scope.ts:27-48 | the loop with its break and early return gives the filter the theorems below are about |
| RecordScoping.SelectsExactly | src/modules/acl/abilities/record-scope.ts:18-26 | a record is selected exactly when a translatable rule before the first "cannot" matches it |
| RecordScoping.SelectsByRules | src/modules/acl/abilities/record-scope.ts:18-48 | told from the rules as written: a record is selected exactly when a "can" for the action and subject, unconditional or with only plain conditions on the columns that it meets, has no "cannot" for them written after it |
| RecordScoping.AllowedByRules | src/modules/acl/abilities/record-scope.ts:13-26 | the per-record check: the last rule written that concerns the action and matches is a "can" |
| RecordScoping.SelectedIsAllowed | src/modules/acl/abilities/record-scope.ts:18-26 | a selected record passes the per-record check, for every rule list and record |
| RecordScoping.MissedExactly | src/modules/acl/abilities/record-scope.ts:36-45 | exactly which allowed records the filter leaves out |
| RecordScoping.PlainRulesAgree | src/modules/acl/abilities/record-scope.ts:18-26 | without a "cannot" and with conditions that translate, filter and check agree on every record |
| RecordScoping.FilterMayMissAllowedRecords | src/modules/acl/abilities/record-scope.ts:36-45 | rule lists showing that a "cannot" or empty conditions may or may not make them differ |
| Abilities.LiveRoles | src/modules/acl/entities/live-roles.ts:13-27 | the roles set one after the other are those held now |
| Abilities.LiveRolesAre | src/modules/acl/entities/live-roles.ts:7-12 | each held role counts once, as the copy held last under its id, and no other role counts |
| Abilities.HeldExactly | src/modules/acl/entities/live-roles.ts:3-27 | a role counts exactly when it is active, not deleted, and the primary role or given by an active assignment not expired |
| Abilities.LiveRolesInOrder | src/modules/acl/entities/live-roles.ts:18-26 | the live roles stand in the order in which their ids are first held |
| Abilities.CreateForUser | src/modules/acl/abilities/ability.factory.ts:47-92 | the nested loops give the rule list the theorems below are about |
| Abilities.RulesForUserAre | src/modules/acl/abilities/ability.factory.ts:60-91 | the rules of anyone but a super-admin are exactly those that carry action, subject, inversion and conditions of a live role's permission that is no field-limited grant, with the user's id for the placeholder |
| Abilities.RulesKeepOrder | src/modules/acl/abilities/ability.factory.ts:60-91 | rules stand in the order of the permissions they come from |
| Abilities.InterpolateConditions | src/modules/acl/abilities/ability.factory.ts:101-119 | the placeholder is replaced at the top level, everything else kept in order |
| Abilities.SuperAdminSeesEverything | src/modules/acl/abilities/ability.factory.ts:55-58 | whoever holds the super-admin role, as the copy held last under its id, gets the full scope for every action, subject and choice of columns |
| Abilities.UnrestrictedExactly | src/modules/acl/abilities/ability.factory.ts:53-58 | a principal is unrestricted exactly when the copy held last of some role is named super-admin |
| Abilities.GuestsSeeNothing | src/modules/acl/abilities/ability.factory.ts:48-51 | without a user nothing is allowed or selected |
| Abilities.SelectedIsGranted | src/modules/acl/abilities/ability.factory.ts:60-91 | anyone else is shown a record only through a grant of a live role for that action and subject, unlimited by fields, whose conditions the record meets with the user's own id |
| Abilities.FieldLimitedGrantsGiveNothing | src/modules/acl/abilities/ability.factory.ts:77-82 | a field-limited grant changes nothing, wherever it stands |
| Abilities.CannotDeniesTheWholeSubject | src/modules/acl/abilities/ability.factory.ts:77-82 | the highest-ranking "cannot" for the action and subject denies every record that meets its conditions, field-limited or not |
| Abilities.OwnersSeeTheirOwn | src/modules/acl/abilities/ability.factory.ts:69-75 | a grant on `${userId}` selects exactly the user's own records |
| Renumbering.RenumberedIsUnique | src/database/migrations/1792497997440-UniqueStoryVersionNumbers.ts:13-36 | whatever the table was, afterwards the unique index can be created |
| Renumbering.OldestKeepsNumber | src/database/migrations/1792497997440-UniqueStoryVersionNumbers.ts:3-8 | a row keeps its number exactly when no row of its story with the same number was created earlier, or at the same time with a smaller id; nothing but the number changes |
| Renumbering.MovedGoOnTopInOrder | src/database/migrations/1792497997440-UniqueStoryVersionNumbers.ts:21-31 | moved rows go above every number their story had, by creation time and then id |
| Renumbering.MovedTakeTheNextNumbers | src/database/migrations/1792497997440-UniqueStoryVersionNumbers.ts:21-31 | the moved rows of a story take exactly the numbers following its highest one, without gaps |
| Renumbering.UpdateIsIdempotent | src/database/migrations/1792497997440-UniqueStoryVersionNumbers.ts:13-33 | the update changes nothing exactly when there were no duplicates; running it again changes nothing |
| TextContent.WithoutPartialUtf8Tail | src/modules/attachments/services/file-validation.service.ts:403-413 | the counted loop drops what the theorems below say |
| TextContent.CutTextIsTrimmedToText | src/modules/attachments/services/file-validation.service.ts:399-402 | wherever a text is cut, what is kept is valid, all its whole characters, and at most 3 bytes shorter |
| TextContent.TextIsUnchanged | src/modules/attachments/services/file-validation.service.ts:399-402 | valid text loses nothing |
| TextContent.PlainTextIsAccepted | src/modules/attachments/services/file-validation.service.ts:283-293 | a plain text file is accepted whole and by any head of it |
| TextContent.AcceptedWholeExactly | src/modules/attachments/services/file-validation.service.ts:286-290 | a file read whole is accepted exactly when it encodes code points, none of them NUL |
| TextContent.TextsAreEncodings | src/modules/attachments/services/file-validation.service.ts:287-287 | the bytes are UTF-8 exactly when some code points, surrogates excepted, are encoded to them as in section 3 of RFC 3629 |
| TextContent.CharactersAreEncodings | src/modules/attachments/services/file-validation.service.ts:287-287 | a byte sequence is one character exactly when it encodes a code point, and then one only |
| TextContent.AcceptedHeadExactly | src/modules/attachments/services/file-validation.service.ts:283-293 | a head is accepted exactly when it is plain text but for one sequence broken off at its end |
| TextContent.HeadStartsTextExactly | src/modules/attachments/services/file-validation.service.ts:399-413 | a plain text file starts with a head exactly when the head is accepted and the dropped bytes begin a character |
| TextContent.BeginsCharacterExactly | src/modules/attachments/services/file-validation.service.ts:409-410 | the dropped bytes begin a character exactly when some character of RFC 3629 starts with them |
| TextContent.BrokenHeadStartsNoText | src/modules/attachments/services/file-validation.service.ts:409-410 | every head that is a broken-off sequence is accepted; no text starts with it when it begins no character |
| TextContent.AcceptedHeadMayStartNoText | src/modules/attachments/services/file-validation.service.ts:409-410 | six such heads, two starting no character and four going on wrongly |

## Left out

- TagCaching.TagCache.SetWithTags: Keyv's envelope around the value, and a call that fails or times out in the breaker (treated as no step).
- CacheCoherence.CacheAgreesWithTable: for runs in which each script leaves its entry in its tags' sets for good (TrackedExactly), runs less than 300 s after its fence (ScriptLimitExactly), and each commit leaves nothing stale behind (CommitKeepsInvExactly); a load and the tags it depends on are read in one step.
- CacheCoherence.StaleEntriesAreAwaited: for the same runs.
- CacheCoherence.ExpiryNeverLosesAnEntry: for runs in which each script leaves its entry in its tags' sets for good (TrackedExactly).
- Loads are one atomic step; a list read as rows and a separate count could mix two moments.
- DirectUploads.UploadCleaner.RemoveAbandoned: the upload key and the attachment's own key count as one object.
- DirectUploads.Upload.Complete: copies and deletes that the service gave up on and storage makes later are steps of the interleaved model only.
- CachedRepositories.CachedRepository.Apply: `update` and `updateIfVersion` re-read the row afterwards; an `updateIfVersion` that matches no row is no write.
- DirectUploads.OnlyVerifiedBytesAreKept: uploads from before upload keys existed, and the ACL set by `complete()` itself for files that are not images.
- DirectUploads.CleanupSparesClaimedUploads: which rows are old enough to list; any pending row may be.
- Visibility.AclFollowsRow: S3 failing half way through an ACL change, the database failing at the end of an owner's one, a row deleted for good while its image is processed (ProcessImage has it), and a job delivered again for an image already processed.
- Visibility.AttachmentStore.ProcessImage: alone, so the file is not published between its row's update and a failure (FailedFileMayStayPublic); decoding, thumbnails and metadata other than the names of stored objects; a run for an image already processed.
- IdempotencyKeys.SecondHandlerExactly: the steps of the new request follow each other; other processes' steps in between are the runs of OneHashOneOutcome and HandlersExcludeEachOther.
- IdempotencyKeys.HandlersExcludeEachOther: one clock stands for the application's and the database's; a missed heartbeat is simply not a step.
- IdempotencyKeys.IdempotencyService.Begin: alone; its statements interleaved with others are the actions of the system.
- The interceptor's answers (409, 422, replay headers) and its retries of a failed store.
- Outbox.OutboxRelay.Drain: one worker, one reading of the clock for each claim, and no message committed while it drains.
- Outbox.TenFailuresTakeTime: the times of the failures are history kept by the model; the table stores their number.
- CircuitBreaking.CircuitBreaker.Finish: `isFailure` is a parameter of the settlement; `withTimeout` is not modelled.
- Throttling.RedisThrottler.Increment: the per-process fallback when Redis is unreachable.
- JsonReading.PrintedIsReadBack: the grammar of numbers; the reader takes the longest run of their characters.
- CanonicalJson.TextsEqualExactly: dates, undefined, negative zero and non-finite numbers; a number is its printed text.
- CanonicalJson.FingerprintDeterminesRequest: SHA-256 itself, and the bytes of uploaded files.
- RecordScoping.RecordScope: rules are CASL's, later ones first; field rules are not asked for.
- Abilities.OwnersSeeTheirOwn: a nested `${userId}` is any other query.
- Renumbering.RenumberedIsUnique: 32-bit overflow of version numbers, and the index statements.
- TextContent.AcceptedHeadExactly: which heads are accepted (HeadStartsTextExactly: which of them a text starts with); the detection of binary formats before the text branch.
- ModuleGraph.ModuleSearch.Search: reading the import statements into the graph (a module's dependencies are the keys of a map, so each is there once), and the ownership check.
- Controllers, guards, logging, metrics, configuration, image processing, e-mail, search and seeders: plumbing without a property of this kind.
