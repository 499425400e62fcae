# Gateway core: a verified model

A Dafny model of the in-process state of a university gateway: the LRU cache with its time-to-live, the
idempotency service, cache-aside job processing, job-status subscriptions, dynamic queues with their workers and
administration, request routing, the memory alarm, retried transactions and the seeded timetable. `dafny verify
dfyconfig.toml` checks all of it.

Classes of the source are classes here. Each method is proved equal to a step on values (the maps, the pool, the
registry), and the properties are proved about those steps, over every history or every interleaving. Promises,
sockets, queues, workers and database calls are steps that may fail where the source handles failure; clock
readings are parameters.

| files | what they model |
|---|---|
| `CacheTables`, `RecencyList`, `Capacity`, `LruCache` | the cache: two maps and a logical clock, the recency list they denote, eviction, the service class |
| `CacheHistory`, `CacheRefinement`, `InterleavedCache` | what holds over whole histories, of the list and of the maps, and when unawaited `set`s interleave |
| `CacheInclusion`, `CacheCleanup`, `MinuteCleanup` | two caches of different size: what the larger holds and hits, and what expiry and the cleanup timer do to that |
| `Idempotency` | the idempotency service and every interleaving of its calls |
| `CacheKeys`, `JobCache` | canonical keys, time-to-live, what a cached result keeps, cache-aside processing of many jobs at once |
| `JobStatus` | job statuses, subscriptions and broadcasts |
| `QueueRegistry`, `QueueRouter` | queues, definitions and configuration in agreement; the choice of a queue |
| `WorkerPool`, `DynamicWorkers`, `QueueAdmin` | numbered workers, reconciliation loops, administration requests over runs |
| `MemoryAlarm`, `RouteMatching`, `RouteTable`, `Transactions`, `Timetable` | the alarm against its sample history, route matching and the table, retry and back-off, clashes of sections |
| `CacheEffects`, `AdminRequests`, `WrittenRoutes` | what single steps of the cache and single requests do, and the route table written out |
| `Options`, `Strings` | optional values, map differences, extremes; order, splitting, joining and decimal numerals |

Where the code and its own comments or the usual reading disagree, the model follows the code:

- `set` makes room before it looks whether the key is already stored, so at full capacity it may evict one key more
  than textbook LRU (`Capacity.SetIsTextbookExactlyWhen`).
- `evictLRU` never removes the empty string, so the eviction loop can run for ever
  (`Capacity.EnsureCapacityStopsExactlyWhen`).
- With several `set`s in flight the cache exceeds `maxSize` (`InterleavedCache.BoundIsReached`).
- An operation that calls the idempotency service again for its own key, before its first await, is executed twice
  (`IdempotentRuns.SingleFlightExactlyWithoutReentry`).
- `cleanupInactiveClients` is documented as removing inactive clients; it goes by the time of connection.
- A subscription whose first send throws is reported as an error, yet stays
  (`Subscriptions.FailedSubscribeGoesStale`).
- The restart request is commented as three critical samples in a row; three elevated samples with one critical are
  enough (`MemoryAlarm.RestartAfterOneCritical`).
- A statistics limit of zero keeps every sample, because `slice(-0)` is `slice(0)`
  (`MemoryAlarm.HistoryIsBoundedExactlyWhen`).
- Colons inside parameters can give a request without a user the key of a user's request
  (`CacheKeys.SomeUserSharesExactlyWhen`), and colons in paths can make keys coincide
  (`CacheKeys.PathColonsMakeKeysCoincide`); so can `&` and `=` in decoded values
  (`CacheKeys.SeparatorsMakeStringsCoincide`).
- A larger cache can hit less often than a smaller one, since what it hits it does not store again: when the
  time-to-live of a key changes between fetches (`CacheInclusion.ExpiryLosesHits`), and, with one time-to-live per key
  and the clock running forward, when the cleanup timer makes room in the smaller cache alone
  (`MinuteCleanup.MinuteCleanupLosesHits`). With one time-to-live per key it does not as long as cleanups keep the two
  lists in step (`CacheCleanup.JobHitsGrowWithSize`).
- `finally` may delete the entry of another call, after a re-entry (`IdempotentRuns.FinallyDeletesExactly`).
- Creating a queue under the name of a disabled entry leaves two entries of that name
  (`QueueRegistry.CreateAgreesExactlyWhen`), and deleting it removes both (`QueueAdmin.DeleteUndoesCreateExactlyWhen`).

Identifiers that differ from the source: a request method is a `verb`, a WebSocket client is named by its socket id,
a promise by the call that created it, `Luck` and `budget` say which external calls of a request succeed (`records`:
the saving of a count written back).

## Model

| member | source | states |
|---|---|---|
| LruCache.LRUCacheService.Get | src/common/cache/services/lru-cache.service.ts:69-101 | a hit only for a present, unexpired entry, which becomes the most recent; an expired entry is deleted and counted as an eviction and a miss; hits, misses and operations stay consistent |
| LruCache.LRUCacheService.Set | src/common/cache/services/lru-cache.service.ts:106-140 | evicts down to below maxSize first, then stores and stamps; the maps stay coherent and hold at most maxSize entries |
| LruCache.LRUCacheService.Commit | src/common/cache/services/lru-cache.service.ts:127-132 | the part of set after its wait: stores and touches, adding at most one entry, whatever happened in between |
| LruCache.LRUCacheService.Delete | src/common/cache/services/lru-cache.service.ts:145-162 | removes the key from both maps together and says whether it was there; nothing else changes |
| LruCache.LRUCacheService.Clear | src/common/cache/services/lru-cache.service.ts:167-179 | empties both maps and restarts the clock, and keeps the counters |
| LruCache.LRUCacheService.Has | src/common/cache/services/lru-cache.service.ts:184-197 | present means stored and unexpired; an expired entry is removed; no recency change |
| LruCache.LRUCacheService.EnsureCapacity | src/common/cache/services/lru-cache.service.ts:241-245 | terminates below maxSize, having evicted in recency order, for a positive size and keys that can be evicted |
| LruCache.LRUCacheService.EvictLRU | src/common/cache/services/lru-cache.service.ts:250-268 | removes exactly the key with the least access time, unless that is the empty string |
| LruCache.LRUCacheService.FindOldest | src/common/cache/services/lru-cache.service.ts:251-260 | the scan returns the unique key of least access time, in whatever order it visits the entries |
| LruCache.LRUCacheService.CleanupExpired | src/common/cache/services/lru-cache.service.ts:273-294 | removes exactly the expired keys from both maps and counts each as an eviction |
| LruCache.LRUCacheService.FindExpired | src/common/cache/services/lru-cache.service.ts:275-282 | collects exactly the keys past their expiry |
| LruCache.LRUCacheService.RemoveExpired | src/common/cache/services/lru-cache.service.ts:285-289 | drops exactly the collected keys from both maps, one eviction each |
| LruCache.LRUCacheService.UpdateAccessOrder | src/common/cache/services/lru-cache.service.ts:232-236 | the key gets a fresh, greatest access time and its entry one more access |
| CacheTables.StoreCoherent | src/common/cache/services/lru-cache.service.ts:127-129 | storing keeps the two maps on the same keys, with distinct access times not beyond the clock |
| CacheTables.EvictCoherent | src/common/cache/services/lru-cache.service.ts:250-268 | so does an eviction |
| CacheTables.LookupCoherent | src/common/cache/services/lru-cache.service.ts:69-101 | and a get |
| RecencyList.RecencyIsRecency | src/common/cache/services/lru-cache.service.ts:25-27 | distinct access times order the keys into one list, most recent first |
| RecencyList.RecencyUnique | src/common/cache/services/lru-cache.service.ts:25-27 | and that list is the only one in that order, so the maps denote exactly one recency list |
| RecencyList.AbsWellFormed | src/common/cache/services/lru-cache.service.ts:25-27 | coherent maps denote a list without repetitions, as long as the cache is large |
| RecencyList.AbsGet | src/common/cache/services/lru-cache.service.ts:69-101 | get and has on the maps are get and has on the recency list |
| RecencyList.AbsTouch | src/common/cache/services/lru-cache.service.ts:232-236 | touching a key on the maps moves it to the front of the list |
| RecencyList.AbsStore | src/common/cache/services/lru-cache.service.ts:127-129 | storing on the maps puts the key in front of the list without it |
| RecencyList.AbsDrop | src/common/cache/services/lru-cache.service.ts:145-179 | removing keys from both maps removes them from the list and keeps the order of the others |
| RecencyList.OldestIsLast | src/common/cache/services/lru-cache.service.ts:250-268 | for any list in recency order: the least access time is that of its last key, and without that key the rest is again the list in recency order |
| Capacity.TrimIsTrimL | src/common/cache/services/lru-cache.service.ts:241-268 | the eviction loop on the maps cuts the list to its first maxSize - 1 keys |
| Capacity.SetRefines | src/common/cache/services/lru-cache.service.ts:106-140 | a whole set on the maps is the list operation: cut to maxSize - 1 keys, then put the key in front |
| Capacity.SetIsTextbookExactlyWhen | src/common/cache/services/lru-cache.service.ts:125-129 | that is textbook LRU insertion if and only if it does not store again, at full capacity, a key other than the oldest |
| Capacity.EnsureCapacityStopsExactlyWhen | src/common/cache/services/lru-cache.service.ts:241-268 | the eviction loop ends if and only if there is room, or maxSize is positive and the never-evicted empty key is not in the way |
| Capacity.EmptyKeyHoldsTheLoop | src/common/cache/services/lru-cache.service.ts:241-268 | a new cache of size one in which the empty key was set never gets below its size again, however often the loop evicts |
| Capacity.NonEmptyKeysCanTrim | src/common/cache/services/lru-cache.service.ts:241-268 | without the empty key and with a positive size the loop always ends |
| CacheHistory.RunWellFormed | src/common/cache/services/lru-cache.service.ts:69-179 | after any sequential history the list has no repetitions and at most maxSize keys |
| CacheHistory.GetAnswersLatestSet | src/common/cache/services/lru-cache.service.ts:69-140 | over any history and clock, a hit returns the value of the latest set of the key that was not deleted or cleared, unexpired |
| CacheHistory.GetMustAnswer | src/common/cache/services/lru-cache.service.ts:69-140 | that value is still answered if, since the key was set or hit, at most maxSize - 2 distinct other keys were set or hit, or nothing was set at all; the clock may run in any order up to now |
| CacheHistory.RetentionBoundIsTight | src/common/cache/services/lru-cache.service.ts:125-129 | for every size from two on, a history that touches maxSize - 1 other keys and loses the value |
| CacheRefinement.ApplyRefines | src/common/cache/services/lru-cache.service.ts:69-197 | each operation on the two maps, eviction loop included, is the list operation and keeps the maps fit for the next |
| CacheRefinement.RunRefines | src/common/cache/services/lru-cache.service.ts:69-294 | so the maps after any sequential history denote the recency list after it and hold at most maxSize keys |
| CacheRefinement.MapsAnswerLatestSet | src/common/cache/services/lru-cache.service.ts:69-140 | on the maps, too, a hit after any history is the unexpired value of the latest set |
| CacheRefinement.MapsMustAnswer | src/common/cache/services/lru-cache.service.ts:69-140 | and it is answered on the maps under the same condition |
| CacheInclusion.StepContained | src/common/cache/services/lru-cache.service.ts:69-140 | any request that takes no expired entry out of the list, a get that misses included, keeps the recency list of the smaller of two caches within that of the larger, in the same order |
| CacheInclusion.FetchIsServeKeys | src/common/cache/services/lru-cache.service.ts:69-140 | a job fetch (get, and a set after a miss) orders the keys alike whether it finds its key fresh or expired |
| CacheInclusion.LargerHoldsSmaller | src/common/cache/services/lru-cache.service.ts:69-140 | so on every trace, fetches that meet expired entries included, the smaller cache holds a sublist of what the larger holds, as long as no bare get, has or cleanup meets an expired entry |
| CacheInclusion.HitIsLostExactlyWhen | src/common/cache/services/lru-cache.service.ts:69-140 | after such a trace, on which no cleanup drops anything, a request hits only the smaller cache if and only if both hold its key, fresh in the smaller and expired in the larger |
| CacheInclusion.HitsGrowWithSize | src/common/cache/services/lru-cache.service.ts:69-140 | hits never fall as maxSize grows if no request meets an expired entry in the larger cache, whatever fetches meet in the smaller one, bare gets or not |
| CacheCleanup.JobHitsGrowWithSize | src/common/cache/services/lru-cache.service.ts:69-304 | for any trace of fetches, sets, deletes, clears, has and cleanups in clock order whose keys have one time-to-live each: hits never fall as maxSize grows, whatever expires in either cache, if every cleanup keeps the lists in step |
| CacheCleanup.StepKeptExactlyWhen | src/common/cache/services/lru-cache.service.ts:69-294 | any such request keeps the two lists in step (of the keys ahead of a common key in the larger, at most the difference of the sizes are not ahead of it in the smaller) if and only if what it drops as expired leaves them so |
| CacheCleanup.AlignedExactlyWhen | src/common/cache/services/lru-cache.service.ts:106-140 | no weaker condition will do: from any two lists, through every continuation of fetches the larger cache evicts nothing that the smaller keeps, if and only if they are in step |
| CacheCleanup.AlignedAllAlongExactlyWhen | src/common/cache/services/lru-cache.service.ts:69-304 | over any trace without a bare get the lists are in step all along if and only if every cleanup, and every has, keeps them so |
| CacheCleanup.SparingHitsGrow | src/common/cache/services/lru-cache.service.ts:273-304 | it is enough that no cleanup drops from the smaller cache an entry that the larger one holds fresh |
| CacheCleanup.HitIsLostToExpiryExactlyWhen | src/common/cache/services/lru-cache.service.ts:69-304 | after such a trace a fetch hits only the smaller cache if and only if that holds the key, stored at most its time-to-live ago, and the larger one stored it last longer ago than that: hits are lost to expiry, never to an eviction |
| MinuteCleanup.MinuteCleanupLosesHits | src/common/cache/services/lru-cache.service.ts:273-304 | with one time-to-live per key, a clock running forward and a cleanup at every full minute hits can still be lost: a trace with three hits at size three and two at size four, on which a cleanup breaks the step |
| CacheInclusion.PrefixKeptExactlyWhen | src/common/cache/services/lru-cache.service.ts:69-294 | one request on any two caches keeps the smaller list a prefix of the larger if and only if it is no get whose key only the larger cache hits while the smaller keeps others, nor one only the smaller hits, and a has or cleanup drops no key from the larger alone, nor from the smaller alone with one behind it that stays |
| CacheInclusion.PrefixAllAlongExactlyWhen | src/common/cache/services/lru-cache.service.ts:69-294 | over any trace at all, cleanups and expiries included, the smaller list is a prefix at every point if and only if every request is of that kind |
| CacheInclusion.FetchesKeepPrefix | src/common/cache/services/lru-cache.service.ts:69-140 | for traces of job fetches between which no cleanup runs it always is, whatever the fetches find expired |
| CacheInclusion.BareGetBreaksInclusion | src/common/cache/services/lru-cache.service.ts:69-101 | such a get occurs: after three requests the smaller list is no prefix |
| CacheInclusion.ExpiryLosesHits | src/common/cache/services/lru-cache.service.ts:80-85 | without one time-to-live per key hits can be lost: a trace of fetches, the time-to-live of one key changing, with three hits at size one and two at size two |
| InterleavedCache.CacheSafeInEveryRun | src/common/cache/services/lru-cache.service.ts:106-140 | under every interleaving with at most c sets in flight the maps stay coherent and the size is at most maxSize + c - 1 |
| InterleavedCache.BoundIsReached | src/common/cache/services/lru-cache.service.ts:106-140 | the bound is tight: for every size and c a legal run reaches it |
| InterleavedCache.HitsAreFresh | src/common/cache/services/lru-cache.service.ts:69-140 | under every interleaving a hit returns the value of the set of that key that finished last, with no delete of it or clear since, begun at most its ttl ago |
| InterleavedCache.NextInvents | src/common/cache/services/lru-cache.service.ts:106-140 | no step makes up an entry: what is held was held before or is being set |
| InterleavedCache.HeldWasBegun | src/common/cache/services/lru-cache.service.ts:106-140 | every entry held after a run comes from a set begun in that run |
| CacheEffects.HeldNextExactlyWhen | src/common/cache/services/lru-cache.service.ts:69-294 | exactly which keys are held after any step: a check without room drops the least recent unless it is empty, expired keys go when asked for or swept, nothing else changes |
| CacheEffects.RecencyNext | src/common/cache/services/lru-cache.service.ts:232-236 | a stored key, and one that a get finds fresh, is more recent than all others, whose order stays; no other step changes it |
| CacheEffects.EntryNext | src/common/cache/services/lru-cache.service.ts:69-140 | an entry is what its set made of it at its time of beginning, and only a get that finds it fresh changes its access count and time |
| CacheEffects.FlightNext | src/common/cache/services/lru-cache.service.ts:106-140 | exactly which sets are in flight after a step, what they are about to store and whether they have found room |
| CacheEffects.FoundExactlyWhen | src/common/cache/services/lru-cache.service.ts:69-101 | a get answers a value exactly when it is held and its time has not passed |
| WaitingSets.WaitingIsBounded | src/common/cache/services/lru-cache.service.ts:241-245 | for non-empty keys, whatever else runs: a set that still waits has taken at most as many turns as entries were above maxSize - 1, those stored meanwhile included, and may always take another |
| WaitingSets.AloneEvicts | src/common/cache/services/lru-cache.service.ts:241-245 | left alone it takes exactly that many, each evicting one entry, and the next one passes its check |
| WaitingSets.ReachableIsEvictable | src/common/cache/services/lru-cache.service.ts:106-140 | both speak of every state that is reachable without an empty key |
| Idempotency.IdempotencyService.Enter | src/common/services/idempotency.service.ts:32-43 | a record is replayed before a running execution is joined, and only otherwise is a new one begun |
| Idempotency.IdempotencyService.Resume | src/common/services/idempotency.service.ts:46-57 | a value is recorded with its time, an error is not, and the in-progress entry goes either way |
| Idempotency.IdempotencyService.Cleanup | src/common/services/idempotency.service.ts:67-80 | removes exactly the records older than the hour, and nothing in progress |
| IdempotentRuns.InvariantInEveryRun | src/common/services/idempotency.service.ts:28-80 | every interleaving of calls, settlements, resumptions, cleanups and ticks keeps the whole invariant, including nested calls made while an operation is entered |
| IdempotentRuns.ExecutionsNeverOverlap | src/common/services/idempotency.service.ts:28-58 | at most one unfinished execution per key; executions of a key follow one another, and after a success the next starts more than TTL_MS later |
| IdempotentRuns.FinallyDeletesOwnEntry | src/common/services/idempotency.service.ts:55-57 | the finally clause of a call deletes the entry that the same call registered, and no other |
| IdempotentRuns.AnswersAreExact | src/common/services/idempotency.service.ts:32-57 | a finished call reports exactly the outcome of one execution of its key, and isNew only for its own |
| IdempotentRuns.SuccessIsNewExactlyOnce | src/common/services/idempotency.service.ts:46-54 | every success is reported as new by its own call and by no other |
| IdempotentRuns.JoinersAreAnswered | src/common/services/idempotency.service.ts:37-41 | over a run, a call that joined is answered by the execution it joined and by nothing else: its data, not as new, or its error |
| IdempotentRuns.JoinersGetTheirExecution | src/common/services/idempotency.service.ts:32-41 | the next step of a joiner reports the execution joined, and a call that finds a record the execution that made it |
| IdempotentRuns.FailureFreesKey | src/common/services/idempotency.service.ts:46-57 | after a failed execution the next call of that key executes again |
| IdempotentRuns.RecordsAfterCleanup | src/common/services/idempotency.service.ts:67-80 | over every run, right after a cleanup a key has a record if and only if it had one whose execution had finished at most an hour earlier; nothing else changes |
| IdempotentRuns.CleanupFreesKey | src/common/services/idempotency.service.ts:28-80 | once a cleanup has come more than an hour after the last success of a key and nothing of it is in flight, a call executes anew |
| IdempotentRuns.SuccessIsReplayed | src/common/services/idempotency.service.ts:32-35 | and for an hour after a success every call is answered from its record and nothing executes |
| IdempotentRuns.WaitersGoOn | src/common/services/idempotency.service.ts:28-80 | in every state of a run a new call can be made, every waiter whose execution has settled can go on, the clock can run, and cleanup can run exactly when no operation is being entered |
| IdempotentRuns.SingleFlightExactlyWithoutReentry | src/common/services/idempotency.service.ts:43-44 | a call keeps one execution per key if and only if its key is not being entered further down the stack |
| IdempotentRuns.SingleFlightAllAlongExactlyWhen | src/common/services/idempotency.service.ts:28-58 | over every run, re-entries allowed: each key has at most one unfinished execution all along if and only if no call re-enters |
| IdempotentRuns.ReentryRunsTwice | src/common/services/idempotency.service.ts:43-44 | an operation that calls again for its own key before its first await does run twice: a run of one call |
| IdempotentRuns.EntryExactlyWhen | src/common/services/idempotency.service.ts:43-57 | over every run, re-entries included, the in-progress entry of a key names the call that registered last, unless an execution of the key has ended since; then there is none |
| IdempotentRuns.FinallyDeletesExactly | src/common/services/idempotency.service.ts:55-57 | so finally deletes the entry of whichever call of the key registered last, if none has ended since, and no other |
| IdempotentRuns.InnerFinallyDeletesOuterEntry | src/common/services/idempotency.service.ts:43-57 | after a re-entry the inner call, failing first, deletes the entry of the outer one, which still runs, and the next call executes again: a run of six steps |
| Strings.LexLessExactlyWhen | src/common/cache/strategies/http-cache-key.strategy.ts:208 | names are ordered at the first character in which they differ, or by length |
| CacheKeys.OrderDoesNotMatter | src/common/cache/strategies/http-cache-key.strategy.ts:202-231 | the parameter string is the same for every insertion order of the same parameters |
| CacheKeys.ParametersAreDetermined | src/common/cache/strategies/http-cache-key.strategy.ts:202-231 | for values and names free of & and = the string can be parsed back to the sorted parameters |
| CacheKeys.SameStringSameParameters | src/common/cache/strategies/http-cache-key.strategy.ts:202-231 | so two parameter maps print alike if and only if they are the same map |
| CacheKeys.PrintsLikeAMapExactlyWhen | src/common/cache/strategies/http-cache-key.strategy.ts:202-231 | any parameters, separators included, print like some map free of & and = if and only if every piece between & has exactly one = and the names ascend |
| CacheKeys.SeparatorsMakeStringsCoincide | src/common/cache/strategies/http-cache-key.strategy.ts:202-231 | which occurs: for all names and values in order, a value with & and = in it prints like one parameter more |
| CacheKeys.KeysCoincideExactlyWhen | src/common/cache/strategies/http-cache-key.strategy.ts:21-52 | any two requests share the text under the hash if and only if they agree on method, path and what follows, or the longer path reads like the shorter, a colon and the start of what follows it |
| CacheKeys.PathColonsMakeKeysCoincide | src/common/cache/strategies/http-cache-key.strategy.ts:21-52 | which occurs: GET /a?b:x=1 and GET /a:b?x=1 share it |
| CacheKeys.KeyIsCanonical | src/common/cache/strategies/http-cache-key.strategy.ts:21-52 | requests that both have a user or both have none share it if and only if they agree on method, path, printed parameters and user, whatever the parameters hold; maps free of & and = print alike only when they are the same |
| CacheKeys.AnonymousKeyCoincidesExactlyWhen | src/common/cache/strategies/http-cache-key.strategy.ts:30-35 | a request without a user and one with a user share it if and only if they agree on method and path and the former has the latter's parameters with the user part added to the value printed last |
| CacheKeys.SomeUserSharesByPrint | src/common/cache/strategies/http-cache-key.strategy.ts:30-35 | for any user id at all, some request of that user shares the key if and only if the parameters print as some map followed by the user part |
| CacheKeys.SomeUserSharesExactlyWhen | src/common/cache/strategies/http-cache-key.strategy.ts:30-35 | if and only if the value printed last ends in the user part |
| CacheKeys.CacheableExactlyWhen | src/common/cache/strategies/http-cache-key.strategy.ts:60-109 | a request is cacheable if and only if it is a GET, in any case, whose url, in lower case, holds none of the nineteen texts |
| CacheKeys.ReadingIsCached | src/common/cache/strategies/http-cache-key.strategy.ts:60-109 | so GET /courses is, POST /enrollments, POST /courses and GET /auth/login are not, in any case of the letters |
| CacheKeys.TtlFollowsUrl | src/common/cache/strategies/http-cache-key.strategy.ts:118-172 | a quarter of an hour for urls with one of eight texts, five minutes for six others, a minute for five, and five minutes otherwise, the first kind deciding |
| CacheKeys.PathsAlikeExactlyWhen | src/common/cache/strategies/http-cache-key.strategy.ts:179-197 | two paths make one part of the key if and only if they are the same up to the case of letters and one closing slash |
| JobResults.RoundTripExactlyForObjects | src/common/workers/cache/job-cache.service.ts:22-34 | what is served from the cache equals what was stored, up to _cache and the secrets, if and only if it is an object |
| JobResults.SecretsAreDropped | src/common/workers/cache/job-cache.service.ts:85-103 | no truthy token, password or jwt is ever served from the cache |
| JobResults.ServedFields | src/common/workers/cache/job-cache.service.ts:17-42 | of a stored object every field but _cache, token, password and jwt is served as it was, those three only when falsy, and _cache says hit, key and time |
| JobResults.StoredFields | src/common/workers/cache/job-cache.service.ts:85-103 | an object is stored with its own _cache, anything else as it is |
| JobResults.ServedOtherwise | src/common/workers/cache/job-cache.service.ts:25-33 | an array is served as an object of its items by index, a string of its characters, any other value as _cache alone |
| JobResults.TruthyExactlyWhen | src/common/workers/cache/job-cache.service.ts:24 | null, false, zero and the empty string count as no answer, and nothing else does |
| JobResults.KeyOf | src/common/workers/cache/job-cache.service.ts:60-68 | a job has a key, never an empty one, exactly when it is a GET whose url holds none of the excluded texts |
| JobProcessing.JobCacheService.TryGetFromCache | src/common/workers/cache/job-cache.service.ts:17-42 | serves a truthy, unexpired stored result under the job key, decorated, and otherwise nothing |
| JobProcessing.JobCacheService.TryStoreInCache | src/common/workers/cache/job-cache.service.ts:44-58 | stores the prepared result under the key and ttl of the job, and leaves the cache alone for a job that is not cacheable |
| JobProcessing.JobProcessorService.ProcessJob | src/common/workers/processing/job-processor.service.ts:34-141 | the backend is used exactly when the cache has no answer, so always for anything but such a GET; its answer or error is passed on, and only an answer is stored |
| JobProcessing.ServedExactlyWhen | src/common/workers/cache/job-cache.service.ts:17-42 | a job is served from the cache if and only if it is such a GET and its key is held, unexpired, with a value that is not falsy |
| JobRuns.SoundInEveryRun | src/common/workers/processing/job-processor.service.ts:48-141 | whatever the backend answers and when, under every interleaving of jobs, unawaited stores and other cache steps, everything held and every answer given comes from one of its responses |
| JobRuns.CacheIsTransparent | src/common/workers/processing/job-processor.service.ts:48-141 | if the responses to cacheable jobs are, per key, one object or falsy value up to _cache and the secrets, every cacheable job gets it up to those fields; every other job gets a response to itself |
| JobRuns.CachedAnswersAreFresh | src/common/workers/processing/job-processor.service.ts:85-141 | for a backend that may change its answers: a dispatched job gets a response to itself, a cached answer shows a response to a job of the same key at most its ttl earlier, and shows it up to _cache and the secrets if and only if it is an object; only cacheable jobs have one |
| JobRuns.OnlyPlainGetsAreCached | src/common/workers/processing/job-processor.service.ts:48-141 | over every run, only GETs whose url holds none of the excluded texts are answered from the cache, and only answers to such are ever held |
| JobRuns.HeldIsServed | src/common/workers/processing/job-processor.service.ts:48-70 | conversely such a GET whose key is held, unexpired and not falsy, is answered at once from what is held; every other job waits for the backend |
| JobRuns.AnswersAreStored | src/common/workers/processing/job-processor.service.ts:85-141 | an answer goes to its job, and that to such a GET begins to be stored under its key and for its time |
| JobRuns.EnabledExactlyWhen | src/common/workers/processing/job-processor.service.ts:34-141 | a job is submitted once, is answered or fails while it waits, and only answers begin sets |
| JobRuns.RepeatedJob | src/common/workers/processing/job-processor.service.ts:34-141 | a job answered and stored, then submitted again within its time: such a GET is answered from the cache, any other waits for the backend once more |
| JobStatus.JobStatusService.UpdateJobStatus | src/common/websockets/job-status.service.ts:23-36 | the stored status carries the time of storing, the event the update as given |
| JobStatus.JobStatusService.CleanupOldJobs | src/common/websockets/job-status.service.ts:113-128 | removes exactly the statuses more than an hour old and counts them |
| JobStatus.JobStatusService.GetJobStatistics | src/common/websockets/job-status.service.ts:133-153 | every job is counted once, under its status, and oldest is the least time stamp up to now |
| JobStatus.Tally | src/common/websockets/job-status.service.ts:138-152 | the counting loop: exactly the statuses that occur, with the number of their jobs |
| WebSockets.WebSocketService.SubscribeClientToJob | src/common/websockets/websocket.service.ts:99-121 | rejects an id of white space only, then an unknown client; otherwise subscribes to the trimmed id and hands out its stored status |
| WebSockets.WebSocketService.UnsubscribeClientFromJob | src/common/websockets/websocket.service.ts:123-141 | the same checks, then removes the subscription |
| WebSockets.WebSocketService.BroadcastJobUpdate | src/common/websockets/websocket.service.ts:202-226 | reaches every subscriber whose send works and unregisters exactly those whose send throws |
| WebSockets.WebSocketService.CleanupInactiveClients | src/common/websockets/websocket.service.ts:276-296 | unregisters exactly the clients connected for more than five minutes |
| WebSockets.TrimIs | src/common/websockets/websocket.service.ts:100-101 | a trimmed id is the id without white space at both ends, and neither begins nor ends with any |
| WebSockets.TrimIsUnique | src/common/websockets/websocket.service.ts:100-101 | there is only one such text |
| WebSockets.SpacesAre | src/common/websockets/websocket.service.ts:100-101 | the characters removed, by code point |
| Subscriptions.SubscriptionDelivers | src/common/websockets/websocket.service.ts:99-121 | during one subscription a client gets the status held at its start, then every later update once and in order, while sends to others may fail |
| Subscriptions.SubscriptionBegins | src/common/websockets/websocket.service.ts:112-118 | the first message is the status held at the time of subscribing |
| Subscriptions.SubscribersConverge | src/common/websockets/websocket.service.ts:99-226 | in every reachable state the last message a subscriber got on a job is the stored status up to its time stamp, if no send of a stored status of that job to it threw |
| Subscriptions.ConvergenceLasts | src/common/websockets/websocket.service.ts:99-226 | once up to date, a client stays so until such a send throws |
| Subscriptions.ConvergedExactlyWhen | src/common/websockets/websocket.service.ts:99-226 | over every run, whichever sends fail: a subscriber is up to date if and only if the update that was the latest published when it last heard about the job is, but for its time, the latest still |
| Subscriptions.NothingMissedConverges | src/common/websockets/websocket.service.ts:202-226 | so it is when nothing was published on the job since it last heard about it |
| Subscriptions.DeliveryRestores | src/common/websockets/websocket.service.ts:112-118 | after a failed send the first update or status that gets through repairs it, until a send of a status fails again |
| Subscriptions.FailedSubscribeGoesStale | src/common/websockets/websocket.service.ts:112-118 | a run of three events in which the send of the status throws and the subscribed client is not up to date |
| Subscriptions.StepSends | src/common/websockets/websocket.service.ts:99-226 | each event adds to the messages of a client about a job exactly what it sends |
| Subscriptions.FollowedIdsAreTrimmed | src/common/websockets/websocket.service.ts:99-121 | only ids that are not empty and neither begin nor end with white space are ever followed |
| Subscriptions.FollowsNextExactlyWhen | src/common/websockets/websocket.service.ts:75-296 | exactly who follows which job after any event: subscribing under an id that trims to it adds it, unsubscribing, leaving, a failed send and five minutes of connection at a cleanup end it |
| Subscriptions.ConnectedNextExactlyWhen | src/common/websockets/websocket.service.ts:75-296 | exactly who is connected after any event, and since when: leaving, a failed send and five minutes of connection at a cleanup end it |
| Subscriptions.StatusNextExactlyWhen | src/common/websockets/job-status.service.ts:23-128 | exactly which status is held after any event: the last published with its time of storing, until a cleanup more than an hour later |
| QueueRegistry.DynamicQueueService.InitializeQueues | src/common/queues/dynamic-queue.service.ts:64-86 | opens exactly the enabled entries, the last of a name winning, up to the first that fails to open |
| QueueRegistry.DynamicQueueService.CreateQueue | src/common/queues/dynamic-queue.service.ts:236-254 | refuses an open name; otherwise map, definitions and configuration grow together, even when saving fails |
| QueueRegistry.DynamicQueueService.RemoveQueue | src/common/queues/dynamic-queue.service.ts:256-270 | a failing close changes nothing; otherwise map, definition and every entry of that name go |
| QueueRegistry.DynamicQueueService.UpdateQueue | src/common/queues/dynamic-queue.service.ts:272-286 | removal, then creation under the merged definition; a queue that cannot be reopened is lost |
| QueueRegistry.DynamicQueueService.SetQueueWorkers | src/common/queues/dynamic-queue.service.ts:173-192 | definition and first entry get the count, rounded down, at least zero |
| QueueRegistry.DynamicQueueService.SetQueueConcurrency | src/common/queues/dynamic-queue.service.ts:194-213 | definition and first entry get the concurrency, rounded down, at least one |
| QueueRegistry.FilterOut | src/common/queues/dynamic-queue.service.ts:263 | the filter keeps exactly the entries of other names, in order |
| QueueRegistry.AssignFirst | src/common/queues/dynamic-queue.service.ts:181-182 | the first entry of the name is replaced, in place |
| QueueRegistry.MergeIs | src/common/queues/dynamic-queue.service.ts:272-286 | every field that an update has wins, every other stays, and so does the name |
| QueueRegistry.InitializedIs | src/common/queues/dynamic-queue.service.ts:64-86 | after start-up exactly the enabled names are open, each under its last enabled entry |
| QueueRegistry.FilterIs | src/common/queues/dynamic-queue.service.ts:263 | what goes are the entries of that name, and no other moves |
| QueueRegistry.ReportIs | src/common/queues/dynamic-queue.service.ts:173-286 | what each operation reports, in the order in which failures are found out |
| QueueRegistry.OthersUntouched | src/common/queues/dynamic-queue.service.ts:173-286 | no operation touches another queue, and one that stops early touches nothing, but for an update that cannot open its queue again |
| QueueRegistry.TargetChanges | src/common/queues/dynamic-queue.service.ts:173-286 | what each operation that goes through makes of its queue in all three structures, the two settings rounded down and bounded below |
| QueueRegistry.CreateAgreesExactlyWhen | src/common/queues/dynamic-queue.service.ts:236-254 | creation keeps the three structures in one-to-one agreement if and only if no configuration entry has the name |
| QueueRegistry.DisabledNameBreaksAgreement | src/common/queues/dynamic-queue.service.ts:236-254 | from start-up with a disabled entry, creating a queue of that name breaks it |
| QueueRegistry.RegistryAgreesInEveryRun | src/common/queues/dynamic-queue.service.ts:173-286 | from unique names, every run of operations, successful or not, keeps the agreement if no queue is created under the name of a disabled entry |
| QueueRegistry.NextAgreesExactlyWhen | src/common/queues/dynamic-queue.service.ts:173-286 | any operation, successful or not, keeps the agreement if and only if it creates no queue under a name that the configuration has |
| QueueRegistry.RegistryAgreesExactlyWhen | src/common/queues/dynamic-queue.service.ts:173-286 | from unique names the agreement holds all along a run if and only if no operation of the run does |
| QueueRouter.DetermineQueueForUrl | src/common/queues/utils/queue-routing.util.ts:12-48 | among the enabled, open queues with a pattern that takes the url the one of least load, then greatest priority, then earliest position; the default queue when there is none |
| QueueRouter.EligibleExactlyWhen | src/common/queues/utils/queue-routing.util.ts:16-56 | a queue is in the running if and only if it is enabled and open and one of its patterns is equal to the url or is a stem with "/*" that the url begins with |
| QueueRouter.CandidatesAre | src/common/queues/utils/queue-routing.util.ts:14-71 | the candidates are exactly those queues, in the order of the configuration, each with the sum of its four counts or the greatest safe integer |
| QueueRouter.BestIsUnique | src/common/queues/utils/queue-routing.util.ts:28-44 | there is one optimum, so the answer is determined |
| QueueRouter.MoveChangesBestExactlyWhen | src/common/queues/utils/queue-routing.util.ts:28-44 | moving a candidate to the end changes the optimum if and only if it was the optimum and another is exactly tied with it |
| QueueRouter.NoOpUpdateMovesToEnd | src/common/queues/dynamic-queue.service.ts:272-286 | updating a queue with nothing only moves its entry to the end |
| QueueRouter.NoOpUpdateRoutesAlike | src/common/queues/utils/queue-routing.util.ts:12-48 | such an update can change the routing of a url only between queues of equal load and priority |
| WorkerPool.WorkerIdInjective | src/common/workers/factory/worker-factory.service.ts:33 | under one strategy a worker id determines its queue and its number |
| WorkerPool.WorkerIdIs | src/common/workers/factory/worker-factory.service.ts:33 | the id is queue, strategy and decimal number, joined by hyphens |
| WorkerPool.IdsAreDistinct | src/common/workers/factory/worker-factory.service.ts:33 | no two workers share an id, in one queue or across queues |
| WorkerPool.AddNumbers | src/common/workers/dynamic-worker.service.ts:61-64 | adding a worker gives it the next number of its queue, keeps every queue numbered 1..n and touches no other |
| WorkerPool.RemoveLastQueues | src/common/workers/dynamic-worker.service.ts:67-73 | removing takes exactly the highest number of the queue and nothing of another |
| WorkerPool.RemoveLastNumbers | src/common/workers/dynamic-worker.service.ts:67-73 | and every queue stays numbered 1..n |
| WorkerPool.EnsureReachesDesired | src/common/workers/dynamic-worker.service.ts:108-123 | reconciling an enabled queue ends at that count, leaves a disabled one alone and touches no other queue |
| WorkerPool.DesiredIs | src/common/workers/factory/worker-factory.service.ts:150-165 | the wanted count is the positive value of the queue's variable in the environment, or else the configured one, none and zero meaning one, cut at the limit of a queue and never negative |
| WorkerPool.WorkerCountIsUnique | src/common/workers/factory/worker-factory.service.ts:150-165 | that fixes the count, and beyond zero it is within the limit |
| WorkerPool.CountsAtFive | src/common/workers/factory/worker-factory.service.ts:150-165 | at a limit of five, two stay two, nine become five, none means one, and a variable of three gives three |
| WorkerPool.CreateNumbersNumbers | src/common/workers/lifecycle/worker-lifecycle.service.ts:32-46 | start-up of one entry leaves the greater of the wanted and the present count, numbered from 1 |
| WorkerPool.CreateNumbersReplaces | src/common/workers/lifecycle/worker-lifecycle.service.ts:32-46 | workers found under the ids it creates are replaced, so the first of the queue run under the entry |
| WorkerPool.InitializeNumbers | src/common/workers/lifecycle/worker-lifecycle.service.ts:14-24 | start-up from any configuration, repeated names included, numbers every queue 1..n |
| WorkerPool.InitializeWithinNumbers | src/common/workers/lifecycle/worker-lifecycle.service.ts:14-46 | and so does a start-up that a failing creation cuts short |
| WorkerPool.RemoveTimesFilters | src/common/workers/dynamic-worker.service.ts:125-134 | removing one by one until none is left takes the workers of the queue and nothing else, in place |
| DynamicWorkers.DynamicWorkerService.AddWorkerForQueue | src/common/workers/dynamic-worker.service.ts:55-65 | refuses while shutting down, for an unknown and for a disabled queue, in that order; otherwise adds the next worker |
| DynamicWorkers.DynamicWorkerService.RemoveWorkerForQueue | src/common/workers/dynamic-worker.service.ts:67-73 | refuses when the queue has no worker; otherwise the last one leaves even if closing it fails |
| DynamicWorkers.DynamicWorkerService.EnsureWorkersForQueue | src/common/workers/dynamic-worker.service.ts:108-123 | for an enabled queue the final count is the wanted one whatever the start; a failing creation leaves exactly the workers created so far, and nothing changes when shutting down, for an unknown or for a disabled queue |
| DynamicWorkers.DynamicWorkerService.RemoveAllWorkersForQueue | src/common/workers/dynamic-worker.service.ts:125-134 | terminates with none left and returns how many there were |
| DynamicWorkers.DynamicWorkerService.Initialize | src/common/workers/lifecycle/worker-lifecycle.service.ts:14-24 | the workers of every enabled entry are created, up to the first creation that fails; what was created stays |
| DynamicWorkers.DynamicWorkerService.CreateWorkersForQueue | src/common/workers/lifecycle/worker-lifecycle.service.ts:32-46 | creates workers 1..n for the configured count n, none for a negative one, up to the first that fails |
| DynamicWorkers.DynamicWorkerService.ShutdownAll | src/common/workers/lifecycle/worker-lifecycle.service.ts:26-30 | clears the map, unless one close fails: then it keeps all |
| DynamicWorkers.DynamicWorkerService.ReloadWorkers | src/common/workers/dynamic-worker.service.ts:75-78 | shut-down, then start-up from the current configuration; a failing shut-down changes nothing |
| DynamicWorkers.DynamicWorkerService.GetWorkersStatus | src/common/workers/dynamic-worker.service.ts:164-176 | totals for exactly the queues that have workers, each the number of its workers |
| QueueAdmin.QueueAdminController.RecordTotal | src/common/controllers/queue-admin.controller.ts:136-142 | the live count is written back only while the queue has workers |
| QueueAdmin.QueueAdminController.Create | src/common/controllers/queue-admin.controller.ts:178-204 | registry first, then workers; a worker failure is reported but keeps the queue |
| QueueAdmin.QueueAdminController.Update | src/common/controllers/queue-admin.controller.ts:207-250 | registry, then replacement of the workers if the concurrency changes, then reconciliation and write-back, whose failure to save is reported though its count stays |
| QueueAdmin.QueueAdminController.Delete | src/common/controllers/queue-admin.controller.ts:253-268 | workers first, then the registry, whose errors are let through |
| QueueAdmin.QueueAdminController.CreateWorker | src/common/controllers/queue-admin.controller.ts:132-150 | one more worker and the write-back, or the error |
| QueueAdmin.QueueAdminController.DeleteWorker | src/common/controllers/queue-admin.controller.ts:155-173 | one worker fewer and the write-back, or the error |
| QueueAdmin.WorkersAreCurrentExactlyWhen | src/common/controllers/queue-admin.controller.ts:132-268 | over every run of requests from a start-up that may be cut short, whichever calls fail: the concurrency of each live worker is that of the current definition of its queue, all along, if and only if no update is cut short with a worker left behind |
| QueueAdmin.IdsAreDistinctInEveryRun | src/common/controllers/queue-admin.controller.ts:132-268 | over every run from any configuration, updates cut short included, each queue is numbered 1..n and no two workers share an id |
| QueueAdmin.NextNumbered | src/common/controllers/queue-admin.controller.ts:132-268 | any one request, whichever of its calls fail, keeps the numbering |
| QueueAdmin.NextLive | src/common/controllers/queue-admin.controller.ts:132-268 | one request keeps all workers current if and only if it is no such update |
| QueueAdmin.InitializeStarts | src/common/workers/lifecycle/worker-lifecycle.service.ts:14-46 | start-up from unique names gives each enabled entry its desired workers, under its own definition |
| QueueAdmin.UpdateStaysCurrentExactlyWhen | src/common/controllers/queue-admin.controller.ts:207-250 | exactly which updates leave a worker under an outdated concurrency or a vanished queue |
| QueueAdmin.FailedUpdateLeavesWorkersBehind | src/common/controllers/queue-admin.controller.ts:207-250 | from start-up, for any enabled queue with a worker: an update that cannot reopen it, or cannot save a changed concurrency, does |
| QueueAdmin.UpdateIsIdempotent | src/common/controllers/queue-admin.controller.ts:207-250 | repeating an update that changed the registry and reconciled the workers, even if saving the count failed, changes nothing at all: no worker, definition or entry order, enabled or not, with or without environment override |
| QueueAdmin.RecordFollowsWorkerRequests | src/common/controllers/queue-admin.controller.ts:132-173 | once a worker was added, every run of worker requests, failing or not, keeps the recorded count at the live one, except that the last worker leaves a one behind |
| QueueAdmin.DeleteUndoesCreateExactlyWhen | src/common/controllers/queue-admin.controller.ts:178-268 | deleting what was just created restores the whole state if and only if no configuration entry had the name |
| QueueAdmin.DeletionTakesTheDisabledEntry | src/common/controllers/queue-admin.controller.ts:178-268 | from start-up with a disabled entry of that name it does not |
| AdminRequests.StartupCounts | src/common/workers/lifecycle/worker-lifecycle.service.ts:14-46 | start-up gives every enabled entry as many workers as its queue is to have |
| AdminRequests.WorkersNext | src/common/controllers/queue-admin.controller.ts:132-268 | the number of workers of every queue after any request, from that before it and the calls that fail |
| AdminRequests.AnswerIs | src/common/controllers/queue-admin.controller.ts:132-268 | what every request answers, in the order in which failures are found out |
| AdminRequests.RegistryNext | src/common/controllers/queue-admin.controller.ts:132-268 | what every request makes of the registry: the operation on it, and the live count written back by worker requests and updates that go through |
| MemoryAlarm.ResourceMonitorService.CheckResources | src/common/monitoring/resource-monitor.service.ts:82-91 | one tick records the sample and runs the alarm on it |
| MemoryAlarm.ResourceMonitorService.AddStats | src/common/monitoring/resource-monitor.service.ts:106-113 | appends the sample and cuts the history with slice |
| MemoryAlarm.ResourceMonitorService.CheckMemoryLimits | src/common/monitoring/resource-monitor.service.ts:115-173 | one step of the alarm: flags, counter and the signals sent, in order |
| MemoryAlarm.ClassifyIs | src/common/monitoring/resource-monitor.service.ts:115-140 | usage is critical above 95% of the limit in megabytes and a warning above 80% |
| MemoryAlarm.EpisodeIsLongestElevatedRun | src/common/monitoring/resource-monitor.service.ts:115-173 | the episode is the longest run of elevated samples ending now |
| MemoryAlarm.AlarmIsEpisode | src/common/monitoring/resource-monitor.service.ts:115-160 | after any samples the counter is the length of the episode and the flags say whether it holds a warning and a critical sample |
| MemoryAlarm.SignalsFollowHistory | src/common/monitoring/resource-monitor.service.ts:123-172 | exactly the signals sent, in order: critical and warning for the first of their kind in an episode, normal at its end, then restart for three or more samples with a critical one |
| MemoryAlarm.OneSignalPerEpisode | src/common/monitoring/resource-monitor.service.ts:123-160 | between two critical signals, as between two warnings, usage was normal |
| MemoryAlarm.CriticalEpisodeSignals | src/common/monitoring/resource-monitor.service.ts:123-134 | an episode with a critical sample did send a critical signal |
| MemoryAlarm.RestartAfterOneCritical | src/common/monitoring/resource-monitor.service.ts:162-172 | one critical sample and two warnings request a restart |
| MemoryAlarm.KeptSamples | src/common/monitoring/resource-monitor.service.ts:106-113 | a positive limit keeps the last samples, zero keeps all, a negative one none |
| MemoryAlarm.HistoryIsBoundedExactlyWhen | src/common/monitoring/resource-monitor.service.ts:106-113 | the history is bounded by its limit if and only if the limit is not zero |
| RouteMatching.MatchPath | src/common/messaging/request-routing.service.ts:430-460 | matches if and only if there are as many segments and each template segment is equal, a star or begins with a colon; the shortcut for equal strings decides nothing |
| RouteMatching.Resolve | src/common/messaging/request-routing.service.ts:385-419 | the first route that matches decides, and a payload it cannot build ends the search |
| RouteMatching.FirstMatchIsFirst | src/common/messaging/request-routing.service.ts:389-396 | it is the first of the routes whose method and segments take the request, if one does |
| RouteMatching.ResolvedIs | src/common/messaging/request-routing.service.ts:397-419 | what is answered: its pattern, that with ".completed" as the event, and its payload; nothing when no route takes the request or the payload cannot be built |
| RouteMatching.NormalizedSegments | src/common/messaging/request-routing.service.ts:421-428 | normalising keeps exactly the non-empty segments before the query string |
| RouteMatching.NormalPathIs | src/common/messaging/request-routing.service.ts:421-428 | the path is what is before the query, with a slash put in front if it has none, and otherwise without the slashes at its end, the root keeping one |
| RouteMatching.SegmentsAre | src/common/messaging/request-routing.service.ts:430-434 | segments are the non-empty texts between slashes |
| RouteMatching.BeforeIs | src/common/messaging/request-routing.service.ts:422 | the query begins at the first question mark |
| RouteMatching.OnlySegmentsCount | src/common/messaging/request-routing.service.ts:385-460 | requests that agree on method and those segments are routed alike by any table |
| RouteMatching.OverlapExactlyWhenCompatible | src/common/messaging/request-routing.service.ts:430-460 | some path fits two templates if and only if no two different literals meet |
| RouteMatching.TemplateSegments | src/common/messaging/request-routing.service.ts:435 | a template written with proper segments is read back as those |
| RouteMatching.AtMostOneMatches | src/common/messaging/request-routing.service.ts:389-396 | in a table without compatible templates at most one route takes a request |
| RouteMatching.OrderDoesNotMatter | src/common/messaging/request-routing.service.ts:389-415 | such a table routes every request alike in any order |
| RouteMatching.OverlapMakesOrderMatter | src/common/messaging/request-routing.service.ts:389-415 | two routes that can take one request answer it differently in the two orders |
| RouteTable.TableIsDisjoint | src/common/messaging/request-routing.service.ts:21-383 | no two of the 96 routes of the gateway are compatible |
| RouteTable.GroupsWellFormed | src/common/messaging/request-routing.service.ts:21-383 | every template of the table has proper segments |
| RouteTable.TableOrderDoesNotMatter | src/common/messaging/request-routing.service.ts:21-396 | so at most one of them takes a request, and every request, matched or not, is routed alike in any order of the table |
| WrittenRoutes.TableIsAsWritten | src/common/messaging/request-routing.service.ts:21-383 | the table is the one written out route by route, with method, segments and pattern of each |
| Transactions.TransactionService.ExecuteTransaction | src/common/services/transaction.service.ts:20-68 | the result of the first failing call or of the work, and the calls made: roll-back on failure, release always, nothing when no runner could be created |
| Transactions.TransactionService.RunInTransaction | src/common/services/transaction.service.ts:26-48 | the calls inside the try, up to the first that fails |
| Transactions.TransactionService.ExecuteWithRetry | src/common/services/transaction.service.ts:77-114 | stops at the first attempt that succeeds, fails for good or is the last, and reports it; the default error when no attempt is allowed |
| Transactions.LastIsUnique | src/common/services/transaction.service.ts:84-111 | how the attempts turn out determines the last one |
| Transactions.RetriedExactlyWhen | src/common/services/transaction.service.ts:119-129 | an attempt is followed by another if and only if it failed with one of the three codes |
| Transactions.FirstFailureDecides | src/common/services/transaction.service.ts:20-68 | an attempt gives the value of the work, or the error of the first of its five steps that fails |
| Transactions.CallsAre | src/common/services/transaction.service.ts:20-68 | exactly the calls made, for each step that can fail |
| Transactions.DelaysAre | src/common/services/transaction.service.ts:100 | the delays are 100, 200, 400, 800 and then 1000 ms |
| Transactions.DelayCaps | src/common/services/transaction.service.ts:100 | the delay doubles from 100 ms and is a second from the fifth retry on |
| Transactions.TotalSleep | src/common/services/transaction.service.ts:99-106 | r retries sleep 100(2^r - 1) ms for r up to 4 and 1500 + 1000(r - 4) beyond |
| Transactions.OneCommitAtTheEnd | src/common/services/transaction.service.ts:20-114 | success is reported if and only if a commit succeeded; it is the only one, and only its release follows |
| Transactions.RunnersAreReleased | src/common/services/transaction.service.ts:24-67 | every runner created is released once, before the next is created |
| Transactions.EveryRunnerIsSettledOnce | src/common/services/transaction.service.ts:20-114 | over the whole retry loop every runner created is committed, by a commit that succeeds, or rolled back, never both and never neither, then released, and only then does the service sleep or create another |
| Transactions.RollbackExactlyOnFailure | src/common/services/transaction.service.ts:49-59 | over the whole retry loop there are as many roll-backs as attempts that had a runner and failed |
| Timetable.GetSchedulesForSection | src/common/seeding/fixtures/schedules.fixture.ts:17-53 | the two slots of the pattern, for the section and its classroom |
| Timetable.GetSchedulesForMultipleSections | src/common/seeding/fixtures/schedules.fixture.ts:59-75 | section i owns the schedules 2i and 2i + 1, under pattern i mod 3 and classroom i mod m |
| Timetable.SlotsInTurn | src/common/seeding/fixtures/schedules.fixture.ts:17-75 | the days and hours of each section, and its classroom |
| Timetable.SectionsClashExactlyWhen | src/common/seeding/fixtures/schedules.fixture.ts:66-72 | with m distinct classrooms two sections want one room at one time if and only if lcm(3, m) divides the distance of their indices |

## Left out

- Clock: each synchronous stretch reads the clock once; the source may read it several times within a millisecond.
- Cache entry sizes, memory usage, response times and the derived hit rate; logging throughout.
- CacheKeys.KeyIsCanonical: keys are the text before md5, so a collision of the digest is not modelled; methods, paths and user ids without colons and the other cases being those of KeysCoincideExactlyWhen; the parsed path is taken as given.
- CacheKeys.ParametersAreDetermined: string values only; array values (sorted in place by the source) and object values (printed as JSON) are not modelled.
- The fallback key made of clock and random number after an error in key generation.
- Strings are sequences of characters with ASCII case mapping; UTF-16 surrogates and Unicode case are not modelled.
- JobResults.RoundTripExactlyForObjects: JSON text is not modelled, numbers are integers, values without a JSON form are not results.
- JobProcessing.JobProcessorService.ProcessJob: saving the result record (whose errors are only logged) in Redis and the timeout race are not modelled; a timeout is a rejection of the dispatch.
- What `queue.interceptor.ts` does after enqueueing, so no order of job statuses is claimed; the history list, whose writer and reader use different keys.
- Socket events other than subscribe, unsubscribe and disconnect; connection statistics.
- QueueRegistry.DynamicQueueService.SetQueueWorkers: infinite counts and NaN are not modelled; nor are definitions with a fractional count or without a concurrency.
- QueueRouter.DetermineQueueForUrl: each queue name has one reading, taken whenever its turn comes; the configuration does not change between two readings.
- Worker status and pausing, which change no count, number or concurrency; the events of a worker after its creation.
- The worker strategy and limits of the environment are constant and numeric.
- DynamicWorkers.DynamicWorkerService.GetWorkersStatus: the totals only, not the paused and active counts.
- Concurrent administration requests: `addWorkerForQueue` reads the count before an await, so two at once may choose one number.
- Saving the configuration to its repository and publishing updates, whose errors are ignored by the source.
- MemoryAlarm.ResourceMonitorService.CheckMemoryLimits: thresholds are scaled to integers instead of rounded products; the payloads of the signals are left out, but for the counter.
- RouteMatching.Resolve: payload builders are one partial function of the route; their parameters and headers are not modelled.
- Transactions.TransactionService.ExecuteWithRetry: a callback that goes on after its timeout, and a commit that takes effect though it reports an error, are not modelled.
- Timetable.GetSchedulesForSection: the pattern is given by its index.
- Controllers without state, data transfer objects, NATS forwarding, Redis, BullMQ, TypeORM, guards, pagination, load tests and seeders: easy members or input and output.
