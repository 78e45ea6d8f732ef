# Student cache consistency engine

This project models the write and read paths of a student-records service.
The service keeps a relational student table behind an Infinispan cache and
lets start-up configuration choose one of four consistency policies. The model
covers the following parts, one Dafny module each:

- **Domain** (`domain.dfy`): students, request DTOs, cache keys and values, errors.
- **Repository** (`repository.dfy`): the student table and the subject table.
  The table is a `StudentRepository` class whose fields are the rows and the
  identity counter. `save` succeeds only if the email is present and unique and
  an update's id exists. A new row takes the next identity. The query
  `findAllWithSubjects` fixes no order; the model lists the rows in ascending
  id order. The transaction manager's rollback
  restores the rows but not the identity counter.
- **CacheHelpers** (`cache_helper.dfy`): the dual-mode cache access layer as a
  `CacheHelper` class over a map of entries and a health value. The health value
  says which backend calls fail: the whole backend may be down, or single keys
  may be degraded.
  - The best-effort calls swallow failures.
  - The strict calls report them as a `CacheException`.
  - The availability probe writes a fresh key, checks it and removes it. The
    thread id and time stamp in its key become a counter.
- **CacheAside, WriteThrough, FailFast, AsyncCache**: the four strategies as
  classes over one repository and one cache helper.
  - The asynchronous strategy keeps its background tasks in a `pending` queue.
    `RunPending(i)` runs any one of them, in any order.
- **CacheStrategies** (`cache_strategy.dfy`): the `CacheStrategy` interface as a
  closed datatype over the four implementations.
  - `WriteEffect` and `DeleteEffect` give, per policy, what a write reports and
    what it leaves in the cache.
  - `WriteEffectGuarantees` and `DeleteEffectGuarantees` set the policies side by side.
- **Coherence** (`coherence.dfy`): when the cache agrees with the table. The
  write steps that keep the agreement: with a cache where no call fails, every
  synchronous strategy keeps it, and a read through a coherent cache returns
  what the table holds.
- **StrategyFactory, StrategyConfig**: name resolution (`name + "Strategy"` in
  the bean registry) and the start-up selection with its fallback to cache-aside.
- **StudentServices** (`student_service.dfy`): the transactional service.
  - Validation order: duplicate email, invalid subject ids, unknown id, email in use.
  - Then the strategy call.
  - On a reported failure, the table rolls back to its state at the start of the call.
  - The reads are cache-aside, with best-effort repopulation.
- **Scenarios** (`scenarios.dfy`): concrete runs that show how the policies
  differ when the cache misbehaves.

Two consequences of the code as written are pinned down as scenarios:

- **The cache is not rolled back with the table.** A write-through or
  fail-fast save can put the record in the cache and then fail to invalidate
  the collection key. The service then reports an error and the table rolls
  back, but the cache keeps a record the table does not hold
  (`WriteThroughRollbackLeavesCacheOnlyRecord`). The comments in
  `CacheStrategyFactory.java` describe write-through as "both rollback"; the
  code gives that only for the table.
- **Asynchronous tasks are unordered.** Two background tasks that run out of
  order leave the older record in the cache for good (`AsyncTasksOutOfOrder`).

## Model

| member | source | states |
|---|---|---|
| Repository.SaveOutcome | src/main/java/com/project/cache/model/Student.java:12-17 | save succeeds exactly when the email is non-null, the id is absent or names an existing row, and no other row holds the email; a new row gets the next identity, an existing row is returned as given; every refusal is a store error |
| Repository.SaveKeepsValid | src/main/java/com/project/cache/model/Student.java:12-17 | a save keeps every row under its own id, below the identity counter, with a non-null email no other row has; the counter never decreases and a new id was not in use |
| Repository.RowsFromIsScan | src/main/java/com/project/cache/repository/StudentRepository.java:13-14 | the range scan lists every row of the range, only rows of the table, in strictly ascending id order |
| Repository.KnownDistinct | src/main/java/com/project/cache/repository/SubjectRepository.java:7 | the subject lookup returns only existing requested ids, every existing requested id, each once, and no more ids than were requested |
| Repository.KnownDistinctComplete | src/main/java/com/project/cache/services/impl/StudentServiceImpl.java:150-154 | the lookup finds as many subjects as were requested exactly when every requested id exists and none repeats (both directions) |
| Repository.KnownDistinctKeepsAll | src/main/java/com/project/cache/services/impl/StudentServiceImpl.java:151-156 | when the size check passes, the subjects found are exactly the requested ids in request order |
| Repository.StudentRepository.constructor | src/main/java/com/project/cache/repository/StudentRepository.java:10 | an empty table whose identity starts at 1 |
| Repository.StudentRepository.FindAll | src/main/java/com/project/cache/repository/StudentRepository.java:13-14 | `findAllWithSubjects` returns every row, only rows, each once; the order (ascending id) is the model's choice, see Left out |
| Repository.StudentRepository.ExistsByEmail | src/main/java/com/project/cache/repository/StudentRepository.java:11 | true exactly when some row holds the email; never for a null email, since no row holds one |
| Repository.StudentRepository.ExistsById | src/main/java/com/project/cache/repository/StudentRepository.java:10 | the inherited `existsById` agrees with `findById`: true exactly when a row is found |
| Repository.StudentRepository.FindById | src/main/java/com/project/cache/repository/StudentRepository.java:10 | the inherited `findById` finds a row exactly when the id is in the table, and the row found carries that id |
| Repository.SubjectRepository.FindAllById | src/main/java/com/project/cache/repository/SubjectRepository.java:7 | the inherited `findAllById` returns only existing requested ids and every existing requested one; it finds as many as were requested exactly when all exist and none repeats |
| Repository.StudentRepository.Save | src/main/java/com/project/cache/repository/StudentRepository.java:10 | `save` returns the store's answer and leaves the table as the save specification says, keeping the table's constraints |
| Repository.StudentRepository.DeleteById | src/main/java/com/project/cache/repository/StudentRepository.java:10 | `deleteById` removes the row (an absent id is ignored) and keeps the table's constraints |
| Repository.StudentRepository.Rollback | src/main/java/com/project/cache/services/impl/StudentServiceImpl.java:32-34 | the transaction's rollback restores the rows and keeps the identity counter |
| Repository.SubjectRepository.constructor | src/main/java/com/project/cache/repository/SubjectRepository.java:7 | the subject table holds exactly the given ids |
| CacheHelpers.RefreshEffect | src/main/java/com/project/cache/strategy/impl/CacheAsideStrategy.java:26-33 | put-then-invalidate caches the saved record when its put succeeds, drops the collection when its remove succeeds, and leaves every key untouched whose call failed or that was not addressed |
| CacheHelpers.EvictEffect | src/main/java/com/project/cache/strategy/impl/CacheAsideStrategy.java:56-61 | remove-then-invalidate drops the record key and the collection key when their calls succeed, leaves each as it was when its call fails, and touches nothing else |
| CacheHelpers.StrictRefreshAgreesWithRefresh | src/main/java/com/project/cache/strategy/impl/WriteThroughStrategy.java:31-37 | the strict sequence passes exactly when both calls succeed and then equals the best-effort one; it fails with the first failing key; a failed invalidation after a good put leaves the put in place |
| CacheHelpers.StrictSaveReflectsWrite | src/main/java/com/project/cache/strategy/impl/WriteThroughStrategy.java:26-49 | a strict write succeeds exactly when the store and both cache calls do, and then returns the stored record with the cache holding it and no collection; a cache failure after the store write is a cache-operation error, a store failure a database-operation error |
| CacheHelpers.StrictDeleteReflectsDelete | src/main/java/com/project/cache/strategy/impl/WriteThroughStrategy.java:86-108 | a strict delete passes exactly when both removes succeed, and then neither the record nor the collection is cached; a failure is a cache-operation error |
| CacheHelpers.InvalidateIdempotent | src/main/java/com/project/cache/helper/impl/CacheHelperImpl.java:121-129 | invalidating the collection twice equals invalidating once |
| CacheHelpers.FirstFailing | src/main/java/com/project/cache/helper/impl/CacheHelperImpl.java:107-110 | the index where the put loop stops: every earlier put succeeds and the put at that index fails |
| CacheHelpers.PutStudentsEffect | src/main/java/com/project/cache/helper/impl/CacheHelperImpl.java:107-110 | after the puts each key holds the last student put under it and keys no student maps to are unchanged |
| CacheHelpers.AddStudentsEffect | src/main/java/com/project/cache/helper/impl/CacheHelperImpl.java:102-118 | the puts before the first failure stay, other keys are unchanged, and the list sits under the collection key exactly when no put failed and the list put succeeds |
| CacheHelpers.CacheHelper.constructor | src/main/java/com/project/cache/helper/impl/CacheHelperImpl.java:24 | an empty cache with the given health |
| CacheHelpers.CacheHelper.CacheStudent | src/main/java/com/project/cache/helper/impl/CacheHelperImpl.java:31-41 | puts the student under its key, or changes nothing when the call fails |
| CacheHelpers.CacheHelper.UpdateStudentInCache | src/main/java/com/project/cache/helper/impl/CacheHelperImpl.java:44-53 | the same put as `cacheStudent` |
| CacheHelpers.CacheHelper.GetStudentFromCacheById | src/main/java/com/project/cache/helper/impl/CacheHelperImpl.java:56-69 | returns the cached student exactly when the call succeeds and a student value sits under the key; null otherwise |
| CacheHelpers.CacheHelper.RemoveStudentFromCache | src/main/java/com/project/cache/helper/impl/CacheHelperImpl.java:72-81 | removes the record key only, or nothing when the call fails |
| CacheHelpers.CacheHelper.GetAllStudentsFromCache | src/main/java/com/project/cache/helper/impl/CacheHelperImpl.java:85-99 | returns the cached list when the call succeeds and a list is cached, and an empty list otherwise |
| CacheHelpers.CacheHelper.AddStudentsToCache | src/main/java/com/project/cache/helper/impl/CacheHelperImpl.java:102-118 | the loop's cache equals the specification of one put per student up to the first failure, then the list |
| CacheHelpers.CacheHelper.InvalidateAllStudentsCache | src/main/java/com/project/cache/helper/impl/CacheHelperImpl.java:121-129 | removes the collection key only, or nothing when the call fails |
| CacheHelpers.CacheHelper.CacheStudentStrict | src/main/java/com/project/cache/helper/impl/CacheHelperImpl.java:136-146 | the put, reporting a CacheException on the student's key exactly when the call fails |
| CacheHelpers.CacheHelper.UpdateStudentInCacheStrict | src/main/java/com/project/cache/helper/impl/CacheHelperImpl.java:149-159 | the same strict put |
| CacheHelpers.CacheHelper.RemoveStudentFromCacheStrict | src/main/java/com/project/cache/helper/impl/CacheHelperImpl.java:162-172 | the remove, reporting a CacheException exactly when the call fails |
| CacheHelpers.CacheHelper.InvalidateAllStudentsCacheStrict | src/main/java/com/project/cache/helper/impl/CacheHelperImpl.java:175-184 | the collection remove, reporting a CacheException exactly when the call fails |
| CacheHelpers.CacheHelper.IsCacheAvailable | src/main/java/com/project/cache/helper/impl/CacheHelperImpl.java:191-208 | true exactly when the probe's round trip on a fresh key succeeds; the entries end as they were and the next probe uses a new key |
| Coherence.CoherentLookup | src/main/java/com/project/cache/services/impl/StudentServiceImpl.java:102-107 | a record served from a coherent cache is the row the table holds |
| Coherence.RefreshKeepsCoherent | src/main/java/com/project/cache/strategy/impl/CacheAsideStrategy.java:20-36 | put-then-invalidate with both calls succeeding keeps the cache coherent with the table that now holds the saved row |
| Coherence.EvictKeepsCoherent | src/main/java/com/project/cache/strategy/impl/CacheAsideStrategy.java:52-62 | remove-then-invalidate with both calls succeeding keeps the cache coherent with the table without that row |
| Coherence.HealthySaveKeepsCoherent | src/main/java/com/project/cache/strategy/impl/WriteThroughStrategy.java:22-50 | with no failing call the strict write changes the cache as the best-effort one does and keeps it coherent with the table after the save |
| Coherence.PutRowsKeepsCoherent | src/main/java/com/project/cache/helper/impl/CacheHelperImpl.java:107-110 | putting table rows under their keys keeps every record key coherent and leaves the collection key alone |
| Coherence.AddStudentsKeepsCoherent | src/main/java/com/project/cache/services/impl/StudentServiceImpl.java:84-92 | loading the table's listing into a coherent cache keeps it coherent, whichever put fails |
| CacheAside.CacheAsideStrategy.constructor | src/main/java/com/project/cache/strategy/impl/CacheAsideStrategy.java:17-18 | the strategy over the given repository and helper |
| CacheAside.CacheAsideStrategy.SaveStudent | src/main/java/com/project/cache/strategy/impl/CacheAsideStrategy.java:20-36 | returns the store's answer whatever the cache does; on success the cache is refreshed best-effort, and holds the record when its put succeeds |
| CacheAside.CacheAsideStrategy.UpdateStudent | src/main/java/com/project/cache/strategy/impl/CacheAsideStrategy.java:38-50 | as save, for an existing row |
| CacheAside.CacheAsideStrategy.GetStrategyName | src/main/java/com/project/cache/strategy/impl/CacheAsideStrategy.java:64-67 | the policy reports itself as "CACHE_ASIDE" |
| CacheAside.CacheAsideStrategy.IsStrategyAvailable | src/main/java/com/project/cache/strategy/impl/CacheAsideStrategy.java:69-72 | always available, whatever the cache's health |
| CacheAside.CacheAsideStrategy.DeleteStudent | src/main/java/com/project/cache/strategy/impl/CacheAsideStrategy.java:52-62 | deletes the row, then evicts best-effort |
| WriteThrough.WriteThroughStrategy.constructor | src/main/java/com/project/cache/strategy/impl/WriteThroughStrategy.java:19-20 | the strategy over the given repository and helper |
| WriteThrough.WriteThroughStrategy.SaveStudent | src/main/java/com/project/cache/strategy/impl/WriteThroughStrategy.java:22-50 | store write, then strict put and strict invalidation; the result and cache are the strict-write specification of the store's answer |
| WriteThrough.WriteThroughStrategy.UpdateStudent | src/main/java/com/project/cache/strategy/impl/WriteThroughStrategy.java:52-80 | as save, with the strict update put |
| WriteThrough.WriteThroughStrategy.DeleteStudent | src/main/java/com/project/cache/strategy/impl/WriteThroughStrategy.java:82-109 | deletes the row, then strict remove and strict invalidation, reporting the first cache failure |
| WriteThrough.WriteThroughStrategy.GetStrategyName | src/main/java/com/project/cache/strategy/impl/WriteThroughStrategy.java:111-114 | the policy reports itself as "WRITE_THROUGH" |
| WriteThrough.WriteThroughStrategy.IsStrategyAvailable | src/main/java/com/project/cache/strategy/impl/WriteThroughStrategy.java:116-121 | the probe's answer |
| FailFast.FailFastStrategy.constructor | src/main/java/com/project/cache/strategy/impl/FailFastStrategy.java:19-20 | the strategy over the given repository and helper |
| FailFast.FailFastStrategy.SaveStudent | src/main/java/com/project/cache/strategy/impl/FailFastStrategy.java:22-57 | a failed probe refuses with "cache unavailable" and changes neither table nor cache; otherwise as write-through |
| FailFast.FailFastStrategy.UpdateStudent | src/main/java/com/project/cache/strategy/impl/FailFastStrategy.java:59-94 | as save, with the strict update put |
| FailFast.FailFastStrategy.DeleteStudent | src/main/java/com/project/cache/strategy/impl/FailFastStrategy.java:96-130 | a failed probe refuses before the delete; otherwise as write-through |
| FailFast.FailFastStrategy.GetStrategyName | src/main/java/com/project/cache/strategy/impl/FailFastStrategy.java:132-135 | the policy reports itself as "FAIL_FAST" |
| FailFast.FailFastStrategy.IsStrategyAvailable | src/main/java/com/project/cache/strategy/impl/FailFastStrategy.java:137-147 | the probe's answer |
| AsyncCache.AsyncCacheStrategy.constructor | src/main/java/com/project/cache/strategy/impl/AsyncCacheStrategy.java:20-21 | the strategy over the given repository and helper, with no task pending |
| AsyncCache.AsyncCacheStrategy.SaveStudent | src/main/java/com/project/cache/strategy/impl/AsyncCacheStrategy.java:23-32 | returns the store's answer with the cache untouched and, on success, queues a refresh task for the saved record |
| AsyncCache.AsyncCacheStrategy.UpdateStudent | src/main/java/com/project/cache/strategy/impl/AsyncCacheStrategy.java:34-39 | as save, queuing an "update" task |
| AsyncCache.AsyncCacheStrategy.DeleteStudent | src/main/java/com/project/cache/strategy/impl/AsyncCacheStrategy.java:41-45 | deletes the row and queues an eviction task |
| AsyncCache.AsyncCacheStrategy.PerformAsyncCacheOperations | src/main/java/com/project/cache/strategy/impl/AsyncCacheStrategy.java:47-58 | appends the refresh task to the queue and changes nothing else |
| AsyncCache.AsyncCacheStrategy.PerformAsyncCacheDeletion | src/main/java/com/project/cache/strategy/impl/AsyncCacheStrategy.java:60-71 | appends the eviction task to the queue and changes nothing else |
| AsyncCache.RunTask | src/main/java/com/project/cache/strategy/impl/AsyncCacheStrategy.java:49-57 | a refresh task caches its record when that put succeeds, an eviction task drops the record key when that remove succeeds, either drops the collection key when that remove succeeds, and nothing else changes |
| AsyncCache.AsyncCacheStrategy.GetStrategyName | src/main/java/com/project/cache/strategy/impl/AsyncCacheStrategy.java:73-76 | the policy reports itself as "ASYNC_CACHE" |
| AsyncCache.AsyncCacheStrategy.IsStrategyAvailable | src/main/java/com/project/cache/strategy/impl/AsyncCacheStrategy.java:78-81 | always available, whatever the cache's health |
| AsyncCache.AsyncCacheStrategy.RunPending | src/main/java/com/project/cache/strategy/impl/AsyncCacheStrategy.java:49-57 | any pending task may run next: it leaves the queue and its best-effort steps apply to the cache as it is now |
| CacheStrategies.NamesIdentifyStrategies | src/main/java/com/project/cache/strategy/CacheStrategy.java:25 | two strategies report the same name exactly when they are the same policy |
| CacheStrategies.WriteEffectGuarantees | src/main/java/com/project/cache/strategy/CacheStrategy.java:10-15 | a reported success is the store's answer; the fault-tolerant policies report exactly that answer; a strict success leaves the record and no collection cached; a refusal or store failure leaves the cache alone; with no failing call, every synchronous policy writes like cache-aside |
| CacheStrategies.DeleteEffectGuarantees | src/main/java/com/project/cache/strategy/CacheStrategy.java:20 | only the strict policies report a failed delete; their success leaves neither the record nor the collection cached; a refusal leaves the cache alone; with no failing call every synchronous policy evicts like cache-aside |
| CacheStrategies.SaveStudent | src/main/java/com/project/cache/strategy/CacheStrategy.java:10 | each implementation's save meets the policy's write specification; the table is written unless fail-fast refuses |
| CacheStrategies.UpdateStudent | src/main/java/com/project/cache/strategy/CacheStrategy.java:15 | the same for updates |
| CacheStrategies.DeleteStudent | src/main/java/com/project/cache/strategy/CacheStrategy.java:20 | each implementation's delete meets the policy's delete specification |
| CacheStrategies.IsStrategyAvailable | src/main/java/com/project/cache/strategy/CacheStrategy.java:30 | the fault-tolerant policies are always available, the strict ones when the probe succeeds; the entries are unchanged |
| StrategyFactory.CacheStrategyFactory.constructor | src/main/java/com/project/cache/strategy/CacheStrategyFactory.java:13-16 | the factory over the given bean registry |
| StrategyFactory.CacheStrategyFactory.GetStrategy | src/main/java/com/project/cache/strategy/CacheStrategyFactory.java:18-24 | resolves exactly the names whose name + "Strategy" is registered, returning that bean; any other name is an unknown-strategy error |
| StrategyFactory.CacheStrategyFactory.GetCacheAsideStrategy | src/main/java/com/project/cache/strategy/CacheStrategyFactory.java:27 | the bean registered as "cacheAsideStrategy", if any |
| StrategyFactory.CacheStrategyFactory.GetWriteThroughStrategy | src/main/java/com/project/cache/strategy/CacheStrategyFactory.java:30-32 | the bean registered as "writeThroughStrategy", if any |
| StrategyFactory.CacheStrategyFactory.GetFailFastStrategy | src/main/java/com/project/cache/strategy/CacheStrategyFactory.java:35-37 | the bean registered as "failFastStrategy", if any |
| StrategyFactory.CacheStrategyFactory.GetAsyncCacheStrategy | src/main/java/com/project/cache/strategy/CacheStrategyFactory.java:40-42 | the bean registered as "asyncCacheStrategy", if any |
| StrategyFactory.SuffixInjective | src/main/java/com/project/cache/strategy/CacheStrategyFactory.java:19 | appending the suffix maps different names to different bean names |
| StrategyFactory.RegistryResolution | src/main/java/com/project/cache/strategy/CacheStrategyFactory.java:18-24 | over the container's registry exactly the four short names resolve, each to its own strategy |
| StrategyConfig.CacheStrategyConfig.constructor | src/main/java/com/project/cache/config/CacheStrategyConfig.java:17-18 | the configured name is the setting when present and "cacheAside" otherwise; nothing is selected yet |
| StrategyConfig.CacheStrategyConfig.InitializeStrategy | src/main/java/com/project/cache/config/CacheStrategyConfig.java:26-38 | keeps the configured strategy when it resolves and is available, else selects cache-aside; start-up fails only when cache-aside cannot be resolved; no cache entry changes |
| StrategyConfig.CacheStrategyConfig.PrimaryCacheStrategy | src/main/java/com/project/cache/config/CacheStrategyConfig.java:40-43 | the selection is always one of the registered strategies |
| StrategyConfig.StartUp | src/main/java/com/project/cache/config/CacheStrategyConfig.java:26-38 | over the container's registry, start-up always succeeds, an unknown name selects cache-aside, and the selection is cache-aside or the configured strategy, and cache-aside unless it was available at start-up |
| StudentServices.StudentService.constructor | src/main/java/com/project/cache/services/impl/StudentServiceImpl.java:25-30 | the service over the given repositories, helper and primary strategy |
| StudentServices.StudentService.BuildStudentFromDTO | src/main/java/com/project/cache/services/impl/StudentServiceImpl.java:143-166 | rejects the request exactly when a non-empty subject list names an unknown or repeated id; otherwise a new student with the request's fields and exactly the requested subjects |
| StudentServices.StudentService.UpdateStudentFields | src/main/java/com/project/cache/services/impl/StudentServiceImpl.java:168-203 | each non-null field replaces the old one; a changed email another row holds is refused (both directions); new subjects are the existing requested ones |
| StudentServices.StudentService.CreateStudent | src/main/java/com/project/cache/services/impl/StudentServiceImpl.java:32-49 | a duplicate email, then invalid subject ids, are refused with nothing changed; otherwise the result and cache follow the strategy's write specification; a failure leaves the table's rows as before, and a success adds exactly one row under a fresh id; a healthy synchronous write keeps a coherent cache coherent |
| StudentServices.StudentService.UpdateStudent | src/main/java/com/project/cache/services/impl/StudentServiceImpl.java:51-68 | an unknown id, then an email in use, are refused with nothing changed; otherwise the strategy's write specification applies to the patched row; a failure leaves the rows as before and a success replaces exactly that row |
| StudentServices.StudentService.DeleteStudent | src/main/java/com/project/cache/services/impl/StudentServiceImpl.java:126-141 | an unknown id is refused; otherwise the strategy's delete specification applies; success removes exactly that row, failure leaves the rows as before |
| StudentServices.StudentService.FindStudentById | src/main/java/com/project/cache/services/impl/StudentServiceImpl.java:98-124 | a cache hit is returned; a miss reads the table and caches the row, or reports not found; through a coherent cache the answer is the table's and coherence is kept |
| StudentServices.StudentService.FindAllStudents | src/main/java/com/project/cache/services/impl/StudentServiceImpl.java:70-96 | a non-empty cached list is returned; otherwise the table's listing, loaded into the cache; through a coherent cache the answer lists the table and coherence is kept |
| StudentServices.StudentService.UpdatedFieldsSaveCleanly | src/main/java/com/project/cache/services/impl/StudentServiceImpl.java:174-181 | a patch that passes the email check is never refused by the table for a duplicate email |
| Scenarios.WriteThroughRollbackLeavesCacheOnlyRecord | src/main/java/com/project/cache/strategy/impl/WriteThroughStrategy.java:42-45 | a failed invalidation makes the create fail and the table roll back, while the record stays cached and is served |
| Scenarios.FailFastRefusesWhileCacheDown | src/main/java/com/project/cache/strategy/impl/FailFastStrategy.java:27-31 | with the cache down, fail-fast refuses and writes neither table nor cache |
| Scenarios.CacheAsideServesThroughOutage | src/main/java/com/project/cache/strategy/impl/CacheAsideStrategy.java:20-36 | with the cache down, cache-aside still creates and reads from the table |
| Scenarios.CacheAsideStaleAfterFailedPut | src/main/java/com/project/cache/strategy/impl/CacheAsideStrategy.java:38-50 | a swallowed put failure leaves a stale record that later reads serve |
| Scenarios.AsyncAfterRename | src/main/java/com/project/cache/strategy/impl/AsyncCacheStrategy.java:34-39 | after an asynchronous rename the table is current, the cache still holds the old record, and both tasks are pending |
| Scenarios.AsyncTasksOutOfOrder | src/main/java/com/project/cache/strategy/impl/AsyncCacheStrategy.java:47-58 | reads are stale until the rename's task runs; the older task, run later, puts the old record back for good |
| Scenarios.UnknownStrategyFallsBack | src/main/java/com/project/cache/config/CacheStrategyConfig.java:26-38 | an unknown configured name selects cache-aside |
| Scenarios.StrictStrategyNeedsCacheAtStartUp | src/main/java/com/project/cache/config/CacheStrategyConfig.java:26-38 | fail-fast is kept when the probe succeeds at start-up and replaced by cache-aside when it fails |

## Left out

- Logging, log messages and the text of exception messages: errors are modelled by kind (`Error`), not by message.
- The Infinispan cache manager and its configuration. `InfinispanConfig` is not part of this model.
- The cache's health decides, for a whole operation, whether every call on a given key fails or succeeds. A call that fails once and then succeeds on the same key within one operation is not modelled. The members below rest on this.
- CacheHelpers.CacheHelper.IsCacheAvailable: a probe whose put succeeds and whose `containsKey` or `remove` then throws, or whose `containsKey` answers false, is not modelled. In the source such a probe answers false and can leave its key cached until the entry's five-second lifespan ends. The model's "entries end as they were" holds because of this abstraction, and the lifespan is not modelled.
- CacheStrategies.IsStrategyAvailable: "the entries are unchanged" holds only under the all-or-nothing probe above. In the source a strict strategy's availability check can leave a probe key behind.
- StrategyConfig.CacheStrategyConfig.InitializeStrategy: "no cache entry changes" holds only under the all-or-nothing probe above. In the source the start-up availability check can leave a probe key behind.
- StudentServices.StudentService.FindStudentById: a failed cache `get` followed by a successful re-put on the same key is not modelled. In the model a failed get means the put on that key fails too, so the miss path after a failed get leaves the cache as it was. In the source that put may succeed and cache the row.
- Repository.StudentRepository.FindAll: the query has no ORDER BY, so its order is unspecified. The model fixes ascending id order, and the collection key's coherence (`Coherence.ListsTable`) is stated against that order.
- StrategyFactory.RegistryResolution: the registry holds the four component beans only. The map the container injects also holds the `primaryCacheStrategy` bean, which the name "primaryCache" would look up; that case is not modelled.
- Real concurrency: the background tasks are a queue that any interleaving may drain. Each task runs as one step, so interleavings inside a task are not modelled.
- The probe key's thread id and wall-clock time become a counter that makes each key fresh. Clocks and threads are not modelled.
- JPA relationship maintenance: the back references from subjects to students, lazy loading and the entity identity/aliasing of managed objects. A student's subjects are the list of their ids.
- Repository.KnownDistinct: `findAllById` is modelled as returning the existing ids in order of first request. The database's real order is not modelled.
- StudentServices.StudentService.UpdateStudentFields: the new subject list is stated as a set (the existing requested ids), not with its order.
- Rollback restores only the table. The cache is never rolled back, as in the code, and the identity counter is not restored, as with identity columns.
- Exceptions other than those the code raises or catches (for example an unchecked exception thrown from inside the cache client outside a modelled call) are not modelled.
- The REST controllers, the subject service and `CacheApplication` are not part of this model.
