/**
 * Asynchronous writes: the store write is synchronous; the cache steps are
 * handed to a background task that is not awaited. Dispatched tasks wait in
 * `pending` until `RunPending` runs one of them, in any order.
 */
module AsyncCache {
  import opened Domain
  import opened Repository
  import opened CacheHelpers

  /** A dispatched background cache task. */
  datatype CacheTask =
    | RefreshTask(student: Student, operation: string)   // put, then invalidate the collection
    | EvictTask(id: int)                                 // remove prefix+id, then invalidate the collection

  /** What running a task does to the cache; its failures are swallowed. */
  function RunTask(m: Entries, h: Health, task: CacheTask): (r: Entries)
    ensures task.RefreshTask? && !h.Fails(KeyOf(task.student)) ==>
      KeyOf(task.student) in r && r[KeyOf(task.student)] == StudentEntry(task.student)
    ensures task.RefreshTask? ==> forall k | k != KeyOf(task.student) && k != AllStudentsKey :: Agree(r, m, k)
    ensures task.EvictTask? && !h.Fails(IdKey(task.id)) ==> IdKey(task.id) !in r
    ensures task.EvictTask? ==> forall k | k != IdKey(task.id) && k != AllStudentsKey :: Agree(r, m, k)
    ensures !h.Fails(AllStudentsKey) ==> AllStudentsKey !in r
    ensures h.Fails(AllStudentsKey) ==> Agree(r, m, AllStudentsKey)
  {
    match task
    case RefreshTask(s, _) =>
      RefreshEffect(m, h, s);
      Refresh(m, h, s)
    case EvictTask(id) =>
      EvictEffect(m, h, id);
      Evict(m, h, id)
  }

  class AsyncCacheStrategy {
    const repository: StudentRepository
    const cacheHelper: CacheHelper
    var pending: seq<CacheTask>

    constructor (repository: StudentRepository, cacheHelper: CacheHelper)
      ensures this.repository == repository && this.cacheHelper == cacheHelper && pending == []
    {
      this.repository := repository;
      this.cacheHelper := cacheHelper;
      pending := [];
    }

    /** `saveStudent`: store save, then dispatch of the cache work; returns
        the store's record without touching the cache. */
    method SaveStudent(student: Student) returns (r: Result<Student>)
      requires repository.Valid()
      modifies repository, this
      ensures repository.Valid()
      ensures r == SaveOutcome(old(repository.State()), student)
      ensures repository.State() == AfterSave(old(repository.State()), student)
      ensures pending == old(pending) + (if r.Ok? then [RefreshTask(r.value, "save")] else [])
    {
      r := repository.Save(student);
      if r.Ok? {
        PerformAsyncCacheOperations(r.value, "save");
      }
    }

    /** `updateStudent`: store save, then dispatch of the cache work. */
    method UpdateStudent(student: Student) returns (r: Result<Student>)
      requires repository.Valid()
      modifies repository, this
      ensures repository.Valid()
      ensures r == SaveOutcome(old(repository.State()), student)
      ensures repository.State() == AfterSave(old(repository.State()), student)
      ensures pending == old(pending) + (if r.Ok? then [RefreshTask(r.value, "update")] else [])
    {
      r := repository.Save(student);
      if r.Ok? {
        PerformAsyncCacheOperations(r.value, "update");
      }
    }

    /** `deleteStudent`: store delete, then dispatch of the cache deletion. */
    method DeleteStudent(studentId: int)
      requires repository.Valid()
      modifies repository, this
      ensures repository.Valid()
      ensures repository.State() == AfterDelete(old(repository.State()), studentId)
      ensures pending == old(pending) + [EvictTask(studentId)]
    {
      repository.DeleteById(studentId);
      PerformAsyncCacheDeletion(studentId);
    }

    /** `performAsyncCacheOperations`: queues a put-then-invalidate task. */
    method PerformAsyncCacheOperations(student: Student, operation: string)
      modifies this
      ensures pending == old(pending) + [RefreshTask(student, operation)]
    {
      pending := pending + [RefreshTask(student, operation)];
    }

    /** `performAsyncCacheDeletion`: queues a remove-then-invalidate task. */
    method PerformAsyncCacheDeletion(studentId: int)
      modifies this
      ensures pending == old(pending) + [EvictTask(studentId)]
    {
      pending := pending + [EvictTask(studentId)];
    }

    /** The background executor runs dispatched task `i`: best-effort cache
        steps whose failures are swallowed. */
    method RunPending(i: nat)
      requires i < |pending| && cacheHelper.Valid()
      modifies this, cacheHelper
      ensures cacheHelper.Valid()
      ensures cacheHelper.health == old(cacheHelper.health) && cacheHelper.clock == old(cacheHelper.clock)
      ensures pending == old(pending[..i] + pending[i + 1..])
      ensures cacheHelper.entries == RunTask(old(cacheHelper.entries), cacheHelper.health, old(pending[i]))
    {
      var task := pending[i];
      pending := pending[..i] + pending[i + 1..];
      match task
      case RefreshTask(s, _) =>
        cacheHelper.CacheStudent(s);
        cacheHelper.InvalidateAllStudentsCache();
      case EvictTask(id) =>
        cacheHelper.RemoveStudentFromCache(id);
        cacheHelper.InvalidateAllStudentsCache();
    }

    function GetStrategyName(): (name: string)
      ensures name == "ASYNC_CACHE"
    {
      "ASYNC_CACHE"
    }

    /** Always available: cache work never blocks the caller. */
    function IsStrategyAvailable(): (available: bool)
      ensures available
    {
      true
    }
  }
}
