/**
 * Cache-aside writes: the store first, then best-effort cache steps whose
 * failures are swallowed. The store decides the outcome.
 */
module CacheAside {
  import opened Domain
  import opened Repository
  import opened CacheHelpers

  class CacheAsideStrategy {
    const repository: StudentRepository
    const cacheHelper: CacheHelper

    constructor (repository: StudentRepository, cacheHelper: CacheHelper)
      ensures this.repository == repository && this.cacheHelper == cacheHelper
    {
      this.repository := repository;
      this.cacheHelper := cacheHelper;
    }

    /** `saveStudent`: store save, then best-effort put of the saved record
        and best-effort invalidation of the collection. Returns what the
        store returned, whatever the cache did; only a store failure raises. */
    method SaveStudent(student: Student) returns (r: Result<Student>)
      requires repository.Valid() && cacheHelper.Valid()
      modifies repository, cacheHelper
      ensures repository.Valid() && cacheHelper.Valid()
      ensures cacheHelper.health == old(cacheHelper.health) && cacheHelper.clock == old(cacheHelper.clock)
      ensures r == SaveOutcome(old(repository.State()), student)
      ensures repository.State() == AfterSave(old(repository.State()), student)
      ensures r.Ok? ==> cacheHelper.entries == Refresh(old(cacheHelper.entries), cacheHelper.health, r.value)
      ensures r.Err? ==> cacheHelper.entries == old(cacheHelper.entries)
      ensures r.Ok? && !cacheHelper.health.Fails(KeyOf(r.value)) ==>
        KeyOf(r.value) in cacheHelper.entries && cacheHelper.entries[KeyOf(r.value)] == StudentEntry(r.value)
      ensures r.Ok? && !cacheHelper.health.Fails(AllStudentsKey) ==> AllStudentsKey !in cacheHelper.entries
    {
      r := repository.Save(student);
      if r.Err? {
        return;
      }
      cacheHelper.CacheStudent(r.value);
      cacheHelper.InvalidateAllStudentsCache();
    }

    /** `updateStudent`: store save, then the same best-effort put and
        invalidation as `saveStudent`; returns the store's record. */
    method UpdateStudent(student: Student) returns (r: Result<Student>)
      requires repository.Valid() && cacheHelper.Valid()
      modifies repository, cacheHelper
      ensures repository.Valid() && cacheHelper.Valid()
      ensures cacheHelper.health == old(cacheHelper.health) && cacheHelper.clock == old(cacheHelper.clock)
      ensures r == SaveOutcome(old(repository.State()), student)
      ensures repository.State() == AfterSave(old(repository.State()), student)
      ensures r.Ok? ==> cacheHelper.entries == Refresh(old(cacheHelper.entries), cacheHelper.health, r.value)
      ensures r.Err? ==> cacheHelper.entries == old(cacheHelper.entries)
    {
      r := repository.Save(student);
      if r.Err? {
        return;
      }
      cacheHelper.CacheStudent(r.value);
      cacheHelper.InvalidateAllStudentsCache();
    }

    /** `deleteStudent`: store delete, then best-effort removal of prefix+id
        and of the collection key. Never raises. */
    method DeleteStudent(studentId: int)
      requires repository.Valid() && cacheHelper.Valid()
      modifies repository, cacheHelper
      ensures repository.Valid() && cacheHelper.Valid()
      ensures cacheHelper.health == old(cacheHelper.health) && cacheHelper.clock == old(cacheHelper.clock)
      ensures repository.State() == AfterDelete(old(repository.State()), studentId)
      ensures cacheHelper.entries == Evict(old(cacheHelper.entries), cacheHelper.health, studentId)
    {
      repository.DeleteById(studentId);
      cacheHelper.RemoveStudentFromCache(studentId);
      cacheHelper.InvalidateAllStudentsCache();
    }

    function GetStrategyName(): (name: string)
      ensures name == "CACHE_ASIDE"
    {
      "CACHE_ASIDE"
    }

    /** Always available: the strategy tolerates any cache failure. */
    function IsStrategyAvailable(): (available: bool)
      ensures available
    {
      true
    }
  }
}
