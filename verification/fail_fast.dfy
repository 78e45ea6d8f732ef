/**
 * Fail-fast writes: probe the cache first and refuse before touching the
 * store when it is unavailable; otherwise behave as write-through.
 */
module FailFast {
  import opened Domain
  import opened Repository
  import opened CacheHelpers

  class FailFastStrategy {
    const repository: StudentRepository
    const cacheHelper: CacheHelper

    constructor (repository: StudentRepository, cacheHelper: CacheHelper)
      ensures this.repository == repository && this.cacheHelper == cacheHelper
    {
      this.repository := repository;
      this.cacheHelper := cacheHelper;
    }

    /** `saveStudent`: when the probe fails, raises "cache not available"
        with the store and the cache entries unchanged. Otherwise store save,
        strict put, strict invalidation, and any failure raised (a put that
        succeeded before a failed invalidation stays). */
    method SaveStudent(student: Student) returns (r: Result<Student>)
      requires repository.Valid() && cacheHelper.Valid()
      modifies repository, cacheHelper
      ensures repository.Valid() && cacheHelper.Valid()
      ensures cacheHelper.health == old(cacheHelper.health) && cacheHelper.clock == old(cacheHelper.clock) + 1
      ensures !old(cacheHelper.ProbeSucceeds()) ==>
        && r == Err(CacheUnavailable)
        && repository.State() == old(repository.State())
        && cacheHelper.entries == old(cacheHelper.entries)
      ensures old(cacheHelper.ProbeSucceeds()) ==>
        && repository.State() == AfterSave(old(repository.State()), student)
        && r == StrictSaveResult(SaveOutcome(old(repository.State()), student), cacheHelper.health)
        && cacheHelper.entries ==
             StrictSaveEntries(old(cacheHelper.entries), cacheHelper.health, SaveOutcome(old(repository.State()), student))
    {
      var available := IsStrategyAvailable();
      if !available {
        return Err(CacheUnavailable);
      }
      var saved := repository.Save(student);
      if saved.Err? {
        return Err(DatabaseOperationError(saved.error));
      }
      var o := cacheHelper.CacheStudentStrict(saved.value);
      if o.Fail? {
        return Err(CacheOperationError(o.error));
      }
      o := cacheHelper.InvalidateAllStudentsCacheStrict();
      if o.Fail? {
        return Err(CacheOperationError(o.error));
      }
      r := saved;
    }

    /** `updateStudent`: the same pre-check, then store save, strict update
        of prefix+id and strict invalidation. */
    method UpdateStudent(student: Student) returns (r: Result<Student>)
      requires repository.Valid() && cacheHelper.Valid()
      modifies repository, cacheHelper
      ensures repository.Valid() && cacheHelper.Valid()
      ensures cacheHelper.health == old(cacheHelper.health) && cacheHelper.clock == old(cacheHelper.clock) + 1
      ensures !old(cacheHelper.ProbeSucceeds()) ==>
        && r == Err(CacheUnavailable)
        && repository.State() == old(repository.State())
        && cacheHelper.entries == old(cacheHelper.entries)
      ensures old(cacheHelper.ProbeSucceeds()) ==>
        && repository.State() == AfterSave(old(repository.State()), student)
        && r == StrictSaveResult(SaveOutcome(old(repository.State()), student), cacheHelper.health)
        && cacheHelper.entries ==
             StrictSaveEntries(old(cacheHelper.entries), cacheHelper.health, SaveOutcome(old(repository.State()), student))
    {
      var available := IsStrategyAvailable();
      if !available {
        return Err(CacheUnavailable);
      }
      var updated := repository.Save(student);
      if updated.Err? {
        return Err(DatabaseOperationError(updated.error));
      }
      var o := cacheHelper.UpdateStudentInCacheStrict(updated.value);
      if o.Fail? {
        return Err(CacheOperationError(o.error));
      }
      o := cacheHelper.InvalidateAllStudentsCacheStrict();
      if o.Fail? {
        return Err(CacheOperationError(o.error));
      }
      r := updated;
    }

    /** `deleteStudent`: the same pre-check, then store delete, strict
        removal of prefix+id and strict invalidation. */
    method DeleteStudent(studentId: int) returns (o: Outcome)
      requires repository.Valid() && cacheHelper.Valid()
      modifies repository, cacheHelper
      ensures repository.Valid() && cacheHelper.Valid()
      ensures cacheHelper.health == old(cacheHelper.health) && cacheHelper.clock == old(cacheHelper.clock) + 1
      ensures !old(cacheHelper.ProbeSucceeds()) ==>
        && o == Fail(CacheUnavailable)
        && repository.State() == old(repository.State())
        && cacheHelper.entries == old(cacheHelper.entries)
      ensures old(cacheHelper.ProbeSucceeds()) ==>
        && repository.State() == AfterDelete(old(repository.State()), studentId)
        && o == StrictDeleteOutcome(cacheHelper.health, studentId)
        && cacheHelper.entries == StrictEvict(old(cacheHelper.entries), cacheHelper.health, studentId)
    {
      var available := IsStrategyAvailable();
      if !available {
        return Fail(CacheUnavailable);
      }
      repository.DeleteById(studentId);
      var c := cacheHelper.RemoveStudentFromCacheStrict(studentId);
      if c.Fail? {
        return Fail(CacheOperationError(c.error));
      }
      c := cacheHelper.InvalidateAllStudentsCacheStrict();
      if c.Fail? {
        return Fail(CacheOperationError(c.error));
      }
      o := Pass;
    }

    function GetStrategyName(): (name: string)
      ensures name == "FAIL_FAST"
    {
      "FAIL_FAST"
    }

    /** `isStrategyAvailable`: the probe's answer (the probe itself turns
        every failure into false). */
    method IsStrategyAvailable() returns (available: bool)
      requires cacheHelper.Valid()
      modifies cacheHelper
      ensures cacheHelper.Valid() && cacheHelper.health == old(cacheHelper.health)
      ensures cacheHelper.clock == old(cacheHelper.clock) + 1
      ensures cacheHelper.entries == old(cacheHelper.entries)
      ensures available == old(cacheHelper.ProbeSucceeds())
    {
      available := cacheHelper.IsCacheAvailable();
    }
  }
}
