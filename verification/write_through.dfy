/**
 * Write-through writes: the store first, then strict cache steps. A cache
 * failure is raised to the caller after the store write has been applied;
 * this layer does not undo it.
 */
module WriteThrough {
  import opened Domain
  import opened Repository
  import opened CacheHelpers

  class WriteThroughStrategy {
    const repository: StudentRepository
    const cacheHelper: CacheHelper

    constructor (repository: StudentRepository, cacheHelper: CacheHelper)
      ensures this.repository == repository && this.cacheHelper == cacheHelper
    {
      this.repository := repository;
      this.cacheHelper := cacheHelper;
    }

    /** `saveStudent`: no pre-check; store save, strict put of the saved
        record, strict invalidation. A store failure is raised as a
        database-operation error, a cache failure as a cache-operation error
        with the store write already applied. */
    method SaveStudent(student: Student) returns (r: Result<Student>)
      requires repository.Valid() && cacheHelper.Valid()
      modifies repository, cacheHelper
      ensures repository.Valid() && cacheHelper.Valid()
      ensures cacheHelper.health == old(cacheHelper.health) && cacheHelper.clock == old(cacheHelper.clock)
      ensures repository.State() == AfterSave(old(repository.State()), student)
      ensures r == StrictSaveResult(SaveOutcome(old(repository.State()), student), cacheHelper.health)
      ensures cacheHelper.entries ==
        StrictSaveEntries(old(cacheHelper.entries), cacheHelper.health, SaveOutcome(old(repository.State()), student))
    {
      var saved := repository.Save(student);
      if saved.Err? {
        return Err(DatabaseOperationError(saved.error));
      }
      var o := cacheHelper.CacheStudentStrict(saved.value);
      if o.Fail? {
        return Err(CacheOperationError(o.error));
      }
      o := cacheHelper.InvalidateAllStudentsCacheStrict();
      if o.Fail? {
        return Err(CacheOperationError(o.error));
      }
      r := saved;
    }

    /** `updateStudent`: store save, strict update of prefix+id, strict
        invalidation, with the failure policy of `saveStudent`. */
    method UpdateStudent(student: Student) returns (r: Result<Student>)
      requires repository.Valid() && cacheHelper.Valid()
      modifies repository, cacheHelper
      ensures repository.Valid() && cacheHelper.Valid()
      ensures cacheHelper.health == old(cacheHelper.health) && cacheHelper.clock == old(cacheHelper.clock)
      ensures repository.State() == AfterSave(old(repository.State()), student)
      ensures r == StrictSaveResult(SaveOutcome(old(repository.State()), student), cacheHelper.health)
      ensures cacheHelper.entries ==
        StrictSaveEntries(old(cacheHelper.entries), cacheHelper.health, SaveOutcome(old(repository.State()), student))
    {
      var updated := repository.Save(student);
      if updated.Err? {
        return Err(DatabaseOperationError(updated.error));
      }
      var o := cacheHelper.UpdateStudentInCacheStrict(updated.value);
      if o.Fail? {
        return Err(CacheOperationError(o.error));
      }
      o := cacheHelper.InvalidateAllStudentsCacheStrict();
      if o.Fail? {
        return Err(CacheOperationError(o.error));
      }
      r := updated;
    }

    /** `deleteStudent`: store delete, strict removal of prefix+id, strict
        invalidation; a cache failure is raised after the store delete. */
    method DeleteStudent(studentId: int) returns (o: Outcome)
      requires repository.Valid() && cacheHelper.Valid()
      modifies repository, cacheHelper
      ensures repository.Valid() && cacheHelper.Valid()
      ensures cacheHelper.health == old(cacheHelper.health) && cacheHelper.clock == old(cacheHelper.clock)
      ensures repository.State() == AfterDelete(old(repository.State()), studentId)
      ensures o == StrictDeleteOutcome(cacheHelper.health, studentId)
      ensures cacheHelper.entries == StrictEvict(old(cacheHelper.entries), cacheHelper.health, studentId)
    {
      repository.DeleteById(studentId);
      var c := cacheHelper.RemoveStudentFromCacheStrict(studentId);
      if c.Fail? {
        return Fail(CacheOperationError(c.error));
      }
      c := cacheHelper.InvalidateAllStudentsCacheStrict();
      if c.Fail? {
        return Fail(CacheOperationError(c.error));
      }
      o := Pass;
    }

    function GetStrategyName(): (name: string)
      ensures name == "WRITE_THROUGH"
    {
      "WRITE_THROUGH"
    }

    /** `isStrategyAvailable`: the probe's answer. */
    method IsStrategyAvailable() returns (available: bool)
      requires cacheHelper.Valid()
      modifies cacheHelper
      ensures cacheHelper.Valid() && cacheHelper.health == old(cacheHelper.health)
      ensures cacheHelper.clock == old(cacheHelper.clock) + 1
      ensures cacheHelper.entries == old(cacheHelper.entries)
      ensures available == old(cacheHelper.ProbeSucceeds())
    {
      available := cacheHelper.IsCacheAvailable();
    }
  }
}
