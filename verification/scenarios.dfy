/**
 * Concrete runs of the whole engine (one student table, one cache, the four
 * strategies, the service and the start-up selection) that pin down how
 * the policies differ when the cache misbehaves.
 */
module Scenarios {
  import opened Domain
  import opened Repository
  import opened CacheHelpers
  import opened CacheAside
  import opened WriteThrough
  import opened FailFast
  import opened AsyncCache
  import opened CacheStrategies
  import opened StrategyFactory
  import opened StrategyConfig
  import opened StudentServices

  /** The request used to create the first student. */
  function AdaRequest(): StudentDTO {
    StudentDTO(None, Some("Ada"), Some("ada@example.org"), None)
  }

  /** The student the first create stores. */
  function Ada(): Student {
    Student(Some(1), Some("ada@example.org"), Some("Ada"), None, [])
  }

  /** A patch that only renames. */
  function RenameRequest(): StudentDTO {
    StudentDTO(None, Some("Grace"), None, None)
  }

  /** Write-through with a collection key that cannot be invalidated: the put
      of the new record succeeds, the invalidation fails, the create reports
      a cache-operation error and the transaction removes the row, but the
      cache keeps the record, so a later read serves a student the table does
      not hold. */
  method WriteThroughRollbackLeavesCacheOnlyRecord()
    returns (created: Result<Student>, read: Result<Student>, rows: map<int, Student>)
    ensures created.Err? && created.error.CacheOperationError?
    ensures rows == map[]
    ensures read == Ok(Ada()) && 1 !in rows
  {
    var repository := new StudentRepository();
    var subjects := new SubjectRepository({});
    var helper := new CacheHelper(Health(false, {AllStudentsKey}));
    var writeThrough := new WriteThroughStrategy(repository, helper);
    var service := new StudentService(repository, subjects, helper, WriteThroughBean(writeThrough));
    created := service.CreateStudent(AdaRequest());
    read := service.FindStudentById(1);
    rows := repository.records;
  }

  /** Fail-fast with the cache down refuses before writing anything. */
  method FailFastRefusesWhileCacheDown()
    returns (created: Result<Student>, rows: map<int, Student>, cached: Entries)
    ensures created == Err(CacheUnavailable)
    ensures rows == map[] && cached == map[]
  {
    var repository := new StudentRepository();
    var subjects := new SubjectRepository({});
    var helper := new CacheHelper(Health(true, {}));
    var failFast := new FailFastStrategy(repository, helper);
    var service := new StudentService(repository, subjects, helper, FailFastBean(failFast));
    created := service.CreateStudent(AdaRequest());
    rows := repository.records;
    cached := helper.entries;
  }

  /** Cache-aside with the cache down still creates, and reads fall back to
      the table. */
  method CacheAsideServesThroughOutage()
    returns (created: Result<Student>, read: Result<Student>, rows: map<int, Student>)
    ensures created == Ok(Ada()) && read == Ok(Ada())
    ensures rows == map[1 := Ada()]
  {
    var repository := new StudentRepository();
    var subjects := new SubjectRepository({});
    var helper := new CacheHelper(Health(true, {}));
    var cacheAside := new CacheAsideStrategy(repository, helper);
    var service := new StudentService(repository, subjects, helper, CacheAsideBean(cacheAside));
    created := service.CreateStudent(AdaRequest());
    read := service.FindStudentById(1);
    rows := repository.records;
  }

  /** Cache-aside swallows a failed put: after an update whose put failed
      and a recovered cache, reads serve the old record while the table holds
      the new one. */
  method CacheAsideStaleAfterFailedPut()
    returns (updated: Result<Student>, read: Result<Student>, rows: map<int, Student>)
    ensures updated == Ok(Ada().(name := Some("Grace")))
    ensures rows == map[1 := updated.value]
    ensures read == Ok(Ada()) && read.value != rows[1]
  {
    var repository := new StudentRepository();
    var subjects := new SubjectRepository({});
    var helper := new CacheHelper(Health(false, {}));
    var cacheAside := new CacheAsideStrategy(repository, helper);
    var service := new StudentService(repository, subjects, helper, CacheAsideBean(cacheAside));
    var created := service.CreateStudent(AdaRequest());
    assert created == Ok(Ada());
    assert repository.records == map[1 := Ada()];
    assert helper.entries == map[IdKey(1) := StudentEntry(Ada())];
    helper.health := Health(false, {IdKey(1)});
    updated := service.UpdateStudent(1, RenameRequest());
    assert helper.entries == map[IdKey(1) := StudentEntry(Ada())];
    helper.health := Health(false, {});
    read := service.FindStudentById(1);
    rows := repository.records;
  }

  /** The asynchronous engine after creating a student, reading it (which
      caches it) and renaming it: the table holds the renamed row, the cache
      still the created one, and both background tasks are pending. */
  method AsyncAfterRename() returns (service: StudentService, asyncCache: AsyncCacheStrategy)
    ensures fresh(service.Repr()) && service.Valid()
    ensures service.primaryCacheStrategy == AsyncCacheBean(asyncCache)
    ensures service.studentRepository.records == map[1 := Ada().(name := Some("Grace"))]
    ensures service.cacheHelper.entries == map[IdKey(1) := StudentEntry(Ada())]
    ensures service.cacheHelper.health == Health(false, {})
    ensures asyncCache.pending == [RefreshTask(Ada(), "save"), RefreshTask(Ada().(name := Some("Grace")), "update")]
  {
    var repository := new StudentRepository();
    var subjects := new SubjectRepository({});
    var helper := new CacheHelper(Health(false, {}));
    asyncCache := new AsyncCacheStrategy(repository, helper);
    service := new StudentService(repository, subjects, helper, AsyncCacheBean(asyncCache));
    var created := service.CreateStudent(AdaRequest());
    assert created == Ok(Ada());
    var first := service.FindStudentById(1);
    var updated := service.UpdateStudent(1, RenameRequest());
  }

  /** The asynchronous strategy returns before the cache is written, and its
      background tasks may run in any order: reads are stale until the
      rename's task runs, and the older create task, running after it, puts
      the old record back for good. */
  method AsyncTasksOutOfOrder()
    returns (stale: Result<Student>, current: Result<Student>, regressed: Result<Student>, rows: map<int, Student>)
    ensures rows == map[1 := Ada().(name := Some("Grace"))]
    ensures stale == Ok(Ada())
    ensures current == Ok(rows[1])
    ensures regressed == Ok(Ada()) && regressed.value != rows[1]
  {
    var service, asyncCache := AsyncAfterRename();
    var grace := Ada().(name := Some("Grace"));
    stale := service.FindStudentById(1);
    asyncCache.RunPending(1);
    assert service.cacheHelper.entries == map[IdKey(1) := StudentEntry(grace)];
    current := service.FindStudentById(1);
    asyncCache.RunPending(0);
    regressed := service.FindStudentById(1);
    rows := service.studentRepository.records;
  }

  /** An unknown configured name selects cache-aside. */
  method UnknownStrategyFallsBack() returns (o: Outcome, name: string)
    ensures o == Pass && name == "CACHE_ASIDE"
  {
    var repository := new StudentRepository();
    var helper := new CacheHelper(Health(false, {}));
    var cacheAside := new CacheAsideStrategy(repository, helper);
    var writeThrough := new WriteThroughStrategy(repository, helper);
    var failFast := new FailFastStrategy(repository, helper);
    var asyncCache := new AsyncCacheStrategy(repository, helper);
    var config;
    config, o := StartUp(Some("doesNotExist"), cacheAside, writeThrough, failFast, asyncCache);
    assert "doesNotExist" !in KnownNames;
    name := config.selectedStrategy.value.GetStrategyName();
  }

  /** A strict strategy is kept when the probe succeeds at start-up and
      replaced by cache-aside when it fails. */
  method StrictStrategyNeedsCacheAtStartUp(cacheDown: bool) returns (o: Outcome, name: string)
    ensures o == Pass
    ensures name == if cacheDown then "CACHE_ASIDE" else "FAIL_FAST"
  {
    var repository := new StudentRepository();
    var helper := new CacheHelper(Health(cacheDown, {}));
    var cacheAside := new CacheAsideStrategy(repository, helper);
    var writeThrough := new WriteThroughStrategy(repository, helper);
    var failFast := new FailFastStrategy(repository, helper);
    var asyncCache := new AsyncCacheStrategy(repository, helper);
    var factory := new CacheStrategyFactory(Registry(cacheAside, writeThrough, failFast, asyncCache));
    var config := new CacheStrategyConfig(Some("failFast"), factory);
    assert "failFast" + "Strategy" == "failFastStrategy";
    assert "cacheAside" + "Strategy" == "cacheAsideStrategy";
    o := config.InitializeStrategy();
    name := config.selectedStrategy.value.GetStrategyName();
  }
}
