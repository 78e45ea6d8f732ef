/**
 * The `CacheStrategy` interface: save, update and delete a student under one
 * consistency policy, name the policy, and say whether it can run now. The
 * four implementations are the only ones, so the interface is a closed
 * datatype whose operations dispatch on the variant.
 */
module CacheStrategies {
  import opened Domain
  import opened Repository
  import opened CacheHelpers
  import opened CacheAside
  import opened WriteThrough
  import opened FailFast
  import opened AsyncCache

  datatype CacheStrategy =
    | CacheAsideBean(cacheAside: CacheAsideStrategy)
    | WriteThroughBean(writeThrough: WriteThroughStrategy)
    | FailFastBean(failFast: FailFastStrategy)
    | AsyncCacheBean(asyncCache: AsyncCacheStrategy)
  {
    /** The student repository the strategy writes to. */
    function Repository(): StudentRepository {
      match this
      case CacheAsideBean(s) => s.repository
      case WriteThroughBean(s) => s.repository
      case FailFastBean(s) => s.repository
      case AsyncCacheBean(s) => s.repository
    }

    /** The cache helper the strategy writes through. */
    function Helper(): CacheHelper {
      match this
      case CacheAsideBean(s) => s.cacheHelper
      case WriteThroughBean(s) => s.cacheHelper
      case FailFastBean(s) => s.cacheHelper
      case AsyncCacheBean(s) => s.cacheHelper
    }

    /** Everything a write through this strategy may change. */
    function Footprint(): set<object> {
      {Repository(), Helper()} + (if AsyncCacheBean? then {asyncCache} else {})
    }

    ghost predicate Valid()
      reads Footprint()
    {
      Repository().Valid() && Helper().Valid()
    }

    /** `getStrategyName`. */
    function GetStrategyName(): string {
      match this
      case CacheAsideBean(s) => s.GetStrategyName()
      case WriteThroughBean(s) => s.GetStrategyName()
      case FailFastBean(s) => s.GetStrategyName()
      case AsyncCacheBean(s) => s.GetStrategyName()
    }

    /** What `isStrategyAvailable` answers in the current state: the
        fault-tolerant strategies always, the strict ones when the probe's
        calls succeed. */
    predicate AvailableNow()
      reads Helper()
    {
      CacheAsideBean? || AsyncCacheBean? || Helper().ProbeSucceeds()
    }
  }

  /** Every strategy names a distinct policy. */
  lemma NamesIdentifyStrategies(a: CacheStrategy, b: CacheStrategy)
    ensures a.GetStrategyName() == b.GetStrategyName() <==>
      (a.CacheAsideBean? && b.CacheAsideBean?) || (a.WriteThroughBean? && b.WriteThroughBean?) ||
      (a.FailFastBean? && b.FailFastBean?) || (a.AsyncCacheBean? && b.AsyncCacheBean?)
  {
  }

  /** What a strategy's save or update returns and leaves in the cache, once
      the store answers `stored` (for fail-fast, `probeOk` says whether the
      pre-check passes; when it does not, the store is not asked). The
      asynchronous strategy leaves the cache to its background task. */
  function WriteEffect(strategy: CacheStrategy, probeOk: bool, m: Entries, h: Health, stored: Result<Student>)
    : (Result<Student>, Entries)
  {
    match strategy
    case CacheAsideBean(_) => (stored, if stored.Ok? then Refresh(m, h, stored.value) else m)
    case AsyncCacheBean(_) => (stored, m)
    case WriteThroughBean(_) => (StrictSaveResult(stored, h), StrictSaveEntries(m, h, stored))
    case FailFastBean(_) =>
      if probeOk then (StrictSaveResult(stored, h), StrictSaveEntries(m, h, stored))
      else (Err(CacheUnavailable), m)
  }

  /** What a strategy's delete reports and leaves in the cache. */
  function DeleteEffect(strategy: CacheStrategy, probeOk: bool, m: Entries, h: Health, id: int): (Outcome, Entries) {
    match strategy
    case CacheAsideBean(_) => (Pass, Evict(m, h, id))
    case AsyncCacheBean(_) => (Pass, m)
    case WriteThroughBean(_) => (StrictDeleteOutcome(h, id), StrictEvict(m, h, id))
    case FailFastBean(_) =>
      if probeOk then (StrictDeleteOutcome(h, id), StrictEvict(m, h, id))
      else (Fail(CacheUnavailable), m)
  }

  /** Whether the strategy writes the store at all: only the fail-fast
      pre-check can stop it. */
  predicate WritesStore(strategy: CacheStrategy, probeOk: bool) {
    !strategy.FailFastBean? || probeOk
  }

  /** The policies side by side. A reported success is always the store's
      own answer. The fault-tolerant strategies report exactly the store's
      answer, whatever the cache does; the strict ones report success only
      when the cache then holds the saved record and no collection entry.
      A refused or failed store write leaves the cache alone, and a cache
      where no call fails makes every synchronous strategy behave like
      cache-aside. */
  lemma WriteEffectGuarantees(strategy: CacheStrategy, probeOk: bool, m: Entries, h: Health, stored: Result<Student>)
    ensures var (r, e) := WriteEffect(strategy, probeOk, m, h, stored);
      && (r.Ok? ==> r == stored && WritesStore(strategy, probeOk))
      && (strategy.CacheAsideBean? || strategy.AsyncCacheBean? ==> r == stored)
      && ((strategy.WriteThroughBean? || strategy.FailFastBean?) && r.Ok? ==> ReflectsWrite(e, r.value))
      && (!WritesStore(strategy, probeOk) ==> r == Err(CacheUnavailable) && e == m)
      && (stored.Err? ==> r.Err? && e == m)
      && (h.Healthy() && probeOk && !strategy.AsyncCacheBean? ==>
            (r.Ok? <==> stored.Ok?) && e == (if stored.Ok? then Refresh(m, h, stored.value) else m))
  {
    match strategy
    case WriteThroughBean(_) =>
      StrictSaveReflectsWrite(m, h, stored);
    case FailFastBean(_) =>
      StrictSaveReflectsWrite(m, h, stored);
    case _ =>
  }

  /** The delete policies side by side: only the strict strategies report a
      failure, and their success means neither the record nor the collection
      is cached any more. */
  lemma DeleteEffectGuarantees(strategy: CacheStrategy, probeOk: bool, m: Entries, h: Health, id: int)
    ensures var (o, e) := DeleteEffect(strategy, probeOk, m, h, id);
      && (strategy.CacheAsideBean? || strategy.AsyncCacheBean? ==> o == Pass)
      && ((strategy.WriteThroughBean? || strategy.FailFastBean?) && o.Pass? ==>
            IdKey(id) !in e && AllStudentsKey !in e)
      && (!WritesStore(strategy, probeOk) ==> o == Fail(CacheUnavailable) && e == m)
      && (h.Healthy() && probeOk && !strategy.AsyncCacheBean? ==> o == Pass && e == Evict(m, h, id))
  {
    match strategy
    case WriteThroughBean(_) =>
      StrictDeleteReflectsDelete(m, h, id);
    case FailFastBean(_) =>
      StrictDeleteReflectsDelete(m, h, id);
    case _ =>
  }

  /** `saveStudent` through the strategy. */
  method SaveStudent(strategy: CacheStrategy, student: Student) returns (r: Result<Student>)
    requires strategy.Valid()
    modifies strategy.Footprint()
    ensures strategy.Valid()
    ensures strategy.Helper().health == old(strategy.Helper().health)
    ensures (r, strategy.Helper().entries) ==
      WriteEffect(strategy, old(strategy.Helper().ProbeSucceeds()), old(strategy.Helper().entries),
                  strategy.Helper().health, SaveOutcome(old(strategy.Repository().State()), student))
    ensures strategy.Repository().State() ==
      if WritesStore(strategy, old(strategy.Helper().ProbeSucceeds()))
      then AfterSave(old(strategy.Repository().State()), student)
      else old(strategy.Repository().State())
    ensures strategy.AsyncCacheBean? ==>
      strategy.asyncCache.pending == old(strategy.asyncCache.pending) + (if r.Ok? then [RefreshTask(r.value, "save")] else [])
  {
    match strategy
    case CacheAsideBean(s) =>
      r := s.SaveStudent(student);
    case WriteThroughBean(s) =>
      r := s.SaveStudent(student);
    case FailFastBean(s) =>
      r := s.SaveStudent(student);
    case AsyncCacheBean(s) =>
      r := s.SaveStudent(student);
  }

  /** `updateStudent` through the strategy. */
  method UpdateStudent(strategy: CacheStrategy, student: Student) returns (r: Result<Student>)
    requires strategy.Valid()
    modifies strategy.Footprint()
    ensures strategy.Valid()
    ensures strategy.Helper().health == old(strategy.Helper().health)
    ensures (r, strategy.Helper().entries) ==
      WriteEffect(strategy, old(strategy.Helper().ProbeSucceeds()), old(strategy.Helper().entries),
                  strategy.Helper().health, SaveOutcome(old(strategy.Repository().State()), student))
    ensures strategy.Repository().State() ==
      if WritesStore(strategy, old(strategy.Helper().ProbeSucceeds()))
      then AfterSave(old(strategy.Repository().State()), student)
      else old(strategy.Repository().State())
    ensures strategy.AsyncCacheBean? ==>
      strategy.asyncCache.pending == old(strategy.asyncCache.pending) + (if r.Ok? then [RefreshTask(r.value, "update")] else [])
  {
    match strategy
    case CacheAsideBean(s) =>
      r := s.UpdateStudent(student);
    case WriteThroughBean(s) =>
      r := s.UpdateStudent(student);
    case FailFastBean(s) =>
      r := s.UpdateStudent(student);
    case AsyncCacheBean(s) =>
      r := s.UpdateStudent(student);
  }

  /** `deleteStudent` through the strategy. */
  method DeleteStudent(strategy: CacheStrategy, studentId: int) returns (o: Outcome)
    requires strategy.Valid()
    modifies strategy.Footprint()
    ensures strategy.Valid()
    ensures strategy.Helper().health == old(strategy.Helper().health)
    ensures (o, strategy.Helper().entries) ==
      DeleteEffect(strategy, old(strategy.Helper().ProbeSucceeds()), old(strategy.Helper().entries),
                   strategy.Helper().health, studentId)
    ensures strategy.Repository().State() ==
      if WritesStore(strategy, old(strategy.Helper().ProbeSucceeds()))
      then AfterDelete(old(strategy.Repository().State()), studentId)
      else old(strategy.Repository().State())
    ensures strategy.AsyncCacheBean? ==>
      strategy.asyncCache.pending == old(strategy.asyncCache.pending) + [EvictTask(studentId)]
  {
    match strategy
    case CacheAsideBean(s) =>
      s.DeleteStudent(studentId);
      o := Pass;
    case WriteThroughBean(s) =>
      o := s.DeleteStudent(studentId);
    case FailFastBean(s) =>
      o := s.DeleteStudent(studentId);
    case AsyncCacheBean(s) =>
      s.DeleteStudent(studentId);
      o := Pass;
  }

  /** `isStrategyAvailable`: the strict strategies run the probe, which
      leaves the entries as they were. */
  method IsStrategyAvailable(strategy: CacheStrategy) returns (available: bool)
    requires strategy.Helper().Valid()
    modifies strategy.Helper()
    ensures strategy.Helper().Valid()
    ensures strategy.Helper().health == old(strategy.Helper().health)
    ensures strategy.Helper().entries == old(strategy.Helper().entries)
    ensures available == old(strategy.AvailableNow())
  {
    match strategy
    case CacheAsideBean(s) =>
      available := s.IsStrategyAvailable();
    case WriteThroughBean(s) =>
      available := s.IsStrategyAvailable();
    case FailFastBean(s) =>
      available := s.IsStrategyAvailable();
    case AsyncCacheBean(s) =>
      available := s.IsStrategyAvailable();
  }
}
