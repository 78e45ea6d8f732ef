/**
 * The dual-mode cache access layer. The cache backend is a map from keys to
 * values together with its health: a call on a key fails when the backend is
 * down or the key's segment is degraded. Best-effort operations swallow a
 * failure (they return null, an empty list or nothing); strict operations
 * report it as a CacheException.
 */
module CacheHelpers {
  import opened Domain

  /** The backend's health: which calls fail. */
  datatype Health = Health(down: bool, degraded: set<Key>) {
    predicate Fails(k: Key) {
      down || k in degraded
    }

    /** No call fails. */
    predicate Healthy() {
      !down && degraded == {}
    }
  }

  type Entries = map<Key, CacheValue>

  /** `r` and `m` agree on key `k`. */
  predicate Agree(r: Entries, m: Entries, k: Key) {
    (k in r <==> k in m) && (k in m ==> r[k] == m[k])
  }

  /** A backend `put`: no effect when the call fails. */
  function Put(m: Entries, h: Health, k: Key, v: CacheValue): Entries {
    if h.Fails(k) then m else m[k := v]
  }

  /** A backend `remove`: no effect when the call fails. */
  function Remove(m: Entries, h: Health, k: Key): Entries {
    if h.Fails(k) then m else m - {k}
  }

  /** How a strict call on `k` ends. */
  function Attempt(h: Health, k: Key): Outcome {
    if h.Fails(k) then Fail(CacheException(k)) else Pass
  }

  // ---------------------------------------------------------------------
  // The write steps the strategies run after the store write
  // ---------------------------------------------------------------------

  /** Best-effort put of the saved record, then best-effort invalidation of
      the collection key. */
  function Refresh(m: Entries, h: Health, s: Student): Entries {
    Remove(Put(m, h, KeyOf(s), StudentEntry(s)), h, AllStudentsKey)
  }

  /** Best-effort removal of the record key, then of the collection key. */
  function Evict(m: Entries, h: Health, id: int): Entries {
    Remove(Remove(m, h, IdKey(id)), h, AllStudentsKey)
  }

  /** Strict put then strict invalidation: the first failure stops the
      sequence, so a failed put skips the invalidation. */
  function StrictRefresh(m: Entries, h: Health, s: Student): Entries {
    if h.Fails(KeyOf(s)) then m else Refresh(m, h, s)
  }

  function StrictRefreshOutcome(h: Health, s: Student): Outcome {
    if h.Fails(KeyOf(s)) then Attempt(h, KeyOf(s)) else Attempt(h, AllStudentsKey)
  }

  /** Strict removal then strict invalidation, stopping at the first failure. */
  function StrictEvict(m: Entries, h: Health, id: int): Entries {
    if h.Fails(IdKey(id)) then m else Evict(m, h, id)
  }

  function StrictEvictOutcome(h: Health, id: int): Outcome {
    if h.Fails(IdKey(id)) then Attempt(h, IdKey(id)) else Attempt(h, AllStudentsKey)
  }

  /** What a strict write strategy returns once the store has answered
      `stored`: a store failure becomes a database-operation error; a failed
      strict cache call becomes a cache-operation error; otherwise the saved
      record. */
  function StrictSaveResult(stored: Result<Student>, h: Health): Result<Student> {
    match stored
    case Err(e) => Err(DatabaseOperationError(e))
    case Ok(saved) =>
      match StrictRefreshOutcome(h, saved)
      case Pass => stored
      case Fail(e) => Err(CacheOperationError(e))
  }

  /** The cache a strict write strategy leaves once the store has answered
      `stored`: untouched after a store failure. */
  function StrictSaveEntries(m: Entries, h: Health, stored: Result<Student>): Entries {
    if stored.Ok? then StrictRefresh(m, h, stored.value) else m
  }

  /** A strict strategy's delete outcome: a failed cache call becomes a
      cache-operation error. */
  function StrictDeleteOutcome(h: Health, id: int): Outcome {
    match StrictEvictOutcome(h, id)
    case Pass => Pass
    case Fail(e) => Fail(CacheOperationError(e))
  }

  /** Put-then-invalidate leaves the saved record under its key (when that
      call succeeds), no collection entry (when that call succeeds), and
      every other key as it was. */
  lemma RefreshEffect(m: Entries, h: Health, s: Student)
    ensures !h.Fails(KeyOf(s)) ==> KeyOf(s) in Refresh(m, h, s) && Refresh(m, h, s)[KeyOf(s)] == StudentEntry(s)
    ensures h.Fails(KeyOf(s)) ==> Agree(Refresh(m, h, s), m, KeyOf(s))
    ensures !h.Fails(AllStudentsKey) ==> AllStudentsKey !in Refresh(m, h, s)
    ensures h.Fails(AllStudentsKey) ==> Agree(Refresh(m, h, s), m, AllStudentsKey)
    ensures forall k | k != KeyOf(s) && k != AllStudentsKey :: Agree(Refresh(m, h, s), m, k)
  {
  }

  /** Remove-then-invalidate takes out the record key and the collection key
      (each when its call succeeds, each left as it was when its call fails)
      and nothing else. */
  lemma EvictEffect(m: Entries, h: Health, id: int)
    ensures !h.Fails(IdKey(id)) ==> IdKey(id) !in Evict(m, h, id)
    ensures h.Fails(IdKey(id)) ==> Agree(Evict(m, h, id), m, IdKey(id))
    ensures !h.Fails(AllStudentsKey) ==> AllStudentsKey !in Evict(m, h, id)
    ensures h.Fails(AllStudentsKey) ==> Agree(Evict(m, h, id), m, AllStudentsKey)
    ensures forall k | k != IdKey(id) && k != AllStudentsKey :: Agree(Evict(m, h, id), m, k)
  {
  }

  /** The strict sequence succeeds exactly when both calls do, and then
      changes the cache as the best-effort sequence does; when it fails part
      way, whatever it already did stays. */
  lemma StrictRefreshAgreesWithRefresh(m: Entries, h: Health, s: Student)
    ensures StrictRefreshOutcome(h, s).Pass? <==> !h.Fails(KeyOf(s)) && !h.Fails(AllStudentsKey)
    ensures StrictRefreshOutcome(h, s).Pass? ==> StrictRefresh(m, h, s) == Refresh(m, h, s)
    ensures StrictRefreshOutcome(h, s).Fail? ==>
      StrictRefreshOutcome(h, s) == Fail(CacheException(if h.Fails(KeyOf(s)) then KeyOf(s) else AllStudentsKey))
    ensures !h.Fails(KeyOf(s)) && h.Fails(AllStudentsKey) ==>
      StrictRefresh(m, h, s) == m[KeyOf(s) := StudentEntry(s)]
  {
  }

  /** The cache holds `s` under its key and no collection entry. */
  predicate ReflectsWrite(m: Entries, s: Student) {
    KeyOf(s) in m && m[KeyOf(s)] == StudentEntry(s) && AllStudentsKey !in m
  }

  /** A strict write reports success exactly when the store and both cache
      calls succeed, and then the cache reflects the saved record. A failure
      after the store answered is a cache-operation error. */
  lemma StrictSaveReflectsWrite(m: Entries, h: Health, stored: Result<Student>)
    ensures StrictSaveResult(stored, h).Ok? <==>
      stored.Ok? && !h.Fails(KeyOf(stored.value)) && !h.Fails(AllStudentsKey)
    ensures StrictSaveResult(stored, h).Ok? ==>
      StrictSaveResult(stored, h) == stored && ReflectsWrite(StrictSaveEntries(m, h, stored), stored.value)
    ensures stored.Ok? && StrictSaveResult(stored, h).Err? ==> StrictSaveResult(stored, h).error.CacheOperationError?
    ensures stored.Err? ==> StrictSaveResult(stored, h) == Err(DatabaseOperationError(stored.error))
  {
    if stored.Ok? {
      StrictRefreshAgreesWithRefresh(m, h, stored.value);
      RefreshEffect(m, h, stored.value);
    }
  }

  /** A strict delete reports success exactly when both cache calls succeed,
      and then neither the record key nor the collection key is cached. */
  lemma StrictDeleteReflectsDelete(m: Entries, h: Health, id: int)
    ensures StrictDeleteOutcome(h, id).Pass? <==> !h.Fails(IdKey(id)) && !h.Fails(AllStudentsKey)
    ensures StrictDeleteOutcome(h, id).Pass? ==>
      IdKey(id) !in StrictEvict(m, h, id) && AllStudentsKey !in StrictEvict(m, h, id)
    ensures StrictDeleteOutcome(h, id).Fail? ==> StrictDeleteOutcome(h, id).error.CacheOperationError?
  {
    if !h.Fails(IdKey(id)) {
      EvictEffect(m, h, id);
    }
  }

  /** Invalidating the collection key twice is the same as once. */
  lemma InvalidateIdempotent(m: Entries, h: Health)
    ensures Remove(Remove(m, h, AllStudentsKey), h, AllStudentsKey) == Remove(m, h, AllStudentsKey)
  {
  }

  // ---------------------------------------------------------------------
  // Loading the whole collection into the cache
  // ---------------------------------------------------------------------

  /** Put every student under its own key, in list order. */
  function PutStudents(m: Entries, ss: seq<Student>): Entries
    decreases |ss|
  {
    if ss == [] then m
    else PutStudents(m, ss[..|ss| - 1])[KeyOf(ss[|ss| - 1]) := StudentEntry(ss[|ss| - 1])]
  }

  /** The index of the first student whose put fails, or |ss|. */
  function FirstFailing(h: Health, ss: seq<Student>): (i: nat)
    ensures i <= |ss|
    ensures forall j | 0 <= j < i :: !h.Fails(KeyOf(ss[j]))
    ensures i < |ss| ==> h.Fails(KeyOf(ss[i]))
    decreases |ss|
  {
    if ss == [] then 0
    else if h.Fails(KeyOf(ss[0])) then 0
    else 1 + FirstFailing(h, ss[1..])
  }

  /** `addStudentsToCache`: the per-student puts up to the first failure;
      the list itself goes under the collection key only when no put failed
      before it. */
  function AddStudents(m: Entries, h: Health, ss: seq<Student>): Entries {
    var n := FirstFailing(h, ss);
    var puts := PutStudents(m, ss[..n]);
    if n == |ss| then Put(puts, h, AllStudentsKey, StudentListEntry(ss)) else puts
  }

  function KeysOf(ss: seq<Student>): set<Key> {
    set i | 0 <= i < |ss| :: KeyOf(ss[i])
  }

  /** No later student in `ss` shares the key of `ss[i]`. */
  predicate LastWithKey(ss: seq<Student>, i: int)
    requires 0 <= i < |ss|
  {
    forall j | i < j < |ss| :: KeyOf(ss[j]) != KeyOf(ss[i])
  }

  /** After the puts, each key holds the last student put under it, and keys
      no student maps to are untouched. */
  lemma {:induction false} PutStudentsEffect(m: Entries, ss: seq<Student>)
    ensures forall i | 0 <= i < |ss| && LastWithKey(ss, i) ::
      KeyOf(ss[i]) in PutStudents(m, ss) && PutStudents(m, ss)[KeyOf(ss[i])] == StudentEntry(ss[i])
    ensures forall k | k !in KeysOf(ss) :: Agree(PutStudents(m, ss), m, k)
    decreases |ss|
  {
    if ss != [] {
      var n := |ss| - 1;
      var pre := ss[..n];
      PutStudentsEffect(m, pre);
      var r := PutStudents(m, ss);
      assert r == PutStudents(m, pre)[KeyOf(ss[n]) := StudentEntry(ss[n])];
      forall i | 0 <= i < |ss| && LastWithKey(ss, i)
        ensures KeyOf(ss[i]) in r && r[KeyOf(ss[i])] == StudentEntry(ss[i])
      {
        if i < n {
          assert pre[i] == ss[i];
          assert KeyOf(ss[n]) != KeyOf(ss[i]);
          assert LastWithKey(pre, i) by {
            forall j | i < j < |pre| ensures KeyOf(pre[j]) != KeyOf(pre[i]) {
              assert pre[j] == ss[j];
            }
          }
        }
      }
      forall k | k !in KeysOf(ss)
        ensures Agree(r, m, k)
      {
        assert KeyOf(ss[n]) in KeysOf(ss);
        assert k !in KeysOf(pre);
      }
    }
  }

  /** What `addStudentsToCache` leaves behind. When every call succeeds, every
      student sits under its own key, the whole list under the collection
      key, and nothing else changed. When a put fails part way, the puts
      before it stay in place and the collection key is not touched. */
  lemma AddStudentsEffect(m: Entries, h: Health, ss: seq<Student>)
    ensures var r := AddStudents(m, h, ss); var n := FirstFailing(h, ss);
      && (forall i | 0 <= i < n && LastWithKey(ss[..n], i) ::
            KeyOf(ss[i]) in r && r[KeyOf(ss[i])] == StudentEntry(ss[i]))
      && (forall k | k != AllStudentsKey && k !in KeysOf(ss[..n]) :: Agree(r, m, k))
      && (n == |ss| && !h.Fails(AllStudentsKey) ==>
            AllStudentsKey in r && r[AllStudentsKey] == StudentListEntry(ss))
      && (n < |ss| || h.Fails(AllStudentsKey) ==> Agree(r, m, AllStudentsKey))
  {
    var n := FirstFailing(h, ss);
    PutStudentsEffect(m, ss[..n]);
    assert AllStudentsKey !in KeysOf(ss[..n]);
    forall i | 0 <= i < n
      ensures ss[..n][i] == ss[i]
    {
    }
  }

  /** The cache helper: the backend's entries and health, and a clock that
      stands for the thread id and time stamp that make each probe key
      unique. */
  class CacheHelper {
    var entries: Entries
    var health: Health
    var clock: nat

    /** No probe key that a future probe will use is already present. */
    ghost predicate Valid()
      reads this
    {
      forall k | k in entries && k.ProbeKey? :: k.stamp < clock
    }

    constructor (health: Health)
      ensures Valid() && entries == map[] && this.health == health && clock == 0
    {
      entries, this.health, clock := map[], health, 0;
    }

    /** Whether the next availability probe's calls succeed. */
    predicate ProbeSucceeds()
      reads this
    {
      !health.Fails(ProbeKey(clock))
    }

    // ===== best-effort methods (cache-aside and async strategies) =====

    /** `cacheStudent`: maps prefix+id to the student; a failure is swallowed
        and leaves the cache as it was. */
    method CacheStudent(student: Student)
      requires Valid()
      modifies this
      ensures Valid() && health == old(health) && clock == old(clock)
      ensures entries == Put(old(entries), health, KeyOf(student), StudentEntry(student))
    {
      var key := KeyOf(student);
      if health.Fails(key) {
        return;
      }
      entries := entries[key := StudentEntry(student)];
    }

    /** `updateStudentInCache`: the same put as `cacheStudent`. */
    method UpdateStudentInCache(student: Student)
      requires Valid()
      modifies this
      ensures Valid() && health == old(health) && clock == old(clock)
      ensures entries == Put(old(entries), health, KeyOf(student), StudentEntry(student))
    {
      var key := KeyOf(student);
      if health.Fails(key) {
        return;
      }
      entries := entries[key := StudentEntry(student)];
    }

    /** `getStudentFromCacheById`: the student cached under prefix+id, or
        None on a miss, on a value that is not a student (the cast fails) and
        on any backend failure. Reads only. */
    method GetStudentFromCacheById(id: int) returns (student: Option<Student>)
      ensures student.Some? <==>
        !health.Fails(IdKey(id)) && IdKey(id) in entries && entries[IdKey(id)].StudentEntry?
      ensures student.Some? ==> student.value == entries[IdKey(id)].student
    {
      var key := IdKey(id);
      if health.Fails(key) {
        return None;
      }
      if key in entries && entries[key].StudentEntry? {
        student := Some(entries[key].student);
      } else {
        student := None;
      }
    }

    /** `removeStudentFromCache`: removes prefix+id only, swallowing failures. */
    method RemoveStudentFromCache(id: int)
      requires Valid()
      modifies this
      ensures Valid() && health == old(health) && clock == old(clock)
      ensures entries == Remove(old(entries), health, IdKey(id))
    {
      var key := IdKey(id);
      if health.Fails(key) {
        return;
      }
      entries := entries - {key};
    }

    /** `getAllStudentsFromCache`: the cached list, or an empty list when the
        key is absent, holds something else, or the backend fails. Reads
        only, never null. */
    method GetAllStudentsFromCache() returns (students: seq<Student>)
      ensures !health.Fails(AllStudentsKey) && AllStudentsKey in entries && entries[AllStudentsKey].StudentListEntry? ==>
        students == entries[AllStudentsKey].students
      ensures health.Fails(AllStudentsKey) || AllStudentsKey !in entries || !entries[AllStudentsKey].StudentListEntry? ==>
        students == []
    {
      if health.Fails(AllStudentsKey) {
        return [];
      }
      if AllStudentsKey in entries && entries[AllStudentsKey].StudentListEntry? {
        students := entries[AllStudentsKey].students;
      } else {
        students := [];
      }
    }

    /** `addStudentsToCache`: one put per student, then the list under the
        collection key; the first failure ends the loop and is swallowed. */
    method AddStudentsToCache(students: seq<Student>)
      requires Valid()
      modifies this
      ensures Valid() && health == old(health) && clock == old(clock)
      ensures entries == AddStudents(old(entries), health, students)
    {
      var i := 0;
      while i < |students|
        invariant 0 <= i <= |students|
        invariant forall j | 0 <= j < i :: !health.Fails(KeyOf(students[j]))
        invariant entries == PutStudents(old(entries), students[..i])
        invariant Valid() && health == old(health) && clock == old(clock)
      {
        var key := KeyOf(students[i]);
        if health.Fails(key) {
          assert FirstFailing(health, students) == i;
          return;
        }
        assert students[..i + 1][..i] == students[..i];
        entries := entries[key := StudentEntry(students[i])];
        i := i + 1;
      }
      assert students[..i] == students;
      if health.Fails(AllStudentsKey) {
        return;
      }
      entries := entries[AllStudentsKey := StudentListEntry(students)];
    }

    /** `invalidateAllStudentsCache`: removes the collection key only,
        swallowing failures. */
    method InvalidateAllStudentsCache()
      requires Valid()
      modifies this
      ensures Valid() && health == old(health) && clock == old(clock)
      ensures entries == Remove(old(entries), health, AllStudentsKey)
    {
      if health.Fails(AllStudentsKey) {
        return;
      }
      entries := entries - {AllStudentsKey};
    }

    // ===== strict methods (write-through and fail-fast strategies) =====

    /** `cacheStudentStrict`: the put of `cacheStudent`, raising a
        CacheException exactly when the call fails. */
    method CacheStudentStrict(student: Student) returns (o: Outcome)
      requires Valid()
      modifies this
      ensures Valid() && health == old(health) && clock == old(clock)
      ensures entries == Put(old(entries), health, KeyOf(student), StudentEntry(student))
      ensures o == Attempt(health, KeyOf(student))
    {
      var key := KeyOf(student);
      if health.Fails(key) {
        return Fail(CacheException(key));
      }
      entries := entries[key := StudentEntry(student)];
      o := Pass;
    }

    /** `updateStudentInCacheStrict`: the same as `cacheStudentStrict`. */
    method UpdateStudentInCacheStrict(student: Student) returns (o: Outcome)
      requires Valid()
      modifies this
      ensures Valid() && health == old(health) && clock == old(clock)
      ensures entries == Put(old(entries), health, KeyOf(student), StudentEntry(student))
      ensures o == Attempt(health, KeyOf(student))
    {
      var key := KeyOf(student);
      if health.Fails(key) {
        return Fail(CacheException(key));
      }
      entries := entries[key := StudentEntry(student)];
      o := Pass;
    }

    /** `removeStudentFromCacheStrict`: the removal of
        `removeStudentFromCache`, raising exactly when the call fails. */
    method RemoveStudentFromCacheStrict(id: int) returns (o: Outcome)
      requires Valid()
      modifies this
      ensures Valid() && health == old(health) && clock == old(clock)
      ensures entries == Remove(old(entries), health, IdKey(id))
      ensures o == Attempt(health, IdKey(id))
    {
      var key := IdKey(id);
      if health.Fails(key) {
        return Fail(CacheException(key));
      }
      entries := entries - {key};
      o := Pass;
    }

    /** `invalidateAllStudentsCacheStrict`: the removal of
        `invalidateAllStudentsCache`, raising exactly when the call fails. */
    method InvalidateAllStudentsCacheStrict() returns (o: Outcome)
      requires Valid()
      modifies this
      ensures Valid() && health == old(health) && clock == old(clock)
      ensures entries == Remove(old(entries), health, AllStudentsKey)
      ensures o == Attempt(health, AllStudentsKey)
    {
      if health.Fails(AllStudentsKey) {
        return Fail(CacheException(AllStudentsKey));
      }
      entries := entries - {AllStudentsKey};
      o := Pass;
    }

    // ===== availability probe =====

    /** `isCacheAvailable`: writes a fresh probe key, checks it is there and
        removes it. True exactly when the round trip succeeds; false on any
        failure. Either way the entries end as they were. */
    method IsCacheAvailable() returns (available: bool)
      requires Valid()
      modifies this
      ensures Valid() && health == old(health) && clock == old(clock) + 1
      ensures available == old(ProbeSucceeds())
      ensures entries == old(entries)
    {
      var key := ProbeKey(clock);
      clock := clock + 1;
      if health.Fails(key) {
        return false;
      }
      entries := entries[key := ProbeValue];
      // containsKey and remove address the same key as the put, so under an
      // unchanged health they succeed as the put did.
      var present := key in entries;
      entries := entries - {key};
      assert entries == old(entries);
      available := present;
    }
  }
}
