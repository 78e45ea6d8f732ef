/**
 * The student service: writes go through the primary strategy inside a
 * transaction that restores the student table when the write fails; reads
 * go to the cache first and fall back to the store, repopulating the cache
 * on a best-effort basis.
 */
module StudentServices {
  import opened Domain
  import opened Repository
  import opened CacheHelpers
  import opened AsyncCache
  import opened CacheStrategies
  import opened Coherence

  class StudentService {
    const studentRepository: StudentRepository
    const subjectRepository: SubjectRepository
    const cacheHelper: CacheHelper
    const primaryCacheStrategy: CacheStrategy

    constructor (studentRepository: StudentRepository, subjectRepository: SubjectRepository,
                 cacheHelper: CacheHelper, primaryCacheStrategy: CacheStrategy)
      ensures this.studentRepository == studentRepository && this.subjectRepository == subjectRepository
      ensures this.cacheHelper == cacheHelper && this.primaryCacheStrategy == primaryCacheStrategy
    {
      this.studentRepository := studentRepository;
      this.subjectRepository := subjectRepository;
      this.cacheHelper := cacheHelper;
      this.primaryCacheStrategy := primaryCacheStrategy;
    }

    /** The strategy writes to the same repository and cache as the service. */
    ghost predicate Valid()
      reads primaryCacheStrategy.Footprint()
    {
      && primaryCacheStrategy.Repository() == studentRepository
      && primaryCacheStrategy.Helper() == cacheHelper
      && primaryCacheStrategy.Valid()
    }

    /** What a write through the service may change. */
    ghost function Repr(): set<object> {
      primaryCacheStrategy.Footprint()
    }

    /** The strategy writes the cache before returning. */
    predicate Synchronous() {
      !primaryCacheStrategy.AsyncCacheBean?
    }

    /** `buildStudentFromDTO`: a new student (no id) with the DTO's email,
        name and department. Listed subjects must all exist and be listed
        once: the lookup must find as many subjects as were requested. An
        absent or empty list gives no subjects. */
    function BuildStudentFromDTO(dto: StudentDTO): (r: Result<Student>)
      reads subjectRepository
      ensures r.Err? <==>
        && dto.subjectIds.Some? && dto.subjectIds.value != []
        && !((forall x | x in dto.subjectIds.value :: x in subjectRepository.ids) && Distinct(dto.subjectIds.value))
      ensures r.Err? ==> r.error == InvalidSubjectIds
      ensures r.Ok? ==>
        r.value == Student(None, dto.email, dto.name, dto.department,
                           if dto.subjectIds.Some? then dto.subjectIds.value else [])
    {
      var student := Student(None, dto.email, dto.name, dto.department, []);
      if dto.subjectIds.None? || dto.subjectIds.value == [] then Ok(student)
      else
        var ids := dto.subjectIds.value;
        var subjects := subjectRepository.FindAllById(ids);
        KnownDistinctComplete(subjectRepository.ids, ids);
        if |subjects| != |ids| then Err(InvalidSubjectIds)
        else
          KnownDistinctKeepsAll(subjectRepository.ids, ids);
          Ok(student.(subjects := subjects))
    }

    /** `updateStudentFields`: every field the DTO leaves null keeps its
        value. A new email that differs from the current one must not be in
        use; an equal one is accepted as it is. A listed subject set replaces
        the old one with the subjects found, without the existence check of
        creation. */
    function UpdateStudentFields(student: Student, dto: StudentDTO): (r: Result<Student>)
      reads studentRepository, subjectRepository
      ensures r.Err? <==>
        dto.email.Some? && dto.email != student.email && studentRepository.ExistsByEmail(dto.email)
      ensures r.Err? ==> r.error == EmailInUse
      ensures r.Ok? ==> r.value.id == student.id
      ensures r.Ok? ==> r.value.name == (if dto.name.Some? then dto.name else student.name)
      ensures r.Ok? ==> r.value.email == (if dto.email.Some? then dto.email else student.email)
      ensures r.Ok? ==> r.value.department == (if dto.department.Some? then dto.department else student.department)
      ensures r.Ok? && dto.subjectIds.None? ==> r.value.subjects == student.subjects
      ensures r.Ok? && dto.subjectIds.Some? ==>
        forall x :: x in r.value.subjects <==> x in dto.subjectIds.value && x in subjectRepository.ids
    {
      var named := if dto.name.Some? then student.(name := dto.name) else student;
      if dto.email.Some? && dto.email != named.email && studentRepository.ExistsByEmail(dto.email) then
        Err(EmailInUse)
      else
        var mailed := if dto.email.Some? then named.(email := dto.email) else named;
        var placed := if dto.department.Some? then mailed.(department := dto.department) else mailed;
        if dto.subjectIds.Some? then Ok(placed.(subjects := subjectRepository.FindAllById(dto.subjectIds.value)))
        else Ok(placed)
    }

    /** `createStudent`. An email already in the table is refused before
        anything is written, then invalid subject ids; the strategy's save
        follows, and if it fails the transaction restores the table (the
        identity counter and the cache keep what happened to them). A success
        adds exactly one row, the built student under a fresh id. */
    method CreateStudent(dto: StudentDTO) returns (r: Result<Student>)
      requires Valid()
      modifies Repr()
      ensures Valid()
      ensures cacheHelper.health == old(cacheHelper.health)
      ensures studentRepository.nextId >= old(studentRepository.nextId)
      ensures old(studentRepository.ExistsByEmail(dto.email)) ==>
        && r == Err(EmailAlreadyExists)
        && studentRepository.State() == old(studentRepository.State())
        && cacheHelper.entries == old(cacheHelper.entries)
      ensures !old(studentRepository.ExistsByEmail(dto.email)) && old(BuildStudentFromDTO(dto)).Err? ==>
        && r == Err(InvalidSubjectIds)
        && studentRepository.State() == old(studentRepository.State())
        && cacheHelper.entries == old(cacheHelper.entries)
      ensures !old(studentRepository.ExistsByEmail(dto.email)) && old(BuildStudentFromDTO(dto)).Ok? ==>
        var effect := WriteEffect(primaryCacheStrategy, old(cacheHelper.ProbeSucceeds()), old(cacheHelper.entries),
                                  cacheHelper.health,
                                  SaveOutcome(old(studentRepository.State()), old(BuildStudentFromDTO(dto)).value));
        r == effect.0 && cacheHelper.entries == effect.1
      ensures r.Err? ==> studentRepository.records == old(studentRepository.records)
      ensures r.Ok? ==>
        && old(BuildStudentFromDTO(dto)) == Ok(r.value.(id := None))
        && r.value.id == Some(old(studentRepository.nextId))
        && old(studentRepository.nextId) !in old(studentRepository.records)
        && studentRepository.records == old(studentRepository.records)[old(studentRepository.nextId) := r.value]
      ensures !Synchronous() || primaryCacheStrategy.CacheAsideBean? ==>
        (r.Ok? <==> dto.email.Some? && !old(studentRepository.ExistsByEmail(dto.email)) && old(BuildStudentFromDTO(dto)).Ok?)
      ensures primaryCacheStrategy.AsyncCacheBean? ==>
        primaryCacheStrategy.asyncCache.pending ==
          old(primaryCacheStrategy.asyncCache.pending) + (if r.Ok? then [RefreshTask(r.value, "save")] else [])
      ensures Synchronous() && old(cacheHelper.health.Healthy()) &&
              old(Coherent(cacheHelper.entries, studentRepository.records)) ==>
        Coherent(cacheHelper.entries, studentRepository.records)
    {
      if studentRepository.ExistsByEmail(dto.email) {
        return Err(EmailAlreadyExists);
      }
      var built := BuildStudentFromDTO(dto);
      if built.Err? {
        return Err(built.error);
      }
      var before := studentRepository.State();
      var m := cacheHelper.entries;
      ghost var probeOk := cacheHelper.ProbeSucceeds();
      SaveKeepsValid(before, built.value);
      WriteEffectGuarantees(primaryCacheStrategy, probeOk, m, cacheHelper.health, SaveOutcome(before, built.value));
      r := CacheStrategies.SaveStudent(primaryCacheStrategy, built.value);
      if r.Err? {
        studentRepository.Rollback(before.records);
      }
      if Synchronous() && cacheHelper.health.Healthy() && Coherent(m, before.records) {
        HealthySaveKeepsCoherent(m, cacheHelper.health, before, built.value);
      }
    }

    /** `updateStudent`. An unknown id is refused, then an email in use;
        the patched row is saved through the strategy, and a failure
        restores the table. A success replaces exactly that row. */
    method UpdateStudent(id: int, dto: StudentDTO) returns (r: Result<Student>)
      requires Valid()
      modifies Repr()
      ensures Valid()
      ensures cacheHelper.health == old(cacheHelper.health)
      ensures studentRepository.nextId == old(studentRepository.nextId)
      ensures id !in old(studentRepository.records) ==>
        && r == Err(StudentNotFound)
        && studentRepository.State() == old(studentRepository.State())
        && cacheHelper.entries == old(cacheHelper.entries)
      ensures id in old(studentRepository.records) && old(UpdateStudentFields(studentRepository.records[id], dto)).Err? ==>
        && r == Err(EmailInUse)
        && studentRepository.State() == old(studentRepository.State())
        && cacheHelper.entries == old(cacheHelper.entries)
      ensures id in old(studentRepository.records) && old(UpdateStudentFields(studentRepository.records[id], dto)).Ok? ==>
        var effect := WriteEffect(primaryCacheStrategy, old(cacheHelper.ProbeSucceeds()), old(cacheHelper.entries),
                                  cacheHelper.health,
                                  Ok(old(UpdateStudentFields(studentRepository.records[id], dto)).value));
        r == effect.0 && cacheHelper.entries == effect.1
      ensures r.Err? ==> studentRepository.records == old(studentRepository.records)
      ensures r.Ok? ==>
        && id in old(studentRepository.records)
        && old(UpdateStudentFields(studentRepository.records[id], dto)) == Ok(r.value)
        && studentRepository.records == old(studentRepository.records)[id := r.value]
      ensures !Synchronous() || primaryCacheStrategy.CacheAsideBean? ==>
        (r.Ok? <==> id in old(studentRepository.records) && old(UpdateStudentFields(studentRepository.records[id], dto)).Ok?)
      ensures primaryCacheStrategy.AsyncCacheBean? ==>
        primaryCacheStrategy.asyncCache.pending ==
          old(primaryCacheStrategy.asyncCache.pending) + (if r.Ok? then [RefreshTask(r.value, "update")] else [])
      ensures Synchronous() && old(cacheHelper.health.Healthy()) &&
              old(Coherent(cacheHelper.entries, studentRepository.records)) ==>
        Coherent(cacheHelper.entries, studentRepository.records)
    {
      var found := studentRepository.FindById(id);
      if found.None? {
        return Err(StudentNotFound);
      }
      var patched := UpdateStudentFields(found.value, dto);
      if patched.Err? {
        return Err(patched.error);
      }
      var before := studentRepository.State();
      var m := cacheHelper.entries;
      ghost var probeOk := cacheHelper.ProbeSucceeds();
      UpdatedFieldsSaveCleanly(id, dto);
      SaveKeepsValid(before, patched.value);
      WriteEffectGuarantees(primaryCacheStrategy, probeOk, m, cacheHelper.health, SaveOutcome(before, patched.value));
      r := CacheStrategies.UpdateStudent(primaryCacheStrategy, patched.value);
      if r.Err? {
        studentRepository.Rollback(before.records);
      }
      if Synchronous() && cacheHelper.health.Healthy() && Coherent(m, before.records) {
        HealthySaveKeepsCoherent(m, cacheHelper.health, before, patched.value);
      }
    }

    /** `deleteStudent`. An unknown id is refused; otherwise the strategy
        deletes, and a failure restores the table. */
    method DeleteStudent(id: int) returns (o: Outcome)
      requires Valid()
      modifies Repr()
      ensures Valid()
      ensures cacheHelper.health == old(cacheHelper.health)
      ensures studentRepository.nextId == old(studentRepository.nextId)
      ensures id !in old(studentRepository.records) ==>
        && o == Fail(StudentNotFound)
        && studentRepository.State() == old(studentRepository.State())
        && cacheHelper.entries == old(cacheHelper.entries)
      ensures id in old(studentRepository.records) ==>
        var effect := DeleteEffect(primaryCacheStrategy, old(cacheHelper.ProbeSucceeds()), old(cacheHelper.entries),
                                   cacheHelper.health, id);
        o == effect.0 && cacheHelper.entries == effect.1
      ensures o.Pass? ==> id in old(studentRepository.records) && studentRepository.records == old(studentRepository.records) - {id}
      ensures o.Fail? ==> studentRepository.records == old(studentRepository.records)
      ensures !Synchronous() || primaryCacheStrategy.CacheAsideBean? ==> (o.Pass? <==> id in old(studentRepository.records))
      ensures primaryCacheStrategy.AsyncCacheBean? ==>
        primaryCacheStrategy.asyncCache.pending ==
          old(primaryCacheStrategy.asyncCache.pending) + (if o.Pass? then [EvictTask(id)] else [])
      ensures Synchronous() && old(cacheHelper.health.Healthy()) &&
              old(Coherent(cacheHelper.entries, studentRepository.records)) ==>
        Coherent(cacheHelper.entries, studentRepository.records)
    {
      if !studentRepository.ExistsById(id) {
        return Fail(StudentNotFound);
      }
      var before := studentRepository.State();
      var m := cacheHelper.entries;
      ghost var probeOk := cacheHelper.ProbeSucceeds();
      DeleteEffectGuarantees(primaryCacheStrategy, probeOk, m, cacheHelper.health, id);
      o := CacheStrategies.DeleteStudent(primaryCacheStrategy, id);
      if o.Fail? {
        studentRepository.Rollback(before.records);
      }
      if Synchronous() && cacheHelper.health.Healthy() && Coherent(m, before.records) {
        EvictKeepsCoherent(m, cacheHelper.health, before.records, id);
      }
    }

    /** `findStudentById`: a cached record is returned as it is; on a miss
        (or any cache failure) the store's row is returned and put back in
        the cache, best-effort; an id the store does not hold is "not found".
        Through a coherent cache the answer is the store's, and the cache
        stays coherent. */
    method FindStudentById(id: int) returns (r: Result<Student>)
      requires Valid()
      modifies cacheHelper
      ensures Valid()
      ensures cacheHelper.health == old(cacheHelper.health)
      ensures var hit := !cacheHelper.health.Fails(IdKey(id)) && IdKey(id) in old(cacheHelper.entries) &&
                         old(cacheHelper.entries)[IdKey(id)].StudentEntry?;
        if hit then r == Ok(old(cacheHelper.entries)[IdKey(id)].student) && cacheHelper.entries == old(cacheHelper.entries)
        else if id in studentRepository.records then
          && r == Ok(studentRepository.records[id])
          && cacheHelper.entries == Put(old(cacheHelper.entries), cacheHelper.health, IdKey(id), StudentEntry(studentRepository.records[id]))
        else r == Err(StudentNotFound) && cacheHelper.entries == old(cacheHelper.entries)
      ensures old(Coherent(cacheHelper.entries, studentRepository.records)) ==>
        && r == (if id in studentRepository.records then Ok(studentRepository.records[id]) else Err(StudentNotFound))
        && Coherent(cacheHelper.entries, studentRepository.records)
    {
      var cached := cacheHelper.GetStudentFromCacheById(id);
      if cached.Some? {
        return Ok(cached.value);
      }
      var found := studentRepository.FindById(id);
      if found.None? {
        return Err(StudentNotFound);
      }
      ghost var m := cacheHelper.entries;
      assert KeyOf(found.value) == IdKey(id);
      cacheHelper.UpdateStudentInCache(found.value);
      if Coherent(m, studentRepository.records) {
        RefreshKeepsCoherent(m, Health(false, {}), studentRepository.records, found.value);
        assert studentRepository.records[id := found.value] == studentRepository.records;
      }
      r := Ok(found.value);
    }

    /** `findAllStudents`: a non-empty cached list is returned as it is;
        otherwise the whole table is read and loaded into the cache,
        best-effort. Through a coherent cache the answer lists the table, and
        the cache stays coherent. */
    method FindAllStudents() returns (students: seq<Student>)
      requires Valid()
      modifies cacheHelper
      ensures Valid()
      ensures cacheHelper.health == old(cacheHelper.health)
      ensures var hit := !cacheHelper.health.Fails(AllStudentsKey) && AllStudentsKey in old(cacheHelper.entries) &&
                         old(cacheHelper.entries)[AllStudentsKey].StudentListEntry? &&
                         old(cacheHelper.entries)[AllStudentsKey].students != [];
        if hit then students == old(cacheHelper.entries)[AllStudentsKey].students && cacheHelper.entries == old(cacheHelper.entries)
        else ListsTable(students, studentRepository.records) &&
             cacheHelper.entries == AddStudents(old(cacheHelper.entries), cacheHelper.health, students)
      ensures old(Coherent(cacheHelper.entries, studentRepository.records)) ==>
        ListsTable(students, studentRepository.records) && Coherent(cacheHelper.entries, studentRepository.records)
    {
      var cached := cacheHelper.GetAllStudentsFromCache();
      if cached != [] {
        return cached;
      }
      students := studentRepository.FindAll();
      ghost var m := cacheHelper.entries;
      cacheHelper.AddStudentsToCache(students);
      if Coherent(m, studentRepository.records) {
        AddStudentsKeepsCoherent(m, cacheHelper.health, studentRepository.records, students);
      }
    }

    /** The store accepts every row `updateStudentFields` produces from an
        existing row: the email stays non-null and unique. */
    lemma UpdatedFieldsSaveCleanly(id: int, dto: StudentDTO)
      requires studentRepository.Valid() && id in studentRepository.records
      ensures var patched := UpdateStudentFields(studentRepository.records[id], dto);
        patched.Ok? ==> SaveOutcome(studentRepository.State(), patched.value) == Ok(patched.value)
    {
      var student := studentRepository.records[id];
      var patched := UpdateStudentFields(student, dto);
      if patched.Ok? && patched.value.email == student.email {
        assert !EmailTaken(studentRepository.records, student.email, Some(id));
      }
    }
  }
}
