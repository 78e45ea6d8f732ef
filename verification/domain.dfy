/**
 * Values shared by every layer of the student cache: the student row, the
 * request DTO, cache keys and values, and the errors the operations raise.
 */
module Domain {

  datatype Option<T> = None | Some(value: T)

  /** A student row. `id` is None until the store assigns one; the text
      columns are nullable, so they are Options too. `subjects` holds the
      ids of the subjects the student takes (an unset list is `[]`). */
  datatype Student = Student(
    id: Option<int>,
    email: Option<string>,
    name: Option<string>,
    department: Option<string>,
    subjects: seq<int>)

  /** The request body of create and update; a null field is None. */
  datatype StudentDTO = StudentDTO(
    department: Option<string>,
    name: Option<string>,
    email: Option<string>,
    subjectIds: Option<seq<int>>)

  /** Cache keys. `StudentKey(id)` is the record prefix followed by the id
      (None stands for the text of a null id), `AllStudentsKey` is the fixed
      key of the materialised collection, `ProbeKey(stamp)` the key the
      availability probe writes. Distinct constructors never collide. */
  datatype Key = StudentKey(id: Option<int>) | AllStudentsKey | ProbeKey(stamp: nat)

  /** Values the cache holds: a student copy, a copy of the whole list, or
      the probe's marker text. */
  datatype CacheValue =
    | StudentEntry(student: Student)
    | StudentListEntry(students: seq<Student>)
    | ProbeValue

  /** The cache key of a student: prefix + its id. */
  function KeyOf(s: Student): Key {
    StudentKey(s.id)
  }

  /** The cache key of the student with identifier `id`. */
  function IdKey(id: int): Key {
    StudentKey(Some(id))
  }

  /** Why the store refuses a save. */
  datatype StoreFault = MissingEmail | DuplicateEmail | UnknownId

  datatype Error =
    | CacheException(key: Key)               // a strict cache call failed on `key`
    | StoreError(fault: StoreFault)          // the store refused the write
    | CacheUnavailable                       // Fail-Fast pre-check: the probe failed
    | CacheOperationError(cause: Error)      // a strategy wrapped a CacheException
    | DatabaseOperationError(cause: Error)   // a strategy wrapped any other failure
    | StudentNotFound
    | EmailAlreadyExists                     // create: the email is taken
    | EmailInUse                             // update: the new email is taken
    | InvalidSubjectIds
    | UnknownStrategy(name: string)

  datatype Result<T> = Ok(value: T) | Err(error: Error)

  /** The result of an operation that returns nothing but may raise. */
  datatype Outcome = Pass | Fail(error: Error)
}
