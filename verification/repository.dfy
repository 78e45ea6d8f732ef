/**
 * The persistent store behind the cache: the student table (id -> row, an
 * identity counter, a unique non-null email column) and the subject table,
 * reduced to the set of subject ids that exist.
 */
module Repository {
  import opened Domain

  /** The student table as a value: its rows and the next identity. */
  datatype StoreState = StoreState(records: map<int, Student>, nextId: int)

  /** The table's own constraints: every row sits under its own id, below the
      identity counter, and has an email that no other row has. */
  ghost predicate ValidRows(records: map<int, Student>, nextId: int) {
    && 1 <= nextId
    && (forall k | k in records :: 1 <= k < nextId && records[k].id == Some(k) && records[k].email.Some?)
    && (forall k, j | k in records && j in records && k != j :: records[k].email != records[j].email)
  }

  /** Some row other than the one with identifier `except` has this email. */
  predicate EmailTaken(records: map<int, Student>, email: Option<string>, except: Option<int>) {
    exists k | k in records && Some(k) != except :: records[k].email == email
  }

  /** What `save` returns: a new row (no id) gets the next identity, an
      existing row is overwritten; a null email, an email another row holds,
      or an id the table does not hold make the store refuse the write. */
  function SaveOutcome(st: StoreState, s: Student): (r: Result<Student>)
    ensures r.Ok? <==>
      && s.email.Some?
      && (s.id.None? || s.id.value in st.records)
      && !EmailTaken(st.records, s.email, s.id)
    ensures r.Ok? ==> r.value.id.Some? && r.value == s.(id := r.value.id)
    ensures r.Ok? && s.id.None? ==> r.value.id == Some(st.nextId)
    ensures r.Ok? && s.id.Some? ==> r.value == s
    ensures r.Err? ==> r.error.StoreError?
  {
    if s.email.None? then Err(StoreError(MissingEmail))
    else match s.id
      case None =>
        if EmailTaken(st.records, s.email, None) then Err(StoreError(DuplicateEmail))
        else Ok(s.(id := Some(st.nextId)))
      case Some(k) =>
        if k !in st.records then Err(StoreError(UnknownId))
        else if EmailTaken(st.records, s.email, Some(k)) then Err(StoreError(DuplicateEmail))
        else Ok(s)
  }

  /** The table after `save`: the saved row under its id; the identity
      counter advances only when a new row was inserted. */
  function AfterSave(st: StoreState, s: Student): StoreState {
    match SaveOutcome(st, s)
    case Err(_) => st
    case Ok(saved) =>
      StoreState(st.records[saved.id.value := saved], if s.id.None? then st.nextId + 1 else st.nextId)
  }

  /** The table after `deleteById`: the row is gone (absent ids are ignored). */
  function AfterDelete(st: StoreState, id: int): StoreState {
    StoreState(st.records - {id}, st.nextId)
  }

  lemma SaveKeepsValid(st: StoreState, s: Student)
    requires ValidRows(st.records, st.nextId)
    ensures ValidRows(AfterSave(st, s).records, AfterSave(st, s).nextId)
    ensures AfterSave(st, s).nextId >= st.nextId
    ensures SaveOutcome(st, s).Ok? ==>
      var saved := SaveOutcome(st, s).value;
      AfterSave(st, s).records == st.records[saved.id.value := saved]
    ensures SaveOutcome(st, s).Ok? && s.id.None? ==> SaveOutcome(st, s).value.id.value !in st.records
  {
    var r := SaveOutcome(st, s);
    if r.Ok? {
      var saved := r.value;
      var recs := st.records[saved.id.value := saved];
      forall k, j | k in recs && j in recs && k != j
        ensures recs[k].email != recs[j].email
      {
        if k == saved.id.value {
          assert !EmailTaken(st.records, s.email, s.id);
          assert j in st.records && Some(j) != s.id;
        } else if j == saved.id.value {
          assert !EmailTaken(st.records, s.email, s.id);
          assert k in st.records && Some(k) != s.id;
        }
      }
    }
  }

  /** The rows with ids in [lo, hi), in ascending id order. */
  function RowsFrom(records: map<int, Student>, lo: int, hi: int): seq<Student>
    decreases hi - lo
  {
    if lo >= hi then []
    else (if lo in records then [records[lo]] else []) + RowsFrom(records, lo + 1, hi)
  }

  /** A range scan lists every row of the range, nothing else, once each, in
      ascending id order. */
  lemma {:induction false} RowsFromIsScan(records: map<int, Student>, lo: int, hi: int)
    requires forall k | k in records :: records[k].id == Some(k)
    ensures forall k | lo <= k < hi && k in records :: records[k] in RowsFrom(records, lo, hi)
    ensures forall i | 0 <= i < |RowsFrom(records, lo, hi)| ::
      var s := RowsFrom(records, lo, hi)[i];
      s.id.Some? && lo <= s.id.value < hi && s.id.value in records && records[s.id.value] == s
    ensures forall i, j | 0 <= i < j < |RowsFrom(records, lo, hi)| ::
      RowsFrom(records, lo, hi)[i].id.value < RowsFrom(records, lo, hi)[j].id.value
    decreases hi - lo
  {
    if lo < hi {
      RowsFromIsScan(records, lo + 1, hi);
      var head := if lo in records then [records[lo]] else [];
      var tail := RowsFrom(records, lo + 1, hi);
      assert RowsFrom(records, lo, hi) == head + tail;
      forall i | 0 <= i < |head + tail|
        ensures var s: Student := (head + tail)[i];
          s.id.Some? && lo <= s.id.value < hi && s.id.value in records && records[s.id.value] == s
      {
        if i >= |head| { assert (head + tail)[i] == tail[i - |head|]; }
      }
      forall i, j | 0 <= i < j < |head + tail|
        ensures (head + tail)[i].id.value < (head + tail)[j].id.value
      {
        if i >= |head| {
          assert (head + tail)[i] == tail[i - |head|];
          assert (head + tail)[j] == tail[j - |head|];
        } else {
          assert (head + tail)[j] == tail[j - |head|];
        }
      }
    }
  }

  /** The known ids among `requested`, each once, in order of first request. */
  function KnownDistinct(known: set<int>, requested: seq<int>): (found: seq<int>)
    ensures |found| <= |requested|
    ensures forall x | x in found :: x in known && x in requested
    ensures forall x | x in requested && x in known :: x in found
    ensures forall i, j | 0 <= i < j < |found| :: found[i] != found[j]
    decreases |requested|
  {
    if requested == [] then []
    else
      var rest := KnownDistinct(known, requested[..|requested| - 1]);
      var x := requested[|requested| - 1];
      assert forall y | y in requested[..|requested| - 1] :: y in requested;
      if x in known && x !in rest then rest + [x] else rest
  }

  /** No id occurs twice in `ids`. */
  predicate Distinct(ids: seq<int>) {
    forall i, j | 0 <= i < j < |ids| :: ids[i] != ids[j]
  }

  /** The lookup finds as many subjects as were requested exactly when every
      requested id exists and none is requested twice. */
  lemma {:induction false} KnownDistinctComplete(known: set<int>, requested: seq<int>)
    ensures |KnownDistinct(known, requested)| == |requested| <==>
      (forall x | x in requested :: x in known) && Distinct(requested)
    decreases |requested|
  {
    if requested != [] {
      var prefix := requested[..|requested| - 1];
      var x := requested[|requested| - 1];
      assert requested == prefix + [x];
      KnownDistinctComplete(known, prefix);
      var rest := KnownDistinct(known, prefix);
      if |KnownDistinct(known, requested)| == |requested| {
        assert x in known && x !in rest && |rest| == |prefix|;
        assert x !in prefix;
        forall i, j | 0 <= i < j < |requested| ensures requested[i] != requested[j] {
          if j == |requested| - 1 { assert requested[i] in prefix; }
          else { assert requested[i] == prefix[i] && requested[j] == prefix[j]; }
        }
      }
      if (forall y | y in requested :: y in known) && Distinct(requested) {
        assert forall y | y in prefix :: y in requested;
        assert Distinct(prefix) by {
          forall i, j | 0 <= i < j < |prefix| ensures prefix[i] != prefix[j] {
            assert prefix[i] == requested[i] && prefix[j] == requested[j];
          }
        }
        assert x !in prefix;
      }
    }
  }

  /** When every requested id exists and none repeats, the lookup returns
      exactly the requested ids, in request order. */
  lemma {:induction false} KnownDistinctKeepsAll(known: set<int>, requested: seq<int>)
    requires (forall x | x in requested :: x in known) && Distinct(requested)
    ensures KnownDistinct(known, requested) == requested
    decreases |requested|
  {
    if requested != [] {
      var prefix := requested[..|requested| - 1];
      var x := requested[|requested| - 1];
      assert requested == prefix + [x];
      assert forall y | y in prefix :: y in requested;
      assert Distinct(prefix) by {
        forall i, j | 0 <= i < j < |prefix| ensures prefix[i] != prefix[j] {
          assert prefix[i] == requested[i] && prefix[j] == requested[j];
        }
      }
      KnownDistinctKeepsAll(known, prefix);
      assert x !in prefix;
    }
  }

  /** The student repository: the student table under `save`, `deleteById`
      and its finder queries. */
  class StudentRepository {
    var records: map<int, Student>
    var nextId: int

    constructor ()
      ensures Valid() && records == map[] && nextId == 1
    {
      records, nextId := map[], 1;
    }

    ghost predicate Valid()
      reads this
    {
      ValidRows(records, nextId)
    }

    function State(): StoreState
      reads this
    {
      StoreState(records, nextId)
    }

    /** `existsByEmail`: some row holds the email; never a null email, since
        no row holds one. */
    function ExistsByEmail(email: Option<string>): (b: bool)
      reads this
      ensures b <==> exists k | k in records :: records[k].email == email
      ensures Valid() && email.None? ==> !b
    {
      EmailTaken(records, email, None)
    }

    /** `existsById`: the lookup by id finds a row. */
    function ExistsById(id: int): (b: bool)
      reads this
      ensures b <==> FindById(id).Some?
    {
      id in records
    }

    /** `findById`: the row stored under the id, which carries that id. */
    function FindById(id: int): (r: Option<Student>)
      reads this
      ensures r.Some? <==> id in records
      ensures r.Some? ==> r.value == records[id]
      ensures Valid() && r.Some? ==> r.value.id == Some(id)
    {
      if id in records then Some(records[id]) else None
    }

    /** `findAllWithSubjects`: every row, once, in ascending id order. */
    function FindAll(): (all: seq<Student>)
      requires Valid()
      reads this
      ensures forall k | k in records :: records[k] in all
      ensures forall s | s in all :: s.id.Some? && s.id.value in records && records[s.id.value] == s
      ensures forall i, j | 0 <= i < j < |all| :: all[i].id.value < all[j].id.value
    {
      RowsFromIsScan(records, 1, nextId);
      RowsFrom(records, 1, nextId)
    }

    method Save(student: Student) returns (r: Result<Student>)
      requires Valid()
      modifies this
      ensures Valid() && nextId >= old(nextId)
      ensures r == SaveOutcome(old(State()), student)
      ensures State() == AfterSave(old(State()), student)
    {
      SaveKeepsValid(State(), student);
      r := SaveOutcome(State(), student);
      var after := AfterSave(State(), student);
      records, nextId := after.records, after.nextId;
    }

    method DeleteById(id: int)
      requires Valid()
      modifies this
      ensures Valid() && State() == AfterDelete(old(State()), id)
    {
      records := records - {id};
    }

    /** The transaction manager's rollback: the rows return to a snapshot;
        the identity counter keeps its value, as identity columns do. */
    method Rollback(snapshot: map<int, Student>)
      requires Valid() && ValidRows(snapshot, nextId)
      modifies this
      ensures Valid() && records == snapshot && nextId == old(nextId)
    {
      records := snapshot;
    }
  }

  /** The subject repository, reduced to the ids of the subjects that exist. */
  class SubjectRepository {
    var ids: set<int>

    constructor (ids: set<int>)
      ensures this.ids == ids
    {
      this.ids := ids;
    }

    /** `findAllById`: the existing subjects among the requested ids, each
        once. */
    function FindAllById(requested: seq<int>): (found: seq<int>)
      reads this
      ensures forall x | x in found :: x in ids && x in requested
      ensures forall x | x in requested && x in ids :: x in found
      ensures |found| == |requested| <==> (forall x | x in requested :: x in ids) && Distinct(requested)
    {
      KnownDistinctComplete(ids, requested);
      KnownDistinct(ids, requested)
    }
  }
}
