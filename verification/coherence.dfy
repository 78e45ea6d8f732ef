/**
 * What it means for the cache to agree with the store, and which write
 * steps keep that agreement. Reads through a coherent cache return what the
 * store holds.
 */
module Coherence {
  import opened Domain
  import opened Repository
  import opened CacheHelpers

  /** `ss` lists the table: every row, nothing else, in ascending id order
      (so each row once). */
  ghost predicate ListsTable(ss: seq<Student>, records: map<int, Student>) {
    && (forall k | k in records :: records[k] in ss)
    && (forall s | s in ss :: s.id.Some? && s.id.value in records && records[s.id.value] == s)
    && (forall i, j | 0 <= i < j < |ss| :: ss[i].id.value < ss[j].id.value)
  }

  /** Every record key holds the store's current row for its id. */
  ghost predicate RowsCoherent(m: Entries, records: map<int, Student>) {
    forall k | k in m && k.StudentKey? ::
      k.id.Some? && k.id.value in records && m[k] == StudentEntry(records[k.id.value])
  }

  /** The collection key, when present, holds the whole table. */
  ghost predicate ListCoherent(m: Entries, records: map<int, Student>) {
    AllStudentsKey in m ==> m[AllStudentsKey].StudentListEntry? && ListsTable(m[AllStudentsKey].students, records)
  }

  ghost predicate Coherent(m: Entries, records: map<int, Student>) {
    RowsCoherent(m, records) && ListCoherent(m, records)
  }

  /** A coherent cache never serves a record the store does not hold. */
  lemma CoherentLookup(m: Entries, records: map<int, Student>, id: int)
    requires Coherent(m, records) && IdKey(id) in m
    ensures id in records && m[IdKey(id)] == StudentEntry(records[id])
  {
  }

  /** Caching a freshly saved row and dropping the collection keeps the cache
      coherent with the table that now holds that row. */
  lemma RefreshKeepsCoherent(m: Entries, h: Health, records: map<int, Student>, s: Student)
    requires Coherent(m, records) && s.id.Some?
    requires !h.Fails(KeyOf(s)) && !h.Fails(AllStudentsKey)
    ensures Coherent(Refresh(m, h, s), records[s.id.value := s])
  {
    RefreshEffect(m, h, s);
    var r := Refresh(m, h, s);
    var after := records[s.id.value := s];
    forall k | k in r && k.StudentKey?
      ensures k.id.Some? && k.id.value in after && r[k] == StudentEntry(after[k.id.value])
    {
      if k != KeyOf(s) {
        assert Agree(r, m, k);
      }
    }
  }

  /** Removing a deleted row's key and the collection keeps the cache
      coherent with the table without that row. */
  lemma EvictKeepsCoherent(m: Entries, h: Health, records: map<int, Student>, id: int)
    requires Coherent(m, records)
    requires !h.Fails(IdKey(id)) && !h.Fails(AllStudentsKey)
    ensures Coherent(Evict(m, h, id), records - {id})
  {
    EvictEffect(m, h, id);
    var r := Evict(m, h, id);
    forall k | k in r && k.StudentKey?
      ensures k.id.Some? && k.id.value in records - {id} && r[k] == StudentEntry(records[k.id.value])
    {
      assert Agree(r, m, k);
    }
  }

  /** Under a cache where no call fails, a save through any synchronous
      strategy leaves the cache coherent with the table it produced: the
      best-effort and the strict write steps then coincide. */
  lemma HealthySaveKeepsCoherent(m: Entries, h: Health, st: StoreState, s: Student)
    requires Coherent(m, st.records) && h.Healthy()
    ensures StrictSaveEntries(m, h, SaveOutcome(st, s)) ==
      (if SaveOutcome(st, s).Ok? then Refresh(m, h, SaveOutcome(st, s).value) else m)
    ensures Coherent(StrictSaveEntries(m, h, SaveOutcome(st, s)), AfterSave(st, s).records)
  {
    var r := SaveOutcome(st, s);
    if r.Ok? {
      RefreshKeepsCoherent(m, h, st.records, r.value);
    }
  }

  /** Putting rows of the table under their own keys keeps every record key
      coherent and leaves the collection key alone. */
  lemma {:induction false} PutRowsKeepsCoherent(m: Entries, records: map<int, Student>, ss: seq<Student>)
    requires RowsCoherent(m, records)
    requires forall s | s in ss :: s.id.Some? && s.id.value in records && records[s.id.value] == s
    ensures RowsCoherent(PutStudents(m, ss), records)
    ensures Agree(PutStudents(m, ss), m, AllStudentsKey)
    decreases |ss|
  {
    if ss != [] {
      var pre := ss[..|ss| - 1];
      var s := ss[|ss| - 1];
      assert forall t | t in pre :: t in ss;
      PutRowsKeepsCoherent(m, records, pre);
      assert s in ss;
    }
  }

  /** Loading the table into a coherent cache keeps it coherent, whichever
      put fails. */
  lemma AddStudentsKeepsCoherent(m: Entries, h: Health, records: map<int, Student>, ss: seq<Student>)
    requires Coherent(m, records) && ListsTable(ss, records)
    ensures Coherent(AddStudents(m, h, ss), records)
  {
    var n := FirstFailing(h, ss);
    assert forall t | t in ss[..n] :: t in ss;
    PutRowsKeepsCoherent(m, records, ss[..n]);
  }
}
