/** `ProjectStorage`: the project collection kept under one persistent key.
    The key's contents are a value, and the outcome of every write is an
    input, so each operation is a function from the old contents to a result
    and the new contents. */
module ProjectStorage {
  import opened Wrappers
  import opened Seqs
  import opened Records

  /** What the key `projectdock_projects` holds: nothing, text that does not
      parse to an array, or an array of records. */
  datatype StoreState = Absent | Malformed | Stored(records: seq<Project>)

  /** How one `setItem` call ends. */
  datatype WriteOutcome = Written | QuotaExceeded | WriteFailed

  /** The outcome of the first write and of the thumbnail-free retry; the
      retry is consulted only after a quota error. */
  datatype Attempt = Attempt(first: WriteOutcome, retry: WriteOutcome)

  /** The argument of `saveProjects`, which checks `Array.isArray`. */
  datatype Payload = List(items: seq<Project>) | NotAList

  /** An operation's return value together with the key's new contents. */
  datatype Step<T> = Step(result: T, store: StoreState)

  /** The write, possibly after the fallback, ends with the key written. */
  predicate Persists(w: Attempt) {
    w.first == Written || (w.first == QuotaExceeded && w.retry == Written)
  }

  /** The key was written by the fallback, without thumbnails. */
  predicate FellBack(w: Attempt) {
    w.first == QuotaExceeded && w.retry == Written
  }

  /** What a successful save of `items` leaves under the key. */
  function WrittenRecords(items: seq<Project>, w: Attempt): seq<Project> {
    if FellBack(w) then StripThumbnails(items) else items
  }

  /** `getProjects`: never fails; anything but a stored array reads as `[]`. */
  function GetProjects(st: StoreState): (r: seq<Project>)
    ensures st.Stored? ==> r == st.records
    ensures |r| == 0 <==> !st.Stored? || |st.records| == 0
  {
    if st.Stored? then st.records else []
  }

  /** `saveProjects`: rejects a non-array, writes the array, and after a quota
      error retries once with every thumbnail set to `null`. */
  function SaveProjects(st: StoreState, payload: Payload, w: Attempt): (r: Step<bool>)
    ensures r.result <==> payload.List? && Persists(w)
    ensures !r.result ==> r.store == st
    ensures r.result ==> r.store == Stored(WrittenRecords(payload.items, w))
  {
    match payload
    case NotAList => Step(false, st)
    case List(items) =>
      match w.first
      case Written => Step(true, Stored(items))
      case WriteFailed => Step(false, st)
      case QuotaExceeded =>
        if w.retry == Written then Step(true, Stored(StripThumbnails(items)))
        else Step(false, st)
  }

  /** Saving then loading gives back the records, field for field, except
      that thumbnails are gone when the quota fallback wrote them; a failed
      save leaves what loads unchanged. */
  lemma SaveThenLoad(st: StoreState, items: seq<Project>, w: Attempt)
    ensures var r := SaveProjects(st, List(items), w);
      && (r.result && w.first == Written ==> GetProjects(r.store) == items)
      && (r.result ==> |GetProjects(r.store)| == |items|)
      && (r.result ==> forall i :: 0 <= i < |items| ==>
            SameApartFromThumbnail(GetProjects(r.store)[i], items[i]))
      && (r.result && FellBack(w) ==> forall i :: 0 <= i < |items| ==>
            GetProjects(r.store)[i].thumbnail.None?)
      && (!r.result ==> GetProjects(r.store) == GetProjects(st))
  {
  }

  /** `addProject`: appends `{ id: generatedId, ...d, createdAt: now }` and
      saves; on a failed save it returns `null` and the key is untouched. */
  function AddProject(st: StoreState, d: Draft, generatedId: string, now: int, w: Attempt)
    : (r: Step<Option<Project>>)
    ensures r.result.Some? <==> Persists(w)
    ensures r.result.None? ==> r.store == st
    ensures r.result.Some? ==> r.result.value.createdAt == now
    ensures r.result.Some? ==> r.result.value.id == d.id.GetOr(generatedId)
    ensures r.result.Some? ==>
      GetProjects(r.store) == WrittenRecords(GetProjects(st) + [r.result.value], w)
  {
    var projects := GetProjects(st);
    var record := NewRecord(d, generatedId, now);
    var saved := SaveProjects(st, List(projects + [record]), w);
    if saved.result then Step(Some(record), saved.store) else Step(None, st)
  }

  /** After a successful add the old records are followed by the new one;
      the returned record keeps its thumbnail even when the stored copy lost
      it to the quota fallback. */
  lemma AddAppends(st: StoreState, d: Draft, generatedId: string, now: int, w: Attempt)
    requires Persists(w)
    ensures var ps, r := GetProjects(st), AddProject(st, d, generatedId, now, w);
      var after := GetProjects(r.store);
      && |after| == |ps| + 1
      && (forall i :: 0 <= i < |ps| ==> SameApartFromThumbnail(after[i], ps[i]))
      && SameApartFromThumbnail(after[|ps|], NewRecord(d, generatedId, now))
      && r.result == Some(NewRecord(d, generatedId, now))
      && r.result.value.thumbnail == d.thumbnail
      && (w.first == Written ==> after == ps + [NewRecord(d, generatedId, now)])
  {
  }

  /** Ids stay unique across an add exactly when the new record's id is not
      already taken: a generated id that collides is not caught. */
  lemma {:induction false} AddKeepsIdsUnique(st: StoreState, d: Draft, generatedId: string, now: int, w: Attempt)
    requires UniqueIds(GetProjects(st)) && Persists(w)
    ensures var newId := d.id.GetOr(generatedId);
      (UniqueIds(GetProjects(AddProject(st, d, generatedId, now, w).store))
       <==> !HasId(GetProjects(st), newId))
  {
    var ps := GetProjects(st);
    var newId := d.id.GetOr(generatedId);
    var after := GetProjects(AddProject(st, d, generatedId, now, w).store);
    assert |after| == |ps| + 1 && after[|ps|].id == newId;
    assert forall i :: 0 <= i < |ps| ==> after[i].id == ps[i].id;
    if HasId(ps, newId) {
      var i :| 0 <= i < |ps| && ps[i].id == newId;
      assert after[i].id == after[|ps|].id;
    }
  }

  /** A freshly added record is what a later lookup of its id finds. */
  lemma {:induction false} AddThenGet(st: StoreState, d: Draft, generatedId: string, now: int, w: Attempt)
    requires Persists(w)
    requires !HasId(GetProjects(st), d.id.GetOr(generatedId))
    ensures var r := AddProject(st, d, generatedId, now, w);
      var found := GetProject(r.store, d.id.GetOr(generatedId));
      && found.Some?
      && SameApartFromThumbnail(found.value, r.result.value)
      && found.value.createdAt == now
  {
    var ps := GetProjects(st);
    var id := d.id.GetOr(generatedId);
    var after := GetProjects(AddProject(st, d, generatedId, now, w).store);
    assert forall j :: 0 <= j < |ps| ==> after[j].id == ps[j].id;
    IndexOfIdFirst(after, id, |ps|);
  }

  /** `updateProject`: replaces the first record with the id by the merged
      record, saves, and returns the record read back from the key. */
  function UpdateProject(st: StoreState, id: string, u: Patch, w: Attempt): (r: Step<Option<Project>>)
    ensures !HasId(GetProjects(st), id) ==> r == Step(None, st)
    ensures r.result.Some? <==> HasId(GetProjects(st), id) && Persists(w)
    ensures r.result.None? ==> r.store == st
    ensures r.result.Some? ==> r.result.value.id == id
  {
    var projects := GetProjects(st);
    match IndexOfId(projects, id)
    case None => Step(None, st)
    case Some(i) =>
      var saved := SaveProjects(st, List(projects[i := Merge(projects[i], u)]), w);
      if !saved.result then Step(None, st)
      else
        assert GetProjects(saved.store)[i].id == id;
        Step(FindById(GetProjects(saved.store), id), saved.store)
  }

  /** A successful update touches only the first record with the id; that
      record becomes the merge and is what the post-write read returns,
      without its thumbnail when the fallback fired. */
  lemma {:induction false} UpdateReplacesFirstMatch(st: StoreState, id: string, u: Patch, w: Attempt)
    requires HasId(GetProjects(st), id) && Persists(w)
    ensures var ps, r := GetProjects(st), UpdateProject(st, id, u, w);
      var i, after := IndexOfId(ps, id).value, GetProjects(r.store);
      && |after| == |ps|
      && SameApartFromThumbnail(after[i], Merge(ps[i], u))
      && (forall j :: 0 <= j < |ps| && j != i ==> SameApartFromThumbnail(after[j], ps[j]))
      && r.result == Some(after[i])
      && (FellBack(w) ==> r.result.value.thumbnail.None?)
      && (w.first == Written ==> after == ps[i := Merge(ps[i], u)])
  {
    var ps := GetProjects(st);
    var i := IndexOfId(ps, id).value;
    var m := Merge(ps[i], u);
    var r := UpdateProject(st, id, u, w);
    assert r.store == Stored(WrittenRecords(ps[i := m], w));
    var after := GetProjects(r.store);
    WrittenReplacement(ps, i, m, w);
    IndexOfIdFirst(after, id, i);
    assert r.result == FindById(after, id);
  }

  /** What a successful save of the records with position `i` replaced by
      `m` leaves under the key. */
  lemma WrittenReplacement(ps: seq<Project>, i: nat, m: Project, w: Attempt)
    requires i < |ps|
    ensures var after := WrittenRecords(ps[i := m], w);
      && |after| == |ps|
      && SameApartFromThumbnail(after[i], m)
      && (forall j :: 0 <= j < |ps| && j != i ==> SameApartFromThumbnail(after[j], ps[j]))
      && (forall j :: 0 <= j < |ps| && j != i ==> after[j].id == ps[j].id)
      && after[i].id == m.id
      && (FellBack(w) ==> after[i].thumbnail.None?)
      && (w.first == Written ==> after == ps[i := m])
  {
  }

  /** Whatever the outcome, an update keeps every record's `id` and
      `createdAt` where they were, so ids stay unique. */
  lemma UpdateKeepsIdsAndDates(st: StoreState, id: string, u: Patch, w: Attempt)
    ensures var ps, after := GetProjects(st), GetProjects(UpdateProject(st, id, u, w).store);
      && |after| == |ps|
      && (forall j :: 0 <= j < |ps| ==> after[j].id == ps[j].id && after[j].createdAt == ps[j].createdAt)
      && (UniqueIds(ps) ==> UniqueIds(after))
  {
  }

  /** `projects.filter(p => p.id !== id)`. */
  function WithoutId(ps: seq<Project>, id: string): (r: seq<Project>)
    ensures forall p :: p in r <==> p in ps && p.id != id
    ensures !HasId(r, id)
  {
    var r := Filter(ps, (p: Project) => p.id != id);
    FilterMembers(ps, (p: Project) => p.id != id);
    assert forall k :: 0 <= k < |r| ==> r[k] in r;
    r
  }

  /** `deleteProject`: saves the records without the id and reports whether
      any record had it. */
  function DeleteProject(st: StoreState, id: string, w: Attempt): (r: Step<bool>)
    ensures r.result <==> HasId(GetProjects(st), id)
    ensures Persists(w) ==> GetProjects(r.store) == WrittenRecords(WithoutId(GetProjects(st), id), w)
    ensures Persists(w) ==> !HasId(GetProjects(r.store), id)
    ensures Persists(w) ==> r.store.Stored?
    ensures !Persists(w) ==> r.store == st
  {
    var projects := GetProjects(st);
    var filtered := WithoutId(projects, id);
    FilterShrinks(projects, (p: Project) => p.id != id);
    var saved := SaveProjects(st, List(filtered), w);
    Step(|filtered| < |projects|, saved.store)
  }

  /** The records a delete keeps are the others, in their original order. */
  lemma DeleteKeepsOthersInOrder(st: StoreState, id: string, w: Attempt) returns (idx: seq<nat>)
    requires w.first == Written
    ensures var ps := GetProjects(st);
      && PicksOut(GetProjects(DeleteProject(st, id, w).store), ps, idx)
      && forall i :: 0 <= i < |ps| ==> (ps[i].id != id <==> i in idx)
  {
    idx := FilterPositions(GetProjects(st), (p: Project) => p.id != id);
  }

  /** Deleting an id no record has reports `false` and, on a plain write,
      leaves the contents as they were. */
  lemma DeleteMissingId(st: StoreState, id: string, w: Attempt)
    requires !HasId(GetProjects(st), id)
    ensures var r := DeleteProject(st, id, w);
      && !r.result
      && (w.first == Written ==> GetProjects(r.store) == GetProjects(st))
  {
    FilterKeepsAll(GetProjects(st), (p: Project) => p.id != id);
  }

  /** Deleting from an absent or malformed key replaces it with an empty
      array once the write persists. */
  lemma DeleteOnUnreadableKeyStoresEmpty(st: StoreState, id: string, w: Attempt)
    requires !st.Stored? && Persists(w)
    ensures DeleteProject(st, id, w) == Step(false, Stored([]))
  {
  }

  /** The reported removal does not depend on the write: a delete whose save
      failed still reports `true` while the record stays stored. */
  lemma DeleteIgnoresWriteOutcome(st: StoreState, id: string, w: Attempt)
    requires HasId(GetProjects(st), id) && !Persists(w)
    ensures var r := DeleteProject(st, id, w);
      r.result && HasId(GetProjects(r.store), id)
  {
  }

  /** `getProject`: the first record with the id, if any. */
  function GetProject(st: StoreState, id: string): (r: Option<Project>)
    ensures r.None? <==> !HasId(GetProjects(st), id)
    ensures r.Some? ==> r.value.id == id && r.value in GetProjects(st)
  {
    FindById(GetProjects(st), id)
  }

  /** Adding a record under a fresh id and deleting that id restores the
      contents. */
  lemma {:induction false} AddThenDelete(st: StoreState, d: Draft, generatedId: string, now: int, w: Attempt)
    requires w.first == Written
    requires !HasId(GetProjects(st), d.id.GetOr(generatedId))
    ensures var added := AddProject(st, d, generatedId, now, w);
      GetProjects(DeleteProject(added.store, d.id.GetOr(generatedId), w).store) == GetProjects(st)
  {
    var ps := GetProjects(st);
    var id := d.id.GetOr(generatedId);
    var rec := NewRecord(d, generatedId, now);
    var keep := (p: Project) => p.id != id;
    FilterKeepsAll(ps, keep);
    FilterConcat(ps, [rec], keep);
  }
}
