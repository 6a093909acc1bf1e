/** The project record and the record-level operations the store performs:
    building a new record, merging an update into an existing one, and clearing
    thumbnails for the quota fallback. */
module Records {
  import opened Wrappers

  /** One portfolio entry as it sits in the stored array. An absent or `null`
      optional field is `None`; `createdAt` is a timestamp in milliseconds. */
  datatype Project = Project(
    id: string,
    name: string,
    developerName: Option<string>,
    description: string,
    category: string,
    status: string,
    technologies: Option<seq<string>>,
    tags: Option<seq<string>>,
    thumbnail: Option<string>,
    createdAt: int)

  /** What a caller hands to `addProject`: the record body, plus an `id` and a
      `createdAt` it may or may not supply. */
  datatype Draft = Draft(
    id: Option<string>,
    name: string,
    developerName: Option<string>,
    description: string,
    category: string,
    status: string,
    technologies: Option<seq<string>>,
    tags: Option<seq<string>>,
    thumbnail: Option<string>,
    createdAt: Option<int>)

  /** What a caller hands to `updateProject`: each field is `None` when the key
      is missing from the object and `Some(v)` when it is present, so a
      nullable field can be explicitly set to `null` with `Some(None)`. */
  datatype Patch = Patch(
    id: Option<string>,
    name: Option<string>,
    developerName: Option<Option<string>>,
    description: Option<string>,
    category: Option<string>,
    status: Option<string>,
    technologies: Option<Option<seq<string>>>,
    tags: Option<Option<seq<string>>>,
    thumbnail: Option<Option<string>>,
    createdAt: Option<int>)

  /** The update object `{}`. */
  const NoChanges := Patch(None, None, None, None, None, None, None, None, None, None)

  /** `{ id: generatedId, ...draft, createdAt: now }`: a caller-supplied id wins
      over the generated one, a caller-supplied `createdAt` never does. */
  function NewRecord(d: Draft, generatedId: string, now: int): (p: Project)
    ensures p.createdAt == now
    ensures d.id.None? ==> p.id == generatedId
    ensures d.id.Some? ==> p.id == d.id.value
  {
    Project(d.id.GetOr(generatedId), d.name, d.developerName, d.description, d.category,
            d.status, d.technologies, d.tags, d.thumbnail, now)
  }

  /** `{ ...prev, ...u, id: prev.id, createdAt: prev.createdAt }`: the update's
      fields win, except that `id` and `createdAt` stay those of `prev`. */
  function Merge(prev: Project, u: Patch): (r: Project)
    ensures r.id == prev.id && r.createdAt == prev.createdAt
  {
    Project(
      prev.id,
      u.name.GetOr(prev.name),
      u.developerName.GetOr(prev.developerName),
      u.description.GetOr(prev.description),
      u.category.GetOr(prev.category),
      u.status.GetOr(prev.status),
      u.technologies.GetOr(prev.technologies),
      u.tags.GetOr(prev.tags),
      u.thumbnail.GetOr(prev.thumbnail),
      prev.createdAt)
  }

  /** An update that supplies nothing but an `id` and a `createdAt` leaves the
      record exactly as it was. */
  lemma MergeOnlyPinnedFields(prev: Project, id: Option<string>, createdAt: Option<int>)
    ensures Merge(prev, NoChanges.(id := id, createdAt := createdAt)) == prev
  {
  }

  /** Applying the same update twice is applying it once. */
  lemma MergeIdempotent(prev: Project, u: Patch)
    ensures Merge(Merge(prev, u), u) == Merge(prev, u)
  {
  }

  /** An update of the category alone changes nothing else. */
  lemma MergeCategoryOnly(prev: Project, category: string)
    ensures Merge(prev, NoChanges.(category := Some(category))) == prev.(category := category)
  {
  }

  /** Two records that agree on everything except possibly the thumbnail. */
  predicate SameApartFromThumbnail(a: Project, b: Project) {
    a.(thumbnail := None) == b.(thumbnail := None)
  }

  /** `projects.map(p => ({ ...p, thumbnail: null }))`. */
  function StripThumbnails(ps: seq<Project>): (r: seq<Project>)
    ensures |r| == |ps|
    ensures forall i :: 0 <= i < |ps| ==> r[i].thumbnail.None? && SameApartFromThumbnail(r[i], ps[i])
  {
    seq(|ps|, i requires 0 <= i < |ps| => ps[i].(thumbnail := None))
  }

  /** Clearing thumbnails a second time has no further effect. */
  lemma StripThumbnailsIdempotent(ps: seq<Project>)
    ensures StripThumbnails(StripThumbnails(ps)) == StripThumbnails(ps)
  {
  }

  /** Some record carries the id. */
  predicate HasId(ps: seq<Project>, id: string) {
    exists i :: 0 <= i < |ps| && ps[i].id == id
  }

  /** No two records share an id. */
  predicate UniqueIds(ps: seq<Project>) {
    forall i, j :: 0 <= i < j < |ps| ==> ps[i].id != ps[j].id
  }

  /** `projects.findIndex(p => p.id === id)`, with `None` for `-1`. */
  function IndexOfId(ps: seq<Project>, id: string): (r: Option<nat>)
    ensures r.Some? ==> r.value < |ps| && ps[r.value].id == id
    ensures r.Some? ==> forall j :: 0 <= j < r.value ==> ps[j].id != id
    ensures r.None? ==> !HasId(ps, id)
  {
    if |ps| == 0 then None
    else if ps[0].id == id then Some(0)
    else
      match IndexOfId(ps[1..], id)
      case Some(k) => Some(k + 1)
      case None => None
  }

  /** `projects.find(p => p.id === id)`, with `None` for `undefined`. */
  function FindById(ps: seq<Project>, id: string): (r: Option<Project>)
    ensures r.Some? ==> r.value in ps && r.value.id == id
    ensures r.None? <==> !HasId(ps, id)
    ensures r.Some? ==> exists i :: 0 <= i < |ps| && ps[i] == r.value && forall j :: 0 <= j < i ==> ps[j].id != id
  {
    match IndexOfId(ps, id)
    case Some(i) => Some(ps[i])
    case None => None
  }

  /** A position holding the id with no earlier position holding it is the
      one `findIndex` reports. */
  lemma {:induction false} IndexOfIdFirst(ps: seq<Project>, id: string, k: nat)
    requires k < |ps| && ps[k].id == id
    requires forall j :: 0 <= j < k ==> ps[j].id != id
    ensures IndexOfId(ps, id) == Some(k)
  {
    if k > 0 {
      IndexOfIdFirst(ps[1..], id, k - 1);
    }
  }
}
