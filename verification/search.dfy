/** `SearchFilter`: the pure query functions the pages run over a snapshot
    of the stored records. */
module SearchFilter {
  import opened Wrappers
  import opened Seqs
  import opened Text
  import opened Records

  /** `s.toLowerCase().includes(term.toLowerCase())`. */
  predicate Mentions(s: string, term: string) {
    Contains(LowerStr(s), LowerStr(term))
  }

  /** `list && list.some(x => Mentions(x, term))`. */
  predicate AnyMentions(list: Option<seq<string>>, term: string) {
    list.Some? && exists i :: 0 <= i < |list.value| && Mentions(list.value[i], term)
  }

  /** The free-text test: an empty term matches everything; otherwise the
      term must occur, ignoring case, in the name, the developer name, the
      description, a technology or a tag. */
  predicate MatchesSearch(p: Project, term: string) {
    || |term| == 0
    || Mentions(p.name, term)
    || (p.developerName.Some? && Mentions(p.developerName.value, term))
    || Mentions(p.description, term)
    || AnyMentions(p.technologies, term)
    || AnyMentions(p.tags, term)
  }

  /** The category test: empty, or exactly the record's category. */
  predicate MatchesCategory(p: Project, category: string) {
    |category| == 0 || p.category == category
  }

  /** The tag test: no tags asked for, or some asked-for tag equals some
      record tag, ignoring case. */
  predicate MatchesTags(p: Project, tags: seq<string>) {
    || |tags| == 0
    || (p.tags.Some? && exists i, j :: 0 <= i < |tags| && 0 <= j < |p.tags.value| &&
                                       LowerStr(tags[i]) == LowerStr(p.tags.value[j]))
  }

  predicate Matches(p: Project, term: string, category: string, tags: seq<string>) {
    MatchesSearch(p, term) && MatchesCategory(p, category) && MatchesTags(p, tags)
  }

  /** `filterProjects`: the records passing all three tests. */
  function FilterProjects(ps: seq<Project>, term: string, category: string, tags: seq<string>)
    : (r: seq<Project>)
    ensures forall p :: p in r <==> p in ps && Matches(p, term, category, tags)
  {
    FilterMembers(ps, (p: Project) => Matches(p, term, category, tags));
    Filter(ps, (p: Project) => Matches(p, term, category, tags))
  }

  /** The result is the subsequence of the input at exactly the matching
      positions, in input order. */
  lemma FilterProjectsInOrder(ps: seq<Project>, term: string, category: string, tags: seq<string>)
    returns (idx: seq<nat>)
    ensures PicksOut(FilterProjects(ps, term, category, tags), ps, idx)
    ensures forall i :: 0 <= i < |ps| ==> (Matches(ps[i], term, category, tags) <==> i in idx)
  {
    idx := FilterPositions(ps, (p: Project) => Matches(p, term, category, tags));
  }

  /** With no search term, no category and no tags, nothing is filtered out. */
  lemma NoFiltersKeepsAll(ps: seq<Project>)
    ensures FilterProjects(ps, "", "", []) == ps
  {
    FilterKeepsAll(ps, (p: Project) => Matches(p, "", "", []));
  }

  /** The search term's own case does not matter. */
  lemma SearchIgnoresTermCase(p: Project, term: string)
    ensures MatchesSearch(p, term) <==> MatchesSearch(p, LowerStr(term))
  {
    LowerStrIdempotent(term);
  }

  /** A non-empty term matches the name when it occurs in the lower-cased
      name at some position. */
  lemma NameMatchIsSubstring(p: Project, term: string)
    ensures Mentions(p.name, term) <==> exists i :: OccursAt(LowerStr(p.name), LowerStr(term), i)
  {
    ContainsIffOccurs(LowerStr(p.name), LowerStr(term));
  }

  /** The orderings `sortProjects` knows. */
  datatype SortKey = DateNewest | DateOldest | NameAsc | NameDesc

  /** The `switch (sortBy)` cases; any other string selects no ordering. */
  function ParseSortKey(sortBy: string): Option<SortKey> {
    if sortBy == "date-newest" then Some(DateNewest)
    else if sortBy == "date-oldest" then Some(DateOldest)
    else if sortBy == "name-asc" then Some(NameAsc)
    else if sortBy == "name-desc" then Some(NameDesc)
    else None
  }

  /** The comparator of `a` and `b` is at most zero: `a` may stay before `b`. */
  predicate Leq(k: SortKey, a: Project, b: Project) {
    match k
    case DateNewest => b.createdAt - a.createdAt <= 0
    case DateOldest => a.createdAt - b.createdAt <= 0
    case NameAsc => StrLeq(a.name, b.name)
    case NameDesc => StrLeq(b.name, a.name)
  }

  lemma LeqTotal(k: SortKey, a: Project, b: Project)
    ensures Leq(k, a, b) || Leq(k, b, a)
  {
    if k.NameAsc? || k.NameDesc? {
      StrLeqTotal(a.name, b.name);
    }
  }

  lemma LeqTransitive(k: SortKey, a: Project, b: Project, c: Project)
    requires Leq(k, a, b) && Leq(k, b, c)
    ensures Leq(k, a, c)
  {
    match k
    case NameAsc => StrLeqTransitive(a.name, b.name, c.name);
    case NameDesc => StrLeqTransitive(c.name, b.name, a.name);
    case _ =>
  }

  /** Every element may stay before every later one. */
  predicate Sorted(k: SortKey, s: seq<Project>) {
    forall i, j :: 0 <= i < j < |s| ==> Leq(k, s[i], s[j])
  }

  /** `a` and `b` compare equal under `k`. */
  predicate Tie(k: SortKey, a: Project, b: Project) {
    Leq(k, a, b) && Leq(k, b, a)
  }

  /** Puts `x` in front of the first element it may precede. */
  function Insert(k: SortKey, x: Project, t: seq<Project>): (r: seq<Project>)
    ensures multiset(r) == multiset(t) + multiset{x}
  {
    if |t| == 0 then [x]
    else if Leq(k, x, t[0]) then [x] + t
    else
      assert t == [t[0]] + t[1..];
      [t[0]] + Insert(k, x, t[1..])
  }

  /** A stable insertion sort by `k`: the head goes into the sorted tail. */
  function SortBy(k: SortKey, s: seq<Project>): (r: seq<Project>)
    ensures multiset(r) == multiset(s)
  {
    if |s| == 0 then []
    else
      assert s == [s[0]] + s[1..];
      Insert(k, s[0], SortBy(k, s[1..]))
  }

  lemma {:induction false} InsertSorted(k: SortKey, x: Project, t: seq<Project>)
    requires Sorted(k, t)
    ensures Sorted(k, Insert(k, x, t))
  {
    if |t| == 0 {
    } else if Leq(k, x, t[0]) {
      forall j | 0 <= j < |t|
        ensures Leq(k, x, t[j])
      {
        if j > 0 { LeqTransitive(k, x, t[0], t[j]); }
      }
    } else {
      LeqTotal(k, x, t[0]);
      InsertSorted(k, x, t[1..]);
      var rest := Insert(k, x, t[1..]);
      forall j | 0 <= j < |rest|
        ensures Leq(k, t[0], rest[j])
      {
        assert rest[j] in multiset(rest);
        assert rest[j] == x || rest[j] in t[1..];
      }
    }
  }

  lemma {:induction false} SortBySorted(k: SortKey, s: seq<Project>)
    ensures Sorted(k, SortBy(k, s))
  {
    if |s| > 0 {
      SortBySorted(k, s[1..]);
      InsertSorted(k, s[0], SortBy(k, s[1..]));
    }
  }

  /** Inserting `x` into a sorted sequence puts it before every element it
      ties with, so among ties it keeps its place in front. */
  lemma {:induction false} InsertTies(k: SortKey, x: Project, t: seq<Project>, z: Project, keep: Project -> bool)
    requires Sorted(k, t)
    requires forall y :: keep(y) <==> Tie(k, y, z)
    ensures Filter(Insert(k, x, t), keep) == (if keep(x) then [x] else []) + Filter(t, keep)
  {
    if |t| == 0 {
    } else if Leq(k, x, t[0]) {
      assert ([x] + t)[1..] == t;
    } else {
      InsertTies(k, x, t[1..], z, keep);
      var rest := Insert(k, x, t[1..]);
      assert ([t[0]] + rest)[1..] == rest;
      if keep(x) && keep(t[0]) {
        LeqTransitive(k, x, z, t[0]);
      }
    }
  }

  /** Sorting is stable: the records that tie with any `z` come out in the
      order they went in. */
  lemma {:induction false} SortByStable(k: SortKey, s: seq<Project>, z: Project, keep: Project -> bool)
    requires forall y :: keep(y) <==> Tie(k, y, z)
    ensures Filter(SortBy(k, s), keep) == Filter(s, keep)
  {
    if |s| > 0 {
      SortByStable(k, s[1..], z, keep);
      SortBySorted(k, s[1..]);
      InsertTies(k, s[0], SortBy(k, s[1..]), z, keep);
    }
  }

  /** `sortProjects`: a sorted copy for the four known keys, the same order
      for any other key. */
  function SortProjects(ps: seq<Project>, sortBy: string): (r: seq<Project>)
    ensures multiset(r) == multiset(ps)
    ensures ParseSortKey(sortBy).None? ==> r == ps
    ensures ParseSortKey(sortBy).Some? ==> Sorted(ParseSortKey(sortBy).value, r)
  {
    match ParseSortKey(sortBy)
    case None => ps
    case Some(k) =>
      SortBySorted(k, ps);
      SortBy(k, ps)
  }

  /** What each key orders by. */
  lemma SortProjectsOrders(ps: seq<Project>, sortBy: string)
    ensures var r := SortProjects(ps, sortBy);
      && (sortBy == "name-asc" ==> forall i, j :: 0 <= i < j < |r| ==> StrLeq(r[i].name, r[j].name))
      && (sortBy == "name-desc" ==> forall i, j :: 0 <= i < j < |r| ==> StrLeq(r[j].name, r[i].name))
      && (sortBy == "date-newest" ==> forall i, j :: 0 <= i < j < |r| ==> r[i].createdAt >= r[j].createdAt)
      && (sortBy == "date-oldest" ==> forall i, j :: 0 <= i < j < |r| ==> r[i].createdAt <= r[j].createdAt)
  {
  }

  /** Records with equal names keep their input order under both name sorts. */
  lemma SortByNameKeepsEqualNamesInOrder(ps: seq<Project>, sortBy: string, name: string, keep: Project -> bool)
    requires sortBy == "name-asc" || sortBy == "name-desc"
    requires forall y :: keep(y) <==> y.name == name
    ensures Filter(SortProjects(ps, sortBy), keep) == Filter(ps, keep)
  {
    var k := ParseSortKey(sortBy).value;
    var z := Project("", name, None, "", "", "", None, None, None, 0);
    forall y
      ensures keep(y) <==> Tie(k, y, z)
    {
      if Tie(k, y, z) {
        StrLeqAntisymmetric(y.name, name);
      }
      StrLeqReflexive(name);
    }
    SortByStable(k, ps, z, keep);
  }
}
