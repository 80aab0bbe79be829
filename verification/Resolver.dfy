/** Plugin dependency resolution: a backtracking search over releases, highest version first, and
    the rejection of cyclic selections. Versions and requirements are what some reading of Semantic
    Versioning says they are. */
module Resolver {
  import opened Lexicographic

  type Version(==, !new)
  type Requirement(==, !new)

  datatype Option<T> = None | Some(value: T)

  /** A reading of versions: how versions and requirements parse, which versions a requirement
      matches, and the precedence order of section 11 of Semantic Versioning 2.0.0. */
  datatype Semver = Semver(
    version: string -> Option<Version>,
    requirement: string -> Option<Requirement>,
    matches: (Requirement, Version) -> bool,
    atMost: (Version, Version) -> bool)
  {
    ghost predicate Ordered()
    {
      (forall a, b :: atMost(a, b) || atMost(b, a)) &&
      (forall a, b, c :: atMost(a, b) && atMost(b, c) ==> atMost(a, c))
    }
  }

  datatype Dependency = Dependency(id: string, requirement: string, optional: bool, features: set<string>)

  datatype Release = Release(
    id: string, version: string, dependencies: seq<Dependency>, features: set<string>, platforms: set<string>)

  /** What is resolved against: the catalogue, the platform and the reading of versions. */
  datatype Market = Market(semver: Semver, releases: seq<Release>, platform: string)
  {
    function Ids(): set<string> { set r | r in releases :: r.id }
  }

  datatype State = State(
    selected: map<string, Release>,
    constraints: map<string, seq<Requirement>>,
    requested: map<string, set<string>>)

  const EMPTY: State := State(map[], map[], map[])

  function Requirements(s: State, id: string): seq<Requirement>
  {
    if id in s.constraints then s.constraints[id] else []
  }

  function Features(s: State, id: string): set<string>
  {
    if id in s.requested then s.requested[id] else {}
  }

  /** An optional dependency that asks for no feature is not followed. */
  predicate Followed(d: Dependency) { !d.optional || d.features != {} }

  function AddDependency(m: Market, s: State, d: Dependency): Option<State>
  {
    if !Followed(d) then Some(s)
    else
      match m.semver.requirement(d.requirement)
      case None => None
      case Some(q) =>
        Some(s.(constraints := s.constraints[d.id := Requirements(s, d.id) + [q]],
                requested := s.requested[d.id := Features(s, d.id) + d.features]))
  }

  ghost function AddAll(m: Market, s: State, ds: seq<Dependency>): Option<State>
  {
    if ds == [] then Some(s)
    else
      match AddAll(m, s, ds[..|ds| - 1])
      case None => None
      case Some(t) => AddDependency(m, t, ds[|ds| - 1])
  }

  // ---- Candidates ----

  predicate Matches(m: Market, requirements: seq<Requirement>, v: Version)
  {
    forall q :: q in requirements ==> m.semver.matches(q, v)
  }

  predicate Fits(m: Market, r: Release)
  {
    r.platforms == {} || m.platform in r.platforms
  }

  /** `r` is a release of `id` that meets all `s` asks of it so far. */
  predicate Candidate(m: Market, s: State, id: string, r: Release)
  {
    r in m.releases && r.id == id && m.semver.version(r.version).Some? &&
    Matches(m, Requirements(s, id), m.semver.version(r.version).value) &&
    Features(s, id) <= r.features && Fits(m, r)
  }

  /** Every release of `id` has a version that parses. */
  ghost predicate WellVersioned(m: Market, id: string)
  {
    forall r :: r in m.releases && r.id == id ==> m.semver.version(r.version).Some?
  }

  predicate AtMost(m: Market, a: Release, b: Release)
    requires m.semver.version(a.version).Some? && m.semver.version(b.version).Some?
  {
    m.semver.atMost(m.semver.version(a.version).value, m.semver.version(b.version).value)
  }

  ghost predicate Versioned(m: Market, rs: seq<Release>)
  {
    forall r :: r in rs ==> m.semver.version(r.version).Some?
  }

  ghost predicate Descending(m: Market, rs: seq<Release>)
    requires Versioned(m, rs)
  {
    forall j, k :: 0 <= j < k < |rs| ==> AtMost(m, rs[k], rs[j])
  }

  /** Two versions of the same precedence. */
  predicate SameVersion(m: Market, a: Release, b: Release)
  {
    m.semver.version(a.version).Some? && m.semver.version(b.version).Some? && AtMost(m, a, b) && AtMost(m, b, a)
  }

  /** The releases of the version of `c`, in order. */
  ghost function OfVersion(m: Market, rs: seq<Release>, c: Release): seq<Release>
  {
    if rs == [] then [] else (if SameVersion(m, rs[0], c) then [rs[0]] else []) + OfVersion(m, rs[1..], c)
  }

  /** In both lists the releases of each version come in the same order. */
  ghost predicate SameOrder(m: Market, a: seq<Release>, b: seq<Release>)
  {
    forall c :: OfVersion(m, a, c) == OfVersion(m, b, c)
  }

  lemma {:induction false} OfVersionConcat(m: Market, a: seq<Release>, b: seq<Release>, c: Release)
    ensures OfVersion(m, a + b, c) == OfVersion(m, a, c) + OfVersion(m, b, c)
  {
    if a == [] {
      assert a + b == b;
    } else {
      assert (a + b)[1..] == a[1..] + b;
      OfVersionConcat(m, a[1..], b, c);
    }
  }

  lemma {:induction false} OfVersionNone(m: Market, rs: seq<Release>, c: Release)
    requires forall k :: 0 <= k < |rs| ==> !SameVersion(m, rs[k], c)
    ensures OfVersion(m, rs, c) == []
  {
    if rs != [] { OfVersionNone(m, rs[1..], c); }
  }

  /** Put in front of lower versions only, `r` joins its own behind those already there. */
  lemma {:induction false} InsertedLast(m: Market, r: Release, front: seq<Release>, back: seq<Release>, c: Release)
    requires m.semver.Ordered() && m.semver.version(r.version).Some? && Versioned(m, back)
    requires forall k :: 0 <= k < |back| ==> !AtMost(m, r, back[k])
    ensures OfVersion(m, front + [r] + back, c) == OfVersion(m, front + back + [r], c)
  {
    OfVersionConcat(m, front + [r], back, c);
    OfVersionConcat(m, front, [r], c);
    OfVersionConcat(m, front + back, [r], c);
    OfVersionConcat(m, front, back, c);
    if SameVersion(m, r, c) { OfVersionNone(m, back, c); }
  }

  /** `r` put into a list sorted by descending version, after those of the same version. */
  method Insert(m: Market, r: Release, rs: seq<Release>) returns (sorted: seq<Release>)
    requires m.semver.version(r.version).Some? && m.semver.Ordered()
    requires Versioned(m, rs) && Descending(m, rs)
    ensures Versioned(m, sorted) && Descending(m, sorted)
    ensures multiset(sorted) == multiset(rs) + multiset{r}
    ensures forall c :: c in sorted <==> c == r || c in rs
    ensures SameOrder(m, sorted, rs + [r])
  {
    var at := |rs|;
    while at > 0 && !AtMost(m, r, rs[at - 1])
      invariant 0 <= at <= |rs| && forall k :: at <= k < |rs| ==> AtMost(m, rs[k], r) && !AtMost(m, r, rs[k])
    {
      at := at - 1;
    }
    sorted := rs[..at] + [r] + rs[at..];
    forall c ensures OfVersion(m, sorted, c) == OfVersion(m, rs + [r], c) {
      InsertedLast(m, r, rs[..at], rs[at..], c);
      assert rs == rs[..at] + rs[at..];
    }
    forall k | 0 <= k < at ensures AtMost(m, r, rs[k]) {
      if k < at - 1 {
        AtMostTransitive(m, r, rs[at - 1], rs[k]);
      }
    }
    Inserted(m, r, rs, at);
  }

  lemma {:induction false} AtMostTransitive(m: Market, a: Release, b: Release, c: Release)
    requires m.semver.Ordered()
    requires m.semver.version(a.version).Some? && m.semver.version(b.version).Some? && m.semver.version(c.version).Some?
    requires AtMost(m, a, b) && AtMost(m, b, c)
    ensures AtMost(m, a, c)
  {
  }

  lemma {:induction false} Inserted(m: Market, r: Release, rs: seq<Release>, at: nat)
    requires m.semver.version(r.version).Some? && at <= |rs|
    requires Versioned(m, rs) && Descending(m, rs)
    requires forall k :: at <= k < |rs| ==> AtMost(m, rs[k], r)
    requires forall k :: 0 <= k < at ==> AtMost(m, r, rs[k])
    ensures var sorted := rs[..at] + [r] + rs[at..];
            Versioned(m, sorted) && Descending(m, sorted) && multiset(sorted) == multiset(rs) + multiset{r} &&
            forall c :: c in sorted <==> c == r || c in rs
  {
    assert rs == rs[..at] + rs[at..];
  }

  datatype Failure = BadVersion | NoCandidate | Conflict | Exhausted | BadRoot | Cycle(id: string)
  datatype Result<T> = Ok(value: T) | Err(failure: Failure)

  /** The releases that can be chosen for `id`, in the order of the catalogue. */
  ghost function Choosable(m: Market, s: State, id: string, rs: seq<Release>): seq<Release>
  {
    if rs == [] then []
    else Choosable(m, s, id, rs[..|rs| - 1]) + if Candidate(m, s, id, rs[|rs| - 1]) then [rs[|rs| - 1]] else []
  }

  lemma {:induction false} ChoosableMore(m: Market, s: State, id: string, k: nat)
    requires k < |m.releases|
    ensures Choosable(m, s, id, m.releases[..k + 1]) ==
            Choosable(m, s, id, m.releases[..k]) + if Candidate(m, s, id, m.releases[k]) then [m.releases[k]] else []
  {
    assert m.releases[..k + 1][..k] == m.releases[..k];
  }

  lemma {:induction false} SameOrderMore(m: Market, found: seq<Release>, listed: seq<Release>, r: Release)
    requires SameOrder(m, found, listed)
    ensures SameOrder(m, found + [r], listed + [r])
  {
    forall c ensures OfVersion(m, found + [r], c) == OfVersion(m, listed + [r], c) {
      OfVersionConcat(m, found, [r], c);
      OfVersionConcat(m, listed, [r], c);
    }
  }

  /** The choices among the first `k` releases, in descending order, equal versions in that of the catalogue. */
  ghost predicate Listing(m: Market, s: State, id: string, k: nat, found: seq<Release>)
    requires k <= |m.releases|
  {
    Versioned(m, found) && Descending(m, found) &&
    (forall c :: c in found <==> c in m.releases[..k] && Candidate(m, s, id, c)) &&
    SameOrder(m, found, Choosable(m, s, id, m.releases[..k]))
  }

  lemma {:induction false} ListingMore(m: Market, s: State, id: string, k: nat, found: seq<Release>, next: seq<Release>)
    requires k < |m.releases| && Listing(m, s, id, k, found) && Versioned(m, next) && Descending(m, next)
    requires !Candidate(m, s, id, m.releases[k]) ==> next == found
    requires Candidate(m, s, id, m.releases[k]) ==>
               (forall c :: c in next <==> c == m.releases[k] || c in found) &&
               SameOrder(m, next, found + [m.releases[k]])
    ensures Listing(m, s, id, k + 1, next)
  {
    var r := m.releases[k];
    assert m.releases[..k + 1] == m.releases[..k] + [r];
    forall c ensures c in next <==> c in m.releases[..k + 1] && Candidate(m, s, id, c) {
      assert c in m.releases[..k + 1] <==> c in m.releases[..k] || c == r;
      assert c in found <==> c in m.releases[..k] && Candidate(m, s, id, c);
    }
    var listed := Choosable(m, s, id, m.releases[..k]);
    ChoosableMore(m, s, id, k);
    if Candidate(m, s, id, r) {
      SameOrderMore(m, found, listed, r);
      assert SameOrder(m, next, listed + [r]);
    } else {
      assert listed + [] == listed;
    }
  }

  /** No release stands behind one of a lower version. */
  ghost predicate HighestFirst(semver: Semver, rs: seq<Release>)
  {
    forall j, k, higher, lower ::
      0 <= j < k < |rs| && semver.version(rs[j].version) == Some(higher) && semver.version(rs[k].version) == Some(lower) ==>
        semver.atMost(lower, higher)
  }

  /** The releases of `id` that can be chosen, highest version first, those of one version in the order of
      the catalogue. */
  method Candidates(m: Market, s: State, id: string) returns (r: Result<seq<Release>>)
    requires m.semver.Ordered()
    ensures r == Err(BadVersion) <==> !WellVersioned(m, id)
    ensures r == Err(NoCandidate) <==> WellVersioned(m, id) && forall c :: !Candidate(m, s, id, c)
    ensures r.Err? ==> r.failure == BadVersion || r.failure == NoCandidate
    ensures r.Ok? ==> r.value != [] && (forall c :: c in r.value <==> Candidate(m, s, id, c))
    ensures r.Ok? ==> Versioned(m, r.value) && Descending(m, r.value)
    ensures r.Ok? ==> SameOrder(m, r.value, Choosable(m, s, id, m.releases))
    ensures r.Ok? ==> HighestFirst(m.semver, r.value)
  {
    var found: seq<Release> := [];
    for k := 0 to |m.releases|
      invariant forall j :: 0 <= j < k && m.releases[j].id == id ==> m.semver.version(m.releases[j].version).Some?
      invariant Listing(m, s, id, k, found)
    {
      var release := m.releases[k];
      if release.id == id && m.semver.version(release.version).None? { return Err(BadVersion); }
      var next := found;
      if Candidate(m, s, id, release) { next := Insert(m, release, found); }
      ListingMore(m, s, id, k, found, next);
      found := next;
    }
    assert m.releases[..|m.releases|] == m.releases;
    if found == [] {
      return Err(NoCandidate);
    }
    assert found[0] in found;
    return Ok(found);
  }

  // ---- The search ----

  /** Every selected release meets all version requirements on its id. */
  ghost predicate Consistent(m: Market, s: State)
  {
    forall id :: id in s.selected ==>
      m.semver.version(s.selected[id].version).Some? &&
      Matches(m, Requirements(s, id), m.semver.version(s.selected[id].version).value)
  }

  ghost predicate Complete(s: State) { s.constraints.Keys <= s.selected.Keys }

  ghost predicate IsNext(s: State, id: string) { IsLeast(id, s.constraints.Keys - s.selected.Keys) }

  function Select(s: State, r: Release): State { s.(selected := s.selected[r.id := r]) }

  /** What choosing `r` for its id leads to; none when one of its requirements does not parse. */
  ghost function Branch(m: Market, s: State, r: Release): Option<State>
  {
    AddAll(m, Select(s, r), r.dependencies)
  }

  /** Choosing the releases of `path` in turn, each for the first open id, leads from `s` to the
      complete and consistent state `t`. */
  ghost predicate Solves(m: Market, s: State, path: seq<Release>, t: State)
    decreases |path|
  {
    Consistent(m, s) &&
    if path == [] then Complete(s) && s == t
    else
      IsNext(s, path[0].id) && WellVersioned(m, path[0].id) && Candidate(m, s, path[0].id, path[0]) &&
      Branch(m, s, path[0]).Some? && Solves(m, Branch(m, s, path[0]).value, path[1..], t)
  }

  ghost predicate Solvable(m: Market, s: State) { exists path, t :: Solves(m, s, path, t) }

  /** Choosing `r` now can still be completed. */
  ghost predicate Viable(m: Market, s: State, r: Release)
  {
    Branch(m, s, r).Some? && Solvable(m, Branch(m, s, r).value)
  }

  /** Each release of `path` is the highest its id allows: none of a higher version is viable. */
  ghost predicate Highest(m: Market, s: State, path: seq<Release>)
    decreases |path|
  {
    path == [] ||
    ((forall c :: Candidate(m, s, path[0].id, c) && Viable(m, s, c) ==>
        m.semver.version(path[0].version).Some? && AtMost(m, c, path[0])) &&
     (Branch(m, s, path[0]).Some? ==> Highest(m, Branch(m, s, path[0]).value, path[1..])))
  }

  /** The requirements the followed ones of `ds` put on `id`, in order. */
  ghost function Demanded(m: Market, ds: seq<Dependency>, id: string): seq<Requirement>
  {
    if ds == [] then []
    else
      var last := ds[|ds| - 1];
      Demanded(m, ds[..|ds| - 1], id) +
      if Followed(last) && last.id == id && m.semver.requirement(last.requirement).Some?
      then [m.semver.requirement(last.requirement).value] else []
  }

  ghost predicate Asks(ds: seq<Dependency>, id: string) { exists d :: d in ds && Followed(d) && d.id == id }

  ghost predicate AsksFor(ds: seq<Dependency>, id: string, feature: string)
  {
    exists d :: d in ds && Followed(d) && d.id == id && feature in d.features
  }

  /** `t` is `s` with the demands of `ds` recorded behind its own and nothing else changed. */
  ghost predicate Recorded(m: Market, s: State, ds: seq<Dependency>, t: State)
  {
    t.selected == s.selected && (forall id :: id in t.constraints <==> id in s.constraints || Asks(ds, id)) &&
    (forall id :: Requirements(t, id) == Requirements(s, id) + Demanded(m, ds, id)) &&
    (forall id, f :: f in Features(t, id) <==> f in Features(s, id) || AsksFor(ds, id, f))
  }

  lemma {:induction false} AsksMore(ds: seq<Dependency>, d: Dependency, id: string, f: string)
    ensures Asks(ds + [d], id) <==> Asks(ds, id) || (Followed(d) && d.id == id)
    ensures AsksFor(ds + [d], id, f) <==> AsksFor(ds, id, f) || (Followed(d) && d.id == id && f in d.features)
  {
    assert forall e :: e in ds + [d] <==> e in ds || e == d;
  }

  lemma {:induction false} DemandsMore(m: Market, s: State, ds: seq<Dependency>, t: State, d: Dependency, id: string)
    requires Recorded(m, s, ds, t) && AddDependency(m, t, d).Some?
    ensures Requirements(AddDependency(m, t, d).value, id) == Requirements(s, id) + Demanded(m, ds + [d], id)
  {
    assert (ds + [d])[..|ds|] == ds;
    assert Requirements(t, id) == Requirements(s, id) + Demanded(m, ds, id);
  }

  lemma {:induction false} RecordedMore(m: Market, s: State, ds: seq<Dependency>, t: State, d: Dependency)
    requires Recorded(m, s, ds, t) && AddDependency(m, t, d).Some?
    ensures Recorded(m, s, ds + [d], AddDependency(m, t, d).value)
  {
    var u := AddDependency(m, t, d).value;
    forall id
      ensures Requirements(u, id) == Requirements(s, id) + Demanded(m, ds + [d], id)
    {
      DemandsMore(m, s, ds, t, d, id);
    }
    forall id, f
      ensures id in u.constraints <==> id in s.constraints || Asks(ds + [d], id)
      ensures f in Features(u, id) <==> f in Features(s, id) || AsksFor(ds + [d], id, f)
    {
      FeaturesMore(m, s, ds, t, d, id, f);
    }
  }

  lemma {:induction false} FeaturesMore(m: Market, s: State, ds: seq<Dependency>, t: State, d: Dependency, id: string,
                                        f: string)
    requires Recorded(m, s, ds, t) && AddDependency(m, t, d).Some?
    ensures id in AddDependency(m, t, d).value.constraints <==> id in s.constraints || Asks(ds + [d], id)
    ensures f in Features(AddDependency(m, t, d).value, id) <==> f in Features(s, id) || AsksFor(ds + [d], id, f)
  {
    AsksMore(ds, d, id, f);
    assert f in Features(t, id) <==> f in Features(s, id) || AsksFor(ds, id, f);
  }

  lemma {:induction false} AddAllIsRecorded(m: Market, s: State, ds: seq<Dependency>)
    ensures AddAll(m, s, ds).Some? ==> Recorded(m, s, ds, AddAll(m, s, ds).value)
  {
    if ds != [] && AddAll(m, s, ds).Some? {
      var front, last := ds[..|ds| - 1], ds[|ds| - 1];
      AddAllIsRecorded(m, s, front);
      RecordedMore(m, s, front, AddAll(m, s, front).value, last);
      assert ds == front + [last];
    }
  }

  lemma {:induction false} AddAllFailsWhere(m: Market, s: State, ds: seq<Dependency>)
    ensures AddAll(m, s, ds).None? <==> exists d :: d in ds && Followed(d) && m.semver.requirement(d.requirement).None?
  {
    if ds != [] {
      var front, last := ds[..|ds| - 1], ds[|ds| - 1];
      AddAllFailsWhere(m, s, front);
      assert ds == front + [last];
      assert forall d :: d in ds <==> d in front || d == last;
    }
  }

  method AddAllDependencies(m: Market, s: State, ds: seq<Dependency>) returns (r: Option<State>)
    ensures r == AddAll(m, s, ds)
    ensures r.None? <==> exists d :: d in ds && Followed(d) && m.semver.requirement(d.requirement).None?
    ensures r.Some? ==> Recorded(m, s, ds, r.value)
  {
    AddAllIsRecorded(m, s, ds);
    AddAllFailsWhere(m, s, ds);
    var t := s;
    for k := 0 to |ds|
      invariant AddAll(m, s, ds[..k]) == Some(t)
    {
      assert ds[..k + 1][..k] == ds[..k];
      var next := AddDependency(m, t, ds[k]);
      if next.None? {
        AddAllFails(m, s, ds, k + 1);
        return None;
      }
      t := next.value;
    }
    assert ds[..|ds|] == ds;
    return Some(t);
  }

  lemma {:induction false} AddAllFails(m: Market, s: State, ds: seq<Dependency>, k: nat)
    requires k <= |ds| && AddAll(m, s, ds[..k]).None?
    ensures AddAll(m, s, ds).None?
    decreases |ds|
  {
    if k < |ds| {
      assert ds[..|ds| - 1][..k] == ds[..k];
      AddAllFails(m, s, ds[..|ds| - 1], k);
    } else {
      assert ds[..k] == ds;
    }
  }

  lemma {:induction false} AddAllKeepsSelected(m: Market, s: State, ds: seq<Dependency>)
    ensures AddAll(m, s, ds).Some? ==> AddAll(m, s, ds).value.selected == s.selected
  {
    if ds != [] {
      AddAllKeepsSelected(m, s, ds[..|ds| - 1]);
    }
  }

  /** Each choice leaves fewer release ids to select. */
  lemma {:induction false} SelectShrinks(m: Market, s: State, r: Release, t: State)
    requires r in m.releases && r.id !in s.selected && t.selected == s.selected[r.id := r]
    ensures m.Ids() - t.selected.Keys < m.Ids() - s.selected.Keys
  {
    assert r.id in m.Ids();
    assert r.id in m.Ids() - s.selected.Keys;
  }

  /** The selected ids of which no version meets the constraints on it. */
  method CheckSelected(m: Market, s: State) returns (consistent: bool)
    ensures consistent <==> Consistent(m, s)
  {
    var rest := s.selected.Keys;
    while rest != {}
      invariant rest <= s.selected.Keys
      invariant forall id :: id in s.selected && id !in rest ==>
                  m.semver.version(s.selected[id].version).Some? &&
                  Matches(m, Requirements(s, id), m.semver.version(s.selected[id].version).value)
    {
      var id := Least(rest);
      var version := m.semver.version(s.selected[id].version);
      if version.None? || !Matches(m, Requirements(s, id), version.value) {
        return false;
      }
      rest := rest - {id};
    }
    return true;
  }

  /** The search answers a solution exactly when there is one, and then each release it selects is
      the highest that leaves the rest solvable. It ends because the ids not yet selected shrink. */
  method Solve(m: Market, s: State) returns (r: Result<State>, ghost path: seq<Release>)
    requires m.semver.Ordered()
    ensures r.Ok? <==> Solvable(m, s)
    ensures r.Err? ==> !r.failure.BadRoot? && !r.failure.Cycle?
    ensures r.Ok? ==> Solves(m, s, path, r.value) && Highest(m, s, path)
    decreases m.Ids() - s.selected.Keys, 1
  {
    path := [];
    var consistent := CheckSelected(m, s);
    if !consistent {
      return Err(Conflict), path;
    }
    var open := s.constraints.Keys - s.selected.Keys;
    if open == {} {
      assert forall x :: x in s.constraints.Keys && x !in s.selected.Keys ==> x in open;
      assert Solves(m, s, [], s);
      return Ok(s), path;
    }
    var id := Least(open);
    var choices := Candidates(m, s, id);
    if choices.Err? {
      NoChoice(m, s, id);
      return Err(choices.failure), path;
    }
    for k := 0 to |choices.value|
      invariant forall j :: 0 <= j < k ==> !Viable(m, s, choices.value[j])
    {
      assert choices.value[k] in choices.value;
      r, path := Try(m, s, choices.value[k]);
      if r.Ok? {
        Chosen(m, s, id, choices.value, k, path, r.value);
        path := [choices.value[k]] + path;
        return;
      }
    }
    NoneViable(m, s, id, choices.value);
    return Err(Exhausted), [];
  }

  /** One choice, and the search that goes on from it. */
  method Try(m: Market, s: State, release: Release) returns (r: Result<State>, ghost path: seq<Release>)
    requires m.semver.Ordered() && release in m.releases && release.id !in s.selected
    ensures r.Ok? <==> Viable(m, s, release)
    ensures r.Ok? ==>
              Branch(m, s, release).Some? && Solves(m, Branch(m, s, release).value, path, r.value) &&
              Highest(m, Branch(m, s, release).value, path)
    decreases m.Ids() - s.selected.Keys, 0
  {
    AddAllKeepsSelected(m, Select(s, release), release.dependencies);
    var branch := AddAllDependencies(m, Select(s, release), release.dependencies);
    if branch.None? {
      return Err(Exhausted), [];
    }
    SelectShrinks(m, s, release, branch.value);
    r, path := Solve(m, branch.value);
  }

  lemma {:induction false} NextIsUnique(m: Market, s: State, id: string, path: seq<Release>, t: State)
    requires IsNext(s, id) && Solves(m, s, path, t)
    ensures path != [] && path[0].id == id && Candidate(m, s, id, path[0]) && Viable(m, s, path[0])
    ensures WellVersioned(m, id)
  {
    if path != [] {
      LeastUnique(id, path[0].id, s.constraints.Keys - s.selected.Keys);
      assert Solves(m, Branch(m, s, path[0]).value, path[1..], t);
    }
  }

  lemma {:induction false} NoChoice(m: Market, s: State, id: string)
    requires IsNext(s, id)
    requires !WellVersioned(m, id) || forall c :: !Candidate(m, s, id, c)
    ensures !Solvable(m, s)
  {
    if path, t :| Solves(m, s, path, t) {
      NextIsUnique(m, s, id, path, t);
    }
  }

  lemma {:induction false} NoneViable(m: Market, s: State, id: string, choices: seq<Release>)
    requires IsNext(s, id) && forall c :: c in choices <==> Candidate(m, s, id, c)
    requires forall j :: 0 <= j < |choices| ==> !Viable(m, s, choices[j])
    ensures !Solvable(m, s)
  {
    if path, t :| Solves(m, s, path, t) {
      NextIsUnique(m, s, id, path, t);
    }
  }

  /** The first viable choice of a descending list is the highest. */
  lemma {:induction false} Chosen(m: Market, s: State, id: string, choices: seq<Release>, k: nat,
                                  path: seq<Release>, t: State)
    requires Consistent(m, s) && IsNext(s, id) && k < |choices| && m.semver.Ordered()
    requires WellVersioned(m, id) && forall c :: c in choices <==> Candidate(m, s, id, c)
    requires Versioned(m, choices) && Descending(m, choices)
    requires forall j :: 0 <= j < k ==> !Viable(m, s, choices[j])
    requires Branch(m, s, choices[k]).Some?
    requires Solves(m, Branch(m, s, choices[k]).value, path, t) && Highest(m, Branch(m, s, choices[k]).value, path)
    ensures Solves(m, s, [choices[k]] + path, t) && Highest(m, s, [choices[k]] + path)
  {
    var r := choices[k];
    assert r in choices;
    var whole := [r] + path;
    assert whole[1..] == path && whole[0] == r;
    forall c | Candidate(m, s, id, c) && Viable(m, s, c) ensures AtMost(m, c, r) {
      assert c in choices;
      var j :| 0 <= j < |choices| && choices[j] == c;
    }
  }

  // ---- Completeness ----

  /** `a` settles what `s` asks: it keeps what is selected, answers every constrained id, and is
      closed under the dependencies of its own releases, each demand on version, features and
      platform met. */
  ghost predicate Settles(m: Market, s: State, a: map<string, Release>)
  {
    (forall id :: id in s.selected ==> id in a && a[id] == s.selected[id]) &&
    (forall id :: id in s.constraints || id in s.requested ==> id in a) &&
    (forall id :: id in a ==> Candidate(m, s, id, a[id]) && DependenciesMet(m, a, a[id]))
  }

  ghost predicate DependenciesMet(m: Market, a: map<string, Release>, r: Release)
  {
    forall d :: d in r.dependencies && Followed(d) ==> Met(m, a, d)
  }

  ghost predicate Met(m: Market, a: map<string, Release>, d: Dependency)
  {
    m.semver.requirement(d.requirement).Some? && d.id in a &&
    m.semver.version(a[d.id].version).Some? &&
    m.semver.matches(m.semver.requirement(d.requirement).value, m.semver.version(a[d.id].version).value) &&
    d.features <= a[d.id].features
  }

  lemma {:induction false} SettlesAll(m: Market, s: State, a: map<string, Release>, ds: seq<Dependency>)
    requires Settles(m, s, a) && forall d :: d in ds && Followed(d) ==> Met(m, a, d)
    ensures AddAll(m, s, ds).Some? && Settles(m, AddAll(m, s, ds).value, a)
  {
    if ds != [] {
      var front, last := ds[..|ds| - 1], ds[|ds| - 1];
      SettlesAll(m, s, a, front);
      var t := AddAll(m, s, front).value;
      if Followed(last) {
        assert Met(m, a, last);
        var u := AddDependency(m, t, last).value;
        forall id | id in a ensures Candidate(m, u, id, a[id]) && DependenciesMet(m, a, a[id]) {
          assert Candidate(m, t, id, a[id]);
        }
      }
    }
  }

  /** The search is complete: when some assignment settles everything asked, and the versions of
      the catalogue parse, there is a solution, so `Solve` answers one and never an error. */
  lemma {:induction false} SettledIsSolvable(m: Market, s: State, a: map<string, Release>)
    requires Settles(m, s, a) && AllParse(m)
    ensures Solvable(m, s)
    decreases m.Ids() - s.selected.Keys
  {
    assert Consistent(m, s) by {
      forall id | id in s.selected
        ensures Matches(m, Requirements(s, id), m.semver.version(s.selected[id].version).value)
      {
        assert Candidate(m, s, id, a[id]);
      }
    }
    var open := s.constraints.Keys - s.selected.Keys;
    if open == {} {
      assert forall x :: x in s.constraints.Keys && x !in s.selected.Keys ==> x in open;
      assert Solves(m, s, [], s);
    } else {
      var id := LeastExists(open);
      var r := a[id];
      assert Candidate(m, s, id, r);
      SettlesSelected(m, s, a, id);
      assert DependenciesMet(m, a, r);
      SettlesAll(m, Select(s, r), a, r.dependencies);
      AddAllKeepsSelected(m, Select(s, r), r.dependencies);
      var next := Branch(m, s, r).value;
      SelectShrinks(m, s, r, next);
      SettledIsSolvable(m, next, a);
      var path, t :| Solves(m, next, path, t);
      assert ([r] + path)[1..] == path;
      assert Solves(m, s, [r] + path, t);
    }
  }

  lemma {:induction false} SettlesSelected(m: Market, s: State, a: map<string, Release>, id: string)
    requires Settles(m, s, a) && id in a
    ensures Settles(m, Select(s, a[id]), a)
  {
    var t := Select(s, a[id]);
    forall x | x in a ensures Candidate(m, t, x, a[x]) && DependenciesMet(m, a, a[x]) {
      assert Candidate(m, s, x, a[x]);
    }
  }

  lemma {:induction false} LeastExists(s: set<string>) returns (least: string)
    requires s != {}
    ensures IsLeast(least, s)
    decreases s
  {
    var x :| x in s;
    Reflexive(x);
    if s == {x} {
      least := x;
    } else {
      var y := LeastExists(s - {x});
      Total(x, y);
      Reflexive(y);
      least := if Leq(x, y) then x else y;
      forall z | z in s ensures Leq(least, z) {
        if z != x && least == x {
          Transitive(x, y, z);
        }
      }
    }
  }

  // ---- Soundness ----

  /** `t` only adds to `s`: nothing selected changes and no demand is dropped. */
  ghost predicate Grows(s: State, t: State)
  {
    (forall id :: id in s.selected ==> id in t.selected && t.selected[id] == s.selected[id]) &&
    (forall id :: Requirements(s, id) <= Requirements(t, id)) &&
    (forall id :: Features(s, id) <= Features(t, id)) &&
    s.constraints.Keys <= t.constraints.Keys
  }

  /** `s` records the demands of the dependency `d`. */
  ghost predicate Records(m: Market, s: State, d: Dependency)
  {
    m.semver.requirement(d.requirement).Some? && d.id in s.constraints &&
    m.semver.requirement(d.requirement).value in Requirements(s, d.id) && d.features <= Features(s, d.id)
  }

  ghost predicate RecordsAll(m: Market, s: State, ds: seq<Dependency>)
  {
    forall d :: d in ds && Followed(d) ==> Records(m, s, d)
  }

  lemma {:induction false} AddAllRecords(m: Market, s: State, ds: seq<Dependency>)
    requires AddAll(m, s, ds).Some?
    ensures Grows(s, AddAll(m, s, ds).value) && RecordsAll(m, AddAll(m, s, ds).value, ds)
  {
    if ds != [] {
      var front, last := ds[..|ds| - 1], ds[|ds| - 1];
      AddAllRecords(m, s, front);
      var t := AddAll(m, s, front).value;
      var u := AddDependency(m, t, last).value;
      assert Grows(t, u);
      forall d | d in ds && Followed(d) ensures Records(m, u, d) {
        if d in front {
          assert Records(m, t, d);
          RecordsGrow(m, t, u, d);
        } else {
          assert d == last;
          if Followed(last) {
            assert Requirements(u, d.id)[|Requirements(t, d.id)|] == m.semver.requirement(d.requirement).value;
          }
        }
      }
    }
  }

  lemma {:induction false} RecordsGrow(m: Market, s: State, t: State, d: Dependency)
    requires Records(m, s, d) && Grows(s, t)
    ensures Records(m, t, d)
  {
    var q := m.semver.requirement(d.requirement).value;
    var k :| 0 <= k < |Requirements(s, d.id)| && Requirements(s, d.id)[k] == q;
    assert Requirements(t, d.id)[k] == q;
  }

  /** What a solution `t` of `s` promises of the release it selects for `id`. */
  ghost predicate SoundChoice(m: Market, s: State, t: State, id: string)
    requires id in t.selected
  {
    t.selected[id] in m.releases && t.selected[id].id == id && Fits(m, t.selected[id]) &&
    Features(s, id) <= t.selected[id].features && RecordsAll(m, t, t.selected[id].dependencies)
  }

  ghost predicate Sound(m: Market, s: State, t: State)
  {
    Grows(s, t) && Complete(t) && Consistent(m, t) &&
    forall id :: id in t.selected && id !in s.selected ==> SoundChoice(m, s, t, id)
  }

  /** Soundness: a solution selects a release for every constrained id, each meeting every
      accumulated version requirement and the platform, and every followed dependency of a newly
      selected release is recorded, hence itself constrained, selected and of a matching version. */
  lemma {:induction false} SolutionIsSound(m: Market, s: State, path: seq<Release>, t: State)
    requires Solves(m, s, path, t)
    ensures Sound(m, s, t)
    decreases |path|
  {
    if path != [] {
      var next := Branch(m, s, path[0]).value;
      SolutionIsSound(m, next, path[1..], t);
      StepIsSound(m, s, path[0], next, t);
    }
  }

  lemma {:induction false} StepIsSound(m: Market, s: State, r: Release, next: State, t: State)
    requires Candidate(m, s, r.id, r) && r.id !in s.selected && Branch(m, s, r) == Some(next) && Sound(m, next, t)
    ensures Sound(m, s, t)
  {
    StepGrows(m, s, r, next);
    forall id | id in t.selected && id !in s.selected ensures SoundChoice(m, s, t, id) {
      if id == r.id {
        assert t.selected[id] == next.selected[id] == r;
        RecordsAllGrow(m, next, t, r.dependencies);
      } else {
        assert SoundChoice(m, next, t, id);
        assert Features(s, id) <= Features(next, id);
      }
    }
    GrowsTransitive(s, next, t);
  }

  lemma {:induction false} StepGrows(m: Market, s: State, r: Release, next: State)
    requires r.id !in s.selected && Branch(m, s, r) == Some(next)
    ensures Grows(s, next) && next.selected == s.selected[r.id := r] && RecordsAll(m, next, r.dependencies)
  {
    var picked := Select(s, r);
    AddAllRecords(m, picked, r.dependencies);
    AddAllKeepsSelected(m, picked, r.dependencies);
    assert Grows(s, picked);
    GrowsTransitive(s, picked, next);
  }

  lemma {:induction false} RecordsAllGrow(m: Market, s: State, t: State, ds: seq<Dependency>)
    requires RecordsAll(m, s, ds) && Grows(s, t)
    ensures RecordsAll(m, t, ds)
  {
    forall d | d in ds && Followed(d) ensures Records(m, t, d) {
      RecordsGrow(m, s, t, d);
    }
  }

  lemma {:induction false} GrowsTransitive(s: State, t: State, u: State)
    requires Grows(s, t) && Grows(t, u)
    ensures Grows(s, u)
  {
    forall id ensures Requirements(s, id) <= Requirements(u, id) && Features(s, id) <= Features(u, id) {
      assert Requirements(s, id) <= Requirements(t, id) <= Requirements(u, id);
      assert Features(s, id) <= Features(t, id) <= Features(u, id);
    }
  }

  /** What a followed dependency of a newly selected release finds in the solution. */
  lemma {:induction false} DependencyIsSelected(m: Market, s: State, t: State, id: string, d: Dependency)
    requires Sound(m, s, t) && id in t.selected && id !in s.selected
    requires d in t.selected[id].dependencies && Followed(d)
    ensures d.id in t.selected && m.semver.version(t.selected[d.id].version).Some?
    ensures m.semver.requirement(d.requirement).Some?
    ensures m.semver.matches(m.semver.requirement(d.requirement).value, m.semver.version(t.selected[d.id].version).value)
  {
    assert SoundChoice(m, s, t, id);
    assert Records(m, t, d);
    assert d.id in t.selected;
  }

  // ---- Features ----

  /** Every selected release has the features asked of it. */
  ghost predicate FeaturesMet(s: State)
  {
    forall id :: id in s.selected ==> Features(s, id) <= s.selected[id].features
  }

  /** No step of `path` asks an already selected release for a feature it lacks. */
  ghost predicate AsksNoLateFeature(m: Market, s: State, path: seq<Release>)
    decreases |path|
  {
    path == [] ||
    ((forall d :: d in path[0].dependencies && Followed(d) && d.id in Select(s, path[0]).selected ==>
        d.features <= Select(s, path[0]).selected[d.id].features) &&
     (Branch(m, s, path[0]).Some? ==> AsksNoLateFeature(m, Branch(m, s, path[0]).value, path[1..])))
  }

  lemma {:induction false} AddAllFeatures(m: Market, s: State, ds: seq<Dependency>)
    requires AddAll(m, s, ds).Some?
    ensures FeaturesMet(AddAll(m, s, ds).value) <==>
              FeaturesMet(s) &&
              forall d :: d in ds && Followed(d) && d.id in s.selected ==> d.features <= s.selected[d.id].features
  {
    if ds == [] {
    } else {
      var front, last := ds[..|ds| - 1], ds[|ds| - 1];
      AddAllFeatures(m, s, front);
      AddAllKeepsSelected(m, s, front);
      var t := AddAll(m, s, front).value;
      var u := AddDependency(m, t, last).value;
      assert ds == front + [last];
      assert FeaturesMet(u) <==>
        FeaturesMet(t) && (Followed(last) && last.id in s.selected ==> last.features <= s.selected[last.id].features) by {
        assert forall id :: id != last.id ==> Features(u, id) == Features(t, id);
      }
    }
  }

  /** The search never looks at features again once a release is selected. Its solution meets all
      requested features exactly when no step asked a release already selected for a feature that
      release lacks. */
  lemma {:induction false} FeaturesMetIffNoLateRequest(m: Market, s: State, path: seq<Release>, t: State)
    requires Solves(m, s, path, t) && FeaturesMet(s)
    ensures FeaturesMet(t) <==> AsksNoLateFeature(m, s, path)
    decreases |path|
  {
    if path != [] {
      var r := path[0];
      var picked := Select(s, r);
      var next := Branch(m, s, r).value;
      assert FeaturesMet(picked);
      AddAllFeatures(m, picked, r.dependencies);
      SolutionIsSound(m, next, path[1..], t);
      if FeaturesMet(next) {
        FeaturesMetIffNoLateRequest(m, next, path[1..], t);
      } else {
        var id :| id in next.selected && !(Features(next, id) <= next.selected[id].features);
        assert !(Features(t, id) <= t.selected[id].features);
      }
    }
  }

  /** Those of the features that some release of `id` lacks. */
  ghost function Scarce(m: Market, id: string, features: set<string>): set<string>
  {
    set f | f in features && exists r :: r in m.releases && r.id == id && f !in r.features
  }

  /** A dependency that the search may come to follow. */
  ghost predicate Occurs(m: Market, roots: seq<Dependency>, d: Dependency)
  {
    Followed(d) && (d in roots || exists r :: r in m.releases && d in r.dependencies)
  }

  /** Whoever depends on an id asks the same of it, as far as its releases differ. Roots and catalogue
      tell before the search. */
  ghost predicate AsksAgree(m: Market, roots: seq<Dependency>)
  {
    forall d, e :: Occurs(m, roots, d) && Occurs(m, roots, e) && d.id == e.id ==>
      Scarce(m, d.id, d.features) == Scarce(m, e.id, e.features)
  }

  /** Of every id the followed ones of `ds` ask what `ask` says. */
  ghost predicate AskAs(m: Market, ds: seq<Dependency>, ask: string -> set<string>)
  {
    forall d :: d in ds && Followed(d) ==> Scarce(m, d.id, d.features) == ask(d.id)
  }

  ghost predicate Asking(m: Market, s: State, ask: string -> set<string>)
  {
    (forall id :: id in s.constraints ==> Scarce(m, id, Features(s, id)) == ask(id)) &&
    (forall id :: id !in s.constraints ==> Features(s, id) == {}) &&
    (forall id :: id in s.selected ==>
       s.selected[id] in m.releases && s.selected[id].id == id && ask(id) <= s.selected[id].features)
  }

  /** Every release offers what is not scarce. */
  lemma {:induction false} ScarceDecides(m: Market, r: Release, features: set<string>)
    requires r in m.releases
    ensures features <= r.features <==> Scarce(m, r.id, features) <= r.features
  {
  }

  lemma {:induction false} AskingGoesOn(m: Market, s: State, ds: seq<Dependency>, ask: string -> set<string>)
    requires Asking(m, s, ask) && AskAs(m, ds, ask) && AddAll(m, s, ds).Some?
    ensures Asking(m, AddAll(m, s, ds).value, ask)
  {
    if ds != [] {
      var front, last := ds[..|ds| - 1], ds[|ds| - 1];
      AskingGoesOn(m, s, front, ask);
      var t, u := AddAll(m, s, front).value, AddAll(m, s, ds).value;
      if Followed(last) {
        assert Scarce(m, last.id, last.features) == ask(last.id);
        assert Scarce(m, last.id, Features(t, last.id) + last.features) ==
               Scarce(m, last.id, Features(t, last.id)) + Scarce(m, last.id, last.features);
        assert forall id :: id != last.id ==> Features(u, id) == Features(t, id);
      }
    }
  }

  /** What is asked of a selected release it has. */
  lemma {:induction false} AskedInTime(m: Market, s: State, ds: seq<Dependency>, ask: string -> set<string>)
    requires Asking(m, s, ask) && AskAs(m, ds, ask)
    ensures forall d :: d in ds && Followed(d) && d.id in s.selected ==> d.features <= s.selected[d.id].features
  {
    forall d | d in ds && Followed(d) && d.id in s.selected
      ensures d.features <= s.selected[d.id].features
    {
      ScarceDecides(m, s.selected[d.id], d.features);
    }
  }

  lemma {:induction false} AskingIsNeverLate(m: Market, s: State, path: seq<Release>, t: State, ask: string -> set<string>)
    requires Solves(m, s, path, t) && Asking(m, s, ask)
    requires forall r :: r in m.releases ==> AskAs(m, r.dependencies, ask)
    ensures AsksNoLateFeature(m, s, path)
    decreases |path|
  {
    if path != [] {
      var r := path[0];
      var picked := Select(s, r);
      assert AskAs(m, r.dependencies, ask);
      ScarceDecides(m, r, Features(s, r.id));
      assert Asking(m, picked, ask);
      AskedInTime(m, picked, r.dependencies, ask);
      AskingGoesOn(m, picked, r.dependencies, ask);
      AskingIsNeverLate(m, Branch(m, s, r).value, path[1..], t, ask);
    }
  }

  /** What every dependency on `id` asks of it where they agree. */
  ghost function AskOf(m: Market, roots: seq<Dependency>, id: string): set<string>
  {
    if exists d :: Occurs(m, roots, d) && d.id == id then
      var d :| Occurs(m, roots, d) && d.id == id;
      Scarce(m, id, d.features)
    else {}
  }

  /** When all who depend on an id ask the same of it, every solution of the roots meets all features
      asked of its releases, early or late. */
  lemma {:induction false} AgreedFeaturesAreMet(m: Market, roots: seq<Dependency>, path: seq<Release>, t: State)
    requires AsksAgree(m, roots) && AddAll(m, EMPTY, roots).Some?
    requires Solves(m, AddAll(m, EMPTY, roots).value, path, t)
    ensures FeaturesMet(t)
  {
    var s := AddAll(m, EMPTY, roots).value;
    var ask := (id: string) => AskOf(m, roots, id);
    forall d | Occurs(m, roots, d) ensures Scarce(m, d.id, d.features) == ask(d.id) {
      var e :| Occurs(m, roots, e) && e.id == d.id && ask(d.id) == Scarce(m, d.id, e.features);
    }
    assert AskAs(m, roots, ask);
    forall r | r in m.releases ensures AskAs(m, r.dependencies, ask) {
      assert forall d :: d in r.dependencies && Followed(d) ==> Occurs(m, roots, d);
    }
    AskingGoesOn(m, EMPTY, roots, ask);
    AskingIsNeverLate(m, s, path, t, ask);
    AddAllKeepsSelected(m, EMPTY, roots);
    FeaturesMetIffNoLateRequest(m, s, path, t);
  }

  const LOW := "1.0.0"
  const HIGH := "2.0.0"

  /** What Semantic Versioning 2.0.0 has to say of the example: both are versions by section 2, in this order
      by section 11, and a requirement of "*" is met by either. */
  ghost predicate ReadsLowAndHigh(sv: Semver)
  {
    sv.version(LOW).Some? && sv.version(HIGH).Some? && sv.requirement("*").Some? &&
    sv.matches(sv.requirement("*").value, sv.version(LOW).value) &&
    sv.matches(sv.requirement("*").value, sv.version(HIGH).value) &&
    !sv.atMost(sv.version(HIGH).value, sv.version(LOW).value)
  }

  const NEEDS_B: Dependency := Dependency("b", "*", false, {})
  const NEEDS_C: Dependency := Dependency("c", "*", false, {})
  const NEEDS_BX: Dependency := Dependency("b", "*", false, {"x"})
  const B1: Release := Release("b", LOW, [], {"x"}, {})
  const B2: Release := Release("b", HIGH, [], {}, {})
  const C1: Release := Release("c", LOW, [NEEDS_BX], {}, {})

  /** After the roots "b" and "c", after choosing B2, and after choosing C1. */
  ghost function Asked(q: Requirement): State { State(map[], map["b" := [q], "c" := [q]], map["b" := {}, "c" := {}]) }

  ghost function AfterB(q: Requirement): State { Select(Asked(q), B2) }

  ghost function AfterC(q: Requirement): State
  {
    State(map["b" := B2, "c" := C1], map["b" := [q, q], "c" := [q]], map["b" := {"x"}, "c" := {}])
  }

  lemma {:induction false} AddAllOne(m: Market, s: State, d: Dependency)
    ensures AddAll(m, s, [d]) == AddDependency(m, s, d)
  {
    assert [d][..0] == [];
    assert AddAll(m, s, []) == Some(s);
  }

  ghost predicate Example(m: Market, q: Requirement)
  {
    m.releases == [B1, B2, C1] && ReadsLowAndHigh(m.semver) && m.semver.requirement("*") == Some(q)
  }

  lemma {:induction false} ExampleSteps(m: Market, q: Requirement)
    requires Example(m, q)
    ensures AddAll(m, EMPTY, [NEEDS_B, NEEDS_C]) == Some(Asked(q))
    ensures Branch(m, Asked(q), B2) == Some(AfterB(q)) && Branch(m, AfterB(q), C1) == Some(AfterC(q))
  {
    var roots := [NEEDS_B, NEEDS_C];
    assert roots[..1] == [NEEDS_B];
    AddAllOne(m, EMPTY, NEEDS_B);
    AddAllOne(m, Select(AfterB(q), C1), NEEDS_BX);
    var none: seq<Requirement>, noFeature: set<string> := [], {};
    assert none + [q] == [q] && [q] + [q] == [q, q] && noFeature + {"x"} == {"x"} && noFeature + noFeature == noFeature;
    assert AddDependency(m, EMPTY, NEEDS_B) == Some(State(map[], map["b" := [q]], map["b" := {}]));
    assert AddAll(m, EMPTY, roots) == AddDependency(m, State(map[], map["b" := [q]], map["b" := {}]), NEEDS_C);
    var u := AddDependency(m, Select(AfterB(q), C1), NEEDS_BX).value;
    assert u.selected == AfterC(q).selected && u.constraints == AfterC(q).constraints;
    assert u.requested["b"] == {"x"} && u.requested == AfterC(q).requested;
  }

  /** Both open ids asked for the same, so the releases that can be chosen are plain. */
  lemma {:induction false} ExampleCandidates(m: Market, q: Requirement)
    requires Example(m, q)
    ensures IsNext(Asked(q), "b") && Candidate(m, Asked(q), "b", B2)
    ensures forall r :: Candidate(m, Asked(q), "b", r) ==> r == B1 || r == B2
    ensures IsNext(AfterB(q), "c") && Candidate(m, AfterB(q), "c", C1)
    ensures forall r :: Candidate(m, AfterB(q), "c", r) ==> r == C1
  {
    assert Asked(q).constraints.Keys - Asked(q).selected.Keys == {"b", "c"};
    assert AfterB(q).constraints.Keys - AfterB(q).selected.Keys == {"c"};
    assert "b"[0] < "c"[0];
  }

  /** Nothing is open after the last choice, so every solution ends there. */
  lemma {:induction false} ExampleEnds(m: Market, q: Requirement)
    requires Example(m, q)
    ensures Solves(m, AfterC(q), [], AfterC(q)) && !FeaturesMet(AfterC(q))
    ensures forall path, t :: Solves(m, AfterC(q), path, t) ==> t == AfterC(q)
  {
    var u := AfterC(q);
    assert "x" in Features(u, "b") && "b" in u.selected;
    assert u.constraints.Keys - u.selected.Keys == {};
    assert Consistent(m, u);
  }

  lemma {:induction false} ExampleMiddle(m: Market, q: Requirement)
    requires Example(m, q)
    ensures Solvable(m, AfterB(q))
    ensures forall path, t :: Solves(m, AfterB(q), path, t) ==> t == AfterC(q)
  {
    ExampleSteps(m, q);
    ExampleCandidates(m, q);
    ExampleEnds(m, q);
    var s, u := AfterB(q), AfterC(q);
    assert [C1][1..] == [];
    assert Consistent(m, s) && Solves(m, s, [C1], u);
    forall path, t | Solves(m, s, path, t) ensures t == u {
      NextIsUnique(m, s, "c", path, t);
      assert Solves(m, u, path[1..], t);
    }
  }

  /** A feature asked for late is missed: with the roots "b" and "c", where only "c" asks "b" for a
      feature that the older release of "b" has, every solution the search can answer lacks the
      feature, although selecting the older release would settle everything. */
  lemma {:induction false} LateFeatureIsMissed(m: Market, q: Requirement)
    requires Example(m, q)
    ensures AddAll(m, EMPTY, [NEEDS_B, NEEDS_C]) == Some(Asked(q))
    ensures Settles(m, Asked(q), map["b" := B1, "c" := C1])
    ensures forall path, t :: Solves(m, Asked(q), path, t) && Highest(m, Asked(q), path) ==> !FeaturesMet(t)
  {
    ExampleSteps(m, q);
    ExampleCandidates(m, q);
    ExampleMiddle(m, q);
    ExampleEnds(m, q);
    ExampleSettled(m, q);
    forall path, t | Solves(m, Asked(q), path, t) && Highest(m, Asked(q), path) ensures !FeaturesMet(t) {
      ExampleAnswer(m, q, path, t);
    }
  }

  lemma {:induction false} ExampleAnswer(m: Market, q: Requirement, path: seq<Release>, t: State)
    requires Example(m, q) && Solves(m, Asked(q), path, t) && Highest(m, Asked(q), path)
    ensures t == AfterC(q) && !FeaturesMet(t)
  {
    ExampleSteps(m, q);
    ExampleCandidates(m, q);
    ExampleMiddle(m, q);
    ExampleEnds(m, q);
    assert Viable(m, Asked(q), B2);
    NextIsUnique(m, Asked(q), "b", path, t);
    assert path[0] == B2;
    assert Solves(m, AfterB(q), path[1..], t);
  }

  lemma {:induction false} ExampleSettled(m: Market, q: Requirement)
    requires Example(m, q)
    ensures Settles(m, Asked(q), map["b" := B1, "c" := C1])
  {
    var a := map["b" := B1, "c" := C1];
    assert Met(m, a, NEEDS_BX);
    assert Candidate(m, Asked(q), "b", B1) && Candidate(m, Asked(q), "c", C1);
  }

  // ---- Cycles ----

  /** `a` depends on `b`, both selected; whether the dependency is optional does not matter here. */
  ghost predicate Edge(sel: map<string, Release>, a: string, b: string)
  {
    a in sel && b in sel && exists d :: d in sel[a].dependencies && d.id == b
  }

  ghost predicate IsPath(sel: map<string, Release>, p: seq<string>)
  {
    forall k :: 0 <= k < |p| - 1 ==> Edge(sel, p[k], p[k + 1])
  }

  ghost predicate IsCycle(sel: map<string, Release>, p: seq<string>)
  {
    |p| > 1 && p[0] == p[|p| - 1] && IsPath(sel, p)
  }

  ghost predicate Acyclic(sel: map<string, Release>) { forall p :: !IsCycle(sel, p) }

  /** Every dependency of a listed id is listed before it. */
  ghost predicate DependenciesFirst(sel: map<string, Release>, order: seq<string>)
  {
    forall k, b :: 0 <= k < |order| && Edge(sel, order[k], b) ==> b in order[..k]
  }

  lemma {:induction false} TailIsPath(sel: map<string, Release>, p: seq<string>)
    requires IsPath(sel, p) && |p| > 0
    ensures IsPath(sel, p[1..])
  {
    forall k | 0 <= k < |p[1..]| - 1 ensures Edge(sel, p[1..][k], p[1..][k + 1]) {
      assert Edge(sel, p[k + 1], p[k + 1 + 1]);
    }
  }

  lemma {:induction false} PathGoesBack(sel: map<string, Release>, order: seq<string>, p: seq<string>, k: nat)
    requires DependenciesFirst(sel, order) && IsPath(sel, p) && |p| > 1 && k < |order| && order[k] == p[0]
    ensures p[|p| - 1] in order[..k]
    decreases |p|
  {
    assert Edge(sel, p[0], p[1]);
    var j :| 0 <= j < k && order[j] == p[1];
    if |p| > 2 {
      TailIsPath(sel, p);
      PathGoesBack(sel, order, p[1..], j);
    }
  }

  lemma {:induction false} NoCycleAt(sel: map<string, Release>, order: seq<string>, p: seq<string>, k: nat)
    requires DependenciesFirst(sel, order) && |p| > 1 && k < |order| && order[k] == p[0]
    ensures !IsCycle(sel, p)
    decreases k
  {
    if IsCycle(sel, p) {
      PathGoesBack(sel, order, p, k);
      var j :| 0 <= j < k && order[j] == p[0];
      NoCycleAt(sel, order, p, j);
    }
  }

  /** A list of all selected ids, dependencies first, rules out cycles. */
  lemma {:induction false} OrderedIsAcyclic(sel: map<string, Release>, order: seq<string>)
    requires DependenciesFirst(sel, order) && forall id :: id in sel ==> id in order
    ensures Acyclic(sel)
  {
    forall p ensures !IsCycle(sel, p) {
      if IsCycle(sel, p) {
        assert Edge(sel, p[0], p[1]);
        var k :| 0 <= k < |order| && order[k] == p[0];
        NoCycleAt(sel, order, p, k);
      }
    }
  }

  /** The depth-first search between two visits: the ids being visited form a path, and those
      visited are listed in `order`, dependencies first. */
  ghost predicate Searching(sel: map<string, Release>, visiting: set<string>, visited: set<string>,
                            stack: seq<string>, order: seq<string>)
  {
    (forall x :: x in visiting <==> x in stack) && (forall x :: x in visited <==> x in order) &&
    visiting <= sel.Keys && visiting !! visited && IsPath(sel, stack) && DependenciesFirst(sel, order)
  }

  /** `id` closes the path being visited. */
  lemma {:induction false} ClosesCycle(sel: map<string, Release>, stack: seq<string>,
                                       id: string) returns (p: seq<string>)
    requires IsPath(sel, stack) && id in stack && Edge(sel, stack[|stack| - 1], id)
    ensures IsCycle(sel, p) && p[0] == id
  {
    var k :| 0 <= k < |stack| && stack[k] == id;
    p := stack[k..] + [id];
    forall i | 0 <= i < |p| - 1 ensures Edge(sel, p[i], p[i + 1]) {
      assert p[i] == stack[k + i];
      assert i + 1 < |p| - 1 ==> p[i + 1] == stack[k + i + 1];
    }
  }

  /** Visit `id` and all it depends on; `visiting` and `visited` are handed on as they are left. */
  method Visit(sel: map<string, Release>, id: string, visiting0: set<string>, visited0: set<string>,
               ghost stack: seq<string>, ghost order0: seq<string>)
    returns (cycle: Option<string>, visiting: set<string>, visited: set<string>, ghost order: seq<string>)
    requires id in sel && Searching(sel, visiting0, visited0, stack, order0)
    requires stack != [] ==> Edge(sel, stack[|stack| - 1], id)
    ensures cycle.None? ==> visiting == visiting0 && Searching(sel, visiting, visited, stack, order)
    ensures cycle.None? ==> visited0 <= visited && id in visited
    ensures cycle.Some? ==> exists p :: IsCycle(sel, p) && p[0] == cycle.value
    decreases sel.Keys - visiting0
  {
    visiting, visited, order := visiting0, visited0, order0;
    if id in visited {
      return None, visiting, visited, order;
    }
    if id in visiting {
      ghost var p := ClosesCycle(sel, stack, id);
      return Some(id), visiting, visited, order;
    }
    visiting := visiting + {id};
    ghost var path := stack + [id];
    PathGrows(sel, stack, id);
    for k := 0 to |sel[id].dependencies|
      invariant visiting == visiting0 + {id} && visited0 <= visited
      invariant Searching(sel, visiting, visited, path, order)
      invariant forall j :: 0 <= j < k && sel[id].dependencies[j].id in sel ==> sel[id].dependencies[j].id in visited
    {
      var next := sel[id].dependencies[k].id;
      if next in sel {
        assert sel[id].dependencies[k] in sel[id].dependencies;
        assert id in sel.Keys - visiting0;
        cycle, visiting, visited, order := Visit(sel, next, visiting, visited, path, order);
        if cycle.Some? {
          return;
        }
      }
    }
    Visited(sel, id, visiting0, visited, stack, order);
    visiting := visiting - {id};
    visited := visited + {id};
    order := order + [id];
    assert visiting == visiting0;
    cycle := None;
  }

  lemma {:induction false} PathGrows(sel: map<string, Release>, stack: seq<string>, id: string)
    requires IsPath(sel, stack) && (stack != [] ==> Edge(sel, stack[|stack| - 1], id))
    ensures IsPath(sel, stack + [id])
  {
  }

  lemma {:induction false} Visited(sel: map<string, Release>, id: string, visiting: set<string>, visited: set<string>,
                                   stack: seq<string>, order: seq<string>)
    requires id in sel && id !in visiting && Searching(sel, visiting + {id}, visited, stack + [id], order)
    requires forall x :: x in visiting <==> x in stack
    requires forall d :: d in sel[id].dependencies && d.id in sel ==> d.id in visited
    ensures Searching(sel, visiting, visited + {id}, stack, order + [id])
  {
    var longer := order + [id];
    forall k, b | 0 <= k < |longer| && Edge(sel, longer[k], b) ensures b in longer[..k] {
      if k < |order| {
        assert longer[..k] == order[..k];
      } else {
        assert longer[..k] == order;
      }
    }
    forall k | 0 <= k < |stack| - 1 ensures Edge(sel, stack[k], stack[k + 1]) {
      assert (stack + [id])[k] == stack[k] && (stack + [id])[k + 1] == stack[k + 1];
    }
  }

  /** A selection is refused exactly when its dependency graph has a cycle, naming an id on one. */
  method RejectCycles(sel: map<string, Release>) returns (cycle: Option<string>)
    ensures cycle.None? <==> Acyclic(sel)
    ensures cycle.Some? ==> exists p :: IsCycle(sel, p) && p[0] == cycle.value
  {
    var ids := Sorted(sel.Keys);
    var visiting, visited: set<string> := {}, {};
    ghost var order: seq<string> := [];
    for k := 0 to |ids|
      invariant visiting == {} && Searching(sel, visiting, visited, [], order)
      invariant forall j :: 0 <= j < k ==> ids[j] in visited
    {
      assert ids[k] in sel.Keys;
      cycle, visiting, visited, order := Visit(sel, ids[k], visiting, visited, [], order);
      if cycle.Some? {
        return;
      }
    }
    OrderedIsAcyclic(sel, order);
    return None;
  }

  // ---- Resolution ----

  ghost predicate ListedBy(sel: map<string, Release>, list: seq<Release>, ids: seq<string>)
  {
    Increasing(ids) && (forall x :: x in ids <==> x in sel) && |list| == |ids| &&
    forall k :: 0 <= k < |ids| ==> ids[k] in sel && list[k] == sel[ids[k]]
  }

  /** `list` holds the selected releases in the order of their ids. */
  ghost predicate Listed(sel: map<string, Release>, list: seq<Release>) { exists ids :: ListedBy(sel, list, ids) }

  method InIdOrder(sel: map<string, Release>) returns (list: seq<Release>)
    ensures Listed(sel, list)
  {
    var ids := Sorted(sel.Keys);
    list := [];
    for k := 0 to |ids|
      invariant |list| == k && forall j :: 0 <= j < k ==> ids[j] in sel && list[j] == sel[ids[j]]
    {
      assert ids[k] in ids;
      list := list + [sel[ids[k]]];
    }
    assert ListedBy(sel, list, ids);
  }

  /** `a` meets every demand: of the roots, and of the releases it assigns. */
  ghost predicate SettlesRoots(m: Market, roots: seq<Dependency>, a: map<string, Release>)
  {
    Settles(m, EMPTY, a) && forall d :: d in roots && Followed(d) ==> Met(m, a, d)
  }

  ghost predicate AllParse(m: Market) { forall r :: r in m.releases ==> m.semver.version(r.version).Some? }

  // ---- A resolution in the fields of roots, releases and catalogue ----

  /** A release of the catalogue for every platform or for the market's. */
  ghost predicate Offered(m: Market, r: Release)
  {
    r in m.releases && (r.platforms != {} ==> m.platform in r.platforms)
  }

  /** A dependency counts unless it is optional and asks for nothing. */
  predicate Counts(d: Dependency) { d.optional ==> exists f | f in d.features :: true }

  /** Some listed release is of the id and a version the requirement matches. */
  ghost predicate MetIn(m: Market, list: seq<Release>, d: Dependency)
  {
    exists r :: r in list && r.id == d.id &&
      m.semver.requirement(d.requirement).Some? && m.semver.version(r.version).Some? &&
      m.semver.matches(m.semver.requirement(d.requirement).value, m.semver.version(r.version).value)
  }

  /** A root or a listed release asks for the id. */
  ghost predicate AskedIn(roots: seq<Dependency>, list: seq<Release>, id: string)
  {
    (exists d :: d in roots && Counts(d) && d.id == id) ||
    exists r, d :: r in list && d in r.dependencies && Counts(d) && d.id == id
  }

  /** What is listed: offered releases, one for an id, all asked for, that meet all that counts. */
  ghost predicate Resolved(m: Market, roots: seq<Dependency>, list: seq<Release>)
  {
    (forall r :: r in list ==> Offered(m, r) && AskedIn(roots, list, r.id)) &&
    (forall j, k :: 0 <= j < k < |list| ==> Less(list[j].id, list[k].id)) &&
    (forall d :: d in roots && Counts(d) ==> MetIn(m, list, d)) &&
    (forall r, d :: r in list && d in r.dependencies && Counts(d) ==> MetIn(m, list, d))
  }

  /** An assignment of offered releases that meets all that counts, features too. */
  ghost predicate Assigns(m: Market, roots: seq<Dependency>, a: map<string, Release>)
  {
    (forall id :: id in a ==> Offered(m, a[id]) && a[id].id == id && m.semver.version(a[id].version).Some?) &&
    (forall d :: d in roots && Counts(d) ==> MetBy(m, a, d)) &&
    (forall id, d :: id in a && d in a[id].dependencies && Counts(d) ==> MetBy(m, a, d))
  }

  ghost predicate MetBy(m: Market, a: map<string, Release>, d: Dependency)
  {
    d.id in a && m.semver.requirement(d.requirement).Some? && m.semver.version(a[d.id].version).Some? &&
    m.semver.matches(m.semver.requirement(d.requirement).value, m.semver.version(a[d.id].version).value) &&
    forall f :: f in d.features ==> f in a[d.id].features
  }

  lemma {:induction false} CountsIsFollowed(d: Dependency)
    ensures Counts(d) <==> Followed(d)
  {
    if d.features != {} {
      var f :| f in d.features;
    }
  }

  lemma {:induction false} AssignsSettles(m: Market, roots: seq<Dependency>, a: map<string, Release>)
    requires Assigns(m, roots, a)
    ensures SettlesRoots(m, roots, a)
  {
    forall d | Followed(d) ensures Counts(d) {
      CountsIsFollowed(d);
    }
    forall d | MetBy(m, a, d) ensures Met(m, a, d) {
      assert d.features <= a[d.id].features;
    }
    forall id | id in a ensures Candidate(m, EMPTY, id, a[id]) && DependenciesMet(m, a, a[id]) {
      assert Offered(m, a[id]);
    }
  }

  /** What is selected is constrained, and what is constrained was asked for by a root or by a selected
      release. */
  ghost predicate AskedBy(roots: seq<Dependency>, s: State)
  {
    s.selected.Keys <= s.constraints.Keys &&
    forall id :: id in s.constraints ==>
      (exists d :: d in roots && Followed(d) && d.id == id) || AskedWithin(s, id)
  }

  ghost predicate AskedWithin(s: State, id: string)
  {
    exists x, d :: x in s.selected && d in s.selected[x].dependencies && Followed(d) && d.id == id
  }

  lemma {:induction false} AskedGoesOn(m: Market, roots: seq<Dependency>, s: State, r: Release, next: State)
    requires AskedBy(roots, s) && r.id !in s.selected && r.id in s.constraints && Branch(m, s, r) == Some(next)
    ensures AskedBy(roots, next)
  {
    AddAllIsRecorded(m, Select(s, r), r.dependencies);
    forall id | id in next.constraints
      ensures (exists d :: d in roots && Followed(d) && d.id == id) || AskedWithin(next, id)
    {
      if Asks(r.dependencies, id) {
        var d :| d in r.dependencies && Followed(d) && d.id == id;
        assert r.id in next.selected && next.selected[r.id] == r;
      } else {
        assert id in s.constraints;
        if AskedWithin(s, id) {
          var x, d :| x in s.selected && d in s.selected[x].dependencies && Followed(d) && d.id == id;
          assert x in next.selected && next.selected[x] == s.selected[x];
        }
      }
    }
  }

  lemma {:induction false} SolutionIsAsked(m: Market, roots: seq<Dependency>, s: State, path: seq<Release>, t: State)
    requires Solves(m, s, path, t) && AskedBy(roots, s)
    ensures AskedBy(roots, t)
    decreases |path|
  {
    if path != [] {
      AskedGoesOn(m, roots, s, path[0], Branch(m, s, path[0]).value);
      SolutionIsAsked(m, roots, Branch(m, s, path[0]).value, path[1..], t);
    }
  }

  lemma {:induction false} RecordedIsMet(m: Market, t: State, d: Dependency, list: seq<Release>)
    requires Complete(t) && Consistent(m, t) && Records(m, t, d) && Listed(t.selected, list)
    requires forall id :: id in t.selected ==> t.selected[id].id == id
    ensures MetIn(m, list, d)
  {
    assert d.id in t.selected;
    AllListedIn(t.selected, list, d.id);
  }

  lemma {:induction false} AllListedIn(sel: map<string, Release>, list: seq<Release>, id: string)
    requires Listed(sel, list) && id in sel
    ensures sel[id] in list
  {
    var ids :| ListedBy(sel, list, ids);
    var k :| 0 <= k < |ids| && ids[k] == id;
    assert list[k] == sel[id];
  }

  lemma {:induction false} OnlyListed(sel: map<string, Release>, list: seq<Release>)
    requires Listed(sel, list) && forall id :: id in sel ==> sel[id].id == id
    ensures forall r :: r in list ==> r.id in sel && sel[r.id] == r
    ensures forall j, k :: 0 <= j < k < |list| ==> Less(list[j].id, list[k].id)
  {
    var ids :| ListedBy(sel, list, ids);
    assert forall k :: 0 <= k < |list| ==> list[k].id == ids[k];
  }

  lemma {:induction false} RootsAreRecorded(m: Market, roots: seq<Dependency>, path: seq<Release>, t: State)
    requires AddAll(m, EMPTY, roots).Some? && Solves(m, AddAll(m, EMPTY, roots).value, path, t)
    ensures RecordsAll(m, t, roots) && AskedBy(roots, t) && Sound(m, AddAll(m, EMPTY, roots).value, t)
    ensures AddAll(m, EMPTY, roots).value.selected == map[]
  {
    var s := AddAll(m, EMPTY, roots).value;
    SolutionIsSound(m, s, path, t);
    AddAllRecords(m, EMPTY, roots);
    AddAllKeepsSelected(m, EMPTY, roots);
    RecordsAllGrow(m, s, t, roots);
    AddAllIsRecorded(m, EMPTY, roots);
    SolutionIsAsked(m, roots, s, path, t);
  }

  lemma {:induction false} ListedIsAsked(roots: seq<Dependency>, t: State, list: seq<Release>, id: string)
    requires AskedBy(roots, t) && Listed(t.selected, list) && id in t.selected
    requires forall x :: x in t.selected ==> t.selected[x].id == x
    ensures AskedIn(roots, list, id)
  {
    assert id in t.constraints;
    if d :| d in roots && Followed(d) && d.id == id {
      CountsIsFollowed(d);
    } else {
      assert AskedWithin(t, id);
      var x, d :| x in t.selected && d in t.selected[x].dependencies && Followed(d) && d.id == id;
      CountsIsFollowed(d);
      AllListedIn(t.selected, list, x);
    }
  }

  /** A solution of the roots, told in their fields and those of the catalogue. */
  lemma {:induction false} SolutionIsResolved(m: Market, roots: seq<Dependency>, path: seq<Release>, t: State,
                                              list: seq<Release>)
    requires AddAll(m, EMPTY, roots).Some? && Solves(m, AddAll(m, EMPTY, roots).value, path, t) && Listed(t.selected, list)
    ensures Resolved(m, roots, list)
  {
    RootsAreRecorded(m, roots, path, t);
    forall id | id in t.selected
      ensures SoundChoice(m, AddAll(m, EMPTY, roots).value, t, id) && t.selected[id].id == id && Offered(m, t.selected[id])
    {
    }
    OnlyListed(t.selected, list);
    forall d | d in roots && Counts(d) ensures MetIn(m, list, d) {
      CountsIsFollowed(d);
      RecordedIsMet(m, t, d, list);
    }
    forall r, d | r in list && d in r.dependencies && Counts(d) ensures MetIn(m, list, d) {
      CountsIsFollowed(d);
      assert SoundChoice(m, AddAll(m, EMPTY, roots).value, t, r.id);
      RecordedIsMet(m, t, d, list);
    }
    forall r | r in list ensures Offered(m, r) && AskedIn(roots, list, r.id) {
      ListedIsAsked(roots, t, list, r.id);
    }
  }

  /** A solution of the roots, reached by the highest choices that leave the rest solvable. */
  ghost predicate FirstSolution(m: Market, roots: seq<Dependency>, path: seq<Release>, t: State)
  {
    AddAll(m, EMPTY, roots).Some? &&
    Solves(m, AddAll(m, EMPTY, roots).value, path, t) && Highest(m, AddAll(m, EMPTY, roots).value, path)
  }

  /** An assignment that meets all demands keeps the roots and the search from failing. */
  lemma {:induction false} SettledRootsAreSolvable(m: Market, roots: seq<Dependency>, a: map<string, Release>)
    requires AllParse(m) && SettlesRoots(m, roots, a)
    ensures AddAll(m, EMPTY, roots).Some? && Solvable(m, AddAll(m, EMPTY, roots).value)
  {
    SettlesAll(m, EMPTY, a, roots);
    SettledIsSolvable(m, AddAll(m, EMPTY, roots).value, a);
  }

  /** A resolution answers the releases of an acyclic first solution in the order of their ids. An error
      says which stage refused: a root that does not parse, no solution at all, or a first solution
      with a cycle, for which no other solution is looked for. So where some assignment meets all
      demands, the one possible error is a cycle. */
  method Resolve(m: Market, roots: seq<Dependency>) returns (r: Result<seq<Release>>)
    requires m.semver.Ordered()
    ensures r == Err(BadRoot) <==> AddAll(m, EMPTY, roots).None?
    ensures r.Ok? ==> exists path, t ::
              FirstSolution(m, roots, path, t) && Acyclic(t.selected) && Listed(t.selected, r.value) &&
              (AsksAgree(m, roots) ==> FeaturesMet(t))
    ensures r.Err? && r.failure.Cycle? ==> exists path, t, p ::
              FirstSolution(m, roots, path, t) && IsCycle(t.selected, p) && p[0] == r.failure.id
    ensures AddAll(m, EMPTY, roots).Some? && r.Err? && !r.failure.Cycle? ==>
              !Solvable(m, AddAll(m, EMPTY, roots).value)
    ensures AllParse(m) && (exists a :: SettlesRoots(m, roots, a)) ==> r.Ok? || r.failure.Cycle?
    ensures r.Ok? ==> Resolved(m, roots, r.value)
    ensures AllParse(m) && (exists a :: Assigns(m, roots, a)) ==> r.Ok? || r.failure.Cycle?
  {
    forall a | AllParse(m) && SettlesRoots(m, roots, a)
      ensures AddAll(m, EMPTY, roots).Some? && Solvable(m, AddAll(m, EMPTY, roots).value)
    {
      SettledRootsAreSolvable(m, roots, a);
    }
    forall a | Assigns(m, roots, a) ensures SettlesRoots(m, roots, a) {
      AssignsSettles(m, roots, a);
    }
    var start := AddAllDependencies(m, EMPTY, roots);
    if start.None? {
      return Err(BadRoot);
    }
    var solved, path := Solve(m, start.value);
    if solved.Err? {
      return Err(solved.failure);
    }
    assert FirstSolution(m, roots, path, solved.value);
    var cycle := RejectCycles(solved.value.selected);
    if cycle.Some? {
      return Err(Cycle(cycle.value));
    }
    var list := InIdOrder(solved.value.selected);
    SolutionIsResolved(m, roots, path, solved.value, list);
    if AsksAgree(m, roots) { AgreedFeaturesAreMet(m, roots, path, solved.value); }
    return Ok(list);
  }
}
