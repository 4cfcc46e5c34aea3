/**
 Physical disjointness of the fleet directories (scripts/verify_fleet_parity.py,
 `_physically_contains` and `validate_physical_roots`). A resolved path is its sequence of names.
 */
module FleetRoots {
  import opened Outcomes

  type Path = seq<string>
  type Identity = (int, int)

  /** What is found at a configured root. */
  datatype Found = Found(absolute: bool, directory: bool, physical: Option<Path>)

  datatype ParityError =
    | NoRepository | NotAbsolute | Unavailable | NotADirectory | InsideRepository | NotDistinct | Overlapping

  function Parent(p: Path): (r: Path) {
    if p == [] then [] else p[..|p| - 1]
  }

  /** Every directory that has an identity has a parent that has one. */
  ghost predicate Rooted(identity: Path -> Option<Identity>) {
    forall p :: identity(p).Some? ==> identity(Parent(p)).Some?
  }

  /** A stable tree without repeated identities: one physical directory is at one path. */
  ghost predicate Stable(identity: Path -> Option<Identity>) {
    Rooted(identity) && forall p, q :: identity(p).Some? && identity(p) == identity(q) ==> p == q
  }

  /** The container is, physically, the member or one of the directories above it. */
  ghost predicate Above(identity: Path -> Option<Identity>, container: Path, member: Path) {
    exists k :: 0 <= k <= |member| && identity(member[..k]) == identity(container)
  }

  /** Walks from the member up to the root of the file system, which ends, and decides containment. */
  method PhysicallyContains(identity: Path -> Option<Identity>, container: Path, member: Path)
    returns (r: Result<bool, ParityError>)
    requires Rooted(identity)
    ensures identity(container).None? || identity(member).None? ==> r == Err(Unavailable)
    ensures identity(container).Some? && identity(member).Some? ==> r == Ok(Above(identity, container, member))
  {
    var target := identity(container);
    if target.None? { return Err(Unavailable); }
    var current := member;
    while true
      invariant current <= member
      invariant forall k :: |current| < k <= |member| ==> identity(member[..k]) != target
      invariant identity(member).Some? ==> identity(current).Some?
      invariant identity(member).None? ==> current == member
      decreases |current|
    {
      assert current == member[..|current|];
      var found := identity(current);
      if found.None? { return Err(Unavailable); }
      if found == target { return Ok(true); }
      var parent := Parent(current);
      if parent == current { return Ok(false); }
      current := parent;
    }
  }

  /** On a stable tree that is containment of paths. */
  lemma AboveIsPrefix(identity: Path -> Option<Identity>, container: Path, member: Path)
    requires Stable(identity) && identity(container).Some?
    ensures Above(identity, container, member) <==> container <= member
  {
    if container <= member {
      assert member[..|container|] == container;
    }
  }

  ghost predicate Apart(a: Path, b: Path) { !(a <= b) && !(b <= a) }

  /** One root on its own: there, a plain directory, and not in or around the repository. */
  ghost predicate RootOk(identity: Path -> Option<Identity>, repository: Path, root: Found) {
    root.absolute && root.directory && root.physical.Some? && identity(root.physical.value).Some? &&
    Apart(repository, root.physical.value)
  }

  ghost predicate AllApart(paths: seq<Path>) {
    forall i, j :: 0 <= i < j < |paths| ==> Apart(paths[i], paths[j])
  }

  ghost predicate PhysicalPaths(roots: seq<Found>, paths: seq<Path>) {
    |paths| == |roots| && forall i :: 0 <= i < |paths| ==> roots[i].physical == Some(paths[i])
  }

  /** Both directions of the containment test. */
  method Overlaps(identity: Path -> Option<Identity>, a: Path, b: Path) returns (r: bool)
    requires Stable(identity) && identity(a).Some? && identity(b).Some?
    ensures r <==> !Apart(a, b)
  {
    AboveIsPrefix(identity, a, b);
    AboveIsPrefix(identity, b, a);
    var forward := PhysicallyContains(identity, a, b);
    if forward.value { return true; }
    var backward := PhysicallyContains(identity, b, a);
    return backward.value;
  }

  method CheckPairs(identity: Path -> Option<Identity>, paths: seq<Path>) returns (ok: bool)
    requires Stable(identity) && forall i :: 0 <= i < |paths| ==> identity(paths[i]).Some?
    ensures ok <==> AllApart(paths)
  {
    for i := 0 to |paths|
      invariant forall j, k :: 0 <= j < i && j < k < |paths| ==> Apart(paths[j], paths[k])
    {
      for k := i + 1 to |paths|
        invariant forall m :: i < m < k ==> Apart(paths[i], paths[m])
      {
        var overlap := Overlaps(identity, paths[i], paths[k]);
        if overlap { return false; }
      }
    }
    return true;
  }

  /** Accepts exactly when every root is all right and no two roots contain one another. */
  method ValidatePhysicalRoots(identity: Path -> Option<Identity>, repository: Option<Path>, roots: seq<Found>)
    returns (r: Result<seq<Path>, ParityError>)
    requires Stable(identity) && (repository.Some? ==> identity(repository.value).Some?)
    ensures r.Ok? <==>
              (repository.Some? && (forall i :: 0 <= i < |roots| ==> RootOk(identity, repository.value, roots[i])) &&
               forall paths :: PhysicalPaths(roots, paths) ==> AllApart(paths))
    ensures r.Ok? ==> PhysicalPaths(roots, r.value)
  {
    if repository.None? { return Err(NoRepository); }
    var resolved: seq<Path> := [];
    var identities: set<Identity> := {};
    for i := 0 to |roots|
      invariant |resolved| == i
      invariant forall j :: 0 <= j < i ==>
                  roots[j].physical == Some(resolved[j]) && RootOk(identity, repository.value, roots[j])
      invariant forall id :: id in identities ==> exists j :: 0 <= j < i && identity(resolved[j]) == Some(id)
    {
      if !roots[i].absolute { return Err(NotAbsolute); }
      if roots[i].physical.None? { return Err(Unavailable); }
      var physical := roots[i].physical.value;
      var id := identity(physical);
      if id.None? { return Err(Unavailable); }
      if !roots[i].directory { return Err(NotADirectory); }
      var overlap := Overlaps(identity, repository.value, physical);
      if overlap { return Err(InsideRepository); }
      if id.value in identities {
        ghost var j :| 0 <= j < i && identity(resolved[j]) == id;
        RepeatedRoot(roots, j, i);
        return Err(NotDistinct);
      }
      identities := identities + {id.value};
      resolved := resolved + [physical];
    }
    var apart := CheckPairs(identity, resolved);
    assert forall paths :: PhysicalPaths(roots, paths) ==> paths == resolved;
    return if apart then Ok(resolved) else Err(Overlapping);
  }

  lemma RepeatedRoot(roots: seq<Found>, j: nat, i: nat)
    requires j < i < |roots| && roots[j].physical.Some? && roots[j].physical == roots[i].physical
    ensures (forall k :: 0 <= k < |roots| ==> roots[k].physical.Some?) ==>
              exists paths :: PhysicalPaths(roots, paths) && !AllApart(paths)
  {
    if forall k :: 0 <= k < |roots| ==> roots[k].physical.Some? {
      var paths := seq(|roots|, k requires 0 <= k < |roots| => roots[k].physical.value);
      assert PhysicalPaths(roots, paths);
      assert paths[j] <= paths[i];
    }
  }

  // ---------- Disjointness ----------

  /** Two directories above or at one directory contain one another. */
  lemma CommonDirectoryMeansNested(a: Path, b: Path, d: Path)
    requires a <= d && b <= d
    ensures a <= b || b <= a
  {
    if |a| <= |b| {
      assert b[..|a|] == d[..|a|] == a;
    } else {
      assert a[..|b|] == d[..|b|] == b;
    }
  }

  /** No directory lies at or below two accepted roots, or an accepted root and the repository. */
  lemma AcceptedRootsAreDisjoint(
    identity: Path -> Option<Identity>, repository: Path, roots: seq<Found>, paths: seq<Path>, i: nat, j: nat, d: Path)
    requires forall k :: 0 <= k < |roots| ==> RootOk(identity, repository, roots[k])
    requires PhysicalPaths(roots, paths) && AllApart(paths)
    requires i < |paths| && paths[i] <= d
    ensures j < |paths| && j != i ==> !(paths[j] <= d)
    ensures !(repository <= d)
  {
    assert RootOk(identity, repository, roots[i]);
    if repository <= d { CommonDirectoryMeansNested(paths[i], repository, d); }
    if j < |paths| && j != i {
      assert if i < j then Apart(paths[i], paths[j]) else Apart(paths[j], paths[i]);
      if paths[j] <= d { CommonDirectoryMeansNested(paths[i], paths[j], d); }
    }
  }
}
