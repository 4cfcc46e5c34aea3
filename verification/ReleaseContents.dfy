/**
 What acceptance says of the files themselves: which paths an archive can hold (scripts/trust_root.py,
 `validate_release_archive`), what each member is, and which files, keys and index entry a statement fixes
 (`verify_release_statement`). Names, modes and bounds are written out here.
 */
module ReleaseContents {
  import opened Outcomes
  import opened ReleaseArchive
  import opened ReleaseArtifacts
  import opened Sequences
  import opened SequenceNumbers
  import opened TrustRoot

  import Freshness = FreshnessIndex

  // ---------- Paths ----------

  lemma {:induction false} SplitAtSlash(a: string, b: string)
    ensures Split(a + "/" + b, '/') == Split(a, '/') + Split(b, '/')
  {
    var s := a + "/" + b;
    if a == "" {
      assert s[0] == '/' && s[1..] == b;
    } else {
      assert s[0] == a[0] && s[1..] == a[1..] + "/" + b;
      SplitAtSlash(a[1..], b);
    }
  }

  /** A `..` between slashes or the ends of the path. */
  ghost predicate Climbs(s: string) {
    s == ".." || (exists b :: s == "../" + b) || (exists a :: s == a + "/..") || exists a, b :: s == a + "/../" + b
  }

  lemma {:induction false} ClimbsSplit(s: string)
    requires Climbs(s)
    ensures ".." in Split(s, '/')
  {
    SplitPiece("..", '/');
    if b :| s == "../" + b {
      assert s == ".." + "/" + b;
      SplitAtSlash("..", b);
    } else if a :| s == a + "/.." {
      assert s == a + "/" + "..";
      SplitAtSlash(a, "..");
    } else if a, b :| s == a + "/../" + b {
      assert s == a + "/" + (".." + "/" + b);
      SplitAtSlash(a, ".." + "/" + b);
      SplitAtSlash("..", b);
    }
  }

  /** A piece between slashes, or at the beginning or the end. */
  function Around(first: bool, a: string, piece: string, last: bool, b: string): (r: string) {
    (if first then "" else a + "/") + piece + (if last then "" else "/" + b)
  }

  lemma AroundCons(c: char, a: string, piece: string, last: bool, b: string)
    ensures [c] + Around(false, a, piece, last, b) == Around(false, [c] + a, piece, last, b)
    ensures [c] + Around(true, a, piece, last, b) == Around(true, a, [c] + piece, last, b)
    ensures "/" + Around(true, a, piece, last, b) == Around(false, "", piece, last, b)
  {
  }

  lemma {:induction false} SplitCons(c: char, t: string)
    ensures Split([c] + t, '/') ==
            if c == '/' then [""] + Split(t, '/') else [[c] + Split(t, '/')[0]] + Split(t, '/')[1..]
  {
    assert ([c] + t)[1..] == t;
  }

  /** The piece at i stands in the text between the pieces before it and those after it. */
  lemma PieceAt(s: string, i: nat) returns (a: string, b: string)
    requires i < |Split(s, '/')|
    ensures s == Around(i == 0, a, Split(s, '/')[i], i + 1 == |Split(s, '/')|, b)
  {
    a, b := "", "";
    if s == "" {
    } else {
      var c, t := s[0], s[1..];
      assert s == [c] + t;
      SplitCons(c, t);
      if c == '/' && i == 0 {
        b := t;
      } else {
        var k := if c == '/' then i - 1 else i;
        var before;
        before, b := PieceAt(t, k);
        AroundCons(c, before, Split(t, '/')[k], k + 1 == |Split(t, '/')|, b);
        a := if k == 0 then "" else [c] + before;
      }
    }
  }

  /** Nonempty, relative, without backslash, and nowhere climbing. */
  ghost predicate SafePath(s: string) {
    s != "" && s[0] != '/' && '\\' !in s && !Climbs(s)
  }

  lemma SafeRelativeIff(s: string)
    ensures SafeRelative(s) <==> SafePath(s)
  {
    if Climbs(s) { ClimbsSplit(s); }
    if ".." in Split(s, '/') {
      var i :| 0 <= i < |Split(s, '/')| && Split(s, '/')[i] == "..";
      var a, b := PieceAt(s, i);
      var first, last := i == 0, i + 1 == |Split(s, '/')|;
      assert s == Around(first, a, "..", last, b);
      if first && !last { assert s == "../" + b; }
      if !first && last { assert s == a + "/.."; }
      if !first && !last { assert s == a + "/../" + b; }
    }
  }

  // ---------- Members ----------

  /** Nothing of the machine or the moment of building is in the member's header. */
  predicate PlainHeader(m: Member) {
    m.isFile && m.uid == 0 && m.gid == 0 && m.uname == "" && m.gname == "" && m.mtime == 0 && m.paxHeaders <= {"path"}
  }

  /** What the manifest, or the authority files, demand of the file at `path`. */
  predicate RecordMeans(digests: Digests, manifest: Manifest, path: string, m: Member) {
    if path == "integrity/manifest.json.sig" then m.data == manifest.signature && m.mode == 420
    else if path == "integrity/manifest.json" then m.data == manifest.data && m.mode == 420
    else
      path in manifest.files &&
      digests.sha256(m.data) == manifest.files[path].sha256 && |m.data| == manifest.files[path].size <= 67108864 &&
      m.mode == manifest.files[path].posixMode && 0 <= m.mode <= 511
  }

  /** The Git entry has the blob of these bytes; it is executable for mode 0o755 and a plain file otherwise. */
  predicate TreeMeans(digests: Digests, tree: GitTree, path: string, m: Member) {
    path in tree && tree[path].1 == digests.gitBlob(m.data) &&
    (tree[path].0 == "100755" || tree[path].0 == "100644") && (tree[path].0 == "100755" <==> m.mode == 493)
  }

  /** The member is the file at this path below the release's directory. */
  predicate StandsAt(release: string, path: string, m: Member) {
    m.name == "idc-skills-" + release + "/" + path
  }

  lemma BelowPrefix(release: string, m: Member)
    requires Prefix(release) <= m.name
    ensures StandsAt(release, Relative(Prefix(release), m), m)
  {
    assert m.name == Prefix(release) + Relative(Prefix(release), m);
  }

  lemma HeaderIsPlain(headers: set<string>)
    requires headers - {"path"} == {}
    ensures headers <= {"path"}
  {
    assert headers == (headers - {"path"}) + (headers * {"path"});
  }

  lemma FaultlessMeans(
    digests: Digests, manifest: Manifest, expected: map<string, Expectation>, tree: GitTree, m: Member, path: string)
    requires expected == Expected(digests, manifest) && path in expected && path in tree && m.isFile
    requires path in manifest.files ==> RecordShape(manifest.files[path])
    requires MemberFault(digests, expected, Some(tree), m, path).None?
    ensures PlainHeader(m) && m.size == |m.data|
    ensures RecordMeans(digests, manifest, path, m) && TreeMeans(digests, tree, path, m)
  {
    HeaderIsPlain(m.paxHeaders);
  }

  lemma GoodMemberMeans(
    digests: Digests, manifest: Manifest, expected: map<string, Expectation>, tree: GitTree, prefix: string, m: Member)
    returns (path: string)
    requires expected == Expected(digests, manifest) && tree.Keys == expected.Keys
    requires forall p :: p in manifest.files ==> RecordShape(manifest.files[p])
    requires GoodMember(digests, expected, Some(tree), prefix, m)
    ensures path == Relative(prefix, m) && prefix <= m.name && SafePath(path)
    ensures PlainHeader(m) && m.size == |m.data|
    ensures RecordMeans(digests, manifest, path, m) && TreeMeans(digests, tree, path, m)
  {
    path := Relative(prefix, m);
    FaultlessMeans(digests, manifest, expected, tree, m, path);
    SafeRelativeIff(path);
  }

  /** Each member of an exact archive is a plain file below the release's directory, as manifest and tree say. */
  lemma MemberMeans(
    digests: Digests, manifest: Manifest, tree: GitTree, release: string, members: seq<Member>, i: nat)
    returns (path: string)
    requires Exact(digests, manifest, Some(tree), release, members) && i < |members|
    ensures StandsAt(release, path, members[i]) && SafePath(path) && PlainHeader(members[i])
    ensures members[i].size == |members[i].data|
    ensures RecordMeans(digests, manifest, path, members[i]) && TreeMeans(digests, tree, path, members[i])
  {
    path := GoodMemberMeans(digests, manifest, Expected(digests, manifest), tree, Prefix(release), members[i]);
    BelowPrefix(release, members[i]);
  }

  lemma MemberOf(
    digests: Digests, expected: map<string, Expectation>, tree: GitTree, prefix: string, members: seq<Member>,
    path: string)
    returns (i: nat)
    requires tree.Keys == expected.Keys && path in expected
    requires ExactMembers(digests, expected, Some(tree), prefix, members)
    ensures i < |members| && Relative(prefix, members[i]) == path
  {
    ExactIsBijection(digests, expected, Some(tree), prefix, members);
    var paths := Paths(prefix, members);
    assert path in (set p | p in paths);
    i :| 0 <= i < |paths| && paths[i] == path;
  }

  /** Each file that manifest or authority demand is one of the members. */
  lemma FileIsMember(
    digests: Digests, manifest: Manifest, tree: GitTree, release: string, members: seq<Member>, path: string)
    returns (m: Member)
    requires Exact(digests, manifest, Some(tree), release, members)
    requires path in manifest.files || path == "integrity/manifest.json" || path == "integrity/manifest.json.sig"
    ensures m in members && StandsAt(release, path, m)
    ensures RecordMeans(digests, manifest, path, m) && TreeMeans(digests, tree, path, m)
  {
    var i := MemberOf(digests, Expected(digests, manifest), tree, Prefix(release), members, path);
    m := members[i];
    var same := GoodMemberMeans(digests, manifest, Expected(digests, manifest), tree, Prefix(release), m);
    BelowPrefix(release, m);
  }

  /** A verified closure has two modes only, and Git has the same one. */
  lemma ClosureModes(
    digests: Digests, manifest: Manifest, repository: map<string, Bytes>, tree: GitTree, path: string)
    requires VerifiedClosure(digests, manifest, repository, tree) && path in manifest.files
    ensures path in tree && path in repository && |repository[path]| <= 67108864
    ensures var mode := manifest.files[path].posixMode;
            (mode == 420 && tree[path].0 == "100644") || (mode == 493 && tree[path].0 == "100755")
    ensures tree[path].1 == digests.gitBlob(repository[path])
    ensures manifest.files[path].sha256 == digests.sha256(repository[path])
  {
    assert ClosedFile(digests, manifest, repository, tree, path);
  }

  // ---------- One release ----------

  /** The captured artifact has the size and digest that the statement signs, and no more bytes than allowed. */
  predicate SignedArtifact(world: World, release: Release, name: string, bound: nat) {
    name in world.files && world.files[name].Some? && name in release.artifacts &&
    |world.files[name].value| == release.artifacts[name].size <= bound &&
    world.digests.sha256(world.files[name].value) == release.artifacts[name].sha256
  }

  /** The five artifacts, each within its own bound. */
  lemma FiveArtifacts(world: World, release: Release)
    ensures Captured(world, release) <==>
            release.artifacts.Keys == world.files.Keys &&
            world.files.Keys == {"archive", "freshnessIndex", "installInventory", "manifest", "registry"} &&
            SignedArtifact(world, release, "archive", 268435456) &&
            SignedArtifact(world, release, "freshnessIndex", 4194304) &&
            SignedArtifact(world, release, "installInventory", 524288) &&
            SignedArtifact(world, release, "manifest", 67108864) &&
            SignedArtifact(world, release, "registry", 67108864)
  {
    if Captured(world, release) {
      assert NamedFile(world, release, "archive") && NamedFile(world, release, "freshnessIndex");
      assert NamedFile(world, release, "installInventory") && NamedFile(world, release, "manifest");
      assert NamedFile(world, release, "registry");
    }
  }

  /** The index is live now and its newest entry is the release that the statement and the manifest are of. */
  lemma NewestIsSigned(world: World, release: Release, now: int, f: Finding)
    requires Matches(world, release, now, f)
    ensures LiveAndNewest(f.index, now) && f.identity.release == release.release
    ensures var newest := f.index.releases[|f.index.releases| - 1];
            newest.release == release.release && newest.gitCommit == release.git.commit &&
            newest.manifestSequence == f.identity.manifestSequence &&
            newest.manifestSHA256 == world.digests.sha256(Artifact(world, "manifest"))
  {
    LiveIndex(f.index, now);
  }

  /** The index is live and its last entry has the highest manifest sequence. */
  predicate LiveAndNewest(index: Freshness.Index, now: int) {
    index.generatedAt <= now + 300 && now < index.validUntil <= index.generatedAt + 2678400 && index.releases != [] &&
    forall i :: 0 <= i < |index.releases| - 1 ==>
      index.releases[i].manifestSequence < index.releases[|index.releases| - 1].manifestSequence
  }

  lemma LiveIndex(index: Freshness.Index, now: int)
    requires Freshness.ParseIndex(index, now).Ok?
    ensures LiveAndNewest(index, now)
  {
    Freshness.ParseIndexDecides(index, now);
  }

  /** Some member is the file at this path, with this digest. */
  ghost predicate Holds(digests: Digests, members: seq<Member>, release: string, path: string, sha256: string) {
    exists m :: m in members && StandsAt(release, path, m) && digests.sha256(m.data) == sha256
  }

  lemma ListedIsHeld(world: World, release: Release, now: int, f: Finding, path: string, sha256: string)
    requires Matches(world, release, now, f) && Lists(f.identity, path, sha256)
    requires path != "integrity/manifest.json" && path != "integrity/manifest.json.sig"
    ensures Holds(world.digests, f.members, release.release, path, sha256)
  {
    var manifest := Manifest(f.identity.files, Artifact(world, "manifest"), f.signature);
    var m := FileIsMember(world.digests, manifest, TreeOf(f.entries), release.release, f.members, path);
  }

  /** The archive holds the launcher and verifier of the newest entry, the captured registry and the signing keys. */
  lemma ArchiveHoldsSigned(world: World, release: Release, now: int, f: Finding)
    requires Matches(world, release, now, f)
    ensures f.index.releases != [] && Captured(world, release)
    ensures var newest, name := f.index.releases[|f.index.releases| - 1], release.release;
            var digests, members := world.digests, f.members;
            Holds(digests, members, name, "bootstrap/idc_verify_fresh.py", newest.launcherSHA256) &&
            Holds(digests, members, name, "scripts/skill_integrity.py", newest.verifierSHA256) &&
            Holds(digests, members, name, "skills/registry.json", digests.sha256(Artifact(world, "registry"))) &&
            Holds(digests, members, name, "keys/idc-skills-signing.pub", release.contentSigning.publicKeySHA256) &&
            Holds(digests, members, name, "keys/allowed_signers", release.contentSigning.allowedSignersSHA256)
  {
    var newest := Freshness.Newest(f.index);
    OtherPaths();
    ListedIsHeld(world, release, now, f, LAUNCHER_PATH, newest.launcherSHA256);
    ListedIsHeld(world, release, now, f, VERIFIER_PATH, newest.verifierSHA256);
    ListedIsHeld(world, release, now, f, REGISTRY_PATH, world.digests.sha256(Artifact(world, "registry")));
    ListedIsHeld(world, release, now, f, PUBLIC_KEY_PATH, release.contentSigning.publicKeySHA256);
    ListedIsHeld(world, release, now, f, ALLOWED_SIGNERS_PATH, release.contentSigning.allowedSignersSHA256);
  }

  lemma OtherPaths()
    ensures LAUNCHER_PATH == "bootstrap/idc_verify_fresh.py" && VERIFIER_PATH == "scripts/skill_integrity.py"
    ensures REGISTRY_PATH == "skills/registry.json" && PUBLIC_KEY_PATH == "keys/idc-skills-signing.pub"
    ensures ALLOWED_SIGNERS_PATH == "keys/allowed_signers"
    ensures forall path :: path in {LAUNCHER_PATH, VERIFIER_PATH, REGISTRY_PATH, PUBLIC_KEY_PATH, ALLOWED_SIGNERS_PATH}
              ==> path[0] != 'i'
  {
  }

  /** HEAD, an annotated tag and the working tree's signature are those of the signed commit. */
  lemma RepositoryIsSigned(world: World, release: Release, now: int, f: Finding)
    requires Matches(world, release, now, f)
    ensures world.repository.head == Some(release.git.commit)
    ensures world.repository.tagType(release.git.tag) == Some("tag")
    ensures world.repository.tagCommit(release.git.tag) == Some(release.git.commit)
    ensures world.repository.tagTree(release.git.tag) == Some(release.git.tree)
    ensures world.repository.entries(release.git.commit) == Some(f.entries)
    ensures world.repository.signature == Some(f.signature) && |f.signature| <= 524288
    ensures CommitHolds(world, release.git.commit, "integrity/manifest.json", Artifact(world, "manifest"))
    ensures CommitHolds(world, release.git.commit, "skills/registry.json", Artifact(world, "registry"))
    ensures CommitHolds(world, release.git.commit, "integrity/manifest.json.sig", f.signature)
  {
  }

  /** The commit's file at this path has these bytes' blob. */
  predicate CommitHolds(world: World, commit: string, path: string, data: Bytes) {
    world.repository.blob(commit, path) == Some(world.digests.gitBlob(data))
  }

  /** Every artifact was read by its own reader, and the registry is the one that the manifest lists. */
  lemma ArtifactsAreRead(world: World, release: Release, now: int, f: Finding)
    requires Matches(world, release, now, f)
    ensures world.formats.identity(Artifact(world, "manifest")) == Some(f.identity)
    ensures world.formats.inventory(Artifact(world, "installInventory"), Artifact(world, "manifest"))
    ensures world.formats.index(Artifact(world, "freshnessIndex")) == Some(f.index)
    ensures world.formats.registry(Artifact(world, "registry"), f.identity)
    ensures "skills/registry.json" in f.identity.files &&
            f.identity.files["skills/registry.json"].size == |Artifact(world, "registry")| &&
            f.identity.files["skills/registry.json"].sha256 == world.digests.sha256(Artifact(world, "registry"))
    ensures world.formats.members(Artifact(world, "archive")) == Some(f.members)
    ensures 1 <= |Artifact(world, "archive")| <= 268435456
    ensures TreeOf(f.entries).Keys ==
            f.identity.files.Keys + {"integrity/manifest.json", "integrity/manifest.json.sig"}
    ensures forall i :: 0 <= i < |f.entries| ==> f.entries[i].kind == "blob"
  {
    assert NamedFile(world, release, "archive");
  }
}
