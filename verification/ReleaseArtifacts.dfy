/**
 The artifact half of `verify_release_statement` (scripts/trust_root.py): the files a threshold-signed
 statement names, against the manifest, the release index, the Git repository and the archive.
 */
module ReleaseArtifacts {
  import opened Functions
  import opened Outcomes
  import opened ReleaseArchive
  import opened TrustRoot

  import Builder = ReleaseIndexBuilder
  import Freshness = FreshnessIndex

  const REQUIRED := {"archive", "freshnessIndex", "installInventory", "manifest", "registry"}
  const SORTED := ["archive", "freshnessIndex", "installInventory", "manifest", "registry"]
  const MAX_METADATA_BYTES := 512 * 1024
  const MAX_MANIFEST_BYTES := 64 * 1024 * 1024
  const MAX_RELEASE_INDEX_BYTES := 4 * 1024 * 1024
  const LAUNCHER_PATH := "bootstrap/idc_verify_fresh.py"
  const VERIFIER_PATH := "scripts/skill_integrity.py"
  const REGISTRY_PATH := "skills/registry.json"
  const PUBLIC_KEY_PATH := "keys/idc-skills-signing.pub"
  const ALLOWED_SIGNERS_PATH := "keys/allowed_signers"

  datatype Identity = Identity(release: string, manifestSequence: int, files: map<string, Record>)

  /** The readers of the artifacts' bytes; `None` or false when they refuse. */
  datatype Formats = Formats(
    identity: Bytes -> Option<Identity>,
    index: Bytes -> Option<Freshness.Index>,
    inventory: (Bytes, Bytes) -> bool,
    registry: (Bytes, Identity) -> bool,
    members: Bytes -> Option<seq<Member>>)

  /** What Git and the working tree answer; `None` when the question fails. */
  datatype Repository = Repository(
    head: Option<string>,
    tagType: string -> Option<string>,
    tagCommit: string -> Option<string>,
    tagTree: string -> Option<string>,
    blob: (string, string) -> Option<string>,
    entries: string -> Option<seq<TreeEntry>>,
    signature: Option<Bytes>)

  /** Everything a verification looks at beside the signed metadata. A file that cannot be captured is `None`. */
  datatype World = World(
    digests: Digests, formats: Formats, repository: Repository, files: map<string, Option<Bytes>>)

  datatype ArtifactError =
    | ArtifactNames | ArtifactFile(name: string) | ManifestIdentity | ManifestRelease | Inventory | ReleaseIndex
    | NewestEntry | ManifestRecord(path: string) | RegistryDiffers | SigningKeys | RepositoryDiffers | GitBlob
    | SignatureFile | ArchiveDiffers

  function Bound(name: string): (r: nat) {
    if name == "archive" then MAX_RELEASE_ARCHIVE_BYTES
    else if name == "freshnessIndex" then MAX_RELEASE_INDEX_BYTES
    else if name == "installInventory" then MAX_METADATA_BYTES
    else MAX_MANIFEST_BYTES
  }

  /** A statement names exactly the required artifacts. */
  predicate Complete(release: Release) { release.artifacts.Keys == REQUIRED }

  /** The file was captured and is the one the statement names. */
  predicate NamedFile(world: World, release: Release, name: string)
    requires name in release.artifacts
  {
    name in world.files && world.files[name].Some? &&
    var data := world.files[name].value;
    |data| <= Bound(name) && |data| == release.artifacts[name].size &&
    world.digests.sha256(data) == release.artifacts[name].sha256
  }

  ghost predicate Captured(world: World, release: Release) {
    Complete(release) && world.files.Keys == REQUIRED &&
    forall name :: name in REQUIRED ==> NamedFile(world, release, name)
  }

  function Artifact(world: World, name: string): (r: Bytes)
    requires name in world.files && world.files[name].Some?
  {
    world.files[name].value
  }

  /** `manifest_file_record`: the manifest's record of a file, if it has one of the right shape. */
  function RecordOf(identity: Identity, path: string): (r: Option<Record>) {
    if path in identity.files && RecordShape(identity.files[path]) then Some(identity.files[path]) else None
  }

  /** The manifest lists a file with this digest. */
  predicate Lists(identity: Identity, path: string, sha256: string) {
    RecordOf(identity, path).Some? && RecordOf(identity, path).value.sha256 == sha256
  }

  /** The manifest is of this release, and the install inventory of the manifest. */
  ghost predicate ManifestMatches(world: World, release: Release, identity: Identity)
    requires Captured(world, release)
  {
    var manifest := Artifact(world, "manifest");
    world.formats.identity(manifest) == Some(identity) && identity.release == release.release &&
    world.formats.inventory(Artifact(world, "installInventory"), manifest)
  }

  /** The manifest lists the registry and the content-signing keys. */
  ghost predicate RegistryMatches(world: World, release: Release, identity: Identity)
    requires Captured(world, release)
  {
    var registry := Artifact(world, "registry");
    Lists(identity, REGISTRY_PATH, world.digests.sha256(registry)) &&
    identity.files[REGISTRY_PATH].size == |registry| && world.formats.registry(registry, identity) &&
    Lists(identity, PUBLIC_KEY_PATH, release.contentSigning.publicKeySHA256) &&
    Lists(identity, ALLOWED_SIGNERS_PATH, release.contentSigning.allowedSignersSHA256)
  }

  /** The live index's newest entry is this release, of this manifest and commit. */
  ghost predicate IndexMatches(world: World, release: Release, identity: Identity, index: Freshness.Index, now: int)
    requires Captured(world, release)
  {
    world.formats.index(Artifact(world, "freshnessIndex")) == Some(index) &&
    Freshness.ParseIndex(index, now) == Ok(index) && index.releases != [] &&
    var newest := Freshness.Newest(index);
    newest.release == release.release && newest.manifestSequence == identity.manifestSequence &&
    newest.manifestSHA256 == world.digests.sha256(Artifact(world, "manifest")) &&
    newest.gitCommit == release.git.commit &&
    Lists(identity, LAUNCHER_PATH, newest.launcherSHA256) && Lists(identity, VERIFIER_PATH, newest.verifierSHA256)
  }

  /** HEAD and an annotated tag are the signed commit and tree, and its blobs are the captured files. */
  ghost predicate GitMatches(world: World, release: Release, signature: Bytes)
    requires Captured(world, release)
  {
    var git, repository, gitBlob := release.git, world.repository, world.digests.gitBlob;
    repository.head == Some(git.commit) && repository.tagType(git.tag) == Some("tag") &&
    repository.tagCommit(git.tag) == Some(git.commit) && repository.tagTree(git.tag) == Some(git.tree) &&
    repository.blob(git.commit, MANIFEST_PATH) == Some(gitBlob(Artifact(world, "manifest"))) &&
    repository.blob(git.commit, REGISTRY_PATH) == Some(gitBlob(Artifact(world, "registry"))) &&
    repository.signature == Some(signature) && |signature| <= MAX_METADATA_BYTES &&
    repository.blob(git.commit, SIGNATURE_PATH) == Some(gitBlob(signature))
  }

  /** The archive is exact for the manifest, its signature and the commit's plain Git tree. */
  ghost predicate ArchiveMatches(
    world: World, release: Release, identity: Identity, signature: Bytes, entries: seq<TreeEntry>, members: seq<Member>)
    requires Captured(world, release)
  {
    var manifest := Manifest(identity.files, Artifact(world, "manifest"), signature);
    world.repository.entries(release.git.commit) == Some(entries) && PlainTree(entries) &&
    1 <= |Artifact(world, "archive")| && world.formats.members(Artifact(world, "archive")) == Some(members) &&
    Exact(world.digests, manifest, Some(TreeOf(entries)), release.release, members)
  }

  /** What the check finds: the readings of the artifacts that agree with the statement and with each other. */
  datatype Finding = Finding(
    identity: Identity, index: Freshness.Index, signature: Bytes, entries: seq<TreeEntry>, members: seq<Member>)

  ghost predicate Matches(world: World, release: Release, now: int, f: Finding) {
    Captured(world, release) && ManifestMatches(world, release, f.identity) &&
    IndexMatches(world, release, f.identity, f.index, now) && RegistryMatches(world, release, f.identity) &&
    GitMatches(world, release, f.signature) &&
    ArchiveMatches(world, release, f.identity, f.signature, f.entries, f.members)
  }

  ghost predicate ArtifactsMatch(world: World, release: Release, now: int) {
    exists f :: Matches(world, release, now, f)
  }

  // ---------- The checks, in the order of the code ----------

  method CaptureArtifacts(world: World, release: Release) returns (fault: Option<ArtifactError>)
    requires Complete(release)
    ensures fault.None? <==> Captured(world, release)
  {
    if world.files.Keys != REQUIRED { return Some(ArtifactNames); }
    for i := 0 to |SORTED|
      invariant forall j :: 0 <= j < i ==> NamedFile(world, release, SORTED[j])
    {
      var name := SORTED[i];
      assert name in REQUIRED;
      if !NamedFile(world, release, name) { return Some(ArtifactFile(name)); }
    }
    assert forall name :: name in REQUIRED ==> name in SORTED;
    return None;
  }

  method CheckManifest(world: World, release: Release) returns (r: Result<Identity, ArtifactError>)
    requires Captured(world, release)
    ensures r.Ok? <==> exists identity :: ManifestMatches(world, release, identity)
    ensures r.Ok? ==> ManifestMatches(world, release, r.value)
  {
    var manifest := Artifact(world, "manifest");
    var identity := world.formats.identity(manifest);
    if identity.None? { return Err(ManifestIdentity); }
    if identity.value.release != release.release { return Err(ManifestRelease); }
    if !world.formats.inventory(Artifact(world, "installInventory"), manifest) { return Err(Inventory); }
    assert ManifestMatches(world, release, identity.value);
    return Ok(identity.value);
  }

  method CheckIndex(world: World, release: Release, identity: Identity, now: int)
    returns (r: Result<Freshness.Index, ArtifactError>)
    requires Captured(world, release)
    ensures r.Ok? <==> exists index :: IndexMatches(world, release, identity, index, now)
    ensures r.Ok? ==> IndexMatches(world, release, identity, r.value, now)
  {
    var raw := world.formats.index(Artifact(world, "freshnessIndex"));
    if raw.None? { return Err(ReleaseIndex); }
    Freshness.ParseIndexDecides(raw.value, now);
    var parsed := Freshness.ParseIndex(raw.value, now);
    if parsed.Err? { return Err(ReleaseIndex); }
    var newest := Freshness.Newest(parsed.value);
    if newest.release != release.release || newest.manifestSequence != identity.manifestSequence ||
       newest.manifestSHA256 != world.digests.sha256(Artifact(world, "manifest")) ||
       newest.gitCommit != release.git.commit
    {
      return Err(NewestEntry);
    }
    if !Lists(identity, LAUNCHER_PATH, newest.launcherSHA256) { return Err(ManifestRecord(LAUNCHER_PATH)); }
    if !Lists(identity, VERIFIER_PATH, newest.verifierSHA256) { return Err(ManifestRecord(VERIFIER_PATH)); }
    assert IndexMatches(world, release, identity, parsed.value, now);
    return Ok(parsed.value);
  }

  method CheckRegistry(world: World, release: Release, identity: Identity) returns (fault: Option<ArtifactError>)
    requires Captured(world, release)
    ensures fault.None? <==> RegistryMatches(world, release, identity)
  {
    var registry := Artifact(world, "registry");
    var record := RecordOf(identity, REGISTRY_PATH);
    if record.None? { return Some(ManifestRecord(REGISTRY_PATH)); }
    if record.value.sha256 != world.digests.sha256(registry) || record.value.size != |registry| {
      return Some(RegistryDiffers);
    }
    if !world.formats.registry(registry, identity) { return Some(RegistryDiffers); }
    if !Lists(identity, PUBLIC_KEY_PATH, release.contentSigning.publicKeySHA256) { return Some(SigningKeys); }
    if !Lists(identity, ALLOWED_SIGNERS_PATH, release.contentSigning.allowedSignersSHA256) {
      return Some(SigningKeys);
    }
    return None;
  }

  method CheckGit(world: World, release: Release) returns (r: Result<Bytes, ArtifactError>)
    requires Captured(world, release)
    ensures r.Ok? <==> exists signature :: GitMatches(world, release, signature)
    ensures r.Ok? ==> GitMatches(world, release, r.value)
  {
    var git, repository := release.git, world.repository;
    if repository.tagType(git.tag) != Some("tag") { return Err(RepositoryDiffers); }
    if repository.head != Some(git.commit) || repository.tagCommit(git.tag) != Some(git.commit) {
      return Err(RepositoryDiffers);
    }
    if repository.tagTree(git.tag) != Some(git.tree) { return Err(RepositoryDiffers); }
    if repository.blob(git.commit, MANIFEST_PATH) != Some(world.digests.gitBlob(Artifact(world, "manifest"))) ||
       repository.blob(git.commit, REGISTRY_PATH) != Some(world.digests.gitBlob(Artifact(world, "registry")))
    {
      return Err(GitBlob);
    }
    if repository.signature.None? { return Err(SignatureFile); }
    var signature := repository.signature.value;
    if |signature| > MAX_METADATA_BYTES { return Err(SignatureFile); }
    if repository.blob(git.commit, SIGNATURE_PATH) != Some(world.digests.gitBlob(signature)) { return Err(GitBlob); }
    assert GitMatches(world, release, signature);
    return Ok(signature);
  }

  method CheckArchive(world: World, release: Release, identity: Identity, signature: Bytes)
    returns (r: Result<(seq<TreeEntry>, seq<Member>), ArtifactError>)
    requires Captured(world, release)
    ensures r.Ok? <==>
              exists entries, members :: ArchiveMatches(world, release, identity, signature, entries, members)
    ensures r.Ok? ==> ArchiveMatches(world, release, identity, signature, r.value.0, r.value.1)
  {
    var entries := world.repository.entries(release.git.commit);
    if entries.None? { return Err(RepositoryDiffers); }
    var tree := ReadTree(entries.value);
    if tree.None? { return Err(RepositoryDiffers); }
    var archive := Artifact(world, "archive");
    var members := world.formats.members(archive);
    if members.None? { return Err(ArchiveDiffers); }
    assert NamedFile(world, release, "archive");
    var manifest := Manifest(identity.files, Artifact(world, "manifest"), signature);
    var valid := ValidateReleaseArchive(world.digests, |archive|, manifest, tree, release.release, members.value);
    if valid.Err? { return Err(ArchiveDiffers); }
    assert ArchiveMatches(world, release, identity, signature, entries.value, members.value);
    return Ok((entries.value, members.value));
  }

  /** Accepts exactly when every reading agrees, and returns the readings. */
  method VerifyArtifacts(world: World, release: Release, now: int) returns (r: Result<Finding, ArtifactError>)
    requires Complete(release)
    ensures r.Ok? <==> ArtifactsMatch(world, release, now)
    ensures r.Ok? ==> Matches(world, release, now, r.value)
  {
    var fault := CaptureArtifacts(world, release);
    if fault.Some? { return Err(fault.value); }
    var identity := CheckManifest(world, release);
    if identity.Err? { return Err(identity.error); }
    var index := CheckIndex(world, release, identity.value, now);
    if index.Err? { return Err(index.error); }
    fault := CheckRegistry(world, release, identity.value);
    if fault.Some? { return Err(fault.value); }
    var signature := CheckGit(world, release);
    if signature.Err? { return Err(signature.error); }
    var archive := CheckArchive(world, release, identity.value, signature.value);
    if archive.Err? { return Err(archive.error); }
    var (entries, members) := archive.value;
    var f := Finding(identity.value, index.value, signature.value, entries, members);
    assert Matches(world, release, now, f);
    return Ok(f);
  }

  // ---------- One statement, one release ----------

  lemma MemberAt(
    digests: Digests, expected: map<string, Expectation>, tree: GitTree, prefix: string, members: seq<Member>,
    p: string)
    returns (i: nat)
    requires tree.Keys == expected.Keys && p in expected
    requires ExactMembers(digests, expected, Some(tree), prefix, members)
    ensures i < |members| && Relative(prefix, members[i]) == p
    ensures digests.sha256(members[i].data) == expected[p].sha256 && members[i].mode == expected[p].mode
    ensures expected[p].literal.Some? ==> members[i].data == expected[p].literal.value
    ensures tree[p] == (GitMode(members[i].mode), digests.gitBlob(members[i].data))
  {
    ExactIsBijection(digests, expected, Some(tree), prefix, members);
    var paths := Paths(prefix, members);
    assert p in (set q | q in paths);
    i :| 0 <= i < |paths| && paths[i] == p;
    GoodMemberAt(digests, expected, tree, prefix, members[i], p);
  }

  lemma GoodMemberAt(
    digests: Digests, expected: map<string, Expectation>, tree: GitTree, prefix: string, m: Member, p: string)
    requires tree.Keys == expected.Keys && p == Relative(prefix, m)
    requires GoodMember(digests, expected, Some(tree), prefix, m)
    ensures p in expected && digests.sha256(m.data) == expected[p].sha256 && m.mode == expected[p].mode
    ensures expected[p].literal.Some? ==> m.data == expected[p].literal.value
    ensures tree[p] == (GitMode(m.mode), digests.gitBlob(m.data))
  {
  }

  lemma SameAtPath(
    digests: Digests, x: map<string, Expectation>, a: GitTree, y: map<string, Expectation>, b: GitTree,
    prefix: string, members: seq<Member>, p: string)
    requires a.Keys == x.Keys == y.Keys == b.Keys && p in x
    requires ExactMembers(digests, x, Some(a), prefix, members) && ExactMembers(digests, y, Some(b), prefix, members)
    ensures a[p] == b[p]
    ensures x[p].literal.Some? && y[p].literal.Some? ==> x[p].literal == y[p].literal
  {
    var i := MemberAt(digests, x, a, prefix, members, p);
    var j := MemberAt(digests, y, b, prefix, members, p);
    ghost var paths := Paths(prefix, members);
    assert Distinct(paths) && paths[i] == p == paths[j];
  }

  /** The members of one archive, checked against two signatures and trees, fix both. */
  lemma OneTreePerArchive(
    digests: Digests, files: map<string, Record>, manifest: Bytes, release: string, members: seq<Member>,
    s: Bytes, a: GitTree, t: Bytes, b: GitTree)
    requires Exact(digests, Manifest(files, manifest, s), Some(a), release, members)
    requires Exact(digests, Manifest(files, manifest, t), Some(b), release, members)
    ensures s == t && a == b
  {
    var x, y := Expected(digests, Manifest(files, manifest, s)), Expected(digests, Manifest(files, manifest, t));
    assert x.Keys == y.Keys;
    SameAtPath(digests, x, a, y, b, Prefix(release), members, SIGNATURE_PATH);
    forall p | p in a.Keys ensures a[p] == b[p] {
      SameAtPath(digests, x, a, y, b, Prefix(release), members, p);
    }
  }

  /**
   Two accepted checks of one statement, on whatever two machines, captured the same files and saw the
   same manifest signature and the same Git tree, path by path with mode and blob.
   */
  lemma OneReleasePerStatement(a: World, b: World, release: Release, now: int, later: int, f: Finding, g: Finding)
    requires a.digests == b.digests && a.formats == b.formats && Injective(a.digests.sha256)
    requires Matches(a, release, now, f) && Matches(b, release, later, g)
    ensures a.files == b.files
    ensures f.identity == g.identity && f.index == g.index && f.members == g.members
    ensures f.signature == g.signature && TreeOf(f.entries) == TreeOf(g.entries)
  {
    forall name | name in REQUIRED ensures a.files[name] == b.files[name] {
      assert NamedFile(a, release, name) && NamedFile(b, release, name);
    }
    OneTreePerArchive(a.digests, f.identity.files, Artifact(a, "manifest"), release.release, f.members,
                      f.signature, TreeOf(f.entries), g.signature, TreeOf(g.entries));
  }

  /** An index in which the builder retained an older entry is refused as evidence for that entry's release. */
  lemma RetainedEntryIsRefused(
      world: World, release: Release, now: int, request: Builder.Request, built: int, f: Finding)
    requires Matches(world, release, now, f)
    requires Builder.Buildable(request, built) && !request.genesis && f.index == Builder.Built(request)
    requires request.entry.release == release.release
    ensures request.entry == Freshness.Newest(f.index)
    ensures var previous := request.previous.value.index;
            previous.releases != [] &&
            (request.entry in previous.releases ==> request.entry == Freshness.Newest(previous))
  {
    Builder.NewestIsCandidateIff(request, built);
    Builder.BuiltIsHistory(request, built);
    OnlyEntryOfItsName(f.index.releases, request.entry, Freshness.Newest(f.index));
  }

  lemma OnlyEntryOfItsName(releases: seq<Freshness.Entry>, a: Freshness.Entry, b: Freshness.Entry)
    requires Freshness.History(releases) && a in releases && b in releases && a.release == b.release
    ensures a == b
  {
    var i :| 0 <= i < |releases| && releases[i] == a;
    var j :| 0 <= j < |releases| && releases[j] == b;
  }
}
