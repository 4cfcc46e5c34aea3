/**
 The release archive: what the client accepts (scripts/trust_root.py, `validate_release_archive`)
 and what the publisher writes (scripts/build_trust_metadata.py, `_build_release_archive_bytes`).
 An archive is the list of members read from, or written to, its tar stream.
 */
module ReleaseArchive {
  import opened Functions
  import opened Outcomes
  import Sequences

  const MAX_RELEASE_ARCHIVE_BYTES := 256 * 1024 * 1024
  const MAX_FILE_BYTES := 64 * 1024 * 1024
  const MODE_FILE := 420        // 0o644
  const MODE_EXECUTABLE := 493  // 0o755
  const MODE_LIMIT := 511       // 0o777
  const MANIFEST_PATH := "integrity/manifest.json"
  const SIGNATURE_PATH := "integrity/manifest.json.sig"

  type Bytes = seq<int>

  datatype Record = Record(sha256: string, size: int, posixMode: int)

  datatype Member = Member(
    name: string, isFile: bool, uid: int, gid: int, uname: string, gname: string, mtime: int,
    paxHeaders: set<string>, size: int, mode: int, data: Bytes)

  /** The signed manifest's files, its own bytes and its signature. */
  datatype Manifest = Manifest(files: map<string, Record>, data: Bytes, signature: Bytes)

  /** SHA-256 and the Git blob id, as functions of the bytes. */
  datatype Digests = Digests(sha256: Bytes -> string, gitBlob: Bytes -> string)

  datatype Expectation = Expectation(literal: Option<Bytes>, sha256: string, size: int, mode: int)

  type GitTree = map<string, (string, string)>

  datatype ArchiveError =
    | BadLength | BadRecord | TreeInventory | CountDiffers | NotRegular | WrongRoot | UnsafeOrExtra
    | NotDeterministic | SizeOrMode | BytesDiffer | AuthorityBytes | TreeDiffers | Omitted

  // ---------- Paths ----------

  /** Nonempty, relative, without backslash and without a `..` component. */
  predicate SafeRelative(s: string) {
    s != [] && s[0] != '/' && '\\' !in s && ".." !in Sequences.Split(s, '/')
  }

  function Prefix(release: string): (r: string) {
    "idc-skills-" + release + "/"
  }

  // ---------- Expectations ----------

  predicate RecordShape(record: Record) {
    0 <= record.size <= MAX_FILE_BYTES && 0 <= record.posixMode <= MODE_LIMIT
  }

  function Authority(digests: Digests, data: Bytes): (r: Expectation) {
    Expectation(Some(data), digests.sha256(data), |data|, MODE_FILE)
  }

  /** The manifest's files, with its own entry and its signature's always the given bytes. */
  function Expected(digests: Digests, manifest: Manifest): (r: map<string, Expectation>) {
    (map p | p in manifest.files ::
       Expectation(None, manifest.files[p].sha256, manifest.files[p].size, manifest.files[p].posixMode))
      [MANIFEST_PATH := Authority(digests, manifest.data)]
      [SIGNATURE_PATH := Authority(digests, manifest.signature)]
  }

  function GitMode(mode: int): (r: string) {
    if mode == MODE_EXECUTABLE then "100755" else "100644"
  }

  // ---------- Validation ----------

  /** The checks on one member whose path is `relative`. */
  function MemberFault(
    digests: Digests, expected: map<string, Expectation>, tree: Option<GitTree>, m: Member, relative: string)
    : (r: Option<ArchiveError>)
    requires relative in expected && (tree.Some? ==> relative in tree.value)
  {
    var e := expected[relative];
    if m.uid != 0 || m.gid != 0 || m.uname != "" || m.gname != "" || m.mtime != 0 || m.paxHeaders - {"path"} != {}
    then Some(NotDeterministic)
    else if m.size != e.size || m.mode != e.mode then Some(SizeOrMode)
    else if |m.data| != e.size || digests.sha256(m.data) != e.sha256 then Some(BytesDiffer)
    else if e.literal.Some? && m.data != e.literal.value then Some(AuthorityBytes)
    else if tree.Some? && tree.value[relative] != (GitMode(e.mode), digests.gitBlob(m.data)) then Some(TreeDiffers)
    else None
  }

  /** The path of a member below `prefix`; empty when it lies elsewhere. */
  function Relative(prefix: string, m: Member): (r: string) {
    if prefix <= m.name then m.name[|prefix|..] else []
  }

  ghost predicate GoodMember(
    digests: Digests, expected: map<string, Expectation>, tree: Option<GitTree>, prefix: string, m: Member)
    requires tree.Some? ==> tree.value.Keys == expected.Keys
  {
    var relative := Relative(prefix, m);
    m.isFile && prefix <= m.name && SafeRelative(relative) && relative in expected &&
    MemberFault(digests, expected, tree, m, relative).None?
  }

  function Paths(prefix: string, members: seq<Member>): (r: seq<string>)
    ensures |r| == |members|
    ensures forall i :: 0 <= i < |r| ==> r[i] == Relative(prefix, members[i])
  {
    seq(|members|, i requires 0 <= i < |members| => Relative(prefix, members[i]))
  }

  ghost predicate Distinct(s: seq<string>) {
    forall i, j :: 0 <= i < j < |s| ==> s[i] != s[j]
  }

  /** As many members as expected files, each a different expected file with its bytes and mode. */
  ghost predicate ExactMembers(
    digests: Digests, expected: map<string, Expectation>, tree: Option<GitTree>, prefix: string, members: seq<Member>)
    requires tree.Some? ==> tree.value.Keys == expected.Keys
  {
    |members| == |expected| && Distinct(Paths(prefix, members)) &&
    forall i :: 0 <= i < |members| ==> GoodMember(digests, expected, tree, prefix, members[i])
  }

  ghost predicate Exact(
    digests: Digests, manifest: Manifest, tree: Option<GitTree>, release: string, members: seq<Member>)
  {
    var expected := Expected(digests, manifest);
    (forall p :: p in manifest.files ==> RecordShape(manifest.files[p])) &&
    (tree.Some? ==> tree.value.Keys == expected.Keys) &&
    ExactMembers(digests, expected, tree, Prefix(release), members)
  }

  /** Pigeonhole: distinct keys, as many as there are, are all of them. */
  lemma DistinctFill(s: seq<string>, keys: set<string>)
    requires Distinct(s) && forall i :: 0 <= i < |s| ==> s[i] in keys
    ensures |s| <= |keys|
    ensures |s| == |keys| ==> (set p | p in s) == keys
  {
    if s == [] {
      assert |keys| == 0 ==> keys == {};
    } else {
      var front, last := s[..|s| - 1], s[|s| - 1];
      DistinctFill(front, keys - {last});
      assert s == front + [last];
      assert (set p | p in s) == (set p | p in front) + {last};
    }
  }

  method CheckMember(
    digests: Digests, expected: map<string, Expectation>, tree: Option<GitTree>, prefix: string,
    observed: set<string>, m: Member)
    returns (r: Result<string, ArchiveError>)
    requires tree.Some? ==> tree.value.Keys == expected.Keys
    ensures r.Ok? <==> (GoodMember(digests, expected, tree, prefix, m) && Relative(prefix, m) !in observed)
    ensures r.Ok? ==> r.value == Relative(prefix, m)
    ensures r != Err(Omitted)
  {
    if !m.isFile { return Err(NotRegular); }
    if !(prefix <= m.name) { return Err(WrongRoot); }
    var relative := m.name[|prefix|..];
    if !SafeRelative(relative) || relative in observed || relative !in expected { return Err(UnsafeOrExtra); }
    var fault := MemberFault(digests, expected, tree, m, relative);
    if fault.Some? { return Err(fault.value); }
    return Ok(relative);
  }

  /** One turn of the loop: the member is good and new, and is observed. */
  method Admit(
    digests: Digests, expected: map<string, Expectation>, tree: Option<GitTree>, prefix: string,
    observed: set<string>, m: Member, ghost paths: seq<string>, ghost i: nat)
    returns (r: Result<set<string>, ArchiveError>)
    requires tree.Some? ==> tree.value.Keys == expected.Keys
    requires i < |paths| && paths[i] == Relative(prefix, m) && Observes(paths, expected.Keys, observed, i)
    ensures r.Ok? ==>
              GoodMember(digests, expected, tree, prefix, m) && Observes(paths, expected.Keys, r.value, i + 1)
    ensures r.Err? ==> !GoodMember(digests, expected, tree, prefix, m) || !Distinct(paths)
    ensures r != Err(Omitted)
  {
    var checked := CheckMember(digests, expected, tree, prefix, observed, m);
    if checked.Err? {
      if paths[i] in observed { RepeatedPath(paths, i); }
      return Err(checked.error);
    }
    ObservesNext(paths, expected.Keys, observed, i);
    return Ok(observed + {checked.value});
  }

  method ValidateMembers(
    digests: Digests, expected: map<string, Expectation>, tree: Option<GitTree>, prefix: string, members: seq<Member>)
    returns (r: Result<(), ArchiveError>)
    requires tree.Some? ==> tree.value.Keys == expected.Keys
    ensures r.Ok? <==> ExactMembers(digests, expected, tree, prefix, members)
    ensures r != Err(Omitted)
  {
    if |members| != |expected| { return Err(CountDiffers); }
    var observed: set<string> := {};
    ghost var paths := Paths(prefix, members);
    for i := 0 to |members|
      invariant forall j :: 0 <= j < i ==> GoodMember(digests, expected, tree, prefix, members[j])
      invariant Observes(paths, expected.Keys, observed, i)
    {
      var next := Admit(digests, expected, tree, prefix, observed, members[i], paths, i);
      if next.Err? { return Err(next.error); }
      observed := next.value;
    }
    ObservesAll(paths, expected.Keys, observed);
    if observed != expected.Keys { return Err(Omitted); }
    return Ok(());
  }

  /** The first i paths are distinct, expected, and the observed ones. */
  ghost predicate Observes(paths: seq<string>, keys: set<string>, observed: set<string>, i: nat)
    requires i <= |paths|
  {
    observed == (set p | p in paths[..i]) && Distinct(paths[..i]) && observed <= keys
  }

  lemma ObservesNext(paths: seq<string>, keys: set<string>, observed: set<string>, i: nat)
    requires i < |paths| && Observes(paths, keys, observed, i) && paths[i] !in observed && paths[i] in keys
    ensures Observes(paths, keys, observed + {paths[i]}, i + 1)
  {
    assert paths[..i + 1] == paths[..i] + [paths[i]];
  }

  lemma ObservesAll(paths: seq<string>, keys: set<string>, observed: set<string>)
    requires Observes(paths, keys, observed, |paths|) && |paths| == |keys|
    ensures Distinct(paths) && observed == keys
  {
    assert paths[..|paths|] == paths;
    forall i | 0 <= i < |paths| ensures paths[i] in keys {
      assert paths[i] in observed;
    }
    DistinctFill(paths, keys);
  }

  lemma RepeatedPath(paths: seq<string>, i: nat)
    requires i < |paths| && paths[i] in (set p | p in paths[..i])
    ensures !Distinct(paths)
  {
    var k :| 0 <= k < i && paths[..i][k] == paths[i];
    assert paths[k] == paths[i];
  }

  /** Acceptance is exactness, and the last check, that nothing was omitted, never fires. */
  method ValidateReleaseArchive(
    digests: Digests, length: int, manifest: Manifest, tree: Option<GitTree>, release: string, members: seq<Member>)
    returns (r: Result<(), ArchiveError>)
    ensures r.Ok? <==>
              (1 <= length <= MAX_RELEASE_ARCHIVE_BYTES && Exact(digests, manifest, tree, release, members))
    ensures r != Err(Omitted)
  {
    if length < 1 || length > MAX_RELEASE_ARCHIVE_BYTES { return Err(BadLength); }
    if exists p :: p in manifest.files && !RecordShape(manifest.files[p]) { return Err(BadRecord); }
    var expected := Expected(digests, manifest);
    if tree.Some? && tree.value.Keys != expected.Keys { return Err(TreeInventory); }
    r := ValidateMembers(digests, expected, tree, Prefix(release), members);
  }

  // ---------- Exactness ----------

  /** The paths of an exact archive's members are the expected files, each once. */
  lemma ExactIsBijection(
    digests: Digests, expected: map<string, Expectation>, tree: Option<GitTree>, prefix: string, members: seq<Member>)
    requires tree.Some? ==> tree.value.Keys == expected.Keys
    requires ExactMembers(digests, expected, tree, prefix, members)
    ensures Distinct(Paths(prefix, members))
    ensures (set p | p in Paths(prefix, members)) == expected.Keys
  {
    DistinctFill(Paths(prefix, members), expected.Keys);
  }

  lemma GoodMembersAgree(
    digests: Digests, expected: map<string, Expectation>, tree: Option<GitTree>, prefix: string, a: Member, b: Member)
    requires tree.Some? ==> tree.value.Keys == expected.Keys
    requires Injective(digests.sha256)
    requires GoodMember(digests, expected, tree, prefix, a) && GoodMember(digests, expected, tree, prefix, b)
    requires Relative(prefix, a) == Relative(prefix, b)
    ensures a.name == b.name && a.data == b.data && a.mode == b.mode
  {
    assert a.name == prefix + Relative(prefix, a) && b.name == prefix + Relative(prefix, b);
  }

  lemma MatchingMember(
    digests: Digests, expected: map<string, Expectation>, tree: Option<GitTree>, prefix: string,
    a: seq<Member>, b: seq<Member>, i: nat)
    returns (j: nat)
    requires tree.Some? ==> tree.value.Keys == expected.Keys
    requires Injective(digests.sha256)
    requires ExactMembers(digests, expected, tree, prefix, a) && ExactMembers(digests, expected, tree, prefix, b)
    requires i < |a|
    ensures j < |b| && b[j].name == a[i].name && b[j].data == a[i].data && b[j].mode == a[i].mode
    ensures forall k :: 0 <= k < |b| && b[k].name == a[i].name ==> k == j
  {
    ExactIsBijection(digests, expected, tree, prefix, b);
    var paths := Paths(prefix, b);
    assert GoodMember(digests, expected, tree, prefix, a[i]);
    assert Relative(prefix, a[i]) in (set p | p in paths);
    j :| 0 <= j < |paths| && paths[j] == Relative(prefix, a[i]);
    GoodMembersAgree(digests, expected, tree, prefix, a[i], b[j]);
    forall k | 0 <= k < |b| && b[k].name == a[i].name ensures k == j {
      assert paths[k] == paths[j];
    }
  }

  /** Any two accepted archives of one manifest carry the same bytes and mode under every name. */
  lemma OneArchivePerManifest(
    digests: Digests, manifest: Manifest, tree: Option<GitTree>, release: string,
    a: seq<Member>, b: seq<Member>, i: nat)
    returns (j: nat)
    requires Injective(digests.sha256)
    requires Exact(digests, manifest, tree, release, a) && Exact(digests, manifest, tree, release, b)
    requires i < |a|
    ensures j < |b| && b[j].name == a[i].name && b[j].data == a[i].data && b[j].mode == a[i].mode
    ensures forall k :: 0 <= k < |b| && b[k].name == a[i].name ==> k == j
  {
    j := MatchingMember(digests, Expected(digests, manifest), tree, Prefix(release), a, b, i);
  }

  // ---------- The builder ----------

  /** What the builder reads: the repository file, or the manifest and signature it was given. */
  function Content(manifest: Manifest, repository: map<string, Bytes>, p: string): (r: Bytes) {
    if p == SIGNATURE_PATH then manifest.signature
    else if p == MANIFEST_PATH then manifest.data
    else if p in repository then repository[p] else []
  }

  function ContentMode(manifest: Manifest, p: string): (r: int) {
    if p == SIGNATURE_PATH || p == MANIFEST_PATH then MODE_FILE
    else if p in manifest.files then manifest.files[p].posixMode else 0
  }

  function MemberFor(manifest: Manifest, repository: map<string, Bytes>, prefix: string, p: string): (r: Member) {
    var data := Content(manifest, repository, p);
    Member(prefix + p, true, 0, 0, "", "", 0, {}, |data|, ContentMode(manifest, p), data)
  }

  /** `sorted(files)`: every path once. */
  ghost predicate Listing(order: seq<string>, keys: set<string>) {
    (set p | p in order) == keys && Distinct(order)
  }

  /** A line of `git ls-tree`. */
  datatype TreeEntry = TreeEntry(path: string, mode: string, kind: string, oid: string)

  datatype ClosureError = UnsupportedEntry | NoRecords | TreeDiffersFromManifest | FileDiffers | AuthorityDiffers

  function TreeOf(entries: seq<TreeEntry>): (r: GitTree) {
    if entries == [] then map[]
    else
      var last := entries[|entries| - 1];
      TreeOf(entries[..|entries| - 1])[last.path := (last.mode, last.oid)]
  }

  /** Only blobs, and no path twice. */
  ghost predicate PlainTree(entries: seq<TreeEntry>) {
    (forall i :: 0 <= i < |entries| ==> entries[i].kind == "blob") &&
    forall i, j :: 0 <= i < j < |entries| ==> entries[i].path != entries[j].path
  }

  lemma {:induction false} TreeOfHas(entries: seq<TreeEntry>, path: string)
    ensures path in TreeOf(entries) <==> exists i :: 0 <= i < |entries| && entries[i].path == path
  {
    if entries == [] {
    } else {
      var front := entries[..|entries| - 1];
      TreeOfHas(front, path);
      assert forall i :: 0 <= i < |front| ==> front[i] == entries[i];
    }
  }

  /** One file of `_verify_candidate_closure`: repository, manifest and Git tree agree. */
  predicate ClosedFile(
    digests: Digests, manifest: Manifest, repository: map<string, Bytes>, tree: GitTree, p: string)
    requires p in manifest.files
  {
    var record := manifest.files[p];
    p in repository && p in tree && |repository[p]| <= MAX_FILE_BYTES &&
    (record.posixMode == MODE_FILE || record.posixMode == MODE_EXECUTABLE) &&
    record.size == |repository[p]| && record.sha256 == digests.sha256(repository[p]) &&
    tree[p] == (GitMode(record.posixMode), digests.gitBlob(repository[p]))
  }

  /** The manifest or its signature: the given bytes, in the repository and in the Git tree. */
  predicate ClosedAuthority(digests: Digests, repository: map<string, Bytes>, tree: GitTree, p: string, data: Bytes) {
    p in repository && repository[p] == data && p in tree && tree[p] == ("100644", digests.gitBlob(data))
  }

  ghost predicate VerifiedClosure(
    digests: Digests, manifest: Manifest, repository: map<string, Bytes>, tree: GitTree)
  {
    manifest.files != map[] && tree.Keys == Expected(digests, manifest).Keys &&
    (forall p :: p in manifest.files ==> ClosedFile(digests, manifest, repository, tree, p)) &&
    ClosedAuthority(digests, repository, tree, MANIFEST_PATH, manifest.data) &&
    ClosedAuthority(digests, repository, tree, SIGNATURE_PATH, manifest.signature)
  }

  method ReadTree(entries: seq<TreeEntry>) returns (tree: Option<GitTree>)
    ensures tree == if PlainTree(entries) then Some(TreeOf(entries)) else None
  {
    var read: GitTree := map[];
    for i := 0 to |entries|
      invariant PlainTree(entries[..i]) && read == TreeOf(entries[..i])
    {
      var e := entries[i];
      TreeOfHas(entries[..i], e.path);
      if e.kind != "blob" || e.path in read { return None; }
      assert entries[..i + 1][..i] == entries[..i];
      read := read[e.path := (e.mode, e.oid)];
    }
    assert entries[..|entries|] == entries;
    return Some(read);
  }

  /** Accepts exactly the verified closures of plain trees. */
  method VerifyCandidateClosure(
    digests: Digests, manifest: Manifest, repository: map<string, Bytes>, entries: seq<TreeEntry>)
    returns (r: Result<GitTree, ClosureError>)
    ensures r.Ok? <==> PlainTree(entries) && VerifiedClosure(digests, manifest, repository, TreeOf(entries))
    ensures r.Ok? ==> r.value == TreeOf(entries)
  {
    var read := ReadTree(entries);
    if read.None? { return Err(UnsupportedEntry); }
    var tree := read.value;
    if manifest.files == map[] { return Err(NoRecords); }
    if tree.Keys != Expected(digests, manifest).Keys { return Err(TreeDiffersFromManifest); }
    var rest := manifest.files.Keys;
    while rest != {}
      invariant rest <= manifest.files.Keys
      invariant forall p :: p in manifest.files && p !in rest ==> ClosedFile(digests, manifest, repository, tree, p)
      decreases |rest|
    {
      var p :| p in rest;
      if !ClosedFile(digests, manifest, repository, tree, p) { return Err(FileDiffers); }
      rest := rest - {p};
    }
    if !ClosedAuthority(digests, repository, tree, MANIFEST_PATH, manifest.data) ||
       !ClosedAuthority(digests, repository, tree, SIGNATURE_PATH, manifest.signature)
    {
      return Err(AuthorityDiffers);
    }
    return Ok(tree);
  }

  /** Reads every file, or fails, and writes one member for each path in the given order. */
  method BuildReleaseArchive(
    digests: Digests, manifest: Manifest, repository: map<string, Bytes>, release: string, order: seq<string>)
    returns (r: Option<seq<Member>>)
    requires Listing(order, Expected(digests, manifest).Keys)
    ensures r.Some? <==> forall p :: p in manifest.files ==> p in repository && |repository[p]| <= MAX_FILE_BYTES
    ensures r.Some? ==> Built(manifest, repository, Prefix(release), order, r.value)
  {
    if exists p :: p in manifest.files && !(p in repository && |repository[p]| <= MAX_FILE_BYTES) { return None; }
    var files := map p | p in manifest.files :: (repository[p], manifest.files[p].posixMode);
    files := files[MANIFEST_PATH := (manifest.data, MODE_FILE)];
    files := files[SIGNATURE_PATH := (manifest.signature, MODE_FILE)];
    var members: seq<Member> := [];
    for i := 0 to |order|
      invariant |members| == i
      invariant forall j :: 0 <= j < i ==> members[j] == MemberFor(manifest, repository, Prefix(release), order[j])
    {
      assert order[i] in (set p | p in order);
      assert order[i] in Expected(digests, manifest).Keys;
      assert order[i] in files;
      var (data, mode) := files[order[i]];
      members := members +
        [Member(Prefix(release) + order[i], true, 0, 0, "", "", 0, {}, |data|, mode, data)];
    }
    return Some(members);
  }

  ghost predicate Built(
    manifest: Manifest, repository: map<string, Bytes>, prefix: string, order: seq<string>, members: seq<Member>)
  {
    |members| == |order| &&
    forall i :: 0 <= i < |members| ==> members[i] == MemberFor(manifest, repository, prefix, order[i])
  }

  lemma RelativeOfConcat(prefix: string, p: string, m: Member)
    requires m.name == prefix + p
    ensures prefix <= m.name && Relative(prefix, m) == p
  {
    assert m.name[|prefix|..] == p;
  }

  lemma BuiltMemberHasNoFault(
    digests: Digests, expected: map<string, Expectation>, tree: GitTree, m: Member, p: string)
    requires p in expected && p in tree
    requires m == Member(m.name, true, 0, 0, "", "", 0, {}, |m.data|, expected[p].mode, m.data)
    requires expected[p].size == |m.data| && expected[p].sha256 == digests.sha256(m.data)
    requires expected[p].literal.Some? ==> expected[p].literal.value == m.data
    requires tree[p] == (GitMode(expected[p].mode), digests.gitBlob(m.data))
    ensures MemberFault(digests, expected, Some(tree), m, p).None?
  {
    assert m.paxHeaders - {"path"} == {};
  }

  /** What a verified closure says of each expected file's content. */
  lemma ClosureContent(
    digests: Digests, manifest: Manifest, repository: map<string, Bytes>, tree: GitTree, p: string)
    requires VerifiedClosure(digests, manifest, repository, tree) && p in Expected(digests, manifest)
    ensures p in tree
    ensures var e, data := Expected(digests, manifest)[p], Content(manifest, repository, p);
            e.size == |data| && e.sha256 == digests.sha256(data) && e.mode == ContentMode(manifest, p) &&
            (e.literal.Some? ==> e.literal.value == data) &&
            tree[p] == (GitMode(e.mode), digests.gitBlob(data))
  {
    if p != MANIFEST_PATH && p != SIGNATURE_PATH {
      assert ClosedFile(digests, manifest, repository, tree, p);
    }
  }

  lemma MemberForIsGood(
    digests: Digests, manifest: Manifest, repository: map<string, Bytes>, tree: GitTree,
    expected: map<string, Expectation>, prefix: string, p: string)
    requires expected == Expected(digests, manifest) && VerifiedClosure(digests, manifest, repository, tree)
    requires p in expected
    ensures Relative(prefix, MemberFor(manifest, repository, prefix, p)) == p
    ensures GoodMember(digests, expected, Some(tree), prefix, MemberFor(manifest, repository, prefix, p)) <==>
            SafeRelative(p)
  {
    var m := MemberFor(manifest, repository, prefix, p);
    RelativeOfConcat(prefix, p, m);
    ClosureContent(digests, manifest, repository, tree, p);
    BuiltMemberHasNoFault(digests, expected, tree, m, p);
  }

  /** The records of a verified closure have the shape the client asks for. */
  lemma ClosureHasRecordShape(
    digests: Digests, manifest: Manifest, repository: map<string, Bytes>, tree: GitTree, p: string)
    requires VerifiedClosure(digests, manifest, repository, tree) && p in manifest.files
    ensures RecordShape(manifest.files[p])
  {
    assert ClosedFile(digests, manifest, repository, tree, p);
  }

  /** When the members' paths are a listing, exactness is decided file by file. */
  lemma ListedMembersExactIff(
    digests: Digests, expected: map<string, Expectation>, tree: Option<GitTree>, prefix: string,
    order: seq<string>, members: seq<Member>, safe: string -> bool)
    requires tree.Some? ==> tree.value.Keys == expected.Keys
    requires Listing(order, expected.Keys) && Paths(prefix, members) == order
    requires forall i :: 0 <= i < |members| ==>
               (GoodMember(digests, expected, tree, prefix, members[i]) <==> safe(order[i]))
    ensures ExactMembers(digests, expected, tree, prefix, members) <==> forall p :: p in expected ==> safe(p)
  {
    Sequences.CountsAsSetIsDistinct(order);
    forall i | 0 <= i < |order| ensures order[i] in expected {
      assert order[i] in (set p | p in order);
    }
    forall p | p in expected ensures exists i :: 0 <= i < |order| && order[i] == p {
      assert p in (set q | q in order);
    }
  }

  lemma BuiltMembersExactIff(
    digests: Digests, manifest: Manifest, repository: map<string, Bytes>, tree: GitTree,
    expected: map<string, Expectation>, prefix: string, order: seq<string>, members: seq<Member>)
    requires expected == Expected(digests, manifest) && VerifiedClosure(digests, manifest, repository, tree)
    requires Listing(order, expected.Keys) && Built(manifest, repository, prefix, order, members)
    ensures ExactMembers(digests, expected, Some(tree), prefix, members) <==>
            forall p :: p in expected ==> SafeRelative(p)
  {
    forall i | 0 <= i < |order|
      ensures Relative(prefix, members[i]) == order[i]
      ensures GoodMember(digests, expected, Some(tree), prefix, members[i]) <==> SafeRelative(order[i])
    {
      assert order[i] in (set p | p in order);
      MemberForIsGood(digests, manifest, repository, tree, expected, prefix, order[i]);
    }
    assert Paths(prefix, members) == order;
    ListedMembersExactIff(digests, expected, Some(tree), prefix, order, members, p => SafeRelative(p));
  }

  /** For a verified closure the client accepts the built archive exactly when every path is safe. */
  lemma BuiltArchiveAcceptedIff(
    digests: Digests, manifest: Manifest, repository: map<string, Bytes>, tree: GitTree, release: string,
    order: seq<string>, members: seq<Member>)
    requires VerifiedClosure(digests, manifest, repository, tree)
    requires Listing(order, Expected(digests, manifest).Keys)
    requires Built(manifest, repository, Prefix(release), order, members)
    ensures Exact(digests, manifest, Some(tree), release, members) <==>
            (forall p :: p in Expected(digests, manifest) ==> SafeRelative(p))
  {
    BuiltMembersExactIff(
      digests, manifest, repository, tree, Expected(digests, manifest), Prefix(release), order, members);
    forall p | p in manifest.files ensures RecordShape(manifest.files[p]) {
      ClosureHasRecordShape(digests, manifest, repository, tree, p);
    }
  }
}
