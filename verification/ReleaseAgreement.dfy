/**
 Clients that share nothing but the first root payload: separate checkpoint files, separate machines, each with
 its own sequence of committed verifications.
 */
module ReleaseAgreement {
  import opened Functions
  import opened Outcomes
  import opened ReleaseArtifacts
  import opened RootCheckpoint
  import opened RootSplice
  import opened TrustRoot

  import ReleaseArchive

  /** Every root of the chain has a majority root role, and a majority release role, whose keys sign no rivals. */
  ghost predicate HonestChain(crypto: Crypto, chain: seq<Envelope>) {
    forall i :: 0 <= i < |chain| && chain[i].signed.RootMetadata? ==> HonestRoles(crypto, chain[i].signed.root)
  }

  ghost predicate HonestRoles(crypto: Crypto, root: Root) {
    HonestMajority(crypto, root) && 2 * root.releaseRole.threshold > |root.releaseRole.keyids| &&
    forall k :: k in root.releaseRole.keyids && k in root.keys ==> Faithful(crypto, root.keys[k], RELEASE_NAMESPACE)
  }

  /** Both clients' committed runs, from one first root payload. */
  ghost predicate SameOrigin(crypto: Crypto, a: seq<Run>, b: seq<Run>) {
    CommittedRuns(crypto, a) && CommittedRuns(crypto, b) && a != [] && b != [] &&
    a[0].initial.signed == b[0].initial.signed && Injective(crypto.envelopeDigest) &&
    HonestChain(crypto, SplicedChain(a))
  }

  lemma SplicesAgree(crypto: Crypto, a: seq<Envelope>, b: seq<Envelope>, i: nat)
    requires RootChain(crypto, a) && RootChain(crypto, b) && a[0].signed == b[0].signed && HonestChain(crypto, a)
    requires i < |a| && i < |b|
    ensures a[i].signed == b[i].signed
  {
    NoForkFromSameRoot(crypto, a, b, i);
  }

  /** The chains of two clients never fork: they agree on the root payload of every version both have reached. */
  lemma ClientsNeverFork(crypto: Crypto, a: seq<Run>, b: seq<Run>, i: nat)
    requires SameOrigin(crypto, a, b) && i < |SplicedChain(a)| && i < |SplicedChain(b)|
    ensures SplicedChain(a)[i].signed == SplicedChain(b)[i].signed
  {
    SegmentsSplice(crypto, a);
    SegmentsSplice(crypto, b);
    SplicesAgree(crypto, SplicedChain(a), SplicedChain(b), i);
  }

  lemma StatementsAgree(crypto: Crypto, s: Envelope, t: Envelope, x: Envelope, y: Envelope)
    requires Authorized(crypto, s, x) && Authorized(crypto, t, y) && x.signed == y.signed
    requires HonestRoles(crypto, x.signed.root) && ReleaseSequence(s) == ReleaseSequence(t)
    ensures s.signed == t.signed
  {
    var root := x.signed.root;
    QuorumsAgree(crypto, s, t, root, root.releaseRole, RELEASE_NAMESPACE);
  }

  /** The root of a client's splice that authorized its statement. */
  lemma StatementOnSplice(crypto: Crypto, runs: seq<Run>, k: nat, version: int, first: int, chain: seq<Envelope>)
    returns (i: nat)
    requires CommittedRuns(crypto, runs) && Injective(crypto.envelopeDigest) && k < |runs|
    requires chain == SplicedChain(runs)
    requires runs[k].statement.signed.ReleaseStatement? && runs[k].statement.signed.statement.rootVersion == version
    requires first == Version(runs[0].initial)
    ensures i == version - first && i < |chain| && Authorized(crypto, runs[k].statement, chain[i])
  {
    ReleasesAuthorizedBySplice(crypto, runs, k);
    i := version - first;
  }

  /** Two clients' accepted statements of one release sequence under one root version carry the same payload. */
  lemma ClientsAgreeOnReleases(crypto: Crypto, a: seq<Run>, b: seq<Run>, j: nat, k: nat, x: Release, y: Release)
    requires SameOrigin(crypto, a, b) && j < |a| && k < |b|
    requires a[j].statement.signed == ReleaseStatement(x) && b[k].statement.signed == ReleaseStatement(y)
    requires x.releaseSequence == y.releaseSequence && x.rootVersion == y.rootVersion
    ensures x == y
  {
    var first := Version(a[0].initial);
    var m := StatementOnSplice(crypto, a, j, x.rootVersion, first, SplicedChain(a));
    var n := StatementOnSplice(crypto, b, k, y.rootVersion, first, SplicedChain(b));
    ClientsNeverFork(crypto, a, b, m);
    StatementsAgree(crypto, a[j].statement, b[k].statement, SplicedChain(a)[m], SplicedChain(b)[n]);
  }

  /** And then both captured the same artifacts and saw the same archive members and Git tree. */
  lemma ClientsSeeOneRelease(
    crypto: Crypto, a: seq<Run>, b: seq<Run>, j: nat, k: nat, x: Release, y: Release, here: World, there: World,
    now: int, later: int, f: Finding, g: Finding)
    requires SameOrigin(crypto, a, b) && j < |a| && k < |b|
    requires a[j].statement.signed == ReleaseStatement(x) && Matches(here, x, now, f)
    requires b[k].statement.signed == ReleaseStatement(y) && Matches(there, y, later, g)
    requires x.releaseSequence == y.releaseSequence && x.rootVersion == y.rootVersion
    requires here.digests == there.digests && here.formats == there.formats && Injective(here.digests.sha256)
    ensures here.files == there.files && f.members == g.members
    ensures ReleaseArchive.TreeOf(f.entries) == ReleaseArchive.TreeOf(g.entries)
  {
    ClientsAgreeOnReleases(crypto, a, b, j, k, x, y);
    OneReleasePerStatement(here, there, x, now, later, f, g);
  }
}
