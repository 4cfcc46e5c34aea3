/**
 The persistent root checkpoint that ties separate external verifications together
 (scripts/trust_root.py, `validate_root_checkpoint`; scripts/verify_external_root.py, `main`).
 */
module RootCheckpoint {
  import opened Functions
  import opened Outcomes
  import ReleaseArchive
  import opened ReleaseArtifacts
  import opened SequenceNumbers
  import opened TrustRoot

  datatype Checkpoint = Checkpoint(
    version: int, rootSHA256: string, releaseSequence: int, signedStatementSHA256: string)

  /** The root files and the release statement of one verification. */
  datatype Run = Run(initial: Envelope, updates: seq<Envelope>, statement: Envelope)

  function Roots(run: Run): (r: seq<Envelope>) {
    [run.initial] + run.updates
  }

  function Final(run: Run): (r: Envelope) {
    Roots(run)[|run.updates|]
  }

  /** The release sequence a statement carries; 0, which none has, for any other payload. */
  function ReleaseSequence(e: Envelope): (r: int) {
    if e.signed.ReleaseStatement? then e.signed.statement.releaseSequence else 0
  }

  function CheckpointFor(crypto: Crypto, final: Envelope, statement: Envelope): (r: Checkpoint) {
    Checkpoint(Version(final), crypto.envelopeDigest(final),
               ReleaseSequence(statement), crypto.signedDigest(statement.signed))
  }

  function ValidateRootCheckpoint(
    crypto: Crypto, previous: Option<Checkpoint>, final: Envelope,
    verified: map<int, Envelope>, statement: Envelope)
    : (r: Result<Checkpoint, TrustError>)
  {
    var next := CheckpointFor(crypto, final, statement);
    match previous
    case None => Ok(next)
    case Some(c) =>
      if next.version < c.version then Err(CheckpointRootRollback)
      else if next.version != c.version && c.version !in verified then Err(CheckpointVersionAbsent)
      else if crypto.envelopeDigest(if next.version == c.version then final else verified[c.version]) != c.rootSHA256
      then Err(CheckpointRootEquivocation)
      else if next.releaseSequence < c.releaseSequence then Err(ReleaseRollback)
      else if next.releaseSequence == c.releaseSequence && next.signedStatementSHA256 != c.signedStatementSHA256
      then Err(ReleaseEquivocation)
      else Ok(next)
  }

  // ---------- What one verification accepts ----------

  /** The checkpointed root is on the run's chain, and neither root nor release goes back or forks. */
  ghost predicate Compatible(crypto: Crypto, c: Checkpoint, run: Run) {
    var first := Version(run.initial);
    first <= c.version < first + |Roots(run)| &&
    crypto.envelopeDigest(Roots(run)[c.version - first]) == c.rootSHA256 &&
    c.releaseSequence <= ReleaseSequence(run.statement) &&
    (c.releaseSequence == ReleaseSequence(run.statement) ==>
       c.signedStatementSHA256 == crypto.signedDigest(run.statement.signed))
  }

  /** For a verified chain the branches of the check decide exactly compatibility. */
  lemma ValidateRootCheckpointDecides(crypto: Crypto, previous: Option<Checkpoint>, run: Run)
    requires RootChain(crypto, Roots(run))
    ensures ValidateRootCheckpoint(crypto, previous, Final(run), ByVersion(Roots(run)), run.statement).Ok? <==>
              (previous.Some? ==> Compatible(crypto, previous.value, run))
    ensures (previous.Some? ==> Compatible(crypto, previous.value, run)) ==>
              ValidateRootCheckpoint(crypto, previous, Final(run), ByVersion(Roots(run)), run.statement)
              == Ok(CheckpointFor(crypto, Final(run), run.statement))
  {
    ChainVersions(crypto, Roots(run), |run.updates|);
    if previous.Some? {
      ByVersionFinds(crypto, Roots(run), previous.value.version);
    }
  }

  predicate StatementShape(e: Envelope) {
    EnvelopeShape(e) && e.signed.ReleaseStatement? &&
    var release := e.signed.statement;
    PositiveInt(release.releaseSequence) && PositiveInt(release.rootVersion) && release.git.tag == release.release &&
    Complete(release) && forall name :: name in release.artifacts ==> PositiveInt(release.artifacts[name].size)
  }

  /** The release role of `final` authorizes `statement` for `final`'s own version. */
  ghost predicate Authorized(crypto: Crypto, statement: Envelope, final: Envelope) {
    ParsesAsRoot(crypto, final) && StatementShape(statement) &&
    statement.signed.statement.rootVersion == Version(final) &&
    MeetsThreshold(crypto, statement, final.signed.root, final.signed.root.releaseRole, RELEASE_NAMESPACE)
  }

  ghost predicate SelfAuthorized(crypto: Crypto, e: Envelope) {
    ParsesAsRoot(crypto, e) &&
    MeetsThreshold(crypto, e, e.signed.root, e.signed.root.rootRole, ROOT_NAMESPACE)
  }

  ghost predicate Verified(crypto: Crypto, run: Run) {
    SelfAuthorized(crypto, run.initial) && RootChain(crypto, Roots(run)) &&
    Authorized(crypto, run.statement, Final(run))
  }

  ghost predicate Accepts(
    crypto: Crypto, previous: Option<Checkpoint>, run: Run, world: World, now: int)
  {
    Verified(crypto, run) && ChainAccepted(crypto, Roots(run), now) &&
    run.statement.signed.statement.expires > now &&
    (previous.Some? ==> Compatible(crypto, previous.value, run)) &&
    ArtifactsMatch(world, run.statement.signed.statement, now)
  }

  /** The statement is the final root's, live, signed by the release threshold, and what it names is what is found. */
  method VerifyReleaseStatement(crypto: Crypto, statement: Envelope, final: Envelope, world: World, now: int)
    returns (fault: Option<TrustError>)
    requires ParsesAsRoot(crypto, final) && StatementShape(statement)
    ensures fault.None? <==>
              Authorized(crypto, statement, final) && statement.signed.statement.expires > now &&
              ArtifactsMatch(world, statement.signed.statement, now)
  {
    var root, release := final.signed.root, statement.signed.statement;
    if release.rootVersion != root.version { return Some(RootVersionDiffers); }
    if release.expires <= now { return Some(ExpiredRelease); }
    var authorized := VerifyRoleThreshold(
      crypto, statement, root, root.releaseRole, RELEASE_NAMESPACE, "release");
    if authorized.Err? { return Some(authorized.error); }
    var found := VerifyArtifacts(world, release, now);
    return if found.Err? then Some(ArtifactsDiffer) else None;
  }

  /** `load_trusted_root`, after its file checks. */
  method LoadTrustedRoot(crypto: Crypto, initial: Envelope) returns (fault: Option<TrustError>)
    ensures fault.None? <==> SelfAuthorized(crypto, initial)
  {
    if !EnvelopeShape(initial) { return Some(BadEnvelope); }
    if !initial.signed.RootMetadata? || !RootShape(crypto, initial.signed.root) { return Some(BadRoot); }
    var root := initial.signed.root;
    var selfSigned := VerifyRoleThreshold(crypto, initial, root, root.rootRole, ROOT_NAMESPACE, "initial root");
    return if selfSigned.Err? then Some(selfSigned.error) else None;
  }

  /** The trusted root and its updates: the final root and the table of verified ones. */
  method VerifyRoots(crypto: Crypto, run: Run, now: int) returns (r: Result<(Envelope, map<int, Envelope>), TrustError>)
    ensures r.Ok? <==> SelfAuthorized(crypto, run.initial) && ChainAccepted(crypto, Roots(run), now)
    ensures r.Ok? ==> r.value == (Final(run), ByVersion(Roots(run)))
  {
    var fault := LoadTrustedRoot(crypto, run.initial);
    if fault.Some? { return Err(fault.value); }
    r := VerifyRootChain(crypto, run.initial, run.updates, now);
  }

  /** The statement's shape, then the checkpoint. */
  method CheckStatement(crypto: Crypto, previous: Option<Checkpoint>, run: Run, verified: map<int, Envelope>)
    returns (r: Result<Checkpoint, TrustError>)
    requires RootChain(crypto, Roots(run)) && verified == ByVersion(Roots(run))
    ensures r.Ok? <==>
              StatementShape(run.statement) && (previous.Some? ==> Compatible(crypto, previous.value, run))
    ensures r.Ok? ==> r.value == CheckpointFor(crypto, Final(run), run.statement)
  {
    if !EnvelopeShape(run.statement) { return Err(BadEnvelope); }
    if !StatementShape(run.statement) { return Err(BadRelease); }
    ValidateRootCheckpointDecides(crypto, previous, run);
    r := ValidateRootCheckpoint(crypto, previous, Final(run), verified, run.statement);
  }

  /** The root chain, the checkpoint, then the release statement with its artifacts. */
  method VerifyExternalRelease(
    crypto: Crypto, previous: Option<Checkpoint>, run: Run, world: World, now: int)
    returns (r: Result<Checkpoint, TrustError>)
    ensures r.Ok? <==> Accepts(crypto, previous, run, world, now)
    ensures r.Ok? ==> r.value == CheckpointFor(crypto, Final(run), run.statement)
  {
    var roots := VerifyRoots(crypto, run, now);
    if roots.Err? { return Err(roots.error); }
    var (final, verified) := roots.value;
    r := CheckStatement(crypto, previous, run, verified);
    if r.Err? { return; }
    ChainVersions(crypto, Roots(run), |run.updates|);
    var fault := VerifyReleaseStatement(crypto, run.statement, final, world, now);
    if fault.Some? { return Err(fault.value); }
  }

  // ---------- Runs that share a checkpoint file ----------

  ghost predicate Follows(crypto: Crypto, a: Run, b: Run) {
    Compatible(crypto, CheckpointFor(crypto, Final(a), a.statement), b)
  }

  /** Runs in lock order: each verified, each validated against its predecessor's checkpoint. */
  ghost predicate CommittedRuns(crypto: Crypto, runs: seq<Run>) {
    forall i {:trigger RunAt(crypto, runs, i)} :: 0 <= i < |runs| ==> RunAt(crypto, runs, i)
  }

  ghost predicate RunAt(crypto: Crypto, runs: seq<Run>, i: int)
    requires 0 <= i < |runs|
  {
    Verified(crypto, runs[i]) && (i > 0 ==> Follows(crypto, runs[i - 1], runs[i]))
  }

  lemma CommittedSnoc(crypto: Crypto, runs: seq<Run>, run: Run)
    requires CommittedRuns(crypto, runs) && Verified(crypto, run)
    requires runs != [] ==> Follows(crypto, runs[|runs| - 1], run)
    ensures CommittedRuns(crypto, runs + [run])
  {
    forall i | 0 <= i < |runs| ensures RunAt(crypto, runs + [run], i) {
      assert RunAt(crypto, runs, i);
    }
    assert RunAt(crypto, runs + [run], |runs|);
  }

  /** The checkpoint is that of the last committed run. */
  ghost predicate Records(crypto: Crypto, stored: Option<Checkpoint>, runs: seq<Run>) {
    CommittedRuns(crypto, runs) &&
    stored == if runs == [] then None
              else Some(CheckpointFor(crypto, Final(runs[|runs| - 1]), runs[|runs| - 1].statement))
  }

  lemma RecordsSnoc(crypto: Crypto, stored: Option<Checkpoint>, runs: seq<Run>, run: Run)
    requires Records(crypto, stored, runs) && Verified(crypto, run)
    requires stored.Some? ==> Compatible(crypto, stored.value, run)
    ensures Records(crypto, Some(CheckpointFor(crypto, Final(run), run.statement)), runs + [run])
  {
    CommittedSnoc(crypto, runs, run);
  }

  /** The checkpoint file, read and replaced by one verification at a time under its lock. */
  class CheckpointFile {
    const crypto: Crypto
    var stored: Option<Checkpoint>
    ghost var runs: seq<Run>

    ghost predicate Valid()
      reads this
    {
      Records(crypto, stored, runs)
    }

    constructor (crypto: Crypto)
      ensures Valid() && runs == [] && this.crypto == crypto
    {
      this.crypto := crypto;
      stored := None;
      runs := [];
    }

    /** The read, verify and replace transaction; a failure after the replacement still committed. */
    method Verify(run: Run, world: World, now: int, outcome: ReplaceOutcome)
      returns (r: Result<Checkpoint, TrustError>)
      requires Valid()
      modifies this
      ensures Valid()
      ensures var accepted := Accepts(crypto, old(stored), run, world, now);
              (r.Ok? <==> accepted && outcome == Replaced) &&
              runs == if accepted && outcome != NotReplaced then old(runs) + [run] else old(runs)
      ensures r.Ok? ==> stored == Some(r.value)
    {
      r := VerifyExternalRelease(crypto, stored, run, world, now);
      if r.Err? { return; }
      if outcome == NotReplaced { return Err(WriteFailed); }
      RecordsSnoc(crypto, stored, runs, run);
      stored := Some(r.value);
      runs := runs + [run];
      if outcome == ReplacedThenFailed { return Err(WriteFailed); }
    }
  }

  // ---------- Properties of every sequence of committed runs ----------

  /** Between any two runs neither version nor release sequence falls, and equality admits no fork. */
  lemma RunsNeverGoBack(crypto: Crypto, runs: seq<Run>, i: nat, j: nat)
    requires CommittedRuns(crypto, runs) && i <= j < |runs|
    ensures Version(Final(runs[i])) <= Version(Final(runs[j]))
    ensures Version(Final(runs[i])) == Version(Final(runs[j])) ==>
              crypto.envelopeDigest(Final(runs[i])) == crypto.envelopeDigest(Final(runs[j]))
    ensures ReleaseSequence(runs[i].statement) <= ReleaseSequence(runs[j].statement)
    ensures ReleaseSequence(runs[i].statement) == ReleaseSequence(runs[j].statement) ==>
              crypto.signedDigest(runs[i].statement.signed) == crypto.signedDigest(runs[j].statement.signed)
    decreases j - i
  {
    if i == j {
    } else {
      RunsNeverGoBack(crypto, runs, i, j - 1);
      assert RunAt(crypto, runs, j);
      ChainVersions(crypto, Roots(runs[j]), |runs[j].updates|);
    }
  }

  /** Two runs with one release sequence carry the same signed payload. */
  lemma OnePayloadPerReleaseSequence(crypto: Crypto, runs: seq<Run>, i: nat, j: nat)
    requires CommittedRuns(crypto, runs) && i <= j < |runs| && Injective(crypto.signedDigest)
    requires ReleaseSequence(runs[i].statement) == ReleaseSequence(runs[j].statement)
    ensures runs[i].statement.signed == runs[j].statement.signed
  {
    RunsNeverGoBack(crypto, runs, i, j);
  }

  /**
   Two accepted runs of one release sequence, on whatever two machines, captured the same artifacts and saw
   the same Git tree.
   */
  lemma OneTreePerReleaseSequence(
    crypto: Crypto, runs: seq<Run>, i: nat, j: nat, x: Release, y: Release, a: World, b: World,
    now: int, later: int, f: Finding, g: Finding)
    requires CommittedRuns(crypto, runs) && i <= j < |runs| && Injective(crypto.signedDigest)
    requires ReleaseSequence(runs[i].statement) == ReleaseSequence(runs[j].statement)
    requires a.digests == b.digests && a.formats == b.formats && Injective(a.digests.sha256)
    requires runs[i].statement.signed == ReleaseStatement(x) && Matches(a, x, now, f)
    requires runs[j].statement.signed == ReleaseStatement(y) && Matches(b, y, later, g)
    ensures a.files == b.files && f.members == g.members &&
            ReleaseArchive.TreeOf(f.entries) == ReleaseArchive.TreeOf(g.entries)
  {
    OnePayloadPerReleaseSequence(crypto, runs, i, j);
    OneReleasePerStatement(a, b, x, now, later, f, g);
  }
}
