/**
 What one accepted external verification is (scripts/trust_root.py, `verify_external_release`), with purposes,
 bounds and artifact names written out, and which later verifications its checkpoint admits.
 */
module AcceptedRuns {
  import opened Outcomes
  import opened ReleaseArtifacts
  import opened RootCheckpoint
  import opened TrustRoot

  // ---------- Quorums ----------

  ghost predicate Signers(
    crypto: Crypto, e: Envelope, root: Root, role: Role, purpose: string, signers: set<string>)
  {
    forall k :: k in signers ==> k in role.keyids && k in root.keys && SignedBy(crypto, e, root.keys[k], k, purpose)
  }

  /** Enough different keys of the role signed the payload for this purpose. */
  ghost predicate SignedByQuorum(crypto: Crypto, e: Envelope, root: Root, role: Role, purpose: string) {
    exists signers: set<string> :: |signers| >= role.threshold && Signers(crypto, e, root, role, purpose, signers)
  }

  /** The threshold is met exactly when enough keys signed, and just enough are enough. */
  lemma SignedIff(crypto: Crypto, e: Envelope, root: Root, role: Role, purpose: string)
    requires RoleShape(role, root.keys)
    ensures MeetsThreshold(crypto, e, root, role, purpose) <==> SignedByQuorum(crypto, e, root, role, purpose)
  {
    var all := ValidSigners(crypto, e, root, role, purpose);
    assert Signers(crypto, e, root, role, purpose, all);
    if signers: set<string> :|
      |signers| >= role.threshold && Signers(crypto, e, root, role, purpose, signers)
    {
      assert signers <= all;
      SubsetCount(signers, all);
    }
  }

  // ---------- The chain ----------

  /** `next` is the next version, signed by a quorum of the root before it and by one of its own. */
  ghost predicate UpdateSigned(crypto: Crypto, before: Envelope, next: Envelope) {
    ParsesAsRoot(crypto, before) && ParsesAsRoot(crypto, next) &&
    var earlier, later := before.signed.root, next.signed.root;
    later.version == earlier.version + 1 &&
    SignedByQuorum(crypto, next, earlier, earlier.rootRole, "idc-skills-root-v1") &&
    SignedByQuorum(crypto, next, later, later.rootRole, "idc-skills-root-v1")
  }

  lemma RotatesIff(crypto: Crypto, before: Envelope, next: Envelope)
    ensures Rotates(crypto, before, next) <==> UpdateSigned(crypto, before, next)
  {
    if ParsesAsRoot(crypto, before) && ParsesAsRoot(crypto, next) {
      SignedIff(crypto, next, before.signed.root, before.signed.root.rootRole, "idc-skills-root-v1");
      SignedIff(crypto, next, next.signed.root, next.signed.root.rootRole, "idc-skills-root-v1");
    }
  }

  ghost predicate UpdatesSigned(crypto: Crypto, run: Run) {
    forall i :: 0 <= i < |run.updates| ==> UpdateSigned(crypto, Roots(run)[i], run.updates[i])
  }

  /** At most 32 updates from a self-signed root, each signed so. */
  ghost predicate ChainSigned(crypto: Crypto, run: Run) {
    |run.updates| <= 32 && ParsesAsRoot(crypto, run.initial) &&
    SignedByQuorum(crypto, run.initial, run.initial.signed.root, run.initial.signed.root.rootRole,
                   "idc-skills-root-v1") &&
    UpdatesSigned(crypto, run)
  }

  lemma ChainIff(crypto: Crypto, run: Run)
    ensures RootChain(crypto, Roots(run)) <==> ParsesAsRoot(crypto, run.initial) && UpdatesSigned(crypto, run)
  {
    forall i | 0 <= i < |run.updates|
      ensures LinkAt(crypto, Roots(run), i + 1) <==> UpdateSigned(crypto, Roots(run)[i], run.updates[i])
    {
      RotatesIff(crypto, Roots(run)[i], run.updates[i]);
    }
    if RootChain(crypto, Roots(run)) {
      assert LinkAt(crypto, Roots(run), 0);
      forall i | 0 <= i < |run.updates| ensures UpdateSigned(crypto, Roots(run)[i], run.updates[i]) {
        assert LinkAt(crypto, Roots(run), i + 1);
      }
    } else {
      var i :| 0 <= i < |Roots(run)| && !LinkAt(crypto, Roots(run), i);
      assert i > 0 ==> !UpdateSigned(crypto, Roots(run)[i - 1], run.updates[i - 1]);
    }
  }

  lemma SelfIff(crypto: Crypto, e: Envelope)
    ensures SelfAuthorized(crypto, e) <==>
            ParsesAsRoot(crypto, e) &&
            SignedByQuorum(crypto, e, e.signed.root, e.signed.root.rootRole, "idc-skills-root-v1")
  {
    if ParsesAsRoot(crypto, e) { SignedIff(crypto, e, e.signed.root, e.signed.root.rootRole, "idc-skills-root-v1"); }
  }

  lemma LastParses(crypto: Crypto, run: Run)
    requires RootChain(crypto, Roots(run))
    ensures ParsesAsRoot(crypto, Final(run))
  {
    ChainVersions(crypto, Roots(run), |run.updates|);
  }

  lemma ChainAcceptedIff(crypto: Crypto, run: Run, now: int)
    ensures SelfAuthorized(crypto, run.initial) && ChainAccepted(crypto, Roots(run), now) <==>
            ChainSigned(crypto, run) && Final(run).signed.RootMetadata? && Final(run).signed.root.expires > now
    ensures ChainSigned(crypto, run) ==> RootChain(crypto, Roots(run))
  {
    ChainIff(crypto, run);
    SelfIff(crypto, run.initial);
  }

  // ---------- The statement ----------

  /**
   The statement names the five artifacts and its own tag, is the last root's, and is signed for release by a quorum
   of that root.
   */
  ghost predicate StatementSigned(crypto: Crypto, statement: Envelope, last: Envelope) {
    SignaturesOk(statement) && statement.signed.ReleaseStatement? && last.signed.RootMetadata? &&
    var root, release := last.signed.root, statement.signed.statement;
    1 <= release.releaseSequence <= 9007199254740991 && 1 <= release.rootVersion <= 9007199254740991 &&
    release.rootVersion == root.version && release.git.tag == release.release &&
    release.artifacts.Keys == {"archive", "freshnessIndex", "installInventory", "manifest", "registry"} &&
    (forall name :: name in release.artifacts ==> 1 <= release.artifacts[name].size <= 9007199254740991) &&
    SignedByQuorum(crypto, statement, root, root.releaseRole, "idc-skills-release-statement-v1")
  }

  lemma AuthorizedIff(crypto: Crypto, statement: Envelope, last: Envelope)
    requires ParsesAsRoot(crypto, last)
    ensures Authorized(crypto, statement, last) <==> StatementSigned(crypto, statement, last)
  {
    EnvelopeShapeIff(statement);
    SignedIff(crypto, statement, last.signed.root, last.signed.root.releaseRole, "idc-skills-release-statement-v1");
  }

  // ---------- Acceptance ----------

  /** Acceptance, in full. */
  lemma AcceptsIff(crypto: Crypto, previous: Option<Checkpoint>, run: Run, world: World, now: int)
    ensures Accepts(crypto, previous, run, world, now) <==>
            ChainSigned(crypto, run) && StatementSigned(crypto, run.statement, Final(run)) &&
            Final(run).signed.root.expires > now && run.statement.signed.statement.expires > now &&
            (previous.Some? ==> Compatible(crypto, previous.value, run)) &&
            ArtifactsMatch(world, run.statement.signed.statement, now)
  {
    ChainAcceptedIff(crypto, run, now);
    if RootChain(crypto, Roots(run)) {
      LastParses(crypto, run);
      AuthorizedIff(crypto, run.statement, Final(run));
    }
  }

  // ---------- Later runs ----------

  /**
   The checkpoint of a verified run admits that run again, with any further updates, for the same statement
   and for any of a later release sequence.
   */
  lemma LaterIsCompatible(crypto: Crypto, run: Run, more: seq<Envelope>, statement: Envelope)
    requires RootChain(crypto, Roots(run)) && RootChain(crypto, Roots(Run(run.initial, run.updates + more, statement)))
    requires statement.signed == run.statement.signed || ReleaseSequence(statement) > ReleaseSequence(run.statement)
    ensures Compatible(crypto, CheckpointFor(crypto, Final(run), run.statement),
                       Run(run.initial, run.updates + more, statement))
  {
    var later := Run(run.initial, run.updates + more, statement);
    ChainVersions(crypto, Roots(run), |run.updates|);
    assert Roots(later)[|run.updates|] == Final(run);
  }
}
