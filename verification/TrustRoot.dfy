/**
 The threshold root chain (scripts/trust_root.py): role quorums, root rotation,
 and what two quorums of one role can and cannot sign apart.
 */
module TrustRoot {
  import opened Outcomes
  import opened SequenceNumbers
  import opened Sequences

  const ROOT_NAMESPACE := "idc-skills-root-v1"
  const RELEASE_NAMESPACE := "idc-skills-release-statement-v1"
  const MAX_SIGNATURES := 64
  const MAX_KEYS := 64
  const MAX_ROOT_UPDATES := 32

  datatype Key = Key(public: string)

  datatype Signature = Signature(keyid: string, sig: string)

  datatype Role = Role(keyids: seq<string>, threshold: int)

  datatype Root = Root(version: int, expires: int, keys: map<string, Key>, rootRole: Role, releaseRole: Role)

  datatype ArtifactRecord = ArtifactRecord(sha256: string, size: int)

  datatype GitIdentity = GitIdentity(commit: string, tag: string, tree: string)

  datatype ContentSigning = ContentSigning(fingerprint: string, publicKeySHA256: string, allowedSignersSHA256: string)

  datatype Release = Release(
    release: string, releaseSequence: int, rootVersion: int, expires: int,
    artifacts: map<string, ArtifactRecord>, git: GitIdentity, contentSigning: ContentSigning)

  datatype Signed = RootMetadata(root: Root) | ReleaseStatement(statement: Release)

  datatype Envelope = Envelope(signatures: seq<Signature>, signed: Signed)

  /**
   The primitives the verifier is built on: sshsig verification of a signed payload in a
   namespace, the digest of an envelope's bytes, of a payload's bytes, and of a key.
   */
  datatype Crypto = Crypto(
    valid: (Key, string, Signed, string) -> bool,
    envelopeDigest: Envelope -> string,
    signedDigest: Signed -> string,
    keyDigest: Key -> string)

  datatype TrustError =
    | BadEnvelope | BadRoot | BadRelease | TooManyUpdates | BelowThreshold(role: string)
    | RootRollback | RootEquivocation | DuplicateVersion | SkippedRotation | ExpiredRoot
    | CheckpointRootRollback | CheckpointVersionAbsent | CheckpointRootEquivocation
    | ReleaseRollback | ReleaseEquivocation
    | RootVersionDiffers | ExpiredRelease | ArtifactsDiffer | WriteFailed

  // ---------- Parsing ----------

  /** Between one and 64 signatures, no key id twice. */
  predicate EnvelopeShape(e: Envelope) {
    1 <= |e.signatures| <= MAX_SIGNATURES &&
    |(set s | s in e.signatures :: s.keyid)| == |e.signatures|
  }

  function KeyidSet(role: Role): (r: set<string>) {
    set k | k in role.keyids
  }

  predicate RoleShape(role: Role, keys: map<string, Key>) {
    role.keyids != [] &&
    |KeyidSet(role)| == |role.keyids| &&
    (forall k :: k in role.keyids ==> k in keys) &&
    PositiveInt(role.threshold) && role.threshold <= |role.keyids|
  }

  predicate RootShape(crypto: Crypto, root: Root) {
    PositiveInt(root.version) &&
    1 <= |root.keys| <= MAX_KEYS &&
    (forall k :: k in root.keys ==> crypto.keyDigest(root.keys[k]) == k) &&
    RoleShape(root.releaseRole, root.keys) &&
    RoleShape(root.rootRole, root.keys)
  }

  predicate ParsesAsRoot(crypto: Crypto, e: Envelope) {
    EnvelopeShape(e) && e.signed.RootMetadata? && RootShape(crypto, e.signed.root)
  }

  lemma KeyidCount(signatures: seq<Signature>)
    ensures |(set s | s in signatures :: s.keyid)| <= |signatures|
    ensures |(set s | s in signatures :: s.keyid)| == |signatures| <==>
            forall i, j :: 0 <= i < j < |signatures| ==> signatures[i].keyid != signatures[j].keyid
  {
    var ids := seq(|signatures|, i requires 0 <= i < |signatures| => signatures[i].keyid);
    CountsAsSetIsDistinct(ids);
    forall k ensures k in ids <==> k in (set s | s in signatures :: s.keyid) {
      if k in ids {
        var i :| 0 <= i < |ids| && ids[i] == k;
        assert signatures[i] in signatures;
      }
      if s :| s in signatures && s.keyid == k {
        var i :| 0 <= i < |signatures| && signatures[i] == s;
        assert ids[i] == k;
      }
    }
    assert (set s | s in signatures :: s.keyid) == set v | v in ids;
    assert forall i, j :: 0 <= i < j < |ids| ==> (ids[i] != ids[j] <==> signatures[i].keyid != signatures[j].keyid);
  }

  /** Between one and 64 signatures, by different key ids. */
  ghost predicate SignaturesOk(e: Envelope) {
    1 <= |e.signatures| <= 64 &&
    forall i, j :: 0 <= i < j < |e.signatures| ==> e.signatures[i].keyid != e.signatures[j].keyid
  }

  /** A nonempty list of different known keys, enough for the threshold, which is at least one. */
  ghost predicate RoleOk(role: Role, keys: map<string, Key>) {
    1 <= role.threshold <= |role.keyids| && role.threshold <= 9007199254740991 &&
    (forall i :: 0 <= i < |role.keyids| ==> role.keyids[i] in keys) &&
    forall i, j :: 0 <= i < j < |role.keyids| ==> role.keyids[i] != role.keyids[j]
  }

  lemma EnvelopeShapeIff(e: Envelope)
    ensures EnvelopeShape(e) <==> SignaturesOk(e)
  {
    KeyidCount(e.signatures);
  }

  lemma RoleShapeIff(role: Role, keys: map<string, Key>)
    ensures RoleShape(role, keys) <==> RoleOk(role, keys)
  {
    CountsAsSetIsDistinct(role.keyids);
    assert KeyidSet(role) == set v | v in role.keyids;
  }

  /** A root parses exactly when its signatures and both roles are in order, with 1 to 64 keys under their digests. */
  lemma ParsesAsRootIff(crypto: Crypto, e: Envelope)
    ensures ParsesAsRoot(crypto, e) <==>
            SignaturesOk(e) && e.signed.RootMetadata? &&
            var root := e.signed.root;
            1 <= root.version <= 9007199254740991 && 1 <= |root.keys| <= 64 &&
            (forall id :: id in root.keys ==> crypto.keyDigest(root.keys[id]) == id) &&
            RoleOk(root.rootRole, root.keys) && RoleOk(root.releaseRole, root.keys)
  {
    EnvelopeShapeIff(e);
    if e.signed.RootMetadata? {
      RoleShapeIff(e.signed.root.rootRole, e.signed.root.keys);
      RoleShapeIff(e.signed.root.releaseRole, e.signed.root.keys);
    }
  }

  // ---------- Role thresholds ----------

  /** The authorized key ids that validly sign the payload. */
  ghost function ValidSigners(
      crypto: Crypto, e: Envelope, root: Root, role: Role, namespace: string): (r: set<string>)
    requires RoleShape(role, root.keys)
  {
    set k | k in role.keyids && SignedBy(crypto, e, root.keys[k], k, namespace) :: k
  }

  ghost predicate SignedBy(crypto: Crypto, e: Envelope, key: Key, keyid: string, namespace: string) {
    exists i :: 0 <= i < |e.signatures| && e.signatures[i].keyid == keyid &&
                crypto.valid(key, namespace, e.signed, e.signatures[i].sig)
  }

  ghost predicate MeetsThreshold(crypto: Crypto, e: Envelope, root: Root, role: Role, namespace: string)
    requires RoleShape(role, root.keys)
  {
    |ValidSigners(crypto, e, root, role, namespace)| >= role.threshold
  }

  method VerifyRoleThreshold(
    crypto: Crypto, e: Envelope, root: Root, role: Role, namespace: string, purpose: string)
    returns (r: Result<set<string>, TrustError>)
    requires RoleShape(role, root.keys)
    ensures r == if MeetsThreshold(crypto, e, root, role, namespace)
                 then Ok(ValidSigners(crypto, e, root, role, namespace))
                 else Err(BelowThreshold(purpose))
  {
    var authorized := set k | k in role.keyids;
    var valid: set<string> := {};
    for i := 0 to |e.signatures|
      invariant forall k :: k in valid <==>
                  k in role.keyids &&
                  exists j :: 0 <= j < i && e.signatures[j].keyid == k &&
                              crypto.valid(root.keys[k], namespace, e.signed, e.signatures[j].sig)
    {
      var keyid := e.signatures[i].keyid;
      if keyid in authorized && crypto.valid(root.keys[keyid], namespace, e.signed, e.signatures[i].sig) {
        valid := valid + {keyid};
      }
    }
    assert valid == ValidSigners(crypto, e, root, role, namespace);
    if |valid| < role.threshold {
      return Err(BelowThreshold(purpose));
    }
    return Ok(valid);
  }

  lemma DistinctKeyCount(crypto: Crypto, keys: map<string, Key>, ids: set<string>)
    requires forall k :: k in ids ==> k in keys && crypto.keyDigest(keys[k]) == k
    ensures |(set k | k in ids :: keys[k])| == |ids|
  {
    if ids == {} {
    } else {
      var id :| id in ids;
      DistinctKeyCount(crypto, keys, ids - {id});
      var others := set k | k in ids - {id} :: keys[k];
      assert (set k | k in ids :: keys[k]) == others + {keys[id]};
      assert keys[id] !in others;
    }
  }

  /** Key ids are key digests, so a threshold counts distinct public keys, not mere names. */
  lemma ThresholdCountsKeys(crypto: Crypto, e: Envelope, root: Root, role: Role, namespace: string)
    requires RootShape(crypto, root) && RoleShape(role, root.keys)
    ensures var signers := ValidSigners(crypto, e, root, role, namespace);
            |(set k | k in signers :: root.keys[k])| == |signers|
  {
    DistinctKeyCount(crypto, root.keys, ValidSigners(crypto, e, root, role, namespace));
  }

  // ---------- Quorum intersection ----------

  lemma QuorumsOverlap(universe: set<string>, a: set<string>, b: set<string>)
    requires a <= universe && b <= universe
    ensures |a * b| >= |a| + |b| - |universe|
  {
    assert |a + b| == |a| + |b| - |a * b|;
    SubsetCount(a + b, universe);
  }

  lemma SubsetCount<T>(a: set<T>, b: set<T>)
    requires a <= b
    ensures |a| <= |b|
  {
    if a == {} {
    } else {
      var x :| x in a;
      SubsetCount(a - {x}, b - {x});
    }
  }

  /** At least 2t - n keys of a role validly signed both of any two payloads that meet its threshold. */
  lemma SharedSigners(
      crypto: Crypto, e1: Envelope, e2: Envelope, root: Root, role: Role, namespace: string)
    returns (shared: set<string>)
    requires RoleShape(role, root.keys)
    requires MeetsThreshold(crypto, e1, root, role, namespace)
    requires MeetsThreshold(crypto, e2, root, role, namespace)
    ensures |shared| >= 2 * role.threshold - |role.keyids|
    ensures forall k :: k in shared ==>
              k in root.keys && SignedBy(crypto, e1, root.keys[k], k, namespace) &&
              SignedBy(crypto, e2, root.keys[k], k, namespace)
  {
    var s1 := ValidSigners(crypto, e1, root, role, namespace);
    var s2 := ValidSigners(crypto, e2, root, role, namespace);
    shared := s1 * s2;
    QuorumsOverlap(KeyidSet(role), s1, s2);
  }

  /** `a` and `b` are two payloads of the same kind and version (for statements: release sequence). */
  ghost predicate Rivals(a: Signed, b: Signed) {
    match (a, b)
    case (RootMetadata(r), RootMetadata(s)) => r.version == s.version
    case (ReleaseStatement(r), ReleaseStatement(s)) => r.releaseSequence == s.releaseSequence
    case _ => false
  }

  /** `key` never validly signs two different rivals. */
  ghost predicate Faithful(crypto: Crypto, key: Key, namespace: string) {
    forall a, b, s, t :: Rivals(a, b) && crypto.valid(key, namespace, a, s) && crypto.valid(key, namespace, b, t) ==>
      a == b
  }

  /** A majority role whose keys never sign rivals cannot accept two different rival payloads. */
  lemma QuorumsAgree(
      crypto: Crypto, e1: Envelope, e2: Envelope, root: Root, role: Role, namespace: string)
    requires RoleShape(role, root.keys)
    requires MeetsThreshold(crypto, e1, root, role, namespace)
    requires MeetsThreshold(crypto, e2, root, role, namespace)
    requires 2 * role.threshold > |role.keyids| && Rivals(e1.signed, e2.signed)
    requires forall k :: k in role.keyids ==> Faithful(crypto, root.keys[k], namespace)
    ensures e1.signed == e2.signed
  {
    var s1 := ValidSigners(crypto, e1, root, role, namespace);
    var s2 := ValidSigners(crypto, e2, root, role, namespace);
    QuorumsOverlap(KeyidSet(role), s1, s2);
    var k :| k in s1 * s2;
    assert SignedBy(crypto, e1, root.keys[k], k, namespace);
    assert SignedBy(crypto, e2, root.keys[k], k, namespace);
  }

  ghost predicate Quorum(role: Role, s: set<string>) {
    |s| >= role.threshold && forall k :: k in s ==> k in role.keyids
  }

  lemma SizedSubset(s: set<string>, n: nat) returns (part: set<string>)
    requires n <= |s|
    ensures part <= s && |part| == n
  {
    if n == 0 {
      part := {};
    } else {
      var x :| x in s;
      part := SizedSubset(s - {x}, n - 1);
      part := part + {x};
    }
  }

  /** Every two quorums of a role meet exactly when the threshold is a strict majority. */
  lemma QuorumsMeetIffMajority(role: Role, keys: map<string, Key>)
    requires RoleShape(role, keys)
    ensures (forall a, b :: Quorum(role, a) && Quorum(role, b) ==> a * b != {}) <==>
            2 * role.threshold > |role.keyids|
  {
    var universe := KeyidSet(role);
    if 2 * role.threshold > |role.keyids| {
      forall a, b | Quorum(role, a) && Quorum(role, b) ensures a * b != {} {
        QuorumsOverlap(universe, a, b);
      }
    } else {
      var a := SizedSubset(universe, role.threshold);
      var b := universe - a;
      assert |b| == |universe| - |a|;
      assert Quorum(role, a) && Quorum(role, b) && a * b == {};
    }
  }

  // ---------- Root rotation ----------

  /** The root version an envelope carries; 0, which no root has, for any other payload. */
  function Version(e: Envelope): (r: int) {
    if e.signed.RootMetadata? then e.signed.root.version else 0
  }

  /** `b` is the next version after `a`, authorized by the old and by the new root threshold. */
  ghost predicate Rotates(crypto: Crypto, a: Envelope, b: Envelope) {
    ParsesAsRoot(crypto, a) && ParsesAsRoot(crypto, b) &&
    Version(b) == Version(a) + 1 &&
    MeetsThreshold(crypto, b, a.signed.root, a.signed.root.rootRole, ROOT_NAMESPACE) &&
    MeetsThreshold(crypto, b, b.signed.root, b.signed.root.rootRole, ROOT_NAMESPACE)
  }

  /** A nonempty chain of roots, each after the first a rotation of the one before it. */
  ghost predicate RootChain(crypto: Crypto, chain: seq<Envelope>) {
    chain != [] &&
    forall i {:trigger LinkAt(crypto, chain, i)} :: 0 <= i < |chain| ==> LinkAt(crypto, chain, i)
  }

  ghost predicate LinkAt(crypto: Crypto, chain: seq<Envelope>, i: int)
    requires 0 <= i < |chain|
  {
    if i == 0 then ParsesAsRoot(crypto, chain[0]) else Rotates(crypto, chain[i - 1], chain[i])
  }

  lemma ChainVersions(crypto: Crypto, chain: seq<Envelope>, i: nat)
    requires RootChain(crypto, chain) && i < |chain|
    ensures ParsesAsRoot(crypto, chain[i])
    ensures Version(chain[i]) == Version(chain[0]) + i
  {
    assert LinkAt(crypto, chain, i);
    if i == 0 {
    } else {
      ChainVersions(crypto, chain, i - 1);
    }
  }

  lemma ChainSnoc(crypto: Crypto, chain: seq<Envelope>, e: Envelope)
    requires chain != []
    ensures RootChain(crypto, chain + [e]) <==>
              RootChain(crypto, chain) && Rotates(crypto, chain[|chain| - 1], e)
  {
    var longer := chain + [e];
    forall i | 0 <= i < |chain| ensures LinkAt(crypto, longer, i) <==> LinkAt(crypto, chain, i) {
      assert longer[i] == chain[i];
    }
    assert LinkAt(crypto, longer, |chain|) <==> Rotates(crypto, chain[|chain| - 1], e);
    if RootChain(crypto, longer) {
      forall i | 0 <= i < |chain| ensures LinkAt(crypto, chain, i) {
        assert LinkAt(crypto, longer, i);
      }
    }
  }

  /** The verified envelopes of a chain, keyed by version: a later envelope replaces an earlier one. */
  function ByVersion(chain: seq<Envelope>): (r: map<int, Envelope>) {
    if chain == [] then map[]
    else
      var last := chain[|chain| - 1];
      ByVersion(chain[..|chain| - 1])[Version(last) := last]
  }

  ghost predicate Consecutive(chain: seq<Envelope>) {
    forall i :: 0 <= i < |chain| ==> Version(chain[i]) == Version(chain[0]) + i
  }

  lemma {:induction false} ByVersionOfConsecutive(chain: seq<Envelope>)
    requires Consecutive(chain)
    ensures forall i :: 0 <= i < |chain| ==>
              Version(chain[i]) in ByVersion(chain) && ByVersion(chain)[Version(chain[i])] == chain[i]
    ensures forall v :: v in ByVersion(chain) ==> chain != [] && Version(chain[0]) <= v < Version(chain[0]) + |chain|
  {
    if chain == [] {
    } else {
      var front := chain[..|chain| - 1];
      assert forall i :: 0 <= i < |front| ==> front[i] == chain[i];
      ByVersionOfConsecutive(front);
    }
  }

  /** For a verified chain nothing is replaced: version `first + i` names exactly envelope `i`. */
  lemma {:induction false} ByVersionFinds(crypto: Crypto, chain: seq<Envelope>, v: int)
    requires RootChain(crypto, chain)
    ensures var first := Version(chain[0]);
            if first <= v < first + |chain| then v in ByVersion(chain) && ByVersion(chain)[v] == chain[v - first]
            else v !in ByVersion(chain)
  {
    forall i | 0 <= i < |chain| ensures Version(chain[i]) == Version(chain[0]) + i {
      ChainVersions(crypto, chain, i);
    }
    ByVersionOfConsecutive(chain);
    var i := v - Version(chain[0]);
    if 0 <= i < |chain| {
      assert Version(chain[i]) == v;
    }
  }

  /** The checks `_verify_root_chain` makes on one update, in its order. */
  method VerifyRotation(crypto: Crypto, current: Envelope, candidate: Envelope) returns (fault: Option<TrustError>)
    requires ParsesAsRoot(crypto, current)
    ensures fault.None? <==> Rotates(crypto, current, candidate)
    ensures fault == Some(RootRollback) <==>
              ParsesAsRoot(crypto, candidate) && Version(candidate) < Version(current)
    ensures fault == Some(SkippedRotation) <==>
              ParsesAsRoot(crypto, candidate) && Version(candidate) > Version(current) + 1
    ensures fault == Some(RootEquivocation) <==>
              ParsesAsRoot(crypto, candidate) && Version(candidate) == Version(current) &&
              crypto.envelopeDigest(candidate) != crypto.envelopeDigest(current)
  {
    if !EnvelopeShape(candidate) { return Some(BadEnvelope); }
    if !candidate.signed.RootMetadata? || !RootShape(crypto, candidate.signed.root) { return Some(BadRoot); }
    var previous, version := current.signed.root.version, candidate.signed.root.version;
    if version < previous { return Some(RootRollback); }
    if version == previous {
      return Some(if crypto.envelopeDigest(candidate) != crypto.envelopeDigest(current)
                  then RootEquivocation else DuplicateVersion);
    }
    if version != previous + 1 { return Some(SkippedRotation); }
    var underOld := VerifyRoleThreshold(
      crypto, candidate, current.signed.root, current.signed.root.rootRole, ROOT_NAMESPACE, "old root");
    if underOld.Err? { return Some(underOld.error); }
    var underNew := VerifyRoleThreshold(
      crypto, candidate, candidate.signed.root, candidate.signed.root.rootRole, ROOT_NAMESPACE, "new root");
    if underNew.Err? { return Some(underNew.error); }
    return None;
  }

  ghost predicate ChainAccepted(crypto: Crypto, chain: seq<Envelope>, now: int) {
    |chain| <= MAX_ROOT_UPDATES + 1 && RootChain(crypto, chain) &&
    var last := chain[|chain| - 1];
    last.signed.RootMetadata? && last.signed.root.expires > now
  }

  method VerifyRootChain(crypto: Crypto, initial: Envelope, updates: seq<Envelope>, now: int)
    returns (r: Result<(Envelope, map<int, Envelope>), TrustError>)
    requires ParsesAsRoot(crypto, initial)
    ensures r.Ok? <==> ChainAccepted(crypto, [initial] + updates, now)
    ensures r.Ok? ==> r.value == (([initial] + updates)[|updates|], ByVersion([initial] + updates))
  {
    if |updates| > MAX_ROOT_UPDATES { return Err(TooManyUpdates); }
    var current := initial;
    var verified := map[initial.signed.root.version := initial];
    ghost var chain := [initial] + updates;
    for i := 0 to |updates|
      invariant current == chain[i] && ParsesAsRoot(crypto, current)
      invariant RootChain(crypto, chain[..i + 1])
      invariant verified == ByVersion(chain[..i + 1])
    {
      var candidate := updates[i];
      assert chain[..i + 2] == chain[..i + 1] + [candidate];
      assert chain[..i + 2][..i + 1] == chain[..i + 1];
      ChainSnoc(crypto, chain[..i + 1], candidate);
      var fault := VerifyRotation(crypto, current, candidate);
      assert RootChain(crypto, chain) ==> LinkAt(crypto, chain, i + 1);
      if fault.Some? { return Err(fault.value); }
      current := candidate;
      verified := verified[candidate.signed.root.version := candidate];
    }
    assert chain[..|updates| + 1] == chain;
    if current.signed.root.expires <= now { return Err(ExpiredRoot); }
    return Ok((current, verified));
  }

  /** Majority root roles whose keys never sign two different roots of one version. */
  ghost predicate HonestMajority(crypto: Crypto, root: Root) {
    2 * root.rootRole.threshold > |root.rootRole.keyids| &&
    forall k :: k in root.rootRole.keyids && k in root.keys ==> Faithful(crypto, root.keys[k], ROOT_NAMESPACE)
  }

  /** From one initial payload there is no fork: two verified chains agree on every common version. */
  lemma NoForkFromSameRoot(crypto: Crypto, a: seq<Envelope>, b: seq<Envelope>, i: nat)
    requires RootChain(crypto, a) && RootChain(crypto, b) && a[0].signed == b[0].signed
    requires i < |a| && i < |b|
    requires forall j :: 0 <= j < i && a[j].signed.RootMetadata? ==> HonestMajority(crypto, a[j].signed.root)
    ensures a[i].signed == b[i].signed
  {
    if i == 0 {
    } else {
      NoForkFromSameRoot(crypto, a, b, i - 1);
      assert LinkAt(crypto, a, i) && LinkAt(crypto, b, i);
      var root := a[i - 1].signed.root;
      QuorumsAgree(crypto, a[i], b[i], root, root.rootRole, ROOT_NAMESPACE);
    }
  }
}
