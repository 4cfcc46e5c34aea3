/**
 Release indexes and freshness checkpoints: what a client accepts
 (bootstrap/idc_verify_fresh.py, `parse_index` and `validate_checkpoint`).
 */
module FreshnessIndex {
  import opened Outcomes
  import opened SequenceNumbers
  import opened Sequences

  const MAX_CLOCK_SKEW_SECONDS := 300
  const MAX_INDEX_LIFETIME_SECONDS := 31 * 24 * 60 * 60

  datatype Entry = Entry(
    release: string,
    manifestSequence: int,
    manifestSHA256: string,
    verifierSHA256: string,
    launcherSHA256: string,
    gitCommit: string)

  /** Times are whole seconds. */
  datatype Index = Index(indexSequence: int, generatedAt: int, validUntil: int, releases: seq<Entry>)

  datatype Checkpoint = Checkpoint(indexSequence: int, indexSHA256: string, releases: seq<Entry>)

  datatype FreshnessError =
    | BadSequence | BadEntry | FromTheFuture | Expired | EmptyWindow | WindowTooLong
    | NoReleases | Unordered | DuplicateName
    | BootstrapMismatch | Replayed | Equivocated | HistoryRewritten

  // ---------- Decoding checks ----------

  predicate ValidEntry(e: Entry) {
    PositiveInt(e.manifestSequence)
  }

  function ManifestSequences(releases: seq<Entry>): (r: seq<int>) {
    seq(|releases|, i requires 0 <= i < |releases| => releases[i].manifestSequence)
  }

  function Names(releases: seq<Entry>): (r: seq<string>) {
    seq(|releases|, i requires 0 <= i < |releases| => releases[i].release)
  }

  /** `values == sorted(values)` */
  predicate Ascending(values: seq<int>) {
    forall i, j :: 0 <= i < j < |values| ==> values[i] <= values[j]
  }

  function ParseIndex(raw: Index, now: int): (r: Result<Index, FreshnessError>)
  {
    if !PositiveInt(raw.indexSequence) then Err(BadSequence)
    else if raw.generatedAt > now + MAX_CLOCK_SKEW_SECONDS then Err(FromTheFuture)
    else if raw.validUntil <= now then Err(Expired)
    else if raw.validUntil <= raw.generatedAt then Err(EmptyWindow)
    else if raw.validUntil - raw.generatedAt > MAX_INDEX_LIFETIME_SECONDS then Err(WindowTooLong)
    else if raw.releases == [] then Err(NoReleases)
    else if exists i :: 0 <= i < |raw.releases| && !ValidEntry(raw.releases[i]) then Err(BadEntry)
    else if !Ascending(ManifestSequences(raw.releases)) || !CountsAsSet(ManifestSequences(raw.releases))
    then Err(Unordered)
    else if !CountsAsSet(Names(raw.releases)) then Err(DuplicateName)
    else Ok(raw)
  }

  // ---------- What an accepted history is ----------

  /** Entries in strictly increasing manifest-sequence order. */
  ghost predicate Ordered(releases: seq<Entry>) {
    forall i, j :: 0 <= i < j < |releases| ==> releases[i].manifestSequence < releases[j].manifestSequence
  }

  ghost predicate DistinctNames(releases: seq<Entry>) {
    forall i, j :: 0 <= i < j < |releases| ==> releases[i].release != releases[j].release
  }

  /** A nonempty history that can stand in a release index. */
  ghost predicate History(releases: seq<Entry>) {
    releases != [] &&
    (forall i :: 0 <= i < |releases| ==> ValidEntry(releases[i])) &&
    Ordered(releases) && DistinctNames(releases)
  }

  /** Made at most five minutes ahead of the clock, not expired, and valid for at most 31 days. */
  ghost predicate LiveWindow(index: Index, now: int) {
    index.generatedAt <= now + 300 && now < index.validUntil && 0 < index.validUntil - index.generatedAt <= 2678400
  }

  /** The sort-and-count checks of the parser decide exactly the live, strictly ordered histories. */
  lemma ParseIndexDecides(raw: Index, now: int)
    ensures ParseIndex(raw, now).Ok? <==>
              PositiveInt(raw.indexSequence) && LiveWindow(raw, now) && History(raw.releases)
    ensures ParseIndex(raw, now).Ok? ==> ParseIndex(raw, now).value == raw
  {
    CountsAsSetIsDistinct(ManifestSequences(raw.releases));
    CountsAsSetIsDistinct(Names(raw.releases));
    var sequences, names := ManifestSequences(raw.releases), Names(raw.releases);
    if Ascending(sequences) && CountsAsSet(sequences) {
      forall i, j | 0 <= i < j < |raw.releases|
        ensures raw.releases[i].manifestSequence < raw.releases[j].manifestSequence
      {
        assert sequences[i] <= sequences[j] && sequences[i] != sequences[j];
      }
      assert Ordered(raw.releases);
    }
    if Ordered(raw.releases) {
      assert Ascending(sequences);
      assert CountsAsSet(sequences);
    }
    if CountsAsSet(names) {
      forall i, j | 0 <= i < j < |raw.releases|
        ensures raw.releases[i].release != raw.releases[j].release
      {
        assert names[i] != names[j];
      }
    }
  }

  // ---------- Checkpoint validation ----------

  function CheckpointValue(index: Index, digest: string): (r: Checkpoint) {
    Checkpoint(index.indexSequence, digest, index.releases)
  }

  /** `{entry["manifestSequence"]: entry for entry in releases}`: a later duplicate wins. */
  function BySequence(releases: seq<Entry>): (r: map<int, Entry>) {
    if releases == [] then map[]
    else
      var last := releases[|releases| - 1];
      BySequence(releases[..|releases| - 1])[last.manifestSequence := last]
  }

  function ValidateCheckpoint(
    previous: Option<Checkpoint>, index: Index, digest: string, bootstrap: string)
    : (r: Result<(), FreshnessError>)
  {
    match previous
    case None => if digest != bootstrap then Err(BootstrapMismatch) else Ok(())
    case Some(prior) =>
      var current := BySequence(index.releases);
      if index.indexSequence < prior.indexSequence then Err(Replayed)
      else if index.indexSequence == prior.indexSequence && digest != prior.indexSHA256 then Err(Equivocated)
      else if exists i :: 0 <= i < |prior.releases| &&
                          !(prior.releases[i].manifestSequence in current &&
                            current[prior.releases[i].manifestSequence] == prior.releases[i])
      then Err(HistoryRewritten)
      else Ok(())
  }

  /** `index` may follow an accepted checkpoint: nothing goes back, nothing accepted is lost. */
  ghost predicate Follows(prior: Checkpoint, index: Index, digest: string) {
    prior.indexSequence <= index.indexSequence &&
    (prior.indexSequence == index.indexSequence ==> prior.indexSHA256 == digest) &&
    forall e :: e in prior.releases ==> e in index.releases
  }

  lemma {:induction false} BySequenceFinds(releases: seq<Entry>)
    requires Ordered(releases)
    ensures forall i :: 0 <= i < |releases| ==>
              releases[i].manifestSequence in BySequence(releases) &&
              BySequence(releases)[releases[i].manifestSequence] == releases[i]
    ensures forall s :: s in BySequence(releases) ==>
              BySequence(releases)[s] in releases && BySequence(releases)[s].manifestSequence == s
  {
    if releases == [] {
    } else {
      var front := releases[..|releases| - 1];
      BySequenceFinds(front);
      assert forall i :: 0 <= i < |front| ==> releases[i] == front[i];
    }
  }

  /**
   A first run accepts exactly the index pinned as its bootstrap. After a checkpoint, and for an ordered index,
   the dictionary lookup is exactly membership of every accepted entry, and each refusal has its own reason.
   */
  lemma ValidateCheckpointDecides(previous: Option<Checkpoint>, index: Index, digest: string, bootstrap: string)
    requires Ordered(index.releases)
    ensures ValidateCheckpoint(previous, index, digest, bootstrap).Ok? <==>
            if previous.None? then digest == bootstrap else Follows(previous.value, index, digest)
    ensures ValidateCheckpoint(previous, index, digest, bootstrap) == Err(BootstrapMismatch) <==>
            previous.None? && digest != bootstrap
    ensures ValidateCheckpoint(previous, index, digest, bootstrap) == Err(Replayed) <==>
            previous.Some? && index.indexSequence < previous.value.indexSequence
    ensures ValidateCheckpoint(previous, index, digest, bootstrap) == Err(Equivocated) <==>
            previous.Some? && index.indexSequence == previous.value.indexSequence &&
            digest != previous.value.indexSHA256
  {
    if previous.Some? { LookupDecides(previous.value, index, digest, bootstrap); }
  }

  lemma LookupDecides(prior: Checkpoint, index: Index, digest: string, bootstrap: string)
    requires Ordered(index.releases)
    ensures ValidateCheckpoint(Some(prior), index, digest, bootstrap).Ok? <==> Follows(prior, index, digest)
  {
    BySequenceFinds(index.releases);
    var current := BySequence(index.releases);
    forall i | 0 <= i < |prior.releases|
      ensures (prior.releases[i].manifestSequence in current &&
               current[prior.releases[i].manifestSequence] == prior.releases[i]) <==>
              prior.releases[i] in index.releases
    {
    }
    if ValidateCheckpoint(Some(prior), index, digest, bootstrap).Ok? {
      forall e | e in prior.releases ensures e in index.releases {
        var i :| 0 <= i < |prior.releases| && prior.releases[i] == e;
      }
    }
  }

  // ---------- Whole runs of accepted writes ----------

  datatype Accepted = Accepted(index: Index, digest: string)

  ghost function Written(a: Accepted): Checkpoint {
    CheckpointValue(a.index, a.digest)
  }

  ghost predicate AcceptedAfter(prior: Accepted, a: Accepted) {
    exists bootstrap :: ValidateCheckpoint(Some(Written(prior)), a.index, a.digest, bootstrap).Ok?
  }

  /** Checkpoint writes in lock order: each parsed, each validated against the one before it. */
  ghost predicate AcceptedRun(run: seq<Accepted>) {
    (forall i :: 0 <= i < |run| ==> History(run[i].index.releases)) &&
    (forall i, j :: 0 <= i < j < |run| && j == i + 1 ==> AcceptedAfter(run[i], run[j]))
  }

  function Newest(index: Index): (r: Entry)
    requires index.releases != []
  {
    index.releases[|index.releases| - 1]
  }

  /** `b` keeps everything `a` established. */
  ghost predicate Keeps(a: Accepted, b: Accepted)
    requires a.index.releases != [] && b.index.releases != []
  {
    a.index.indexSequence <= b.index.indexSequence &&
    (a.index.indexSequence == b.index.indexSequence ==> a.digest == b.digest) &&
    (forall e :: e in a.index.releases ==> e in b.index.releases) &&
    Newest(a.index).manifestSequence <= Newest(b.index).manifestSequence
  }

  lemma NewestIsGreatest(releases: seq<Entry>, e: Entry)
    requires Ordered(releases) && e in releases
    ensures e.manifestSequence <= releases[|releases| - 1].manifestSequence
  {
    var i :| 0 <= i < |releases| && releases[i] == e;
  }

  lemma FollowsKeeps(a: Accepted, b: Accepted)
    requires History(a.index.releases) && History(b.index.releases)
    ensures Keeps(a, b) <==> Follows(Written(a), b.index, b.digest)
  {
    if Follows(Written(a), b.index, b.digest) {
      assert Newest(a.index) in b.index.releases;
      NewestIsGreatest(b.index.releases, Newest(a.index));
    }
  }

  lemma AcceptedAfterKeeps(a: Accepted, b: Accepted)
    requires History(a.index.releases) && History(b.index.releases)
    ensures AcceptedAfter(a, b) <==> Keeps(a, b)
  {
    FollowsKeeps(a, b);
    if AcceptedAfter(a, b) {
      var bootstrap :| ValidateCheckpoint(Some(Written(a)), b.index, b.digest, bootstrap).Ok?;
      LookupDecides(Written(a), b.index, b.digest, bootstrap);
    }
    if Keeps(a, b) {
      LookupDecides(Written(a), b.index, b.digest, "");
    }
  }

  /** Between any two writes of a run, not just adjacent ones, accepted history only grows. */
  lemma HistoryOnlyGrows(run: seq<Accepted>, i: nat, j: nat)
    requires AcceptedRun(run) && i <= j < |run|
    ensures Keeps(run[i], run[j])
    decreases j - i
  {
    if i == j {
    } else {
      HistoryOnlyGrows(run, i, j - 1);
      AcceptedAfterKeeps(run[j - 1], run[j]);
    }
  }

  // ---------- Backfilling ----------

  /** No entry of `b` that is new sits below the newest entry of `a`. */
  ghost predicate OnlyNewer(a: seq<Entry>, b: seq<Entry>)
    requires a != []
  {
    forall e :: e in b && e !in a ==> e.manifestSequence > a[|a| - 1].manifestSequence
  }

  lemma NextIsShared(a: seq<Entry>, b: seq<Entry>, k: nat)
    requires a != [] && Ordered(a) && Ordered(b) && OnlyNewer(a, b)
    requires forall e :: e in a ==> e in b
    requires k < |a| && k <= |b| && (forall i :: 0 <= i < k ==> a[i] == b[i])
    ensures k < |b| && b[k] == a[k]
  {
    var p :| 0 <= p < |b| && b[p] == a[k];
    if k < p {
      assert b[k] in b;
    }
  }

  lemma PrefixWhenOnlyNewer(a: seq<Entry>, b: seq<Entry>, k: nat)
    requires a != [] && Ordered(a) && Ordered(b) && OnlyNewer(a, b)
    requires forall e :: e in a ==> e in b
    requires k <= |a|
    ensures k <= |b| && forall i :: 0 <= i < k ==> a[i] == b[i]
  {
    if k == 0 {
    } else {
      PrefixWhenOnlyNewer(a, b, k - 1);
      NextIsShared(a, b, k - 1);
    }
  }

  /** An accepted successor keeps the prior history as a prefix exactly when it backfills nothing. */
  lemma PrefixIffNothingBackfilled(a: Accepted, b: Accepted)
    requires History(a.index.releases) && History(b.index.releases) && AcceptedAfter(a, b)
    ensures a.index.releases <= b.index.releases <==> OnlyNewer(a.index.releases, b.index.releases)
  {
    AcceptedAfterKeeps(a, b);
    var prior, new' := a.index.releases, b.index.releases;
    if OnlyNewer(prior, new') {
      PrefixWhenOnlyNewer(prior, new', |prior|);
      assert prior[..|prior|] == prior;
    }
    if prior <= new' {
      forall e | e in new' && e !in prior
        ensures e.manifestSequence > prior[|prior| - 1].manifestSequence
      {
        var i :| 0 <= i < |new'| && new'[i] == e;
        assert i >= |prior|;
        assert new'[|prior| - 1] == prior[|prior| - 1];
      }
    }
  }

  /** The client does accept an index that inserts an entry below accepted ones. */
  lemma BackfillIsAccepted(first: Entry, inserted: Entry, last: Entry, a: Accepted, b: Accepted)
    requires History([first, inserted, last])
    requires a.index.releases == [first, last] && b.index.releases == [first, inserted, last]
    requires a.index.indexSequence < b.index.indexSequence
    ensures AcceptedAfter(a, b) && !(a.index.releases <= b.index.releases)
  {
    var whole := b.index.releases;
    assert whole[0].manifestSequence < whole[1].manifestSequence < whole[2].manifestSequence;
    assert whole[0].release != whole[2].release;
    assert ValidEntry(whole[0]) && ValidEntry(whole[2]);
    assert History(a.index.releases);
    AcceptedAfterKeeps(a, b);
    assert whole[1] != a.index.releases[1];
  }
}
