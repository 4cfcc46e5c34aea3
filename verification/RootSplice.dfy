/**
 The root segments verified by separate runs that share one checkpoint form a single chain.
 */
module RootSplice {
  import opened Functions
  import opened RootCheckpoint
  import opened Splicing
  import opened TrustRoot

  ghost function Segments(runs: seq<Run>): (r: seq<seq<Envelope>>)
    ensures |r| == |runs| && forall i :: 0 <= i < |r| ==> r[i] == Roots(runs[i])
  {
    seq(|runs|, i requires 0 <= i < |runs| => Roots(runs[i]))
  }

  /** Where each run's chain passes its predecessor's final version. */
  ghost function Meets(runs: seq<Run>): (r: seq<int>) {
    seq(|runs|, i requires 0 <= i < |runs| =>
      if i == 0 then 0 else Version(Final(runs[i - 1])) - Version(runs[i].initial))
  }

  /** The first run's chain, then from every later run the roots its predecessor had not reached. */
  ghost function SplicedChain(runs: seq<Run>): (r: seq<Envelope>) {
    Splice(Segments(runs), Meets(runs))
  }

  ghost function Rotation(crypto: Crypto): (r: (Envelope, Envelope) -> bool) {
    (a, b) => Rotates(crypto, a, b)
  }

  lemma ChainIsLinked(crypto: Crypto, chain: seq<Envelope>)
    requires RootChain(crypto, chain)
    ensures ParsesAsRoot(crypto, chain[0]) && Linked(Rotation(crypto), chain)
  {
    assert LinkAt(crypto, chain, 0);
    forall i, j | 0 <= i < j < |chain| && j == i + 1 ensures Rotates(crypto, chain[i], chain[j]) {
      assert LinkAt(crypto, chain, j);
    }
  }

  lemma LinkedIsChain(crypto: Crypto, chain: seq<Envelope>)
    requires chain != [] && ParsesAsRoot(crypto, chain[0]) && Linked(Rotation(crypto), chain)
    ensures RootChain(crypto, chain)
  {
    assert forall i :: 0 < i < |chain| ==> Rotation(crypto)(chain[i - 1], chain[i]);
  }

  /** A committed run contains its predecessor's final root, at the checkpointed version. */
  lemma FollowsMeets(crypto: Crypto, a: Run, b: Run, meet: int)
    requires Injective(crypto.envelopeDigest) && Follows(crypto, a, b)
    requires meet == Version(Final(a)) - Version(b.initial)
    ensures MeetsAt(Roots(a), Roots(b), meet)
  {
  }

  lemma RunHasChain(crypto: Crypto, runs: seq<Run>, i: nat)
    requires i < |runs| && RunAt(crypto, runs, i)
    ensures RootChain(crypto, Roots(runs[i])) && (i > 0 ==> Follows(crypto, runs[i - 1], runs[i]))
  {
  }

  lemma RunMeets(crypto: Crypto, runs: seq<Run>, i: nat)
    requires Injective(crypto.envelopeDigest) && i < |runs| && RunAt(crypto, runs, i)
    ensures Linked(Rotation(crypto), Roots(runs[i]))
    ensures i > 0 ==> MeetsAt(Roots(runs[i - 1]), Roots(runs[i]), Meets(runs)[i])
  {
    RunHasChain(crypto, runs, i);
    ChainIsLinked(crypto, Roots(runs[i]));
    if i > 0 {
      FollowsMeets(crypto, runs[i - 1], runs[i], Meets(runs)[i]);
    }
  }

  lemma SegmentFrom<T(!new)>(
    rel: (T, T) -> bool, segments: seq<seq<T>>, meets: seq<int>, i: nat, before: seq<T>, segment: seq<T>)
    requires i < |segments| == |meets| && segments[i] == segment != [] && Linked(rel, segment)
    requires i > 0 ==> segments[i - 1] == before && MeetsAt(before, segment, meets[i])
    ensures SegmentAt(rel, segments, meets, i)
  {
  }

  lemma RunSegment(
    crypto: Crypto, runs: seq<Run>, i: nat, rotation: (Envelope, Envelope) -> bool,
    segments: seq<seq<Envelope>>, meets: seq<int>)
    requires Injective(crypto.envelopeDigest) && i < |runs| && RunAt(crypto, runs, i) && rotation == Rotation(crypto)
    requires segments == Segments(runs) && meets == Meets(runs)
    ensures SegmentAt(rotation, segments, meets, i)
  {
    RunMeets(crypto, runs, i);
    SegmentFrom(rotation, segments, meets, i, Roots(runs[if i > 0 then i - 1 else 0]), Roots(runs[i]));
  }

  lemma CommittedRunsMeet(crypto: Crypto, runs: seq<Run>, rotation: (Envelope, Envelope) -> bool)
    requires CommittedRuns(crypto, runs) && runs != [] && Injective(crypto.envelopeDigest)
    requires rotation == Rotation(crypto)
    ensures Meet(rotation, Segments(runs), Meets(runs))
  {
    var segments, meets := Segments(runs), Meets(runs);
    forall i | 0 <= i < |runs| ensures SegmentAt(rotation, segments, meets, i) {
      assert RunAt(crypto, runs, i);
      RunSegment(crypto, runs, i, rotation, segments, meets);
    }
  }

  lemma FirstRootParses(crypto: Crypto, runs: seq<Run>)
    requires CommittedRuns(crypto, runs) && runs != []
    ensures ParsesAsRoot(crypto, runs[0].initial)
  {
    assert RunAt(crypto, runs, 0);
  }

  /** The splice as a sequence linked by rotation. */
  lemma SpliceSpans(
    crypto: Crypto, runs: seq<Run>, rotation: (Envelope, Envelope) -> bool, spliced: seq<Envelope>)
    requires CommittedRuns(crypto, runs) && runs != [] && Injective(crypto.envelopeDigest)
    requires rotation == Rotation(crypto) && spliced == SplicedChain(runs)
    ensures Spans(rotation, spliced, runs[0].initial, Final(runs[|runs| - 1]))
  {
    CommittedRunsMeet(crypto, runs, rotation);
    SpliceLinked(rotation, Segments(runs), Meets(runs));
  }

  /**
   All verified segments splice into one chain, from the first run's initial root to the last
   run's final root: consecutive versions, each authorized by the old and the new threshold.
   */
  lemma SegmentsSplice(crypto: Crypto, runs: seq<Run>)
    requires CommittedRuns(crypto, runs) && runs != [] && Injective(crypto.envelopeDigest)
    ensures RootChain(crypto, SplicedChain(runs))
    ensures SplicedChain(runs)[0] == runs[0].initial
    ensures SplicedChain(runs)[|SplicedChain(runs)| - 1] == Final(runs[|runs| - 1])
  {
    var spliced := SplicedChain(runs);
    SpliceSpans(crypto, runs, Rotation(crypto), spliced);
    FirstRootParses(crypto, runs);
    LinkedIsChain(crypto, spliced);
  }

  lemma RunEndsOnSplice(crypto: Crypto, runs: seq<Run>, k: nat) returns (i: nat)
    requires CommittedRuns(crypto, runs) && Injective(crypto.envelopeDigest) && k < |runs|
    ensures i < |SplicedChain(runs)| && SplicedChain(runs)[i] == Final(runs[k])
  {
    CommittedRunsMeet(crypto, runs, Rotation(crypto));
    i := SegmentEndOnSplice(Rotation(crypto), Segments(runs), Meets(runs), k);
  }

  lemma VersionIsIndex(crypto: Crypto, chain: seq<Envelope>, i: nat, first: Envelope, e: Envelope)
    requires RootChain(crypto, chain) && i < |chain| && chain[0] == first && chain[i] == e
    ensures i == Version(e) - Version(first)
  {
    ChainVersions(crypto, chain, i);
  }

  /** Every run's final root is the spliced chain's root of that version. */
  lemma FinalRootsOnSplice(crypto: Crypto, runs: seq<Run>, k: nat)
    requires CommittedRuns(crypto, runs) && Injective(crypto.envelopeDigest) && k < |runs|
    ensures var i := Version(Final(runs[k])) - Version(runs[0].initial);
            0 <= i < |SplicedChain(runs)| && SplicedChain(runs)[i] == Final(runs[k])
  {
    SegmentsSplice(crypto, runs);
    var i := RunEndsOnSplice(crypto, runs, k);
    VersionIsIndex(crypto, SplicedChain(runs), i, runs[0].initial, Final(runs[k]));
  }

  lemma OnSplice(crypto: Crypto, runs: seq<Run>, k: nat, final: Envelope, chain: seq<Envelope>)
    returns (i: nat)
    requires CommittedRuns(crypto, runs) && Injective(crypto.envelopeDigest) && k < |runs|
    requires final == Final(runs[k]) && chain == SplicedChain(runs)
    ensures i == Version(final) - Version(runs[0].initial) && i < |chain| && chain[i] == final
  {
    FinalRootsOnSplice(crypto, runs, k);
    i := Version(final) - Version(runs[0].initial);
  }

  lemma RunAuthorized(crypto: Crypto, runs: seq<Run>, k: nat)
    requires CommittedRuns(crypto, runs) && k < |runs|
    ensures Authorized(crypto, runs[k].statement, Final(runs[k]))
    ensures runs[k].statement.signed.ReleaseStatement? &&
            runs[k].statement.signed.statement.rootVersion == Version(Final(runs[k]))
  {
    assert RunAt(crypto, runs, k);
  }

  /** Every accepted release was threshold-signed under the spliced chain's root of its version. */
  lemma ReleasesAuthorizedBySplice(crypto: Crypto, runs: seq<Run>, k: nat)
    requires CommittedRuns(crypto, runs) && Injective(crypto.envelopeDigest) && k < |runs|
    ensures runs[k].statement.signed.ReleaseStatement?
    ensures var i := runs[k].statement.signed.statement.rootVersion - Version(runs[0].initial);
            0 <= i < |SplicedChain(runs)| && Authorized(crypto, runs[k].statement, SplicedChain(runs)[i])
  {
    RunAuthorized(crypto, runs, k);
    var i := OnSplice(crypto, runs, k, Final(runs[k]), SplicedChain(runs));
  }
}
