/**
 The publisher's release-index builder (scripts/build_trust_metadata.py) and its
 agreement with the client of module FreshnessIndex.
 */
module ReleaseIndexBuilder {
  import opened Outcomes
  import opened FreshnessIndex
  import opened SequenceNumbers

  datatype BuildError =
    | GenesisWithPrevious | GenesisNotFirst | MissingPrevious | BadPrevious(reason: FreshnessError)
    | CheckpointMismatch | SequenceExhausted | SequenceEquivocation | SequenceNotAdvancing
    | NameReused | BadIndex(error: FreshnessError) | TimeNotAdvancing

  /** The latest signed index, the digest of its bytes, and the externally pinned checkpoint. */
  datatype Previous = Previous(index: Index, digest: string, checkpoint: Checkpoint)

  datatype Request = Request(
    genesis: bool, previous: Option<Previous>, entry: Entry, generatedAt: int, validUntil: int)

  /** The checkpoint identifies the supplied index, which parses as of its own generation time. */
  ghost predicate Trusted(previous: Previous) {
    ParseIndex(previous.index, previous.index.generatedAt).Ok? &&
    previous.checkpoint == CheckpointValue(previous.index, previous.digest)
  }

  /** The candidate's entry may stand in a history after `releases`. */
  ghost predicate Admissible(releases: seq<Entry>, entry: Entry)
    requires releases != []
  {
    entry in releases ||
    (ValidEntry(entry) &&
     entry.manifestSequence > releases[|releases| - 1].manifestSequence &&
     forall e :: e in releases ==> e.release != entry.release)
  }

  function Extended(releases: seq<Entry>, entry: Entry): (r: seq<Entry>) {
    if entry in releases then releases else releases + [entry]
  }

  ghost predicate Buildable(request: Request, now: int) {
    var window := Index(1, request.generatedAt, request.validUntil, []);
    LiveWindow(window, now) &&
    if request.genesis then
      request.previous.None? && request.entry.manifestSequence == 1 && ValidEntry(request.entry)
    else
      request.previous.Some? &&
      Trusted(request.previous.value) &&
      request.previous.value.index.indexSequence < MAX_SEQUENCE &&
      request.previous.value.index.generatedAt < request.generatedAt &&
      (ParseIndexDecides(request.previous.value.index, request.previous.value.index.generatedAt);
       Admissible(request.previous.value.index.releases, request.entry))
  }

  lemma ExtendedIsHistory(releases: seq<Entry>, entry: Entry)
    requires History(releases)
    ensures History(Extended(releases, entry)) <==> Admissible(releases, entry)
    ensures releases <= Extended(releases, entry)
  {
    var extended := Extended(releases, entry);
    if entry !in releases {
      var n := |releases|;
      assert extended[n] == entry;
      assert forall i :: 0 <= i < n ==> extended[i] == releases[i];
      if History(extended) {
        assert ValidEntry(extended[n]);
        assert extended[n - 1].manifestSequence < extended[n].manifestSequence;
        forall e | e in releases ensures e.release != entry.release {
          var i :| 0 <= i < n && releases[i] == e;
          assert extended[i].release != extended[n].release;
        }
      }
      if Admissible(releases, entry) {
        assert forall i :: 0 <= i < n ==> releases[i].manifestSequence <= releases[n - 1].manifestSequence;
        assert forall i :: 0 <= i < n ==> releases[i] in releases;
      }
    }
  }

  /** Genesis, or the previous index extended by the candidate. */
  function Built(request: Request): (r: Index)
    requires request.genesis || request.previous.Some?
  {
    if request.genesis then Index(1, request.generatedAt, request.validUntil, [request.entry])
    else
      var previous := request.previous.value.index;
      Index(previous.indexSequence + 1, request.generatedAt, request.validUntil,
            Extended(previous.releases, request.entry))
  }

  method BuildReleaseIndex(request: Request, now: int) returns (r: Result<Index, BuildError>)
    ensures r.Ok? <==> Buildable(request, now)
    ensures r.Ok? ==> r.value == Built(request) && ParseIndex(r.value, now) == Ok(r.value)
  {
    var entry := request.entry;
    var indexSequence := 1;
    var releases := [entry];
    if request.genesis {
      if request.previous.Some? { return Err(GenesisWithPrevious); }
      if entry.manifestSequence != 1 { return Err(GenesisNotFirst); }
    } else {
      if request.previous.None? { return Err(MissingPrevious); }
      var previous := request.previous.value;
      ParseIndexDecides(previous.index, previous.index.generatedAt);
      var parsed := ParseIndex(previous.index, previous.index.generatedAt);
      if parsed.Err? { return Err(BadPrevious(parsed.error)); }
      if previous.checkpoint.indexSequence != previous.index.indexSequence ||
         previous.checkpoint.indexSHA256 != previous.digest ||
         previous.checkpoint.releases != previous.index.releases
      {
        return Err(CheckpointMismatch);
      }
      if previous.index.indexSequence >= MAX_SEQUENCE { return Err(SequenceExhausted); }
      indexSequence := previous.index.indexSequence + 1;
      releases := previous.index.releases;
      ExtendedIsHistory(releases, entry);
      BySequenceFinds(releases);
      var bySequence := BySequence(releases);
      if entry.manifestSequence in bySequence {
        if bySequence[entry.manifestSequence] != entry {
          NewestIsGreatest(releases, bySequence[entry.manifestSequence]);
          return Err(SequenceEquivocation);
        }
      } else {
        if entry.manifestSequence <= releases[|releases| - 1].manifestSequence {
          return Err(SequenceNotAdvancing);
        }
        if exists i :: 0 <= i < |releases| && releases[i].release == entry.release {
          return Err(NameReused);
        }
        releases := releases + [entry];
      }
    }
    var value := Index(indexSequence, request.generatedAt, request.validUntil, releases);
    ParseIndexDecides(value, now);
    if ParseIndex(value, now).Err? { return Err(BadIndex(ParseIndex(value, now).error)); }
    if !request.genesis && request.generatedAt <= request.previous.value.index.generatedAt {
      return Err(TimeNotAdvancing);
    }
    return Ok(value);
  }

  /**
   A genesis request stands alone with manifest sequence 1. Any other names the checkpoint of the index it was given,
   and advances its sequence by one and its time. What is built holds the candidate and is live.
   */
  lemma BuildableMeans(request: Request, now: int)
    requires Buildable(request, now)
    ensures LiveWindow(Built(request), now) && request.entry in Built(request).releases
    ensures Built(request).generatedAt == request.generatedAt && Built(request).validUntil == request.validUntil
    ensures request.genesis ==>
              request.previous == None && request.entry.manifestSequence == 1 && Built(request).indexSequence == 1 &&
              Built(request).releases == [request.entry]
    ensures !request.genesis ==>
              request.previous.Some? &&
              var index, checkpoint := request.previous.value.index, request.previous.value.checkpoint;
              checkpoint.indexSequence == index.indexSequence && checkpoint.releases == index.releases &&
              checkpoint.indexSHA256 == request.previous.value.digest && ParseIndex(index, index.generatedAt).Ok? &&
              Built(request).indexSequence == index.indexSequence + 1 <= 9007199254740991 &&
              Built(request).generatedAt > index.generatedAt && index.releases <= Built(request).releases
  {
    BuiltIsHistory(request, now);
  }

  // ---------- Linear publication histories ----------

  /** One accepted call of the builder: its inputs and its clock. */
  datatype Build = Build(request: Request, now: int) {
    function Index(): (r: Index)
      requires request.genesis || request.previous.Some?
    {
      Built(request)
    }
  }

  /** `build` was given the index that `before` built, with its digest and the checkpoint of both. */
  ghost predicate Continues(before: Build, build: Build, digest: Index -> string)
    requires before.request.genesis || before.request.previous.Some?
  {
    var last := before.Index();
    !build.request.genesis &&
    build.request.previous == Some(Previous(last, digest(last), CheckpointValue(last, digest(last))))
  }

  /** Calls that the builder accepts: genesis, then each given what the one before built. */
  ghost predicate Linear(history: seq<Build>, digest: Index -> string) {
    (forall i :: 0 <= i < |history| ==> Buildable(history[i].request, history[i].now)) &&
    (history != [] ==> history[0].request.genesis) &&
    forall i, j :: 0 <= i < j < |history| && j == i + 1 ==> Continues(history[i], history[j], digest)
  }

  lemma BuiltIsHistory(request: Request, now: int)
    requires Buildable(request, now)
    ensures History(Built(request).releases) && PositiveInt(Built(request).indexSequence)
    ensures !request.genesis ==>
              request.previous.value.index.releases <= Built(request).releases &&
              request.previous.value.index.generatedAt < Built(request).generatedAt
  {
    if !request.genesis {
      var previous := request.previous.value.index;
      ParseIndexDecides(previous, previous.generatedAt);
      ExtendedIsHistory(previous.releases, request.entry);
    }
  }

  lemma PublishedIndex(history: seq<Build>, digest: Index -> string, i: nat)
    requires Linear(history, digest) && i < |history|
    ensures History(history[i].Index().releases)
    ensures history[i].Index().indexSequence == i + 1 <= MAX_SEQUENCE
  {
    BuiltIsHistory(history[i].request, history[i].now);
    if i == 0 {
    } else {
      PublishedIndex(history, digest, i - 1);
      assert Continues(history[i - 1], history[i], digest);
    }
  }

  /** The builder never rewrites, reorders or removes a published entry. */
  lemma BuilderOnlyAppends(history: seq<Build>, digest: Index -> string, i: nat, j: nat)
    requires Linear(history, digest) && i <= j < |history|
    ensures history[i].Index().releases <= history[j].Index().releases
    ensures i < j ==> history[i].Index().generatedAt < history[j].Index().generatedAt
    decreases j - i
  {
    if i == j {
    } else {
      BuilderOnlyAppends(history, digest, i, j - 1);
      assert Continues(history[j - 1], history[j], digest);
      BuiltIsHistory(history[j].request, history[j].now);
    }
  }

  /**
   A client whose checkpoint came from any published index accepts every later one, however many
   it skipped, at every time the later index is live.
   */
  lemma ClientAcceptsEveryLaterIndex(
      history: seq<Build>, digest: Index -> string, i: nat, j: nat, bootstrap: string, now: int)
    requires Linear(history, digest) && i <= j < |history|
    requires LiveWindow(history[j].Index(), now)
    ensures var a, b := history[i].Index(), history[j].Index();
            ParseIndex(b, now) == Ok(b) &&
            ValidateCheckpoint(Some(CheckpointValue(a, digest(a))), b, digest(b), bootstrap).Ok?
  {
    var a, b := history[i].Index(), history[j].Index();
    PublishedIndex(history, digest, i);
    PublishedIndex(history, digest, j);
    BuilderOnlyAppends(history, digest, i, j);
    ParseIndexDecides(b, now);
    ValidateCheckpointDecides(Some(CheckpointValue(a, digest(a))), b, digest(b), bootstrap);
    forall e | e in a.releases ensures e in b.releases {
      var k :| 0 <= k < |a.releases| && a.releases[k] == e;
      assert b.releases[k] == e;
    }
  }

  /** A client at a later index refuses every strictly earlier one. */
  lemma ClientRefusesEveryEarlierIndex(
      history: seq<Build>, digest: Index -> string, i: nat, j: nat, bootstrap: string)
    requires Linear(history, digest) && i < j < |history|
    ensures var a, b := history[i].Index(), history[j].Index();
            ValidateCheckpoint(Some(CheckpointValue(b, digest(b))), a, digest(a), bootstrap) == Err(Replayed)
  {
    PublishedIndex(history, digest, i);
    PublishedIndex(history, digest, j);
  }

  /**
   The built index names the candidate as newest exactly when the candidate is new or already
   newest; an identical older entry is retained too, and then the newest entry is another release.
   */
  lemma NewestIsCandidateIff(request: Request, now: int)
    requires Buildable(request, now) && !request.genesis
    ensures var previous := request.previous.value.index;
            previous.releases != [] && Built(request).releases != [] &&
            (Newest(Built(request)) == request.entry <==>
             request.entry !in previous.releases || request.entry == Newest(previous))
  {
    BuiltIsHistory(request, now);
    ParseIndexDecides(request.previous.value.index, request.previous.value.index.generatedAt);
  }

  /** Such a request is accepted, whatever two releases came first. */
  lemma RebuildingAnOlderEntryIsAccepted(
      first: Entry, second: Entry, previous: Index, digest: string, generatedAt: int, validUntil: int, now: int)
    requires ParseIndex(previous, previous.generatedAt).Ok? && previous.releases == [first, second]
    requires previous.indexSequence < MAX_SEQUENCE && previous.generatedAt < generatedAt
    requires LiveWindow(Index(1, generatedAt, validUntil, []), now)
    ensures var request := Request(false, Some(Previous(previous, digest, CheckpointValue(previous, digest))), first,
                                   generatedAt, validUntil);
            Buildable(request, now) && Built(request).releases == [first, second] && Newest(Built(request)) != first
  {
    ParseIndexDecides(previous, previous.generatedAt);
    assert first == previous.releases[0] && second == previous.releases[1];
  }
}
