# A Dafny model of the release-trust system and the mission loop

This project models, in Dafny 4.11, the parts of the repository that decide what may be trusted and what
may happen next, and proves properties of them that hold on every input, every run or every reachable
state.

Run `dafny verify dfyconfig.toml` in this directory.

## What is modelled

| part | modules |
|---|---|
| anti-rollback freshness of the launcher, with the index builder on the publisher's side | `FreshnessIndex`, `FreshnessProtocol`, `FreshnessRuns`, `ReleaseIndexBuilder` |
| threshold root chain, root checkpoint shared by separate verifications, the artifacts of a release, release archive, agreement between clients | `TrustRoot`, `RootCheckpoint`, `AcceptedRuns`, `Splicing`, `RootSplice`, `ReleaseArtifacts`, `ReleaseArchive`, `ReleaseContents`, `ReleaseAgreement` |
| installer: directory swap, whole run, frontmatter transform | `DirectorySwap`, `InstallRun`, `Frontmatter`, `FrontmatterText`, `FrontmatterShape`, `FrontmatterTransform`, `FrontmatterExport` |
| mission loop: state machine, commands on state.json, the ledger beside it, its hash chain, evidence log | `Mission`, `MissionRuns`, `MissionStages`, `MissionFiles`, `MissionLedger`, `Ledger`, `EvidenceLog` |
| YAML reader, schema interpreter, report page and its data block, fleet directories | `SimpleYaml`, `SimpleYamlStore`, `SimpleYamlParser`, `JsonPointer`, `SchemaInterpreter`, `SchemaMeaning`, `ReportText`, `ReportJson`, `ReportEmbedding`, `ReportPage`, `ReportCards`, `FleetRoots` |
| shared definitions | `Outcomes`, `Functions`, `SequenceNumbers`, `Sequences` |

Conventions of the model:

- Signatures are a predicate on key, namespace, payload and signature; digests are functions of the bytes,
  and a property that needs them collision-free says so with an explicit injectivity hypothesis.
- Code that updates state in place is a class or a method with loops, proved against a specification
  function or predicate; the laws are lemmas about that specification.
- Environment behaviour (a failing file operation, an exit code, the order in which threads take a lock,
  a regular expression) is a parameter, so a lemma holds for every choice of it.
- Names, constants, modes and statuses that a result depends on are written out again in the lemma that states it,
  so that a definition and its use cannot change together unnoticed.
- Inductive proofs are written out; automatic induction is off on every lemma to which it would apply.
- A refusal is a `Result` or `Option` value. Where a method says `r.Ok? <==> ...` the right-hand side is
  exactly the accepted set, so it also proves which of the code's own checks can never refuse.

Results that correct a first reading of the code or its documentation:

- A release index may insert an entry below accepted ones and is still accepted; the accepted history is a
  prefix of the next one exactly when nothing is inserted (`PrefixIffNothingBackfilled`, `BackfillIsAccepted`).
- `trust/README.md` says the builder retains an already identical *newest* entry; the code retains any
  identical entry, and then the newest entry of the built index is another release (`NewestIsCandidateIff`).
- A launcher started without a consumer replaces the checkpoint but never changes what is installed
  (`VerifyOnlyNeverActs`); the first checkpoint is always the pinned index (`FirstCheckpointIsPinned`).
- The launcher's fence has one exception, and exactly one: an older verified run can act after a newer one if and
  only if its launcher was killed and its consumer lives on (`OlderRunActsIffOrphaned`); a run from the start in
  which that happens is given for any two acceptable indexes (`OrphanCanGoBack`, `OrphanGoesBack`).
- The release index that the builder makes when it retains an older entry is refused by the external verifier as
  evidence for that entry's release (`RetainedEntryIsRefused`).
- The directory swap loses the previous tree in exactly one family of failures, in which a rejected new
  copy could not be removed (`TransactionalCopy`, `PreviousTreeCanBeLost`).
- The docstring of `loop.py` says state is written before the ledger; the code appends to the ledger first, so a
  command that stops in between leaves the ledger ahead, by no more than its own events (`LedgerRunsAhead`); the
  state is always the replay of the other events (`MissionIsReplay`).
- In the mission loop, `advance` alone never starts a new cycle: a second cycle needs a failure routed back
  to S0 (`NewCycleNeedsLoopback`); the pulse gate never halts and the open-loopback refusal never fires.
- A failed write to the evidence log is not counted, so the file can exceed the output limit: exactly when bytes
  were lost and, with the counted ones, are too many (`FileExceedsLimitIff`), and by at most one framed chunk, a
  bound that is reached (`RunIsSafe`, `FileCanExceedLimit`). `truncated` stays honest (`NotTruncatedIsComplete`).
- In the YAML reader the error "dedent does not match an open mapping level" is unreachable (`Parse`).
- The schema interpreter compares with Python's `==`, under which `True` equals `1`; otherwise two parsed values are
  equal exactly when they mean the same (`EqualIffSameMeaning`).

## Model

| member | source | states |
|---|---|---|
| Sequences.CountsAsSetIsDistinct | bootstrap/idc_verify_fresh.py:611-614 | counting a list against its set decides pairwise distinctness |
| FreshnessIndex.ParseIndexDecides | bootstrap/idc_verify_fresh.py:580-623 | the parser accepts exactly the live, nonempty, strictly ordered histories with distinct names, and changes nothing |
| FreshnessIndex.ValidateCheckpointDecides | bootstrap/idc_verify_fresh.py:1267-1289 | without a checkpoint exactly the index with the pinned bootstrap digest is accepted; with one, for an ordered index, exactly those with no lower sequence, the same digest at the same sequence, and every accepted entry still present and identical; each refusal names which of these failed |
| FreshnessIndex.AcceptedAfterKeeps | bootstrap/idc_verify_fresh.py:1267-1289 | one accepted write follows another exactly when it keeps sequence, digest at equality, every entry, and so never lowers the newest release |
| FreshnessIndex.HistoryOnlyGrows | bootstrap/idc_verify_fresh.py:1235-1289 | between any two writes of a run, not just adjacent ones, accepted history only grows and equal sequence means equal digest |
| FreshnessIndex.PrefixIffNothingBackfilled | bootstrap/idc_verify_fresh.py:1267-1289 | the prior history is a prefix of the accepted next one exactly when no new entry lies below its newest |
| FreshnessIndex.BackfillIsAccepted | bootstrap/idc_verify_fresh.py:1267-1289 | an index that inserts an entry between accepted ones is accepted |
| FreshnessProtocol.MutualExclusion | bootstrap/idc_verify_fresh.py:1293-1337 | in every interleaving, crashes included, at most one process is in a critical section, and it is the lock holder |
| FreshnessProtocol.CheckpointsOnlyGrow | bootstrap/idc_verify_fresh.py:1881-2001 | in every interleaving of launcher runs, any two checkpoint writes are related by growing history |
| FreshnessProtocol.ActionsNeverGoBack | bootstrap/idc_verify_fresh.py:1881-2001 | in every interleaving in which no orphaned consumer acts, actions happen with nondecreasing index sequence, history and newest release |
| FreshnessProtocol.InstalledWithinCheckpoint | bootstrap/idc_verify_fresh.py:1968-2001 | in every interleaving, orphaned consumers included, the installed generation never exceeds the checkpoint: its sequence, digest and entries are within it |
| FreshnessProtocol.OlderRunActsIffOrphaned | bootstrap/idc_verify_fresh.py:1881-2001 | in every interleaving a verified run older than the installed generation has an enabled consumer action exactly when its launcher was killed and its consumer lives on |
| FreshnessProtocol.OrphanCanGoBack | bootstrap/idc_verify_fresh.py:2032-2155 | for any two acceptable indexes, one following the other, a run from the initial state that ends with the older one installed over the newer one |
| FreshnessProtocol.OrphanGoesBack | bootstrap/idc_verify_fresh.py:2032-2155 | one such run with two concrete indexes |
| FreshnessRuns.FirstCheckpointIsPinned | bootstrap/idc_verify_fresh.py:1273-1275 | in every interleaving the first checkpoint ever written has the digest that the launcher which wrote it was configured with |
| FreshnessRuns.EveryActionIsEarned | bootstrap/idc_verify_fresh.py:1881-2001 | in every interleaving each consumer action belongs to a launcher started with a consumer, which parsed its index as live at capture and again while preparing, replaced the checkpoint with it, and started the consumer while the index was live and the staged tree intact |
| FreshnessRuns.VerifyOnlyNeverActs | bootstrap/idc_verify_fresh.py:1984-1997 | in every interleaving no step of a launcher without a consumer changes what is installed or what was done |
| FreshnessRuns.FinishedIsEarned | bootstrap/idc_verify_fresh.py:1968-2001 | a launcher that ends well has replaced the checkpoint with its run and found its staged tree intact |
| FreshnessRuns.WorkIsPrechecked | bootstrap/idc_verify_fresh.py:1881-1967 | no launcher works for an index that no checkpoint of its past accepted |
| FreshnessRuns.VerifyOnlyFinishes | bootstrap/idc_verify_fresh.py:1881-2001 | from the initial state a launcher without a consumer can replace the checkpoint, free the lock and end well, with nothing installed |
| ReleaseIndexBuilder.ExtendedIsHistory | scripts/build_trust_metadata.py:723-840 | appending the candidate gives a valid history exactly when it is already there or is newer with an unused name |
| ReleaseIndexBuilder.BuildReleaseIndex | scripts/build_trust_metadata.py:641-848 | builds exactly the buildable requests; genesis or a one-step extension of the previous index, and the result parses |
| ReleaseIndexBuilder.BuildableMeans | scripts/build_trust_metadata.py:723-840 | an accepted genesis stands alone with manifest sequence 1; any other request names the checkpoint of the index it was given and advances its sequence by one and its time; what is built is live and holds the candidate |
| ReleaseIndexBuilder.BuilderOnlyAppends | scripts/build_trust_metadata.py:723-840 | in any history of accepted builds, each given the index built before it, every earlier index is a prefix of every later one and time advances |
| ReleaseIndexBuilder.ClientAcceptsEveryLaterIndex | scripts/build_trust_metadata.py:723-840 | a client checkpointed at any index of such a history accepts every later live one, however many it skipped |
| ReleaseIndexBuilder.ClientRefusesEveryEarlierIndex | bootstrap/idc_verify_fresh.py:1267-1289 | and refuses every strictly earlier one as a replay |
| ReleaseIndexBuilder.NewestIsCandidateIff | scripts/build_trust_metadata.py:723-840 | the built index names the candidate newest exactly when it is new or was newest |
| ReleaseIndexBuilder.RebuildingAnOlderEntryIsAccepted | scripts/build_trust_metadata.py:723-840 | rebuilding with an identical older entry is accepted and leaves another release newest |
| TrustRoot.VerifyRoleThreshold | scripts/trust_root.py:721-747 | returns exactly the authorized key ids with a valid signature, or refuses below the threshold |
| TrustRoot.ParsesAsRootIff | scripts/trust_root.py:586-676 | an envelope is a root exactly when it has 1 to 64 signatures by different key ids, 1 to 64 keys under their own digests, and two roles of pairwise different keys among them, each with a threshold from 1 to their number |
| TrustRoot.ThresholdCountsKeys | scripts/trust_root.py:629-639 | the threshold counts distinct public keys, not names |
| TrustRoot.SharedSigners | scripts/trust_root.py:721-747 | any two payloads that meet a t-of-n threshold share at least 2t-n valid signers |
| TrustRoot.QuorumsAgree | scripts/trust_root.py:661-675 | under a majority role whose keys never sign rivals, two accepted payloads of one kind and version are equal |
| TrustRoot.QuorumsMeetIffMajority | scripts/trust_root.py:661-675 | all quorums of a role meet exactly when 2t > n |
| TrustRoot.ChainVersions | scripts/trust_root.py:775-820 | in a verified chain versions are consecutive from the initial root's |
| TrustRoot.ByVersionFinds | scripts/trust_root.py:775-820 | the table of verified envelopes holds exactly the chain's roots under their versions |
| TrustRoot.VerifyRotation | scripts/trust_root.py:790-815 | accepts exactly a rotation to the next version signed by the old and the new threshold, and names rollback, skipping and equivocation |
| TrustRoot.VerifyRootChain | scripts/trust_root.py:775-820 | accepts exactly the bounded chains of rotations whose last root is unexpired, and returns it with the table of its roots |
| TrustRoot.NoForkFromSameRoot | scripts/trust_root.py:775-820 | two verified chains from one root with honest majorities agree on every common version |
| RootCheckpoint.ValidateRootCheckpointDecides | scripts/trust_root.py:862-933 | for a verified chain the checkpoint check is exactly compatibility: the old root on the chain with its digest, no earlier release, no other payload at the same one |
| RootCheckpoint.VerifyReleaseStatement | scripts/trust_root.py:1185-1326 | accepts exactly a statement for this root version, unexpired, signed by the release threshold, whose artifacts match |
| RootCheckpoint.LoadTrustedRoot | scripts/trust_root.py:750-772 | accepts exactly a self-authorized root |
| RootCheckpoint.VerifyExternalRelease | scripts/trust_root.py:1329-1395 | accepts exactly when chain, checkpoint, statement and artifacts all do, and returns the checkpoint of its final root and statement |
| RootCheckpoint.CheckpointFile.Verify | scripts/verify_external_root.py:111-160 | the stored checkpoint is always that of the last committed run, also when the step after the replacement fails |
| RootCheckpoint.RunsNeverGoBack | scripts/verify_external_root.py:111-160 | between any two committed runs neither root version nor release sequence falls, and equality admits no other digest |
| RootCheckpoint.OnePayloadPerReleaseSequence | scripts/trust_root.py:862-933 | two runs with one release sequence carry the same signed payload |
| RootCheckpoint.OneTreePerReleaseSequence | scripts/trust_root.py:1329-1395 | two accepted runs with one release sequence that share a checkpoint captured the same artifacts, archive members and Git tree |
| AcceptedRuns.SignedIff | scripts/trust_root.py:721-747 | the threshold is met exactly when at least that many different keys of the role signed the payload for the purpose; just enough are enough |
| AcceptedRuns.AcceptsIff | scripts/trust_root.py:1329-1395 | a run is accepted exactly when it has at most 32 updates from a self-signed root, each the next version and signed by a quorum of the root before it and of its own, an unexpired last root, an unexpired statement of that root's version and of its own tag naming five artifacts, signed for release by a quorum of that root, a compatible checkpoint and matching artifacts |
| AcceptedRuns.LaterIsCompatible | scripts/trust_root.py:862-933 | the checkpoint of a run admits that run again, with any further updates of the chain, for the same statement and for every later release sequence |
| ReleaseAgreement.ClientsNeverFork | scripts/trust_root.py:775-933 | two clients with separate checkpoints but one first root payload, over whole sequences of runs, agree on every root version both reached, if the roles on one splice are honest majorities |
| ReleaseAgreement.ClientsAgreeOnReleases | scripts/trust_root.py:1185-1230 | their accepted statements of one release sequence under one root version carry the same payload |
| ReleaseAgreement.ClientsSeeOneRelease | scripts/trust_root.py:1329-1395 | and both captured the same artifacts, archive members and Git tree |
| ReleaseArtifacts.VerifyArtifacts | scripts/trust_root.py:1210-1326 | accepts exactly when the files named by the statement, the manifest, the release index, the Git repository and the archive all agree, and returns those readings |
| ReleaseArtifacts.OneTreePerArchive | scripts/trust_root.py:1086-1182 | one archive, exact for two signatures and two Git trees, forces the signatures and the trees to be equal |
| ReleaseArtifacts.OneReleasePerStatement | scripts/trust_root.py:1185-1326 | two accepted checks of one statement saw the same files, manifest, index, members, signature and Git tree |
| ReleaseArtifacts.RetainedEntryIsRefused | scripts/trust_root.py:1248-1257 | an index from the builder passes only when the release it was built for is its newest entry |
| ReleaseContents.SafeRelativeIff | scripts/trust_root.py:1142-1149 | a safe path is a nonempty relative one without backslash in which no `..` stands between slashes or at an end |
| ReleaseContents.MemberMeans | scripts/trust_root.py:1130-1175 | each member of an exact archive is a plain file at a safe path below `idc-skills-<release>/`, without owner, time or other headers, with the bytes, size and mode of the manifest or of the authority files, and with the Git blob and executable bit of the tree |
| ReleaseContents.FileIsMember | scripts/trust_root.py:1101-1124 | each file of the manifest, the manifest itself and its signature are among the members |
| ReleaseContents.ClosureModes | scripts/build_trust_metadata.py:199-271 | in a verified closure every file has mode 0644 or 0755 and Git has the same one and its blob |
| ReleaseContents.FiveArtifacts | scripts/trust_root.py:1210-1242 | the artifacts are captured exactly when they are the five required ones, each of the signed size and digest and within its own bound |
| ReleaseContents.NewestIsSigned | scripts/trust_root.py:1248-1257 | the accepted index is live now, and its last entry, the one with the highest manifest sequence, names the statement's release and commit and the captured manifest |
| ReleaseContents.ArchiveHoldsSigned | scripts/trust_root.py:1258-1288 | the accepted archive holds, under their paths, the launcher and verifier that the newest index entry names, the captured registry and the statement's signing keys |
| ReleaseContents.RepositoryIsSigned | scripts/trust_root.py:1289-1326 | HEAD and an annotated tag with its tree are those of the signed commit, whose manifest, registry and signature blobs are the captured ones |
| ReleaseContents.ArtifactsAreRead | scripts/trust_root.py:1242-1326 | every artifact was accepted by its own reader, the registry is the one the manifest lists, and Git has plain files only, those of the manifest with the manifest and its signature |
| Splicing.SpliceLinked | scripts/trust_root.py:862-933 | linked segments, each passing the end of the one before, splice into one linked sequence |
| RootSplice.SegmentsSplice | scripts/trust_root.py:775-933 | the segments verified by any sequence of committed runs form one chain of rotations from the first initial to the last final root |
| RootSplice.FinalRootsOnSplice | scripts/trust_root.py:775-933 | every run's final root is the spliced chain's root of that version, so runs ending at one version end at one root |
| RootSplice.ReleasesAuthorizedBySplice | scripts/trust_root.py:936-989 | every accepted release met the release threshold of the spliced chain's root it names |
| ReleaseArchive.DistinctFill | scripts/trust_root.py:1130-1182 | distinct paths within the expected set, as many as it has, are all of it |
| ReleaseArchive.ValidateMembers | scripts/trust_root.py:1130-1182 | the member loop accepts exactly one good member for each expected file, and its final omission check never fires |
| ReleaseArchive.ValidateReleaseArchive | scripts/trust_root.py:1086-1182 | accepts exactly the exact archives within the size bound |
| ReleaseArchive.ExactIsBijection | scripts/trust_root.py:1086-1182 | members and expected files are in bijection |
| ReleaseArchive.OneArchivePerManifest | scripts/trust_root.py:1086-1182 | two accepted archives of one manifest carry the same bytes and mode under every name |
| ReleaseArchive.VerifyCandidateClosure | scripts/build_trust_metadata.py:199-271 | accepts exactly the closures in which repository, manifest and a plain Git tree agree file by file |
| ReleaseArchive.BuildReleaseArchive | scripts/build_trust_metadata.py:501-543 | fails exactly when a file cannot be read within bounds; otherwise one deterministic member for each file, in the given order |
| ReleaseArchive.BuiltArchiveAcceptedIff | scripts/build_trust_metadata.py:501-543 | for a verified closure the client accepts the built archive exactly when every path is a safe relative path |
| DirectorySwap.Disk.Exchange | scripts/install.py:770-808 | the try block commits exactly when the new copy arrives and verifies; otherwise the previous tree is back, or at the backup path, or behind a rejected copy that would not go |
| DirectorySwap.Disk.TransactionalCopy | scripts/install.py:740-845 | normal return means the expected verified tree; after an exception the previous tree survives exactly when no rejected copy got stuck and cost the backup; every stop between two steps is recoverable otherwise |
| DirectorySwap.PreviousTreeCanBeLost | scripts/install.py:802-816 | failures that lose the previous tree exist |
| InstallRun.PreflightInstall | scripts/install.py:903-945 | accepts exactly when all targets and destinations fit, before any write, and decides active, covered and skipped targets |
| InstallRun.ActiveKeysDiffer | scripts/install.py:920-936 | two active targets are never one directory, so an aliased directory is written once |
| InstallRun.Machine.SyncSkill | scripts/install.py:847-893 | one skill: which destinations can be synchronised and the exact status reported, verified on success, never written in dry-run or verify-only mode; a destination that is already good is reported `Verified` by a verify-only run and `Unchanged` by any other, and left alone |
| InstallRun.Machine.SyncTarget | scripts/install.py:1066-1092 | all skills of one target, with nothing else below it changed: one status for each skill up to the first that fails, as its destination was found |
| InstallRun.TouchActive | scripts/install.py:1018-1092 | treating one active target keeps what earlier targets achieved and the frame outside the skills |
| InstallRun.AllActiveGoodConverges | scripts/install.py:1018-1092 | when every active target is good, covered and skipped ones are too |
| InstallRun.ConvergedReport | scripts/install.py:1018-1095 | a report on a converged machine is a success and lists every skill of every active target, as `Verified` in a verify-only run and as `Unchanged` in an install or dry run |
| InstallRun.StatusTells | scripts/install.py:847-893 | from a reported status alone: whether the destination was absent, already good or different, and, for one that is not just unchanged, the mode |
| InstallRun.TargetStatusTells | scripts/install.py:1066-1092 | when no skill stops it, a target is okay in a verify-only or dry run exactly when every skill there is good, and otherwise failed or planned |
| InstallRun.ChoicesAgree | scripts/install.py:920-936 | which targets are active, covered (and by which) and skipped is determined by the machine |
| InstallRun.RunInstall | scripts/install.py:996-1095 | preflight decides whether it runs; every target is reported as it was treated and found; a successful install or verify-only run has converged; on a converged machine every skill of every active target is reported `Verified` by a verify-only run and `Unchanged` by any other, and nothing changes; only entries of the selected skills ever differ |
| InstallRun.InstallThenRepeat | scripts/install.py:996-1095 | only entries of the skills differ after the install; after a successful one a verify-only run lists every skill of every active target as `Verified`, a second install lists every one as `Unchanged`, and the machine stays as the install left it |
| Frontmatter.KidsConcat | scripts/install.py:455-499 | the metadata block of a concatenation is read part by part, given the key in force |
| FrontmatterText.ClassifyIff | scripts/install.py:82 | a line is blank or a comment, a key line exactly when it reads name, colon, blanks and value, or indented, and nothing else is supported |
| FrontmatterText.ChildIff | scripts/install.py:475-494 | an entry below metadata is exactly spaces, a name that may hold dots, a colon, blanks and a value |
| FrontmatterText.SingleQuotedIff | scripts/install.py:421-427 | a single-quoted value is accepted exactly when it is some text with its quotes doubled, between quotes |
| FrontmatterText.PlainIff | scripts/install.py:401-432 | an unquoted value is accepted exactly when it starts with none of YAML's indicators and has no colon and space, with more text after them, before its comment |
| FrontmatterText.DoubleQuotedIff | scripts/install.py:413-420 | a double-quoted value is accepted exactly when it is a JSON string |
| FrontmatterText.BlankIsNoScalar | scripts/install.py:410-412 | a value of blanks alone is refused |
| FrontmatterText.ScalarIsTrimmed | scripts/install.py:408-432 | blanks around a value do not matter |
| FrontmatterText.ExportKeepsLineEnds | scripts/install.py:560-575 | a document whose lines all end in LF, or all in CRLF, is exported as one |
| FrontmatterShape.ExportSafeIff | scripts/install.py:455-521 | a frontmatter is export-safe exactly when, by position: every line is of a known kind, keys differ and have inline values, only metadata has lines below it, and those are flat, equally indented and distinct, with inline values under unreserved keys |
| FrontmatterTransform.NestedLine | scripts/install.py:564 | a moved pair, printed below metadata, reads back as that key with that value at that indentation |
| FrontmatterTransform.DropKeepsShape | scripts/install.py:562-563 | removing moved key lines from an export-safe frontmatter changes neither its block nor its shape |
| FrontmatterTransform.EditIsSafe | scripts/install.py:533-583 | the edited frontmatter is export-safe again, with exactly the unmoved keys and metadata, and the moved entries in front of the old block |
| FrontmatterTransform.EditIsIdempotent | scripts/install.py:533-583 | a second edit has nothing to move and returns its input |
| FrontmatterTransform.EveryFieldIsKept | scripts/install.py:533-583 | every field keeps its value text: unmoved ones stay, moved ones are below metadata, nothing else appears |
| FrontmatterTransform.UnmovedLinesStay | scripts/install.py:560-572 | all unmoved lines stay in order, with the inserted lines in one place, below the metadata line if there is one |
| FrontmatterExport.FrontmatterLines | scripts/install.py:365-380 | splits at the first closing delimiter, or refuses |
| FrontmatterExport.TopLevelKeys | scripts/install.py:383-398 | accepts exactly supported lines with distinct keys and returns every key line in order |
| FrontmatterExport.ValidateMetadataBlock | scripts/install.py:455-499 | accepts exactly an empty value over flat, equally indented, distinct, unreserved inline entries |
| FrontmatterExport.ValidateShape | scripts/install.py:502-521 | the section-by-section check accepts exactly the export-safe frontmatters and returns the block's indentation |
| FrontmatterExport.Splice | scripts/install.py:560-572 | the counting and splicing of the output list compute the edit |
| FrontmatterExport.TransformFrontmatterForProfile | scripts/install.py:533-583 | accepts exactly the exportable documents of a profile that allows metadata; its re-checks of its own output never refuse |
| FrontmatterExport.ExportIsIdempotent | scripts/install.py:533-583 | the result is accepted again, unchanged, with the same body and only allowed keys |
| FrontmatterExport.TransformClaudeAiFrontmatter | scripts/install.py:533-588 | with the real scalar check and the Claude.ai keys: accepts exactly the exportable documents, and the result has only allowed keys, the same body, and is left alone by a second transform |
| MissionRuns.PlanIsKept | skills/archipelago/protocol/scripts/loop.py:335-361 | after every sequence of commands the gates' ids, titles, commands and phases are those of the plan at kickoff |
| MissionRuns.LoadsIff | skills/archipelago/protocol/scripts/loop.py:335-369 | a reachable mission loads exactly when the lock files are the original ones and their gate ids are safe |
| MissionRuns.DoneIsPermanent | skills/archipelago/protocol/scripts/loop.py:490-642 | a phase once done is done after every further command |
| MissionRuns.StepKeepsActive | skills/archipelago/protocol/scripts/loop.py:638 | the active phase is always the first one not done |
| MissionRuns.AdvanceRefusedIffBackward | skills/archipelago/protocol/scripts/loop.py:606-621 | the pulse gate never halts a reachable mission; advance is refused exactly when it would move backward |
| MissionRuns.ClosesIffAllPassed | skills/archipelago/protocol/scripts/loop.py:623-642 | a phase closes exactly when its gates all passed; the open-loopback refusal never fires |
| MissionRuns.FinishedMission | skills/archipelago/protocol/scripts/loop.py:490-642 | when every phase is done, all loopbacks are resolved exactly when all gates are passed |
| MissionRuns.NewCycleNeedsLoopback | skills/archipelago/protocol/scripts/loop.py:576-621 | a cycle after the first needs a loopback to S0 |
| MissionRuns.LoopbacksAreNeverForgotten | skills/archipelago/protocol/scripts/loop.py:559-604 | loopbacks are only ever appended, and changed only by being resolved |
| MissionRuns.StaysOpen | skills/archipelago/protocol/scripts/loop.py:559-562 | a loopback is resolved only by passing the gate it names |
| MissionStages.FamilyIff | skills/archipelago/protocol/scripts/loop.py:27 | a family is read of exactly the ids P, one to six digits, -G and a digit from 0 to 6 |
| MissionStages.FailMovesBack | skills/archipelago/protocol/scripts/loop.py:576-604 | a failure changes nothing unless the gate has an id, is alone in having it, and its target does not lie ahead; else it marks that gate, moves the mission to the caller's stage or its family's (S2 for G4, S4 for G5, its own number otherwise) and appends a loopback with the gate and the caller's reason |
| MissionStages.ReachableFail | skills/archipelago/protocol/scripts/loop.py:576-604 | after every sequence of commands a failure is refused for the lock files, the gate or its target alone |
| MissionStages.StageMoves | skills/archipelago/protocol/scripts/loop.py:576-621 | only `advance` raises the stage, to the one it names, only `fail` lowers it, and a cycle begins only by advancing to S0 |
| MissionStages.PhaseMoves | skills/archipelago/protocol/scripts/loop.py:490-642 | a phase begins exactly when its gates are run to the end, and ends exactly when it is closed |
| MissionStages.GateMoves | skills/archipelago/protocol/scripts/loop.py:490-604 | a gate passes only by being run with exit code zero, and stops passing only by a recorded failure |
| MissionStages.RunSettles | skills/archipelago/protocol/scripts/loop.py:490-562 | a run to the end leaves each gate of the phase passed if it was or exited with zero, and failed if it exited with anything else |
| MissionStages.CutRunChangesNothing | skills/archipelago/protocol/scripts/loop.py:490-574 | a run that was cut short before some gate that had not passed changes nothing |
| MissionStages.RunResolves | skills/archipelago/protocol/scripts/loop.py:559-562 | a run of gates resolves a loopback exactly when a gate it names went from not passed to passed |
| MissionStages.CloseMeans | skills/archipelago/protocol/scripts/loop.py:623-642 | in any state, closing is refused while a gate of the phase is not passed or an open loopback names one; else the phase is done and the first open phase becomes active |
| MissionStages.AdvanceMeans | skills/archipelago/protocol/scripts/loop.py:606-621 | in any state, advancing is refused while a phase before the active one is open, or backward |
| MissionStages.StartsAtS2 | skills/archipelago/protocol/scripts/kickoff.py:74-115 | a mission starts at S2 in cycle 1 with the plan's gates untried, its phases pending and the first one active |
| MissionStages.PendingIsUnpassed | skills/archipelago/protocol/scripts/loop.py:490-642 | after every sequence of commands no gate of a phase that has not begun has passed |
| MissionFiles.ValidateLockBinding | skills/archipelago/protocol/scripts/loop.py:335-361 | accepts exactly the states whose flattened gate list is the plan's, under the recorded lock files and safe ids |
| MissionFiles.PulseGateOk | skills/archipelago/protocol/scripts/loop.py:465-474 | decides that every phase before the active one is done |
| MissionFiles.Matches | skills/archipelago/protocol/scripts/loop.py:578-585 | finds one match exactly when one gate has the id |
| MissionFiles.MissionFile.Kickoff | skills/archipelago/protocol/scripts/kickoff.py:74-115 | writes the initial state exactly when there is none and the contracts allow it |
| MissionFiles.MissionFile.RunGates | skills/archipelago/protocol/scripts/loop.py:490-574 | the gate loop makes the specified step, or leaves state.json alone when cut short or stopped before the write, and in each case appends exactly the events of the gates run, with the start of the gate it was cut short in |
| MissionFiles.MissionFile.Fail | skills/archipelago/protocol/scripts/loop.py:576-604 | marks the one gate failed, moves the mission back to the stage of its family or of the caller and records the loopback, or changes nothing; stopped before the write it leaves only the event |
| MissionFiles.MissionFile.Advance | skills/archipelago/protocol/scripts/loop.py:606-621 | makes the specified step and appends one event, or changes nothing; stopped before the write it leaves only the event |
| MissionFiles.MissionFile.ClosePhase | skills/archipelago/protocol/scripts/loop.py:623-642 | closes the phase and names the next one, or changes nothing; stopped before the write it leaves only the event |
| MissionLedger.RecordedAlways | skills/archipelago/protocol/scripts/loop.py:490-642 | over every sequence of commands, stopped ones included, each passed gate has a passing gate-run event and each done phase a phase-close event |
| MissionLedger.CutShortKeepsState | skills/archipelago/protocol/scripts/loop.py:490-574 | a run of gates that was cut short leaves the state of the commands that wrote it |
| MissionLedger.LedgerRunsAhead | skills/archipelago/protocol/scripts/loop.py:490-642 | the events of the commands that wrote the state are in the ledger in order, with at most one extra event for each stopped command and at most two for each gate of the phase for a stopped run of gates |
| MissionLedger.StateIsReplay | skills/archipelago/protocol/scripts/loop.py:490-642 | in a plan without repeated ids, stage, cycle, active phase, loopbacks with their resolution, gate statuses and done phases are the replay of those events, after every sequence of commands |
| MissionLedger.MissionIsReplay | skills/archipelago/protocol/scripts/loop.py:490-642 | from kickoff on, all three at once |
| MissionLedger.LedgerDeterminesState | skills/archipelago/protocol/scripts/loop.py:490-642 | if no command stopped, the state is the replay of the whole ledger |
| MissionLedger.LedgerIsOrderly | skills/archipelago/protocol/scripts/loop.py:490-642 | after every sequence of commands the events of those that wrote the state are in order: each gate run ends the gate that started, each advance starts from the stage reached and goes forward or stays, no loopback goes forward, and they lead to the present stage |
| Ledger.LedgerFile.Append | skills/archipelago/protocol/scripts/loop.py:371-406 | adds one entry linked to the tip, reading nothing else |
| Ledger.Verdict | skills/archipelago/protocol/scripts/loop.py:408-425 | intact exactly when chained; otherwise the fault is at the first line that does not follow |
| Ledger.LedgerFile.Verify | skills/archipelago/protocol/scripts/loop.py:408-425 | the loop gives that verdict, with the kind of the fault |
| Ledger.FaultKinds | skills/archipelago/protocol/scripts/loop.py:408-425 | the fault is a chain break exactly when the predecessor is wrong, tampering exactly when only the hash is, and malformed exactly when the line lacks one of them |
| Ledger.AppendNeverRepairs | skills/archipelago/protocol/scripts/loop.py:371-425 | after any number of appends the verdict is what it was: intact, or the same fault at the same line |
| Ledger.TipDeterminesLedger | skills/archipelago/protocol/scripts/loop.py:408-425 | under an injective hash that never yields the genesis value, two intact ledgers with one tip are equal entry for entry |
| Ledger.RecordedHashFixesHistory | skills/archipelago/protocol/scripts/loop.py:408-425 | one recorded entry hash fixes its position and everything before it in any intact ledger |
| EvidenceLog.Evidence.Receive | skills/archipelago/protocol/scripts/loop.py:220-238 | one stay inside the lock makes the specified step of bytes, budget and counters |
| EvidenceLog.Evidence.ReceiveAll | skills/archipelago/protocol/scripts/loop.py:220-238 | any schedule of the two readers ends in the state of the specified run |
| EvidenceLog.RunIsSafe | skills/archipelago/protocol/scripts/loop.py:220-238 | in every schedule, faults included, written stays within the limit, kept within seen, each failed stream leaves at most one framed chunk uncounted, and the file exceeds the limit by at most one |
| EvidenceLog.FileSize | skills/archipelago/protocol/scripts/loop.py:220-238 | the file holds the counted bytes, cut at the limit, and the bytes that failed writes left |
| EvidenceLog.FileExceedsLimitIff | skills/archipelago/protocol/scripts/loop.py:220-238 | it exceeds the limit exactly when bytes were lost and, with all counted ones, are more than the limit |
| EvidenceLog.FaultlessRunIsExact | skills/archipelago/protocol/scripts/loop.py:220-238 | without faults the file gains exactly the first min(limit, total) bytes of the framed chunks in lock order, and kept counts each stream's payload among them |
| EvidenceLog.FaultlessIsPrefix | skills/archipelago/protocol/scripts/loop.py:220-238 | without faults the log is a prefix of the framed chunks, whole or exactly as long as the limit |
| EvidenceLog.ChunkBehindLabel | skills/archipelago/protocol/scripts/loop.py:220-238 | each chunk stands in the framed log behind the label line of its own stream, in lock order |
| EvidenceLog.TruncatedIffPayloadDropped | skills/archipelago/protocol/scripts/loop.py:530-532 | without faults seen exceeds kept exactly when some payload byte lies beyond the limit |
| EvidenceLog.NotTruncatedIsComplete | skills/archipelago/protocol/scripts/loop.py:530-532 | faults or not, a log not reported truncated holds every byte read |
| EvidenceLog.FileCanExceedLimit | skills/archipelago/protocol/scripts/loop.py:220-238 | with 64 KiB reads, one failed write and sixteen good ones, the file is one framed chunk over the limit |
| SimpleYaml.FlattenIsWellFormed | scripts/validate_skills.py:226-272 | the lines of any mapping with distinct keys are accepted |
| SimpleYaml.FlattenIsInjective | scripts/validate_skills.py:226-272 | two mappings with the same lines are equal |
| SimpleYamlStore.TreeIsFlat | scripts/validate_skills.py:226-272 | the tree read from the mutable maps prints the lines stored in them |
| SimpleYamlStore.ExtendedWhole | scripts/validate_skills.py:259-268 | extending the deepest open map appends one line to every map above it |
| SimpleYamlStore.TakenIffHasItem | scripts/validate_skills.py:257-258 | a key is in the open map at a level exactly when the lines still open there have it |
| SimpleYamlParser.Parse | scripts/validate_skills.py:226-272 | accepts exactly the well-formed line lists, returns the mapping that prints them, and never meets an unmatched dedent |
| SimpleYamlParser.Follows | scripts/validate_skills.py:241-271 | after every accepted line the open levels are exactly 0, 2, ..., its indentation |
| SimpleYamlParser.PrintThenRead | scripts/validate_skills.py:226-272 | a mapping with distinct keys is the one and only reading of its lines |
| JsonPointer.UnescapeInvertsEscape | skills/archipelago/protocol/scripts/validate_contracts.py:58-60 | the two replacements undo the escapes of section 4 of RFC 6901 for every key |
| JsonPointer.KeysInvertJoin | skills/archipelago/protocol/scripts/validate_contracts.py:55-61 | a reference built from any nonempty key path is read back as that path |
| JsonPointer.KeysOfLocal | skills/archipelago/protocol/scripts/validate_contracts.py:55-56 | a reference is local, and has keys, exactly when it begins with `#/` |
| SchemaInterpreter.ResolveStepwise | skills/archipelago/protocol/scripts/validate_contracts.py:54-61 | the stepwise walk follows the key path, or refuses |
| SchemaInterpreter.ResolveFollowsPath | skills/archipelago/protocol/scripts/validate_contracts.py:54-61 | an escaped reference resolves to what its key path leads to |
| SchemaInterpreter.Validate | skills/archipelago/protocol/scripts/validate_contracts.py:64-113 | with acyclic `$ref` and `allOf` edges it terminates and returns no error exactly when the value has the rule's meaning, despite the early return; errors lie at or below the given path |
| SchemaInterpreter.ValidateSame | skills/archipelago/protocol/scripts/validate_contracts.py:66-69 | the same-value rules report nothing exactly when all of them hold |
| SchemaMeaning.EqualIffSameMeaning | skills/archipelago/protocol/scripts/validate_contracts.py:72-75 | two parsed values are equal exactly when they mean the same: the same text, number (booleans count as numbers), list, or map from keys to meanings |
| SchemaMeaning.EqualByKind | skills/archipelago/protocol/scripts/validate_contracts.py:72-75 | kind by kind: a text equals only itself, an array only one equal item by item, an object only one with equal values under the same keys |
| SchemaMeaning.EqualIsEquivalence | skills/archipelago/protocol/scripts/validate_contracts.py:72-75 | equality of parsed values is reflexive, symmetric and transitive |
| SchemaMeaning.EnumOfTexts | skills/archipelago/protocol/scripts/validate_contracts.py:74-75 | an enumeration of texts is met by exactly those texts |
| SchemaMeaning.TypeNames | skills/archipelago/protocol/scripts/validate_contracts.py:40-51 | the seven type names and their values: an integer is a number, a boolean is neither, and no other name has values |
| SchemaMeaning.ScalarIff | skills/archipelago/protocol/scripts/validate_contracts.py:72-96 | the keywords on the value itself hold exactly when it means the same as the constant and as one of the enumeration, a text is long enough and matches, and a number lies within its bounds |
| SchemaMeaning.PresenceIff | skills/archipelago/protocol/scripts/validate_contracts.py:104-111 | an object meets its presence keywords exactly when every required key has a value and, if it is closed, every key has a property rule |
| ReportText.DecodeEscapedChar | scripts/render_validation_report.py:33-43 | an escape, or surrogate pair beyond the basic plane, decodes to its character |
| ReportText.CharsDecode | scripts/render_validation_report.py:29-44 | a JSON string with hidden characters escaped is read back, whatever it contains |
| ReportJson.ParsePrinted | scripts/render_validation_report.py:31 | a printed value with hidden characters escaped is parsed back and the text after it left alone |
| ReportEmbedding.JsonForHtml | scripts/render_validation_report.py:29-44 | the escaping loop computes the embedded text |
| ReportEmbedding.UnescapeInvertsEscape | scripts/verify_validation_records.py:117 | HTML unescaping undoes HTML escaping |
| ReportEmbedding.EscapedHasNoMarkup | scripts/render_validation_report.py:44 | no markup character survives in the embedded text |
| ReportEmbedding.NothingHidden | scripts/render_validation_report.py:29-44 | no control or format character survives |
| ReportEmbedding.ReportRecords | scripts/verify_validation_records.py:108-127 | decodes the text between the first opening tag and the next closing tag |
| ReportEmbedding.DecodeDecides | scripts/verify_validation_records.py:116-127 | a block is accepted exactly when it is a JSON array of objects whose last "skill" field is a text, and returned as it is; each refusal names what failed |
| ReportEmbedding.EmbeddingRoundTrip | scripts/verify_validation_records.py:108-127 | between texts the first of which opens no block, the data block of any list of records reads back as exactly those records |
| ReportPage.Render | scripts/render_validation_report.py:47-90 | the loops over records and cases compute the page whose cards show the records |
| ReportPage.NothingShownOpensABlock | scripts/render_validation_report.py:25-66 | whatever the records contain, the escaped values and tags of the cards hold no opening of a data block |
| ReportPage.RenderThenRead | scripts/verify_validation_records.py:108-127 | reading a rendered page gives exactly the records it was rendered from |
| ReportCards.DisplayDropsHidden | scripts/render_validation_report.py:16-22 | a shown value loses exactly its hidden characters other than tab and newline |
| ReportCards.CardsShow | scripts/render_validation_report.py:54-68 | the cards show, in order, skill, search text, invocation, skill, average, one-liner, each case's title, score and story, standout, residual and confidence of each record, and nothing else |
| ReportCards.CardsHideNothing | scripts/render_validation_report.py:16-26 | whatever the records contain, no hidden character but tab and newline reaches the cards |
| FleetRoots.PhysicallyContains | scripts/verify_fleet_parity.py:103-112 | the ancestor walk ends and decides whether the container is, physically, the member or above it |
| FleetRoots.AboveIsPrefix | scripts/verify_fleet_parity.py:103-112 | on a stable tree with unique identities that is containment of paths |
| FleetRoots.ValidatePhysicalRoots | scripts/verify_fleet_parity.py:115-159 | accepts exactly plain directories apart from the repository and pairwise apart |
| FleetRoots.AcceptedRootsAreDisjoint | scripts/verify_fleet_parity.py:115-159 | no directory lies at or below two accepted roots, or at or below an accepted root and the repository |

## Left out

- Wire formats: canonical JSON bytes, SHA-256, tar and gzip encoding, Git objects; digests are functions and an archive is its member list.
- Text shapes of releases, digests and commits in index entries, manifests and statements; an index entry is valid here when its manifest sequence is.
- OpenSSH, Git, HTTPS, subprocess and consumer execution; a signature that cannot be checked counts as not valid.
- Ownership, permission bits, hard links, symbolic-link races, Windows branches and `fsync`.
- Timestamps as text and calendar arithmetic; times are integers, and the mission's `updated`, `lastRun` and `resolvedAt` are not kept beyond "resolved or not".
- Error messages; which of several failing checks refuses is promised only where a contract names it.
- ReleaseArtifacts.VerifyArtifacts: parsing of manifest, index, inventory and registry bytes and of the tar stream, and the Git commands, are functions of the world it is given; which of several disagreements is reported is not promised.
- DirectorySwap.Disk.TransactionalCopy: asynchronous interrupts between two Python statements are not modelled, only failing steps and a machine stopped between steps.
- InstallRun.RunInstall: targets that nest below one another are not modelled, as directories with different path keys are independent; leftover staging and backup directories are not entries of a target.
- InstallRun.Machine.SyncSkill: the list of manifest differences in a report, because it does not influence what is written.
- Claude.ai packaging, export reports and the description and invocation checks of export profiles.
- FrontmatterExport.TransformFrontmatterForProfile: lines end in LF or CRLF and white space within a line is space or tab; other separators that `str.splitlines` knows are not modelled.
- EvidenceLog.Evidence.Receive: the file is buffered, so bytes of a failed flush can stay in the buffer and be written by the next one; the model drops them, and the bounds on the file allow for them.
- EvidenceLog.RunIsSafe: the header and footer that the gate loop writes around the streams are outside the budget and outside the model.
- MissionFiles.MissionFile.RunGates: running the command, the evidence file's custody checks and the pulse renderer are not modelled, only exit codes and where a run is cut short; state.json is taken to be written whole.
- Ledger.LedgerFile.Append: two processes appending at once, because the code's own check for it is a size comparison outside the chain.
- SimpleYamlParser.Parse: scalars, comments, quoting and the split of a line at its colon are taken as done; the map of key lines is not kept.
- `_strip_yaml_comment` and `_mask_markdown_code` of scripts/validate_skills.py, and the skill validator around them.
- SchemaInterpreter.Validate: keywords of the wrong JSON type, which make the Python code raise, cannot be written in the model; regular expressions and date-times are predicates; NaN is not a number here.
- ReportJson.ParsePrinted: number lexemes are opaque and white space between tokens, which the writer never emits, is not read.
- ReportCards.CardsShow: the fixed text between the shown values is proved printable and free of openings of a data block, but not repeated word for word.
- ReportPage.RenderThenRead: the fixed head and foot around the cards are parameters that hold no other `<sc` tag before the data block; `str` and `lower` of Python are functions.
- ReportEmbedding.UnescapeInvertsEscape: only the five entities the writer emits are decoded; text with lone surrogates cannot be written in the model.
- Field-by-field evidence verifiers, probes, catalogs, heuristics over skill text and the archived scripts.
