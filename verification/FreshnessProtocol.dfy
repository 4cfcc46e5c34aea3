/**
 The launcher protocol of `verify_release` (bootstrap/idc_verify_fresh.py): any number of
 processes share one checkpoint file and one exclusive lock, in any interleaving.
 A process checks the checkpoint under the lock, works without it, then retakes it,
 checks again, replaces the checkpoint and runs its consumer before letting go.
 */
module FreshnessProtocol {
  import opened Outcomes
  import opened FreshnessIndex

  type Pid = nat

  datatype Pc =
    | Captured      // index captured and parsed, before the first critical section
    | Prechecking   // in the first critical section
    | Working       // staging and content verification, no lock held
    | Prepared      // everything re-read, before the second critical section
    | Revalidating  // in the second critical section
    | Validated     // ... the checkpoint was accepted again
    | Committed     // ... and replaced
    | Acting        // ... and the consumer is running
    | Orphaned      // the launcher was killed but its consumer still runs
    | Finished
    | Failed
    | Crashed

  datatype Proc = Proc(run: Accepted, bootstrap: string, consumes: bool, pc: Pc)

  /**
   `writes` and `actions` record, in order, the checkpoint replacements and the consumers' effects, `writers` and
   `actors` the processes they are of.
   */
  datatype State = State(
    holder: Option<Pid>,
    checkpoint: Option<Checkpoint>,
    installed: Option<Accepted>,
    procs: map<Pid, Proc>,
    writes: seq<Accepted>,
    writers: seq<Pid>,
    actions: seq<Accepted>,
    actors: seq<Pid>)

  datatype Step =
    | Launch(p: Pid, run: Accepted, bootstrap: string, consumes: bool, now: int)
    | Acquire(p: Pid)
    | Precheck(p: Pid)
    | Prepare(p: Pid, now: int, stable: bool)
    | Revalidate(p: Pid)
    | Write(p: Pid, outcome: ReplaceOutcome)
    | Start(p: Pid, now: int, staged: bool)
    | Act(p: Pid)
    | Return(p: Pid)
    | Kill(p: Pid, consumerSurvives: bool)

  predicate Holding(pc: Pc) {
    pc in {Prechecking, Revalidating, Validated, Committed, Acting}
  }

  predicate Ended(pc: Pc) {
    pc in {Orphaned, Finished, Failed, Crashed}
  }

  function Initial(): (s: State) {
    State(None, None, None, map[], [], [], [], [])
  }

  function Goto(s: State, p: Pid, pc: Pc): State
    requires p in s.procs
  {
    s.(procs := s.procs[p := s.procs[p].(pc := pc)])
  }

  /** Leave the critical section (or the process) at `pc`: the lock, if held, is dropped. */
  function Leave(s: State, p: Pid, pc: Pc): State
    requires p in s.procs
  {
    Goto(s, p, pc).(holder := if s.holder == Some(p) then None else s.holder)
  }

  function Accepts(s: State, proc: Proc): bool {
    ValidateCheckpoint(s.checkpoint, proc.run.index, proc.run.digest, proc.bootstrap).Ok?
  }

  function Commit(s: State, p: Pid): State
    requires p in s.procs
  {
    var run := s.procs[p].run;
    s.(checkpoint := Some(CheckpointValue(run.index, run.digest)), writes := s.writes + [run],
       writers := s.writers + [p])
  }

  function Install(s: State, p: Pid): State
    requires p in s.procs
  {
    var run := s.procs[p].run;
    s.(installed := Some(run), actions := s.actions + [run], actors := s.actors + [p])
  }

  /** The state after `step`, or None when the step is not enabled. */
  function Apply(s: State, step: Step): (r: Option<State>) {
    if step.Launch? then
      if step.p in s.procs || ParseIndex(step.run.index, step.now).Err? then None
      else Some(s.(procs := s.procs[step.p := Proc(step.run, step.bootstrap, step.consumes, Captured)]))
    else if step.p !in s.procs then None
    else
      var p, proc := step.p, s.procs[step.p];
      match (step, proc.pc)
      case (Acquire(_), Captured) =>
        if s.holder.Some? then None else Some(Goto(s, p, Prechecking).(holder := Some(p)))
      case (Precheck(_), Prechecking) =>
        Some(Leave(s, p, if Accepts(s, proc) then Working else Failed))
      case (Prepare(_, now, stable), Working) =>
        Some(Goto(s, p, if stable && ParseIndex(proc.run.index, now).Ok? then Prepared else Failed))
      case (Acquire(_), Prepared) =>
        if s.holder.Some? then None else Some(Goto(s, p, Revalidating).(holder := Some(p)))
      case (Revalidate(_), Revalidating) =>
        Some(if Accepts(s, proc) then Goto(s, p, Validated) else Leave(s, p, Failed))
      case (Write(_, NotReplaced), Validated) =>
        Some(Leave(s, p, Failed))
      case (Write(_, ReplacedThenFailed), Validated) =>
        Some(Leave(Commit(s, p), p, Failed))
      case (Write(_, Replaced), Validated) =>
        Some(Goto(Commit(s, p), p, Committed))
      case (Start(_, now, staged), Committed) =>
        Some(if proc.consumes && ParseIndex(proc.run.index, now).Ok? && staged then Goto(s, p, Acting)
             else Leave(s, p, if !proc.consumes && staged then Finished else Failed))
      case (Act(_), Acting) =>
        Some(Install(s, p))
      case (Act(_), Orphaned) =>
        Some(Install(s, p))
      case (Return(_), Acting) =>
        Some(Leave(s, p, Finished))
      case (Kill(_, survives), pc) =>
        if Ended(pc) then None
        else Some(Leave(s, p, if survives && pc == Acting then Orphaned else Crashed))
      case _ => None
  }

  /** The state reached by `steps`, or None if one of them was not enabled. */
  function After(steps: seq<Step>): (r: Option<State>) {
    if steps == [] then Some(Initial())
    else
      match After(steps[..|steps| - 1])
      case None => None
      case Some(s) => Apply(s, steps[|steps| - 1])
  }

  ghost predicate Reaches(steps: seq<Step>, s: State) {
    After(steps) == Some(s)
  }

  /** No consumer acts after its launcher was killed. */
  ghost predicate NoOrphanActs(steps: seq<Step>) {
    steps == [] ||
    (NoOrphanActs(steps[..|steps| - 1]) && !OrphanActs(After(steps[..|steps| - 1]), steps[|steps| - 1]))
  }

  predicate OrphanActs(before: Option<State>, step: Step) {
    before.Some? && step.Act? && step.p in before.value.procs && before.value.procs[step.p].pc == Orphaned
  }

  // ---------- The invariant ----------

  ghost predicate LockInv(s: State) {
    (s.holder.Some? ==> s.holder.value in s.procs) &&
    forall p :: p in s.procs ==> (Holding(s.procs[p].pc) <==> s.holder == Some(p))
  }

  ghost predicate RunsInv(s: State) {
    forall p :: p in s.procs ==> History(s.procs[p].run.index.releases)
  }

  ghost predicate CheckpointInv(s: State) {
    AcceptedRun(s.writes) &&
    s.checkpoint == if s.writes == [] then None else Some(Written(s.writes[|s.writes| - 1]))
  }

  /** What a process inside the second critical section knows. */
  ghost predicate FenceInv(s: State) {
    forall p :: p in s.procs ==>
      (s.procs[p].pc == Validated ==> Accepts(s, s.procs[p])) &&
      (s.procs[p].pc in {Committed, Acting} ==>
         s.writes != [] && s.writes[|s.writes| - 1] == s.procs[p].run)
  }

  /** Every action kept what earlier actions established, and the last write keeps them all. */
  ghost predicate ActionsOrdered(writes: seq<Accepted>, actions: seq<Accepted>, installed: Option<Accepted>) {
    (forall i :: 0 <= i < |actions| ==>
       writes != [] && History(actions[i].index.releases) &&
       History(writes[|writes| - 1].index.releases) && Keeps(actions[i], writes[|writes| - 1])) &&
    (forall i, j :: 0 <= i <= j < |actions| ==> Keeps(actions[i], actions[j])) &&
    installed == if actions == [] then None else Some(actions[|actions| - 1])
  }

  ghost predicate ActionsInv(s: State) {
    ActionsOrdered(s.writes, s.actions, s.installed)
  }

  ghost predicate CoreInv(s: State) {
    LockInv(s) && RunsInv(s) && CheckpointInv(s) && FenceInv(s)
  }

  lemma CommitKeepsCheckpointInv(s: State, p: Pid)
    requires p in s.procs && CheckpointInv(s) && History(s.procs[p].run.index.releases) && Accepts(s, s.procs[p])
    ensures CheckpointInv(Commit(s, p))
    ensures s.writes != [] ==>
              History(s.writes[|s.writes| - 1].index.releases) && Keeps(s.writes[|s.writes| - 1], s.procs[p].run)
  {
    var proc := s.procs[p];
    var next := s.writes + [proc.run];
    if s.writes != [] {
      var last := s.writes[|s.writes| - 1];
      assert ValidateCheckpoint(Some(Written(last)), proc.run.index, proc.run.digest, proc.bootstrap).Ok?;
      assert AcceptedAfter(last, proc.run);
      AcceptedAfterKeeps(last, proc.run);
    }
    forall i, j | 0 <= i < j < |next| && j == i + 1 ensures AcceptedAfter(next[i], next[j]) {
      if j < |s.writes| { assert next[i] == s.writes[i] && next[j] == s.writes[j]; }
    }
  }

  lemma CommitKeepsActionsInv(s: State, p: Pid)
    requires p in s.procs && CheckpointInv(s) && ActionsInv(s)
    requires History(s.procs[p].run.index.releases) && Accepts(s, s.procs[p])
    ensures ActionsInv(Commit(s, p))
  {
    CommitKeepsCheckpointInv(s, p);
  }

  lemma StepKeepsLockInv(s: State, step: Step)
    requires LockInv(s) && Apply(s, step).Some?
    ensures LockInv(Apply(s, step).value)
  {
  }

  lemma StepKeepsRunsInv(s: State, step: Step)
    requires RunsInv(s) && Apply(s, step).Some?
    ensures RunsInv(Apply(s, step).value)
  {
    if step.Launch? {
      ParseIndexDecides(step.run.index, step.now);
    }
  }

  /** Only a write that replaces the file touches the checkpoint; it was validated just before. */
  lemma StepWrites(s: State, step: Step)
    requires FenceInv(s) && RunsInv(s) && Apply(s, step).Some?
    ensures var s' := Apply(s, step).value;
            if step.Write? && step.outcome != NotReplaced then
              step.p in s.procs && s.procs[step.p].pc == Validated && Accepts(s, s.procs[step.p]) &&
              s'.writes == s.writes + [s.procs[step.p].run] && s'.writers == s.writers + [step.p] &&
              s'.checkpoint == Some(Written(s.procs[step.p].run))
            else s'.writes == s.writes && s'.writers == s.writers && s'.checkpoint == s.checkpoint
  {
  }

  lemma StepKeepsFenceInv(s: State, step: Step)
    requires LockInv(s) && FenceInv(s) && RunsInv(s) && Apply(s, step).Some?
    ensures FenceInv(Apply(s, step).value)
  {
    StepWrites(s, step);
    StepKeepsLockInv(s, step);
    var s' := Apply(s, step).value;
    forall q | q in s'.procs
      ensures (s'.procs[q].pc == Validated ==> Accepts(s', s'.procs[q])) &&
              (s'.procs[q].pc in {Committed, Acting} ==>
                 s'.writes != [] && s'.writes[|s'.writes| - 1] == s'.procs[q].run)
    {
    }
  }

  lemma StepKeepsCoreInv(s: State, step: Step)
    requires CoreInv(s) && Apply(s, step).Some?
    ensures CoreInv(Apply(s, step).value)
  {
    StepKeepsLockInv(s, step);
    StepKeepsRunsInv(s, step);
    StepKeepsFenceInv(s, step);
    StepWrites(s, step);
    if step.Write? && step.outcome != NotReplaced {
      CommitKeepsCheckpointInv(s, step.p);
    }
  }

  /** Only `Act` changes what is installed. */
  lemma StepActs(s: State, step: Step)
    requires Apply(s, step).Some?
    ensures var s' := Apply(s, step).value;
            if step.Act? then
              step.p in s.procs && s.procs[step.p].pc in {Acting, Orphaned} &&
              s'.actions == s.actions + [s.procs[step.p].run] && s'.actors == s.actors + [step.p] &&
              s'.installed == Some(s.procs[step.p].run)
            else s'.actions == s.actions && s'.actors == s.actors && s'.installed == s.installed
  {
  }

  lemma ActingKeepsOrder(
      writes: seq<Accepted>, actions: seq<Accepted>, installed: Option<Accepted>)
    requires writes != [] && History(writes[|writes| - 1].index.releases)
    requires ActionsOrdered(writes, actions, installed)
    ensures ActionsOrdered(writes, actions + [writes[|writes| - 1]], Some(writes[|writes| - 1]))
  {
  }

  lemma StepKeepsActionsInv(s: State, step: Step)
    requires CoreInv(s) && ActionsInv(s) && !OrphanActs(Some(s), step) && Apply(s, step).Some?
    ensures ActionsInv(Apply(s, step).value)
  {
    StepActs(s, step);
    StepWrites(s, step);
    if step.Write? && step.outcome != NotReplaced {
      CommitKeepsActionsInv(s, step.p);
    } else if step.Act? {
      assert CheckpointInv(s) && s.procs[step.p].pc == Acting;
      ActingKeepsOrder(s.writes, s.actions, s.installed);
    }
  }

  /** What is installed, or may still be installed by an orphaned consumer, was once written. */
  ghost predicate WrittenInv(s: State) {
    (s.installed.Some? ==> s.installed.value in s.writes) &&
    forall p :: p in s.procs && s.procs[p].pc == Orphaned ==> s.procs[p].run in s.writes
  }

  lemma OrphansActed(s: State, step: Step, q: Pid)
    requires Apply(s, step).Some? && q in Apply(s, step).value.procs && Apply(s, step).value.procs[q].pc == Orphaned
    ensures q in s.procs && s.procs[q].pc in {Acting, Orphaned}
    ensures Apply(s, step).value.procs[q].run == s.procs[q].run
  {
  }

  lemma StepKeepsWrittenInv(s: State, step: Step)
    requires CoreInv(s) && WrittenInv(s) && Apply(s, step).Some?
    ensures WrittenInv(Apply(s, step).value)
  {
    StepActs(s, step);
    StepWrites(s, step);
    var s' := Apply(s, step).value;
    assert forall a :: a in s.writes ==> a in s'.writes;
    forall q | q in s'.procs && s'.procs[q].pc == Orphaned
      ensures s'.procs[q].run in s'.writes
    {
      OrphansActed(s, step, q);
    }
  }

  lemma WrittenInvAlways(steps: seq<Step>, s: State)
    requires Reaches(steps, s)
    ensures WrittenInv(s)
  {
    if steps == [] {
    } else {
      var front, last := steps[..|steps| - 1], steps[|steps| - 1];
      WrittenInvAlways(front, After(front).value);
      CoreInvAlways(front, After(front).value);
      StepKeepsWrittenInv(After(front).value, last);
    }
  }

  lemma CoreInvAlways(steps: seq<Step>, s: State)
    requires Reaches(steps, s)
    ensures CoreInv(s)
  {
    if steps == [] {
    } else {
      var front, last := steps[..|steps| - 1], steps[|steps| - 1];
      CoreInvAlways(front, After(front).value);
      StepKeepsCoreInv(After(front).value, last);
    }
  }

  lemma {:induction false} ActionsInvAlways(steps: seq<Step>, s: State)
    requires Reaches(steps, s) && NoOrphanActs(steps)
    ensures ActionsInv(s)
  {
    if steps == [] {
    } else {
      var front, last := steps[..|steps| - 1], steps[|steps| - 1];
      var before := After(front).value;
      ActionsInvAlways(front, before);
      CoreInvAlways(front, before);
      StepKeepsActionsInv(before, last);
    }
  }

  // ---------- Main results ----------

  /** In every interleaving at most one process is in a critical section, and it is the lock holder. */
  lemma MutualExclusion(steps: seq<Step>, s: State, p: Pid, q: Pid)
    requires Reaches(steps, s) && p in s.procs && q in s.procs
    requires Holding(s.procs[p].pc) && Holding(s.procs[q].pc)
    ensures p == q && s.holder == Some(p)
  {
    CoreInvAlways(steps, s);
  }

  /** In every interleaving the checkpoint's accepted history only grows, between any two writes. */
  lemma CheckpointsOnlyGrow(steps: seq<Step>, s: State, i: nat, j: nat)
    requires Reaches(steps, s) && i <= j < |s.writes|
    ensures History(s.writes[i].index.releases) && History(s.writes[j].index.releases)
    ensures Keeps(s.writes[i], s.writes[j])
  {
    CoreInvAlways(steps, s);
    HistoryOnlyGrows(s.writes, i, j);
  }

  /**
   As long as no orphaned consumer acts, actions never go back: neither in index sequence, nor in history, nor
   in newest release.
   */
  lemma {:induction false} ActionsNeverGoBack(steps: seq<Step>, s: State, i: nat, j: nat)
    requires Reaches(steps, s) && NoOrphanActs(steps) && i <= j < |s.actions|
    ensures History(s.actions[i].index.releases) && History(s.actions[j].index.releases)
    ensures Keeps(s.actions[i], s.actions[j])
  {
    ActionsInvAlways(steps, s);
  }

  lemma InstalledIsKept(s: State)
    requires CheckpointInv(s) && WrittenInv(s) && s.installed.Some?
    ensures s.writes != [] && s.checkpoint == Some(Written(s.writes[|s.writes| - 1]))
    ensures Follows(Written(s.installed.value), s.writes[|s.writes| - 1].index, s.writes[|s.writes| - 1].digest)
  {
    var i :| 0 <= i < |s.writes| && s.writes[i] == s.installed.value;
    HistoryOnlyGrows(s.writes, i, |s.writes| - 1);
    FollowsKeeps(s.installed.value, s.writes[|s.writes| - 1]);
  }

  /** The installed generation never exceeds the checkpoint: its whole history is accepted history. */
  lemma InstalledWithinCheckpoint(steps: seq<Step>, s: State)
    requires Reaches(steps, s) && s.installed.Some?
    ensures s.checkpoint.Some?
    ensures s.installed.value.index.indexSequence <= s.checkpoint.value.indexSequence
    ensures forall e :: e in s.installed.value.index.releases ==> e in s.checkpoint.value.releases
    ensures s.installed.value.index.indexSequence == s.checkpoint.value.indexSequence ==>
              s.installed.value.digest == s.checkpoint.value.indexSHA256
  {
    CoreInvAlways(steps, s);
    WrittenInvAlways(steps, s);
    InstalledIsKept(s);
  }

  lemma ActorIsNotOlder(s: State, p: Pid)
    requires CheckpointInv(s) && FenceInv(s) && WrittenInv(s) && s.installed.Some?
    requires p in s.procs && s.procs[p].pc == Acting
    ensures s.installed.value.index.indexSequence <= s.procs[p].run.index.indexSequence
  {
    InstalledIsKept(s);
    assert s.writes[|s.writes| - 1] == s.procs[p].run;
  }

  /**
   In every interleaving, a verified run older than the installed generation can act exactly when it is
   a consumer whose launcher was killed: the lock fences everything else.
   */
  lemma OlderRunActsIffOrphaned(steps: seq<Step>, s: State, p: Pid)
    requires Reaches(steps, s) && s.installed.Some? && p in s.procs
    requires s.procs[p].run.index.indexSequence < s.installed.value.index.indexSequence
    ensures Apply(s, Act(p)).Some? <==> s.procs[p].pc == Orphaned
  {
    CoreInvAlways(steps, s);
    WrittenInvAlways(steps, s);
    if s.procs[p].pc == Acting {
      ActorIsNotOlder(s, p);
    }
  }

  // ---------- A run in which it does ----------

  /** The state reached from `s` by `steps`. */
  function Chain(s: State, steps: seq<Step>): (r: Option<State>)
    decreases |steps|
  {
    if steps == [] then Some(s)
    else
      match Apply(s, steps[0])
      case None => None
      case Some(s') => Chain(s', steps[1..])
  }

  lemma {:induction false} ChainConcat(s: State, a: seq<Step>, b: seq<Step>)
    ensures Chain(s, a + b) == if Chain(s, a).Some? then Chain(Chain(s, a).value, b) else None
    decreases |a|
  {
    if a == [] {
      assert a + b == b;
    } else {
      assert (a + b)[1..] == a[1..] + b;
      if Apply(s, a[0]).Some? {
        ChainConcat(Apply(s, a[0]).value, a[1..], b);
      }
    }
  }

  lemma {:induction false} ChainThen(s: State, a: seq<Step>, mid: State, b: seq<Step>, end: State)
    requires Chain(s, a) == Some(mid) && Chain(mid, b) == Some(end)
    ensures Chain(s, a + b) == Some(end)
  {
    ChainConcat(s, a, b);
  }

  lemma {:induction false} ChainIsAfter(steps: seq<Step>)
    ensures After(steps) == Chain(Initial(), steps)
  {
    if steps == [] {
    } else {
      var front, last := steps[..|steps| - 1], steps[|steps| - 1];
      ChainIsAfter(front);
      ChainConcat(Initial(), front, [last]);
      assert front + [last] == steps;
      if After(front).Some? { ChainOne(After(front).value, last); }
    }
  }

  lemma {:induction false} ChainOne(s: State, step: Step)
    ensures Chain(s, [step]) == Apply(s, step)
  {
    if Apply(s, step).Some? { assert [step][1..] == []; }
  }

  lemma {:induction false} ChainTwo(s: State, a: Step, b: Step)
    requires Apply(s, a).Some?
    ensures Chain(s, [a, b]) == Apply(Apply(s, a).value, b)
  {
    assert [a, b][1..] == [b];
    ChainOne(Apply(s, a).value, b);
  }

  lemma {:induction false} ChainThree(s: State, a: Step, b: Step, c: Step)
    requires Apply(s, a).Some?
    ensures Chain(s, [a, b, c]) == Chain(Apply(s, a).value, [b, c])
  {
    assert [a, b, c][1..] == [b, c];
  }

  /** The first critical section and the work after it. */
  function PrepareSteps(p: Pid, now: int): (r: seq<Step>) {
    [Acquire(p), Precheck(p), Prepare(p, now, true)]
  }

  /** The second critical section up to the new checkpoint. */
  function CommitSteps(p: Pid): (r: seq<Step>) {
    [Acquire(p), Revalidate(p), Write(p, Replaced)]
  }

  lemma {:induction false} Prepares(s: State, p: Pid, now: int)
    requires s.holder.None? && p in s.procs && s.procs[p].pc == Captured
    requires Accepts(s, s.procs[p]) && ParseIndex(s.procs[p].run.index, now).Ok?
    ensures Chain(s, PrepareSteps(p, now)) == Some(Goto(s, p, Prepared))
  {
    var s1 := Apply(s, Acquire(p)).value;
    var s2 := Apply(s1, Precheck(p)).value;
    ChainThree(s, Acquire(p), Precheck(p), Prepare(p, now, true));
    ChainTwo(s1, Precheck(p), Prepare(p, now, true));
    assert Apply(s2, Prepare(p, now, true)).value.procs == Goto(s, p, Prepared).procs;
  }

  lemma {:induction false} Commits(s: State, p: Pid)
    requires s.holder.None? && p in s.procs && s.procs[p].pc == Prepared && Accepts(s, s.procs[p])
    ensures Chain(s, CommitSteps(p)) == Some(Goto(Commit(s, p), p, Committed).(holder := Some(p)))
  {
    var s1 := Apply(s, Acquire(p)).value;
    var s2 := Apply(s1, Revalidate(p)).value;
    ChainThree(s, Acquire(p), Revalidate(p), Write(p, Replaced));
    ChainTwo(s1, Revalidate(p), Write(p, Replaced));
    assert Apply(s2, Write(p, Replaced)).value.procs == Goto(Commit(s, p), p, Committed).procs;
  }

  /** Two launchers that verify `older` and `newer`, each with its own digest as bootstrap. */
  function BothPrepare(p: Pid, q: Pid, older: Accepted, newer: Accepted, now: int): (r: seq<Step>) {
    [Launch(p, older, older.digest, true, now), Launch(q, newer, newer.digest, true, now)] +
    PrepareSteps(p, now) + PrepareSteps(q, now)
  }

  /** `p` commits and starts its consumer, only its launcher dies, `q` commits and acts; then `p`'s consumer acts. */
  function OrphanRun(p: Pid, q: Pid, older: Accepted, newer: Accepted, now: int): (r: seq<Step>) {
    BothPrepare(p, q, older, newer, now) + CommitSteps(p) + [Start(p, now, true), Kill(p, true)] + CommitSteps(q) +
    [Start(q, now, true), Act(q), Act(p)]
  }

  /** The two processes at `atP` and `atQ`. */
  function Procs(p: Pid, q: Pid, older: Accepted, newer: Accepted, atP: Pc, atQ: Pc): (r: map<Pid, Proc>) {
    map[p := Proc(older, older.digest, true, atP), q := Proc(newer, newer.digest, true, atQ)]
  }

  lemma BothPrepared(p: Pid, q: Pid, older: Accepted, newer: Accepted, now: int)
    requires p != q && ParseIndex(older.index, now).Ok? && ParseIndex(newer.index, now).Ok?
    ensures Chain(Initial(), BothPrepare(p, q, older, newer, now)) ==
            Some(Initial().(procs := Procs(p, q, older, newer, Prepared, Prepared)))
  {
    var launches := [Launch(p, older, older.digest, true, now), Launch(q, newer, newer.digest, true, now)];
    var s1 := Initial().(procs := Procs(p, q, older, newer, Captured, Captured));
    var s2 := Initial().(procs := Procs(p, q, older, newer, Prepared, Captured));
    var s3 := Initial().(procs := Procs(p, q, older, newer, Prepared, Prepared));
    ChainTwo(Initial(), launches[0], launches[1]);
    assert Chain(Initial(), launches).value.procs == s1.procs;
    Prepares(s1, p, now);
    assert Goto(s1, p, Prepared).procs == s2.procs;
    Prepares(s2, q, now);
    assert Goto(s2, q, Prepared).procs == s3.procs;
    ChainThen(Initial(), launches, s1, PrepareSteps(p, now), s2);
    ChainThen(Initial(), launches + PrepareSteps(p, now), s2, PrepareSteps(q, now), s3);
  }

  /** `p` has committed. */
  function FirstCommitted(p: Pid, q: Pid, older: Accepted, newer: Accepted): (r: State) {
    State(Some(p), Some(CheckpointValue(older.index, older.digest)), None,
          Procs(p, q, older, newer, Committed, Prepared), [older], [p], [], [])
  }

  /** `p`'s launcher is gone, its consumer is not. */
  function FirstOrphaned(p: Pid, q: Pid, older: Accepted, newer: Accepted): (r: State) {
    FirstCommitted(p, q, older, newer).(holder := None, procs := Procs(p, q, older, newer, Orphaned, Prepared))
  }

  function SecondCommitted(p: Pid, q: Pid, older: Accepted, newer: Accepted): (r: State) {
    State(Some(q), Some(CheckpointValue(newer.index, newer.digest)), None,
          Procs(p, q, older, newer, Orphaned, Committed), [older, newer], [p, q], [], [])
  }

  lemma FirstCommits(p: Pid, q: Pid, older: Accepted, newer: Accepted)
    requires p != q
    ensures Chain(Initial().(procs := Procs(p, q, older, newer, Prepared, Prepared)), CommitSteps(p)) ==
            Some(FirstCommitted(p, q, older, newer))
  {
    var s := Initial().(procs := Procs(p, q, older, newer, Prepared, Prepared));
    Commits(s, p);
    assert Goto(Commit(s, p), p, Committed).procs == Procs(p, q, older, newer, Committed, Prepared);
    assert s.writes + [older] == [older] && s.writers + [p] == [p];
  }

  lemma FirstIsOrphaned(p: Pid, q: Pid, older: Accepted, newer: Accepted, now: int)
    requires p != q && ParseIndex(older.index, now).Ok?
    ensures Chain(FirstCommitted(p, q, older, newer), [Start(p, now, true), Kill(p, true)]) ==
            Some(FirstOrphaned(p, q, older, newer))
  {
    var s := FirstCommitted(p, q, older, newer);
    ChainTwo(s, Start(p, now, true), Kill(p, true));
    assert Chain(s, [Start(p, now, true), Kill(p, true)]).value.procs == Procs(p, q, older, newer, Orphaned, Prepared);
  }

  lemma SecondCommits(p: Pid, q: Pid, older: Accepted, newer: Accepted)
    requires p != q && Ordered(newer.index.releases) && Follows(Written(older), newer.index, newer.digest)
    ensures Chain(FirstOrphaned(p, q, older, newer), CommitSteps(q)) == Some(SecondCommitted(p, q, older, newer))
  {
    var s := FirstOrphaned(p, q, older, newer);
    ValidateCheckpointDecides(Some(Written(older)), newer.index, newer.digest, newer.digest);
    Commits(s, q);
    assert Goto(Commit(s, q), q, Committed).procs == Procs(p, q, older, newer, Orphaned, Committed);
    assert s.writes + [newer] == [older, newer] && s.writers + [q] == [p, q];
  }

  lemma BothAct(p: Pid, q: Pid, older: Accepted, newer: Accepted, now: int) returns (end: State)
    requires p != q && ParseIndex(newer.index, now).Ok?
    ensures Chain(SecondCommitted(p, q, older, newer), [Start(q, now, true), Act(q), Act(p)]) == Some(end)
    ensures end.actions == [newer, older] && end.installed == Some(older)
  {
    var s := SecondCommitted(p, q, older, newer);
    var s1 := Apply(s, Start(q, now, true)).value;
    var s2 := Apply(s1, Act(q)).value;
    end := Apply(s2, Act(p)).value;
    ChainThree(s, Start(q, now, true), Act(q), Act(p));
    ChainTwo(s1, Act(q), Act(p));
  }

  /**
   The exception is real. For any two acceptable runs, one extending the other, this run from the initial
   state ends with the older generation installed over the newer one.
   */
  lemma OrphanCanGoBack(p: Pid, q: Pid, older: Accepted, newer: Accepted, now: int)
    requires p != q && ParseIndex(older.index, now).Ok? && ParseIndex(newer.index, now).Ok?
    requires Follows(Written(older), newer.index, newer.digest)
    ensures var end := After(OrphanRun(p, q, older, newer, now));
            end.Some? && end.value.actions == [newer, older] && end.value.installed == Some(older)
  {
    ParseIndexDecides(newer.index, now);
    var start, prepared := Initial(), Initial().(procs := Procs(p, q, older, newer, Prepared, Prepared));
    var s4, s5, s6 :=
      FirstCommitted(p, q, older, newer), FirstOrphaned(p, q, older, newer), SecondCommitted(p, q, older, newer);
    var run := BothPrepare(p, q, older, newer, now);
    BothPrepared(p, q, older, newer, now);
    FirstCommits(p, q, older, newer);
    ChainThen(start, run, prepared, CommitSteps(p), s4);
    FirstIsOrphaned(p, q, older, newer, now);
    ChainThen(start, run + CommitSteps(p), s4, [Start(p, now, true), Kill(p, true)], s5);
    SecondCommits(p, q, older, newer);
    ChainThen(start, run + CommitSteps(p) + [Start(p, now, true), Kill(p, true)], s5, CommitSteps(q), s6);
    var end := BothAct(p, q, older, newer, now);
    ChainThen(start, run + CommitSteps(p) + [Start(p, now, true), Kill(p, true)] + CommitSteps(q), s6,
              [Start(q, now, true), Act(q), Act(p)], end);
    ChainIsAfter(OrphanRun(p, q, older, newer, now));
  }

  const FIRST_RELEASE := Entry("1.0.0", 1, "", "", "", "")
  const SECOND_RELEASE := Entry("1.1.0", 2, "", "", "", "")
  const OLDER := Accepted(Index(1, 0, 60, [FIRST_RELEASE]), "1")
  const NEWER := Accepted(Index(2, 0, 60, [FIRST_RELEASE, SECOND_RELEASE]), "2")

  /** One such run. */
  lemma OrphanGoesBack()
    ensures OLDER.index.indexSequence < NEWER.index.indexSequence
    ensures var end := After(OrphanRun(0, 1, OLDER, NEWER, 0));
            end.Some? && end.value.actions == [NEWER, OLDER] && end.value.installed == Some(OLDER)
  {
    ParseIndexDecides(OLDER.index, 0);
    ParseIndexDecides(NEWER.index, 0);
    OrphanCanGoBack(0, 1, OLDER, NEWER, 0);
  }
}
