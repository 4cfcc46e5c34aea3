/**
 What each launcher must have gone through to be where it is (bootstrap/idc_verify_fresh.py, `verify_release`):
 the steps behind every checkpoint and every consumer action, in any interleaving.
 */
module FreshnessRuns {
  import opened FreshnessIndex
  import opened FreshnessProtocol
  import opened Outcomes

  // ---------- Identities ----------

  /** A process keeps what it was launched with. */
  ghost predicate SameLaunch(a: Proc, b: Proc) {
    a.run == b.run && a.bootstrap == b.bootstrap && a.consumes == b.consumes
  }

  lemma StepKeepsLaunches(s: State, step: Step, q: Pid)
    requires Apply(s, step).Some? && q in s.procs
    ensures q in Apply(s, step).value.procs && SameLaunch(s.procs[q], Apply(s, step).value.procs[q])
  {
  }

  // ---------- Who wrote the checkpoints ----------

  /** Every write is its writer's run, and the first one is the index its launcher was configured with. */
  ghost predicate WritersInv(s: State) {
    |s.writers| == |s.writes| &&
    (forall i :: 0 <= i < |s.writes| ==> s.writers[i] in s.procs && s.procs[s.writers[i]].run == s.writes[i]) &&
    (s.writes != [] ==> s.writes[0].digest == s.procs[s.writers[0]].bootstrap)
  }

  /** With no checkpoint, only the pinned digest is accepted. */
  lemma FirstAccepts(s: State, proc: Proc)
    requires History(proc.run.index.releases) && s.checkpoint.None?
    ensures Accepts(s, proc) <==> proc.run.digest == proc.bootstrap
  {
    ValidateCheckpointDecides(None, proc.run.index, proc.run.digest, proc.bootstrap);
  }

  lemma StepKeepsWritersInv(s: State, step: Step)
    requires CoreInv(s) && WritersInv(s) && Apply(s, step).Some?
    ensures WritersInv(Apply(s, step).value)
  {
    var s' := Apply(s, step).value;
    StepWrites(s, step);
    forall q | q in s.procs ensures q in s'.procs && SameLaunch(s.procs[q], s'.procs[q]) {
      StepKeepsLaunches(s, step, q);
    }
    if step.Write? && step.outcome != NotReplaced && s.writes == [] { FirstAccepts(s, s.procs[step.p]); }
  }

  lemma WritersInvAlways(steps: seq<Step>, s: State)
    requires Reaches(steps, s)
    ensures WritersInv(s)
  {
    if steps == [] {
    } else {
      var front, last := steps[..|steps| - 1], steps[|steps| - 1];
      WritersInvAlways(front, After(front).value);
      CoreInvAlways(front, After(front).value);
      StepKeepsWritersInv(After(front).value, last);
    }
  }

  /** In every interleaving the first checkpoint ever written is the index pinned for the launcher that wrote it. */
  lemma FirstCheckpointIsPinned(steps: seq<Step>, s: State)
    requires Reaches(steps, s) && s.writes != []
    ensures s.writers != [] && s.writers[0] in s.procs
    ensures s.procs[s.writers[0]].run == s.writes[0] && s.writes[0].digest == s.procs[s.writers[0]].bootstrap
  {
    WritersInvAlways(steps, s);
  }

  // ---------- Steps behind a process ----------

  datatype Milestone = Launching | Preparing | Writing | Starting | Returning | Orphaning

  /** `step` is this milestone of process p. */
  predicate Marks(m: Milestone, step: Step, p: Pid, proc: Proc) {
    step.p == p &&
    match m
    case Launching =>
      step.Launch? && step.run == proc.run && step.bootstrap == proc.bootstrap && step.consumes == proc.consumes &&
      ParseIndex(proc.run.index, step.now).Ok?
    case Preparing => step.Prepare? && step.stable && ParseIndex(proc.run.index, step.now).Ok?
    case Writing => step.Write? && step.outcome == Replaced
    case Starting => step.Start? && step.staged && (proc.consumes ==> ParseIndex(proc.run.index, step.now).Ok?)
    case Returning => step.Return?
    case Orphaning => step.Kill? && step.consumerSurvives
  }

  ghost predicate Behind(steps: seq<Step>, m: Milestone, p: Pid, proc: Proc) {
    exists i :: 0 <= i < |steps| && Marks(m, steps[i], p, proc)
  }

  /** The milestones behind a process at `proc.pc`. */
  ghost predicate Earned(steps: seq<Step>, p: Pid, proc: Proc) {
    Behind(steps, Launching, p, proc) &&
    (proc.pc in {Prepared, Revalidating, Validated, Committed, Acting, Orphaned, Finished} ==>
       Behind(steps, Preparing, p, proc)) &&
    (proc.pc in {Committed, Acting, Orphaned, Finished} ==> Behind(steps, Writing, p, proc)) &&
    (proc.pc in {Acting, Orphaned, Finished} ==> Behind(steps, Starting, p, proc)) &&
    (proc.pc in {Acting, Orphaned} ==> proc.consumes) &&
    (proc.pc == Finished && proc.consumes ==> Behind(steps, Returning, p, proc)) &&
    (proc.pc == Orphaned ==> Behind(steps, Orphaning, p, proc))
  }

  ghost predicate AllEarned(steps: seq<Step>, s: State) {
    forall p :: p in s.procs ==> Earned(steps, p, s.procs[p])
  }

  lemma BehindMore(front: seq<Step>, last: Step, m: Milestone, p: Pid, a: Proc, b: Proc)
    requires SameLaunch(a, b)
    ensures Behind(front + [last], m, p, b) <==> Behind(front, m, p, a) || Marks(m, last, p, b)
  {
    var steps := front + [last];
    assert steps[|front|] == last && forall i :: 0 <= i < |front| ==> steps[i] == front[i];
    if Behind(front, m, p, a) {
      var i :| 0 <= i < |front| && Marks(m, front[i], p, a);
      assert Marks(m, steps[i], p, b);
    }
    if Behind(steps, m, p, b) {
      var i :| 0 <= i < |steps| && Marks(m, steps[i], p, b);
      if i < |front| { assert Marks(m, front[i], p, a); }
    }
  }

  /** What one step makes of a process's place. */
  lemma Moves(s: State, step: Step, q: Pid)
    requires Apply(s, step).Some? && q in s.procs
    ensures var a, b := s.procs[q], Apply(s, step).value.procs[q];
            (a.pc != b.pc ==> step.p == q) &&
            (b.pc == Prepared && a.pc != Prepared ==> a.pc == Working && Marks(Preparing, step, q, b)) &&
            (b.pc in {Revalidating, Validated} ==> a.pc in {Prepared, Revalidating, Validated}) &&
            (b.pc == Committed && a.pc != Committed ==> a.pc == Validated && Marks(Writing, step, q, b)) &&
            (b.pc == Acting && a.pc != Acting ==> a.pc == Committed && a.consumes && Marks(Starting, step, q, b)) &&
            (b.pc == Orphaned && a.pc != Orphaned ==> a.pc == Acting && Marks(Orphaning, step, q, b)) &&
            (b.pc == Finished && a.pc != Finished ==>
               (a.pc == Committed && !a.consumes && Marks(Starting, step, q, b)) ||
               (a.pc == Acting && Marks(Returning, step, q, b)))
  {
  }

  lemma EarnedNext(front: seq<Step>, s: State, step: Step, q: Pid)
    requires Apply(s, step).Some? && q in s.procs && Earned(front, q, s.procs[q])
    ensures q in Apply(s, step).value.procs && Earned(front + [step], q, Apply(s, step).value.procs[q])
  {
    var a, b := s.procs[q], Apply(s, step).value.procs[q];
    StepKeepsLaunches(s, step, q);
    Moves(s, step, q);
    forall m: Milestone ensures Behind(front + [step], m, q, b) <==> Behind(front, m, q, a) || Marks(m, step, q, b) {
      BehindMore(front, step, m, q, a, b);
    }
  }

  lemma LaunchEarned(front: seq<Step>, s: State, step: Step)
    requires step.Launch? && Apply(s, step).Some?
    ensures Earned(front + [step], step.p, Apply(s, step).value.procs[step.p])
  {
    var steps := front + [step];
    assert Marks(Launching, steps[|front|], step.p, Apply(s, step).value.procs[step.p]);
  }

  lemma NewIsLaunched(s: State, step: Step, q: Pid)
    requires Apply(s, step).Some? && q in Apply(s, step).value.procs && q !in s.procs
    ensures step.Launch? && step.p == q
  {
  }

  lemma AllEarnedNext(front: seq<Step>, s: State, step: Step)
    requires AllEarned(front, s) && Apply(s, step).Some?
    ensures AllEarned(front + [step], Apply(s, step).value)
  {
    var s' := Apply(s, step).value;
    forall q | q in s'.procs ensures Earned(front + [step], q, s'.procs[q]) {
      if q in s.procs {
        EarnedNext(front, s, step, q);
      } else {
        NewIsLaunched(s, step, q);
        LaunchEarned(front, s, step);
      }
    }
  }

  lemma AllEarnedAlways(steps: seq<Step>, s: State)
    requires Reaches(steps, s)
    ensures AllEarned(steps, s)
  {
    if steps == [] {
    } else {
      var front, last := steps[..|steps| - 1], steps[|steps| - 1];
      AllEarnedAlways(front, After(front).value);
      AllEarnedNext(front, After(front).value, last);
      assert front + [last] == steps;
    }
  }

  // ---------- Who acts ----------

  /** Every action is of a consuming launcher's run, and is behind its start. */
  ghost predicate ActorsInv(steps: seq<Step>, s: State) {
    |s.actors| == |s.actions| &&
    forall i :: 0 <= i < |s.actions| ==> ActorOk(steps, s, s.actors[i], s.actions[i])
  }

  ghost predicate ActorOk(steps: seq<Step>, s: State, p: Pid, run: Accepted) {
    p in s.procs && s.procs[p].run == run && s.procs[p].consumes && Behind(steps, Writing, p, s.procs[p]) &&
    Behind(steps, Starting, p, s.procs[p])
  }

  lemma ActorOkNext(front: seq<Step>, s: State, step: Step, p: Pid, run: Accepted)
    requires Apply(s, step).Some? && ActorOk(front, s, p, run)
    ensures ActorOk(front + [step], Apply(s, step).value, p, run)
  {
    StepKeepsLaunches(s, step, p);
    BehindMore(front, step, Writing, p, s.procs[p], Apply(s, step).value.procs[p]);
    BehindMore(front, step, Starting, p, s.procs[p], Apply(s, step).value.procs[p]);
  }

  lemma ActorsInvAlways(steps: seq<Step>, s: State)
    requires Reaches(steps, s)
    ensures ActorsInv(steps, s)
  {
    if steps == [] {
    } else {
      var front, last := steps[..|steps| - 1], steps[|steps| - 1];
      var before := After(front).value;
      ActorsInvAlways(front, before);
      AllEarnedAlways(front, before);
      StepActs(before, last);
      assert front + [last] == steps;
      forall i | 0 <= i < |s.actions| ensures ActorOk(steps, s, s.actors[i], s.actions[i]) {
        if i == |before.actions| { assert ActorOk(front, before, last.p, before.procs[last.p].run); }
        ActorOkNext(front, before, last, s.actors[i], s.actions[i]);
      }
    }
  }

  /**
   Every consumer action belongs to a launcher with a consumer that replaced the checkpoint and then, with its
   index live and its staged tree intact, started that consumer.
   */
  lemma EveryActionIsEarned(steps: seq<Step>, s: State, i: nat)
    requires Reaches(steps, s) && i < |s.actions|
    ensures |s.actors| == |s.actions| && s.actors[i] in s.procs
    ensures var p := s.actors[i];
            var proc := s.procs[p];
            proc.run == s.actions[i] && proc.consumes &&
            (exists k :: 0 <= k < |steps| && steps[k] == Write(p, Replaced)) &&
            exists k :: 0 <= k < |steps| && steps[k].Start? && steps[k].p == p && steps[k].staged &&
                        LiveWindow(proc.run.index, steps[k].now)
  {
    ActorsInvAlways(steps, s);
    var p := s.actors[i];
    var proc := s.procs[p];
    assert ActorOk(steps, s, p, s.actions[i]);
    var w :| 0 <= w < |steps| && Marks(Writing, steps[w], p, proc);
    assert steps[w] == Write(p, Replaced);
    var k :| 0 <= k < |steps| && Marks(Starting, steps[k], p, proc);
    ParseIndexDecides(proc.run.index, steps[k].now);
  }

  /** A launcher without a consumer never changes what is installed, whatever step it takes. */
  lemma VerifyOnlyNeverActs(steps: seq<Step>, s: State, step: Step)
    requires Reaches(steps, s) && step.p in s.procs && !s.procs[step.p].consumes && Apply(s, step).Some?
    ensures var t := Apply(s, step).value;
            t.installed == s.installed && t.actions == s.actions &&
            t.procs[step.p].pc != Acting && t.procs[step.p].pc != Orphaned
  {
    AllEarnedAlways(steps, s);
    assert Earned(steps, step.p, s.procs[step.p]);
    Moves(s, step, step.p);
    StepActs(s, step);
  }

  /** A launcher that ends well has replaced the checkpoint with its run and found its staged tree intact. */
  lemma FinishedIsEarned(steps: seq<Step>, s: State, p: Pid)
    requires Reaches(steps, s) && p in s.procs && s.procs[p].pc == Finished
    ensures exists k :: 0 <= k < |steps| && steps[k] == Write(p, Replaced)
    ensures exists k :: 0 <= k < |steps| && steps[k].Start? && steps[k].p == p && steps[k].staged
    ensures exists k :: 0 <= k < |steps| && steps[k].Prepare? && steps[k].p == p && steps[k].stable
    ensures s.procs[p].consumes ==> exists k :: 0 <= k < |steps| && steps[k] == Return(p)
  {
    AllEarnedAlways(steps, s);
    var proc := s.procs[p];
    assert Earned(steps, p, proc);
    var w :| 0 <= w < |steps| && Marks(Writing, steps[w], p, proc);
    assert steps[w] == Write(p, Replaced);
    if proc.consumes {
      var k :| 0 <= k < |steps| && Marks(Returning, steps[k], p, proc);
      assert steps[k] == Return(p);
    }
  }

  // ---------- The first critical section ----------

  function CheckpointAfter(writes: seq<Accepted>): (r: Option<Checkpoint>) {
    if writes == [] then None
    else Some(CheckpointValue(writes[|writes| - 1].index, writes[|writes| - 1].digest))
  }

  /** Some checkpoint of the past accepted this process's run. */
  ghost predicate Prechecked(writes: seq<Accepted>, proc: Proc) {
    exists n :: 0 <= n <= |writes| && PassesAfter(writes, n, proc)
  }

  predicate PassesAfter(writes: seq<Accepted>, n: int, proc: Proc)
    requires 0 <= n <= |writes|
  {
    ValidateCheckpoint(CheckpointAfter(writes[..n]), proc.run.index, proc.run.digest, proc.bootstrap).Ok?
  }

  ghost predicate PrecheckInv(s: State) {
    forall p :: p in s.procs && s.procs[p].pc !in {Captured, Prechecking, Failed, Crashed} ==>
      Prechecked(s.writes, s.procs[p])
  }

  lemma PrecheckedMore(writes: seq<Accepted>, more: seq<Accepted>, a: Proc, b: Proc)
    requires writes <= more && SameLaunch(a, b) && Prechecked(writes, a)
    ensures Prechecked(more, b)
  {
    var n :| 0 <= n <= |writes| && PassesAfter(writes, n, a);
    assert writes[..n] == more[..n];
    assert PassesAfter(more, n, b);
  }

  lemma PassesNow(s: State, p: Pid)
    requires CheckpointInv(s) && p in s.procs && Accepts(s, s.procs[p])
    ensures Prechecked(s.writes, s.procs[p])
  {
    assert s.writes[..|s.writes|] == s.writes;
    assert PassesAfter(s.writes, |s.writes|, s.procs[p]);
  }

  lemma FirstSectionExit(s: State, step: Step, q: Pid)
    requires Apply(s, step).Some? && q in s.procs
    requires s.procs[q].pc in {Captured, Prechecking, Failed, Crashed}
    requires Apply(s, step).value.procs[q].pc !in {Captured, Prechecking, Failed, Crashed}
    ensures Accepts(s, s.procs[q])
  {
  }

  lemma StepKeepsPrecheckInv(s: State, step: Step)
    requires CoreInv(s) && PrecheckInv(s) && Apply(s, step).Some?
    ensures PrecheckInv(Apply(s, step).value)
  {
    var s' := Apply(s, step).value;
    StepWrites(s, step);
    forall q | q in s'.procs && s'.procs[q].pc !in {Captured, Prechecking, Failed, Crashed}
      ensures Prechecked(s'.writes, s'.procs[q])
    {
      assert q in s.procs;
      StepKeepsLaunches(s, step, q);
      if s.procs[q].pc in {Captured, Prechecking, Failed, Crashed} {
        FirstSectionExit(s, step, q);
        PassesNow(s, q);
      }
      PrecheckedMore(s.writes, s'.writes, s.procs[q], s'.procs[q]);
    }
  }

  /** No work is done for an index that no checkpoint of its past accepted. */
  lemma WorkIsPrechecked(steps: seq<Step>, s: State)
    requires Reaches(steps, s)
    ensures PrecheckInv(s)
  {
    if steps == [] {
    } else {
      var front, last := steps[..|steps| - 1], steps[|steps| - 1];
      WorkIsPrechecked(front, After(front).value);
      CoreInvAlways(front, After(front).value);
      StepKeepsPrecheckInv(After(front).value, last);
    }
  }

  // ---------- A verify-only run ----------

  /** A launcher without a consumer, alone: it replaces the checkpoint, lets the lock go and installs nothing. */
  lemma VerifyOnlyFinishes(p: Pid, run: Accepted, now: int) returns (end: State)
    requires ParseIndex(run.index, now).Ok?
    ensures After([Launch(p, run, run.digest, false, now)] + PrepareSteps(p, now) + CommitSteps(p) +
                  [Start(p, now, true)]) == Some(end)
    ensures end.procs[p].pc == Finished && end.checkpoint == Some(CheckpointValue(run.index, run.digest))
    ensures end.holder.None? && end.installed.None? && end.actions == []
  {
    var launch := Launch(p, run, run.digest, false, now);
    var s1 := Apply(Initial(), launch).value;
    ChainOne(Initial(), launch);
    Prepares(s1, p, now);
    var s2 := Goto(s1, p, Prepared);
    ChainThen(Initial(), [launch], s1, PrepareSteps(p, now), s2);
    Commits(s2, p);
    var s3 := Goto(Commit(s2, p), p, Committed).(holder := Some(p));
    ChainThen(Initial(), [launch] + PrepareSteps(p, now), s2, CommitSteps(p), s3);
    end := Apply(s3, Start(p, now, true)).value;
    ChainOne(s3, Start(p, now, true));
    ChainThen(Initial(), [launch] + PrepareSteps(p, now) + CommitSteps(p), s3, [Start(p, now, true)], end);
    ChainIsAfter([launch] + PrepareSteps(p, now) + CommitSteps(p) + [Start(p, now, true)]);
  }
}
