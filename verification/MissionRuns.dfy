/**
 What every sequence of commands keeps, from kickoff on: the plan, closed phases, the pulse gate,
 and the tie between loopbacks and gates.
 */
module MissionRuns {
  import opened Mission

  datatype Session = Session(found: Locks, command: Command)

  ghost function Run(s: State, sessions: seq<Session>): (r: State)
    decreases |sessions|
  {
    if sessions == [] then s
    else Run(Step(s, sessions[0].found, sessions[0].command), sessions[1..])
  }

  // ---------- The plan ----------

  /** Gate ids, titles and commands, and the phases they belong to, are those of `plan`. */
  predicate Follows(s: State, plan: seq<PlanPhase>) { PlanOf(s.phases) == plan }

  lemma SamePlan(before: seq<Phase>, after: seq<Phase>)
    requires |before| == |after|
    requires forall i :: 0 <= i < |before| ==> before[i].id == after[i].id && |before[i].gates| == |after[i].gates|
    requires forall i, j :: 0 <= i < |before| && 0 <= j < |before[i].gates| ==>
               PlanGateOf(before[i].gates[j]) == PlanGateOf(after[i].gates[j])
    ensures PlanOf(before) == PlanOf(after)
  {
    forall i | 0 <= i < |before| ensures PlanOf(before)[i] == PlanOf(after)[i] {
      assert PlanGates(before[i].gates) == PlanGates(after[i].gates);
    }
  }

  lemma StepKeepsPlan(s: State, found: Locks, c: Command)
    ensures PlanOf(Step(s, found, c).phases) == PlanOf(s.phases)
    ensures Step(s, found, c).locks == s.locks
  {
    SamePlan(s.phases, Step(s, found, c).phases);
  }

  lemma InitialFollows(locks: Locks)
    ensures Follows(Initial(locks), locks.plan)
  {
    var phases := FreshPhases(locks.plan);
    forall i | 0 <= i < |phases| ensures PlanOf(phases)[i] == locks.plan[i] {
      assert PlanGates(phases[i].gates) == locks.plan[i].gates;
    }
  }

  // ---------- Closed phases ----------

  ghost predicate DoneAt(s: State, i: int) { 0 <= i < |s.phases| && s.phases[i].status.Done? }

  ghost predicate DoneKept(s: State, t: State) {
    |s.phases| == |t.phases| && forall i {:trigger DoneAt(t, i)} :: DoneAt(s, i) ==> DoneAt(t, i)
  }

  lemma StepKeepsDone(s: State, found: Locks, c: Command)
    ensures DoneKept(s, Step(s, found, c))
  {
  }

  // ---------- The pulse gate ----------

  /** The active phase is always the first one not done. */
  predicate ActiveIsNext(s: State) { s.activePhase == NextActive(s.phases) }

  lemma SameNextActive(before: seq<Phase>, after: seq<Phase>)
    requires |before| == |after|
    requires forall i :: 0 <= i < |before| ==>
               before[i].id == after[i].id && (before[i].status.Done? <==> after[i].status.Done?)
    ensures NextActive(before) == NextActive(after)
  {
  }

  lemma StepKeepsActive(s: State, found: Locks, c: Command)
    requires ActiveIsNext(s)
    ensures ActiveIsNext(Step(s, found, c))
  {
    if !c.ClosePhase? {
      SameNextActive(s.phases, Step(s, found, c).phases);
    }
  }

  lemma ActiveIsFresh(s: State)
    requires ActiveIsNext(s)
    ensures Fresh(s)
  {
  }

  // ---------- Loopbacks and gates ----------

  ghost predicate PassedAt(phases: seq<Phase>, i: int, j: int) {
    0 <= i < |phases| && 0 <= j < |phases[i].gates| && phases[i].gates[j].status.Passed?
  }

  /** Every loopback names exactly one gate. */
  ghost predicate LoopbacksNameGates(s: State) {
    forall n :: 0 <= n < |s.loopbacks| ==> Sole(s.phases, s.loopbacks[n].gate)
  }

  /** A gate with an unresolved loopback is not passed. */
  ghost predicate OpenNotPassed(s: State) {
    forall n, i, j {:trigger GateAt(s.phases, s.loopbacks[n].gate, i, j)} ::
      0 <= n < |s.loopbacks| && !s.loopbacks[n].resolved && GateAt(s.phases, s.loopbacks[n].gate, i, j) ==>
        !PassedAt(s.phases, i, j)
  }

  ghost predicate Covered(s: State, i: int, j: int) {
    exists n :: 0 <= n < |s.loopbacks| && !s.loopbacks[n].resolved && GateAt(s.phases, s.loopbacks[n].gate, i, j)
  }

  /** A gate of a closed phase that is not passed has an unresolved loopback. */
  ghost predicate ClosedCovered(s: State) {
    forall i, j {:trigger Covered(s, i, j)} ::
      DoneAt(s, i) && 0 <= j < |s.phases[i].gates| ==> PassedAt(s.phases, i, j) || Covered(s, i, j)
  }

  /** Stage S0, and so any cycle after the first, is reached by a loopback only. */
  ghost predicate CyclesByLoopback(s: State) {
    0 <= s.stage < 8 && 1 <= s.cycle &&
    (s.stage == 0 || 1 < s.cycle ==> exists n :: 0 <= n < |s.loopbacks| && s.loopbacks[n].toStage == 0)
  }

  lemma GateAtKept(before: seq<Phase>, after: seq<Phase>, id: string, i: int, j: int)
    requires PlanOf(before) == PlanOf(after)
    ensures GateAt(before, id, i, j) <==> GateAt(after, id, i, j)
  {
    if 0 <= i < |before| {
      assert PlanOf(before)[i].gates == PlanOf(after)[i].gates;
      assert |before[i].gates| == |PlanOf(before)[i].gates| == |after[i].gates|;
      if 0 <= j < |before[i].gates| {
        assert PlanOf(before)[i].gates[j].id == PlanOf(after)[i].gates[j].id;
      }
    } else {
      assert |PlanOf(before)| == |PlanOf(after)|;
    }
  }

  lemma SoleKept(before: seq<Phase>, after: seq<Phase>, id: string)
    requires PlanOf(before) == PlanOf(after) && Sole(before, id)
    ensures Sole(after, id)
  {
    var i, j :| SoleAt(before, id, i, j);
    GateAtKept(before, after, id, i, j);
    forall k, l | GateAt(after, id, k, l) ensures k == i && l == j {
      GateAtKept(before, after, id, k, l);
    }
    assert SoleAt(after, id, i, j);
  }

  lemma StepKeepsNames(s: State, found: Locks, c: Command)
    requires LoopbacksNameGates(s)
    ensures LoopbacksNameGates(Step(s, found, c))
  {
    var t := Step(s, found, c);
    StepKeepsPlan(s, found, c);
    forall n | 0 <= n < |t.loopbacks| ensures Sole(t.phases, t.loopbacks[n].gate) {
      SoleKept(s.phases, t.phases, t.loopbacks[n].gate);
    }
  }

  lemma StepKeepsOpenNotPassed(s: State, found: Locks, c: Command)
    requires OpenNotPassed(s)
    ensures OpenNotPassed(Step(s, found, c))
  {
    var t := Step(s, found, c);
    StepKeepsPlan(s, found, c);
    forall n, i, j | 0 <= n < |t.loopbacks| && !t.loopbacks[n].resolved && GateAt(t.phases, t.loopbacks[n].gate, i, j)
      ensures !PassedAt(t.phases, i, j)
    {
      GateAtKept(s.phases, t.phases, t.loopbacks[n].gate, i, j);
      if n < |s.loopbacks| {
        assert !s.loopbacks[n].resolved && GateAt(s.phases, s.loopbacks[n].gate, i, j);
        assert !PassedAt(s.phases, i, j);
      }
    }
  }

  lemma StepKeepsClosedCovered(s: State, found: Locks, c: Command)
    requires ClosedCovered(s) && LoopbacksNameGates(s)
    ensures ClosedCovered(Step(s, found, c))
  {
    var t := Step(s, found, c);
    StepKeepsPlan(s, found, c);
    forall i, j | DoneAt(t, i) && 0 <= j < |t.phases[i].gates| && !PassedAt(t.phases, i, j) ensures Covered(t, i, j) {
      assert PlanOf(t.phases)[i].gates == PlanOf(s.phases)[i].gates;
      if PassedAt(s.phases, i, j) {
        assert GateAt(t.phases, t.loopbacks[|t.loopbacks| - 1].gate, i, j);
      } else {
        assert DoneAt(s, i) && Covered(s, i, j);
        var n :| 0 <= n < |s.loopbacks| && !s.loopbacks[n].resolved && GateAt(s.phases, s.loopbacks[n].gate, i, j);
        GateAtKept(s.phases, t.phases, s.loopbacks[n].gate, i, j);
        StaysOpen(s, found, c, n, i, j);
      }
    }
  }

  /** A loopback is resolved only by passing the gate it names. */
  lemma StaysOpen(s: State, found: Locks, c: Command, n: nat, i: int, j: int)
    requires n < |s.loopbacks| && !s.loopbacks[n].resolved && LoopbacksNameGates(s)
    requires GateAt(s.phases, s.loopbacks[n].gate, i, j) && !PassedAt(Step(s, found, c).phases, i, j)
    ensures n < |Step(s, found, c).loopbacks| && Step(s, found, c).loopbacks[n] == s.loopbacks[n]
  {
    var t := Step(s, found, c);
    var id := s.loopbacks[n].gate;
    if t.loopbacks[n] != s.loopbacks[n] {
      var k := FirstPhase(s.phases, c.phase);
      var gates := s.phases[k].gates;
      assert NewlyPassed(gates, c.exits, id);
      var l :| 0 <= l < |gates| && l < |c.exits| && !gates[l].status.Passed? && c.exits[l] == 0 && gates[l].id == id;
      assert Sole(s.phases, id);
      assert GateAt(s.phases, id, k, l);
      assert PassedAt(t.phases, k, l);
    }
  }

  lemma StepKeepsCycles(s: State, found: Locks, c: Command)
    requires CyclesByLoopback(s)
    ensures CyclesByLoopback(Step(s, found, c))
  {
    var t := Step(s, found, c);
    if s.stage == 0 || 1 < s.cycle {
      var n :| 0 <= n < |s.loopbacks| && s.loopbacks[n].toStage == 0;
      assert t.loopbacks[n].toStage == 0;
    } else if t.stage == 0 || 1 < t.cycle {
      assert t.loopbacks[|t.loopbacks| - 1].toStage == 0;
    }
  }

  // ---------- Every run ----------

  ghost predicate Inv(s: State, locks: Locks) {
    s.locks == locks && Follows(s, locks.plan) && ActiveIsNext(s) && LoopbacksNameGates(s) &&
    OpenNotPassed(s) && ClosedCovered(s) && CyclesByLoopback(s)
  }

  lemma InitialInv(locks: Locks)
    ensures Inv(Initial(locks), locks)
  {
    InitialFollows(locks);
  }

  lemma StepKeepsInv(s: State, locks: Locks, found: Locks, c: Command)
    requires Inv(s, locks)
    ensures Inv(Step(s, found, c), locks)
  {
    StepKeepsPlan(s, found, c);
    StepKeepsActive(s, found, c);
    StepKeepsNames(s, found, c);
    StepKeepsOpenNotPassed(s, found, c);
    StepKeepsClosedCovered(s, found, c);
    StepKeepsCycles(s, found, c);
  }

  /** The invariant holds after every sequence of sessions from kickoff. */
  lemma {:induction false} RunKeepsInv(s: State, locks: Locks, sessions: seq<Session>)
    requires Inv(s, locks)
    ensures Inv(Run(s, sessions), locks)
    decreases |sessions|
  {
    if sessions == [] {
    } else {
      StepKeepsInv(s, locks, sessions[0].found, sessions[0].command);
      RunKeepsInv(Step(s, sessions[0].found, sessions[0].command), locks, sessions[1..]);
    }
  }

  ghost predicate Reachable(s: State, locks: Locks, sessions: seq<Session>) {
    s == Run(Initial(locks), sessions)
  }

  lemma ReachableInv(s: State, locks: Locks, sessions: seq<Session>)
    requires Reachable(s, locks, sessions)
    ensures Inv(s, locks)
  {
    InitialInv(locks);
    RunKeepsInv(Initial(locks), locks, sessions);
  }

  // ---------- Consequences ----------

  lemma {:induction false} RunConcat(s: State, a: seq<Session>, b: seq<Session>)
    ensures Run(s, a + b) == Run(Run(s, a), b)
    decreases |a|
  {
    if a == [] {
      assert a + b == b;
    } else {
      assert (a + b)[0] == a[0] && (a + b)[1..] == a[1..] + b;
      RunConcat(Step(s, a[0].found, a[0].command), a[1..], b);
    }
  }

  /** No command changes a gate's id, title or command, or moves it to another phase. */
  lemma {:induction false} PlanIsKept(locks: Locks, sessions: seq<Session>)
    ensures PlanOf(Run(Initial(locks), sessions).phases) == locks.plan
  {
    ReachableInv(Run(Initial(locks), sessions), locks, sessions);
  }

  /** So a mission loads exactly when the lock files are the ones it began with and their gate ids are safe. */
  lemma LoadsIff(s: State, locks: Locks, sessions: seq<Session>, found: Locks)
    requires Reachable(s, locks, sessions)
    ensures Loads(s, found) <==> found == locks && SafeIds(locks.plan)
  {
    ReachableInv(s, locks, sessions);
  }

  lemma {:induction false} RunKeepsDone(s: State, sessions: seq<Session>)
    ensures DoneKept(s, Run(s, sessions))
    decreases |sessions|
  {
    if sessions == [] {
    } else {
      var t := Step(s, sessions[0].found, sessions[0].command);
      StepKeepsDone(s, sessions[0].found, sessions[0].command);
      RunKeepsDone(t, sessions[1..]);
      forall i | DoneAt(s, i) ensures DoneAt(Run(s, sessions), i) {
        assert DoneAt(t, i);
      }
    }
  }

  /** A phase once done is done ever after. */
  lemma {:induction false} DoneIsPermanent(locks: Locks, earlier: seq<Session>, later: seq<Session>, i: int)
    requires DoneAt(Run(Initial(locks), earlier), i)
    ensures DoneAt(Run(Initial(locks), earlier + later), i)
  {
    RunConcat(Initial(locks), earlier, later);
    RunKeepsDone(Run(Initial(locks), earlier), later);
  }

  /** The pulse gate never halts: `advance` is refused exactly when it would move backward. */
  lemma AdvanceRefusedIffBackward(s: State, locks: Locks, sessions: seq<Session>, stage: Stage)
    requires Reachable(s, locks, sessions) && SafeIds(locks.plan)
    ensures Fresh(s)
    ensures stage < s.stage ==> Step(s, locks, Advance(stage)) == s
    ensures stage >= s.stage ==>
              Step(s, locks, Advance(stage)).stage == stage &&
              Step(s, locks, Advance(stage)).cycle == s.cycle + (if stage == 0 then 1 else 0)
  {
    ReachableInv(s, locks, sessions);
    LoadsIff(s, locks, sessions, locks);
    ActiveIsFresh(s);
  }

  /** The refusal for open loopbacks never fires: a phase closes exactly when all its gates passed. */
  lemma {:induction false} ClosesIffAllPassed(s: State, locks: Locks, sessions: seq<Session>, id: string)
    requires Reachable(s, locks, sessions) && SafeIds(locks.plan)
    requires FirstPhase(s.phases, id) < |s.phases|
    ensures var k := FirstPhase(s.phases, id);
            (AllPassed(s.phases[k].gates) ==>
               NoneOpen(s.loopbacks, s.phases[k].gates) && DoneAt(Step(s, locks, ClosePhase(id)), k)) &&
            (!AllPassed(s.phases[k].gates) ==> Step(s, locks, ClosePhase(id)) == s)
  {
    ReachableInv(s, locks, sessions);
    LoadsIff(s, locks, sessions, locks);
    var k := FirstPhase(s.phases, id);
    if AllPassed(s.phases[k].gates) {
      forall n | 0 <= n < |s.loopbacks| ensures !OpenFor(s.loopbacks[n], s.phases[k].gates) {
        if OpenFor(s.loopbacks[n], s.phases[k].gates) {
          var j :| 0 <= j < |s.phases[k].gates| && s.phases[k].gates[j].id == s.loopbacks[n].gate;
          assert GateAt(s.phases, s.loopbacks[n].gate, k, j);
          assert PassedAt(s.phases, k, j);
        }
      }
    }
  }

  /** When every phase is done, the loopbacks are all resolved exactly when the gates all passed. */
  lemma FinishedMission(s: State, locks: Locks, sessions: seq<Session>)
    requires Reachable(s, locks, sessions)
    requires forall i :: 0 <= i < |s.phases| ==> DoneAt(s, i)
    ensures (forall n :: 0 <= n < |s.loopbacks| ==> s.loopbacks[n].resolved) <==>
            (forall i, j :: 0 <= i < |s.phases| && 0 <= j < |s.phases[i].gates| ==> PassedAt(s.phases, i, j))
  {
    ReachableInv(s, locks, sessions);
    if forall n :: 0 <= n < |s.loopbacks| ==> s.loopbacks[n].resolved {
      forall i, j | 0 <= i < |s.phases| && 0 <= j < |s.phases[i].gates| ensures PassedAt(s.phases, i, j) {
        assert DoneAt(s, i);
        assert !Covered(s, i, j);
      }
    } else {
      var n :| 0 <= n < |s.loopbacks| && !s.loopbacks[n].resolved;
      assert Sole(s.phases, s.loopbacks[n].gate);
      var i, j :| SoleAt(s.phases, s.loopbacks[n].gate, i, j);
      assert GateAt(s.phases, s.loopbacks[n].gate, i, j);
      assert !PassedAt(s.phases, i, j);
    }
  }

  /** A second cycle begins only after some failure was routed back to S0; `advance` alone never gets there. */
  lemma NewCycleNeedsLoopback(s: State, locks: Locks, sessions: seq<Session>)
    requires Reachable(s, locks, sessions) && 1 < s.cycle
    ensures exists n :: 0 <= n < |s.loopbacks| && s.loopbacks[n].toStage == 0
  {
    ReachableInv(s, locks, sessions);
  }

  // ---------- The loopback log ----------

  /** Entries are added at the end and never changed but by being resolved. */
  ghost predicate LogGrows(a: seq<Loopback>, b: seq<Loopback>) {
    |a| <= |b| && forall n :: 0 <= n < |a| ==>
      b[n] == a[n].(resolved := b[n].resolved) && (a[n].resolved ==> b[n].resolved)
  }

  lemma {:induction false} LoopbacksAreNeverForgotten(s: State, sessions: seq<Session>)
    ensures LogGrows(s.loopbacks, Run(s, sessions).loopbacks)
    decreases |sessions|
  {
    if sessions == [] {
    } else {
      LoopbacksAreNeverForgotten(Step(s, sessions[0].found, sessions[0].command), sessions[1..]);
    }
  }
}
