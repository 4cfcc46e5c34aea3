/**
 How commands move a mission between its stages S0 to S7 and its phases through their statuses
 (skills/archipelago/protocol/scripts/loop.py).
 */
module MissionStages {
  import opened Mission
  import opened MissionRuns
  import opened Outcomes

  // ---------- Gate ids ----------

  /** `id` reads P, one to six digits, -G and the family digit. */
  ghost predicate GateId(id: string, digits: string, family: int) {
    1 <= |digits| <= 6 && (forall i :: 0 <= i < |digits| ==> '0' <= digits[i] <= '9') && 0 <= family <= 6 &&
    id == "P" + digits + "-G" + ["0123456"[family]]
  }

  lemma GateIdFamily(id: string, digits: string, family: int)
    requires GateId(id, digits, family)
    ensures Family(id) == Some(family)
  {
    var n := |digits|;
    assert id[0] == 'P' && id[n + 1] == '-' && id[n + 2] == 'G' && id[n + 3] == "0123456"[family] && |id| == n + 4;
    assert forall i :: 1 <= i < n + 1 ==> id[i] == digits[i - 1];
    assert "0123456"[family] as int == '0' as int + family;
  }

  /** The family is read of exactly the gate ids. */
  lemma FamilyIff(id: string)
    ensures Family(id).Some? <==> exists digits, family :: GateId(id, digits, family)
    ensures Family(id).Some? ==> exists digits :: GateId(id, digits, Family(id).value)
  {
    if Family(id).Some? {
      var n, d := |id| - 4, Family(id).value;
      var digits := id[1..n + 1];
      assert "0123456"[d] as int == '0' as int + d;
      assert id == "P" + digits + "-G" + ["0123456"[d]];
      assert GateId(id, digits, d);
    }
    if digits, family :| GateId(id, digits, family) { GateIdFamily(id, digits, family); }
  }

  // ---------- Failures ----------

  /** Where a failed gate sends the mission: the caller's stage, or by family S2 for G4, S4 for G5, else its number. */
  predicate SendsTo(family: int, route: Option<Stage>, to: int) {
    if route.Some? then to == route.value
    else if family == 4 then to == 2
    else if family == 5 then to == 4
    else to == family
  }

  /** A failure is recorded: the gate has an id and is alone in having it, and the mission does not move forward. */
  ghost predicate CanFail(s: State, found: Locks, gate: string, route: Option<Stage>) {
    Loads(s, found) && Sole(s.phases, gate) && 0 <= s.stage < 8 &&
    exists digits, family, to :: GateId(gate, digits, family) && SendsTo(family, route, to) && to <= s.stage
  }

  /** Only the gate with this id fails; everything else about the phases stays. */
  ghost predicate OnlyFails(before: seq<Phase>, after: seq<Phase>, gate: string) {
    |after| == |before| &&
    forall i :: 0 <= i < |before| ==>
      after[i].id == before[i].id && after[i].status == before[i].status && |after[i].gates| == |before[i].gates| &&
      forall j :: 0 <= j < |before[i].gates| ==>
        after[i].gates[j] ==
          if before[i].gates[j].id == gate then before[i].gates[j].(status := Failed) else before[i].gates[j]
  }

  /**
   A failure changes nothing unless it can be recorded; then it marks the gate, moves the mission to the stage its
   family or the caller says, never forward, and appends a loopback with the caller's gate and reason.
   */
  lemma FailMovesBack(
      s: State, found: Locks, gate: string, reason: string, route: Option<Stage>)
    ensures var t := Step(s, found, Command.Fail(gate, reason, route));
            (t == s <==> !CanFail(s, found, gate, route)) && t.stage <= s.stage
    ensures var t := Step(s, found, Command.Fail(gate, reason, route));
            t != s ==>
              exists digits, family :: GateId(gate, digits, family) && SendsTo(family, route, t.stage) &&
                t.loopbacks == s.loopbacks + [Loopback(gate, family, t.stage, reason, false)] &&
                OnlyFails(s.phases, t.phases, gate) && t.cycle == s.cycle && t.activePhase == s.activePhase
  {
    var t := Step(s, found, Command.Fail(gate, reason, route));
    FamilyIff(gate);
    if Family(gate).Some? {
      var digits :| GateId(gate, digits, Family(gate).value);
      SendsToTarget(gate, route);
      if t != s { assert GateId(gate, digits, Family(gate).value) && SendsTo(Family(gate).value, route, t.stage); }
    }
    if CanFail(s, found, gate, route) {
      var digits, family, to :| GateId(gate, digits, family) && SendsTo(family, route, to) && to <= s.stage;
      GateIdFamily(gate, digits, family);
      assert |t.loopbacks| == |s.loopbacks| + 1;
    }
  }

  lemma SendsToTarget(gate: string, route: Option<Stage>)
    requires Family(gate).Some?
    ensures forall to: int :: SendsTo(Family(gate).value, route, to) <==> to == Target(gate, route)
  {
  }

  // ---------- Stages ----------

  /** Only `advance` raises the stage, to the one it names; only `fail` lowers it; a cycle begins only at S0. */
  lemma StageMoves(s: State, found: Locks, c: Command)
    ensures var t := Step(s, found, c);
            (t.stage > s.stage ==> c.Advance? && t.stage == c.stage) && (t.stage < s.stage ==> c.Fail?) &&
            (t.cycle != s.cycle ==> c.Advance? && c.stage == 0 && t.stage == 0 && t.cycle == s.cycle + 1)
  {
    if c.Fail? { FailMovesBack(s, found, c.gate, c.reason, c.route); }
  }

  lemma {:induction false} StageInRange(s: State, sessions: seq<Session>)
    requires 0 <= s.stage < 8
    ensures 0 <= Run(s, sessions).stage < 8
    decreases |sessions|
  {
    if sessions == [] {
    } else {
      StageInRange(Step(s, sessions[0].found, sessions[0].command), sessions[1..]);
    }
  }

  /** In a reachable mission the stage is one of the eight, so a failure is refused for the gate or its target alone. */
  lemma ReachableFail(
      s: State, locks: Locks, sessions: seq<Session>, found: Locks, gate: string, reason: string, route: Option<Stage>)
    requires Reachable(s, locks, sessions)
    ensures 0 <= s.stage < 8
    ensures Step(s, found, Command.Fail(gate, reason, route)) != s <==>
            Loads(s, found) && Sole(s.phases, gate) &&
            exists digits, family, to :: GateId(gate, digits, family) && SendsTo(family, route, to) && to <= s.stage
  {
    StageInRange(Initial(locks), sessions);
    FailMovesBack(s, found, gate, reason, route);
  }

  // ---------- Phases ----------

  /** The run had an exit code for every gate that had not passed. */
  ghost predicate ReachesAll(gates: seq<Gate>, exits: seq<int>) {
    forall j :: |exits| <= j < |gates| ==> gates[j].status == Passed
  }

  /** A run cut short changes nothing. */
  lemma {:induction false} CutRunChangesNothing(s: State, found: Locks, id: string, exits: seq<int>)
    requires var k := FirstPhase(s.phases, id);
             k < |s.phases| && !ReachesAll(s.phases[k].gates, exits)
    ensures Step(s, found, Command.RunGates(id, exits)) == s
  {
    var gates := s.phases[FirstPhase(s.phases, id)].gates;
    var j :| |exits| <= j < |gates| && gates[j].status != Passed;
    assert CutShort(gates, exits);
  }

  /** A phase begins exactly when its gates are run to the end, and ends exactly when it is closed. */
  lemma PhaseMoves(s: State, found: Locks, c: Command, i: nat)
    requires i < |s.phases|
    ensures var t := Step(s, found, c);
            |t.phases| == |s.phases| && t.phases[i].id == s.phases[i].id &&
            (t.phases[i].status != s.phases[i].status ==>
               (c.RunGates? && c.phase == s.phases[i].id && s.phases[i].status == Pending &&
                t.phases[i].status == InProgress) ||
               (c.ClosePhase? && c.phase == s.phases[i].id && t.phases[i].status == Done))
    ensures c.RunGates? && Loads(s, found) && FirstPhase(s.phases, c.phase) == i &&
            ReachesAll(s.phases[i].gates, c.exits) ==>
              Step(s, found, c).phases[i].status != Pending
  {
  }

  /** A gate passes only by being run with exit code zero, and stops passing only by a recorded failure. */
  lemma GateMoves(s: State, found: Locks, c: Command, i: nat, j: nat)
    requires i < |s.phases| && j < |s.phases[i].gates|
    ensures var t := Step(s, found, c);
            |t.phases| == |s.phases| && |t.phases[i].gates| == |s.phases[i].gates|
    ensures var g, h := s.phases[i].gates[j], Step(s, found, c).phases[i].gates[j];
            h == g.(status := h.status) &&
            (h.status == Passed && g.status != Passed ==>
               c.RunGates? && c.phase == s.phases[i].id && j < |c.exits| && c.exits[j] == 0) &&
            (h.status == Failed && g.status != Failed ==>
               (c.Fail? && c.gate == g.id) ||
               (c.RunGates? && c.phase == s.phases[i].id && g.status != Passed && j < |c.exits| && c.exits[j] != 0)) &&
            (h.status == Untried ==> g.status == Untried)
  {
  }

  /** A run to the end settles every gate of the phase by its exit code. */
  lemma {:induction false} RunSettles(s: State, found: Locks, id: string, exits: seq<int>, j: nat)
    requires var k := FirstPhase(s.phases, id);
             Loads(s, found) && k < |s.phases| && ReachesAll(s.phases[k].gates, exits) && j < |s.phases[k].gates|
    ensures var k := FirstPhase(s.phases, id);
            var t := Step(s, found, Command.RunGates(id, exits));
            |t.phases| == |s.phases| && |t.phases[k].gates| == |s.phases[k].gates| &&
            (t.phases[k].gates[j].status == Passed <==>
               s.phases[k].gates[j].status == Passed || (j < |exits| && exits[j] == 0)) &&
            (t.phases[k].gates[j].status == Failed <==>
               s.phases[k].gates[j].status != Passed && j < |exits| && exits[j] != 0)
  {
  }

  /** A loopback is resolved by a run of gates exactly when a gate it names went from not passed to passed. */
  lemma {:induction false} RunResolves(s: State, found: Locks, id: string, exits: seq<int>, i: nat)
    requires var k := FirstPhase(s.phases, id);
             Loads(s, found) && k < |s.phases| && ReachesAll(s.phases[k].gates, exits) && i < |s.loopbacks|
    ensures var t, gates := Step(s, found, Command.RunGates(id, exits)), s.phases[FirstPhase(s.phases, id)].gates;
            |t.loopbacks| == |s.loopbacks| &&
            t.loopbacks[i] == s.loopbacks[i].(resolved := t.loopbacks[i].resolved) &&
            (t.loopbacks[i].resolved <==>
               s.loopbacks[i].resolved ||
               exists j :: 0 <= j < |gates| && j < |exits| && gates[j].id == s.loopbacks[i].gate &&
                           gates[j].status != Passed && exits[j] == 0)
  {
  }

  /** All gates passed, and no open loopback names one of them. */
  ghost predicate CanClose(s: State, k: nat)
    requires k < |s.phases|
  {
    (forall j :: 0 <= j < |s.phases[k].gates| ==> s.phases[k].gates[j].status == Passed) &&
    forall i, j :: 0 <= i < |s.loopbacks| && 0 <= j < |s.phases[k].gates| ==>
      s.loopbacks[i].resolved || s.loopbacks[i].gate != s.phases[k].gates[j].id
  }

  /** The first phase that is not done, if there is one, is the active one. */
  ghost predicate FirstOpenIsActive(s: State) {
    (s.activePhase == None ==> forall i :: 0 <= i < |s.phases| ==> s.phases[i].status == Done) &&
    (s.activePhase != None ==>
       exists i :: 0 <= i < |s.phases| && s.phases[i].status != Done && Some(s.phases[i].id) == s.activePhase &&
                   forall j :: 0 <= j < i ==> s.phases[j].status == Done)
  }

  /** Closing is refused, or it marks the first phase of this id done and makes the first open phase active. */
  lemma {:induction false} CloseMeans(s: State, found: Locks, id: string)
    ensures var t, k := Step(s, found, Command.ClosePhase(id)), FirstPhase(s.phases, id);
            if Loads(s, found) && k < |s.phases| && CanClose(s, k) then
              t == s.(phases := t.phases, activePhase := t.activePhase) && FirstOpenIsActive(t) &&
              |t.phases| == |s.phases| && t.phases[k] == s.phases[k].(status := Done) &&
              forall i :: 0 <= i < |s.phases| && i != k ==> t.phases[i] == s.phases[i]
            else t == s
  {
    var k := FirstPhase(s.phases, id);
    if k < |s.phases| {
      var gates := s.phases[k].gates;
      assert CanClose(s, k) <==> AllPassed(gates) && NoneOpen(s.loopbacks, gates);
      var t := Step(s, found, Command.ClosePhase(id));
      if t.activePhase != s.activePhase || t.phases != s.phases {
        var first := FirstUndone(t.phases);
        assert first < |t.phases| ==> t.phases[first].status != Done;
      }
    }
  }

  /** Every phase up to the first one named active is done. */
  ghost predicate UpToDate(s: State) {
    forall i :: 0 <= i < |s.phases| && s.phases[i].status != Done ==>
      exists j :: 0 <= j <= i && Some(s.phases[j].id) == s.activePhase
  }

  /** Advancing is refused while an earlier phase is open, and never goes back; to S0 it begins the next cycle. */
  lemma AdvanceMeans(s: State, found: Locks, stage: Stage)
    ensures Step(s, found, Command.Advance(stage)) ==
            if Loads(s, found) && UpToDate(s) && stage >= s.stage
            then s.(stage := stage, cycle := if stage == 0 then s.cycle + 1 else s.cycle) else s
  {
    forall i | 0 <= i < |s.phases|
      ensures Reached(s, i) <==> exists j :: 0 <= j <= i && Some(s.phases[j].id) == s.activePhase
    {
    }
  }

  /** A mission starts at S2, in its first cycle, with the plan's gates untried and its first phase active. */
  lemma StartsAtS2(locks: Locks)
    ensures var s := Initial(locks);
            s.stage == 2 && s.cycle == 1 && s.loopbacks == [] && s.locks == locks && |s.phases| == |locks.plan| &&
            (s.activePhase == if locks.plan == [] then None else Some(locks.plan[0].id)) &&
            forall i :: 0 <= i < |s.phases| ==>
              s.phases[i].id == locks.plan[i].id && s.phases[i].status == Pending &&
              |s.phases[i].gates| == |locks.plan[i].gates| &&
              forall j :: 0 <= j < |s.phases[i].gates| ==>
                var g, p := s.phases[i].gates[j], locks.plan[i].gates[j];
                g == Gate(p.id, p.title, p.command, Untried)
  {
  }

  /** No gate of a phase that has not begun has passed. */
  ghost predicate PendingUnpassed(s: State) {
    forall i, j :: 0 <= i < |s.phases| && s.phases[i].status == Pending && 0 <= j < |s.phases[i].gates| ==>
      s.phases[i].gates[j].status != Passed
  }

  lemma StepKeepsPending(s: State, found: Locks, c: Command)
    requires PendingUnpassed(s)
    ensures PendingUnpassed(Step(s, found, c))
  {
    var t := Step(s, found, c);
    forall i, j | 0 <= i < |t.phases| && t.phases[i].status == Pending && 0 <= j < |t.phases[i].gates|
      ensures t.phases[i].gates[j].status != Passed
    {
      PhaseMoves(s, found, c, i);
      GateMoves(s, found, c, i, j);
    }
  }

  lemma {:induction false} PendingIsUnpassed(s: State, sessions: seq<Session>)
    requires PendingUnpassed(s)
    ensures PendingUnpassed(Run(s, sessions))
    decreases |sessions|
  {
    if sessions == [] {
    } else {
      StepKeepsPending(s, sessions[0].found, sessions[0].command);
      PendingIsUnpassed(Step(s, sessions[0].found, sessions[0].command), sessions[1..]);
    }
  }
}
