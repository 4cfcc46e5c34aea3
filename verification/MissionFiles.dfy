/**
 The commands of loop.py and kickoff.py as they change ops/mission/state.json and the ledger: each
 loads the state, works on its own copy, appends to the ledger and writes the state back at the end.
 */
module MissionFiles {
  import opened Outcomes
  import opened Mission
  import opened Sequences

  /** The ids of an approved plan, gate by gate. */
  method CheckIds(plan: seq<PlanPhase>) returns (ok: bool)
    ensures ok <==> SafeIds(plan)
  {
    for i := 0 to |plan|
      invariant SafeIds(plan[..i])
    {
      for j := 0 to |plan[i].gates|
        invariant forall k :: 0 <= k < j ==> Family(plan[i].gates[k].id).Some?
      {
        if Family(plan[i].gates[j].id).None? { return false; }
      }
      assert plan[..i + 1] == plan[..i] + [plan[i]];
    }
    assert plan[..|plan|] == plan;
    return true;
  }

  method ValidateLockBinding(s: State, found: Locks) returns (ok: bool)
    ensures ok <==> Loads(s, found)
  {
    if found != s.locks { return false; }
    ok := CheckIds(found.plan);
    ok := ok && Flatten(PlanOf(s.phases)) == Flatten(found.plan);
  }

  method PulseGateOk(s: State) returns (ok: bool)
    ensures ok <==> Fresh(s)
  {
    var seenActive := false;
    for i := 0 to |s.phases|
      invariant seenActive <==> exists j :: 0 <= j < i && Some(s.phases[j].id) == s.activePhase
      invariant forall j :: 0 <= j < i && !Reached(s, j) ==> s.phases[j].status.Done?
    {
      if Some(s.phases[i].id) == s.activePhase { seenActive := true; }
      assert seenActive <==> Reached(s, i);
      if !seenActive && !s.phases[i].status.Done? { return false; }
    }
    return true;
  }

  /** Marks resolved the open loopbacks of one gate. */
  method ResolveLoopbacks(loopbacks: seq<Loopback>, id: string) returns (r: seq<Loopback>)
    ensures |r| == |loopbacks|
    ensures forall i :: 0 <= i < |r| ==>
              r[i] == loopbacks[i].(resolved := loopbacks[i].resolved || loopbacks[i].gate == id)
  {
    r := loopbacks;
    for i := 0 to |r|
      invariant |r| == |loopbacks|
      invariant forall k :: 0 <= k < i ==>
                  r[k] == loopbacks[k].(resolved := loopbacks[k].resolved || loopbacks[k].gate == id)
      invariant forall k :: i <= k < |r| ==> r[k] == loopbacks[k]
    {
      if r[i].gate == id && !r[i].resolved {
        r := r[i := r[i].(resolved := true)];
      }
    }
  }

  /** The places of the gates with this id, in order. */
  method Matches(phases: seq<Phase>, id: string) returns (r: seq<(int, int)>)
    ensures |r| == 1 ==> SoleAt(phases, id, r[0].0, r[0].1)
    ensures |r| != 1 ==> !Sole(phases, id)
  {
    r := [];
    for i := 0 to |phases|
      invariant forall m :: 0 <= m < |r| ==> GateAt(phases, id, r[m].0, r[m].1) && r[m].0 < i
      invariant forall k, l :: GateAt(phases, id, k, l) && k < i ==> (k, l) in r
      invariant |r| > 1 ==> r[|r| - 1] != r[0]
    {
      for j := 0 to |phases[i].gates|
        invariant forall m :: 0 <= m < |r| ==>
                    GateAt(phases, id, r[m].0, r[m].1) && (r[m].0 < i || (r[m].0 == i && r[m].1 < j))
        invariant forall k, l :: GateAt(phases, id, k, l) && (k < i || (k == i && l < j)) ==> (k, l) in r
        invariant |r| > 1 ==> r[|r| - 1] != r[0]
      {
        if phases[i].gates[j].id == id { r := r + [(i, j)]; }
      }
    }
    if Sole(phases, id) { SoleListed(phases, id, r); }
    if |r| == 1 {
      forall k, l | GateAt(phases, id, k, l) ensures k == r[0].0 && l == r[0].1 {
        assert (k, l) in r;
      }
    }
  }

  lemma SoleListed(phases: seq<Phase>, id: string, r: seq<(int, int)>)
    requires Sole(phases, id)
    requires forall m :: 0 <= m < |r| ==> GateAt(phases, id, r[m].0, r[m].1)
    requires forall k, l :: GateAt(phases, id, k, l) ==> (k, l) in r
    ensures |r| >= 1 && forall m :: 0 <= m < |r| ==> r[m] == r[0]
  {
    var i, j :| SoleAt(phases, id, i, j);
    assert (i, j) in r;
    forall m | 0 <= m < |r| ensures r[m] == (i, j) {
      assert GateAt(phases, id, r[m].0, r[m].1);
    }
  }

  class MissionFile {
    var state: Option<State>
    var ledger: seq<Event>

    constructor ()
      ensures state == None && ledger == []
    {
      state, ledger := None, [];
    }

    /** Writes the first state, unless there is one or the contracts refuse. */
    method Kickoff(locks: Locks, validated: bool, planIdea: string, ideaId: string, verdict: string)
      returns (ok: bool)
      modifies this`state
      ensures ok <==>
                old(state) == None && validated && planIdea == ideaId && (verdict == "ready" || verdict == "warning")
      ensures state == if ok then Some(Initial(locks)) else old(state)
    {
      if state.Some? || !validated || planIdea != ideaId { return false; }
      if verdict != "ready" && verdict != "warning" { return false; }
      var phases: seq<Phase> := [];
      for i := 0 to |locks.plan|
        invariant phases == FreshPhases(locks.plan)[..i]
      {
        var p := locks.plan[i];
        phases := phases + [Phase(p.id, FreshGates(p.gates), Pending)];
      }
      assert phases == FreshPhases(locks.plan);
      state := Some(State(locks, phases, if phases == [] then None else Some(phases[0].id), 2, 1, []));
      return true;
    }

    /** One gate's command: two events, its new status, and its loopbacks resolved if it passes. */
    method RunOne(gate: Gate, loopbacks: seq<Loopback>, exit: int) returns (ran: Gate, open: seq<Loopback>)
      modifies this`ledger
      ensures ran == gate.(status := if exit == 0 then Passed else Failed)
      ensures |open| == |loopbacks|
      ensures forall n :: 0 <= n < |open| ==>
                open[n] == loopbacks[n].(resolved := loopbacks[n].resolved || (exit == 0 &&
                  loopbacks[n].gate == gate.id))
      ensures ledger == old(ledger) + [GateStart(gate.id), GateRun(gate.id, exit == 0)]
    {
      ledger := ledger + [GateStart(gate.id)];
      ran, open := gate.(status := if exit == 0 then Passed else Failed), loopbacks;
      if exit == 0 { open := ResolveLoopbacks(loopbacks, gate.id); }
      ledger := ledger + [GateRun(gate.id, exit == 0)];
    }

    /** The loop over one phase's gates, on the command's own copy of gates and loopbacks. */
    method RunEach(before: seq<Gate>, loopbacks: seq<Loopback>, exits: seq<int>, started: bool)
      returns (complete: bool, gates: seq<Gate>, open: seq<Loopback>, allPass: bool)
      modifies this`ledger
      ensures complete <==> !CutShort(before, exits)
      ensures complete ==>
                gates == RanGates(before, exits) && open == Resolved(loopbacks, before, exits) &&
                (allPass <==> AllPassed(gates))
      ensures ledger == old(ledger) + RunEvents(before, exits, started)
    {
      gates, open, allPass := before, loopbacks, true;
      ghost var start := ledger;
      ProgressStarts(before, loopbacks, exits);
      for i := 0 to |before|
        invariant i <= CutAt(before, exits, 0) && Progress(before, loopbacks, exits, gates, open, allPass, i)
        invariant ledger == start + GateEvents(before, exits, i)
      {
        if !before[i].status.Passed? && |exits| <= i {
          LedgerAtCut(start, ledger, before, exits, i);
          if started { ledger := ledger + [GateStart(before[i].id)]; }
          return false, gates, open, false;
        }
        gates, open, allPass := Turn(before, loopbacks, exits, gates, open, allPass, i);
        LedgerNext(start, before, exits, i);
      }
      LedgerAtEnd(start, ledger, before, exits, started);
      RunComplete(before, loopbacks, exits, gates, open, allPass);
      return true, gates, open, allPass;
    }

    /** One turn of the loop: a gate already passed is skipped, another is run. */
    method Turn(
        ghost before: seq<Gate>, ghost loopbacks: seq<Loopback>, exits: seq<int>, gates: seq<Gate>, open: seq<Loopback>,
        allPass: bool, i: nat)
      returns (nextGates: seq<Gate>, nextOpen: seq<Loopback>, nextPass: bool)
      requires i < |before| && (before[i].status.Passed? || i < |exits|)
      requires Progress(before, loopbacks, exits, gates, open, allPass, i)
      modifies this`ledger
      ensures Progress(before, loopbacks, exits, nextGates, nextOpen, nextPass, i + 1)
      ensures ledger == old(ledger) + EventsAt(before, exits, i)
    {
      nextGates, nextOpen, nextPass := gates, open, allPass;
      if !gates[i].status.Passed? {
        var ran;
        ran, nextOpen := RunOne(gates[i], open, exits[i]);
        nextGates, nextPass := gates[i := ran], allPass && exits[i] == 0;
      }
      ResolvedSnoc(loopbacks, before, exits, open, nextOpen, i);
      RanSnoc(before, exits, gates, nextGates, i);
    }

    /**
     Every gate not passed is run in turn; the state is written only when the loop ends. With `stops` the
     process ends between the last append and the write, here and in the other commands.
     */
    method RunGates(found: Locks, id: string, exits: seq<int>, started: bool, stops: bool) returns (ok: bool)
      modifies this
      ensures old(state).None? ==> !ok && state == old(state) && ledger == old(ledger)
      ensures old(state).Some? ==>
                var s, c := old(state).value, Command.RunGates(id, exits);
                state == Some(if stops then s else Step(s, found, c)) &&
                ledger == old(ledger) + EventsOf(s, found, c, started)
      ensures ok <==>
                (!stops && old(state).Some? && Loads(old(state).value, found) &&
                 FirstPhase(old(state).value.phases, id) < |state.value.phases| &&
                 AllPassed(state.value.phases[FirstPhase(old(state).value.phases, id)].gates))
    {
      if state.None? { return false; }
      var s := state.value;
      var bound := ValidateLockBinding(s, found);
      if !bound { return false; }
      var k := FirstPhase(s.phases, id);
      if k == |s.phases| { return false; }
      var complete, gates, open, allPass := RunEach(s.phases[k].gates, s.loopbacks, exits, started);
      if !complete || stops { return false; }
      s := s.(phases := s.phases[k := Phase(s.phases[k].id, gates, Begun(s.phases[k].status))], loopbacks := open);
      state := Some(s);
      return allPass;
    }

    method Fail(found: Locks, gate: string, reason: string, route: Option<Stage>, stops: bool) returns (ok: bool)
      modifies this
      ensures old(state).None? ==> !ok && state == old(state) && ledger == old(ledger)
      ensures old(state).Some? ==>
                var s, c := old(state).value, Command.Fail(gate, reason, route);
                state == Some(if stops then s else Step(s, found, c)) &&
                ledger == old(ledger) + EventsOf(s, found, c, false)
      ensures ok <==> !stops && ledger != old(ledger)
    {
      if state.None? { return false; }
      var s := state.value;
      var bound := ValidateLockBinding(s, found);
      if !bound { return false; }
      var matches := Matches(s.phases, gate);
      if |matches| != 1 { return false; }
      assert Sole(s.phases, gate);
      if Family(gate).None? { return false; }
      var to := if route.Some? then route.value else Route(Family(gate).value);
      if !(0 <= s.stage < 8) || to > s.stage { return false; }
      var (i, j) := matches[0];
      var phase := s.phases[i];
      var phases := s.phases[i := phase.(gates := phase.gates[j := phase.gates[j].(status := Failed)])];
      MarkedIsSole(s.phases, gate, i, j);
      var entry := Loopback(gate, Family(gate).value, to, reason, false);
      assert AfterFail(s, gate, reason, route).loopbacks == s.loopbacks + [entry];
      s := s.(phases := phases, loopbacks := s.loopbacks + [entry], stage := to);
      ledger := ledger + [LoopedBack(entry)];
      if stops { return false; }
      state := Some(s);
      return true;
    }

    method Advance(found: Locks, stage: Stage, stops: bool) returns (ok: bool)
      modifies this
      ensures old(state).None? ==> !ok && state == old(state) && ledger == old(ledger)
      ensures old(state).Some? ==>
                var s, c := old(state).value, Command.Advance(stage);
                state == Some(if stops then s else Step(s, found, c)) &&
                ledger == old(ledger) + EventsOf(s, found, c, false)
      ensures ok <==> !stops && ledger != old(ledger)
      ensures ok ==> state.Some? && state.value.stage == stage
    {
      if state.None? { return false; }
      var s := state.value;
      var bound := ValidateLockBinding(s, found);
      if !bound { return false; }
      var upToDate := PulseGateOk(s);
      if !upToDate { return false; }
      var current := s.stage;
      if stage < current { return false; }
      s := s.(stage := stage);
      if stage == 0 { s := s.(cycle := s.cycle + 1); }
      ledger := ledger + [StageAdvance(current, stage)];
      if stops { return false; }
      state := Some(s);
      return true;
    }

    method ClosePhase(found: Locks, id: string, stops: bool) returns (ok: bool)
      modifies this
      ensures old(state).None? ==> !ok && state == old(state) && ledger == old(ledger)
      ensures old(state).Some? ==>
                var s, c := old(state).value, Command.ClosePhase(id);
                state == Some(if stops then s else Step(s, found, c)) &&
                ledger == old(ledger) + EventsOf(s, found, c, false)
      ensures ok <==> !stops && ledger != old(ledger)
      ensures ok ==>
                old(state).Some? && state.Some? &&
                var k := FirstPhase(old(state).value.phases, id);
                k < |state.value.phases| && state.value.phases[k].status.Done? && AllPassed(state.value.phases[k].gates)
    {
      if state.None? { return false; }
      var s := state.value;
      var bound := ValidateLockBinding(s, found);
      if !bound { return false; }
      var k := FirstPhase(s.phases, id);
      if k == |s.phases| || !AllPassed(s.phases[k].gates) { return false; }
      if !NoneOpen(s.loopbacks, s.phases[k].gates) { return false; }
      s := s.(phases := s.phases[k := s.phases[k].(status := Done)]);
      s := s.(activePhase := NextActive(s.phases));
      ledger := ledger + [PhaseClose(id, s.activePhase)];
      if stops { return false; }
      state := Some(s);
      return true;
    }
  }

  /** The first i gates have run, the others have not. */
  ghost predicate RanTo(before: seq<Gate>, exits: seq<int>, gates: seq<Gate>, i: int) {
    |gates| == |before| &&
    (forall j :: 0 <= j < i && j < |gates| ==>
       gates[j] == Ran(before[j], exits, j) && (before[j].status.Passed? || j < |exits|)) &&
    forall j :: 0 <= i <= j < |gates| ==> gates[j] == before[j]
  }

  /** The loopbacks of the gates that these turned to passed are resolved. */
  ghost predicate ResolvedTo(loopbacks: seq<Loopback>, gates: seq<Gate>, exits: seq<int>, open: seq<Loopback>) {
    |open| == |loopbacks| &&
    forall n :: 0 <= n < |open| ==>
      open[n] == loopbacks[n].(resolved := loopbacks[n].resolved || NewlyPassed(gates, exits, loopbacks[n].gate))
  }

  /** The loop's variables once the first i gates were taken. */
  ghost predicate Progress(
      before: seq<Gate>, loopbacks: seq<Loopback>, exits: seq<int>, gates: seq<Gate>, open: seq<Loopback>,
      allPass: bool, i: nat)
  {
    i <= |before| && RanTo(before, exits, gates, i) && ResolvedTo(loopbacks, before[..i], exits, open) &&
    (allPass <==> AllPassed(gates[..i]))
  }

  lemma ProgressStarts(before: seq<Gate>, loopbacks: seq<Loopback>, exits: seq<int>)
    ensures Progress(before, loopbacks, exits, before, loopbacks, true, 0)
  {
    assert before[..0] == [];
  }

  lemma LedgerNext(start: seq<Event>, gates: seq<Gate>, exits: seq<int>, i: nat)
    requires i < |gates| && i <= CutAt(gates, exits, 0) && (gates[i].status.Passed? || i < |exits|)
    ensures start + GateEvents(gates, exits, i) + EventsAt(gates, exits, i) == start + GateEvents(gates, exits, i + 1)
    ensures i + 1 <= CutAt(gates, exits, 0)
  {
    Assoc(start, GateEvents(gates, exits, i), EventsAt(gates, exits, i));
  }

  lemma {:induction false} LedgerAtCut(start: seq<Event>, ledger: seq<Event>, gates: seq<Gate>, exits: seq<int>, i: nat)
    requires i < |gates| && i <= CutAt(gates, exits, 0) && !gates[i].status.Passed? && |exits| <= i
    requires ledger == start + GateEvents(gates, exits, i)
    ensures ledger + [GateStart(gates[i].id)] == start + RunEvents(gates, exits, true)
    ensures ledger == start + RunEvents(gates, exits, false) && CutShort(gates, exits)
  {
    Assoc(start, GateEvents(gates, exits, i), [GateStart(gates[i].id)]);
    assert GateEvents(gates, exits, i) + [] == GateEvents(gates, exits, i);
  }

  lemma {:induction false} LedgerAtEnd(
      start: seq<Event>, ledger: seq<Event>, gates: seq<Gate>, exits: seq<int>, started: bool)
    requires CutAt(gates, exits, 0) == |gates| && ledger == start + GateEvents(gates, exits, |gates|)
    ensures ledger == start + RunEvents(gates, exits, started)
  {
    assert GateEvents(gates, exits, |gates|) + [] == GateEvents(gates, exits, |gates|);
  }

  lemma RanSnoc(before: seq<Gate>, exits: seq<int>, gates: seq<Gate>, next: seq<Gate>, i: nat)
    requires i < |before| && RanTo(before, exits, gates, i) && (before[i].status.Passed? || i < |exits|)
    requires next == gates[i := Ran(before[i], exits, i)]
    ensures RanTo(before, exits, next, i + 1)
    ensures AllPassed(next[..i + 1]) <==> AllPassed(gates[..i]) && (before[i].status.Passed? || exits[i] == 0)
  {
    assert next[..i + 1] == gates[..i] + [next[i]];
  }

  lemma RunComplete(
      before: seq<Gate>, loopbacks: seq<Loopback>, exits: seq<int>, gates: seq<Gate>, open: seq<Loopback>,
      allPass: bool)
    requires Progress(before, loopbacks, exits, gates, open, allPass, |before|)
    ensures gates == RanGates(before, exits) && open == Resolved(loopbacks, before, exits)
    ensures (allPass <==> AllPassed(gates)) && !CutShort(before, exits)
  {
    assert before[..|before|] == before && gates[..|gates|] == gates;
  }

  lemma ResolvedSnoc(
      loopbacks: seq<Loopback>, gates: seq<Gate>, exits: seq<int>, open: seq<Loopback>, next: seq<Loopback>, i: nat)
    requires i < |gates| && ResolvedTo(loopbacks, gates[..i], exits, open) && |next| == |open|
    requires forall n :: 0 <= n < |next| ==>
               next[n] == open[n].(resolved := open[n].resolved ||
                 (i < |exits| && !gates[i].status.Passed? && exits[i] == 0 && gates[i].id == open[n].gate))
    ensures ResolvedTo(loopbacks, gates[..i + 1], exits, next)
  {
    NewlyPassedStep(gates, exits, i);
  }

  /** Marking the one matching gate is marking every gate with the id. */
  lemma MarkedIsSole(phases: seq<Phase>, id: string, i: int, j: int)
    requires SoleAt(phases, id, i, j)
    ensures phases[i := phases[i].(gates := phases[i].gates[j := phases[i].gates[j].(status := Failed)])]
            == MarkedPhases(phases, id)
  {
    forall k | 0 <= k < |phases|
      ensures MarkedGates(phases[k].gates, id) ==
              if k == i then phases[i].gates[j := phases[i].gates[j].(status := Failed)] else phases[k].gates
    {
      forall l | 0 <= l < |phases[k].gates| ensures phases[k].gates[l].id == id ==> k == i && l == j {
        assert phases[k].gates[l].id == id ==> GateAt(phases, id, k, l);
      }
    }
  }
}
