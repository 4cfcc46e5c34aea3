/**
 The mission loop (skills/archipelago/protocol/scripts/loop.py and kickoff.py): phases, gates, stages
 and loopbacks. `Step` says what one command makes of state.json; `MissionFile` carries the commands
 out with the loops of the source; MissionRuns proves what every sequence of commands keeps.
 */
module Mission {
  import opened Outcomes

  datatype GateStatus = Untried | Passed | Failed
  datatype PhaseStatus = Pending | InProgress | Done

  datatype Gate = Gate(id: string, title: string, command: string, status: GateStatus)
  datatype Phase = Phase(id: string, gates: seq<Gate>, status: PhaseStatus)
  datatype Loopback = Loopback(gate: string, family: int, toStage: int, reason: string, resolved: bool)

  datatype PlanGate = PlanGate(id: string, title: string, command: string)
  datatype PlanPhase = PlanPhase(id: string, gates: seq<PlanGate>)

  /** The approved lock files; equality stands for equality of their recorded digests. */
  datatype Locks = Locks(idea: string, plan: seq<PlanPhase>)

  datatype State = State(
    locks: Locks, phases: seq<Phase>, activePhase: Option<string>,
    stage: int, cycle: int, loopbacks: seq<Loopback>)

  /** S0 to S7, as `argparse` admits them. */
  type Stage = s: int | 0 <= s < 8

  /** `exits[i]` is the exit code of gate i; a run that needs one beyond the end is cut short there. */
  datatype Command =
    | RunGates(phase: string, exits: seq<int>)
    | Fail(gate: string, reason: string, route: Option<Stage>)
    | Advance(stage: Stage)
    | ClosePhase(phase: string)

  datatype Event =
    | GateStart(gate: string)
    | GateRun(gate: string, passed: bool)
    | LoopedBack(entry: Loopback)
    | StageAdvance(origin: int, target: int)
    | PhaseClose(phase: string, next: Option<string>)

  // ---------- Gate ids and routes ----------

  predicate IsDigit(c: char) { '0' <= c <= '9' }

  /** The digit of a gate id `P<1-6 digits>-G<0-6>`. */
  function Family(id: string): (r: Option<int>)
    ensures r.Some? ==> 0 <= r.value <= 6
  {
    if 5 <= |id| <= 10 && id[0] == 'P' && (forall i :: 1 <= i < |id| - 3 ==> IsDigit(id[i])) &&
       id[|id| - 3] == '-' && id[|id| - 2] == 'G' && '0' <= id[|id| - 1] <= '6'
    then Some((id[|id| - 1] - '0') as int) else None
  }

  function Route(family: int): (r: Stage) {
    if 0 <= family <= 3 then family
    else if family == 4 then 2
    else if family == 5 then 4
    else if family == 6 then 6
    else 2
  }

  // ---------- Binding to the plan ----------

  function PlanGateOf(g: Gate): (r: PlanGate) { PlanGate(g.id, g.title, g.command) }

  function PlanGates(gates: seq<Gate>): (r: seq<PlanGate>)
    ensures |r| == |gates| && forall i :: 0 <= i < |r| ==> r[i] == PlanGateOf(gates[i])
  {
    seq(|gates|, i requires 0 <= i < |gates| => PlanGateOf(gates[i]))
  }

  /** The plan a list of phases carries out. */
  function PlanOf(phases: seq<Phase>): (r: seq<PlanPhase>)
    ensures |r| == |phases|
    ensures forall i :: 0 <= i < |r| ==> r[i] == PlanPhase(phases[i].id, PlanGates(phases[i].gates))
  {
    seq(|phases|, i requires 0 <= i < |phases| => PlanPhase(phases[i].id, PlanGates(phases[i].gates)))
  }

  function Rows(id: string, gates: seq<PlanGate>): (r: seq<(string, PlanGate)>) {
    seq(|gates|, i requires 0 <= i < |gates| => (id, gates[i]))
  }

  /** The list the source compares: one row for each gate, in order. */
  function Flatten(plan: seq<PlanPhase>): (r: seq<(string, PlanGate)>) {
    if plan == [] then [] else Rows(plan[0].id, plan[0].gates) + Flatten(plan[1..])
  }

  predicate SafeIds(plan: seq<PlanPhase>) {
    forall i, j :: 0 <= i < |plan| && 0 <= j < |plan[i].gates| ==> Family(plan[i].gates[j].id).Some?
  }

  /** `validate_lock_binding` passes for the lock files found on disk. */
  predicate Loads(s: State, found: Locks) {
    found == s.locks && SafeIds(found.plan) && Flatten(PlanOf(s.phases)) == Flatten(found.plan)
  }

  // ---------- What one command does ----------

  /** The first phase with this id, or the number of phases. */
  function FirstPhase(phases: seq<Phase>, id: string): (r: nat)
    ensures r <= |phases|
    ensures r < |phases| ==> phases[r].id == id
    ensures forall i :: 0 <= i < r ==> phases[i].id != id
  {
    if phases == [] || phases[0].id == id then 0 else
    assert forall i :: 0 < i < |phases| ==> phases[i] == phases[1..][i - 1];
    1 + FirstPhase(phases[1..], id)
  }

  predicate CutShort(gates: seq<Gate>, exits: seq<int>) {
    exists i :: |exits| <= i < |gates| && !gates[i].status.Passed?
  }

  function Ran(g: Gate, exits: seq<int>, i: nat): (r: Gate) {
    if g.status.Passed? || |exits| <= i then g
    else g.(status := if exits[i] == 0 then Passed else Failed)
  }

  function RanGates(gates: seq<Gate>, exits: seq<int>): (r: seq<Gate>)
    ensures |r| == |gates| && forall i :: 0 <= i < |r| ==> r[i] == Ran(gates[i], exits, i)
  {
    seq(|gates|, i requires 0 <= i < |gates| => Ran(gates[i], exits, i))
  }

  /** Some gate with this id went from not passed to passed. */
  predicate NewlyPassed(gates: seq<Gate>, exits: seq<int>, id: string) {
    exists i :: 0 <= i < |gates| && i < |exits| && !gates[i].status.Passed? && exits[i] == 0 && gates[i].id == id
  }

  lemma NewlyPassedStep(gates: seq<Gate>, exits: seq<int>, i: nat)
    requires i < |gates|
    ensures forall id :: NewlyPassed(gates[..i + 1], exits, id) <==>
              NewlyPassed(gates[..i], exits, id) ||
              (i < |exits| && !gates[i].status.Passed? && exits[i] == 0 && gates[i].id == id)
  {
  }

  function Resolved(loopbacks: seq<Loopback>, gates: seq<Gate>, exits: seq<int>): (r: seq<Loopback>)
    ensures |r| == |loopbacks|
    ensures forall i :: 0 <= i < |r| ==>
              r[i] == loopbacks[i].(resolved := loopbacks[i].resolved || NewlyPassed(gates, exits, loopbacks[i].gate))
  {
    seq(|loopbacks|, i requires 0 <= i < |loopbacks| =>
      loopbacks[i].(resolved := loopbacks[i].resolved || NewlyPassed(gates, exits, loopbacks[i].gate)))
  }

  function Begun(status: PhaseStatus): (r: PhaseStatus) {
    if status.Pending? then InProgress else status
  }

  function AfterRunGates(s: State, id: string, exits: seq<int>): (r: State) {
    var k := FirstPhase(s.phases, id);
    if k == |s.phases| || CutShort(s.phases[k].gates, exits) then s
    else
      var phase := s.phases[k];
      s.(phases := s.phases[k := Phase(phase.id, RanGates(phase.gates, exits), Begun(phase.status))],
         loopbacks := Resolved(s.loopbacks, phase.gates, exits))
  }

  predicate GateAt(phases: seq<Phase>, id: string, i: int, j: int) {
    0 <= i < |phases| && 0 <= j < |phases[i].gates| && phases[i].gates[j].id == id
  }

  ghost predicate SoleAt(phases: seq<Phase>, id: string, i: int, j: int) {
    GateAt(phases, id, i, j) && forall k, l :: GateAt(phases, id, k, l) ==> k == i && l == j
  }

  /** Exactly one gate has this id. */
  ghost predicate Sole(phases: seq<Phase>, id: string) {
    exists i, j :: SoleAt(phases, id, i, j)
  }

  function Marked(g: Gate, id: string): (r: Gate) {
    if g.id == id then g.(status := Failed) else g
  }

  function MarkedGates(gates: seq<Gate>, id: string): (r: seq<Gate>)
    ensures |r| == |gates| && forall i :: 0 <= i < |r| ==> r[i] == Marked(gates[i], id)
  {
    seq(|gates|, i requires 0 <= i < |gates| => Marked(gates[i], id))
  }

  /** Every gate with this id marked failed. */
  function MarkedPhases(phases: seq<Phase>, id: string): (r: seq<Phase>)
    ensures |r| == |phases|
    ensures forall i :: 0 <= i < |r| ==> r[i] == phases[i].(gates := MarkedGates(phases[i].gates, id))
  {
    seq(|phases|, i requires 0 <= i < |phases| => phases[i].(gates := MarkedGates(phases[i].gates, id)))
  }

  function Target(gate: string, route: Option<Stage>): (r: Stage) {
    if route.Some? then route.value
    else if Family(gate).Some? then Route(Family(gate).value) else 2
  }

  ghost function AfterFail(s: State, gate: string, reason: string, route: Option<Stage>): (r: State) {
    var to := Target(gate, route);
    if !Sole(s.phases, gate) || Family(gate).None? || !(0 <= s.stage < 8) || to > s.stage then s
    else
      s.(phases := MarkedPhases(s.phases, gate), stage := to,
         loopbacks := s.loopbacks + [Loopback(gate, Family(gate).value, to, reason, false)])
  }

  /** The active phase is among the first i + 1. */
  predicate Reached(s: State, i: int) {
    exists j :: 0 <= j <= i && j < |s.phases| && Some(s.phases[j].id) == s.activePhase
  }

  /** The pulse gate: every phase before the first one named active is done. */
  predicate Fresh(s: State) {
    forall i :: 0 <= i < |s.phases| && !Reached(s, i) ==> s.phases[i].status.Done?
  }

  function AfterAdvance(s: State, stage: Stage): (r: State) {
    if !Fresh(s) || stage < s.stage then s
    else s.(stage := stage, cycle := if stage == 0 then s.cycle + 1 else s.cycle)
  }

  predicate AllPassed(gates: seq<Gate>) {
    forall i :: 0 <= i < |gates| ==> gates[i].status.Passed?
  }

  predicate OpenFor(lb: Loopback, gates: seq<Gate>) {
    !lb.resolved && exists i :: 0 <= i < |gates| && gates[i].id == lb.gate
  }

  predicate NoneOpen(loopbacks: seq<Loopback>, gates: seq<Gate>) {
    forall i :: 0 <= i < |loopbacks| ==> !OpenFor(loopbacks[i], gates)
  }

  /** The first phase not done, or the number of phases. */
  function FirstUndone(phases: seq<Phase>): (r: nat)
    ensures r <= |phases|
    ensures r < |phases| ==> !phases[r].status.Done?
    ensures forall i :: 0 <= i < r ==> phases[i].status.Done?
  {
    if phases == [] || !phases[0].status.Done? then 0 else
    assert forall i :: 0 < i < |phases| ==> phases[i] == phases[1..][i - 1];
    1 + FirstUndone(phases[1..])
  }

  function NextActive(phases: seq<Phase>): (r: Option<string>) {
    var k := FirstUndone(phases);
    if k < |phases| then Some(phases[k].id) else None
  }

  function AfterClose(s: State, id: string): (r: State) {
    var k := FirstPhase(s.phases, id);
    if k == |s.phases| || !AllPassed(s.phases[k].gates) || !NoneOpen(s.loopbacks, s.phases[k].gates) then s
    else
      var phases := s.phases[k := s.phases[k].(status := Done)];
      s.(phases := phases, activePhase := NextActive(phases))
  }

  /** One command against the lock files found on disk; a refused command changes nothing. */
  ghost function Step(s: State, found: Locks, c: Command): (r: State) {
    if !Loads(s, found) then s
    else match c
      case RunGates(id, exits) => AfterRunGates(s, id, exits)
      case Fail(gate, reason, route) => AfterFail(s, gate, reason, route)
      case Advance(stage) => AfterAdvance(s, stage)
      case ClosePhase(id) => AfterClose(s, id)
  }

  // ---------- What one command appends to the ledger ----------

  /** The events of the gate at i, if it is run to its end. */
  function EventsAt(gates: seq<Gate>, exits: seq<int>, i: nat): (r: seq<Event>)
    requires i < |gates|
  {
    if gates[i].status.Passed? || |exits| <= i then []
    else [GateStart(gates[i].id), GateRun(gates[i].id, exits[i] == 0)]
  }

  /** What running the first n gates adds to the ledger. */
  function GateEvents(gates: seq<Gate>, exits: seq<int>, n: nat): (r: seq<Event>)
    requires n <= |gates|
  {
    if n == 0 then [] else GateEvents(gates, exits, n - 1) + EventsAt(gates, exits, n - 1)
  }

  /** The first gate the run no longer reaches the end of, or all of them. */
  function CutAt(gates: seq<Gate>, exits: seq<int>, n: nat): (r: nat)
    requires n <= |gates|
    ensures n <= r <= |gates|
    ensures r < |gates| ==> |exits| <= r && !gates[r].status.Passed?
    ensures forall i :: n <= i < r ==> i < |exits| || gates[i].status.Passed?
    decreases |gates| - n
  {
    if n == |gates| || (|exits| <= n && !gates[n].status.Passed?) then n else CutAt(gates, exits, n + 1)
  }

  /** What a whole run adds to the ledger: up to where it is cut short, with the start of that gate if it `started`. */
  function RunEvents(gates: seq<Gate>, exits: seq<int>, started: bool): (r: seq<Event>) {
    var cut := CutAt(gates, exits, 0);
    GateEvents(gates, exits, cut) + if cut < |gates| && started then [GateStart(gates[cut].id)] else []
  }

  /** The events of one command that runs to its end; of a run of gates, up to where it is cut short. */
  ghost function EventsOf(s: State, found: Locks, c: Command, started: bool): (r: seq<Event>) {
    if !Loads(s, found) then []
    else match c
      case RunGates(id, exits) =>
        var k := FirstPhase(s.phases, id);
        if k == |s.phases| then [] else RunEvents(s.phases[k].gates, exits, started)
      case Fail(gate, reason, route) =>
        var t := AfterFail(s, gate, reason, route);
        if t == s then [] else [LoopedBack(t.loopbacks[|t.loopbacks| - 1])]
      case Advance(stage) =>
        if !Fresh(s) || stage < s.stage then [] else [StageAdvance(s.stage, stage)]
      case ClosePhase(id) =>
        var k := FirstPhase(s.phases, id);
        if k == |s.phases| || !AllPassed(s.phases[k].gates) || !NoneOpen(s.loopbacks, s.phases[k].gates) then []
        else [PhaseClose(id, AfterClose(s, id).activePhase)]
  }

  // ---------- Kickoff ----------

  function FreshGates(gates: seq<PlanGate>): (r: seq<Gate>)
    ensures |r| == |gates|
    ensures forall i :: 0 <= i < |r| ==> r[i] == Gate(gates[i].id, gates[i].title, gates[i].command, Untried)
  {
    seq(|gates|, i requires 0 <= i < |gates| => Gate(gates[i].id, gates[i].title, gates[i].command, Untried))
  }

  function FreshPhases(plan: seq<PlanPhase>): (r: seq<Phase>)
    ensures |r| == |plan|
    ensures forall i :: 0 <= i < |r| ==> r[i] == Phase(plan[i].id, FreshGates(plan[i].gates), Pending)
  {
    seq(|plan|, i requires 0 <= i < |plan| => Phase(plan[i].id, FreshGates(plan[i].gates), Pending))
  }

  function Initial(locks: Locks): (r: State) {
    State(locks, FreshPhases(locks.plan), if locks.plan == [] then None else Some(locks.plan[0].id), 2, 1, [])
  }
}
