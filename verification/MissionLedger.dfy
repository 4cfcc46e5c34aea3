/**
 The ledger beside state.json (skills/archipelago/protocol/scripts/loop.py): each command appends its events
 first and writes the state last, so a command that stops in between leaves the ledger ahead. Whatever stops,
 the state is what replaying the ledger's other events gives.
 */
module MissionLedger {
  import opened Mission
  import opened MissionRuns
  import opened Outcomes
  import opened Sequences

  /** One command; `stops` when its process ends before the state is written, `started` as in `RunEvents`. */
  datatype Attempt = Attempt(found: Locks, command: Command, started: bool, stops: bool)

  /** The state, the whole ledger, and the events in it of the commands that wrote the state. */
  datatype Books = Books(state: State, ledger: seq<Event>, kept: seq<Event>)

  ghost predicate Writes(s: State, a: Attempt) {
    !a.stops &&
    (a.command.RunGates? ==>
       var k := FirstPhase(s.phases, a.command.phase);
       k < |s.phases| ==> !CutShort(s.phases[k].gates, a.command.exits))
  }

  ghost function Attempted(b: Books, a: Attempt): (r: Books) {
    var events := EventsOf(b.state, a.found, a.command, a.started);
    if Writes(b.state, a)
    then Books(Step(b.state, a.found, a.command), b.ledger + events, b.kept + events)
    else b.(ledger := b.ledger + events)
  }

  ghost function AttemptAll(b: Books, attempts: seq<Attempt>): (r: Books)
    decreases |attempts|
  {
    if attempts == [] then b else AttemptAll(Attempted(b, attempts[0]), attempts[1..])
  }

  function Opened(locks: Locks): (r: Books) { Books(Initial(locks), [], []) }

  /** A run cut short changes nothing, so the state is in step with the commands that wrote it. */
  lemma CutShortKeepsState(s: State, a: Attempt)
    requires !a.stops && !Writes(s, a)
    ensures Step(s, a.found, a.command) == s
  {
  }

  // ---------- How far the ledger runs ahead ----------

  /** `a` is `b` with some entries left out. */
  predicate Within<T(==)>(a: seq<T>, b: seq<T>) {
    if b == [] then a == []
    else
      Within(a, b[..|b| - 1]) ||
      (a != [] && a[|a| - 1] == b[|b| - 1] && Within(a[..|a| - 1], b[..|b| - 1]))
  }

  lemma {:induction false} WithinAppend<T>(a: seq<T>, b: seq<T>, more: seq<T>)
    requires Within(a, b)
    ensures Within(a, b + more) && Within(a + more, b + more)
  {
    if more == [] {
      assert a + more == a && b + more == b;
    } else {
      var front, last := more[..|more| - 1], more[|more| - 1];
      WithinAppend(a, b, front);
      assert (b + more)[..|b + more| - 1] == b + front && (b + more)[|b + more| - 1] == last;
      assert (a + more)[..|a + more| - 1] == a + front && (a + more)[|a + more| - 1] == last;
    }
  }

  lemma {:induction false} GateEventsLength(gates: seq<Gate>, exits: seq<int>, n: nat)
    requires n <= |gates|
    ensures |GateEvents(gates, exits, n)| <= 2 * n
  {
    if n == 0 {
    } else {
      GateEventsLength(gates, exits, n - 1);
    }
  }

  ghost predicate PhasesUpTo(s: State, most: nat) {
    forall i :: 0 <= i < |s.phases| ==> |s.phases[i].gates| <= most
  }

  /** What one attempt can leave in the ledger without the state. */
  ghost function Allowance(s: State, a: Attempt, most: nat): (r: nat) {
    if Writes(s, a) then 0 else if a.command.RunGates? then 2 * most else 1
  }

  lemma EventsWithin(s: State, a: Attempt, most: nat)
    requires PhasesUpTo(s, most)
    ensures |EventsOf(s, a.found, a.command, a.started)| <= if a.command.RunGates? then 2 * most else 1
  {
    if a.command.RunGates? {
      var k := FirstPhase(s.phases, a.command.phase);
      if k < |s.phases| {
        var gates, exits := s.phases[k].gates, a.command.exits;
        GateEventsLength(gates, exits, CutAt(gates, exits, 0));
      }
    }
  }

  ghost function AllowanceOf(b: Books, attempts: seq<Attempt>, most: nat): (r: nat)
    decreases |attempts|
  {
    if attempts == [] then 0
    else Allowance(b.state, attempts[0], most) + AllowanceOf(Attempted(b, attempts[0]), attempts[1..], most)
  }

  lemma StepKeepsSizes(s: State, found: Locks, c: Command, most: nat)
    requires PhasesUpTo(s, most)
    ensures PhasesUpTo(Step(s, found, c), most)
  {
    var t := Step(s, found, c);
    StepKeepsPlan(s, found, c);
    forall i | 0 <= i < |t.phases| ensures |t.phases[i].gates| <= most {
      assert PlanOf(t.phases)[i] == PlanOf(s.phases)[i];
    }
  }

  /**
   The ledger holds every event that the state rests on, in order, and beyond them at most: two events for each
   gate of a phase for a run of gates that stopped, one for another command that stopped.
   */
  lemma {:induction false} LedgerRunsAhead(b: Books, attempts: seq<Attempt>, most: nat)
    requires Within(b.kept, b.ledger) && PhasesUpTo(b.state, most)
    ensures var end := AttemptAll(b, attempts);
            Within(end.kept, end.ledger) &&
            |end.ledger| - |end.kept| <= |b.ledger| - |b.kept| + AllowanceOf(b, attempts, most)
    decreases |attempts|
  {
    if attempts == [] {
    } else {
      var a := attempts[0];
      WithinAppend(b.kept, b.ledger, EventsOf(b.state, a.found, a.command, a.started));
      EventsWithin(b.state, a, most);
      StepKeepsSizes(b.state, a.found, a.command, most);
      LedgerRunsAhead(Attempted(b, a), attempts[1..], most);
    }
  }

  // ---------- What the state rests on ----------

  ghost predicate PassRecorded(s: State, events: seq<Event>) {
    forall i, j :: 0 <= i < |s.phases| && 0 <= j < |s.phases[i].gates| && s.phases[i].gates[j].status.Passed? ==>
      GateRun(s.phases[i].gates[j].id, true) in events
  }

  ghost predicate Closes(events: seq<Event>, id: string) {
    exists next :: PhaseClose(id, next) in events
  }

  ghost predicate DoneRecorded(s: State, events: seq<Event>) {
    forall i :: 0 <= i < |s.phases| && s.phases[i].status.Done? ==> Closes(events, s.phases[i].id)
  }

  ghost predicate Recorded(s: State, events: seq<Event>) { PassRecorded(s, events) && DoneRecorded(s, events) }

  lemma {:induction false} GateEventsHave(gates: seq<Gate>, exits: seq<int>, n: nat, i: nat)
    requires i < n <= |gates| && i < |exits| && !gates[i].status.Passed?
    ensures GateRun(gates[i].id, exits[i] == 0) in GateEvents(gates, exits, n)
  {
    if i == n - 1 {
      assert EventsAt(gates, exits, i)[1] == GateRun(gates[i].id, exits[i] == 0);
    } else {
      GateEventsHave(gates, exits, n - 1, i);
    }
  }

  lemma {:induction false} RunRecords(
      s: State, id: string, exits: seq<int>, events: seq<Event>, more: seq<Event>, started: bool)
    requires Recorded(s, events) && FirstPhase(s.phases, id) < |s.phases|
    requires more == RunEvents(s.phases[FirstPhase(s.phases, id)].gates, exits, started)
    ensures Recorded(AfterRunGates(s, id, exits), events + more)
  {
    RecordedMore(s, events, more);
    var k := FirstPhase(s.phases, id);
    var gates, t := s.phases[k].gates, AfterRunGates(s, id, exits);
    forall j | 0 <= j < |gates| && !gates[j].status.Passed? && Ran(gates[j], exits, j).status.Passed? && t != s
      ensures GateRun(gates[j].id, true) in more
    {
      GateEventsHave(gates, exits, CutAt(gates, exits, 0), j);
    }
    forall i | 0 <= i < |t.phases| && t.phases[i].status.Done? ensures Closes(events + more, t.phases[i].id) {
      assert s.phases[i].status.Done?;
    }
  }

  lemma RecordedMore(s: State, events: seq<Event>, more: seq<Event>)
    requires Recorded(s, events)
    ensures Recorded(s, events + more)
  {
    assert forall id :: Closes(events, id) ==> Closes(events + more, id);
  }

  lemma FailRecords(s: State, gate: string, reason: string, route: Option<Stage>, events: seq<Event>)
    requires Recorded(s, events)
    ensures Recorded(AfterFail(s, gate, reason, route), events)
  {
    var t := AfterFail(s, gate, reason, route);
    forall i | 0 <= i < |t.phases| && t.phases[i].status.Done? ensures Closes(events, t.phases[i].id) {
      assert s.phases[i].status.Done?;
    }
  }

  lemma CloseRecords(s: State, id: string, events: seq<Event>, e: Event)
    requires Recorded(s, events) && e.PhaseClose? && e.phase == id
    ensures Recorded(AfterClose(s, id), events + [e])
  {
    RecordedMore(s, events, [e]);
    var t := AfterClose(s, id);
    assert (events + [e])[|events|] == PhaseClose(id, e.next);
    forall i | 0 <= i < |t.phases| && t.phases[i].status.Done? ensures Closes(events + [e], t.phases[i].id) {
      if !s.phases[i].status.Done? { assert t.phases[i].id == id; }
    }
  }

  lemma StepRecords(s: State, a: Attempt, events: seq<Event>)
    requires Recorded(s, events)
    ensures Recorded(Step(s, a.found, a.command), events + EventsOf(s, a.found, a.command, a.started))
  {
    var t, more := Step(s, a.found, a.command), EventsOf(s, a.found, a.command, a.started);
    RecordedMore(s, events, more);
    if Loads(s, a.found) {
      match a.command
      case RunGates(id, exits) =>
        if FirstPhase(s.phases, id) < |s.phases| { RunRecords(s, id, exits, events, more, a.started); }
      case Fail(gate, reason, route) => FailRecords(s, gate, reason, route, events + more);
      case Advance(_) =>
      case ClosePhase(id) => if more != [] { CloseRecords(s, id, events, more[0]); }
    }
  }

  /** Over every sequence of commands, stopped ones included: each passed gate and each done phase is on record. */
  lemma {:induction false} RecordedAlways(b: Books, attempts: seq<Attempt>)
    requires Recorded(b.state, b.kept) && Within(b.kept, b.ledger)
    ensures var end := AttemptAll(b, attempts);
            Recorded(end.state, end.kept) && Recorded(end.state, end.ledger)
    decreases |attempts|
  {
    if attempts == [] {
      WithinHas(b.kept, b.ledger);
    } else {
      var a := attempts[0];
      StepRecords(b.state, a, b.kept);
      WithinAppend(b.kept, b.ledger, EventsOf(b.state, a.found, a.command, a.started));
      RecordedAlways(Attempted(b, a), attempts[1..]);
    }
  }

  lemma {:induction false} WithinHas<T>(a: seq<T>, b: seq<T>)
    requires Within(a, b)
    ensures forall x :: x in a ==> x in b
  {
    if b == [] {
    } else if Within(a, b[..|b| - 1]) {
      WithinHas(a, b[..|b| - 1]);
    } else {
      WithinHas(a[..|a| - 1], b[..|b| - 1]);
      assert forall x :: x in a ==> x in a[..|a| - 1] || x == a[|a| - 1];
    }
  }

  // ---------- The state is a replay of the ledger ----------

  /** What a reader of events alone knows. A gate without an entry is untried. */
  datatype View = View(
    stage: int, cycle: int, active: Option<string>, loopbacks: seq<Loopback>, gates: map<string, GateStatus>,
    closed: set<string>)

  function ResolvedBy(loopbacks: seq<Loopback>, id: string): (r: seq<Loopback>)
    ensures |r| == |loopbacks|
    ensures forall i :: 0 <= i < |r| ==>
              r[i] == loopbacks[i].(resolved := loopbacks[i].resolved || loopbacks[i].gate == id)
  {
    seq(|loopbacks|, i requires 0 <= i < |loopbacks| =>
      loopbacks[i].(resolved := loopbacks[i].resolved || loopbacks[i].gate == id))
  }

  function Noted(v: View, e: Event): (r: View) {
    match e
    case GateStart(_) => v
    case GateRun(id, passed) =>
      if passed then v.(gates := v.gates[id := Passed], loopbacks := ResolvedBy(v.loopbacks, id))
      else v.(gates := v.gates[id := Failed])
    case LoopedBack(entry) =>
      v.(gates := v.gates[entry.gate := Failed], loopbacks := v.loopbacks + [entry], stage := entry.toStage)
    case StageAdvance(_, target) => v.(stage := target, cycle := if target == 0 then v.cycle + 1 else v.cycle)
    case PhaseClose(id, next) => v.(closed := v.closed + {id}, active := next)
  }

  function Replay(v: View, events: seq<Event>): (r: View) {
    if events == [] then v else Noted(Replay(v, events[..|events| - 1]), events[|events| - 1])
  }

  function FirstView(locks: Locks): (r: View) {
    View(2, 1, Initial(locks).activePhase, [], map[], {})
  }

  function StatusIn(v: View, id: string): (r: GateStatus) { if id in v.gates then v.gates[id] else Untried }

  ghost predicate GatesShown(phases: seq<Phase>, v: View) {
    forall i, j :: 0 <= i < |phases| && 0 <= j < |phases[i].gates| ==>
      phases[i].gates[j].status == StatusIn(v, phases[i].gates[j].id)
  }

  ghost predicate PhasesShown(phases: seq<Phase>, v: View) {
    forall i :: 0 <= i < |phases| ==> (phases[i].status.Done? <==> phases[i].id in v.closed)
  }

  /** The view is that of the state. */
  ghost predicate Shows(s: State, v: View) {
    v.stage == s.stage && v.cycle == s.cycle && v.active == s.activePhase && v.loopbacks == s.loopbacks &&
    GatesShown(s.phases, v) && PhasesShown(s.phases, v)
  }

  /** No two gates and no two phases share an id. */
  ghost predicate DistinctIds(phases: seq<Phase>) {
    (forall i, j :: 0 <= i < j < |phases| ==> phases[i].id != phases[j].id) &&
    forall id, i, j, k, l :: GateAt(phases, id, i, j) && GateAt(phases, id, k, l) ==> i == k && j == l
  }

  lemma SamePlanDistinct(a: seq<Phase>, b: seq<Phase>)
    requires PlanOf(a) == PlanOf(b) && DistinctIds(a)
    ensures DistinctIds(b)
  {
    forall i | 0 <= i < |b| ensures b[i].id == a[i].id && PlanGates(b[i].gates) == PlanGates(a[i].gates) {
      assert PlanOf(b)[i] == PlanOf(a)[i];
    }
    forall id, i, j | GateAt(b, id, i, j) ensures GateAt(a, id, i, j) {
      assert PlanGates(b[i].gates)[j] == PlanGates(a[i].gates)[j];
    }
  }

  lemma {:induction false} ReplayConcat(v: View, a: seq<Event>, b: seq<Event>)
    ensures Replay(v, a + b) == Replay(Replay(v, a), b)
  {
    if b == [] {
      assert a + b == a;
    } else {
      ReplayConcat(v, a, b[..|b| - 1]);
      assert (a + b)[..|a + b| - 1] == a + b[..|b| - 1];
    }
  }

  lemma {:induction false} ReplayOne(v: View, e: Event)
    ensures Replay(v, [e]) == Noted(v, e)
  {
    assert [e][..0] == [];
  }

  lemma {:induction false} ReplayEventsAt(v: View, gates: seq<Gate>, exits: seq<int>, i: nat)
    requires i < |gates|
    ensures Replay(v, EventsAt(gates, exits, i)) ==
            if gates[i].status.Passed? || |exits| <= i then v else Noted(v, GateRun(gates[i].id, exits[i] == 0))
  {
    if !gates[i].status.Passed? && i < |exits| {
      var start, end := GateStart(gates[i].id), GateRun(gates[i].id, exits[i] == 0);
      assert [start, end][..1] == [start];
      ReplayOne(v, start);
    }
  }

  /** The view after the first n gates of a phase were run. */
  ghost predicate ViewAfter(v: View, gates: seq<Gate>, exits: seq<int>, n: nat, w: View)
    requires n <= |gates|
  {
    w == v.(gates := w.gates, loopbacks := w.loopbacks) && w.loopbacks == Resolved(v.loopbacks, gates[..n], exits) &&
    (forall i :: 0 <= i < n ==>
       StatusIn(w, gates[i].id) ==
         if gates[i].status.Passed? || |exits| <= i then StatusIn(v, gates[i].id)
         else if exits[i] == 0 then Passed else Failed) &&
    forall id :: (forall i :: 0 <= i < n ==> gates[i].id != id) ==> StatusIn(w, id) == StatusIn(v, id)
  }

  lemma {:induction false} ViewNext(v: View, gates: seq<Gate>, exits: seq<int>, n: nat, w: View)
    requires n < |gates| && ViewAfter(v, gates, exits, n, w)
    requires forall i, j :: 0 <= i < j < |gates| ==> gates[i].id != gates[j].id
    ensures ViewAfter(v, gates, exits, n + 1, Replay(w, EventsAt(gates, exits, n)))
  {
    var x := Replay(w, EventsAt(gates, exits, n));
    ReplayEventsAt(w, gates, exits, n);
    NewlyPassedStep(gates, exits, n);
    assert x.loopbacks == Resolved(v.loopbacks, gates[..n + 1], exits);
    forall id | forall i :: 0 <= i < n + 1 ==> gates[i].id != id ensures StatusIn(x, id) == StatusIn(v, id) {
      assert gates[n].id != id;
    }
  }

  lemma {:induction false} ReplayGates(v: View, gates: seq<Gate>, exits: seq<int>, n: nat)
    requires n <= |gates| && forall i, j :: 0 <= i < j < |gates| ==> gates[i].id != gates[j].id
    ensures ViewAfter(v, gates, exits, n, Replay(v, GateEvents(gates, exits, n)))
  {
    if n == 0 {
      assert v.loopbacks == Resolved(v.loopbacks, gates[..0], exits);
    } else {
      ReplayGates(v, gates, exits, n - 1);
      ReplayConcat(v, GateEvents(gates, exits, n - 1), EventsAt(gates, exits, n - 1));
      ViewNext(v, gates, exits, n - 1, Replay(v, GateEvents(gates, exits, n - 1)));
    }
  }

  lemma PhaseGatesDistinct(phases: seq<Phase>, k: nat)
    requires DistinctIds(phases) && k < |phases|
    ensures forall i, j :: 0 <= i < j < |phases[k].gates| ==> phases[k].gates[i].id != phases[k].gates[j].id
    ensures forall i, j :: GateOutside(phases, k, i, j) ==>
              forall l :: 0 <= l < |phases[k].gates| ==> phases[k].gates[l].id != phases[i].gates[j].id
  {
    forall i, j | 0 <= i < j < |phases[k].gates| ensures phases[k].gates[i].id != phases[k].gates[j].id {
      assert GateAt(phases, phases[k].gates[i].id, k, i);
      assert phases[k].gates[i].id == phases[k].gates[j].id ==> GateAt(phases, phases[k].gates[i].id, k, j);
    }
    forall i, j, l | GateOutside(phases, k, i, j) && 0 <= l < |phases[k].gates|
      ensures phases[k].gates[l].id != phases[i].gates[j].id
    {
      assert GateAt(phases, phases[i].gates[j].id, i, j);
      assert phases[i].gates[j].id == phases[k].gates[l].id ==> GateAt(phases, phases[i].gates[j].id, k, l);
    }
  }

  predicate GateOutside(phases: seq<Phase>, k: int, i: int, j: int) {
    0 <= i < |phases| && i != k && 0 <= j < |phases[i].gates|
  }

  /** Every gate's status, after phase k was run. */
  lemma RunShowsGates(phases: seq<Phase>, k: nat, exits: seq<int>, v: View, w: View, after: seq<Phase>)
    requires GatesShown(phases, v) && DistinctIds(phases) && k < |phases|
    requires !CutShort(phases[k].gates, exits) && ViewAfter(v, phases[k].gates, exits, |phases[k].gates|, w)
    requires after == phases[k := Phase(phases[k].id, RanGates(phases[k].gates, exits), Begun(phases[k].status))]
    ensures GatesShown(after, w)
  {
    PhaseGatesDistinct(phases, k);
    forall i, j | 0 <= i < |after| && 0 <= j < |after[i].gates|
      ensures after[i].gates[j].status == StatusIn(w, after[i].gates[j].id)
    {
      if i == k {
        assert after[k].gates[j] == Ran(phases[k].gates[j], exits, j);
      } else {
        assert GateOutside(phases, k, i, j);
      }
    }
  }

  lemma {:induction false} RunShows(s: State, v: View, id: string, exits: seq<int>, started: bool)
    requires Shows(s, v) && DistinctIds(s.phases)
    requires var k := FirstPhase(s.phases, id); k < |s.phases| && !CutShort(s.phases[k].gates, exits)
    ensures var gates := s.phases[FirstPhase(s.phases, id)].gates;
            Shows(AfterRunGates(s, id, exits), Replay(v, RunEvents(gates, exits, started)))
  {
    var k := FirstPhase(s.phases, id);
    var gates := s.phases[k].gates;
    PhaseGatesDistinct(s.phases, k);
    ReplayGates(v, gates, exits, |gates|);
    RunToTheEnd(gates, exits, started);
    assert gates[..|gates|] == gates;
    var t, w := AfterRunGates(s, id, exits), Replay(v, RunEvents(gates, exits, started));
    RunShowsGates(s.phases, k, exits, v, w, t.phases);
    ReopenedPhase(s.phases, k, v, w, t.phases);
  }

  lemma ReopenedPhase(phases: seq<Phase>, k: nat, v: View, w: View, after: seq<Phase>)
    requires PhasesShown(phases, v) && k < |phases| && w.closed == v.closed && |after| == |phases|
    requires after == phases[k := after[k]] && after[k].id == phases[k].id
    requires after[k].status == Begun(phases[k].status)
    ensures PhasesShown(after, w)
  {
  }

  lemma {:induction false} RunToTheEnd(gates: seq<Gate>, exits: seq<int>, started: bool)
    requires !CutShort(gates, exits)
    ensures RunEvents(gates, exits, started) == GateEvents(gates, exits, |gates|)
  {
    assert CutAt(gates, exits, 0) == |gates|;
    assert GateEvents(gates, exits, |gates|) + [] == GateEvents(gates, exits, |gates|);
  }

  lemma FailShows(s: State, v: View, gate: string, reason: string, route: Option<Stage>)
    requires Shows(s, v) && AfterFail(s, gate, reason, route) != s
    ensures var t := AfterFail(s, gate, reason, route);
            t.loopbacks != [] && Shows(t, Noted(v, LoopedBack(t.loopbacks[|t.loopbacks| - 1])))
  {
  }

  lemma {:induction false} CloseShows(s: State, v: View, id: string)
    requires Shows(s, v) && DistinctIds(s.phases) && FirstPhase(s.phases, id) < |s.phases|
    requires AllPassed(s.phases[FirstPhase(s.phases, id)].gates)
    requires NoneOpen(s.loopbacks, s.phases[FirstPhase(s.phases, id)].gates)
    ensures Shows(AfterClose(s, id), Noted(v, PhaseClose(id, AfterClose(s, id).activePhase)))
  {
  }

  lemma {:induction false} StepShows(s: State, v: View, a: Attempt)
    requires Shows(s, v) && DistinctIds(s.phases) && Writes(s, a)
    ensures Shows(Step(s, a.found, a.command), Replay(v, EventsOf(s, a.found, a.command, a.started)))
  {
    var events := EventsOf(s, a.found, a.command, a.started);
    if events != [] { ReplayOne(v, events[0]); }
    if Loads(s, a.found) {
      match a.command
      case RunGates(id, exits) =>
        if FirstPhase(s.phases, id) < |s.phases| { RunShows(s, v, id, exits, a.started); }
      case Fail(gate, reason, route) =>
        if events != [] { FailShows(s, v, gate, reason, route); }
      case Advance(_) =>
      case ClosePhase(id) =>
        if events != [] { CloseShows(s, v, id); }
    }
  }

  lemma OpenedShows(locks: Locks)
    ensures Shows(Initial(locks), FirstView(locks))
  {
  }

  /**
   Over every sequence of commands, stopped ones included, state.json is the replay of the events of the commands
   that wrote it: stage, cycle, active phase, loopbacks with their resolution, every gate's status, every done phase.
   */
  lemma {:induction false} StateIsReplay(b: Books, v: View, attempts: seq<Attempt>)
    requires DistinctIds(b.state.phases) && Shows(b.state, Replay(v, b.kept))
    ensures var end := AttemptAll(b, attempts);
            Shows(end.state, Replay(v, end.kept))
    decreases |attempts|
  {
    if attempts == [] {
    } else {
      var a := attempts[0];
      var next := Attempted(b, a);
      if Writes(b.state, a) {
        StepShows(b.state, Replay(v, b.kept), a);
        ReplayConcat(v, b.kept, EventsOf(b.state, a.found, a.command, a.started));
        StepKeepsPlan(b.state, a.found, a.command);
        SamePlanDistinct(b.state.phases, next.state.phases);
      }
      StateIsReplay(next, v, attempts[1..]);
    }
  }

  /** From kickoff on, for a plan without repeated ids. */
  lemma {:induction false} MissionIsReplay(locks: Locks, attempts: seq<Attempt>, most: nat)
    requires DistinctIds(FreshPhases(locks.plan)) && PhasesUpTo(Initial(locks), most)
    ensures var end := AttemptAll(Opened(locks), attempts);
            Shows(end.state, Replay(FirstView(locks), end.kept)) && Recorded(end.state, end.ledger) &&
            Within(end.kept, end.ledger) &&
            |end.ledger| - |end.kept| <= AllowanceOf(Opened(locks), attempts, most)
  {
    OpenedShows(locks);
    StateIsReplay(Opened(locks), FirstView(locks), attempts);
    RecordedAlways(Opened(locks), attempts);
    LedgerRunsAhead(Opened(locks), attempts, most);
  }

  ghost predicate AllWrite(b: Books, attempts: seq<Attempt>)
    decreases |attempts|
  {
    attempts == [] || (Writes(b.state, attempts[0]) && AllWrite(Attempted(b, attempts[0]), attempts[1..]))
  }

  lemma {:induction false} NothingLost(b: Books, attempts: seq<Attempt>)
    requires b.kept == b.ledger && AllWrite(b, attempts)
    ensures AttemptAll(b, attempts).kept == AttemptAll(b, attempts).ledger
    decreases |attempts|
  {
    if attempts == [] {
    } else {
      NothingLost(Attempted(b, attempts[0]), attempts[1..]);
    }
  }

  /** If no command stopped, state.json can be rebuilt from the ledger alone. */
  lemma {:induction false} LedgerDeterminesState(locks: Locks, attempts: seq<Attempt>)
    requires DistinctIds(FreshPhases(locks.plan)) && AllWrite(Opened(locks), attempts)
    ensures var end := AttemptAll(Opened(locks), attempts);
            Shows(end.state, Replay(FirstView(locks), end.ledger))
  {
    OpenedShows(locks);
    StateIsReplay(Opened(locks), FirstView(locks), attempts);
    NothingLost(Opened(locks), attempts);
  }

  // ---------- The events in order ----------

  /** Where the events up to some point have led: the stage, and the gate that has started and not ended. */
  datatype Place = Place(stage: int, running: Option<string>)

  function Moved(p: Place, e: Event): (r: Place) {
    match e
    case GateStart(id) => p.(running := Some(id))
    case GateRun(_, _) => p.(running := None)
    case StageAdvance(_, target) => p.(stage := target)
    case LoopedBack(entry) => p.(stage := entry.toStage)
    case PhaseClose(_, _) => p
  }

  function PlaceAfter(events: seq<Event>): (r: Place) {
    if events == [] then Place(2, None) else Moved(PlaceAfter(events[..|events| - 1]), events[|events| - 1])
  }

  /**
   A gate run ends the gate that runs; nothing else happens while one does. An advance starts from the stage reached
   and does not go back, a loopback is open and does not go forward.
   */
  predicate Follows(p: Place, e: Event) {
    match e
    case GateStart(_) => p.running == None
    case GateRun(id, _) => p.running == Some(id)
    case StageAdvance(origin, target) => p.running == None && origin == p.stage <= target
    case LoopedBack(entry) => p.running == None && entry.toStage <= p.stage && !entry.resolved
    case PhaseClose(_, _) => p.running == None
  }

  /** From S2 on, every event follows the ones before it. */
  ghost predicate Orderly(events: seq<Event>) {
    forall n :: 0 <= n < |events| ==> Follows(PlaceAfter(events[..n]), events[n])
  }

  /** In order so far, and led there. */
  ghost predicate Leads(events: seq<Event>, p: Place) { Orderly(events) && PlaceAfter(events) == p }

  lemma LeadsSnoc(events: seq<Event>, p: Place, e: Event)
    requires Leads(events, p) && Follows(p, e)
    ensures Leads(events + [e], Moved(p, e))
  {
    var more := events + [e];
    assert more[..|events|] == events;
    forall n | 0 <= n < |more| ensures Follows(PlaceAfter(more[..n]), more[n]) {
      assert n < |events| ==> more[..n] == events[..n];
    }
  }

  lemma GateLeads(events: seq<Event>, p: Place, gates: seq<Gate>, exits: seq<int>, i: nat)
    requires i < |gates| && Leads(events, p) && p.running == None
    ensures Leads(events + EventsAt(gates, exits, i), p)
  {
    var more := EventsAt(gates, exits, i);
    if more == [] {
      assert events + more == events;
    } else {
      LeadsSnoc(events, p, more[0]);
      LeadsSnoc(events + [more[0]], Moved(p, more[0]), more[1]);
      assert events + more == (events + [more[0]]) + [more[1]];
    }
  }

  lemma GateAfterGates(
    events: seq<Event>, front: seq<Event>, before: seq<Event>, after: seq<Event>, p: Place, gates: seq<Gate>,
    exits: seq<int>, i: nat)
    requires i < |gates| && Leads(before, p) && p.running == None
    requires before == events + front && after == events + (front + EventsAt(gates, exits, i))
    ensures Leads(after, p)
  {
    GateLeads(before, p, gates, exits, i);
    Assoc(events, front, EventsAt(gates, exits, i));
  }

  lemma {:induction false} GatesLead(
      events: seq<Event>, p: Place, gates: seq<Gate>, exits: seq<int>, n: nat, after: seq<Event>)
    requires n <= |gates| && Leads(events, p) && p.running == None
    requires after == events + GateEvents(gates, exits, n)
    ensures Leads(after, p)
    decreases n
  {
    if n == 0 {
      assert after == events;
    } else {
      var front := GateEvents(gates, exits, n - 1);
      var before := events + front;
      GatesLead(events, p, gates, exits, n - 1, before);
      GateAfterGates(events, front, before, after, p, gates, exits, n - 1);
    }
  }

  lemma RunLeads(
      events: seq<Event>, p: Place, gates: seq<Gate>, exits: seq<int>, started: bool)
    requires !CutShort(gates, exits) && Leads(events, p) && p.running == None
    ensures Leads(events + RunEvents(gates, exits, started), p)
  {
    var cut := CutAt(gates, exits, 0);
    GatesLead(events, p, gates, exits, cut, events + GateEvents(gates, exits, cut));
    assert cut == |gates|;
    assert GateEvents(gates, exits, cut) + [] == GateEvents(gates, exits, cut);
  }

  lemma StepLeads(s: State, a: Attempt, events: seq<Event>)
    requires Writes(s, a) && Leads(events, Place(s.stage, None))
    ensures Leads(events + EventsOf(s, a.found, a.command, a.started),
                  Place(Step(s, a.found, a.command).stage, None))
  {
    var more := EventsOf(s, a.found, a.command, a.started);
    if more == [] {
      assert events + more == events;
    } else if a.command.RunGates? {
      var gates := s.phases[FirstPhase(s.phases, a.command.phase)].gates;
      RunLeads(events, Place(s.stage, None), gates, a.command.exits, a.started);
    } else {
      OneEvent(s, a);
      LeadsSnoc(events, Place(s.stage, None), more[0]);
    }
  }

  lemma OneEvent(s: State, a: Attempt)
    requires !a.command.RunGates? && EventsOf(s, a.found, a.command, a.started) != []
    ensures var more, next := EventsOf(s, a.found, a.command, a.started), Step(s, a.found, a.command).stage;
            more == [more[0]] && Follows(Place(s.stage, None), more[0]) &&
            Moved(Place(s.stage, None), more[0]) == Place(next, None)
  {
  }

  lemma {:induction false} LeadsOn(b: Books, attempts: seq<Attempt>)
    requires Leads(b.kept, Place(b.state.stage, None))
    ensures var end := AttemptAll(b, attempts);
            Leads(end.kept, Place(end.state.stage, None))
    decreases |attempts|
  {
    if attempts == [] {
    } else {
      if Writes(b.state, attempts[0]) { StepLeads(b.state, attempts[0], b.kept); }
      LeadsOn(Attempted(b, attempts[0]), attempts[1..]);
    }
  }

  /** After every sequence of commands the events of those that wrote the state are in order and lead to its stage. */
  lemma {:induction false} LedgerIsOrderly(locks: Locks, attempts: seq<Attempt>)
    ensures var end := AttemptAll(Opened(locks), attempts);
            Orderly(end.kept) && PlaceAfter(end.kept) == Place(end.state.stage, None)
  {
    LeadsOn(Opened(locks), attempts);
  }
}
