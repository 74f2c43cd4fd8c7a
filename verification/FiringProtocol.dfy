/** Scheduled fires and manual executes under every interleaving. Each process is broken into the
    reads and writes of `_fire` and `execute`; only the insert of `start_run` is atomic with its check. */
module FiringProtocol {
  import opened Wrappers
  import opened Store

  datatype Pc =
    | Checking                    // run_exists_for_key
    | ArmReading                  // _arm reads the state
    | ArmChecking                 // transition(READY) reads it again
    | ArmWriting
    | Inserting                   // start_run
    | EnterChecking(run: nat)     // transition(RUNNING) reads
    | EnterWriting(run: nat)
    | Working(run: nat)           // tool bodies, one step each
    | CloseChecking(run: nat)     // transition(COMPLETED or FAILED) reads
    | CloseWriting(run: nat)
    | Done

  /** A fire carries a period key; a manual execute carries none. */
  datatype Process = Process(workflow: nat, key: Option<string>, pc: Pc)

  datatype Reserved = Reserved(workflow: nat, key: Option<string>, owner: nat)

  datatype Call = Call(process: nat, run: nat)

  /** `entered` remembers which runs ever got into RUNNING. */
  datatype System = System(states: map<nat, WorkflowState>, runs: seq<Reserved>, processes: seq<Process>,
                           calls: seq<Call>, entered: set<nat>)

  datatype Action =
    | Begin(workflow: nat, key: Option<string>)
    | Advance(process: nat, choice: bool)       // `choice`: a stale existence check, or one more tool call
    | Other(workflow: nat, to: WorkflowState)   // any other request's legal transition

  predicate Taken(s: System, w: nat, key: Option<string>) {
    key.Some? && exists i | 0 <= i < |s.runs| :: s.runs[i].workflow == w && s.runs[i].key == key
  }

  predicate Allowed(s: System, w: nat, to: WorkflowState) { w in s.states && CanTransition(s.states[w], to) }

  function Goto(s: System, p: nat, pc: Pc): System
    requires p < |s.processes|
  {
    s.(processes := s.processes[p := s.processes[p].(pc := pc)])
  }

  function Write(s: System, p: nat, to: WorkflowState, pc: Pc): System
    requires p < |s.processes|
  {
    Goto(s, p, pc).(states := s.states[s.processes[p].workflow := to])
  }

  function AdvanceProcess(s: System, p: nat, choice: bool): System
    requires p < |s.processes|
  {
    var w, key := s.processes[p].workflow, s.processes[p].key;
    match s.processes[p].pc
    case Checking => Goto(s, p, if Taken(s, w, key) && !choice then Done else ArmReading)
    case ArmReading =>
      if w !in s.states then Goto(s, p, Done)
      else if s.states[w] == READY then Goto(s, p, Inserting)
      else if s.states[w] in {FEASIBLE, COMPLETED, FAILED} then Goto(s, p, ArmChecking)
      else Goto(s, p, Done)
    case ArmChecking => Goto(s, p, if Allowed(s, w, READY) then ArmWriting else Done)
    case ArmWriting => Write(s, p, READY, Inserting)
    case Inserting =>
      if Taken(s, w, key) then Goto(s, p, Done)
      else Goto(s, p, EnterChecking(|s.runs|)).(runs := s.runs + [Reserved(w, key, p)])
    case EnterChecking(run) => Goto(s, p, if Allowed(s, w, RUNNING) then EnterWriting(run) else Done)
    case EnterWriting(run) => Write(s, p, RUNNING, Working(run)).(entered := s.entered + {run})
    case Working(run) =>
      if choice then s.(calls := s.calls + [Call(p, run)]) else Goto(s, p, CloseChecking(run))
    case CloseChecking(run) => Goto(s, p, if Allowed(s, w, COMPLETED) then CloseWriting(run) else Done)
    case CloseWriting(run) => Write(s, p, if choice then COMPLETED else FAILED, Done)
    case Done => s
  }

  function Step(s: System, a: Action): System {
    match a
    case Begin(w, key) => s.(processes := s.processes + [Process(w, key, if key.Some? then Checking else ArmReading)])
    case Advance(p, choice) => if p < |s.processes| then AdvanceProcess(s, p, choice) else s
    case Other(w, to) => if Allowed(s, w, to) then s.(states := s.states[w := to]) else s
  }

  /** The system after a schedule of actions, from any workflow states and no runs. */
  function After(states: map<nat, WorkflowState>, actions: seq<Action>): System {
    if actions == [] then System(states, [], [], [], {})
    else Step(After(states, actions[..|actions|-1]), actions[|actions|-1])
  }

  // ------------------------------------------------------------ at most once

  /** The run a process holds, once it has reserved one. */
  function Held(pc: Pc): Option<nat> {
    match pc
    case EnterChecking(run) => Some(run) case EnterWriting(run) => Some(run) case Working(run) => Some(run)
    case CloseChecking(run) => Some(run) case CloseWriting(run) => Some(run)
    case _ => None
  }

  ghost predicate HoldsOwn(s: System, p: nat)
    requires p < |s.processes|
  {
    var held := Held(s.processes[p].pc);
    held.Some? ==>
      held.value < |s.runs| && s.runs[held.value] == Reserved(s.processes[p].workflow, s.processes[p].key, p) &&
      (held.value in s.entered <==> !Waits(s.processes[p].pc))
  }

  /** The process has reserved its run and not entered RUNNING. */
  predicate Waits(pc: Pc) { pc.EnterChecking? || pc.EnterWriting? }

  /** Each run has an owner that exists; until the owner gives up, it waits to enter or the run has entered. */
  ghost predicate Accounted(s: System) {
    (forall r | r in s.entered :: r < |s.runs|) &&
    forall r | 0 <= r < |s.runs| ::
      s.runs[r].owner < |s.processes| &&
      (r in s.entered || Held(s.processes[s.runs[r].owner].pc) == Some(r) || s.processes[s.runs[r].owner].pc == Done)
  }

  ghost predicate Unique(runs: seq<Reserved>) {
    forall i, j | 0 <= i < j < |runs| ::
      runs[i].key.Some? && runs[i].workflow == runs[j].workflow ==> runs[i].key != runs[j].key
  }

  ghost predicate CallsOwned(s: System) {
    forall i | 0 <= i < |s.calls| :: s.calls[i].run < |s.runs| && s.runs[s.calls[i].run].owner == s.calls[i].process
  }

  ghost predicate Invariant(s: System) {
    Unique(s.runs) && CallsOwned(s) && Accounted(s) && forall p | 0 <= p < |s.processes| :: HoldsOwn(s, p)
  }

  lemma GotoKeeps(s: System, p: nat, pc: Pc)
    requires Invariant(s) && p < |s.processes| && s.processes[p].pc != Done
    requires var before := s.processes[p].pc;
             if Held(pc) == None then pc == Done || !Waits(before)
             else Held(pc) == Held(before) && (Waits(pc) <==> Waits(before))
    ensures Invariant(Goto(s, p, pc))
  {
    var t := Goto(s, p, pc);
    assert HoldsOwn(s, p);
    forall q | 0 <= q < |t.processes| ensures HoldsOwn(t, q) {
      assert HoldsOwn(s, q);
    }
  }

  lemma InsertKeeps(s: System, p: nat)
    requires Invariant(s) && p < |s.processes| && s.processes[p].pc == Inserting
    requires !Taken(s, s.processes[p].workflow, s.processes[p].key)
    ensures Invariant(AdvanceProcess(s, p, true)) && Invariant(AdvanceProcess(s, p, false))
  {
    var t := AdvanceProcess(s, p, true);
    forall q | 0 <= q < |t.processes| ensures HoldsOwn(t, q) {
      assert HoldsOwn(s, q);
    }
  }

  lemma EnterKeeps(s: System, p: nat, choice: bool)
    requires Invariant(s) && p < |s.processes| && s.processes[p].pc.EnterWriting?
    ensures Invariant(AdvanceProcess(s, p, choice))
  {
    var t := AdvanceProcess(s, p, choice);
    assert HoldsOwn(s, p);
    forall q | 0 <= q < |t.processes| ensures HoldsOwn(t, q) {
      assert HoldsOwn(s, q);
    }
  }

  lemma AdvanceKeeps(s: System, p: nat, choice: bool)
    requires Invariant(s) && p < |s.processes|
    ensures Invariant(AdvanceProcess(s, p, choice))
  {
    var pr := s.processes[p];
    assert HoldsOwn(s, p);
    if pr.pc == Inserting && !Taken(s, pr.workflow, pr.key) {
      InsertKeeps(s, p);
    } else if pr.pc.EnterWriting? {
      EnterKeeps(s, p, choice);
    } else if pr.pc.Working? && choice {
      var t := AdvanceProcess(s, p, choice);
      forall q | 0 <= q < |t.processes| ensures HoldsOwn(t, q) {
        assert HoldsOwn(s, q);
      }
    } else if pr.pc != Done {
      var t := AdvanceProcess(s, p, choice);
      GotoKeeps(s, p, t.processes[p].pc);
      WriteKeeps(Goto(s, p, t.processes[p].pc), t);
    }
  }

  /** Workflow states play no part in the invariant. */
  lemma WriteKeeps(s: System, t: System)
    requires Invariant(s) && t == s.(states := t.states)
    ensures Invariant(t)
  {
    forall q | 0 <= q < |t.processes| ensures HoldsOwn(t, q) {
      assert HoldsOwn(s, q);
    }
  }

  lemma StepKeeps(s: System, a: Action)
    requires Invariant(s)
    ensures Invariant(Step(s, a))
  {
    match a
    case Begin(w, key) =>
      var t := Step(s, a);
      forall q | 0 <= q < |t.processes| ensures HoldsOwn(t, q) {
        if q < |s.processes| { assert HoldsOwn(s, q); }
      }
    case Advance(p, choice) => if p < |s.processes| { AdvanceKeeps(s, p, choice); }
    case Other(w, to) => WriteKeeps(s, Step(s, a));
  }

  lemma {:induction false} Always(states: map<nat, WorkflowState>, actions: seq<Action>)
    ensures Invariant(After(states, actions))
  {
    if actions != [] {
      Always(states, actions[..|actions|-1]);
      StepKeeps(After(states, actions[..|actions|-1]), actions[|actions|-1]);
    }
  }

  /** At-most-once firing. Under every interleaving, and even if every existence check answers wrongly,
      a (workflow, key) pair has at most one run row, and all tool calls made for it come from one process. */
  lemma AtMostOnce(states: map<nat, WorkflowState>, actions: seq<Action>)
    ensures var s := After(states, actions);
            Unique(s.runs) &&
            forall i, j | 0 <= i < |s.calls| && 0 <= j < |s.calls| ::
              s.calls[i].run < |s.runs| && s.calls[j].run < |s.runs| &&
              (s.runs[s.calls[i].run].key.Some? &&
               s.runs[s.calls[i].run].workflow == s.runs[s.calls[j].run].workflow &&
               s.runs[s.calls[i].run].key == s.runs[s.calls[j].run].key
               ==> s.calls[i] == s.calls[j])
  {
    Always(states, actions);
    var s := After(states, actions);
    forall i, j | 0 <= i < |s.calls| && 0 <= j < |s.calls| && s.runs[s.calls[i].run].key.Some? &&
                  s.runs[s.calls[i].run].workflow == s.runs[s.calls[j].run].workflow &&
                  s.runs[s.calls[i].run].key == s.runs[s.calls[j].run].key
      ensures s.calls[i] == s.calls[j]
    {
      assert s.calls[i].run == s.calls[j].run;
    }
  }

  // ------------------------------------------------------------ but not exactly once

  /** The period `key` of workflow `w` is reserved by a process that ended without ever entering RUNNING. */
  ghost predicate Lost(s: System, w: nat, key: string, run: nat) {
    run < |s.runs| && s.runs[run].workflow == w && s.runs[run].key == Some(key) &&
    s.runs[run].owner < |s.processes| && s.processes[s.runs[run].owner].pc == Done && run !in s.entered
  }

  /** The fate of every reserved period: it has run or is running, its owner is about to enter, or it is lost. */
  lemma ReservedFate(states: map<nat, WorkflowState>, actions: seq<Action>, run: nat)
    requires run < |After(states, actions).runs| && After(states, actions).runs[run].key.Some?
    ensures var s := After(states, actions);
            var r := s.runs[run];
            r.owner < |s.processes| &&
            (run in s.entered || Held(s.processes[r.owner].pc) == Some(run) || Lost(s, r.workflow, r.key.value, run))
  {
    Always(states, actions);
  }

  /** The step that decides: a fire that has reserved its period loses it exactly when it finds its workflow
      in a state from which RUNNING is not allowed. */
  lemma LostExactly(states: map<nat, WorkflowState>, actions: seq<Action>, p: nat, choice: bool)
    requires p < |After(states, actions).processes|
    requires After(states, actions).processes[p].pc.EnterChecking? && After(states, actions).processes[p].key.Some?
    ensures var s := After(states, actions);
            var pr := s.processes[p];
            Lost(Step(s, Advance(p, choice)), pr.workflow, pr.key.value, pr.pc.run) <==>
            pr.workflow !in s.states || s.states[pr.workflow] !in {READY, PAUSED}
  {
    Always(states, actions);
    EnteringDecides(After(states, actions), p, choice);
  }

  lemma EnteringDecides(s: System, p: nat, choice: bool)
    requires Invariant(s) && p < |s.processes| && s.processes[p].pc.EnterChecking? && s.processes[p].key.Some?
    ensures var pr := s.processes[p];
            Lost(Step(s, Advance(p, choice)), pr.workflow, pr.key.value, pr.pc.run) <==>
            pr.workflow !in s.states || s.states[pr.workflow] !in {READY, PAUSED}
  {
    assert HoldsOwn(s, p);
    if s.processes[p].workflow in s.states { EntersFrom(s.states[s.processes[p].workflow]); }
  }

  lemma EntersFrom(state: WorkflowState)
    ensures CanTransition(state, RUNNING) <==> state in {READY, PAUSED}
  {
  }

  lemma LostStays(s: System, a: Action, w: nat, key: string, run: nat)
    requires Invariant(s) && Lost(s, w, key, run)
    ensures Lost(Step(s, a), w, key, run)
  {
    if a.Advance? && a.process < |s.processes| {
      assert HoldsOwn(s, a.process);
    }
  }

  lemma LostAfterOne(states: map<nat, WorkflowState>, actions: seq<Action>, a: Action, w: nat, key: string, run: nat)
    requires Lost(After(states, actions), w, key, run)
    ensures Lost(After(states, actions + [a]), w, key, run)
  {
    Always(states, actions);
    Then(states, actions, a);
    LostStays(After(states, actions), a, w, key, run);
  }

  /** Once lost, a period stays lost: no later action ever runs a tool for it. */
  lemma {:induction false} LostForever(states: map<nat, WorkflowState>, actions: seq<Action>, more: seq<Action>,
                                       w: nat, key: string, run: nat)
    requires Lost(After(states, actions), w, key, run)
    ensures Lost(After(states, actions + more), w, key, run)
  {
    if more == [] {
      assert actions + more == actions;
    } else {
      var init, a := more[..|more|-1], more[|more|-1];
      LostForever(states, actions, init, w, key, run);
      LostAfterOne(states, actions + init, a, w, key, run);
      assert actions + more == (actions + init) + [a];
    }
  }

  lemma Then(states: map<nat, WorkflowState>, actions: seq<Action>, a: Action)
    ensures After(states, actions + [a]) == Step(After(states, actions), a)
  {
    assert (actions + [a])[..|actions|] == actions;
  }

  /** A fire (process 0) and a manual execute (process 1) of the one workflow `w`. */
  function Scene(w: nat, key: string, state: WorkflowState, runs: seq<Reserved>, fire: Pc, manual: Pc, entered: set<nat>)
    : System
  {
    System(map[w := state], runs, [Process(w, Some(key), fire), Process(w, None, manual)], [], entered)
  }

  lemma Plays(states: map<nat, WorkflowState>, actions: seq<Action>, a: Action, s: System, t: System)
    returns (longer: seq<Action>)
    requires After(states, actions) == s && Step(s, a) == t
    ensures After(states, longer) == t
  {
    Then(states, actions, a);
    longer := actions + [a];
  }

  /** Both processes have begun, and the fire has passed its check and found the workflow READY. */
  lemma FireArms(w: nat, key: string) returns (actions: seq<Action>)
    ensures After(map[w := READY], actions) == Scene(w, key, READY, [], Inserting, ArmReading, {})
  {
    var states := map[w := READY];
    var fire := Process(w, Some(key), Checking);
    actions := Plays(states, [], Begin(w, Some(key)), System(states, [], [], [], {}), System(states, [], [fire], [], {}));
    actions := Plays(states, actions, Begin(w, None), System(states, [], [fire], [], {}), Scene(w, key, READY, [], Checking, ArmReading, {}));
    actions := Plays(states, actions, Advance(0, false), Scene(w, key, READY, [], Checking, ArmReading, {}),
                     Scene(w, key, READY, [], ArmReading, ArmReading, {}));
    actions := Plays(states, actions, Advance(0, false), Scene(w, key, READY, [], ArmReading, ArmReading, {}),
                     Scene(w, key, READY, [], Inserting, ArmReading, {}));
  }

  /** The manual execute then gets all the way into RUNNING. */
  lemma ManualOvertakes(w: nat, key: string, before: seq<Action>) returns (actions: seq<Action>)
    requires After(map[w := READY], before) == Scene(w, key, READY, [], Inserting, ArmReading, {})
    ensures After(map[w := READY], actions) == Scene(w, key, RUNNING, [Reserved(w, None, 1)], Inserting, Working(0), {0})
  {
    var states, run := map[w := READY], [Reserved(w, None, 1)];
    actions := Plays(states, before, Advance(1, false), Scene(w, key, READY, [], Inserting, ArmReading, {}),
                     Scene(w, key, READY, [], Inserting, Inserting, {}));
    actions := Plays(states, actions, Advance(1, false), Scene(w, key, READY, [], Inserting, Inserting, {}),
                     Scene(w, key, READY, run, Inserting, EnterChecking(0), {}));
    actions := Plays(states, actions, Advance(1, false), Scene(w, key, READY, run, Inserting, EnterChecking(0), {}),
                     Scene(w, key, READY, run, Inserting, EnterWriting(0), {}));
    actions := Plays(states, actions, Advance(1, false), Scene(w, key, READY, run, Inserting, EnterWriting(0), {}),
                     Scene(w, key, RUNNING, run, Inserting, Working(0), {0}));
  }

  /** A fire that armed a READY workflow is overtaken by a manual execute: it still reserves its period,
      cannot enter RUNNING, and the period is lost. */
  lemma PeriodCanBeLost(w: nat, key: string) returns (actions: seq<Action>)
    ensures Lost(After(map[w := READY], actions), w, key, 1)
  {
    var states, run, both := map[w := READY], [Reserved(w, None, 1)], [Reserved(w, None, 1), Reserved(w, Some(key), 0)];
    actions := FireArms(w, key);
    actions := ManualOvertakes(w, key, actions);
    actions := Plays(states, actions, Advance(0, false), Scene(w, key, RUNNING, run, Inserting, Working(0), {0}),
                     Scene(w, key, RUNNING, both, EnterChecking(1), Working(0), {0}));
    actions := Plays(states, actions, Advance(0, false), Scene(w, key, RUNNING, both, EnterChecking(1), Working(0), {0}),
                     Scene(w, key, RUNNING, both, Done, Working(0), {0}));
  }

  // ------------------------------------------------------------ when none is lost

  /** The process has found its workflow READY, or made it READY, and has yet to enter RUNNING. */
  predicate Armed(pc: Pc) { pc == Inserting || Waits(pc) }

  /** The workflow that an action takes to a state other than READY. */
  function Moves(s: System, a: Action): Option<nat> {
    match a
    case Begin(_, _) => None
    case Advance(p, _) =>
      if p < |s.processes| && (s.processes[p].pc.EnterWriting? || s.processes[p].pc.CloseWriting?)
      then Some(s.processes[p].workflow) else None
    case Other(w, to) => if Allowed(s, w, to) && to != READY then Some(w) else None
  }

  /** The action moves the workflow of the armed process `q`, and is not `q`'s own. */
  predicate Disturbs(s: System, a: Action, q: nat) {
    q < |s.processes| && Armed(s.processes[q].pc) && Moves(s, a) == Some(s.processes[q].workflow) &&
    !(a.Advance? && a.process == q)
  }

  ghost predicate Undisturbed(states: map<nat, WorkflowState>, actions: seq<Action>) {
    forall i, q: nat | 0 <= i < |actions| :: !Disturbs(After(states, actions[..i]), actions[i], q)
  }

  /** The workflow of an armed process is READY. */
  predicate ArmedIsReady(s: System, q: nat)
    requires q < |s.processes|
  {
    Armed(s.processes[q].pc) ==> s.processes[q].workflow in s.states && s.states[s.processes[q].workflow] == READY
  }

  ghost predicate Calm(s: System) {
    Invariant(s) && (forall q | 0 <= q < |s.processes| :: ArmedIsReady(s, q)) &&
    forall r | 0 <= r < |s.runs| :: r in s.entered || s.processes[s.runs[r].owner].pc != Done
  }

  lemma ReadyStays(s: System, a: Action, q: nat)
    requires Calm(s) && !Disturbs(s, a, q) && q < |s.processes|
    ensures |Step(s, a).processes| >= |s.processes| && ArmedIsReady(Step(s, a), q)
  {
    assert ArmedIsReady(s, q);
  }

  lemma NoneEnds(s: System, a: Action, r: nat)
    requires Calm(s) && r < |Step(s, a).runs| && Invariant(Step(s, a))
    ensures var t := Step(s, a); r in t.entered || t.processes[t.runs[r].owner].pc != Done
  {
    if a.Advance? && a.process < |s.processes| {
      assert HoldsOwn(s, a.process) && ArmedIsReady(s, a.process);
      EntersFrom(READY);
    }
  }

  lemma StepStaysCalm(s: System, a: Action)
    requires Calm(s) && forall q: nat :: !Disturbs(s, a, q)
    ensures Calm(Step(s, a))
  {
    var t := Step(s, a);
    StepKeeps(s, a);
    forall q | 0 <= q < |t.processes| ensures ArmedIsReady(t, q) {
      if q < |s.processes| { ReadyStays(s, a, q); }
    }
    forall r | 0 <= r < |t.runs| ensures r in t.entered || t.processes[t.runs[r].owner].pc != Done {
      NoneEnds(s, a, r);
    }
  }

  lemma {:induction false} UndisturbedIsCalm(states: map<nat, WorkflowState>, actions: seq<Action>)
    requires Undisturbed(states, actions)
    ensures Calm(After(states, actions))
  {
    if actions != [] {
      var init, a := actions[..|actions|-1], actions[|actions|-1];
      assert actions == init + [a];
      assert Undisturbed(states, init) by { ShorterIsUndisturbed(states, init, a); }
      UndisturbedIsCalm(states, init);
      forall q: nat ensures !Disturbs(After(states, init), a, q) {
        assert actions[..|init|] == init;
      }
      StepStaysCalm(After(states, init), a);
    }
  }

  lemma ShorterIsUndisturbed(states: map<nat, WorkflowState>, init: seq<Action>, a: Action)
    requires Undisturbed(states, init + [a])
    ensures Undisturbed(states, init)
  {
    forall i, q: nat | 0 <= i < |init| ensures !Disturbs(After(states, init[..i]), init[i], q) {
      assert (init + [a])[..i] == init[..i] && (init + [a])[i] == init[i];
    }
  }

  /** If no action moves a workflow away from READY while another process is between arming it and entering RUNNING,
      no reserved period is ever lost: each has run, is running, or is about to. */
  lemma NoPeriodIsLost(states: map<nat, WorkflowState>, actions: seq<Action>, run: nat)
    requires Undisturbed(states, actions)
    ensures var s := After(states, actions);
            (forall w, key :: !Lost(s, w, key, run)) &&
            (run < |s.runs| ==>
               run in s.entered ||
               (s.runs[run].owner < |s.processes| && Held(s.processes[s.runs[run].owner].pc) == Some(run)))
  {
    UndisturbedIsCalm(states, actions);
  }
}
