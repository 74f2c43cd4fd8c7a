/** What holds after every history of requests: the approval and feasibility gates, the job table's
    agreement with the store, and that scheduled workflows never wedge. */
module Histories {
  import opened Wrappers
  import opened Feasibility
  import opened Store
  import opened Execution
  import opened Executor
  import opened Calendar
  import opened Engine

  // ------------------------------------------------------------ the invariant of one row and one database

  /** Which plans the checker accepts. */
  type Gate = WorkflowPlan -> bool

  function GateOf(env: Env): Gate { (p: WorkflowPlan) => Report(p, env.reg, env.pol).ok }

  ghost predicate RowSafe(gate: Gate, row: WorkflowRow) {
    row.state in {PLANNED, REJECTED, AWAITING_APPROVAL, READY, COMPLETED, FAILED} &&
    (if row.state == PLANNED then row.plan.None? else row.plan.Some?) &&
    (row.state !in {PLANNED, REJECTED} ==> gate(row.plan.value)) &&
    (row.scheduled ==> row.state in {READY, COMPLETED, FAILED} && row.schedule.Some?)
  }

  ghost predicate RunsSafe(db: Db) {
    forall i | 0 <= i < |db.runs| ::
      db.runs[i].workflow < |db.workflows| && db.workflows[db.runs[i].workflow].state in {READY, COMPLETED, FAILED} &&
      db.runs[i].finished && db.runs[i].status in {COMPLETED, FAILED}
  }

  ghost predicate DbSafe(gate: Gate, db: Db) {
    (forall w | 0 <= w < |db.workflows| :: RowSafe(gate, db.workflows[w])) && RunsSafe(db) && KeysUnique(db)
  }

  ghost predicate Safe(gate: Gate, e: Engine) {
    DbSafe(gate, e.db) && (e.jobs.Some? ==> e.jobs.value == EligibleJobs(e.db))
  }

  // ------------------------------------------------------------ how a request changes rows

  /** The database after one finished run: the workflow at rest in `end`, a run row, some step rows. */
  function AfterRun(db: Db, wid: nat, end: WorkflowState, key: Option<string>, steps: map<(nat, int), StepRow>): Db
    requires wid < |db.workflows|
  {
    Db(db.workflows[wid := Ran(db.workflows[wid], end)], db.runs + [RunRow(wid, key, end, true)], steps)
  }

  /** A row taken through READY and RUNNING to the end of a run. */
  function Ran(row: WorkflowRow, end: WorkflowState): WorkflowRow {
    Enter(Enter(if row.state == READY then row else Enter(row, READY), RUNNING), end)
  }

  predicate Armable(row: WorkflowRow) { row.state in {READY, FEASIBLE, COMPLETED, FAILED} }

  function RunEnd(env: Env, db: Db, plan: WorkflowPlan, payload: Trigger): RunState {
    RunPlan(WorldAt(env, |db.runs|), payload, plan.steps)
  }

  lemma ReadyRunIs(w: World, db: Db, wid: nat, plan: WorkflowPlan, payload: Trigger, key: Option<string>)
    requires wid < |db.workflows| && db.workflows[wid].state == READY && !KeyTaken(db, wid, key)
    ensures var st := RunPlan(w, payload, plan.steps);
            ExecuteSpec(w, db, wid, plan, payload, key).0 ==
            AfterRun(db, wid, EndState(st), key, Recorded(db.steps, |db.runs|, st.rows))
  {
  }

  lemma ArmedRunIs(db: Db, wid: nat, end: WorkflowState, key: Option<string>, steps: map<(nat, int), StepRow>)
    requires wid < |db.workflows| && Armable(db.workflows[wid])
    ensures Arm(db, wid).Some?
    ensures var armed := Arm(db, wid).value;
            |armed.workflows| == |db.workflows| && armed.workflows[wid].state == READY && armed.runs == db.runs &&
            armed.steps == db.steps && AfterRun(armed, wid, end, key, steps) == AfterRun(db, wid, end, key, steps)
  {
    var armed := Arm(db, wid).value;
    assert db.workflows[wid].state != READY ==> armed.workflows == db.workflows[wid := Enter(db.workflows[wid], READY)];
  }

  /** Arming and running either does nothing or completes exactly one run. */
  lemma ArmAndRunIs(env: Env, db: Db, wid: nat, payload: Trigger, key: Option<string>)
    requires wid < |db.workflows| && db.workflows[wid].plan.Some? && !KeyTaken(db, wid, key)
    ensures var st := RunEnd(env, db, db.workflows[wid].plan.value, payload);
            ArmAndRun(env, db, wid, payload, key) ==
            if Armable(db.workflows[wid]) then AfterRun(db, wid, EndState(st), key, Recorded(db.steps, |db.runs|, st.rows))
            else db
  {
    if Armable(db.workflows[wid]) {
      var plan, st := db.workflows[wid].plan.value, RunEnd(env, db, db.workflows[wid].plan.value, payload);
      ArmedRunIs(db, wid, EndState(st), key, Recorded(db.steps, |db.runs|, st.rows));
      ReadyRunIs(WorldAt(env, |db.runs|), Arm(db, wid).value, wid, plan, payload, key);
    }
  }

  lemma AfterRunRows(gate: Gate, db: Db, wid: nat, end: WorkflowState, key: Option<string>, steps: map<(nat, int), StepRow>)
    requires DbSafe(gate, db) && wid < |db.workflows| && Armable(db.workflows[wid]) && end in {COMPLETED, FAILED}
    ensures var db' := AfterRun(db, wid, end, key, steps);
            (forall w | 0 <= w < |db'.workflows| :: RowSafe(gate, db'.workflows[w])) && RunsSafe(db')
  {
    assert RowSafe(gate, db.workflows[wid]);
  }

  lemma AfterRunKeys(db: Db, wid: nat, end: WorkflowState, key: Option<string>, steps: map<(nat, int), StepRow>)
    requires KeysUnique(db) && wid < |db.workflows| && !KeyTaken(db, wid, key)
    ensures KeysUnique(AfterRun(db, wid, end, key, steps))
  {
  }

  lemma AfterRunJobs(db: Db, wid: nat, end: WorkflowState, key: Option<string>, steps: map<(nat, int), StepRow>)
    requires wid < |db.workflows| && Armable(db.workflows[wid]) && end in {COMPLETED, FAILED}
    ensures EligibleJobs(AfterRun(db, wid, end, key, steps)) == EligibleJobs(db)
  {
  }

  /** What a run request may do to the database: keep it safe, keep the eligible jobs, add no workflow. */
  ghost predicate Harmless(gate: Gate, db: Db, db': Db) {
    DbSafe(gate, db') && EligibleJobs(db') == EligibleJobs(db) && |db'.workflows| == |db.workflows|
  }

  lemma ArmAndRunSafe(env: Env, db: Db, wid: nat, payload: Trigger, key: Option<string>)
    requires DbSafe(GateOf(env), db) && wid < |db.workflows| && db.workflows[wid].plan.Some? && !KeyTaken(db, wid, key)
    ensures Harmless(GateOf(env), db, ArmAndRun(env, db, wid, payload, key))
  {
    ArmAndRunIs(env, db, wid, payload, key);
    if Armable(db.workflows[wid]) {
      var st := RunEnd(env, db, db.workflows[wid].plan.value, payload);
      var end, steps := EndState(st), Recorded(db.steps, |db.runs|, st.rows);
      AfterRunRows(GateOf(env), db, wid, end, key, steps);
      AfterRunKeys(db, wid, end, key, steps);
      AfterRunJobs(db, wid, end, key, steps);
    }
  }

  lemma ExecuteSafe(env: Env, db: Db, wid: nat, payload: Trigger)
    requires DbSafe(GateOf(env), db)
    ensures Harmless(GateOf(env), db, ExecuteDb(env, db, wid, payload))
  {
    if wid < |db.workflows| && Executable(db.workflows[wid]) { ArmAndRunSafe(env, db, wid, payload, None); }
  }

  lemma {:induction false} EventSafe(env: Env, db: Db, wids: seq<nat>, payload: Trigger)
    requires DbSafe(GateOf(env), db)
    ensures Harmless(GateOf(env), db, EventRuns(env, db, wids, payload))
  {
    if wids != [] {
      EventSafe(env, db, wids[..|wids|-1], payload);
      ExecuteSafe(env, EventRuns(env, db, wids[..|wids|-1], payload), wids[|wids|-1], payload);
    }
  }

  lemma AppendSafe(gate: Gate, db: Db, row: WorkflowRow)
    requires DbSafe(gate, db) && RowSafe(gate, row)
    ensures DbSafe(gate, db.(workflows := db.workflows + [row]))
  {
  }

  lemma AppendJobs(db: Db, row: WorkflowRow)
    ensures EligibleJobs(db.(workflows := db.workflows + [row])) ==
            if Eligible(row) then EligibleJobs(db)[|db.workflows| := row.schedule.value] else EligibleJobs(db)
  {
  }

  lemma ReplaceSafe(gate: Gate, db: Db, wid: nat, row: WorkflowRow)
    requires DbSafe(gate, db) && wid < |db.workflows| && RowSafe(gate, row)
    requires row.state == db.workflows[wid].state || db.workflows[wid].state == AWAITING_APPROVAL
    ensures DbSafe(gate, db.(workflows := db.workflows[wid := row]))
  {
  }

  lemma ReplaceJobs(db: Db, wid: nat, row: WorkflowRow)
    requires wid < |db.workflows|
    ensures EligibleJobs(db.(workflows := db.workflows[wid := row])) ==
            if Eligible(row) then EligibleJobs(db)[wid := row.schedule.value] else EligibleJobs(db) - {wid}
  {
  }

  // ------------------------------------------------------------ every request keeps the invariant

  lemma HarmlessSafe(gate: Gate, e: Engine, db: Db)
    requires Safe(gate, e) && Harmless(gate, e.db, db)
    ensures Safe(gate, e.(db := db))
  {
  }

  lemma ExecuteRequestSafe(env: Env, e: Engine, wid: nat, payload: Trigger)
    requires Safe(GateOf(env), e)
    ensures Safe(GateOf(env), Serve(env, e, ExecuteNow(wid, payload)))
  {
    ExecuteSafe(env, e.db, wid, payload);
    HarmlessSafe(GateOf(env), e, ExecuteDb(env, e.db, wid, payload));
  }

  lemma EventRequestSafe(env: Env, e: Engine, kind: string, payload: Trigger)
    requires Safe(GateOf(env), e)
    ensures Safe(GateOf(env), Serve(env, e, Event(kind, payload)))
  {
    var wids := Matching(e.db, kind, |e.db.workflows|);
    EventSafe(env, e.db, wids, payload);
    HarmlessSafe(GateOf(env), e, EventRuns(env, e.db, wids, payload));
  }

  lemma FireSafe(env: Env, db: Db, wid: nat, frequency: string, t: DateTime)
    requires DbSafe(GateOf(env), db) && Valid(t)
    ensures Harmless(GateOf(env), db, FireDb(env, db, wid, frequency, t))
  {
    if Fires(db, wid, frequency, t) {
      ArmAndRunSafe(env, db, wid, FirePayload(ComputeWindow(frequency, t).value, t), Some(RunKey(frequency, t)));
    }
  }

  lemma FireRequestSafe(env: Env, e: Engine, wid: nat, frequency: string, t: DateTime)
    requires Safe(GateOf(env), e) && Valid(t)
    ensures Safe(GateOf(env), Serve(env, e, Fire(wid, frequency, t)))
  {
    FireSafe(env, e.db, wid, frequency, t);
    HarmlessSafe(GateOf(env), e, FireDb(env, e.db, wid, frequency, t));
  }

  lemma AddWorkflow(env: Env, e: Engine, row: WorkflowRow)
    requires Safe(GateOf(env), e) && RowSafe(GateOf(env), row)
    ensures var db := e.db.(workflows := e.db.workflows + [row]);
            var jobs := if Eligible(row) then Register(e.jobs, |e.db.workflows|, row.schedule.value) else e.jobs;
            Safe(GateOf(env), Engine(db, jobs))
  {
    AppendSafe(GateOf(env), e.db, row);
    AppendJobs(e.db, row);
  }

  lemma ChangeWorkflow(env: Env, e: Engine, wid: nat, row: WorkflowRow)
    requires Safe(GateOf(env), e) && wid < |e.db.workflows| && RowSafe(GateOf(env), row)
    requires row.state == e.db.workflows[wid].state || e.db.workflows[wid].state == AWAITING_APPROVAL
    ensures var db := e.db.(workflows := e.db.workflows[wid := row]);
            var jobs := if Eligible(row) then Register(e.jobs, wid, row.schedule.value) else Unregister(e.jobs, wid);
            Safe(GateOf(env), Engine(db, jobs))
  {
    ReplaceSafe(GateOf(env), e.db, wid, row);
    ReplaceJobs(e.db, wid, row);
  }

  lemma CreateSafe(env: Env, e: Engine, plan: Option<WorkflowPlan>)
    requires Safe(GateOf(env), e)
    ensures Safe(GateOf(env), Serve(env, e, CreateWorkflow(plan)))
  {
    assert plan.Some? ==> GateOf(env)(plan.value) == Report(plan.value, env.reg, env.pol).ok;
    AddWorkflow(env, e, CreatedRow(env, plan));
  }

  lemma ScheduleSafe(env: Env, e: Engine, plan: WorkflowPlan, schedule: Schedule)
    requires Safe(GateOf(env), e)
    ensures Safe(GateOf(env), Serve(env, e, ScheduleReport(plan, schedule)))
  {
    if GateOf(env)(plan) {
      AddWorkflow(env, e, ReportRow(plan, Some(schedule)));
    }
  }

  lemma DeliverSafe(env: Env, db: Db, plan: WorkflowPlan)
    requires DbSafe(GateOf(env), db) && GateOf(env)(plan)
    ensures DbSafe(GateOf(env), DeliverDb(env, db, plan))
    ensures EligibleJobs(DeliverDb(env, db, plan)) == EligibleJobs(db)
  {
    var row := ReportRow(plan, None);
    var added, wid := db.(workflows := db.workflows + [row]), |db.workflows|;
    AppendSafe(GateOf(env), db, row);
    AppendJobs(db, row);
    ArmAndRunSafe(env, added, wid, map[], None);
    DeliverIsArmAndRun(env, db, plan);
  }

  lemma DeliverIsArmAndRun(env: Env, db: Db, plan: WorkflowPlan)
    requires GateOf(env)(plan)
    ensures DeliverDb(env, db, plan) ==
            ArmAndRun(env, db.(workflows := db.workflows + [ReportRow(plan, None)]), |db.workflows|, map[], None)
  {
  }

  lemma ApproveSafe(gate: Gate, db: Db, wid: nat)
    requires DbSafe(gate, db)
    ensures DbSafe(gate, ApproveDb(db, wid)) && EligibleJobs(ApproveDb(db, wid)) == EligibleJobs(db)
  {
    if wid < |db.workflows| && db.workflows[wid].state == AWAITING_APPROVAL {
      var row := db.workflows[wid];
      assert RowSafe(gate, row);
      ReplaceSafe(gate, db, wid, Enter(row, READY));
      ReplaceJobs(db, wid, Enter(row, READY));
    }
  }

  lemma DeliverRefused(env: Env, db: Db, plan: WorkflowPlan)
    requires !GateOf(env)(plan)
    ensures DeliverDb(env, db, plan) == db
  {
  }

  lemma DeliverAnySafe(env: Env, db: Db, plan: WorkflowPlan) returns (after: Db)
    requires DbSafe(GateOf(env), db)
    ensures after == DeliverDb(env, db, plan)
    ensures DbSafe(GateOf(env), after) && EligibleJobs(after) == EligibleJobs(db)
  {
    after := DeliverDb(env, db, plan);
    if GateOf(env)(plan) { DeliverSafe(env, db, plan); } else { DeliverRefused(env, db, plan); }
  }

  lemma DeliverRequestSafe(env: Env, e: Engine, plan: WorkflowPlan)
    requires Safe(GateOf(env), e)
    ensures Safe(GateOf(env), Serve(env, e, DeliverReport(plan)))
  {
    var after := DeliverAnySafe(env, e.db, plan);
    SameJobsSafe(GateOf(env), e, after);
  }

  lemma SameJobsSafe(gate: Gate, e: Engine, db: Db)
    requires Safe(gate, e) && DbSafe(gate, db) && EligibleJobs(db) == EligibleJobs(e.db)
    ensures Safe(gate, e.(db := db))
  {
  }

  lemma ApproveRequestSafe(env: Env, e: Engine, wid: nat)
    requires Safe(GateOf(env), e)
    ensures Safe(GateOf(env), Serve(env, e, Approve(wid)))
  {
    ApproveSafe(GateOf(env), e.db, wid);
  }

  lemma StartAgain(e: Engine, eligible: map<nat, Schedule>)
    requires EligibleJobs(e.db) == eligible && (e.jobs.Some? ==> e.jobs.value == eligible)
    ensures StartJobs(e) == Some(eligible)
  {
    assert map[] + eligible == eligible && eligible + eligible == eligible;
  }

  lemma JobsSafe(gate: Gate, e: Engine, jobs: Option<map<nat, Schedule>>)
    requires Safe(gate, e) && (jobs.Some? ==> jobs.value == EligibleJobs(e.db))
    ensures Safe(gate, e.(jobs := jobs))
  {
  }

  lemma StartSafe(env: Env, e: Engine)
    requires Safe(GateOf(env), e)
    ensures Safe(GateOf(env), Serve(env, e, StartScheduler))
  {
    StartAgain(e, EligibleJobs(e.db));
    JobsSafe(GateOf(env), e, StartJobs(e));
  }

  lemma StopSafe(env: Env, e: Engine)
    requires Safe(GateOf(env), e)
    ensures Safe(GateOf(env), Serve(env, e, StopScheduler))
  {
    JobsSafe(GateOf(env), e, None);
  }

  lemma SetPausedSafe(env: Env, e: Engine, wid: nat, paused: bool)
    requires Safe(GateOf(env), e) && wid < |e.db.workflows|
    ensures var row := e.db.workflows[wid].(paused := paused);
            Safe(GateOf(env), Engine(SetPausedDb(e.db, wid, paused),
                                     if Eligible(row) then Register(e.jobs, wid, row.schedule.value) else Unregister(e.jobs, wid)))
  {
    assert RowSafe(GateOf(env), e.db.workflows[wid]);
    ChangeWorkflow(env, e, wid, e.db.workflows[wid].(paused := paused));
  }

  lemma PauseSafe(env: Env, e: Engine, wid: nat)
    requires Safe(GateOf(env), e)
    ensures Safe(GateOf(env), Serve(env, e, PauseSchedule(wid)))
  {
    if wid < |e.db.workflows| { SetPausedSafe(env, e, wid, true); }
  }

  lemma ResumeSafe(env: Env, e: Engine, wid: nat)
    requires Safe(GateOf(env), e)
    ensures Safe(GateOf(env), Serve(env, e, ResumeSchedule(wid)))
  {
    if wid < |e.db.workflows| && e.db.workflows[wid].scheduled {
      assert RowSafe(GateOf(env), e.db.workflows[wid]);
      SetPausedSafe(env, e, wid, false);
    }
  }

  lemma ServeSafe(env: Env, e: Engine, r: Request)
    requires Safe(GateOf(env), e) && WellFormed(r)
    ensures Safe(GateOf(env), Serve(env, e, r))
  {
    match r
    case ExecuteNow(wid, payload) => ExecuteRequestSafe(env, e, wid, payload);
    case Event(kind, payload) => EventRequestSafe(env, e, kind, payload);
    case Fire(wid, frequency, t) => FireRequestSafe(env, e, wid, frequency, t);
    case CreateWorkflow(plan) => CreateSafe(env, e, plan);
    case ScheduleReport(plan, schedule) => ScheduleSafe(env, e, plan, schedule);
    case DeliverReport(plan) => DeliverRequestSafe(env, e, plan);
    case Approve(wid) => ApproveRequestSafe(env, e, wid);
    case PauseSchedule(wid) => PauseSafe(env, e, wid);
    case ResumeSchedule(wid) => ResumeSafe(env, e, wid);
    case StartScheduler => StartSafe(env, e);
    case StopScheduler => StopSafe(env, e);
  }

  lemma {:induction false} HistorySafe(env: Env, history: seq<Request>)
    requires forall r | r in history :: WellFormed(r)
    ensures Safe(GateOf(env), Replay(env, history))
  {
    if history != [] {
      HistorySafe(env, history[..|history|-1]);
      ServeSafe(env, Replay(env, history[..|history|-1]), history[|history|-1]);
    }
  }
}
