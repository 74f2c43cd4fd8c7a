/** The engine's requests as functions on its state: the API endpoints and the scheduler over the store.
    Each request is atomic here; module FiringProtocol takes the concurrent case. */
module Engine {
  import opened Wrappers
  import opened Conditions
  import opened Feasibility
  import opened Store
  import opened Execution
  import opened Executor
  import opened Calendar
  import opened Text

  /** The tables, and the running scheduler's job table (`None` while it is shut down). */
  datatype Engine = Engine(db: Db, jobs: Option<map<nat, Schedule>>)

  const EMPTY := Engine(Db([], [], map[]), None)

  datatype Request =
    | CreateWorkflow(answer: Option<WorkflowPlan>)              // whatever the planner answered, or its failure
    | Approve(wid: nat)
    | ExecuteNow(wid: nat, payload: Trigger)
    | Event(kind: string, payload: Trigger)
    | ScheduleReport(plan: WorkflowPlan, schedule: Schedule)
    | DeliverReport(plan: WorkflowPlan)
    | PauseSchedule(wid: nat)
    | ResumeSchedule(wid: nat)
    | Fire(wid: nat, frequency: string, at: DateTime)           // the scheduler thread
    | StartScheduler
    | StopScheduler

  // ------------------------------------------------------------ arming and running

  /** `_arm` and `arm_for_run`: READY stays, a finished or feasible workflow is re-armed, others are refused. */
  function Arm(db: Db, wid: nat): Option<Db>
    requires wid < |db.workflows|
  {
    var s := db.workflows[wid].state;
    if s == READY then Some(db)
    else if s in {FEASIBLE, COMPLETED, FAILED} then Some(SetState(db, wid, READY))
    else None
  }

  predicate Executable(row: WorkflowRow) { row.plan.Some? && row.plan.value.steps != [] }

  function Run(env: Env, db: Db, wid: nat, plan: WorkflowPlan, payload: Trigger, key: Option<string>): Db {
    ExecuteSpec(WorldAt(env, |db.runs|), db, wid, plan, payload, key).0
  }

  /** Arm the workflow and run its stored plan; nothing happens when it cannot be armed. */
  function ArmAndRun(env: Env, db: Db, wid: nat, payload: Trigger, key: Option<string>): Db
    requires wid < |db.workflows| && db.workflows[wid].plan.Some?
  {
    match Arm(db, wid)
    case None => db
    case Some(armed) => Run(env, armed, wid, db.workflows[wid].plan.value, payload, key)
  }

  // ------------------------------------------------------------ the API endpoints

  function CreatedState(report: FeasibilityReport): WorkflowState {
    if !report.ok then REJECTED else if report.requiresApproval then AWAITING_APPROVAL else READY
  }

  /** The states written to a row that creation takes from SUBMITTED to `s`. */
  function CreationTrail(s: WorkflowState): seq<WorkflowState> {
    if s == REJECTED then [SUBMITTED, PLANNED, s] else [SUBMITTED, PLANNED, FEASIBLE, s]
  }

  /** What POST /workflows adds; when the planner raises, the row stays PLANNED without a plan. */
  function CreatedRow(env: Env, plan: Option<WorkflowPlan>): WorkflowRow {
    match plan
    case None => Enter(NEW_WORKFLOW, PLANNED)
    case Some(p) =>
      var s := CreatedState(Report(p, env.reg, env.pol));
      WorkflowRow(s, plan, p.trigger, false, None, false, CreationTrail(s))
  }

  /** What the report endpoints add. */
  function ReportRow(plan: WorkflowPlan, schedule: Option<Schedule>): WorkflowRow {
    WorkflowRow(READY, Some(plan), None, schedule.Some?, schedule, false, CreationTrail(READY))
  }

  function CreateDb(env: Env, db: Db, plan: Option<WorkflowPlan>): Db {
    db.(workflows := db.workflows + [CreatedRow(env, plan)])
  }

  function ApproveDb(db: Db, wid: nat): Db {
    if wid < |db.workflows| && db.workflows[wid].state == AWAITING_APPROVAL then SetState(db, wid, READY) else db
  }

  function ExecuteDb(env: Env, db: Db, wid: nat, payload: Trigger): Db {
    if wid >= |db.workflows| || !Executable(db.workflows[wid]) then db
    else ArmAndRun(env, db, wid, payload, None)
  }

  /** `workflows_for_trigger`, in table order. */
  function Matching(db: Db, kind: string, n: nat): seq<nat>
    requires n <= |db.workflows|
  {
    if n == 0 then []
    else
      var row := db.workflows[n-1];
      Matching(db, kind, n - 1) + (if row.trigger == Some(kind) && row.state in {READY, COMPLETED} then [n-1] else [])
  }

  /** `fire_event`: the workflows matched beforehand, one after another. */
  function EventRuns(env: Env, db: Db, wids: seq<nat>, payload: Trigger): Db {
    if wids == [] then db
    else ExecuteDb(env, EventRuns(env, db, wids[..|wids|-1], payload), wids[|wids|-1], payload)
  }

  function ScheduleDb(env: Env, db: Db, plan: WorkflowPlan, schedule: Schedule): Db {
    if !Report(plan, env.reg, env.pol).ok then db
    else db.(workflows := db.workflows + [ReportRow(plan, Some(schedule))])
  }

  function DeliverDb(env: Env, db: Db, plan: WorkflowPlan): Db {
    if !Report(plan, env.reg, env.pol).ok then db
    else
      var wid := |db.workflows|;
      Run(env, db.(workflows := db.workflows + [ReportRow(plan, None)]), wid, plan, map[], None)
  }

  // ------------------------------------------------------------ the scheduler

  /** What `reload` registers. */
  predicate Eligible(row: WorkflowRow) {
    row.scheduled && row.state != REJECTED && !row.paused && row.schedule.Some?
  }

  function EligibleJobs(db: Db): map<nat, Schedule> {
    map w: nat | w < |db.workflows| && Eligible(db.workflows[w]) :: db.workflows[w].schedule.value
  }

  function Register(jobs: Option<map<nat, Schedule>>, wid: nat, schedule: Schedule): Option<map<nat, Schedule>> {
    if jobs.None? then None else Some(jobs.value[wid := schedule])
  }

  function Unregister(jobs: Option<map<nat, Schedule>>, wid: nat): Option<map<nat, Schedule>> {
    if jobs.None? then None else Some(jobs.value - {wid})
  }

  /** `start`: a scheduler that is already running keeps its jobs, then `reload` adds every eligible one. */
  function StartJobs(e: Engine): Option<map<nat, Schedule>> {
    Some((if e.jobs.None? then map[] else e.jobs.value) + EligibleJobs(e.db))
  }

  function SetPausedDb(db: Db, wid: nat, paused: bool): Db
    requires wid < |db.workflows|
  {
    db.(workflows := db.workflows[wid := db.workflows[wid].(paused := paused)])
  }

  function Pad6(n: nat): string {
    if n < 10 then "00000" + DecimalText(n) else if n < 100 then "0000" + DecimalText(n)
    else if n < 1000 then "000" + DecimalText(n) else if n < 10000 then "00" + DecimalText(n)
    else if n < 100000 then "0" + DecimalText(n) else DecimalText(n)
  }

  function FiredAt(t: DateTime): string {
    IsoSeconds(t) + (if t.micro == 0 then "" else "." + Pad6(t.micro)) + "+00:00"
  }

  function FirePayload(window: (string, string), t: DateTime): Trigger {
    map["window_start" := Str(window.0), "window_end" := Str(window.1), "fired_at" := Str(FiredAt(t))]
  }

  /** A fire does nothing unless the workflow is scheduled, unpaused and planned, and its period is new. */
  predicate Fires(db: Db, wid: nat, frequency: string, t: DateTime)
    requires Valid(t)
  {
    wid < |db.workflows| && !db.workflows[wid].paused && db.workflows[wid].scheduled && db.workflows[wid].plan.Some? &&
    !RunExists(db, wid, RunKey(frequency, t)) && ComputeWindow(frequency, t).Some?
  }

  function FireDb(env: Env, db: Db, wid: nat, frequency: string, t: DateTime): Db
    requires Valid(t)
  {
    if !Fires(db, wid, frequency, t) then db
    else ArmAndRun(env, db, wid, FirePayload(ComputeWindow(frequency, t).value, t), Some(RunKey(frequency, t)))
  }

  predicate WellFormed(r: Request) { r.Fire? ==> Valid(r.at) }

  /** One request, served to the end. */
  function Serve(env: Env, e: Engine, r: Request): Engine
    requires WellFormed(r)
  {
    match r
    case CreateWorkflow(answer) => e.(db := CreateDb(env, e.db, answer))
    case Approve(wid) => e.(db := ApproveDb(e.db, wid))
    case ExecuteNow(wid, payload) => e.(db := ExecuteDb(env, e.db, wid, payload))
    case Event(kind, payload) => e.(db := EventRuns(env, e.db, Matching(e.db, kind, |e.db.workflows|), payload))
    case ScheduleReport(plan, schedule) =>
      if !Report(plan, env.reg, env.pol).ok then e
      else Engine(ScheduleDb(env, e.db, plan, schedule), Register(e.jobs, |e.db.workflows|, schedule))
    case DeliverReport(plan) => e.(db := DeliverDb(env, e.db, plan))
    case PauseSchedule(wid) =>
      if wid >= |e.db.workflows| then e else Engine(SetPausedDb(e.db, wid, true), Unregister(e.jobs, wid))
    case ResumeSchedule(wid) =>
      if wid >= |e.db.workflows| || !e.db.workflows[wid].scheduled then e
      else
        var db, schedule := SetPausedDb(e.db, wid, false), e.db.workflows[wid].schedule;
        Engine(db, if schedule.None? then e.jobs else Register(e.jobs, wid, schedule.value))
    case Fire(wid, frequency, t) => e.(db := FireDb(env, e.db, wid, frequency, t))
    case StartScheduler => e.(jobs := StartJobs(e))
    case StopScheduler => e.(jobs := None)
  }

  /** The engine after a whole history of requests, from an empty database. */
  function Replay(env: Env, history: seq<Request>): Engine
    requires forall r | r in history :: WellFormed(r)
  {
    if history == [] then EMPTY
    else Serve(env, Replay(env, history[..|history|-1]), history[|history|-1])
  }
}
