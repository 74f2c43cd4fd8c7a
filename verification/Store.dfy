/** The workflow state machine and its SQLite tables. Row identifiers (`uuid4` in the
    program) are modelled as positions in creation order. */
module Store {
  import opened Wrappers
  import opened Conditions
  import opened Feasibility

  datatype WorkflowState =
    | SUBMITTED | PLANNED | FEASIBLE | REJECTED | AWAITING_APPROVAL
    | READY | RUNNING | COMPLETED | FAILED | PAUSED

  function AllowedTransitions(s: WorkflowState): set<WorkflowState> {
    match s
    case SUBMITTED => {PLANNED}
    case PLANNED => {FEASIBLE, REJECTED}
    case FEASIBLE => {AWAITING_APPROVAL, READY}
    case AWAITING_APPROVAL => {READY, REJECTED}
    case READY => {RUNNING}
    case RUNNING => {COMPLETED, FAILED, PAUSED}
    case PAUSED => {RUNNING, FAILED}
    case COMPLETED => {READY}
    case FAILED => {READY}
    case REJECTED => {}
  }

  predicate CanTransition(from: WorkflowState, to: WorkflowState) { to in AllowedTransitions(from) }

  /** The edges, one by one. */
  lemma EdgesAre(a: WorkflowState, b: WorkflowState)
    ensures CanTransition(a, b) <==>
            (a, b) in {(SUBMITTED, PLANNED), (PLANNED, FEASIBLE), (PLANNED, REJECTED), (FEASIBLE, AWAITING_APPROVAL),
                       (FEASIBLE, READY), (AWAITING_APPROVAL, READY), (AWAITING_APPROVAL, REJECTED), (READY, RUNNING),
                       (RUNNING, COMPLETED), (RUNNING, FAILED), (RUNNING, PAUSED), (PAUSED, RUNNING), (PAUSED, FAILED),
                       (COMPLETED, READY), (FAILED, READY)}
  {
  }

  /** Each state is one allowed edge away from the one before. */
  predicate IsPath(p: seq<WorkflowState>) {
    p != [] && forall i | 0 <= i < |p| - 1 :: CanTransition(p[i], p[i+1])
  }

  datatype StoreError = NoWorkflow | InvalidTransition(from: WorkflowState, to: WorkflowState) | IntegrityError

  /** Why a step failed; `inGuard` tells its `when` from its body. */
  datatype RunError = RunError(inGuard: bool, cause: Cause)
  datatype Cause =
    | UnresolvableRef(ref: string)
    | StepNotRun(ref: string)
    | FieldMissing(ref: string)
    | NotAddressable(ref: string)
    | GuardMalformed
    | Incomparable
    | UnknownToolCall(tool: string)
    | ArgsRejected
    | ToolRaised(message: string)

  datatype SkipReason = DependsOnSkipped(steps: set<int>) | GuardFalse
  datatype StepStatus = StepOk(result: Value) | StepError(error: RunError) | StepSkipped(reason: SkipReason)

  /** `StepOutcome` (without its latency). */
  datatype Outcome = Outcome(number: int, tool: string, status: StepStatus)

  /** A `step_results` row: the outcome plus the arguments recorded with it. */
  datatype StepRow = StepRow(args: Args, outcome: Outcome)

  /** A stored schedule: its frequency and the rest of its structure. */
  datatype Schedule = Schedule(frequency: string, cron: string)

  /** A `workflows` row; `schedule.None?` is a missing or unreadable `schedule_json`. `trail` is a history
      variable: every state ever written to the row, oldest first. Nothing reads it. */
  datatype WorkflowRow = WorkflowRow(state: WorkflowState, plan: Option<WorkflowPlan>, trigger: Option<string>,
                                     scheduled: bool, schedule: Option<Schedule>, paused: bool,
                                     trail: seq<WorkflowState>)

  /** Writing a state to a row. */
  function Enter(row: WorkflowRow, to: WorkflowState): WorkflowRow { row.(state := to, trail := row.trail + [to]) }

  datatype RunRow = RunRow(workflow: nat, key: Option<string>, status: WorkflowState, finished: bool)

  datatype Db = Db(workflows: seq<WorkflowRow>, runs: seq<RunRow>, steps: map<(nat, int), StepRow>)

  // ------------------------------------------------------------ table operations as functions

  const NEW_WORKFLOW := WorkflowRow(SUBMITTED, None, None, false, None, false, [SUBMITTED])

  predicate RunExists(db: Db, w: nat, key: string) {
    exists i | 0 <= i < |db.runs| :: db.runs[i].workflow == w && db.runs[i].key == Some(key)
  }

  /** The unique index on (workflow_id, scheduled_run_key); SQL NULLs never collide. */
  predicate KeyTaken(db: Db, w: nat, key: Option<string>) { key.Some? && RunExists(db, w, key.value) }

  function InsertRun(db: Db, w: nat, key: Option<string>): Db {
    db.(runs := db.runs + [RunRow(w, key, RUNNING, false)])
  }

  function SetState(db: Db, w: nat, to: WorkflowState): Db
    requires w < |db.workflows|
  {
    db.(workflows := db.workflows[w := Enter(db.workflows[w], to)])
  }

  function Transition(db: Db, w: nat, to: WorkflowState): Result<Db, StoreError> {
    if w >= |db.workflows| then Err(NoWorkflow)
    else if !CanTransition(db.workflows[w].state, to) then Err(InvalidTransition(db.workflows[w].state, to))
    else Ok(SetState(db, w, to))
  }

  /** INSERT OR REPLACE of one step row, and the touch of its run. */
  function Checkpoint(db: Db, run: nat, row: StepRow): Db
    requires run < |db.runs|
  {
    db.(steps := db.steps[(run, row.outcome.number) := row],
        runs := db.runs[run := db.runs[run].(status := RUNNING)])
  }

  function FinishRun(db: Db, run: nat, status: WorkflowState): Db
    requires run < |db.runs|
  {
    db.(runs := db.runs[run := db.runs[run].(status := status, finished := true)])
  }

  /** Every table update leaves at most one run per (workflow, key). */
  ghost predicate KeysUnique(db: Db) {
    forall i, j | 0 <= i < j < |db.runs| ::
      db.runs[i].workflow == db.runs[j].workflow && db.runs[i].key.Some? ==> db.runs[i].key != db.runs[j].key
  }

  /** `WorkflowStore`: the tables, written in place. */
  class WorkflowStore {
    var workflows: seq<WorkflowRow>
    var runs: seq<RunRow>
    var steps: map<(nat, int), StepRow>

    function View(): Db
      reads this
    {
      Db(workflows, runs, steps)
    }

    constructor ()
      ensures View() == Db([], [], map[])
    {
      workflows, runs, steps := [], [], map[];
    }

    method CreateWorkflow() returns (w: nat)
      modifies this
      ensures w == old(|workflows|)
      ensures View() == old(View()).(workflows := old(workflows) + [NEW_WORKFLOW])
    {
      w := |workflows|;
      workflows := workflows + [NEW_WORKFLOW];
    }

    method SetPlan(w: nat, plan: WorkflowPlan)
      requires w < |workflows|
      modifies this`workflows
      ensures workflows == old(workflows)[w := old(workflows)[w].(plan := Some(plan))]
    {
      workflows := workflows[w := workflows[w].(plan := Some(plan))];
    }

    method SetTrigger(w: nat, trigger: Option<string>)
      requires w < |workflows|
      modifies this`workflows
      ensures workflows == old(workflows)[w := old(workflows)[w].(trigger := trigger)]
    {
      workflows := workflows[w := workflows[w].(trigger := trigger)];
    }

    method SetSchedule(w: nat, schedule: Schedule)
      requires w < |workflows|
      modifies this`workflows
      ensures workflows == old(workflows)[w := old(workflows)[w].(scheduled := true, schedule := Some(schedule))]
    {
      workflows := workflows[w := workflows[w].(scheduled := true, schedule := Some(schedule))];
    }

    method SetPaused(w: nat, paused: bool)
      requires w < |workflows|
      modifies this`workflows
      ensures workflows == old(workflows)[w := old(workflows)[w].(paused := paused)]
    {
      workflows := workflows[w := workflows[w].(paused := paused)];
    }

    /** `transition`: read the state, check the edge, and only then write. */
    method DoTransition(w: nat, to: WorkflowState) returns (r: Result<(), StoreError>)
      modifies this`workflows
      ensures match Transition(old(View()), w, to)
              case Ok(db) => r == Ok(()) && View() == db
              case Err(e) => r == Err(e) && View() == old(View())
    {
      if w >= |workflows| {
        return Err(NoWorkflow);
      }
      var from := workflows[w].state;
      if to !in AllowedTransitions(from) {
        return Err(InvalidTransition(from, to));
      }
      workflows := workflows[w := workflows[w].(state := to, trail := workflows[w].trail + [to])];
      r := Ok(());
    }

    /** `start_run`: the unique index rejects a second row for the same workflow and key. */
    method StartRun(w: nat, key: Option<string>) returns (r: Result<nat, StoreError>)
      modifies this`runs
      ensures KeyTaken(old(View()), w, key) ==> (r == Err(IntegrityError) && View() == old(View()))
      ensures !KeyTaken(old(View()), w, key) ==> (r == Ok(|old(runs)|) && View() == InsertRun(old(View()), w, key))
    {
      if key.Some? && exists i | 0 <= i < |runs| :: runs[i].workflow == w && runs[i].key == Some(key.value) {
        return Err(IntegrityError);
      }
      r := Ok(|runs|);
      runs := runs + [RunRow(w, key, RUNNING, false)];
    }

    method CheckpointStep(run: nat, row: StepRow)
      requires run < |runs|
      modifies this`runs, this`steps
      ensures View() == Checkpoint(old(View()), run, row)
    {
      steps := steps[(run, row.outcome.number) := row];
      runs := runs[run := runs[run].(status := RUNNING)];
    }

    method Finish(run: nat, status: WorkflowState)
      requires run < |runs|
      modifies this`runs
      ensures View() == FinishRun(old(View()), run, status)
    {
      runs := runs[run := runs[run].(status := status, finished := true)];
    }
  }
}
