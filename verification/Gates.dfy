/** Theorems over every history of requests, drawn from the invariant in module Histories. */
module Gates {
  import opened Wrappers
  import opened Feasibility
  import opened Store
  import opened Execution
  import opened Executor
  import opened Calendar
  import opened Engine
  import opened Histories

  ghost predicate Valid(history: seq<Request>) { forall r | r in history :: WellFormed(r) }

  // ------------------------------------------------------------ the feasibility gate

  /** Every run ever started belongs to a workflow whose stored plan the checker accepts. */
  lemma OnlyCheckedPlansRun(env: Env, history: seq<Request>, i: nat)
    requires Valid(history) && i < |Replay(env, history).db.runs|
    ensures var db := Replay(env, history).db;
            db.runs[i].workflow < |db.workflows| && db.workflows[db.runs[i].workflow].plan.Some? &&
            Accepted(db.workflows[db.runs[i].workflow].plan.value, env.reg, env.pol)
  {
    HistorySafe(env, history);
    var db := Replay(env, history).db;
    var row := db.workflows[db.runs[i].workflow];
    assert RowSafe(GateOf(env), row);
    ReportIffAccepted(row.plan.value, env.reg, env.pol);
  }

  // ------------------------------------------------------------ the approval gate

  function Last(history: seq<Request>): Request requires history != [] { history[|history|-1] }

  function Init(history: seq<Request>): seq<Request> requires history != [] { history[..|history|-1] }

  /** Workflows created by POST /workflows whose accepted plan uses a tool that requires approval. */
  ghost function GatedIds(env: Env, history: seq<Request>): set<nat>
    requires Valid(history)
  {
    if history == [] then {}
    else
      var r := Last(history);
      GatedIds(env, Init(history)) +
      if r.CreateWorkflow? && r.answer.Some? && Report(r.answer.value, env.reg, env.pol).ok &&
         Report(r.answer.value, env.reg, env.pol).requiresApproval
      then {|Replay(env, Init(history)).db.workflows|} else {}
  }

  predicate Awaits(db: Db, w: nat) { w < |db.workflows| && db.workflows[w].state == AWAITING_APPROVAL }

  /** Workflows whose approval was granted: the request found the row there, awaiting approval. */
  ghost function ApprovedIds(env: Env, history: seq<Request>): set<nat>
    requires Valid(history)
  {
    if history == [] then {}
    else
      var r := Last(history);
      ApprovedIds(env, Init(history)) +
      if r.Approve? && Awaits(Replay(env, Init(history)).db, r.wid) then {r.wid} else {}
  }

  ghost predicate Unapproved(db: Db, w: nat) {
    Awaits(db, w) && forall i | 0 <= i < |db.runs| :: db.runs[i].workflow != w
  }

  lemma RunLeavesUnapproved(env: Env, db: Db, wid: nat, payload: Trigger, key: Option<string>, w: nat)
    requires wid < |db.workflows| && db.workflows[wid].plan.Some? && !KeyTaken(db, wid, key) && Unapproved(db, w)
    ensures Unapproved(ArmAndRun(env, db, wid, payload, key), w)
  {
    ArmAndRunIs(env, db, wid, payload, key);
  }

  lemma ExecuteLeavesUnapproved(env: Env, db: Db, wid: nat, payload: Trigger, w: nat)
    requires Unapproved(db, w)
    ensures Unapproved(ExecuteDb(env, db, wid, payload), w)
  {
    if wid < |db.workflows| && Executable(db.workflows[wid]) { RunLeavesUnapproved(env, db, wid, payload, None, w); }
  }

  lemma {:induction false} EventLeavesUnapproved(env: Env, db: Db, wids: seq<nat>, payload: Trigger, w: nat)
    requires Unapproved(db, w)
    ensures Unapproved(EventRuns(env, db, wids, payload), w)
  {
    if wids != [] {
      EventLeavesUnapproved(env, db, wids[..|wids|-1], payload, w);
      ExecuteLeavesUnapproved(env, EventRuns(env, db, wids[..|wids|-1], payload), wids[|wids|-1], payload, w);
    }
  }

  lemma DeliverLeavesUnapproved(env: Env, db: Db, plan: WorkflowPlan, w: nat)
    requires Unapproved(db, w)
    ensures Unapproved(DeliverDb(env, db, plan), w)
  {
    if GateOf(env)(plan) {
      DeliverIsArmAndRun(env, db, plan);
      AppendLeavesUnapproved(db, ReportRow(plan, None), w);
      RunLeavesUnapproved(env, db.(workflows := db.workflows + [ReportRow(plan, None)]), |db.workflows|, map[], None, w);
    }
  }

  lemma AppendLeavesUnapproved(db: Db, row: WorkflowRow, w: nat)
    requires Unapproved(db, w)
    ensures Unapproved(db.(workflows := db.workflows + [row]), w)
  {
  }

  lemma ScheduleLeavesUnapproved(env: Env, db: Db, plan: WorkflowPlan, schedule: Schedule, w: nat)
    requires Unapproved(db, w)
    ensures Unapproved(ScheduleDb(env, db, plan, schedule), w)
  {
    AppendLeavesUnapproved(db, ReportRow(plan, Some(schedule)), w);
  }

  lemma ApproveLeavesUnapproved(db: Db, wid: nat, w: nat)
    requires Unapproved(db, w) && wid != w
    ensures Unapproved(ApproveDb(db, wid), w)
  {
  }

  lemma PauseLeavesUnapproved(db: Db, wid: nat, paused: bool, w: nat)
    requires Unapproved(db, w) && wid < |db.workflows|
    ensures Unapproved(SetPausedDb(db, wid, paused), w)
  {
  }

  lemma FireLeavesUnapproved(env: Env, db: Db, wid: nat, frequency: string, t: DateTime, w: nat)
    requires Unapproved(db, w) && Calendar.Valid(t)
    ensures Unapproved(FireDb(env, db, wid, frequency, t), w)
  {
    if Fires(db, wid, frequency, t) {
      RunLeavesUnapproved(env, db, wid, FirePayload(ComputeWindow(frequency, t).value, t), Some(RunKey(frequency, t)), w);
    }
  }

  /** No request but its own approval starts or moves a workflow that awaits approval. */
  lemma UnapprovedStays(env: Env, e: Engine, r: Request, w: nat)
    requires WellFormed(r) && Unapproved(e.db, w) && r != Approve(w)
    ensures Unapproved(Serve(env, e, r).db, w)
  {
    match r
    case ExecuteNow(wid, payload) => ExecuteLeavesUnapproved(env, e.db, wid, payload, w);
    case Event(kind, payload) => EventLeavesUnapproved(env, e.db, Matching(e.db, kind, |e.db.workflows|), payload, w);
    case DeliverReport(plan) => DeliverLeavesUnapproved(env, e.db, plan, w);
    case Fire(wid, frequency, t) => FireLeavesUnapproved(env, e.db, wid, frequency, t, w);
    case CreateWorkflow(answer) => AppendLeavesUnapproved(e.db, CreatedRow(env, answer), w);
    case ScheduleReport(plan, schedule) => ScheduleLeavesUnapproved(env, e.db, plan, schedule, w);
    case Approve(wid) => ApproveLeavesUnapproved(e.db, wid, w);
    case PauseSchedule(wid) => if wid < |e.db.workflows| { PauseLeavesUnapproved(e.db, wid, true, w); }
    case ResumeSchedule(wid) => if wid < |e.db.workflows| { PauseLeavesUnapproved(e.db, wid, false, w); }
    case StartScheduler =>
    case StopScheduler =>
  }

  lemma CreatedAwaits(env: Env, e: Engine, plan: WorkflowPlan)
    requires Safe(GateOf(env), e)
    requires Report(plan, env.reg, env.pol).ok && Report(plan, env.reg, env.pol).requiresApproval
    ensures Unapproved(Serve(env, e, CreateWorkflow(Some(plan))).db, |e.db.workflows|)
  {
  }

  lemma {:induction false} GatedOrApproved(env: Env, history: seq<Request>, w: nat)
    requires Valid(history) && w in GatedIds(env, history) && w !in ApprovedIds(env, history)
    ensures Unapproved(Replay(env, history).db, w)
  {
    var before, r := Init(history), Last(history);
    assert Valid(before) && history == before + [r];
    HistorySafe(env, before);
    assert r in history;
    if w in GatedIds(env, before) {
      GatedOrApproved(env, before, w);
      UnapprovedStays(env, Replay(env, before), r, w);
    } else {
      CreatedAwaits(env, Replay(env, before), r.answer.value);
    }
  }

  /** Approval gate: after any history, a workflow created through POST /workflows with a plan that requires
      approval has run only if an approve request for it was granted, while it awaited approval. */
  lemma ApprovalPrecedesRuns(env: Env, history: seq<Request>, i: nat)
    requires Valid(history) && i < |Replay(env, history).db.runs|
    requires Replay(env, history).db.runs[i].workflow in GatedIds(env, history)
    ensures Replay(env, history).db.runs[i].workflow in ApprovedIds(env, history)
  {
    var w := Replay(env, history).db.runs[i].workflow;
    if w !in ApprovedIds(env, history) {
      GatedOrApproved(env, history, w);
    }
  }

  // ------------------------------------------------------------ state histories

  /** A row's recorded states start at SUBMITTED, follow allowed edges, and end in its state. */
  predicate TrailSafe(row: WorkflowRow) {
    IsPath(row.trail) && row.trail[0] == SUBMITTED && row.trail[|row.trail|-1] == row.state
  }

  function RowOf(db: Db, w: nat): Option<WorkflowRow> {
    if w < |db.workflows| then Some(db.workflows[w]) else None
  }

  /** What one row may go through: it is added with a history of its own, or its history grows along edges. */
  predicate RowMoves(before: Option<WorkflowRow>, after: WorkflowRow) {
    if before.None? then TrailSafe(after)
    else before.value.trail <= after.trail && (TrailSafe(before.value) ==> TrailSafe(after))
  }

  ghost predicate Moves(db: Db, db': Db) {
    |db.workflows| <= |db'.workflows| && forall w | 0 <= w < |db'.workflows| :: RowMoves(RowOf(db, w), db'.workflows[w])
  }

  lemma RowMovesTransitive(a: Option<WorkflowRow>, b: WorkflowRow, c: WorkflowRow)
    requires RowMoves(a, b) && RowMoves(Some(b), c)
    ensures RowMoves(a, c)
  {
  }

  lemma MovesTransitive(a: Db, b: Db, c: Db)
    requires Moves(a, b) && Moves(b, c)
    ensures Moves(a, c)
  {
    forall w | 0 <= w < |c.workflows| ensures RowMoves(RowOf(a, w), c.workflows[w]) {
      assert RowMoves(RowOf(b, w), c.workflows[w]);
      if w < |b.workflows| {
        assert RowMoves(RowOf(a, w), b.workflows[w]);
        RowMovesTransitive(RowOf(a, w), b.workflows[w], c.workflows[w]);
      }
    }
  }

  lemma NothingMoves(db: Db)
    ensures Moves(db, db)
  {
  }

  lemma ReplaceMoves(db: Db, wid: nat, row: WorkflowRow)
    requires wid < |db.workflows| && RowMoves(Some(db.workflows[wid]), row)
    ensures Moves(db, db.(workflows := db.workflows[wid := row]))
  {
  }

  lemma AppendMoves(db: Db, row: WorkflowRow)
    requires TrailSafe(row)
    ensures Moves(db, db.(workflows := db.workflows + [row]))
  {
  }

  lemma EnterMoves(row: WorkflowRow, to: WorkflowState)
    requires CanTransition(row.state, to)
    ensures RowMoves(Some(row), Enter(row, to))
  {
  }

  lemma RanMoves(row: WorkflowRow, end: WorkflowState)
    requires Armable(row) && end in {COMPLETED, FAILED}
    ensures RowMoves(Some(row), Ran(row, end))
  {
    var armed := if row.state == READY then row else Enter(row, READY);
    if row.state != READY { EnterMoves(row, READY); }
    EnterMoves(armed, RUNNING);
    EnterMoves(Enter(armed, RUNNING), end);
    RowMovesTransitive(Some(row), armed, Enter(armed, RUNNING));
    RowMovesTransitive(Some(row), Enter(armed, RUNNING), Ran(row, end));
  }

  lemma RunMoves(env: Env, db: Db, wid: nat, payload: Trigger, key: Option<string>)
    requires wid < |db.workflows| && db.workflows[wid].plan.Some? && !KeyTaken(db, wid, key)
    ensures Moves(db, ArmAndRun(env, db, wid, payload, key))
  {
    ArmAndRunIs(env, db, wid, payload, key);
    var end := EndState(RunEnd(env, db, db.workflows[wid].plan.value, payload));
    NothingMoves(db);
    if Armable(db.workflows[wid]) {
      RanMoves(db.workflows[wid], end);
      ReplaceMoves(db, wid, Ran(db.workflows[wid], end));
    }
  }

  lemma ExecuteMoves(env: Env, db: Db, wid: nat, payload: Trigger)
    ensures Moves(db, ExecuteDb(env, db, wid, payload))
  {
    if wid < |db.workflows| && Executable(db.workflows[wid]) {
      RunMoves(env, db, wid, payload, None);
    } else {
      NothingMoves(db);
    }
  }

  lemma {:induction false} EventMoves(env: Env, db: Db, wids: seq<nat>, payload: Trigger)
    ensures Moves(db, EventRuns(env, db, wids, payload))
  {
    if wids == [] {
      NothingMoves(db);
    } else {
      var before := EventRuns(env, db, wids[..|wids|-1], payload);
      EventMoves(env, db, wids[..|wids|-1], payload);
      ExecuteMoves(env, before, wids[|wids|-1], payload);
      MovesTransitive(db, before, ExecuteDb(env, before, wids[|wids|-1], payload));
    }
  }

  lemma CreateMoves(env: Env, db: Db, answer: Option<WorkflowPlan>)
    ensures Moves(db, CreateDb(env, db, answer))
  {
    CreatedTrail(env, answer);
    AppendMoves(db, CreatedRow(env, answer));
  }

  lemma CreatedTrail(env: Env, answer: Option<WorkflowPlan>)
    ensures TrailSafe(CreatedRow(env, answer))
  {
  }

  lemma ReportTrail(plan: WorkflowPlan, schedule: Option<Schedule>)
    ensures TrailSafe(ReportRow(plan, schedule))
  {
  }

  lemma ScheduleMoves(env: Env, db: Db, plan: WorkflowPlan, schedule: Schedule)
    ensures Moves(db, ScheduleDb(env, db, plan, schedule))
  {
    ReportTrail(plan, Some(schedule));
    AppendMoves(db, ReportRow(plan, Some(schedule)));
    NothingMoves(db);
  }

  lemma DeliverMoves(env: Env, db: Db, plan: WorkflowPlan)
    ensures Moves(db, DeliverDb(env, db, plan))
  {
    if GateOf(env)(plan) {
      var added := db.(workflows := db.workflows + [ReportRow(plan, None)]);
      DeliverIsArmAndRun(env, db, plan);
      ReportTrail(plan, None);
      AppendMoves(db, ReportRow(plan, None));
      RunMoves(env, added, |db.workflows|, map[], None);
      MovesTransitive(db, added, DeliverDb(env, db, plan));
    } else {
      NothingMoves(db);
    }
  }

  lemma FireMoves(env: Env, db: Db, wid: nat, frequency: string, t: DateTime)
    requires Calendar.Valid(t)
    ensures Moves(db, FireDb(env, db, wid, frequency, t))
  {
    if Fires(db, wid, frequency, t) {
      RunMoves(env, db, wid, FirePayload(ComputeWindow(frequency, t).value, t), Some(RunKey(frequency, t)));
    } else {
      NothingMoves(db);
    }
  }

  lemma ApproveMoves(db: Db, wid: nat)
    ensures Moves(db, ApproveDb(db, wid))
  {
    NothingMoves(db);
    if Awaits(db, wid) {
      EnterMoves(db.workflows[wid], READY);
      ReplaceMoves(db, wid, Enter(db.workflows[wid], READY));
    }
  }

  lemma PauseMoves(db: Db, wid: nat, paused: bool)
    requires wid < |db.workflows|
    ensures Moves(db, SetPausedDb(db, wid, paused))
  {
    ReplaceMoves(db, wid, db.workflows[wid].(paused := paused));
  }

  /** One request: no recorded state is lost, and every state it writes is an allowed edge from the one before. */
  lemma ServeMoves(env: Env, e: Engine, r: Request)
    requires WellFormed(r)
    ensures Moves(e.db, Serve(env, e, r).db)
  {
    NothingMoves(e.db);
    match r
    case CreateWorkflow(answer) => CreateMoves(env, e.db, answer);
    case Approve(wid) => ApproveMoves(e.db, wid);
    case ExecuteNow(wid, payload) => ExecuteMoves(env, e.db, wid, payload);
    case Event(kind, payload) => EventMoves(env, e.db, Matching(e.db, kind, |e.db.workflows|), payload);
    case ScheduleReport(plan, schedule) => ScheduleMoves(env, e.db, plan, schedule);
    case DeliverReport(plan) => DeliverMoves(env, e.db, plan);
    case Fire(wid, frequency, t) => FireMoves(env, e.db, wid, frequency, t);
    case PauseSchedule(wid) => if wid < |e.db.workflows| { PauseMoves(e.db, wid, true); }
    case ResumeSchedule(wid) => if wid < |e.db.workflows| { PauseMoves(e.db, wid, false); }
    case StartScheduler =>
    case StopScheduler =>
  }

  lemma ReplayLast(env: Env, history: seq<Request>)
    requires Valid(history) && history != []
    ensures Valid(Init(history)) && WellFormed(Last(history))
    ensures Replay(env, history) == Serve(env, Replay(env, Init(history)), Last(history))
  {
    assert history == Init(history) + [Last(history)] && Last(history) in history;
  }

  lemma ServeTrail(env: Env, e: Engine, r: Request, w: nat)
    requires WellFormed(r) && w < |Serve(env, e, r).db.workflows|
    requires w < |e.db.workflows| ==> TrailSafe(e.db.workflows[w])
    ensures TrailSafe(Serve(env, e, r).db.workflows[w])
  {
    ServeMoves(env, e, r);
    TrailStep(e.db, Serve(env, e, r).db, w);
  }

  lemma {:induction false} TrailsAreSafe(env: Env, history: seq<Request>, w: nat)
    requires Valid(history) && w < |Replay(env, history).db.workflows|
    ensures TrailSafe(Replay(env, history).db.workflows[w])
  {
    ReplayLast(env, history);
    var before := Replay(env, Init(history));
    if w < |before.db.workflows| { TrailsAreSafe(env, Init(history), w); }
    ServeTrail(env, before, Last(history), w);
  }

  /** State histories are paths: after every history of requests, the states ever written to a workflow start at
      SUBMITTED, follow `ALLOWED_TRANSITIONS` edge by edge, and end in its state. */
  lemma StateHistoriesArePaths(env: Env, history: seq<Request>, w: nat)
    requires Valid(history) && w < |Replay(env, history).db.workflows|
    ensures var row := Replay(env, history).db.workflows[w];
            IsPath(row.trail) && row.trail[0] == SUBMITTED && row.trail[|row.trail|-1] == row.state
  {
    TrailsAreSafe(env, history, w);
  }

  lemma TrailStep(db: Db, db': Db, w: nat)
    requires Moves(db, db') && w < |db'.workflows| && (w < |db.workflows| ==> TrailSafe(db.workflows[w]))
    ensures TrailSafe(db'.workflows[w])
  {
    assert RowMoves(RowOf(db, w), db'.workflows[w]);
  }

  // ------------------------------------------------------------ the job table

  /** After every history, a running scheduler's jobs are exactly the store's eligible workflows
      with their stored schedules. */
  lemma JobsAgreeWithStore(env: Env, history: seq<Request>)
    requires Valid(history)
    ensures var e := Replay(env, history); e.jobs.Some? ==> e.jobs.value == EligibleJobs(e.db)
  {
    HistorySafe(env, history);
  }

  /** A restart at any point is unobservable in the job table, and so is a second start. */
  lemma RestartIsUnobservable(env: Env, history: seq<Request>)
    requires Valid(history) && Replay(env, history).jobs.Some?
    ensures var e := Replay(env, history);
            Serve(env, Serve(env, e, StopScheduler), StartScheduler) == e && Serve(env, e, StartScheduler) == e
  {
    JobsAgreeWithStore(env, history);
    RestartFrom(env, Replay(env, history));
  }

  lemma RestartFrom(env: Env, e: Engine)
    requires e.jobs.Some? && e.jobs.value == EligibleJobs(e.db)
    ensures Serve(env, Serve(env, e, StopScheduler), StartScheduler) == e && Serve(env, e, StartScheduler) == e
  {
    StartAgain(e, EligibleJobs(e.db));
    StartAgain(e.(jobs := None), EligibleJobs(e.db));
  }

  // ------------------------------------------------------------ scheduled workflows never wedge

  /** A scheduled workflow always rests in a state from which it can run again. */
  lemma ScheduledRests(env: Env, history: seq<Request>, w: nat)
    requires Valid(history) && w < |Replay(env, history).db.workflows| && Replay(env, history).db.workflows[w].scheduled
    ensures Replay(env, history).db.workflows[w].state in {READY, COMPLETED, FAILED}
  {
    HistorySafe(env, history);
    assert RowSafe(GateOf(env), Replay(env, history).db.workflows[w]);
  }

  /** A workflow's state, SUBMITTED for one that is not in the table yet. */
  function StateOf(db: Db, w: nat): WorkflowState {
    if w < |db.workflows| then db.workflows[w].state else SUBMITTED
  }

  lemma FireRunsOnce(env: Env, db: Db, w: nat, frequency: string, t: DateTime)
    requires Calendar.Valid(t) && Fires(db, w, frequency, t) && Armable(db.workflows[w])
    ensures var db' := FireDb(env, db, w, frequency, t);
            var end := StateOf(db', w);
            end in {COMPLETED, FAILED} && db'.runs == db.runs + [RunRow(w, Some(RunKey(frequency, t)), end, true)]
  {
    ArmAndRunIs(env, db, w, FirePayload(ComputeWindow(frequency, t).value, t), Some(RunKey(frequency, t)));
  }

  lemma FireAgainIsNothing(env: Env, db: Db, w: nat, frequency: string, t: DateTime)
    requires Calendar.Valid(t) && db.runs != []
    requires db.runs[|db.runs|-1].workflow == w && db.runs[|db.runs|-1].key == Some(RunKey(frequency, t))
    ensures FireDb(env, db, w, frequency, t) == db
  {
    assert RunExists(db, w, RunKey(frequency, t));
  }

  /** After any history, a fire of an unpaused scheduled workflow in a period it has not run in adds exactly
      one run, finished and stamped with that period; firing again in the same period changes nothing. */
  lemma FireYieldsOneRun(env: Env, history: seq<Request>, w: nat, frequency: string, t: DateTime, t': DateTime)
    requires Valid(history) && Calendar.Valid(t) && Calendar.Valid(t')
    requires w < |Replay(env, history).db.workflows|
    requires Replay(env, history).db.workflows[w].scheduled && !Replay(env, history).db.workflows[w].paused
    requires !RunExists(Replay(env, history).db, w, RunKey(frequency, t)) && ComputeWindow(frequency, t).Some?
    requires Bucket(frequency, t) == Bucket(frequency, t')
    ensures var db := Replay(env, history).db;
            var db' := FireDb(env, db, w, frequency, t);
            var end := StateOf(db', w);
            end in {COMPLETED, FAILED} &&
            db'.runs == db.runs + [RunRow(w, Some(RunKey(frequency, t)), end, true)] &&
            FireDb(env, db', w, frequency, t') == db'
  {
    HistorySafe(env, history);
    var db := Replay(env, history).db;
    assert RowSafe(GateOf(env), db.workflows[w]);
    FireRunsOnce(env, db, w, frequency, t);
    KeyIsBucket(frequency, t, t');
    FireAgainIsNothing(env, FireDb(env, db, w, frequency, t), w, frequency, t');
  }
}
