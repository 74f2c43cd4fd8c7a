/** What every request does, stated over the tables: which rows it adds or changes, which runs it starts, and that it
    leaves everything else alone. */
module Requests {
  import opened Wrappers
  import opened Conditions
  import opened Feasibility
  import opened Store
  import opened Execution
  import opened Executor
  import opened Calendar
  import opened Transcripts
  import opened Engine
  import Histories

  // ------------------------------------------------------------ one run

  predicate CanRun(row: WorkflowRow) { row.state == READY || row.state == FEASIBLE || row.state == COMPLETED || row.state == FAILED }

  /** The workflow's stored plan was run once: the row went by way of READY and RUNNING to the end, one finished run was
      added last, with the rows of the plan's transcript, and nothing else changed. */
  ghost predicate RanOnce(env: Env, db: Db, db': Db, wid: nat, payload: Trigger, key: Option<string>) {
    wid < |db.workflows| && db.workflows[wid].plan.Some? &&
    var row := db.workflows[wid];
    exists rows :: Transcript(RuleOf(WorldAt(env, |db.runs|), payload), SortSteps(row.plan.value.steps), rows) &&
                   RunRecorded(db, db', wid, key, rows)
  }

  ghost predicate RunRecorded(db: Db, db': Db, wid: nat, key: Option<string>, rows: seq<StepRow>)
    requires wid < |db.workflows|
  {
    var row, end := db.workflows[wid], if FailureIn(rows).Some? then FAILED else COMPLETED;
    var armed := if row.state == READY then [] else [READY];
    db'.workflows == db.workflows[wid := row.(state := end, trail := row.trail + armed + [RUNNING, end])] &&
    db'.runs == db.runs + [RunRow(wid, key, end, true)] && StepsAdded(db.steps, db'.steps, |db.runs|, rows)
  }

  lemma ArmsAndRuns(env: Env, db: Db, wid: nat, payload: Trigger, key: Option<string>)
    requires wid < |db.workflows| && db.workflows[wid].plan.Some? && !TakenKey(db, wid, key)
    ensures var db' := ArmAndRun(env, db, wid, payload, key);
            if CanRun(db.workflows[wid]) then RanOnce(env, db, db', wid, payload, key) else db' == db
  {
    var plan, w := db.workflows[wid].plan.value, WorldAt(env, |db.runs|);
    TakenKeyIs(db, wid, key);
    Histories.ArmAndRunIs(env, db, wid, payload, key);
    if CanRun(db.workflows[wid]) {
      var st := RunPlan(w, payload, plan.steps);
      RunIsTranscript(w, payload, SortSteps(plan.steps));
      RecordedAdds(db.steps, |db.runs|, st.rows);
      RanIsRecorded(db, wid, key, st);
    }
  }

  lemma RanIsRecorded(db: Db, wid: nat, key: Option<string>, st: RunState)
    requires wid < |db.workflows| && st.failed == FailureIn(st.rows)
    requires StepsAdded(db.steps, Recorded(db.steps, |db.runs|, st.rows), |db.runs|, st.rows)
    ensures RunRecorded(db, Histories.AfterRun(db, wid, EndState(st), key, Recorded(db.steps, |db.runs|, st.rows)), wid, key, st.rows)
  {
    var row, end := db.workflows[wid], EndState(st);
    var armed := if row.state == READY then [] else [READY];
    assert Histories.Ran(row, end).trail == row.trail + armed + [RUNNING, end];
  }

  // ------------------------------------------------------------ events

  /** The workflows an event runs: triggered by its kind, idle, and with a stored plan that has steps. */
  predicate Triggered(db: Db, kind: string, w: nat) {
    w < |db.workflows| && db.workflows[w].trigger == Some(kind) &&
    (db.workflows[w].state == READY || db.workflows[w].state == COMPLETED) &&
    db.workflows[w].plan.Some? && db.workflows[w].plan.value.steps != []
  }

  /** All triggered workflows below `n`, each once, in table order. */
  ghost predicate Lists(db: Db, kind: string, n: nat, ids: seq<nat>) {
    (forall i, j | 0 <= i < j < |ids| :: ids[i] < ids[j]) && forall w: nat :: w in ids <==> w < n && Triggered(db, kind, w)
  }

  /** Whether a workflow's run leads from one database to another. */
  type Turn = (Db, nat, Db) -> bool

  ghost function TurnOf(env: Env, payload: Trigger): Turn {
    (db: Db, w: nat, db': Db) => RanOnce(env, db, db', w, payload, None)
  }

  /** Through these databases, one run after another. */
  ghost predicate InTurn(turn: Turn, dbs: seq<Db>, ids: seq<nat>) {
    |dbs| == |ids| + 1 && forall i | 0 <= i < |ids| :: turn(dbs[i], ids[i], dbs[i+1])
  }

  /** Only the listed rows change. */
  ghost predicate OthersKept(db: Db, db': Db, ids: seq<nat>) {
    |db'.workflows| == |db.workflows| && forall w: nat | w < |db.workflows| && w !in ids :: db'.workflows[w] == db.workflows[w]
  }

  ghost predicate Tidy(turn: Turn) { forall db, w: nat, db' :: turn(db, w, db') ==> OthersKept(db, db', [w]) }

  lemma RunsAreTidy(env: Env, payload: Trigger)
    ensures Tidy(TurnOf(env, payload))
  {
    forall db, w: nat, db' | TurnOf(env, payload)(db, w, db') ensures OthersKept(db, db', [w]) {
      assert RanOnce(env, db, db', w, payload, None);
    }
  }

  lemma KeepsOthers(db: Db, now: Db, after: Db, ids: seq<nat>, wid: nat)
    requires OthersKept(db, now, ids) && OthersKept(now, after, [wid])
    ensures OthersKept(db, after, ids + [wid])
  {
  }

  /** The listed workflows, in turn, from one database to the other. */
  ghost predicate EventRan(turn: Turn, db: Db, db': Db, kind: string, n: nat, ids: seq<nat>, dbs: seq<Db>) {
    Lists(db, kind, n, ids) && InTurn(turn, dbs, ids) && dbs[0] == db && dbs[|ids|] == db' && OthersKept(db, db', ids)
  }

  lemma ListsNext(db: Db, kind: string, n: nat, ids: seq<nat>)
    requires Lists(db, kind, n, ids)
    ensures Lists(db, kind, n + 1, if Triggered(db, kind, n) then ids + [n] else ids)
  {
    if Triggered(db, kind, n) {
      var more := ids + [n];
      assert forall w: nat :: w in more <==> w in ids || w == n;
      forall i | 0 <= i < |ids| ensures ids[i] < n { assert ids[i] in ids; }
    }
  }

  lemma InTurnNext(turn: Turn, dbs: seq<Db>, ids: seq<nat>, wid: nat, after: Db)
    requires InTurn(turn, dbs, ids) && turn(dbs[|ids|], wid, after)
    ensures InTurn(turn, dbs + [after], ids + [wid])
  {
    var more, longer := ids + [wid], dbs + [after];
    forall i | 0 <= i < |more| ensures turn(longer[i], more[i], longer[i+1]) {
      if i < |ids| { assert longer[i] == dbs[i] && longer[i+1] == dbs[i+1] && more[i] == ids[i]; }
    }
  }

  predicate Matches(row: WorkflowRow, kind: string) { row.trigger == Some(kind) && row.state in {READY, COMPLETED} }

  /** One row of the table: run if it is triggered, passed over otherwise. */
  lemma EventRow(env: Env, db: Db, now: Db, kind: string, payload: Trigger, n: nat)
    requires n < |db.workflows| == |now.workflows| && now.workflows[n] == db.workflows[n]
    ensures var row := db.workflows[n];
            var after := if Matches(row, kind) then ExecuteDb(env, now, n, payload) else now;
            if Triggered(db, kind, n) then RanOnce(env, now, after, n, payload, None) else after == now
  {
    if now.workflows[n].plan.Some? { ArmsAndRuns(env, now, n, payload, None); }
  }

  lemma EventRunsExtend(env: Env, db: Db, wids: seq<nat>, wid: nat, payload: Trigger)
    ensures EventRuns(env, db, wids + [wid], payload) == ExecuteDb(env, EventRuns(env, db, wids, payload), wid, payload)
  {
    assert (wids + [wid])[..|wids|] == wids;
  }

  /** The database after the matching workflows below `n`. */
  function EventUpTo(env: Env, db: Db, kind: string, payload: Trigger, n: nat): Db
    requires n <= |db.workflows|
  {
    EventRuns(env, db, Matching(db, kind, n), payload)
  }

  lemma EventOneMore(env: Env, db: Db, kind: string, payload: Trigger, n: nat)
    requires n < |db.workflows|
    ensures EventUpTo(env, db, kind, payload, n + 1) ==
            var now := EventUpTo(env, db, kind, payload, n);
            if Matches(db.workflows[n], kind) then ExecuteDb(env, now, n, payload) else now
  {
    var wids := Matching(db, kind, n);
    EventRunsExtend(env, db, wids, n, payload);
    assert wids + [] == wids;
  }

  lemma RunsOneMore(turn: Turn, db: Db, now: Db, after: Db, kind: string, n: nat, ids: seq<nat>, dbs: seq<Db>)
    requires Tidy(turn) && EventRan(turn, db, now, kind, n, ids, dbs)
    requires if Triggered(db, kind, n) then turn(now, n, after) else after == now
    ensures if Triggered(db, kind, n) then EventRan(turn, db, after, kind, n + 1, ids + [n], dbs + [after])
            else EventRan(turn, db, after, kind, n + 1, ids, dbs)
  {
    ListsNext(db, kind, n, ids);
    if Triggered(db, kind, n) {
      InTurnNext(turn, dbs, ids, n, after);
      KeepsOthers(db, now, after, ids, n);
    }
  }

  /** The databases after the first workflows, one workflow at a time. */
  type Stages = nat -> Db

  ghost predicate TurnAt(turn: Turn, db: Db, kind: string, stages: Stages, i: nat) {
    if Triggered(db, kind, i) then turn(stages(i), i, stages(i + 1)) else stages(i + 1) == stages(i)
  }

  predicate RowKept(db: Db, now: Db, i: nat) {
    i < |db.workflows| == |now.workflows| && now.workflows[i] == db.workflows[i]
  }

  /** Every workflow whose row is as it was takes its turn, or is passed over. */
  ghost predicate AllTurns(turn: Turn, db: Db, kind: string, stages: Stages) {
    stages(0) == db && forall i: nat | RowKept(db, stages(i), i) :: TurnAt(turn, db, kind, stages, i)
  }

  lemma {:induction false} RanUpTo(turn: Turn, db: Db, kind: string, stages: Stages, n: nat) returns (ids: seq<nat>, dbs: seq<Db>)
    requires Tidy(turn) && AllTurns(turn, db, kind, stages) && n <= |db.workflows|
    ensures EventRan(turn, db, stages(n), kind, n, ids, dbs)
  {
    if n == 0 {
      ids, dbs := [], [db];
    } else {
      ids, dbs := RanUpTo(turn, db, kind, stages, n - 1);
      assert n - 1 !in ids;
      assert RowKept(db, stages(n - 1), n - 1);
      assert TurnAt(turn, db, kind, stages, n - 1);
      RunsOneMore(turn, db, stages(n - 1), stages(n), kind, n - 1, ids, dbs);
      if Triggered(db, kind, n - 1) { ids, dbs := ids + [n - 1], dbs + [stages(n)]; }
    }
  }

  ghost function StagesOf(env: Env, db: Db, kind: string, payload: Trigger): Stages {
    (i: nat) => if i <= |db.workflows| then EventUpTo(env, db, kind, payload, i) else db
  }

  lemma EventNext(env: Env, db: Db, kind: string, payload: Trigger, n: nat, now: Db, after: Db)
    requires RowKept(db, now, n) && now == EventUpTo(env, db, kind, payload, n) && after == EventUpTo(env, db, kind, payload, n + 1)
    ensures if Triggered(db, kind, n) then RanOnce(env, now, after, n, payload, None) else after == now
  {
    EventOneMore(env, db, kind, payload, n);
    EventRow(env, db, now, kind, payload, n);
  }

  lemma StageIs(env: Env, db: Db, kind: string, payload: Trigger, i: nat)
    ensures i <= |db.workflows| ==> StagesOf(env, db, kind, payload)(i) == EventUpTo(env, db, kind, payload, i)
  {
  }

  lemma TurnFrom(turn: Turn, db: Db, kind: string, stages: Stages, n: nat, now: Db, after: Db)
    requires stages(n) == now && stages(n + 1) == after
    requires if Triggered(db, kind, n) then turn(now, n, after) else after == now
    ensures TurnAt(turn, db, kind, stages, n)
  {
  }

  lemma EventTurn(env: Env, db: Db, kind: string, payload: Trigger, n: nat)
    requires RowKept(db, StagesOf(env, db, kind, payload)(n), n)
    ensures TurnAt(TurnOf(env, payload), db, kind, StagesOf(env, db, kind, payload), n)
  {
    StageIs(env, db, kind, payload, n);
    StageIs(env, db, kind, payload, n + 1);
    var now, after := EventUpTo(env, db, kind, payload, n), EventUpTo(env, db, kind, payload, n + 1);
    EventNext(env, db, kind, payload, n, now, after);
    TurnFrom(TurnOf(env, payload), db, kind, StagesOf(env, db, kind, payload), n, now, after);
  }

  lemma EventTurns(env: Env, db: Db, kind: string, payload: Trigger)
    ensures AllTurns(TurnOf(env, payload), db, kind, StagesOf(env, db, kind, payload))
  {
    var stages := StagesOf(env, db, kind, payload);
    forall i: nat | RowKept(db, stages(i), i) ensures TurnAt(TurnOf(env, payload), db, kind, stages, i) {
      EventTurn(env, db, kind, payload, i);
    }
  }

  /** An event runs, in table order and once each, exactly the workflows that it triggers, and changes no other row. */
  lemma EventRunsTriggered(env: Env, e: Engine, kind: string, payload: Trigger) returns (ids: seq<nat>, dbs: seq<Db>)
    ensures var e' := Serve(env, e, Event(kind, payload));
            EventRan(TurnOf(env, payload), e.db, e'.db, kind, |e.db.workflows|, ids, dbs) && e'.jobs == e.jobs
  {
    RunsAreTidy(env, payload);
    EventTurns(env, e.db, kind, payload);
    ids, dbs := RanUpTo(TurnOf(env, payload), e.db, kind, StagesOf(env, e.db, kind, payload), |e.db.workflows|);
  }

  // ------------------------------------------------------------ what an event adds

  predicate EventRun(run: RunRow, w: nat) {
    run.workflow == w && run.key == None && run.finished && (run.status == COMPLETED || run.status == FAILED)
  }

  /** The runs after the first `n` of them: those before, and one finished run without a key for each workflow. */
  ghost predicate RunsAdded(db: Db, now: Db, ids: seq<nat>, n: nat) {
    |now.runs| == |db.runs| + n && n <= |ids| &&
    (forall i | 0 <= i < |db.runs| :: now.runs[i] == db.runs[i]) &&
    forall i | |db.runs| <= i < |now.runs| :: EventRun(now.runs[i], ids[i - |db.runs|])
  }

  lemma OneRunMore(db: Db, now: Db, after: Db, ids: seq<nat>, n: nat, run: RunRow)
    requires RunsAdded(db, now, ids, n) && n < |ids| && after.runs == now.runs + [run] && EventRun(run, ids[n])
    ensures RunsAdded(db, after, ids, n + 1)
  {
  }

  lemma RecordedAddsOne(db: Db, db': Db, wid: nat, key: Option<string>, rows: seq<StepRow>) returns (run: RunRow)
    requires wid < |db.workflows| && RunRecorded(db, db', wid, key, rows)
    ensures db'.runs == db.runs + [run] && run.workflow == wid && run.key == key && run.finished
    ensures run.status == COMPLETED || run.status == FAILED
  {
    run := RunRow(wid, key, if FailureIn(rows).Some? then FAILED else COMPLETED, true);
  }

  lemma RanAddsOne(env: Env, db: Db, db': Db, wid: nat, payload: Trigger) returns (run: RunRow)
    requires RanOnce(env, db, db', wid, payload, None)
    ensures db'.runs == db.runs + [run] && EventRun(run, wid)
  {
    var plan := db.workflows[wid].plan.value;
    var rows :| Transcript(RuleOf(WorldAt(env, |db.runs|), payload), SortSteps(plan.steps), rows) &&
                RunRecorded(db, db', wid, None, rows);
    run := RecordedAddsOne(db, db', wid, None, rows);
  }

  lemma RunsAddedNext(env: Env, db: Db, now: Db, after: Db, ids: seq<nat>, n: nat, payload: Trigger)
    requires RunsAdded(db, now, ids, n) && n < |ids| && TurnOf(env, payload)(now, ids[n], after)
    ensures RunsAdded(db, after, ids, n + 1)
  {
    var run := RanAddsOne(env, now, after, ids[n], payload);
    OneRunMore(db, now, after, ids, n, run);
  }

  lemma {:induction false} InTurnAdds(env: Env, dbs: seq<Db>, ids: seq<nat>, payload: Trigger, n: nat)
    requires InTurn(TurnOf(env, payload), dbs, ids) && n <= |ids|
    ensures RunsAdded(dbs[0], dbs[n], ids, n)
  {
    if n > 0 {
      InTurnAdds(env, dbs, ids, payload, n - 1);
      assert TurnOf(env, payload)(dbs[n-1], ids[n-1], dbs[n-1+1]);
      RunsAddedNext(env, dbs[0], dbs[n-1], dbs[n], ids, n - 1, payload);
    }
  }

  /** An event adds one finished run without a key for each workflow that it triggers, in table order, after all
      earlier runs; the rows of other workflows and the scheduler's jobs stay as they were. */
  lemma EventAddsRuns(env: Env, e: Engine, kind: string, payload: Trigger) returns (ids: seq<nat>)
    ensures var e' := Serve(env, e, Event(kind, payload));
            Lists(e.db, kind, |e.db.workflows|, ids) && RunsAdded(e.db, e'.db, ids, |ids|) && OthersKept(e.db, e'.db, ids) &&
            e'.jobs == e.jobs
  {
    var dbs;
    ids, dbs := EventRunsTriggered(env, e, kind, payload);
    InTurnAdds(env, dbs, ids, payload, |ids|);
  }

  // ------------------------------------------------------------ the other requests

  /** The row that creation leaves for a plan: rejected, waiting for approval, or ready. */
  predicate RowCreated(env: Env, plan: WorkflowPlan, row: WorkflowRow) {
    row.plan == Some(plan) && row.trigger == plan.trigger && !row.scheduled && row.schedule == None && !row.paused &&
    if !Accepted(plan, env.reg, env.pol) then row.state == REJECTED && row.trail == [SUBMITTED, PLANNED, REJECTED]
    else if exists s :: s in plan.steps && s.tool in env.reg && env.reg[s.tool].requiresApproval then
      row.state == AWAITING_APPROVAL && row.trail == [SUBMITTED, PLANNED, FEASIBLE, AWAITING_APPROVAL]
    else row.state == READY && row.trail == [SUBMITTED, PLANNED, FEASIBLE, READY]
  }

  /** The row of a report, which needs no approval. */
  function ReportWorkflow(plan: WorkflowPlan, schedule: Option<Schedule>): WorkflowRow {
    WorkflowRow(READY, Some(plan), None, schedule.Some?, schedule, false, [SUBMITTED, PLANNED, FEASIBLE, READY])
  }

  predicate Added(db: Db, db': Db, row: WorkflowRow) { db' == db.(workflows := db.workflows + [row]) }

  /** One row changed, and nothing else. */
  predicate Changed(db: Db, db': Db, w: nat, row: WorkflowRow) {
    w < |db.workflows| && db' == db.(workflows := db.workflows[w := row])
  }

  /** The job table with one job set, or none, for the workflow; a stopped scheduler has no table. */
  predicate JobSet(before: Option<map<nat, Schedule>>, after: Option<map<nat, Schedule>>, w: nat, job: Option<Schedule>) {
    match before
    case None => after == None
    case Some(jobs) => after == Some(if job.Some? then jobs[w := job.value] else jobs - {w})
  }

  predicate Wanted(row: WorkflowRow) { row.scheduled && row.state != REJECTED && !row.paused && row.schedule.Some? }

  /** After a start: the jobs there were, and one for every wanted schedule. */
  ghost predicate Started(db: Db, before: Option<map<nat, Schedule>>, after: Option<map<nat, Schedule>>) {
    after.Some? &&
    forall w: nat ::
      if w < |db.workflows| && Wanted(db.workflows[w]) then
        w in after.value && after.value[w] == db.workflows[w].schedule.value
      else if before.Some? && w in before.value then w in after.value && after.value[w] == before.value[w]
      else w !in after.value
  }

  /** What a fire hands to its run: the period up to it, and its own instant. */
  function PayloadOf(frequency: string, t: DateTime, window: (string, string)): Trigger {
    map["window_start" := Str(window.0), "window_end" := Str(window.1),
        "fired_at" := Str(IsoSeconds(t) + (if t.micro == 0 then "" else "." + Pad6(t.micro)) + "+00:00")]
  }

  /** The workflow is scheduled and unpaused, and its period is new. */
  ghost predicate Due(db: Db, w: nat, frequency: string, t: DateTime)
    requires Calendar.Valid(t)
  {
    w < |db.workflows| && db.workflows[w].scheduled && !db.workflows[w].paused && db.workflows[w].plan.Some? &&
    !TakenKey(db, w, Some(RunKey(frequency, t))) && ComputeWindow(frequency, t).Some?
  }

  /** The report's workflow was added and run once. */
  ghost predicate Delivered(env: Env, db: Db, db': Db, plan: WorkflowPlan) {
    exists added ::
      Added(db, added, ReportWorkflow(plan, None)) && RanOnce(env, added, db', |db.workflows|, map[], None)
  }

  ghost predicate Serves(env: Env, e: Engine, r: Request, e': Engine)
    requires WellFormed(r)
  {
    match r
    case CreateWorkflow(None) =>
      Added(e.db, e'.db, WorkflowRow(PLANNED, None, None, false, None, false, [SUBMITTED, PLANNED])) && e'.jobs == e.jobs
    case CreateWorkflow(Some(plan)) =>
      e'.jobs == e.jobs && exists row :: RowCreated(env, plan, row) && Added(e.db, e'.db, row)
    case Approve(w) =>
      if w < |e.db.workflows| && e.db.workflows[w].state == AWAITING_APPROVAL then
        e'.jobs == e.jobs && var row := e.db.workflows[w]; Changed(e.db, e'.db, w, row.(state := READY, trail := row.trail + [READY]))
      else e' == e
    case ExecuteNow(w, payload) =>
      if w < |e.db.workflows| && e.db.workflows[w].plan.Some? && e.db.workflows[w].plan.value.steps != [] &&
         CanRun(e.db.workflows[w])
      then e'.jobs == e.jobs && RanOnce(env, e.db, e'.db, w, payload, None)
      else e' == e
    case Event(kind, payload) =>
      e'.jobs == e.jobs &&
      exists ids, dbs :: EventRan(TurnOf(env, payload), e.db, e'.db, kind, |e.db.workflows|, ids, dbs)
    case ScheduleReport(plan, schedule) =>
      if !Accepted(plan, env.reg, env.pol) then e' == e
      else Added(e.db, e'.db, ReportWorkflow(plan, Some(schedule))) && JobSet(e.jobs, e'.jobs, |e.db.workflows|, Some(schedule))
    case DeliverReport(plan) =>
      if !Accepted(plan, env.reg, env.pol) then e' == e
      else e'.jobs == e.jobs && Delivered(env, e.db, e'.db, plan)
    case PauseSchedule(w) =>
      if w >= |e.db.workflows| then e' == e
      else Changed(e.db, e'.db, w, e.db.workflows[w].(paused := true)) && JobSet(e.jobs, e'.jobs, w, None)
    case ResumeSchedule(w) =>
      if w >= |e.db.workflows| || !e.db.workflows[w].scheduled then e' == e
      else
        Changed(e.db, e'.db, w, e.db.workflows[w].(paused := false)) &&
        if e.db.workflows[w].schedule.Some? then JobSet(e.jobs, e'.jobs, w, e.db.workflows[w].schedule) else e'.jobs == e.jobs
    case Fire(w, frequency, t) =>
      if Due(e.db, w, frequency, t) && CanRun(e.db.workflows[w]) then
        e'.jobs == e.jobs &&
        RanOnce(env, e.db, e'.db, w, PayloadOf(frequency, t, ComputeWindow(frequency, t).value), Some(RunKey(frequency, t)))
      else e' == e
    case StartScheduler => e'.db == e.db && Started(e.db, e.jobs, e'.jobs)
    case StopScheduler => e'.db == e.db && e'.jobs == None
  }

  lemma CreateServes(env: Env, e: Engine, plan: WorkflowPlan)
    ensures Serves(env, e, CreateWorkflow(Some(plan)), Serve(env, e, CreateWorkflow(Some(plan))))
  {
    ReportIffAccepted(plan, env.reg, env.pol);
    assert RowCreated(env, plan, CreatedRow(env, Some(plan)));
  }

  lemma ExecuteServes(env: Env, e: Engine, w: nat, payload: Trigger)
    ensures Serves(env, e, ExecuteNow(w, payload), Serve(env, e, ExecuteNow(w, payload)))
  {
    if w < |e.db.workflows| && e.db.workflows[w].plan.Some? { ArmsAndRuns(env, e.db, w, payload, None); }
  }

  lemma EventServes(env: Env, e: Engine, kind: string, payload: Trigger)
    ensures Serves(env, e, Event(kind, payload), Serve(env, e, Event(kind, payload)))
  {
    var ids, dbs := EventRunsTriggered(env, e, kind, payload);
  }

  lemma ScheduleServes(env: Env, e: Engine, plan: WorkflowPlan, schedule: Schedule)
    ensures Serves(env, e, ScheduleReport(plan, schedule), Serve(env, e, ScheduleReport(plan, schedule)))
  {
    ReportIffAccepted(plan, env.reg, env.pol);
  }

  lemma AcceptedIsDelivered(env: Env, db: Db, plan: WorkflowPlan)
    requires Accepted(plan, env.reg, env.pol)
    ensures Delivered(env, db, DeliverDb(env, db, plan), plan)
  {
    ReportIffAccepted(plan, env.reg, env.pol);
    var row := ReportWorkflow(plan, None);
    var added := db.(workflows := db.workflows + [row]);
    assert row == ReportRow(plan, None) && added.workflows[|db.workflows|] == row;
    ArmsAndRuns(env, added, |db.workflows|, map[], None);
    Histories.DeliverIsArmAndRun(env, db, plan);
  }

  lemma DeliverServes(env: Env, e: Engine, plan: WorkflowPlan)
    ensures Serves(env, e, DeliverReport(plan), Serve(env, e, DeliverReport(plan)))
  {
    ReportIffAccepted(plan, env.reg, env.pol);
    if Accepted(plan, env.reg, env.pol) { AcceptedIsDelivered(env, e.db, plan); }
  }

  lemma PauseServes(env: Env, e: Engine, w: nat)
    ensures Serves(env, e, PauseSchedule(w), Serve(env, e, PauseSchedule(w)))
  {
  }

  lemma ResumeServes(env: Env, e: Engine, w: nat)
    ensures Serves(env, e, ResumeSchedule(w), Serve(env, e, ResumeSchedule(w)))
  {
  }

  lemma FailureServes(env: Env, e: Engine)
    ensures Serves(env, e, CreateWorkflow(None), Serve(env, e, CreateWorkflow(None)))
  {
    assert [SUBMITTED] + [PLANNED] == [SUBMITTED, PLANNED];
  }

  lemma FireServes(env: Env, e: Engine, w: nat, frequency: string, t: DateTime)
    requires Calendar.Valid(t)
    ensures Serves(env, e, Fire(w, frequency, t), Serve(env, e, Fire(w, frequency, t)))
  {
    var key := Some(RunKey(frequency, t));
    TakenKeyIs(e.db, w, key);
    if Due(e.db, w, frequency, t) {
      ArmsAndRuns(env, e.db, w, PayloadOf(frequency, t, ComputeWindow(frequency, t).value), key);
    }
  }

  lemma StartServes(env: Env, e: Engine)
    ensures Serves(env, e, StartScheduler, Serve(env, e, StartScheduler))
  {
  }

  /** Every request does exactly what is said of it, on any engine. */
  lemma ServesExactly(env: Env, e: Engine, r: Request)
    requires WellFormed(r)
    ensures Serves(env, e, r, Serve(env, e, r))
  {
    match r
    case CreateWorkflow(answer) => if answer.Some? { CreateServes(env, e, answer.value); } else { FailureServes(env, e); }
    case Approve(_) =>
    case ExecuteNow(w, payload) => ExecuteServes(env, e, w, payload);
    case Event(kind, payload) => EventServes(env, e, kind, payload);
    case ScheduleReport(plan, schedule) => ScheduleServes(env, e, plan, schedule);
    case DeliverReport(plan) => DeliverServes(env, e, plan);
    case PauseSchedule(w) => PauseServes(env, e, w);
    case ResumeSchedule(w) => ResumeServes(env, e, w);
    case Fire(w, frequency, t) => FireServes(env, e, w, frequency, t);
    case StartScheduler => StartServes(env, e);
    case StopScheduler =>
  }
}
