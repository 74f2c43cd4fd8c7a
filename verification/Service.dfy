/** The scheduler and the API over the shared store, updating it in place. */
module Service {
  import opened Wrappers
  import opened Feasibility
  import opened Store
  import opened Execution
  import opened Executor
  import opened Calendar
  import opened Engine
  import Requests = Engine

  /** The eligible jobs among the first `n` workflows. */
  function EligibleUpTo(db: Db, n: nat): map<nat, Schedule>
    requires n <= |db.workflows|
  {
    map w: nat | w < n && Eligible(db.workflows[w]) :: db.workflows[w].schedule.value
  }

  lemma EligibleNext(db: Db, n: nat, jobs: map<nat, Schedule>)
    requires n < |db.workflows|
    ensures jobs + EligibleUpTo(db, n + 1) ==
            if Eligible(db.workflows[n]) then (jobs + EligibleUpTo(db, n))[n := db.workflows[n].schedule.value]
            else jobs + EligibleUpTo(db, n)
  {
    if Eligible(db.workflows[n]) {
      assert EligibleUpTo(db, n + 1) == EligibleUpTo(db, n)[n := db.workflows[n].schedule.value];
    } else {
      assert EligibleUpTo(db, n + 1) == EligibleUpTo(db, n);
    }
  }

  /** A run of a READY workflow under a free key is not refused. */
  lemma ReadyRunEnds(w: World, db: Db, wid: nat, plan: WorkflowPlan, payload: Trigger, key: Option<string>)
    requires wid < |db.workflows| && db.workflows[wid].state == READY && !KeyTaken(db, wid, key)
    ensures ExecuteSpec(w, db, wid, plan, payload, key).1.Ok?
  {
  }

  /** The writes of a report endpoint, one after another, amount to the row it adds. */
  lemma ReportRowWrites(plan: WorkflowPlan, schedule: Option<Schedule>)
    ensures var planned := Enter(NEW_WORKFLOW, PLANNED).(plan := Some(plan));
            Enter(Enter(planned.(scheduled := schedule.Some?, schedule := schedule), FEASIBLE), READY) ==
            ReportRow(plan, schedule)
  {
    assert [SUBMITTED] + [PLANNED] + [FEASIBLE] + [READY] == CreationTrail(READY);
  }

  /** The writes of POST /workflows, one after another, amount to the row it adds. */
  lemma CreatedRowWrites(env: Env, plan: WorkflowPlan)
    ensures var report := Report(plan, env.reg, env.pol);
            var planned := Enter(NEW_WORKFLOW, PLANNED).(plan := Some(plan)).(trigger := plan.trigger);
            CreatedRow(env, Some(plan)) ==
            if report.ok then Enter(Enter(planned, FEASIBLE), CreatedState(report)) else Enter(planned, REJECTED)
  {
    var s := CreatedState(Report(plan, env.reg, env.pol));
    assert [SUBMITTED] + [PLANNED] + [FEASIBLE] + [s] == [SUBMITTED, PLANNED, FEASIBLE, s];
    assert [SUBMITTED] + [PLANNED] + [s] == [SUBMITTED, PLANNED, s];
  }

  class SchedulerRuntime {
    const store: WorkflowStore
    const executor: Executor
    var jobs: Option<map<nat, Schedule>>

    constructor (store: WorkflowStore, executor: Executor)
      ensures this.store == store && this.executor == executor && jobs == None
    {
      this.store, this.executor, jobs := store, executor, None;
    }

    /** `_register`: replace or add the job, if the background scheduler runs. */
    method RegisterJob(wid: nat, schedule: Schedule)
      modifies this
      ensures jobs == Register(old(jobs), wid, schedule)
    {
      if jobs.Some? {
        jobs := Some(jobs.value[wid := schedule]);
      }
    }

    /** Restart recovery: register a job for each eligible stored workflow. */
    method Reload()
      modifies this
      ensures jobs == if old(jobs).None? then None else Some(old(jobs).value + EligibleJobs(store.View()))
    {
      ghost var db := store.View();
      assert old(jobs).Some? ==> old(jobs).value + EligibleUpTo(db, 0) == old(jobs).value;
      for w := 0 to |store.workflows|
        invariant store.View() == db
        invariant jobs == if old(jobs).None? then None else Some(old(jobs).value + EligibleUpTo(db, w))
      {
        if old(jobs).Some? { EligibleNext(db, w, old(jobs).value); }
        var row := store.workflows[w];
        if row.scheduled && row.state != REJECTED && !row.paused && row.schedule.Some? {
          RegisterJob(w, row.schedule.value);
        }
      }
    }

    method Start()
      modifies this
      ensures jobs == StartJobs(Engine(store.View(), old(jobs)))
    {
      if jobs.None? {
        jobs := Some(map[]);
      }
      Reload();
    }

    method Shutdown()
      modifies this
      ensures jobs == None
    {
      jobs := None;
    }

    method Pause(wid: nat)
      requires wid < |store.workflows|
      modifies this, store
      ensures store.View() == SetPausedDb(old(store.View()), wid, true)
      ensures jobs == Unregister(old(jobs), wid)
    {
      store.SetPaused(wid, true);
      if jobs.Some? && wid in jobs.value {
        jobs := Some(jobs.value - {wid});
      }
      assert old(jobs).Some? && wid !in old(jobs).value ==> old(jobs).value - {wid} == old(jobs).value;
    }

    /** `resume`; false when the stored schedule cannot be read, after the pause flag is already cleared. */
    method Resume(wid: nat) returns (ok: bool)
      requires wid < |store.workflows|
      modifies this, store
      ensures store.View() == SetPausedDb(old(store.View()), wid, false)
      ensures ok == old(store.workflows[wid]).schedule.Some?
      ensures jobs == if ok then Register(old(jobs), wid, old(store.workflows[wid]).schedule.value) else old(jobs)
    {
      store.SetPaused(wid, false);
      var schedule := store.workflows[wid].schedule;
      if schedule.None? {
        return false;
      }
      RegisterJob(wid, schedule.value);
      ok := true;
    }

    /** `arm_for_run`; false is its refusal. */
    method Arm(wid: nat) returns (ok: bool)
      requires wid < |store.workflows|
      modifies store
      ensures ok == Requests.Arm(old(store.View()), wid).Some?
      ensures store.View() == if ok then Requests.Arm(old(store.View()), wid).value else old(store.View())
    {
      var s := store.workflows[wid].state;
      if s == READY {
        return true;
      }
      if s == FEASIBLE || s == COMPLETED || s == FAILED {
        var r := store.DoTransition(wid, READY);
        return true;
      }
      ok := false;
    }

    /** `_fire`: idempotent per period; the duplicate that slips past the check is stopped by the index. */
    method FireJob(wid: nat, frequency: string, t: DateTime) returns (ran: bool)
      requires Valid(t) && executor.store == store
      modifies store
      ensures store.View() == FireDb(executor.env, old(store.View()), wid, frequency, t)
      ensures ran <==> Fires(old(store.View()), wid, frequency, t) && Requests.Arm(old(store.View()), wid).Some?
    {
      ran := false;
      if wid >= |store.workflows| {
        return;
      }
      var row := store.workflows[wid];
      if row.paused || !row.scheduled || row.plan.None? {
        return;
      }
      var key := RunKey(frequency, t);
      if exists i | 0 <= i < |store.runs| :: store.runs[i].workflow == wid && store.runs[i].key == Some(key) {
        return;
      }
      var window := ComputeWindow(frequency, t);
      if window.None? {
        return;
      }
      assert Fires(store.View(), wid, frequency, t);
      ran := ArmAndExecute(wid, FirePayload(window.value, t), Some(key));
    }

    /** The second half of `_fire`: arm, then run the stored plan. */
    method ArmAndExecute(wid: nat, payload: Trigger, key: Option<string>) returns (ran: bool)
      requires executor.store == store && wid < |store.workflows| && store.workflows[wid].plan.Some?
      requires !KeyTaken(store.View(), wid, key)
      modifies store
      ensures store.View() == ArmAndRun(executor.env, old(store.View()), wid, payload, key)
      ensures ran <==> Requests.Arm(old(store.View()), wid).Some?
    {
      var plan := store.workflows[wid].plan.value;
      var armed := Arm(wid);
      if !armed {
        return false;
      }
      ReadyRunEnds(WorldAt(executor.env, |store.runs|), store.View(), wid, plan, payload, key);
      var result := executor.Execute(wid, plan, payload, key);
      ran := result.Ok?;
    }
  }

  /** The endpoints. Each returns its HTTP status. */
  class WorkflowApi {
    const store: WorkflowStore
    const executor: Executor
    const scheduler: SchedulerRuntime

    constructor (store: WorkflowStore, executor: Executor, scheduler: SchedulerRuntime)
      requires executor.store == store && scheduler.store == store && scheduler.executor == executor
      ensures this.store == store && this.executor == executor && this.scheduler == scheduler && Wired()
    {
      this.store, this.executor, this.scheduler := store, executor, scheduler;
    }

    predicate Wired() { executor.store == store && scheduler.store == store && scheduler.executor == executor }

    function View(): Engine
      reads store, scheduler
    {
      Engine(store.View(), scheduler.jobs)
    }

    /** The opening moves of the three creating endpoints. */
    method NewPlanned(plan: WorkflowPlan) returns (wid: nat)
      modifies store
      ensures wid == |old(store.workflows)|
      ensures store.View() == old(store.View()).(workflows :=
                old(store.workflows) + [Enter(NEW_WORKFLOW, PLANNED).(plan := Some(plan))])
    {
      wid := store.CreateWorkflow();
      var r := store.DoTransition(wid, PLANNED);
      store.SetPlan(wid, plan);
    }

    /** From PLANNED through FEASIBLE to READY. */
    method MakeReady(wid: nat)
      requires wid < |store.workflows| && store.workflows[wid].state == PLANNED
      modifies store
      ensures store.View() == SetState(SetState(old(store.View()), wid, FEASIBLE), wid, READY)
    {
      var r := store.DoTransition(wid, FEASIBLE);
      r := store.DoTransition(wid, READY);
    }

    /** From PLANNED along the edges the feasibility report allows. */
    method Judge(wid: nat, report: FeasibilityReport)
      requires wid < |store.workflows| && store.workflows[wid].state == PLANNED
      modifies store
      ensures store.View() ==
              if report.ok then SetState(SetState(old(store.View()), wid, FEASIBLE), wid, CreatedState(report))
              else SetState(old(store.View()), wid, REJECTED)
    {
      var r;
      if report.ok {
        r := store.DoTransition(wid, FEASIBLE);
        r := store.DoTransition(wid, if report.requiresApproval then AWAITING_APPROVAL else READY);
      } else {
        r := store.DoTransition(wid, REJECTED);
      }
    }

    /** `answer.None?` is a planner that raises: the row is already there and stays PLANNED. */
    method CreateWorkflow(answer: Option<WorkflowPlan>) returns (status: int)
      requires Wired()
      modifies store
      ensures status == if answer.Some? then 200 else 500
      ensures store.View() == CreateDb(executor.env, old(store.View()), answer)
    {
      if answer.None? {
        var orphan := store.CreateWorkflow();
        var r := store.DoTransition(orphan, PLANNED);
        return 500;
      }
      var plan := answer.value;
      var wid := NewPlanned(plan);
      store.SetTrigger(wid, plan.trigger);
      var report := CheckPlan(plan, executor.env.reg, executor.env.pol);
      Judge(wid, report);
      CreatedRowWrites(executor.env, plan);
      assert store.workflows == old(store.workflows) + [CreatedRow(executor.env, answer)];
      status := 200;
    }

    method Approve(wid: nat) returns (status: int)
      requires Wired()
      modifies store
      ensures store.View() == ApproveDb(old(store.View()), wid)
      ensures status == if wid >= |old(store.workflows)| then 404
                        else if old(store.workflows)[wid].state != AWAITING_APPROVAL then 409 else 200
    {
      if wid >= |store.workflows| {
        return 404;
      }
      if store.workflows[wid].state != AWAITING_APPROVAL {
        return 409;
      }
      var r := store.DoTransition(wid, READY);
      status := 200;
    }

    method ExecuteNow(wid: nat, payload: Trigger) returns (status: int)
      requires Wired()
      modifies store
      ensures store.View() == ExecuteDb(executor.env, old(store.View()), wid, payload)
      ensures status == if wid >= |old(store.workflows)| then 404
                        else if !Executable(old(store.workflows)[wid]) then 400
                        else if Requests.Arm(old(store.View()), wid).None? then 409 else 200
    {
      if wid >= |store.workflows| {
        return 404;
      }
      var plan := store.workflows[wid].plan;
      if plan.None? || plan.value.steps == [] {
        return 400;
      }
      var armed := scheduler.Arm(wid);
      if !armed {
        return 409;
      }
      var result := executor.Execute(wid, plan.value, payload, None);
      status := 200;
    }

    /** The simulated webhook: the matching workflows are fetched first and then run one after another. */
    method FireEvent(kind: string, payload: Trigger) returns (matched: nat)
      requires Wired()
      modifies store
      ensures store.View() == EventRuns(executor.env, old(store.View()),
                                        Matching(old(store.View()), kind, |old(store.workflows)|), payload)
      ensures matched == |Matching(old(store.View()), kind, |old(store.workflows)|)|
    {
      ghost var db := store.View();
      var wids := Matching(store.View(), kind, |store.workflows|);
      matched := |wids|;
      for i := 0 to |wids|
        invariant store.View() == EventRuns(executor.env, db, wids[..i], payload)
      {
        assert wids[..i+1][..i] == wids[..i];
        var status := ExecuteNow(wids[i], payload);
      }
      assert wids[..|wids|] == wids;
    }

    method ScheduleReport(plan: WorkflowPlan, schedule: Schedule) returns (status: int)
      requires Wired()
      modifies store, scheduler
      ensures store.View() == ScheduleDb(executor.env, old(store.View()), plan, schedule)
      ensures scheduler.jobs == if status == 200 then Register(old(scheduler.jobs), |old(store.workflows)|, schedule)
                                else old(scheduler.jobs)
      ensures status == if Report(plan, executor.env.reg, executor.env.pol).ok then 200 else 422
    {
      var report := CheckPlan(plan, executor.env.reg, executor.env.pol);
      if !report.ok {
        return 422;
      }
      var wid := NewPlanned(plan);
      store.SetSchedule(wid, schedule);
      MakeReady(wid);
      ReportRowWrites(plan, Some(schedule));
      assert store.workflows == old(store.workflows) + [ReportRow(plan, Some(schedule))];
      scheduler.RegisterJob(wid, schedule);
      status := 200;
    }

    method DeliverReport(plan: WorkflowPlan) returns (status: int)
      requires Wired()
      modifies store
      ensures store.View() == DeliverDb(executor.env, old(store.View()), plan)
      ensures status == if Report(plan, executor.env.reg, executor.env.pol).ok then 200 else 422
    {
      var report := CheckPlan(plan, executor.env.reg, executor.env.pol);
      if !report.ok {
        return 422;
      }
      var wid := NewPlanned(plan);
      MakeReady(wid);
      ReportRowWrites(plan, None);
      assert store.workflows == old(store.workflows) + [ReportRow(plan, None)];
      var result := executor.Execute(wid, plan, map[], None);
      status := 200;
    }

    method Pause(wid: nat) returns (status: int)
      requires Wired()
      modifies store, scheduler
      ensures View() == Serve(executor.env, old(View()), PauseSchedule(wid))
      ensures status == if wid >= |old(store.workflows)| then 404 else 200
    {
      if wid >= |store.workflows| {
        return 404;
      }
      scheduler.Pause(wid);
      status := 200;
    }

    method Resume(wid: nat) returns (status: int)
      requires Wired()
      modifies store, scheduler
      ensures View() == Serve(executor.env, old(View()), ResumeSchedule(wid))
      ensures status == if wid >= |old(store.workflows)| then 404
                        else if !old(store.workflows)[wid].scheduled then 409
                        else if old(store.workflows)[wid].schedule.None? then 500 else 200
    {
      if wid >= |store.workflows| {
        return 404;
      }
      if !store.workflows[wid].scheduled {
        return 409;
      }
      var ok := scheduler.Resume(wid);
      status := if ok then 200 else 500;
    }
  }
}
