/** The executor over the store: one run of a plan, checkpointed step by step. */
module Executor {
  import opened Wrappers
  import opened Conditions
  import opened Feasibility
  import opened Store
  import opened Execution
  import Soundness

  datatype RunResult = RunResult(run: nat, status: WorkflowState, steps: seq<Outcome>, error: Option<RunError>)

  type StepTable = map<(nat, int), StepRow>

  /** The step table after the rows of a run were written one by one. */
  function Recorded(table: StepTable, run: nat, rows: seq<StepRow>): StepTable {
    if rows == [] then table
    else
      var last := rows[|rows|-1];
      Recorded(table, run, rows[..|rows|-1])[(run, last.outcome.number) := last]
  }

  function OutcomesOf(rows: seq<StepRow>): (r: seq<Outcome>)
    ensures |r| == |rows|
  {
    seq(|rows|, i requires 0 <= i < |rows| => rows[i].outcome)
  }

  /** `execute`: reserve the run, enter RUNNING, run the steps, record the end. */
  function ExecuteSpec(w: World, db: Db, wid: nat, plan: WorkflowPlan, trigger: Trigger, key: Option<string>)
    : (Db, Result<RunResult, StoreError>)
  {
    if KeyTaken(db, wid, key) then (db, Err(IntegrityError))
    else
      var reserved := InsertRun(db, wid, key);
      match Transition(reserved, wid, RUNNING)
      case Err(e) => (reserved, Err(e))
      case Ok(_) => Finished(w, db, wid, plan, trigger, key)
  }

  function EndState(st: RunState): WorkflowState { if st.failed.None? then COMPLETED else FAILED }

  function Finished(w: World, db: Db, wid: nat, plan: WorkflowPlan, trigger: Trigger, key: Option<string>)
    : (Db, Result<RunResult, StoreError>)
    requires wid < |db.workflows|
  {
    var st := RunPlan(w, trigger, plan.steps);
    var end := EndState(st);
    var db' := Db(db.workflows[wid := Enter(Enter(db.workflows[wid], RUNNING), end)],
                  db.runs + [RunRow(wid, key, end, true)],
                  Recorded(db.steps, |db.runs|, st.rows));
    (db', Ok(RunResult(|db.runs|, end, OutcomesOf(st.rows), st.failed)))
  }

  lemma {:induction false} FailedStays(eval: Evaluator, steps: seq<PlanStep>, i: nat)
    requires i <= |steps| && RunSteps(eval, steps[..i]).failed.Some?
    ensures RunSteps(eval, steps) == RunSteps(eval, steps[..i])
    decreases |steps|
  {
    if i == |steps| {
      assert steps[..i] == steps;
    } else {
      assert steps[..|steps|-1][..i] == steps[..i];
      FailedStays(eval, steps[..|steps|-1], i);
    }
  }

  /** Reserving, entering RUNNING, writing the rows and concluding amounts to the finished database. */
  lemma ConcludedIsFinished(w: World, db: Db, wid: nat, plan: WorkflowPlan, trigger: Trigger, key: Option<string>)
    requires wid < |db.workflows|
    ensures var st, run := RunPlan(w, trigger, plan.steps), |db.runs|;
            var entered := SetState(InsertRun(db, wid, key), wid, RUNNING);
            var written := entered.(steps := Recorded(db.steps, run, st.rows));
            SetState(FinishRun(written, run, EndState(st)), wid, EndState(st)) == Finished(w, db, wid, plan, trigger, key).0
  {
    var end := EndState(RunPlan(w, trigger, plan.steps));
    var started := db.runs + [RunRow(wid, key, RUNNING, false)];
    assert started[|db.runs| := started[|db.runs|].(status := end, finished := true)] == db.runs + [RunRow(wid, key, end, true)];
  }

  /** What one turn of the loop adds to the run. */
  lemma LoopTurn(eval: Evaluator, sorted: seq<PlanStep>, i: nat, v: Verdict, st: RunState)
    requires i < |sorted| && st == RunSteps(eval, sorted[..i]) && st.failed.None? && v == eval(st, sorted[i])
    ensures RunSteps(eval, sorted[..i+1]) == Apply(sorted[i], v, st)
  {
    assert sorted[..i+1] == sorted[..i] + [sorted[i]];
    Soundness.RunExtend(eval, sorted[..i], sorted[i]);
  }

  lemma RecordedExtend(table: StepTable, run: nat, rows: seq<StepRow>, row: StepRow)
    ensures Recorded(table, run, rows + [row]) == Recorded(table, run, rows)[(run, row.outcome.number) := row]
  {
    assert (rows + [row])[..|rows|] == rows;
  }

  /** The registry, the policy, and how each tool body behaves during each run. */
  datatype Env = Env(reg: Registry, pol: Policy, calls: nat -> ((nat, string, Args) -> Result<Value, string>))

  function WorldAt(env: Env, run: nat): World { World(env.reg, env.pol.floatOf, env.calls(run)) }

  class Executor {
    const store: WorkflowStore
    const env: Env

    constructor (store: WorkflowStore, env: Env)
      ensures this.store == store && this.env == env
    {
      this.store, this.env := store, env;
    }

    /** `_referenced_steps`. */
    method ReferencedSteps(s: PlanStep, floatOf: FloatReader) returns (refs: set<int>)
      ensures refs == Refs(s, floatOf)
    {
      refs := {};
      for i := 0 to |s.args|
        invariant refs == ArgRefs(s.args[..i])
      {
        assert s.args[..i+1][..i] == s.args[..i];
        if IsRef(s.args[i].value) {
          refs := refs + RefStep(s.args[i].value.s);
        }
      }
      assert s.args[..|s.args|] == s.args;
      var g := GuardOf(s, floatOf);
      if g.When? {
        refs := refs + RefStep(g.c.ref);
      }
    }

    /** One turn of the loop: decide the step, and checkpoint its row before anything else happens. */
    method RunStep(w: World, run: nat, s: PlanStep, trigger: Trigger, st: RunState) returns (v: Verdict)
      requires run < |store.runs|
      modifies store
      ensures v == EvaluatorOf(w, trigger)(st, s)
      ensures store.View() == Checkpoint(old(store.View()), run, RowOf(s, v))
    {
      var refs := ReferencedSteps(s, w.floatOf);
      v := Decide(w, s, trigger, st.results, st.skipped, st.calls, refs);
      store.CheckpointStep(run, RowOf(s, v));
    }

    method Decide(w: World, s: PlanStep, trigger: Trigger, results: Results, skipped: set<int>, calls: nat, refs: set<int>)
      returns (v: Verdict)
      requires refs == Refs(s, w.floatOf)
      ensures v == Evaluate(w, trigger, calls, s, results, skipped)
    {
      var blocked := refs * skipped;
      if blocked != {} {
        return Skips(DependsOnSkipped(blocked));
      }
      var passed := GuardPasses(GuardOf(s, w.floatOf), trigger, results, w.floatOf);
      if passed.Err? {
        return Fails(RunError(true, passed.error));
      }
      if !passed.value {
        return Skips(GuardFalse);
      }
      var resolved := ResolveArgs(s.args, trigger, results);
      if resolved.Err? {
        return Fails(RunError(false, resolved.error));
      }
      var result := Dispatch(w, calls, s.tool, resolved.value);
      if result.Err? {
        return Fails(RunError(false, result.error));
      }
      v := Succeeds(resolved.value, result.value);
    }

    method Execute(wid: nat, plan: WorkflowPlan, trigger: Trigger, key: Option<string>)
      returns (r: Result<RunResult, StoreError>)
      modifies store
      ensures (store.View(), r) == ExecuteSpec(WorldAt(env, |old(store.runs)|), old(store.View()), wid, plan, trigger, key)
    {
      ghost var db := store.View();
      var reserved := store.StartRun(wid, key);
      if reserved.Err? {
        return Err(reserved.error);
      }
      var run := reserved.value;
      var w := WorldAt(env, run);
      var entered := store.DoTransition(wid, RUNNING);
      if entered.Err? {
        return Err(entered.error);
      }
      var st := RunLoop(w, run, SortSteps(plan.steps), trigger);
      var end := EndState(st);
      Conclude(wid, run, end);
      ConcludedIsFinished(w, db, wid, plan, trigger, key);
      r := Ok(RunResult(run, end, OutcomesOf(st.rows), st.failed));
    }

    /** Close the run and leave RUNNING, by one of its two regular exits. */
    method Conclude(wid: nat, run: nat, end: WorkflowState)
      requires run < |store.runs| && wid < |store.workflows| && store.workflows[wid].state == RUNNING
      requires end == COMPLETED || end == FAILED
      modifies store
      ensures store.View() == SetState(FinishRun(old(store.View()), run, end), wid, end)
    {
      store.Finish(run, end);
      var done := store.DoTransition(wid, end);
    }

    /** One turn of the loop: step `i` joins the run, and its row the table. */
    method Turn(w: World, run: nat, sorted: seq<PlanStep>, i: nat, trigger: Trigger, st: RunState, ghost table: StepTable)
      returns (next: RunState)
      requires i < |sorted| && st == RunSteps(EvaluatorOf(w, trigger), sorted[..i]) && st.failed.None?
      requires run < |store.runs| && store.runs[run].status == RUNNING
      requires store.steps == Recorded(table, run, st.rows)
      modifies store
      ensures next == RunSteps(EvaluatorOf(w, trigger), sorted[..i+1])
      ensures store.workflows == old(store.workflows) && store.runs == old(store.runs)
      ensures store.steps == Recorded(table, run, next.rows)
    {
      var v := RunStep(w, run, sorted[i], trigger, st);
      next := Apply(sorted[i], v, st);
      LoopTurn(EvaluatorOf(w, trigger), sorted, i, v, st);
      RecordedExtend(table, run, st.rows, RowOf(sorted[i], v));
      assert store.runs == old(store.runs);
    }

    /** The loop over the sorted steps; it returns the results, skipped numbers and rows it accumulated. */
    method RunLoop(w: World, run: nat, sorted: seq<PlanStep>, trigger: Trigger) returns (out: RunState)
      requires run < |store.runs| && store.runs[run].status == RUNNING
      modifies store
      ensures out == RunSteps(EvaluatorOf(w, trigger), sorted)
      ensures store.workflows == old(store.workflows) && store.runs == old(store.runs)
      ensures store.steps == Recorded(old(store.steps), run, out.rows)
    {
      out := START;
      for i := 0 to |sorted|
        invariant out == RunSteps(EvaluatorOf(w, trigger), sorted[..i]) && out.failed.None?
        invariant store.workflows == old(store.workflows) && store.runs == old(store.runs)
        invariant store.steps == Recorded(old(store.steps), run, out.rows)
      {
        out := Turn(w, run, sorted, i, trigger, out, old(store.steps));
        if out.failed.Some? {
          FailedStays(EvaluatorOf(w, trigger), sorted, i + 1);
          return;
        }
      }
      assert sorted[..|sorted|] == sorted;
    }
  }

  // ------------------------------------------------------------ the rows on record are the outcomes

  lemma {:induction false} RowNumbers(eval: Evaluator, steps: seq<PlanStep>)
    ensures var rows := RunSteps(eval, steps).rows;
            |rows| <= |steps| && (RunSteps(eval, steps).failed.None? ==> |rows| == |steps|) &&
            forall i | 0 <= i < |rows| :: rows[i].outcome.number == steps[i].number
  {
    if steps != [] {
      RowNumbers(eval, steps[..|steps|-1]);
    }
  }

  /** No step row belongs to a run that does not exist yet. */
  ghost predicate StepsHaveRuns(db: Db) { forall k | k in db.steps :: k.0 < |db.runs| }

  ghost predicate DistinctRows(rows: seq<StepRow>) {
    forall i, j | 0 <= i < j < |rows| :: rows[i].outcome.number != rows[j].outcome.number
  }

  lemma {:induction false} RecordedRows(table: StepTable, run: nat, rows: seq<StepRow>, n: int)
    requires DistinctRows(rows) && (run, n) !in table
    ensures (run, n) in Recorded(table, run, rows) <==> exists i :: 0 <= i < |rows| && rows[i].outcome.number == n
    ensures forall i | 0 <= i < |rows| && rows[i].outcome.number == n ::
              (run, n) in Recorded(table, run, rows) && Recorded(table, run, rows)[(run, n)] == rows[i]
  {
    if rows != [] {
      RecordedRows(table, run, rows[..|rows|-1], n);
      assert rows[|rows|-1].outcome.number == n ==> exists i :: 0 <= i < |rows| && rows[i].outcome.number == n;
    }
  }

  lemma {:induction false} RecordedElsewhere(table: StepTable, run: nat, rows: seq<StepRow>, k: (nat, int))
    requires k.0 != run
    ensures k in Recorded(table, run, rows) <==> k in table
    ensures k in table ==> Recorded(table, run, rows)[k] == table[k]
  {
    if rows != [] {
      RecordedElsewhere(table, run, rows[..|rows|-1], k);
    }
  }

  /** The rows of earlier runs are untouched. */
  ghost predicate EarlierRowsKept(db: Db, db': Db) {
    forall k: (nat, int) | k.0 < |db.runs| ::
      (k in db'.steps <==> k in db.steps) && (k in db.steps ==> db'.steps[k] == db.steps[k])
  }

  /** The rows stored for the run are its outcomes, one for each, and nothing else. */
  ghost predicate RowsAreOutcomes(db: Db, run: nat, steps: seq<Outcome>) {
    (forall n :: (run, n) in db.steps <==> exists i :: 0 <= i < |steps| && steps[i].number == n) &&
    (forall i | 0 <= i < |steps| ::
       (run, steps[i].number) in db.steps && db.steps[(run, steps[i].number)].outcome == steps[i])
  }

  lemma RecordedAreOutcomes(db: Db, table: StepTable, run: nat, rows: seq<StepRow>)
    requires DistinctRows(rows) && db.steps == Recorded(table, run, rows)
    requires forall n :: (run, n) !in table
    ensures RowsAreOutcomes(db, run, OutcomesOf(rows))
  {
    var steps := OutcomesOf(rows);
    forall n ensures (run, n) in db.steps <==> exists i :: 0 <= i < |steps| && steps[i].number == n {
      RecordedRows(table, run, rows, n);
      assert forall i | 0 <= i < |rows| :: steps[i] == rows[i].outcome;
    }
    forall i | 0 <= i < |steps|
      ensures (run, steps[i].number) in db.steps && db.steps[(run, steps[i].number)].outcome == steps[i]
    {
      RecordedRows(table, run, rows, rows[i].outcome.number);
    }
  }

  /** With distinct step numbers, the rows stored for the new run are exactly its outcomes, one per step
      reached, and no other run's rows change. */
  lemma StoredRowsAreOutcomes(w: World, db: Db, wid: nat, plan: WorkflowPlan, trigger: Trigger, key: Option<string>)
    requires Soundness.DistinctNumbers(plan.steps) && StepsHaveRuns(db)
    ensures var (db', r) := ExecuteSpec(w, db, wid, plan, trigger, key);
            StepsHaveRuns(db') && EarlierRowsKept(db, db') &&
            (r.Ok? ==> RowsAreOutcomes(db', r.value.run, r.value.steps))
  {
    var (db', r) := ExecuteSpec(w, db, wid, plan, trigger, key);
    if r.Ok? {
      var run, rows := |db.runs|, RunPlan(w, trigger, plan.steps).rows;
      Soundness.DistinctPermuted(plan.steps, SortSteps(plan.steps));
      RowNumbers(EvaluatorOf(w, trigger), SortSteps(plan.steps));
      RecordedAreOutcomes(db', db.steps, run, rows);
      forall k: (nat, int) | k.0 != run
        ensures (k in db'.steps <==> k in db.steps) && (k in db.steps ==> db'.steps[k] == db.steps[k])
      {
        RecordedElsewhere(db.steps, run, rows, k);
      }
      forall k | k in db'.steps ensures k.0 < |db'.runs| {
        if k.0 != run { assert k in db.steps; }
      }
    }
  }
}
