/** Two theorems about whole runs: a plan the checker accepts cannot fail in the ways the
    checker rules out, and its run is the dataflow evaluation of its references. */
module Soundness {
  import opened Wrappers
  import opened Conditions
  import opened Feasibility
  import opened Store
  import opened Execution

  // ------------------------------------------------------------ ordered runs in general

  /** Each dependency of a listed step is a listed step with a smaller number. */
  ghost predicate Backward(deps: PlanStep -> set<int>, steps: seq<PlanStep>) {
    forall s | s in steps :: forall d | d in deps(s) :: d < s.number && d in StepNumbers(steps)
  }

  ghost predicate Settled(numbers: set<int>, st: RunState) { numbers <= st.results.Keys + st.skipped }

  /** In number order, the dependencies of a step stand at earlier positions. */
  lemma EarlierPositions(deps: PlanStep -> set<int>, sorted: seq<PlanStep>, i: nat)
    requires Ordered(sorted) && Backward(deps, sorted) && i < |sorted|
    ensures deps(sorted[i]) <= StepNumbers(sorted[..i])
  {
    forall d | d in deps(sorted[i]) ensures d in StepNumbers(sorted[..i]) {
      assert sorted[i] in sorted;
      var t :| t in sorted && t.number == d;
      var j :| 0 <= j < |sorted| && sorted[j] == t;
      assert j < i && sorted[j] in sorted[..i];
    }
  }

  /** Each step comes after the steps it depends on. */
  ghost predicate DepsFirst(deps: PlanStep -> set<int>, steps: seq<PlanStep>) {
    steps != [] ==>
      var before, s := steps[..|steps|-1], steps[|steps|-1];
      DepsFirst(deps, before) && deps(s) <= StepNumbers(before)
  }

  lemma {:induction false} SortedDepsFirst(deps: PlanStep -> set<int>, sorted: seq<PlanStep>, i: nat)
    requires Ordered(sorted) && Backward(deps, sorted) && i <= |sorted|
    ensures DepsFirst(deps, sorted[..i])
  {
    if i > 0 {
      SortedDepsFirst(deps, sorted, i - 1);
      EarlierPositions(deps, sorted, i - 1);
      assert sorted[..i][..i-1] == sorted[..i-1];
    }
  }

  lemma RunExtend(eval: Evaluator, before: seq<PlanStep>, s: PlanStep)
    ensures var st := RunSteps(eval, before);
            RunSteps(eval, before + [s]) == if st.failed.Some? then st else Apply(s, eval(st, s), st)
  {
    assert (before + [s])[..|before|] == before;
  }

  ghost predicate FailsTolerably(eval: Evaluator, deps: PlanStep -> set<int>, tolerable: (RunError, Results) -> bool, s: PlanStep) {
    forall st | Settled(deps(s), st) :: eval(st, s).Fails? ==> tolerable(eval(st, s).error, st.results)
  }

  /** If a step whose dependencies are settled can only fail tolerably, so can the run. */
  lemma {:induction false} SettledRun(eval: Evaluator, deps: PlanStep -> set<int>, tolerable: (RunError, Results) -> bool,
                                      steps: seq<PlanStep>)
    requires DepsFirst(deps, steps)
    requires forall s | s in steps :: FailsTolerably(eval, deps, tolerable, s)
    ensures var st := RunSteps(eval, steps);
            (st.failed.None? ==> Settled(StepNumbers(steps), st)) &&
            (st.failed.Some? ==> tolerable(st.failed.value, st.results))
  {
    if steps != [] {
      var before, s := steps[..|steps|-1], steps[|steps|-1];
      assert steps == before + [s];
      SettledRun(eval, deps, tolerable, before);
      RunExtend(eval, before, s);
      var st := RunSteps(eval, before);
      if st.failed.None? {
        assert Settled(deps(s), st) && FailsTolerably(eval, deps, tolerable, s);
        assert StepNumbers(steps) == StepNumbers(before) + {s.number};
      }
    }
  }

  /** The state holds, for each of these numbers, exactly what its meaning says. */
  ghost predicate Agrees(meaning: map<int, Verdict>, numbers: set<int>, st: RunState) {
    forall n | n in numbers ::
      n in meaning &&
      (n in st.results <==> meaning[n].Succeeds?) && (n in st.results ==> st.results[n] == meaning[n].result) &&
      (n in st.skipped <==> meaning[n].Skips?)
  }

  ghost predicate AgreesExactly(meaning: map<int, Verdict>, numbers: set<int>, st: RunState) {
    Agrees(meaning, numbers, st) && st.results.Keys + st.skipped <= numbers
  }

  /** The rows of `st` are the meanings of `steps`, in order, cut after the first failure. */
  ghost predicate Traces(meaning: map<int, Verdict>, steps: seq<PlanStep>, st: RunState) {
    var n := |st.rows|;
    n <= |steps| &&
    (forall i | 0 <= i < n :: steps[i].number in meaning && st.rows[i] == RowOf(steps[i], meaning[steps[i].number])) &&
    (forall i | 0 <= i < n - 1 :: !meaning[steps[i].number].Fails?) &&
    (st.failed.None? ==> n == |steps| && (n > 0 ==> !meaning[steps[n-1].number].Fails?)) &&
    (st.failed.Some? ==> n > 0 && meaning[steps[n-1].number] == Fails(st.failed.value))
  }

  predicate DistinctNumbers(steps: seq<PlanStep>) {
    forall i, j | 0 <= i < j < |steps| :: steps[i].number != steps[j].number
  }

  lemma TracesExtend(meaning: map<int, Verdict>, before: seq<PlanStep>, s: PlanStep, v: Verdict, st: RunState)
    requires st.failed.None? && Traces(meaning, before, st)
    requires s.number in meaning && v == meaning[s.number]
    ensures Traces(meaning, before + [s], Apply(s, v, st))
  {
  }

  lemma AgreesExtend(meaning: map<int, Verdict>, numbers: set<int>, s: PlanStep, v: Verdict, st: RunState)
    requires AgreesExactly(meaning, numbers, st) && s.number !in numbers
    requires s.number in meaning && v == meaning[s.number] && !v.Fails?
    ensures AgreesExactly(meaning, numbers + {s.number}, Apply(s, v, st))
  {
    assert s.number !in st.results.Keys + st.skipped;
  }

  ghost predicate FollowsMeaning(meaning: map<int, Verdict>, before: seq<PlanStep>, st: RunState) {
    Traces(meaning, before, st) && (st.failed.None? ==> AgreesExactly(meaning, StepNumbers(before), st))
  }

  lemma FollowsExtend(meaning: map<int, Verdict>, before: seq<PlanStep>, s: PlanStep, v: Verdict, st: RunState)
    requires st.failed.None? && FollowsMeaning(meaning, before, st)
    requires s.number !in StepNumbers(before) && s.number in meaning && v == meaning[s.number]
    ensures FollowsMeaning(meaning, before + [s], Apply(s, v, st))
  {
    TracesExtend(meaning, before, s, v, st);
    if !v.Fails? {
      AgreesExtend(meaning, StepNumbers(before), s, v, st);
      assert StepNumbers(before + [s]) == StepNumbers(before) + {s.number};
    }
  }

  lemma StoppedFollows(meaning: map<int, Verdict>, before: seq<PlanStep>, s: PlanStep, st: RunState)
    requires st.failed.Some? && FollowsMeaning(meaning, before, st)
    ensures FollowsMeaning(meaning, before + [s], st)
  {
  }

  ghost predicate EvaluatesToMeaning(eval: Evaluator, deps: PlanStep -> set<int>, meaning: map<int, Verdict>, s: PlanStep) {
    s.number in meaning && forall st | Agrees(meaning, deps(s), st) :: eval(st, s) == meaning[s.number]
  }

  lemma AgreeingStep(eval: Evaluator, deps: PlanStep -> set<int>, meaning: map<int, Verdict>,
                     before: seq<PlanStep>, s: PlanStep, st: RunState)
    requires deps(s) <= StepNumbers(before) && s.number !in StepNumbers(before)
    requires EvaluatesToMeaning(eval, deps, meaning, s)
    requires st.failed.None? && FollowsMeaning(meaning, before, st)
    ensures FollowsMeaning(meaning, before + [s], Apply(s, eval(st, s), st))
  {
    assert Agrees(meaning, deps(s), st);
    FollowsExtend(meaning, before, s, eval(st, s), st);
  }

  lemma AgreeingNext(eval: Evaluator, deps: PlanStep -> set<int>, meaning: map<int, Verdict>,
                     before: seq<PlanStep>, s: PlanStep)
    requires deps(s) <= StepNumbers(before) && s.number !in StepNumbers(before)
    requires EvaluatesToMeaning(eval, deps, meaning, s)
    requires FollowsMeaning(meaning, before, RunSteps(eval, before))
    ensures FollowsMeaning(meaning, before + [s], RunSteps(eval, before + [s]))
  {
    RunExtend(eval, before, s);
    var st := RunSteps(eval, before);
    if st.failed.None? {
      AgreeingStep(eval, deps, meaning, before, s, st);
    } else {
      StoppedFollows(meaning, before, s, st);
    }
  }

  lemma NumberIsNew(steps: seq<PlanStep>)
    requires DistinctNumbers(steps) && steps != []
    ensures steps[|steps|-1].number !in StepNumbers(steps[..|steps|-1])
  {
  }

  /** If a step whose dependencies agree with their meanings evaluates to its own, so does the run. */
  lemma {:induction false} AgreeingRun(eval: Evaluator, deps: PlanStep -> set<int>, meaning: map<int, Verdict>,
                                       steps: seq<PlanStep>)
    requires DepsFirst(deps, steps) && DistinctNumbers(steps)
    requires forall s | s in steps :: EvaluatesToMeaning(eval, deps, meaning, s)
    ensures FollowsMeaning(meaning, steps, RunSteps(eval, steps))
  {
    if steps != [] {
      AgreeingRun(eval, deps, meaning, steps[..|steps|-1]);
      NumberIsNew(steps);
      AgreeingNext(eval, deps, meaning, steps[..|steps|-1], steps[|steps|-1]);
      assert steps == steps[..|steps|-1] + [steps[|steps|-1]];
    }
  }

  // ------------------------------------------------------------ checker soundness

  lemma {:induction false} ArgRefsBackward(args: Args, fields: map<string, Annotation>, n: int, numbers: set<int>)
    requires ArgsOk(args, fields, n, numbers)
    ensures forall d | d in ArgRefs(args) :: 0 <= d < n && d in numbers
  {
    if args != [] {
      assert args[|args|-1] in args && forall b | b in args[..|args|-1] :: b in args;
      ArgRefsBackward(args[..|args|-1], fields, n, numbers);
    }
  }

  /** Every dependency of an accepted step is an earlier-numbered step of the plan. */
  lemma RefsBackward(s: PlanStep, numbers: set<int>, reg: Registry, pol: Policy)
    requires StepAccepted(s, numbers, reg, pol)
    ensures forall d | d in Refs(s, pol.floatOf) :: 0 <= d < s.number && d in numbers
  {
    ArgRefsBackward(s.args, reg[s.tool].fields, s.number, numbers);
  }

  function DepsOf(w: World): PlanStep -> set<int> { s => Refs(s, w.floatOf) }

  lemma SortedMembers(steps: seq<PlanStep>)
    ensures forall s :: s in SortSteps(steps) <==> s in steps
    ensures StepNumbers(SortSteps(steps)) == StepNumbers(steps)
  {
    assert forall s :: s in SortSteps(steps) <==> s in multiset(steps);
  }

  lemma AcceptedIsScheduled(plan: WorkflowPlan, w: World, pol: Policy)
    requires Accepted(plan, w.reg, pol) && pol.floatOf == w.floatOf
    ensures DepsFirst(DepsOf(w), SortSteps(plan.steps))
    ensures forall s | s in SortSteps(plan.steps) :: StepAccepted(s, StepNumbers(plan.steps), w.reg, pol)
  {
    AcceptedIsBackward(plan, w, pol);
    var sorted := SortSteps(plan.steps);
    SortedDepsFirst(DepsOf(w), sorted, |sorted|);
    assert sorted[..|sorted|] == sorted;
  }

  lemma AcceptedIsBackward(plan: WorkflowPlan, w: World, pol: Policy)
    requires Accepted(plan, w.reg, pol) && pol.floatOf == w.floatOf
    ensures Backward(DepsOf(w), SortSteps(plan.steps))
    ensures forall s | s in SortSteps(plan.steps) :: StepAccepted(s, StepNumbers(plan.steps), w.reg, pol)
  {
    SortedMembers(plan.steps);
    forall s | s in SortSteps(plan.steps)
      ensures forall d | d in DepsOf(w)(s) :: 0 <= d < s.number && d in StepNumbers(plan.steps)
    {
      RefsBackward(s, StepNumbers(plan.steps), w.reg, pol);
    }
  }

  /** Checker soundness. Whatever the tools do, in any list order and even with repeated step numbers,
      the run of an accepted plan stops only on a data failure, or on a reference to a step whose tool
      returned `None`. In particular no unknown tool, malformed reference or unreadable guard is met. */
  lemma CheckedPlanIsSound(plan: WorkflowPlan, w: World, pol: Policy, trigger: Trigger)
    requires Report(plan, w.reg, pol).ok && pol.floatOf == w.floatOf
    ensures var st := RunPlan(w, trigger, plan.steps);
            (st.failed.None? ==> Settled(StepNumbers(plan.steps), st)) &&
            (st.failed.Some? ==> TolerableCause(st.failed.value.cause, st.results))
  {
    ReportIffAccepted(plan, w.reg, pol);
    AcceptedIsScheduled(plan, w, pol);
    SortedMembers(plan.steps);
    var sorted, eval, deps := SortSteps(plan.steps), EvaluatorOf(w, trigger), DepsOf(w);
    var tolerable := (e: RunError, results: Results) => TolerableCause(e.cause, results);
    forall s | s in sorted ensures FailsTolerably(eval, deps, tolerable, s) {
      forall st: RunState | Settled(deps(s), st)
        ensures eval(st, s).Fails? ==> tolerable(eval(st, s).error, st.results)
      {
        EvaluateSound(w, pol, trigger, st.calls, s, StepNumbers(plan.steps), st.results, st.skipped);
      }
    }
    SettledRun(eval, deps, tolerable, sorted);
  }

  ghost predicate NeverNull(w: World) {
    forall k, tool, args :: w.call(k, tool, args) != Ok(Null)
  }

  ghost predicate HoldsNoNull(results: Results) { forall n | n in results :: results[n] != Null }

  lemma {:induction false} ResultsNotNull(eval: Evaluator, steps: seq<PlanStep>)
    requires forall st: RunState, s: PlanStep :: eval(st, s).Succeeds? ==> eval(st, s).result != Null
    ensures HoldsNoNull(RunSteps(eval, steps).results)
  {
    if steps != [] {
      ResultsNotNull(eval, steps[..|steps|-1]);
      var st, s := RunSteps(eval, steps[..|steps|-1]), steps[|steps|-1];
      if st.failed.None? {
        var v := eval(st, s);
        assert HoldsNoNull(Apply(s, v, st).results);
      }
    }
  }

  lemma EvaluateNotNull(w: World, trigger: Trigger, st: RunState, s: PlanStep)
    requires NeverNull(w)
    ensures var v := EvaluatorOf(w, trigger)(st, s); v.Succeeds? ==> v.result != Null
  {
    forall args ensures Dispatch(w, st.calls, s.tool, args) != Ok(Null) {
      assert w.call(st.calls, s.tool, args) != Ok(Null);
    }
  }

  /** With tools that never return `None`, an accepted plan fails only for reasons found in the data. */
  lemma CheckedPlanNeverMissesAStep(plan: WorkflowPlan, w: World, pol: Policy, trigger: Trigger)
    requires Report(plan, w.reg, pol).ok && pol.floatOf == w.floatOf && NeverNull(w)
    ensures var st := RunPlan(w, trigger, plan.steps);
            st.failed.Some? ==> DataFailure(st.failed.value.cause)
  {
    CheckedPlanIsSound(plan, w, pol, trigger);
    var eval := EvaluatorOf(w, trigger);
    forall st: RunState, s: PlanStep ensures eval(st, s).Succeeds? ==> eval(st, s).result != Null {
      EvaluateNotNull(w, trigger, st, s);
    }
    ResultsNotNull(eval, SortSteps(plan.steps));
  }

  // ------------------------------------------------------------ dataflow

  function StepNamed(steps: seq<PlanStep>, n: int): (s: PlanStep)
    requires n in StepNumbers(steps)
    ensures s in steps && s.number == n
  {
    if steps[0].number == n then steps[0]
    else
      assert steps == [steps[0]] + steps[1..];
      StepNamed(steps[1..], n)
  }

  /** The plan as a graph: each number names one step, and the list order is gone. */
  function GraphOf(steps: seq<PlanStep>): map<int, PlanStep> {
    map n | n in StepNumbers(steps) :: StepNamed(steps, n)
  }

  function ResultsOf(sub: map<int, Verdict>): Results {
    map d | d in sub && sub[d].Succeeds? :: sub[d].result
  }

  function SkippedOf(sub: map<int, Verdict>): set<int> { set d | d in sub && sub[d].Skips? }

  /** What a step means: evaluate the steps it refers to, then the step itself. No order, no state. */
  function Denote(w: World, trigger: Trigger, g: map<int, PlanStep>, n: int): Verdict
    requires n in g
    decreases if n < 0 then 0 else n + 1, 1
  {
    var sub := DenoteDeps(w, trigger, g, n);
    Evaluate(w, trigger, 0, g[n], ResultsOf(sub), SkippedOf(sub))
  }

  function DenoteDeps(w: World, trigger: Trigger, g: map<int, PlanStep>, n: int): map<int, Verdict>
    requires n in g
    decreases if n < 0 then 0 else n + 1, 0
  {
    map d | d in Refs(g[n], w.floatOf) && d in g && 0 <= d < n :: Denote(w, trigger, g, d)
  }

  function Meaning(w: World, trigger: Trigger, steps: seq<PlanStep>): map<int, Verdict> {
    map n | n in StepNumbers(steps) :: Denote(w, trigger, GraphOf(steps), n)
  }

  ghost predicate Deterministic(w: World) {
    forall k, tool, args :: w.call(k, tool, args) == w.call(0, tool, args)
  }

  lemma GraphAt(steps: seq<PlanStep>, s: PlanStep)
    requires DistinctNumbers(steps) && s in steps
    ensures s.number in GraphOf(steps) && GraphOf(steps)[s.number] == s
  {
    var t := GraphOf(steps)[s.number];
    var i :| 0 <= i < |steps| && steps[i] == s;
    var j :| 0 <= j < |steps| && steps[j] == t;
    assert i == j;
  }

  /** The dependencies' part of a run state is what the recursive evaluation hands to the step. */
  lemma AgreementIsLocal(deps: set<int>, sub: map<int, Verdict>, meaning: map<int, Verdict>, st: RunState)
    requires Agrees(meaning, deps, st)
    requires sub.Keys == deps && forall d | d in deps :: sub[d] == meaning[d]
    ensures SameOn(deps, st.results, ResultsOf(sub))
    ensures deps * st.skipped == deps * SkippedOf(sub)
  {
    forall n | n in deps ensures n in st.skipped <==> n in SkippedOf(sub) {
      assert n in sub;
    }
  }

  lemma MeaningUnfolds(w: World, trigger: Trigger, steps: seq<PlanStep>, s: PlanStep)
    requires DistinctNumbers(steps) && s in steps
    ensures s.number in GraphOf(steps)
    ensures var sub := DenoteDeps(w, trigger, GraphOf(steps), s.number);
            Meaning(w, trigger, steps)[s.number] == Evaluate(w, trigger, 0, s, ResultsOf(sub), SkippedOf(sub))
  {
    GraphAt(steps, s);
  }

  lemma DepsMeaning(w: World, trigger: Trigger, steps: seq<PlanStep>, s: PlanStep)
    requires DistinctNumbers(steps) && s in steps
    requires forall d | d in Refs(s, w.floatOf) :: 0 <= d < s.number && d in StepNumbers(steps)
    ensures s.number in GraphOf(steps)
    ensures var sub := DenoteDeps(w, trigger, GraphOf(steps), s.number);
            sub.Keys == Refs(s, w.floatOf) && forall d | d in sub :: sub[d] == Meaning(w, trigger, steps)[d]
  {
    GraphAt(steps, s);
    var g := GraphOf(steps);
    var sub := DenoteDeps(w, trigger, g, s.number);
    assert g[s.number] == s && g.Keys == StepNumbers(steps);
    forall d ensures d in sub <==> d in Refs(s, w.floatOf) {}
  }

  lemma EvaluationIsMeaning(w: World, trigger: Trigger, steps: seq<PlanStep>, s: PlanStep, st: RunState)
    requires Deterministic(w) && DistinctNumbers(steps) && s in steps
    requires forall d | d in Refs(s, w.floatOf) :: 0 <= d < s.number && d in StepNumbers(steps)
    requires Agrees(Meaning(w, trigger, steps), Refs(s, w.floatOf), st)
    ensures EvaluatorOf(w, trigger)(st, s) == Meaning(w, trigger, steps)[s.number]
  {
    DepsMeaning(w, trigger, steps, s);
    var sub := DenoteDeps(w, trigger, GraphOf(steps), s.number);
    AgreementIsLocal(Refs(s, w.floatOf), sub, Meaning(w, trigger, steps), st);
    MeaningUnfolds(w, trigger, steps, s);
    SameVerdict(w, trigger, s, st, ResultsOf(sub), SkippedOf(sub));
  }

  lemma SameVerdict(w: World, trigger: Trigger, s: PlanStep, st: RunState, results: Results, skipped: set<int>)
    requires Deterministic(w)
    requires SameOn(Refs(s, w.floatOf), st.results, results)
    requires Refs(s, w.floatOf) * st.skipped == Refs(s, w.floatOf) * skipped
    ensures EvaluatorOf(w, trigger)(st, s) == Evaluate(w, trigger, 0, s, results, skipped)
  {
    EvaluateLocal(w, trigger, st.calls, 0, s, st.results, results, st.skipped, skipped);
  }

  lemma AcceptedEvaluatesToMeaning(plan: WorkflowPlan, w: World, pol: Policy, trigger: Trigger, s: PlanStep, st: RunState)
    requires Accepted(plan, w.reg, pol) && pol.floatOf == w.floatOf && Deterministic(w) && DistinctNumbers(plan.steps)
    requires s in plan.steps && Agrees(Meaning(w, trigger, plan.steps), Refs(s, w.floatOf), st)
    ensures EvaluatorOf(w, trigger)(st, s) == Meaning(w, trigger, plan.steps)[s.number]
  {
    RefsBackward(s, StepNumbers(plan.steps), w.reg, pol);
    EvaluationIsMeaning(w, trigger, plan.steps, s, st);
  }

  lemma AllEvaluateToMeaning(plan: WorkflowPlan, w: World, pol: Policy, trigger: Trigger)
    requires Accepted(plan, w.reg, pol) && pol.floatOf == w.floatOf && Deterministic(w) && DistinctNumbers(plan.steps)
    ensures forall s | s in SortSteps(plan.steps) ::
              EvaluatesToMeaning(EvaluatorOf(w, trigger), DepsOf(w), Meaning(w, trigger, plan.steps), s)
  {
    SortedMembers(plan.steps);
    var meaning := Meaning(w, trigger, plan.steps);
    forall s | s in SortSteps(plan.steps)
      ensures EvaluatesToMeaning(EvaluatorOf(w, trigger), DepsOf(w), meaning, s)
    {
      forall st: RunState | Agrees(meaning, DepsOf(w)(s), st)
        ensures EvaluatorOf(w, trigger)(st, s) == meaning[s.number]
      {
        AcceptedEvaluatesToMeaning(plan, w, pol, trigger, s, st);
      }
    }
  }

  /** Dataflow refinement: with distinct numbers and deterministic, independent tools, the run's rows are
      the meanings of the steps along their references, in number order, cut after the first failure. */
  lemma RunIsDataflow(plan: WorkflowPlan, w: World, pol: Policy, trigger: Trigger)
    requires Report(plan, w.reg, pol).ok && pol.floatOf == w.floatOf && Deterministic(w) && DistinctNumbers(plan.steps)
    ensures Traces(Meaning(w, trigger, plan.steps), SortSteps(plan.steps), RunPlan(w, trigger, plan.steps))
  {
    ReportIffAccepted(plan, w.reg, pol);
    AcceptedIsScheduled(plan, w, pol);
    AllEvaluateToMeaning(plan, w, pol, trigger);
    DistinctPermuted(plan.steps, SortSteps(plan.steps));
    AgreeingRun(EvaluatorOf(w, trigger), DepsOf(w), Meaning(w, trigger, plan.steps), SortSteps(plan.steps));
  }

  /** A step is skipped exactly when one of the steps it refers to is skipped or its guard is false. */
  lemma SkipsExactly(plan: WorkflowPlan, w: World, pol: Policy, trigger: Trigger, s: PlanStep)
    requires Report(plan, w.reg, pol).ok && pol.floatOf == w.floatOf && DistinctNumbers(plan.steps) && s in plan.steps
    ensures var m := Meaning(w, trigger, plan.steps);
            Refs(s, w.floatOf) <= m.Keys && s.number in m &&
            (m[s.number].Skips? <==>
             (exists d | d in Refs(s, w.floatOf) :: m[d].Skips?) ||
             GuardPasses(GuardOf(s, w.floatOf), trigger, ResultsOf(m), w.floatOf) == Ok(false))
  {
    ReportIffAccepted(plan, w.reg, pol);
    RefsBackward(s, StepNumbers(plan.steps), w.reg, pol);
    DepsMeaning(w, trigger, plan.steps, s);
    MeaningUnfolds(w, trigger, plan.steps, s);
    SkipsFrom(w, trigger, s, DenoteDeps(w, trigger, GraphOf(plan.steps), s.number), Meaning(w, trigger, plan.steps));
  }

  lemma SkipsFrom(w: World, trigger: Trigger, s: PlanStep, sub: map<int, Verdict>, m: map<int, Verdict>)
    requires sub.Keys == Refs(s, w.floatOf) <= m.Keys && forall d | d in sub :: sub[d] == m[d]
    ensures Evaluate(w, trigger, 0, s, ResultsOf(sub), SkippedOf(sub)).Skips? <==>
            (exists d | d in Refs(s, w.floatOf) :: m[d].Skips?) ||
            GuardPasses(GuardOf(s, w.floatOf), trigger, ResultsOf(m), w.floatOf) == Ok(false)
  {
    var refs := Refs(s, w.floatOf);
    assert SameOn(GuardRefs(GuardOf(s, w.floatOf)), ResultsOf(sub), ResultsOf(m));
    GuardLocal(GuardOf(s, w.floatOf), trigger, ResultsOf(sub), ResultsOf(m), w.floatOf);
    BlockedBy(refs, sub, m);
    var guard := GuardPasses(GuardOf(s, w.floatOf), trigger, ResultsOf(sub), w.floatOf);
    AttemptSkips(w, s, guard, ResolveArgs(s.args, trigger, ResultsOf(sub)));
  }

  lemma BlockedBy(refs: set<int>, sub: map<int, Verdict>, m: map<int, Verdict>)
    requires sub.Keys == refs <= m.Keys && forall d | d in sub :: sub[d] == m[d]
    ensures refs * SkippedOf(sub) != {} <==> exists d | d in refs :: m[d].Skips?
  {
    var blocked := refs * SkippedOf(sub);
    forall d ensures d in blocked <==> d in refs && m[d].Skips? {
      assert d in sub <==> d in refs;
    }
    if !(exists d | d in refs :: m[d].Skips?) {
      forall d ensures d !in blocked {}
      assert blocked == {};
    }
  }

  lemma AttemptSkips(w: World, s: PlanStep, guard: Result<bool, Cause>, arguments: Result<Args, Cause>)
    ensures Attempt(w, 0, s, guard, arguments).Skips? <==> guard == Ok(false)
  {
  }

  // ------------------------------------------------------------ the listed order does not matter

  lemma {:induction false} DistinctCountsOne(steps: seq<PlanStep>, s: PlanStep)
    requires DistinctNumbers(steps)
    ensures multiset(steps)[s] <= 1
  {
    if steps != [] {
      var init, last := steps[..|steps|-1], steps[|steps|-1];
      assert steps == init + [last];
      DistinctCountsOne(init, s);
      if s == last { assert s !in init; }
    }
  }

  lemma RepeatCountsTwo(steps: seq<PlanStep>, i: nat, j: nat)
    requires i < j < |steps| && steps[i] == steps[j]
    ensures multiset(steps)[steps[i]] >= 2
  {
    assert steps == steps[..j] + steps[j..];
    assert steps[i] in steps[..j] && steps[j] in steps[j..];
  }

  lemma DistinctPermuted(a: seq<PlanStep>, b: seq<PlanStep>)
    requires DistinctNumbers(a) && multiset(a) == multiset(b)
    ensures DistinctNumbers(b)
  {
    forall i, j | 0 <= i < j < |b| ensures b[i].number != b[j].number {
      assert b[i] in multiset(a) && b[j] in multiset(a);
      DistinctCountsOne(a, b[i]);
      if b[i] == b[j] { RepeatCountsTwo(b, i, j); }
    }
  }

  /** The last step of an ordered list has the greatest number among its members. */
  lemma LastIsGreatest(a: seq<PlanStep>, s: PlanStep)
    requires Ordered(a) && s in a
    ensures s.number <= a[|a|-1].number
  {
    var i :| 0 <= i < |a| && a[i] == s;
  }

  lemma LastsMatch(a: seq<PlanStep>, b: seq<PlanStep>)
    requires Ordered(a) && Ordered(b) && DistinctNumbers(a) && a != [] && b != []
    requires a[|a|-1] in b && b[|b|-1] in a
    ensures a[|a|-1] == b[|b|-1]
  {
    LastIsGreatest(a, b[|b|-1]);
    LastIsGreatest(b, a[|a|-1]);
    var i :| 0 <= i < |a| && a[i] == b[|b|-1];
    assert i == |a| - 1;
  }

  lemma InitMembers(a: seq<PlanStep>, s: PlanStep)
    requires DistinctNumbers(a) && a != []
    ensures s in a[..|a|-1] <==> s in a && s != a[|a|-1]
  {
    assert a == a[..|a|-1] + [a[|a|-1]];
    if s in a[..|a|-1] {
      var i :| 0 <= i < |a| - 1 && a[i] == s;
    }
  }

  /** Two strictly ordered lists with the same members are the same list. */
  lemma {:induction false} OrderedUnique(a: seq<PlanStep>, b: seq<PlanStep>)
    requires Ordered(a) && Ordered(b) && DistinctNumbers(a) && DistinctNumbers(b)
    requires |a| == |b| && forall s :: s in a <==> s in b
    ensures a == b
  {
    if a != [] {
      var x, a', b' := a[|a|-1], a[..|a|-1], b[..|b|-1];
      assert x in b && b[|b|-1] in a;
      LastsMatch(a, b);
      forall s ensures s in a' <==> s in b' {
        InitMembers(a, s);
        InitMembers(b, s);
      }
      OrderedUnique(a', b');
      assert a == a' + [x] && b == b' + [x];
    }
  }

  /** Permuting the plan's step list changes nothing about the run. */
  lemma OrderIrrelevant(w: World, trigger: Trigger, a: seq<PlanStep>, b: seq<PlanStep>)
    requires DistinctNumbers(a) && multiset(a) == multiset(b)
    ensures RunPlan(w, trigger, a) == RunPlan(w, trigger, b)
  {
    DistinctPermuted(a, SortSteps(a));
    DistinctPermuted(a, SortSteps(b));
    SortedMembers(a);
    SortedMembers(b);
    assert forall s :: s in a <==> s in multiset(b);
    assert |multiset(a)| == |SortSteps(a)| && |multiset(b)| == |SortSteps(b)|;
    OrderedUnique(SortSteps(a), SortSteps(b));
  }
}
