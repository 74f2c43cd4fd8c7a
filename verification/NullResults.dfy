/** The one failure of a checked plan that is not found in the data: a tool that returns `None` reads as a step
    that has not run. When it strikes, exactly, and a plan it stops. */
module NullResults {
  import opened Wrappers
  import opened Conditions
  import opened Feasibility
  import opened Store
  import opened Execution
  import opened Soundness

  /** The guard's reference points at a step whose tool returned `None`. */
  predicate NullGuard(g: Guard, results: Results) { g.When? && PointsAtNull(g.c.ref, results) }

  /** So does the first argument that cannot be resolved. */
  predicate NullArg(args: Args, trigger: Trigger, results: Results) {
    FirstHit(args, NullRef(results), Resolves(trigger, results))
  }

  /** Some argument is hit, and all before it are fine. */
  predicate FirstHit(args: Args, hit: Arg -> bool, fine: Arg -> bool) {
    exists i | 0 <= i < |args| :: hit(args[i]) && forall j | 0 <= j < i :: fine(args[j])
  }

  function NullRef(results: Results): Arg -> bool {
    (a: Arg) => IsRef(a.value) && PointsAtNull(a.value.s, results)
  }

  function Resolves(trigger: Trigger, results: Results): Arg -> bool {
    (a: Arg) => ResolveValue(a.value, trigger, results).Ok?
  }

  predicate Missed(r: RunError) { r.cause.StepNotRun? }

  lemma RefMissesExactly(text: string, trigger: Trigger, results: Results)
    requires RefStep(text) <= results.Keys
    ensures var r := ResolveRef(text, trigger, results); r.Err? && r.error.StepNotRun? <==> PointsAtNull(text, results)
  {
    var m := MatchRef(text);
    if m.Some? && m.value.step.Some? { assert m.value.step.value in RefStep(text); }
  }

  lemma {:induction false} ArgsResolveExactly(args: Args, trigger: Trigger, results: Results)
    ensures ResolveArgs(args, trigger, results).Ok? <==>
            forall j | 0 <= j < |args| :: Resolves(trigger, results)(args[j])
  {
    if args != [] {
      var init := args[..|args|-1];
      ArgsResolveExactly(init, trigger, results);
      assert forall j | 0 <= j < |init| :: init[j] == args[j];
    }
  }

  /** Left to right, the first failure decides. */
  lemma {:induction false} ArgsMissExactly(args: Args, trigger: Trigger, results: Results)
    requires ArgRefs(args) <= results.Keys
    ensures var r := ResolveArgs(args, trigger, results);
            r.Err? && r.error.StepNotRun? <==> NullArg(args, trigger, results)
  {
    if args != [] {
      var init, last := args[..|args|-1], args[|args|-1];
      ArgsMissExactly(init, trigger, results);
      ArgsResolveExactly(init, trigger, results);
      if IsRef(last.value) { RefMissesExactly(last.value.s, trigger, results); }
      FirstHitLast(args, NullRef(results), Resolves(trigger, results));
    }
  }

  lemma FirstHitLast(args: Args, hit: Arg -> bool, fine: Arg -> bool)
    requires args != []
    ensures var init, last := args[..|args|-1], args[|args|-1];
            FirstHit(args, hit, fine) <==>
            FirstHit(init, hit, fine) || ((forall j | 0 <= j < |init| :: fine(init[j])) && hit(last))
  {
    var init := args[..|args|-1];
    assert forall j | 0 <= j < |init| :: init[j] == args[j];
    if FirstHit(init, hit, fine) {
      var i :| 0 <= i < |init| && hit(init[i]) && forall j | 0 <= j < i :: fine(init[j]);
      assert hit(args[i]);
    }
  }

  lemma GuardMissesExactly(g: Guard, trigger: Trigger, results: Results, floatOf: FloatReader)
    requires GuardRefs(g) <= results.Keys
    ensures var r := GuardPasses(g, trigger, results, floatOf);
            r.Err? && r.error.StepNotRun? <==> NullGuard(g, results)
  {
    if g.When? { RefMissesExactly(g.c.ref, trigger, results); }
  }

  lemma AttemptMissesExactly(w: World, calls: nat, s: PlanStep, guard: Result<bool, Cause>, arguments: Result<Args, Cause>)
    ensures var v := Attempt(w, calls, s, guard, arguments);
            v.Fails? && Missed(v.error) <==>
            (guard.Err? && guard.error.StepNotRun?) ||
            (guard == Ok(true) && arguments.Err? && arguments.error.StepNotRun?)
  {
  }

  /** A step whose references have settled and are not skipped fails as "has not run" exactly when its guard's
      reference points at a `None` result, or the guard holds and the first argument that cannot be resolved
      points at one. */
  lemma MissedStepExactly(w: World, trigger: Trigger, calls: nat, s: PlanStep, results: Results, skipped: set<int>)
    requires Refs(s, w.floatOf) <= results.Keys && Refs(s, w.floatOf) * skipped == {}
    ensures var v, g := Evaluate(w, trigger, calls, s, results, skipped), GuardOf(s, w.floatOf);
            v.Fails? && Missed(v.error) <==>
            NullGuard(g, results) ||
            (GuardPasses(g, trigger, results, w.floatOf) == Ok(true) && NullArg(s.args, trigger, results))
  {
    var g := GuardOf(s, w.floatOf);
    assert ArgRefs(s.args) <= Refs(s, w.floatOf) && GuardRefs(g) <= Refs(s, w.floatOf);
    GuardMissesExactly(g, trigger, results, w.floatOf);
    ArgsMissExactly(s.args, trigger, results);
    AttemptMissesExactly(w, calls, s, GuardPasses(g, trigger, results, w.floatOf), ResolveArgs(s.args, trigger, results));
  }

  // ------------------------------------------------------------ a plan it stops

  /** The text of a reference to the whole result of step 1. */
  function FirstResult(): string { RefText(Ref(Some(1), None)) }

  const MAKES := PlanStep(1, "lookup", [], None)

  function Uses(): PlanStep { PlanStep(2, "lookup", [Arg("x", Str(FirstResult()))], None) }

  function TwoSteps(): WorkflowPlan { WorkflowPlan(None, None, [MAKES, Uses()], false) }

  const LOOKUP := ToolSpec("read", false, map["x" := OtherType], (args: Args) => true)

  function LookupPolicy(floatOf: FloatReader): Policy { Policy(2, {"read"}, (s: string) => true, floatOf) }

  /** A lookup that finds nothing: the tool runs and returns `None`. */
  function EmptyWorld(floatOf: FloatReader): World {
    World(map["lookup" := LOOKUP], floatOf, (k: nat, tool: string, args: Args) => Ok(Null))
  }

  lemma FirstResultRefers()
    ensures MatchRef(FirstResult()) == Some(Ref(Some(1), None)) && IsRef(Str(FirstResult()))
    ensures RefStep(FirstResult()) == {1}
  {
    RefRoundTrip(Ref(Some(1), None));
  }

  lemma TwoStepsAccepted(floatOf: FloatReader)
    ensures Report(TwoSteps(), EmptyWorld(floatOf).reg, LookupPolicy(floatOf)).ok
  {
    FirstResultRefers();
    var plan, reg, pol := TwoSteps(), EmptyWorld(floatOf).reg, LookupPolicy(floatOf);
    assert MAKES in plan.steps && Uses() in plan.steps;
    assert StepNumbers(plan.steps) == {1, 2} by {
      assert forall n :: n in StepNumbers(plan.steps) <==> n == MAKES.number || n == Uses().number;
    }
    assert StepAccepted(MAKES, {1, 2}, reg, pol);
    assert StepAccepted(Uses(), {1, 2}, reg, pol);
    assert Accepted(plan, reg, pol);
    ReportIffAccepted(plan, reg, pol);
  }

  /** Sorting leaves a list that is in order as it is. */
  lemma {:induction false} SortedIsKept(steps: seq<PlanStep>)
    requires Ordered(steps)
    ensures SortSteps(steps) == steps
  {
    if steps != [] {
      var init, last := steps[..|steps|-1], steps[|steps|-1];
      SortedIsKept(init);
      InsertAtEnd(init, last);
      assert steps == init + [last];
    }
  }

  lemma InsertAtEnd(steps: seq<PlanStep>, s: PlanStep)
    requires Ordered(steps) && forall i | 0 <= i < |steps| :: steps[i].number <= s.number
    ensures InsertStep(steps, s) == steps + [s]
  {
    assert InsertPos(steps, s.number) == |steps|;
  }

  /** An accepted plan, and a tool that finds nothing: the run fails on a step that did run. */
  lemma NullResultStopsCheckedPlan(floatOf: FloatReader)
    ensures Report(TwoSteps(), EmptyWorld(floatOf).reg, LookupPolicy(floatOf)).ok
    ensures RunPlan(EmptyWorld(floatOf), map[], TwoSteps().steps).failed ==
            Some(RunError(false, StepNotRun(FirstResult())))
  {
    TwoStepsAccepted(floatOf);
    TwoStepsSorted();
    TwoStepsFail(floatOf);
  }

  lemma TwoStepsSorted()
    ensures SortSteps(TwoSteps().steps) == TwoSteps().steps
  {
    SortedIsKept(TwoSteps().steps);
  }

  lemma TwoStepsFail(floatOf: FloatReader)
    ensures RunSteps(EvaluatorOf(EmptyWorld(floatOf), map[]), TwoSteps().steps).failed ==
            Some(RunError(false, StepNotRun(FirstResult())))
  {
    MakesSucceeds(floatOf);
    UsesFails(EmptyWorld(floatOf), 1);
    TwoStepRun(EvaluatorOf(EmptyWorld(floatOf), map[]), MAKES, Uses(), Null, RunError(false, StepNotRun(FirstResult())));
  }

  lemma MakesSucceeds(floatOf: FloatReader)
    ensures Evaluate(EmptyWorld(floatOf), map[], 0, MAKES, map[], {}) == Succeeds([], Null)
  {
  }

  lemma TwoStepRun(eval: Evaluator, first: PlanStep, second: PlanStep, x: Value, e: RunError)
    requires eval(START, first) == Succeeds([], x)
    requires eval(Apply(first, Succeeds([], x), START), second) == Fails(e)
    ensures RunSteps(eval, [first, second]).failed == Some(e)
  {
    RunExtend(eval, [], first);
    assert [] + [first] == [first];
    RunExtend(eval, [first], second);
    assert [first] + [second] == [first, second];
  }

  lemma UsesFails(w: World, calls: nat)
    ensures Evaluate(w, map[], calls, Uses(), map[1 := Null], {}) == Fails(RunError(false, StepNotRun(FirstResult())))
  {
    FirstResultRefers();
    var args := Uses().args;
    assert args[..0] == [];
    assert ResolveArgs(args, map[], map[1 := Null]) == Err(StepNotRun(FirstResult()));
  }
}
