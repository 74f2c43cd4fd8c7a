/** The executor as a function: what one step does, and what a run over ordered steps does. */
module Execution {
  import opened Wrappers
  import opened Conditions
  import opened Feasibility
  import opened Store

  type Trigger = map<string, Value>
  type Results = map<int, Value>

  /** The registry, and what the k-th tool body called returns or raises: any behaviour whatever. */
  datatype World = World(reg: Registry, floatOf: FloatReader, call: (nat, string, Args) -> Result<Value, string>)

  // ------------------------------------------------------------ references

  /** The step a matched reference reads, as a set of at most one number. */
  function MatchedStep(m: Option<Ref>): set<int> {
    if m.Some? && m.value.step.Some? then {m.value.step.value} else {}
  }

  function RefStep(text: string): set<int> { MatchedStep(MatchRef(text)) }

  function ArgRefs(args: Args): set<int> {
    if args == [] then {}
    else
      var v := args[|args|-1].value;
      ArgRefs(args[..|args|-1]) + (if IsRef(v) then RefStep(v.s) else {})
  }

  /** The guard of a step: absent, unreadable, or a condition. */
  datatype Guard = NoGuard | BadGuard | When(c: Condition)

  function GuardOf(s: PlanStep, floatOf: FloatReader): Guard {
    if !Guarded(s) then NoGuard
    else match ParseCondition(s.when.value, floatOf) case None => BadGuard case Some(c) => When(c)
  }

  function GuardRefs(g: Guard): set<int> { if g.When? then RefStep(g.c.ref) else {} }

  /** `_referenced_steps`: the step numbers the arguments and the guard depend on. */
  function Refs(s: PlanStep, floatOf: FloatReader): set<int> { ArgRefs(s.args) + GuardRefs(GuardOf(s, floatOf)) }

  function ResolveMatched(m: Option<Ref>, text: string, trigger: Trigger, results: Results): Result<Value, Cause> {
    match m
    case None => Err(UnresolvableRef(text))
    case Some(r) =>
      if r.step.Some? && (r.step.value !in results || results[r.step.value] == Null) then Err(StepNotRun(text))
      else
        var src := if r.step.Some? then results[r.step.value] else Obj(trigger);
        if r.field.None? then Ok(src)
        else if !src.Obj? then Err(NotAddressable(text))
        else if r.field.value !in src.fields then Err(FieldMissing(text))
        else Ok(src.fields[r.field.value])
  }

  function ResolveRef(text: string, trigger: Trigger, results: Results): Result<Value, Cause> {
    ResolveMatched(MatchRef(text), text, trigger, results)
  }

  function ResolveValue(v: Value, trigger: Trigger, results: Results): Result<Value, Cause> {
    if IsRef(v) then ResolveRef(v.s, trigger, results) else Ok(v)
  }

  /** `_resolve_args`: left to right, the first failure wins. */
  function ResolveArgs(args: Args, trigger: Trigger, results: Results): Result<Args, Cause> {
    if args == [] then Ok([])
    else
      var a := args[|args|-1];
      match ResolveArgs(args[..|args|-1], trigger, results)
      case Err(e) => Err(e)
      case Ok(before) =>
        match ResolveValue(a.value, trigger, results)
        case Err(e) => Err(e)
        case Ok(v) => Ok(before + [Arg(a.key, v)])
  }

  // ------------------------------------------------------------ one step

  function GuardPasses(g: Guard, trigger: Trigger, results: Results, floatOf: FloatReader): Result<bool, Cause> {
    match g
    case NoGuard => Ok(true)
    case BadGuard => Err(GuardMalformed)
    case When(c) =>
      match ResolveRef(c.ref, trigger, results)
      case Err(e) => Err(e)
      case Ok(left) =>
        match Compare(left, c.op, c.literal, floatOf)
        case None => Err(Incomparable)
        case Some(b) => Ok(b)
  }

  /** `ToolRegistry.execute`: unknown tool, then schema, then the body. */
  function Dispatch(w: World, calls: nat, tool: string, args: Args): Result<Value, Cause> {
    if tool !in w.reg then Err(UnknownToolCall(tool))
    else if !w.reg[tool].accepts(args) then Err(ArgsRejected)
    else match w.call(calls, tool, args)
      case Ok(v) => Ok(v)
      case Err(m) => Err(ToolRaised(m))
  }

  datatype Verdict = Skips(reason: SkipReason) | Fails(error: RunError) | Succeeds(resolved: Args, result: Value)

  /** What becomes of a step that nothing skipped blocks: the guard first, then the arguments, then the tool. */
  function Attempt(w: World, calls: nat, s: PlanStep,
                   guard: Result<bool, Cause>, arguments: Result<Args, Cause>): Verdict
  {
    match guard
    case Err(e) => Fails(RunError(true, e))
    case Ok(false) => Skips(GuardFalse)
    case Ok(true) =>
      match arguments
      case Err(e) => Fails(RunError(false, e))
      case Ok(resolved) =>
        match Dispatch(w, calls, s.tool, resolved)
        case Err(e) => Fails(RunError(false, e))
        case Ok(v) => Succeeds(resolved, v)
  }

  /** What becomes of a step, given what earlier steps produced. */
  function Evaluate(w: World, trigger: Trigger, calls: nat, s: PlanStep, results: Results, skipped: set<int>): Verdict {
    var blocked := Refs(s, w.floatOf) * skipped;
    if blocked != {} then Skips(DependsOnSkipped(blocked))
    else
      Attempt(w, calls, s, GuardPasses(GuardOf(s, w.floatOf), trigger, results, w.floatOf),
              ResolveArgs(s.args, trigger, results))
  }

  function RowOf(s: PlanStep, v: Verdict): StepRow {
    match v
    case Skips(r) => StepRow(s.args, Outcome(s.number, s.tool, StepSkipped(r)))
    case Fails(e) => StepRow(s.args, Outcome(s.number, s.tool, StepError(e)))
    case Succeeds(resolved, x) => StepRow(resolved, Outcome(s.number, s.tool, StepOk(x)))
  }

  // ------------------------------------------------------------ a run

  /** The run's local state: results, skipped numbers, rows written, tool bodies called. */
  datatype RunState = RunState(results: Results, skipped: set<int>, rows: seq<StepRow>, calls: nat,
                               failed: Option<RunError>)

  const START := RunState(map[], {}, [], 0, None)

  function Apply(s: PlanStep, v: Verdict, st: RunState): RunState {
    var st := st.(rows := st.rows + [RowOf(s, v)]);
    match v
    case Skips(_) => st.(skipped := st.skipped + {s.number})
    case Fails(e) => st.(failed := Some(e))
    case Succeeds(_, x) => st.(results := st.results[s.number := x], calls := st.calls + 1)
  }

  /** How the next step turns out, given the run so far. */
  type Evaluator = (RunState, PlanStep) -> Verdict

  function EvaluatorOf(w: World, trigger: Trigger): Evaluator {
    (st: RunState, s: PlanStep) => Evaluate(w, trigger, st.calls, s, st.results, st.skipped)
  }

  /** The steps in the order given, stopping at the first failure. */
  function RunSteps(eval: Evaluator, steps: seq<PlanStep>): RunState {
    if steps == [] then START
    else
      var st := RunSteps(eval, steps[..|steps|-1]);
      if st.failed.Some? then st else Apply(steps[|steps|-1], eval(st, steps[|steps|-1]), st)
  }

  /** The run of a plan: its steps in number order. */
  function RunPlan(w: World, trigger: Trigger, steps: seq<PlanStep>): RunState {
    RunSteps(EvaluatorOf(w, trigger), SortSteps(steps))
  }

  /** `sorted(steps, key=step_number)`: the library's stable sort. */
  function SortSteps(steps: seq<PlanStep>): (r: seq<PlanStep>)
    ensures multiset(r) == multiset(steps)
    ensures Ordered(r)
  {
    if steps == [] then []
    else
      assert steps == steps[..|steps|-1] + [steps[|steps|-1]];
      InsertStepKeeps(SortSteps(steps[..|steps|-1]), steps[|steps|-1]);
      InsertStep(SortSteps(steps[..|steps|-1]), steps[|steps|-1])
  }

  predicate Ordered(steps: seq<PlanStep>) {
    forall i, j | 0 <= i < j < |steps| :: steps[i].number <= steps[j].number
  }

  /** The position after every step whose number is not greater than `n`. */
  function InsertPos(steps: seq<PlanStep>, n: int): (k: nat)
    requires Ordered(steps)
    ensures k <= |steps|
    ensures forall i | 0 <= i < k :: steps[i].number <= n
    ensures forall i | k <= i < |steps| :: n < steps[i].number
  {
    if steps == [] || steps[|steps|-1].number <= n then |steps| else InsertPos(steps[..|steps|-1], n)
  }

  function InsertStep(steps: seq<PlanStep>, s: PlanStep): (r: seq<PlanStep>)
    requires Ordered(steps)
    ensures Ordered(r)
  {
    var k := InsertPos(steps, s.number);
    steps[..k] + [s] + steps[k..]
  }

  lemma InsertStepKeeps(steps: seq<PlanStep>, s: PlanStep)
    requires Ordered(steps)
    ensures multiset(InsertStep(steps, s)) == multiset(steps) + multiset{s}
  {
    var k := InsertPos(steps, s.number);
    assert steps == steps[..k] + steps[k..];
  }

  // ------------------------------------------------------------ facts about one step

  lemma {:induction false} ArgRefsOf(args: Args, a: Arg)
    requires a in args && IsRef(a.value)
    ensures RefStep(a.value.s) <= ArgRefs(args)
  {
    assert args == args[..|args|-1] + [args[|args|-1]];
    if a in args[..|args|-1] {
      ArgRefsOf(args[..|args|-1], a);
    }
  }

  /** The two result maps give the same answers about these numbers. */
  ghost predicate SameOn(refs: set<int>, r1: Results, r2: Results) {
    forall n | n in refs :: (n in r1 <==> n in r2) && (n in r1 ==> r1[n] == r2[n])
  }

  /** Resolution sees only the results of the steps it refers to. */
  lemma {:induction false} ResolveArgsLocal(args: Args, trigger: Trigger, r1: Results, r2: Results, refs: set<int>)
    requires ArgRefs(args) <= refs
    requires SameOn(refs, r1, r2)
    ensures ResolveArgs(args, trigger, r1) == ResolveArgs(args, trigger, r2)
  {
    if args != [] {
      ResolveArgsLocal(args[..|args|-1], trigger, r1, r2, refs);
    }
  }

  lemma GuardLocal(g: Guard, trigger: Trigger, r1: Results, r2: Results, floatOf: FloatReader)
    requires SameOn(GuardRefs(g), r1, r2)
    ensures GuardPasses(g, trigger, r1, floatOf) == GuardPasses(g, trigger, r2, floatOf)
  {
    if g.When? {
      assert ResolveRef(g.c.ref, trigger, r1) == ResolveRef(g.c.ref, trigger, r2);
    }
  }

  lemma AttemptLocal(w: World, c1: nat, c2: nat, s: PlanStep,
                     guard: Result<bool, Cause>, arguments: Result<Args, Cause>)
    requires forall tool, args :: w.call(c1, tool, args) == w.call(c2, tool, args)
    ensures Attempt(w, c1, s, guard, arguments) == Attempt(w, c2, s, guard, arguments)
  {
  }

  /** A verdict depends on earlier steps only through the referenced ones. */
  lemma EvaluateLocal(w: World, trigger: Trigger, c1: nat, c2: nat, s: PlanStep,
                      r1: Results, r2: Results, k1: set<int>, k2: set<int>)
    requires SameOn(Refs(s, w.floatOf), r1, r2)
    requires Refs(s, w.floatOf) * k1 == Refs(s, w.floatOf) * k2
    requires forall tool, args :: w.call(c1, tool, args) == w.call(c2, tool, args)
    ensures Evaluate(w, trigger, c1, s, r1, k1) == Evaluate(w, trigger, c2, s, r2, k2)
  {
    ResolveArgsLocal(s.args, trigger, r1, r2, Refs(s, w.floatOf));
    GuardLocal(GuardOf(s, w.floatOf), trigger, r1, r2, w.floatOf);
    AttemptLocal(w, c1, c2, s, GuardPasses(GuardOf(s, w.floatOf), trigger, r1, w.floatOf),
                 ResolveArgs(s.args, trigger, r1));
  }

  /** Failures that a checked plan may still meet: they depend on data, not on the plan's shape. */
  predicate DataFailure(c: Cause) {
    c.FieldMissing? || c.NotAddressable? || c.Incomparable? || c.ArgsRejected? || c.ToolRaised?
  }

  /** The reference points at a step whose recorded result is `None`. */
  predicate PointsAtNull(text: string, results: Results) {
    exists n | n in RefStep(text) :: n in results && results[n] == Null
  }

  predicate TolerableCause(c: Cause, results: Results) {
    DataFailure(c) || (c.StepNotRun? && PointsAtNull(c.ref, results))
  }

  lemma {:induction false} ResolveArgsSound(args: Args, trigger: Trigger, results: Results,
                                            fields: map<string, Annotation>, n: int, numbers: set<int>)
    requires ArgsOk(args, fields, n, numbers)
    requires ArgRefs(args) <= results.Keys
    ensures var r := ResolveArgs(args, trigger, results); r.Err? ==> TolerableCause(r.error, results)
  {
    if args != [] {
      var a := args[|args|-1];
      assert a in args && forall b | b in args[..|args|-1] :: b in args;
      ResolveArgsSound(args[..|args|-1], trigger, results, fields, n, numbers);
      if IsRef(a.value) { ArgRefsOf(args, a); }
    }
  }

  lemma GuardSound(g: Guard, trigger: Trigger, results: Results, floatOf: FloatReader)
    requires !g.BadGuard? && (g.When? ==> MatchRef(g.c.ref).Some?)
    requires GuardRefs(g) <= results.Keys
    ensures var r := GuardPasses(g, trigger, results, floatOf); r.Err? ==> TolerableCause(r.error, results)
  {
    if g.When? {
      var r := ResolveRef(g.c.ref, trigger, results);
      assert r.Err? ==> TolerableCause(r.error, results);
    }
  }

  lemma GuardShape(s: PlanStep, numbers: set<int>, floatOf: FloatReader)
    requires GuardOk(s, numbers, floatOf)
    ensures var g := GuardOf(s, floatOf); !g.BadGuard? && (g.When? ==> MatchRef(g.c.ref).Some?)
  {
  }

  lemma DispatchSound(w: World, calls: nat, tool: string, args: Args)
    requires tool in w.reg
    ensures var d := Dispatch(w, calls, tool, args); d.Err? ==> DataFailure(d.error)
  {
  }

  /** One checked step whose references have all produced a result or been skipped. */
  lemma EvaluateSound(w: World, pol: Policy, trigger: Trigger, calls: nat, s: PlanStep, numbers: set<int>,
                      results: Results, skipped: set<int>)
    requires pol.floatOf == w.floatOf && StepAccepted(s, numbers, w.reg, pol)
    requires Refs(s, w.floatOf) <= results.Keys + skipped
    ensures var v := Evaluate(w, trigger, calls, s, results, skipped);
            v.Fails? ==> TolerableCause(v.error.cause, results)
  {
    var refs, g := Refs(s, w.floatOf), GuardOf(s, w.floatOf);
    if refs * skipped == {} {
      forall n | n in refs ensures n in results {
        assert n !in refs * skipped;
      }
      assert ArgRefs(s.args) <= refs && GuardRefs(g) <= refs;
      GuardShape(s, numbers, w.floatOf);
      GuardSound(g, trigger, results, w.floatOf);
      ResolveArgsSound(s.args, trigger, results, w.reg[s.tool].fields, s.number, numbers);
      var resolved := ResolveArgs(s.args, trigger, results);
      if resolved.Ok? {
        DispatchSound(w, calls, s.tool, resolved.value);
      }
    }
  }
}
