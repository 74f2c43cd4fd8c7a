/** The static checker: a plan may run only if every check here passes. */
module Feasibility {
  import opened Wrappers
  import opened Conditions

  /** One keyword argument of a step; a step's arguments keep their order. */
  datatype Arg = Arg(key: string, value: Value)
  type Args = seq<Arg>

  datatype PlanStep = PlanStep(number: int, tool: string, args: Args, when: Option<string>)

  datatype WorkflowPlan = WorkflowPlan(trigger: Option<string>, schedule: Option<string>,
                                       steps: seq<PlanStep>, needsClarification: bool)

  datatype Annotation = StrType | IntType | FloatType | BoolType | DictType | ListType | OtherType

  /** A registered tool; `accepts` is its pydantic schema as a predicate on the arguments. */
  datatype ToolSpec = ToolSpec(category: string, requiresApproval: bool,
                               fields: map<string, Annotation>, accepts: Args -> bool)
  type Registry = map<string, ToolSpec>

  /** The configured limits, and the two library judgements the checker calls. */
  datatype Policy = Policy(maxSteps: nat, categories: set<string>,
                           scheduleOk: string -> bool, floatOf: FloatReader)

  datatype PlanError =
    | NeedsClarification
    | NoSteps
    | TooManySteps
    | UnknownTool(step: int, tool: string)
    | CategoryNotPermitted(step: int, tool: string)
    | UnknownArg(step: int, key: string)
    | MalformedRef(step: int, ref: string)
    | NotBackward(step: int, ref: string)
    | NotInPlan(step: int, ref: string)
    | ArgsInvalid(step: int, tool: string)
    | MalformedGuard(step: int)
    | ScheduleInvalid

  datatype FeasibilityReport = FeasibilityReport(ok: bool, errors: seq<PlanError>, requiresApproval: bool)

  /** `isinstance(value, str) and value.startswith("$")`. */
  predicate IsRef(v: Value) { v.Str? && v.s != "" && v.s[0] == '$' }

  /** `if step.when`: an empty guard is no guard. */
  predicate Guarded(s: PlanStep) { s.when.Some? && s.when.value != "" }

  function Placeholder(a: Annotation): Value {
    match a
    case StrType => Str("x") case IntType => Num(0.0) case FloatType => Num(0.0) case BoolType => Bool(false)
    case DictType => Obj(map[]) case ListType => Arr([]) case OtherType => Str("x")
  }

  // ------------------------------------------------------------ what each check reports

  function RefErrors(text: string, n: int, numbers: set<int>): seq<PlanError> {
    match MatchRef(text)
    case None => [MalformedRef(n, text)]
    case Some(r) =>
      if r.step.None? then []
      else if r.step.value >= n then [NotBackward(n, text)]
      else if r.step.value !in numbers then [NotInPlan(n, text)]
      else []
  }

  function ArgErrors(args: Args, fields: map<string, Annotation>, n: int, numbers: set<int>): seq<PlanError> {
    if args == [] then []
    else
      var a := args[|args|-1];
      ArgErrors(args[..|args|-1], fields, n, numbers) +
      (if a.key !in fields then [UnknownArg(n, a.key)]
       else if IsRef(a.value) then RefErrors(a.value.s, n, numbers)
       else [])
  }

  /** The concrete arguments put to the schema: unknown keys dropped, references replaced. */
  function Candidate(args: Args, fields: map<string, Annotation>): Args {
    if args == [] then []
    else
      var a := args[|args|-1];
      Candidate(args[..|args|-1], fields) +
      (if a.key !in fields then []
       else if IsRef(a.value) then [Arg(a.key, Placeholder(fields[a.key]))]
       else [a])
  }

  function GuardErrors(s: PlanStep, numbers: set<int>, floatOf: FloatReader): seq<PlanError> {
    if !Guarded(s) then []
    else match ParseCondition(s.when.value, floatOf)
      case None => [MalformedGuard(s.number)]
      case Some(c) => RefErrors(c.ref, s.number, numbers)
  }

  function StepErrors(s: PlanStep, numbers: set<int>, reg: Registry, pol: Policy): seq<PlanError> {
    if s.tool !in reg then [UnknownTool(s.number, s.tool)]
    else
      var spec := reg[s.tool];
      (if spec.category !in pol.categories then [CategoryNotPermitted(s.number, s.tool)] else []) +
      ArgErrors(s.args, spec.fields, s.number, numbers) +
      (if spec.accepts(Candidate(s.args, spec.fields)) then [] else [ArgsInvalid(s.number, s.tool)]) +
      GuardErrors(s, numbers, pol.floatOf)
  }

  function StepsErrors(steps: seq<PlanStep>, numbers: set<int>, reg: Registry, pol: Policy): seq<PlanError> {
    if steps == [] then []
    else StepsErrors(steps[..|steps|-1], numbers, reg, pol) + StepErrors(steps[|steps|-1], numbers, reg, pol)
  }

  function StepNumbers(steps: seq<PlanStep>): set<int> { set s | s in steps :: s.number }

  predicate NeedsApproval(steps: seq<PlanStep>, reg: Registry) {
    exists s | s in steps :: s.tool in reg && reg[s.tool].requiresApproval
  }

  function Report(plan: WorkflowPlan, reg: Registry, pol: Policy): FeasibilityReport {
    if plan.needsClarification then FeasibilityReport(false, [NeedsClarification], false)
    else if plan.steps == [] then FeasibilityReport(false, [NoSteps], false)
    else
      var errors :=
        (if |plan.steps| > pol.maxSteps then [TooManySteps] else []) +
        StepsErrors(plan.steps, StepNumbers(plan.steps), reg, pol) +
        (if plan.schedule.Some? && !pol.scheduleOk(plan.schedule.value) then [ScheduleInvalid] else []);
      FeasibilityReport(errors == [], errors, NeedsApproval(plan.steps, reg))
  }

  // ------------------------------------------------------------ the checker

  method CheckRef(text: string, n: int, numbers: set<int>, errors: seq<PlanError>) returns (out: seq<PlanError>)
    ensures out == errors + RefErrors(text, n, numbers)
  {
    out := errors;
    var m := MatchRef(text);
    if m.None? {
      return errors + [MalformedRef(n, text)];
    }
    if m.value.step.Some? {
      var ref := m.value.step.value;
      if ref >= n {
        out := out + [NotBackward(n, text)];
      } else if ref !in numbers {
        out := out + [NotInPlan(n, text)];
      }
    }
  }

  method CheckArgs(s: PlanStep, spec: ToolSpec, numbers: set<int>, errors: seq<PlanError>)
    returns (out: seq<PlanError>, candidate: Args)
    ensures out == errors + ArgErrors(s.args, spec.fields, s.number, numbers)
    ensures candidate == Candidate(s.args, spec.fields)
  {
    out, candidate := errors, [];
    for i := 0 to |s.args|
      invariant out == errors + ArgErrors(s.args[..i], spec.fields, s.number, numbers)
      invariant candidate == Candidate(s.args[..i], spec.fields)
    {
      var a := s.args[i];
      assert s.args[..i+1] == s.args[..i] + [a];
      ArgsExtend(s.args[..i], a, spec.fields, s.number, numbers, errors);
      if a.key !in spec.fields {
        out := out + [UnknownArg(s.number, a.key)];
        continue;
      }
      if IsRef(a.value) {
        out := CheckRef(a.value.s, s.number, numbers, out);
        candidate := candidate + [Arg(a.key, Placeholder(spec.fields[a.key]))];
      } else {
        candidate := candidate + [a];
      }
    }
    assert s.args[..|s.args|] == s.args;
  }

  method CheckGuard(s: PlanStep, numbers: set<int>, floatOf: FloatReader, errors: seq<PlanError>)
    returns (out: seq<PlanError>)
    ensures out == errors + GuardErrors(s, numbers, floatOf)
  {
    out := errors;
    if Guarded(s) {
      var c := ParseCondition(s.when.value, floatOf);
      if c.None? {
        out := out + [MalformedGuard(s.number)];
      } else {
        out := CheckRef(c.value.ref, s.number, numbers, out);
      }
    }
  }

  lemma Assoc<T>(a: seq<T>, b: seq<T>, c: seq<T>)
    ensures a + b + c == a + (b + c)
  {
  }

  lemma AppendFour<T>(e: seq<T>, a: seq<T>, b: seq<T>, c: seq<T>, d: seq<T>)
    ensures e + a + b + c + d == e + (a + b + c + d)
  {
  }

  method CheckStep(s: PlanStep, numbers: set<int>, reg: Registry, pol: Policy, errors: seq<PlanError>)
    returns (out: seq<PlanError>)
    ensures out == errors + StepErrors(s, numbers, reg, pol)
  {
    if s.tool !in reg {
      return errors + [UnknownTool(s.number, s.tool)];
    }
    var spec := reg[s.tool];
    var category := if spec.category !in pol.categories then [CategoryNotPermitted(s.number, s.tool)] else [];
    var candidate;
    out, candidate := CheckArgs(s, spec, numbers, errors + category);
    var schema := if spec.accepts(candidate) then [] else [ArgsInvalid(s.number, s.tool)];
    out := CheckGuard(s, numbers, pol.floatOf, out + schema);
    AppendFour(errors, category, ArgErrors(s.args, spec.fields, s.number, numbers), schema,
               GuardErrors(s, numbers, pol.floatOf));
  }

  lemma StepsExtend(before: seq<PlanStep>, s: PlanStep, numbers: set<int>, reg: Registry, pol: Policy, start: seq<PlanError>)
    ensures start + StepsErrors(before + [s], numbers, reg, pol)
         == start + StepsErrors(before, numbers, reg, pol) + StepErrors(s, numbers, reg, pol)
    ensures NeedsApproval(before + [s], reg) <==>
            NeedsApproval(before, reg) || (s.tool in reg && reg[s.tool].requiresApproval)
  {
    assert (before + [s])[..|before|] == before;
    Assoc(start, StepsErrors(before, numbers, reg, pol), StepErrors(s, numbers, reg, pol));
    assert forall t :: t in before + [s] <==> t in before || t == s;
  }

  lemma ArgsExtend(before: Args, a: Arg, fields: map<string, Annotation>, n: int, numbers: set<int>, start: seq<PlanError>)
    ensures start + ArgErrors(before + [a], fields, n, numbers)
         == start + ArgErrors(before, fields, n, numbers) + ArgErrors([a], fields, n, numbers)
    ensures Candidate(before + [a], fields) == Candidate(before, fields) + Candidate([a], fields)
  {
    assert (before + [a])[..|before|] == before;
    assert [a][..0] == [];
    assert ArgErrors([a], fields, n, numbers) == ArgErrors(before + [a], fields, n, numbers)[|ArgErrors(before, fields, n, numbers)|..];
    Assoc(start, ArgErrors(before, fields, n, numbers), ArgErrors([a], fields, n, numbers));
  }

  method CheckSteps(steps: seq<PlanStep>, reg: Registry, pol: Policy, start: seq<PlanError>)
    returns (errors: seq<PlanError>, requiresApproval: bool)
    ensures errors == start + StepsErrors(steps, StepNumbers(steps), reg, pol)
    ensures requiresApproval == NeedsApproval(steps, reg)
  {
    var numbers := StepNumbers(steps);
    errors, requiresApproval := start, false;
    for i := 0 to |steps|
      invariant errors == start + StepsErrors(steps[..i], numbers, reg, pol)
      invariant requiresApproval == NeedsApproval(steps[..i], reg)
    {
      var s := steps[i];
      assert steps[..i+1] == steps[..i] + [s];
      StepsExtend(steps[..i], s, numbers, reg, pol, start);
      errors := CheckStep(s, numbers, reg, pol, errors);
      requiresApproval := requiresApproval || (s.tool in reg && reg[s.tool].requiresApproval);
    }
    assert steps[..|steps|] == steps;
  }

  /** `check_plan`. */
  method CheckPlan(plan: WorkflowPlan, reg: Registry, pol: Policy) returns (report: FeasibilityReport)
    ensures report == Report(plan, reg, pol)
  {
    if plan.needsClarification {
      return FeasibilityReport(false, [NeedsClarification], false);
    }
    if plan.steps == [] {
      return FeasibilityReport(false, [NoSteps], false);
    }
    var errors, requiresApproval := CheckSteps(plan.steps, reg, pol,
                                               if |plan.steps| > pol.maxSteps then [TooManySteps] else []);
    if plan.schedule.Some? && !pol.scheduleOk(plan.schedule.value) {
      errors := errors + [ScheduleInvalid];
    }
    report := FeasibilityReport(errors == [], errors, requiresApproval);
  }

  // ------------------------------------------------------------ what acceptance means

  /** The reference reads the trigger, or a step of the plan with a smaller number. */
  predicate BackwardRef(text: string, n: int, numbers: set<int>) {
    var m := MatchRef(text);
    m.Some? && (m.value.step.Some? ==> m.value.step.value < n && m.value.step.value in numbers)
  }

  predicate GuardOk(s: PlanStep, numbers: set<int>, floatOf: FloatReader) {
    Guarded(s) ==>
      var c := ParseCondition(s.when.value, floatOf);
      c.Some? && BackwardRef(c.value.ref, s.number, numbers)
  }

  predicate ArgsOk(args: Args, fields: map<string, Annotation>, n: int, numbers: set<int>) {
    forall a | a in args :: a.key in fields && (IsRef(a.value) ==> BackwardRef(a.value.s, n, numbers))
  }

  predicate StepAccepted(s: PlanStep, numbers: set<int>, reg: Registry, pol: Policy) {
    s.tool in reg && reg[s.tool].category in pol.categories &&
    ArgsOk(s.args, reg[s.tool].fields, s.number, numbers) &&
    reg[s.tool].accepts(Candidate(s.args, reg[s.tool].fields)) &&
    GuardOk(s, numbers, pol.floatOf)
  }

  predicate Accepted(plan: WorkflowPlan, reg: Registry, pol: Policy) {
    !plan.needsClarification && 0 < |plan.steps| <= pol.maxSteps &&
    (forall s | s in plan.steps :: StepAccepted(s, StepNumbers(plan.steps), reg, pol)) &&
    (plan.schedule.Some? ==> pol.scheduleOk(plan.schedule.value))
  }

  lemma {:induction false} ArgErrorsEmpty(args: Args, fields: map<string, Annotation>, n: int, numbers: set<int>)
    ensures ArgErrors(args, fields, n, numbers) == [] <==> ArgsOk(args, fields, n, numbers)
  {
    if args != [] {
      ArgErrorsEmpty(args[..|args|-1], fields, n, numbers);
      assert args == args[..|args|-1] + [args[|args|-1]];
    }
  }

  lemma StepErrorsEmpty(s: PlanStep, numbers: set<int>, reg: Registry, pol: Policy)
    ensures StepErrors(s, numbers, reg, pol) == [] <==> StepAccepted(s, numbers, reg, pol)
  {
    if s.tool in reg {
      ArgErrorsEmpty(s.args, reg[s.tool].fields, s.number, numbers);
    }
  }

  lemma {:induction false} StepsErrorsEmpty(steps: seq<PlanStep>, numbers: set<int>, reg: Registry, pol: Policy)
    ensures StepsErrors(steps, numbers, reg, pol) == [] <==>
            forall s | s in steps :: StepAccepted(s, numbers, reg, pol)
  {
    if steps != [] {
      StepsErrorsEmpty(steps[..|steps|-1], numbers, reg, pol);
      StepErrorsEmpty(steps[|steps|-1], numbers, reg, pol);
      assert steps == steps[..|steps|-1] + [steps[|steps|-1]];
    }
  }

  /** The checker says yes exactly to the plans that meet the declarative condition. */
  lemma ReportIffAccepted(plan: WorkflowPlan, reg: Registry, pol: Policy)
    ensures Report(plan, reg, pol).ok <==> Accepted(plan, reg, pol)
  {
    StepsErrorsEmpty(plan.steps, StepNumbers(plan.steps), reg, pol);
  }
}
