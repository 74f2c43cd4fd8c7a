/** Why the checker refuses a plan: each error it can report, with the condition on the plan that it stands for. */
module Rejections {
  import opened Wrappers
  import opened Conditions
  import opened Feasibility
  import opened References

  // ------------------------------------------------------------ the arguments put to the schema

  /** What stands in for a reference: a value of the annotated type. */
  predicate StandIn(t: Annotation, v: Value) {
    match t
    case StrType => v == Str("x")
    case OtherType => v == Str("x")
    case IntType => v == Num(0.0)
    case FloatType => v == Num(0.0)
    case BoolType => v == Bool(false)
    case DictType => v == Obj(map[])
    case ListType => v == Arr([])
  }

  predicate PutAs(a: Arg, fields: map<string, Annotation>, c: Arg) {
    a.key in fields && c.key == a.key && if Dollar(a.value) then StandIn(fields[a.key], c.value) else c.value == a.value
  }

  /** The arguments that the tool has fields for, in their order. */
  function KnownArgs(args: Args, fields: map<string, Annotation>): Args {
    if args == [] then []
    else KnownArgs(args[..|args|-1], fields) + if args[|args|-1].key in fields then [args[|args|-1]] else []
  }

  /** The known arguments, with a value of the right type for every reference. */
  predicate Candidates(args: Args, fields: map<string, Annotation>, candidate: Args) {
    AllPutAs(KnownArgs(args, fields), fields, candidate)
  }

  predicate AllPutAs(known: Args, fields: map<string, Annotation>, candidate: Args) {
    |candidate| == |known| && forall k | 0 <= k < |known| :: PutAs(known[k], fields, candidate[k])
  }

  lemma StandInIs(t: Annotation, v: Value)
    ensures StandIn(t, v) <==> v == Placeholder(t)
  {
  }

  lemma {:induction false} CandidateIsPut(args: Args, fields: map<string, Annotation>)
    ensures Candidates(args, fields, Candidate(args, fields))
  {
    if args != [] {
      var a := args[|args|-1];
      CandidateIsPut(args[..|args|-1], fields);
      DollarIsRef(a.value);
    }
  }

  lemma OneCandidate(known: Args, fields: map<string, Annotation>, c: Args, d: Args)
    requires AllPutAs(known, fields, c) && AllPutAs(known, fields, d)
    ensures c == d
  {
    forall k | 0 <= k < |known| ensures c[k] == d[k] {
      assert PutAs(known[k], fields, c[k]) && PutAs(known[k], fields, d[k]);
    }
  }

  /** The schema is put to just these candidate arguments. */
  lemma CandidateExactly(args: Args, fields: map<string, Annotation>, candidate: Args)
    ensures Candidates(args, fields, candidate) <==> candidate == Candidate(args, fields)
  {
    CandidateIsPut(args, fields);
    if Candidates(args, fields, candidate) { OneCandidate(KnownArgs(args, fields), fields, candidate, Candidate(args, fields)); }
  }

  // ------------------------------------------------------------ what each error stands for

  predicate WithGuard(s: PlanStep) { s.when.Some? && s.when.value != "" }

  /** The text stands as a reference among the known arguments, or in the guard. */
  predicate Mentions(s: PlanStep, spec: ToolSpec, floatOf: FloatReader, text: string) {
    (exists a | a in s.args :: a.key in spec.fields && a.value == Str(text) && "$" <= text) ||
    (WithGuard(s) && ParseCondition(s.when.value, floatOf).Some? && ParseCondition(s.when.value, floatOf).value.ref == text)
  }

  ghost predicate PointsTo(text: string, n: int) { exists r :: Spells(text, r) && r.step.Some? && r.step.value == n }

  /** The step is to blame for the error. */
  ghost predicate StepBlamed(s: PlanStep, steps: seq<PlanStep>, reg: Registry, pol: Policy, e: PlanError) {
    if s.tool !in reg then e == UnknownTool(s.number, s.tool)
    else
      var spec := reg[s.tool];
      match e
      case CategoryNotPermitted(n, tool) => n == s.number && tool == s.tool && spec.category !in pol.categories
      case UnknownArg(n, key) => n == s.number && key !in spec.fields && exists a :: a in s.args && a.key == key
      case MalformedRef(n, text) => n == s.number && Mentions(s, spec, pol.floatOf, text) && forall r :: !Spells(text, r)
      case NotBackward(n, text) =>
        n == s.number && Mentions(s, spec, pol.floatOf, text) && exists m :: PointsTo(text, m) && m >= s.number
      case NotInPlan(n, text) =>
        n == s.number && Mentions(s, spec, pol.floatOf, text) &&
        exists m :: PointsTo(text, m) && m < s.number && forall t | t in steps :: t.number != m
      case ArgsInvalid(n, tool) =>
        n == s.number && tool == s.tool && exists c :: Candidates(s.args, spec.fields, c) && !spec.accepts(c)
      case MalformedGuard(n) => n == s.number && WithGuard(s) && ParseCondition(s.when.value, pol.floatOf).None?
      case _ => false
  }

  ghost predicate Blamed(plan: WorkflowPlan, reg: Registry, pol: Policy, e: PlanError) {
    if plan.needsClarification then e == NeedsClarification
    else if plan.steps == [] then e == NoSteps
    else
      (e == TooManySteps && |plan.steps| > pol.maxSteps) ||
      (e == ScheduleInvalid && plan.schedule.Some? && !pol.scheduleOk(plan.schedule.value)) ||
      exists s :: s in plan.steps && StepBlamed(s, plan.steps, reg, pol, e)
  }

  lemma PointsExactly(text: string, n: int)
    ensures PointsTo(text, n) <==>
            MatchRef(text).Some? && MatchRef(text).value.step.Some? && MatchRef(text).value.step.value == n
  {
    if MatchRef(text).Some? { MatchesExactly(text, MatchRef(text).value); }
    if PointsTo(text, n) {
      var r :| Spells(text, r) && r.step.Some? && r.step.value == n;
      MatchesExactly(text, r);
    }
  }

  /** What is wrong with a reference in step `n`. */
  ghost predicate RefBlamed(text: string, n: int, steps: seq<PlanStep>, e: PlanError) {
    (e == MalformedRef(n, text) && forall r :: !Spells(text, r)) ||
    (e == NotBackward(n, text) && exists m :: PointsTo(text, m) && m >= n) ||
    (e == NotInPlan(n, text) && exists m :: PointsTo(text, m) && m < n && forall t | t in steps :: t.number != m)
  }

  lemma NumbersExactly(steps: seq<PlanStep>, m: int)
    ensures m !in StepNumbers(steps) <==> forall t | t in steps :: t.number != m
  {
  }

  lemma NoneSpelled(text: string)
    ensures MatchRef(text).None? <==> forall r :: !Spells(text, r)
  {
    if MatchRef(text).Some? { MatchesExactly(text, MatchRef(text).value); }
    if r :| Spells(text, r) { MatchesExactly(text, r); }
  }

  /** The number of the step that the text refers to, if it refers to one. */
  function PointedAt(text: string): Option<nat> { if MatchRef(text).None? then None else MatchRef(text).value.step }

  lemma PointedExactly(text: string)
    ensures forall m: int :: PointsTo(text, m) <==> PointedAt(text).Some? && PointedAt(text).value == m
  {
    forall m: int ensures PointsTo(text, m) <==> PointedAt(text).Some? && PointedAt(text).value == m { PointsExactly(text, m); }
  }

  lemma PointedIsBlamed(text: string, n: int, steps: seq<PlanStep>, m: nat, e: PlanError)
    requires PointedAt(text) == Some(m)
    ensures RefBlamed(text, n, steps, e) <==>
            (e == NotBackward(n, text) && m >= n) || (e == NotInPlan(n, text) && m < n && m !in StepNumbers(steps))
  {
    NoneSpelled(text);
    PointedExactly(text);
    NumbersExactly(steps, m);
    assert PointsTo(text, m);
  }

  lemma UnpointedIsBlamed(text: string, n: int, steps: seq<PlanStep>, e: PlanError)
    requires PointedAt(text).None?
    ensures RefBlamed(text, n, steps, e) <==> e == MalformedRef(n, text) && MatchRef(text).None?
  {
    NoneSpelled(text);
    PointedExactly(text);
  }

  lemma RefErrorsExactly(text: string, n: int, steps: seq<PlanStep>, e: PlanError)
    ensures e in RefErrors(text, n, StepNumbers(steps)) <==> RefBlamed(text, n, steps, e)
  {
    if PointedAt(text).Some? {
      PointedIsBlamed(text, n, steps, PointedAt(text).value, e);
    } else {
      UnpointedIsBlamed(text, n, steps, e);
    }
  }

  /** What is wrong with one argument. */
  ghost predicate ArgBlamed(a: Arg, fields: map<string, Annotation>, n: int, steps: seq<PlanStep>, e: PlanError) {
    if a.key !in fields then e == UnknownArg(n, a.key) else Dollar(a.value) && RefBlamed(a.value.s, n, steps, e)
  }

  ghost predicate ArgsBlamed(args: Args, fields: map<string, Annotation>, n: int, steps: seq<PlanStep>, e: PlanError) {
    exists a :: a in args && ArgBlamed(a, fields, n, steps, e)
  }

  lemma ArgsBlamedLast(init: Args, a: Arg, fields: map<string, Annotation>, n: int, steps: seq<PlanStep>, e: PlanError)
    ensures ArgsBlamed(init + [a], fields, n, steps, e) <==> ArgsBlamed(init, fields, n, steps, e) || ArgBlamed(a, fields, n, steps, e)
  {
    assert forall x :: x in init + [a] <==> x in init || x == a;
  }

  lemma OneArgExactly(a: Arg, fields: map<string, Annotation>, n: int, steps: seq<PlanStep>, e: PlanError)
    ensures ArgBlamed(a, fields, n, steps, e) <==>
            e in (if a.key !in fields then [UnknownArg(n, a.key)]
                  else if IsRef(a.value) then RefErrors(a.value.s, n, StepNumbers(steps)) else [])
  {
    DollarIsRef(a.value);
    if Dollar(a.value) { RefErrorsExactly(a.value.s, n, steps, e); }
  }

  lemma {:induction false} ArgErrorsExactly(args: Args, fields: map<string, Annotation>, n: int, steps: seq<PlanStep>, e: PlanError)
    ensures e in ArgErrors(args, fields, n, StepNumbers(steps)) <==> ArgsBlamed(args, fields, n, steps, e)
  {
    if args != [] {
      var init, a := args[..|args|-1], args[|args|-1];
      assert args == init + [a];
      ArgErrorsExactly(init, fields, n, steps, e);
      OneArgExactly(a, fields, n, steps, e);
      ArgsBlamedLast(init, a, fields, n, steps, e);
    }
  }

  ghost predicate GuardBlamed(s: PlanStep, steps: seq<PlanStep>, floatOf: FloatReader, e: PlanError) {
    WithGuard(s) &&
    match ParseCondition(s.when.value, floatOf)
    case None => e == MalformedGuard(s.number)
    case Some(c) => RefBlamed(c.ref, s.number, steps, e)
  }

  lemma GuardErrorsExactly(s: PlanStep, steps: seq<PlanStep>, floatOf: FloatReader, e: PlanError)
    ensures e in GuardErrors(s, StepNumbers(steps), floatOf) <==> GuardBlamed(s, steps, floatOf, e)
  {
    if WithGuard(s) && ParseCondition(s.when.value, floatOf).Some? {
      RefErrorsExactly(ParseCondition(s.when.value, floatOf).value.ref, s.number, steps, e);
    }
  }

  /** The four checks of a step with a known tool. */
  ghost predicate PartsBlamed(s: PlanStep, spec: ToolSpec, steps: seq<PlanStep>, pol: Policy, e: PlanError) {
    (e == CategoryNotPermitted(s.number, s.tool) && spec.category !in pol.categories) ||
    ArgsBlamed(s.args, spec.fields, s.number, steps, e) ||
    (e == ArgsInvalid(s.number, s.tool) && exists c :: Candidates(s.args, spec.fields, c) && !spec.accepts(c)) ||
    GuardBlamed(s, steps, pol.floatOf, e)
  }

  lemma SchemaExactly(s: PlanStep, spec: ToolSpec)
    ensures (exists c :: Candidates(s.args, spec.fields, c) && !spec.accepts(c)) <==> !spec.accepts(Candidate(s.args, spec.fields))
  {
    CandidateExactly(s.args, spec.fields, Candidate(s.args, spec.fields));
    if c :| Candidates(s.args, spec.fields, c) && !spec.accepts(c) { CandidateExactly(s.args, spec.fields, c); }
  }

  lemma StepErrorsParts(s: PlanStep, steps: seq<PlanStep>, reg: Registry, pol: Policy, e: PlanError)
    requires s.tool in reg
    ensures e in StepErrors(s, StepNumbers(steps), reg, pol) <==> PartsBlamed(s, reg[s.tool], steps, pol, e)
  {
    ArgErrorsExactly(s.args, reg[s.tool].fields, s.number, steps, e);
    GuardErrorsExactly(s, steps, pol.floatOf, e);
    SchemaExactly(s, reg[s.tool]);
  }

  ghost predicate ArgMentions(s: PlanStep, spec: ToolSpec, text: string) {
    exists a | a in s.args :: a.key in spec.fields && a.value == Str(text) && "$" <= text
  }

  predicate GuardMentions(s: PlanStep, floatOf: FloatReader, text: string) {
    WithGuard(s) && ParseCondition(s.when.value, floatOf).Some? && ParseCondition(s.when.value, floatOf).value.ref == text
  }

  predicate AboutRef(e: PlanError) { e.MalformedRef? || e.NotBackward? || e.NotInPlan? }

  lemma RefBlamedIs(text: string, n: int, steps: seq<PlanStep>, e: PlanError)
    requires RefBlamed(text, n, steps, e)
    ensures AboutRef(e) && e.step == n && e.ref == text
  {
  }

  lemma ArgRefBlamed(s: PlanStep, spec: ToolSpec, steps: seq<PlanStep>, e: PlanError)
    requires AboutRef(e)
    ensures ArgsBlamed(s.args, spec.fields, s.number, steps, e) <==>
            ArgMentions(s, spec, e.ref) && RefBlamed(e.ref, s.number, steps, e)
  {
    if a :| a in s.args && ArgBlamed(a, spec.fields, s.number, steps, e) {
      RefBlamedIs(a.value.s, s.number, steps, e);
      assert a.value == Str(e.ref);
    }
    if ArgMentions(s, spec, e.ref) && RefBlamed(e.ref, s.number, steps, e) {
      var a :| a in s.args && a.key in spec.fields && a.value == Str(e.ref) && "$" <= e.ref;
      assert ArgBlamed(a, spec.fields, s.number, steps, e);
    }
  }

  lemma GuardRefBlamed(s: PlanStep, steps: seq<PlanStep>, floatOf: FloatReader, e: PlanError)
    requires AboutRef(e)
    ensures GuardBlamed(s, steps, floatOf, e) <==> GuardMentions(s, floatOf, e.ref) && RefBlamed(e.ref, s.number, steps, e)
  {
    if GuardBlamed(s, steps, floatOf, e) {
      RefBlamedIs(ParseCondition(s.when.value, floatOf).value.ref, s.number, steps, e);
    }
  }

  lemma RefIsBlamed(s: PlanStep, spec: ToolSpec, steps: seq<PlanStep>, pol: Policy, e: PlanError)
    requires AboutRef(e)
    ensures PartsBlamed(s, spec, steps, pol, e) <==>
            Mentions(s, spec, pol.floatOf, e.ref) && RefBlamed(e.ref, s.number, steps, e)
  {
    ArgRefBlamed(s, spec, steps, e);
    GuardRefBlamed(s, steps, pol.floatOf, e);
  }

  lemma NotAboutRef(text: string, n: int, steps: seq<PlanStep>, e: PlanError)
    requires !AboutRef(e)
    ensures !RefBlamed(text, n, steps, e)
  {
  }

  lemma OtherArgBlamed(a: Arg, fields: map<string, Annotation>, n: int, steps: seq<PlanStep>, e: PlanError)
    requires !AboutRef(e)
    ensures ArgBlamed(a, fields, n, steps, e) <==> a.key !in fields && e == UnknownArg(n, a.key)
  {
    if Dollar(a.value) { NotAboutRef(a.value.s, n, steps, e); }
  }

  lemma OtherArgsBlamed(s: PlanStep, spec: ToolSpec, steps: seq<PlanStep>, e: PlanError)
    requires !AboutRef(e)
    ensures ArgsBlamed(s.args, spec.fields, s.number, steps, e) <==>
            e.UnknownArg? && e.step == s.number && e.key !in spec.fields && exists a :: a in s.args && a.key == e.key
  {
    forall a ensures ArgBlamed(a, spec.fields, s.number, steps, e) <==> a.key !in spec.fields && e == UnknownArg(s.number, a.key) {
      OtherArgBlamed(a, spec.fields, s.number, steps, e);
    }
  }

  lemma OtherGuardBlamed(s: PlanStep, steps: seq<PlanStep>, floatOf: FloatReader, e: PlanError)
    requires !AboutRef(e)
    ensures GuardBlamed(s, steps, floatOf, e) <==>
            WithGuard(s) && ParseCondition(s.when.value, floatOf).None? && e == MalformedGuard(s.number)
  {
    if WithGuard(s) && ParseCondition(s.when.value, floatOf).Some? {
      NotAboutRef(ParseCondition(s.when.value, floatOf).value.ref, s.number, steps, e);
    }
  }

  lemma PartsAreBlamed(s: PlanStep, steps: seq<PlanStep>, reg: Registry, pol: Policy, e: PlanError)
    requires s.tool in reg
    ensures PartsBlamed(s, reg[s.tool], steps, pol, e) <==> StepBlamed(s, steps, reg, pol, e)
  {
    if AboutRef(e) {
      RefIsBlamed(s, reg[s.tool], steps, pol, e);
    } else {
      OtherArgsBlamed(s, reg[s.tool], steps, e);
      OtherGuardBlamed(s, steps, pol.floatOf, e);
    }
  }

  lemma StepErrorsExactly(s: PlanStep, steps: seq<PlanStep>, reg: Registry, pol: Policy, e: PlanError)
    ensures e in StepErrors(s, StepNumbers(steps), reg, pol) <==> StepBlamed(s, steps, reg, pol, e)
  {
    if s.tool in reg {
      StepErrorsParts(s, steps, reg, pol, e);
      PartsAreBlamed(s, steps, reg, pol, e);
    }
  }

  lemma {:induction false} StepsErrorsExactly(steps: seq<PlanStep>, all: seq<PlanStep>, reg: Registry, pol: Policy, e: PlanError)
    ensures e in StepsErrors(steps, StepNumbers(all), reg, pol) <==> exists s :: s in steps && StepBlamed(s, all, reg, pol, e)
  {
    if steps != [] {
      var init, s := steps[..|steps|-1], steps[|steps|-1];
      assert steps == init + [s];
      StepsErrorsExactly(init, all, reg, pol, e);
      StepErrorsExactly(s, all, reg, pol, e);
    }
  }

  /** The checker reports an error exactly when the plan is to blame for it. */
  lemma ReportsExactly(plan: WorkflowPlan, reg: Registry, pol: Policy, e: PlanError)
    ensures e in Report(plan, reg, pol).errors <==> Blamed(plan, reg, pol, e)
  {
    StepsErrorsExactly(plan.steps, plan.steps, reg, pol, e);
  }
}
