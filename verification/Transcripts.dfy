/** What a run writes, row by row, stated from the rows themselves: which row a step gets after the rows before it.
    The executor's runs are proved to be exactly the transcripts in which every row is justified. */
module Transcripts {
  import opened Wrappers
  import opened Conditions
  import opened Feasibility
  import opened Store
  import opened Execution
  import opened References
  import opened Executor
  import Soundness

  // ------------------------------------------------------------ what the rows so far say

  /** The results on record: for each number, that of the last step that succeeded under it. */
  function ResultsIn(rows: seq<StepRow>): Results {
    if rows == [] then map[]
    else
      var before, last := ResultsIn(rows[..|rows|-1]), rows[|rows|-1].outcome;
      if last.status.StepOk? then before[last.number := last.status.result] else before
  }

  function SkippedIn(rows: seq<StepRow>): set<int> {
    set i | 0 <= i < |rows| && rows[i].outcome.status.StepSkipped? :: rows[i].outcome.number
  }

  /** How many tools have run. */
  function CallsIn(rows: seq<StepRow>): nat {
    if rows == [] then 0
    else CallsIn(rows[..|rows|-1]) + if rows[|rows|-1].outcome.status.StepOk? then 1 else 0
  }

  // ------------------------------------------------------------ which row a step gets

  /** A reference among the step's arguments, or its guard's, spells step `n`. */
  ghost predicate RefersTo(s: PlanStep, n: int, floatOf: FloatReader) {
    (exists a | a in s.args :: Dollar(a.value) && SpellsStep(a.value.s, n)) || GuardRefersTo(s, n, floatOf)
  }

  ghost predicate SpellsStep(text: string, n: int) { exists r :: Spells(text, r) && r.step.Some? && r.step.value == n }

  predicate HasGuard(s: PlanStep) { s.when.Some? && s.when.value != "" }

  ghost predicate GuardRefersTo(s: PlanStep, n: int, floatOf: FloatReader) {
    HasGuard(s) && ParseCondition(s.when.value, floatOf).Some? &&
    SpellsStep(ParseCondition(s.when.value, floatOf).value.ref, n)
  }

  /** The guard's comparison, on the value that its reference reads, comes out as `b`. */
  ghost predicate GuardGives(s: PlanStep, trigger: Trigger, results: Results, floatOf: FloatReader, b: bool) {
    HasGuard(s) && ParseCondition(s.when.value, floatOf).Some? &&
    var c := ParseCondition(s.when.value, floatOf).value;
    exists y :: Reads(c.ref, trigger, results, y) && Compare(y, c.op, c.literal, floatOf) == Some(b)
  }

  ghost predicate GuardAllows(s: PlanStep, trigger: Trigger, results: Results, floatOf: FloatReader) {
    !HasGuard(s) || GuardGives(s, trigger, results, floatOf, true)
  }

  /** The guard cannot be read, its reference reads nothing, or what it reads cannot be compared. */
  ghost predicate GuardBroken(s: PlanStep, trigger: Trigger, results: Results, floatOf: FloatReader, cause: Cause) {
    HasGuard(s) &&
    match ParseCondition(s.when.value, floatOf)
    case None => cause == GuardMalformed
    case Some(c) =>
      Refused(c.ref, trigger, results, cause) ||
      (cause == Incomparable && exists y :: Reads(c.ref, trigger, results, y) && Compare(y, c.op, c.literal, floatOf) == None)
  }

  /** The tool is registered, its schema accepts the arguments, and the call returns `x`. */
  predicate Returns(w: World, k: nat, tool: string, args: Args, x: Value) {
    tool in w.reg && w.reg[tool].accepts(args) && w.call(k, tool, args) == Ok(x)
  }

  predicate CallFails(w: World, k: nat, tool: string, args: Args, cause: Cause) {
    match cause
    case UnknownToolCall(t) => t == tool && tool !in w.reg
    case ArgsRejected => tool in w.reg && !w.reg[tool].accepts(args)
    case ToolRaised(m) => tool in w.reg && w.reg[tool].accepts(args) && w.call(k, tool, args) == Err(m)
    case _ => false
  }

  ghost predicate BodyFails(w: World, k: nat, s: PlanStep, trigger: Trigger, results: Results, cause: Cause) {
    Undeliverable(s.args, trigger, results, cause) ||
    exists out :: Delivered(s.args, trigger, results, out) && CallFails(w, k, s.tool, out, cause)
  }

  ghost predicate Free(s: PlanStep, skipped: set<int>, floatOf: FloatReader) {
    forall n | n in skipped :: !RefersTo(s, n, floatOf)
  }

  /** Just these of the skipped steps are referred to. */
  ghost predicate BlockedBy(s: PlanStep, skipped: set<int>, floatOf: FloatReader, blocked: set<int>) {
    forall n :: n in blocked <==> n in skipped && RefersTo(s, n, floatOf)
  }

  /** `row` is what step `s` leaves behind after the rows `before`. */
  ghost predicate Justified(w: World, trigger: Trigger, before: seq<StepRow>, s: PlanStep, row: StepRow) {
    var results, skipped, k := ResultsIn(before), SkippedIn(before), CallsIn(before);
    var free := Free(s, skipped, w.floatOf);
    row.outcome.number == s.number && row.outcome.tool == s.tool &&
    (!row.outcome.status.StepOk? ==> row.args == s.args) &&
    match row.outcome.status
    case StepSkipped(DependsOnSkipped(blocked)) => !free && BlockedBy(s, skipped, w.floatOf, blocked)
    case StepSkipped(GuardFalse) => free && GuardGives(s, trigger, results, w.floatOf, false)
    case StepOk(x) =>
      free && GuardAllows(s, trigger, results, w.floatOf) && Delivered(s.args, trigger, results, row.args) &&
      Returns(w, k, s.tool, row.args, x)
    case StepError(e) =>
      free && if e.inGuard then GuardBroken(s, trigger, results, w.floatOf, e.cause)
              else GuardAllows(s, trigger, results, w.floatOf) && BodyFails(w, k, s, trigger, results, e.cause)
  }

  // ------------------------------------------------------------ the executor's verdict, part by part

  lemma StepSpelled(text: string, n: int)
    ensures n in RefStep(text) <==> SpellsStep(text, n)
  {
    var m := MatchRef(text);
    if m.Some? { MatchesExactly(text, m.value); }
    if SpellsStep(text, n) {
      var r :| Spells(text, r) && r.step.Some? && r.step.value == n;
      MatchesExactly(text, r);
    }
  }

  ghost predicate ArgRefersTo(args: Args, n: int) { exists a | a in args :: Dollar(a.value) && SpellsStep(a.value.s, n) }

  lemma {:induction false} ArgRefsExactly(args: Args, n: int)
    ensures n in ArgRefs(args) <==> ArgRefersTo(args, n)
  {
    if args != [] {
      var init, a := args[..|args|-1], args[|args|-1];
      assert args == init + [a];
      ArgRefsExactly(init, n);
      if Dollar(a.value) { StepSpelled(a.value.s, n); }
      DollarIsRef(a.value);
      ArgRefersLast(init, a, n);
    }
  }

  lemma ArgRefersLast(init: Args, a: Arg, n: int)
    ensures ArgRefersTo(init + [a], n) <==> ArgRefersTo(init, n) || (Dollar(a.value) && SpellsStep(a.value.s, n))
  {
    var args := init + [a];
    assert forall x :: x in args <==> x in init || x == a;
  }

  lemma RefersExactly(s: PlanStep, n: int, floatOf: FloatReader)
    ensures n in Refs(s, floatOf) <==> RefersTo(s, n, floatOf)
  {
    ArgRefsExactly(s.args, n);
    var g := GuardOf(s, floatOf);
    if g.When? { StepSpelled(g.c.ref, n); }
  }

  /** A condition on a value, as the executor takes it. */
  lemma ConditionExactly(c: Condition, trigger: Trigger, results: Results, floatOf: FloatReader, b: bool)
    ensures GuardPasses(When(c), trigger, results, floatOf) == Ok(b) <==>
            exists y :: Reads(c.ref, trigger, results, y) && Compare(y, c.op, c.literal, floatOf) == Some(b)
  {
    var left := ResolveRef(c.ref, trigger, results);
    if left.Ok? { ResolvedExactly(c.ref, trigger, results, left.value); }
    if y :| Reads(c.ref, trigger, results, y) && Compare(y, c.op, c.literal, floatOf) == Some(b) {
      ResolvedExactly(c.ref, trigger, results, y);
    }
  }

  lemma GuardPassesExactly(s: PlanStep, trigger: Trigger, results: Results, floatOf: FloatReader, b: bool)
    ensures GuardPasses(GuardOf(s, floatOf), trigger, results, floatOf) == Ok(b) <==>
            GuardGives(s, trigger, results, floatOf, b) || (b && !HasGuard(s))
  {
    var g := GuardOf(s, floatOf);
    if g.When? { ConditionExactly(g.c, trigger, results, floatOf, b); }
  }

  lemma ConditionFailsExactly(c: Condition, trigger: Trigger, results: Results, floatOf: FloatReader, cause: Cause)
    ensures GuardPasses(When(c), trigger, results, floatOf) == Err(cause) <==>
            Refused(c.ref, trigger, results, cause) ||
            (cause == Incomparable && exists y :: Reads(c.ref, trigger, results, y) && Compare(y, c.op, c.literal, floatOf) == None)
  {
    var left := ResolveRef(c.ref, trigger, results);
    RefusedExactly(c.ref, trigger, results, cause);
    if left.Ok? { ResolvedExactly(c.ref, trigger, results, left.value); }
    forall y | Reads(c.ref, trigger, results, y) ensures left == Ok(y) { ResolvedExactly(c.ref, trigger, results, y); }
  }

  lemma GuardFailsExactly(s: PlanStep, trigger: Trigger, results: Results, floatOf: FloatReader, cause: Cause)
    ensures GuardPasses(GuardOf(s, floatOf), trigger, results, floatOf) == Err(cause) <==>
            GuardBroken(s, trigger, results, floatOf, cause)
  {
    var g := GuardOf(s, floatOf);
    if g.When? { ConditionFailsExactly(g.c, trigger, results, floatOf, cause); }
  }

  lemma DispatchExactly(w: World, k: nat, tool: string, args: Args)
    ensures forall x :: Dispatch(w, k, tool, args) == Ok(x) <==> Returns(w, k, tool, args, x)
    ensures forall c :: Dispatch(w, k, tool, args) == Err(c) <==> CallFails(w, k, tool, args, c)
  {
  }

  /** The arguments and the call, as the verdict takes them. */
  function Body(w: World, k: nat, s: PlanStep, trigger: Trigger, results: Results): Result<(Args, Value), Cause> {
    match ResolveArgs(s.args, trigger, results)
    case Err(e) => Err(e)
    case Ok(args) => match Dispatch(w, k, s.tool, args) case Err(e) => Err(e) case Ok(x) => Ok((args, x))
  }

  lemma BodyExactly(w: World, k: nat, s: PlanStep, trigger: Trigger, results: Results, args: Args, x: Value)
    ensures Body(w, k, s, trigger, results) == Ok((args, x)) <==>
            Delivered(s.args, trigger, results, args) && Returns(w, k, s.tool, args, x)
  {
    DeliveredExactly(s.args, trigger, results, args);
    DispatchExactly(w, k, s.tool, args);
  }

  lemma BodyFailsExactly(w: World, k: nat, s: PlanStep, trigger: Trigger, results: Results, cause: Cause)
    ensures Body(w, k, s, trigger, results) == Err(cause) <==> BodyFails(w, k, s, trigger, results, cause)
  {
    var r := ResolveArgs(s.args, trigger, results);
    UndeliverableExactly(s.args, trigger, results, cause);
    if r.Ok? {
      DeliveredExactly(s.args, trigger, results, r.value);
      DispatchExactly(w, k, s.tool, r.value);
    }
    forall out | Delivered(s.args, trigger, results, out) ensures r == Ok(out) {
      DeliveredExactly(s.args, trigger, results, out);
    }
  }

  /** The row, from the parts of the verdict. */
  function RowFrom(s: PlanStep, blocked: set<int>, guard: Result<bool, Cause>, body: Result<(Args, Value), Cause>): StepRow {
    if blocked != {} then StepRow(s.args, Outcome(s.number, s.tool, StepSkipped(DependsOnSkipped(blocked))))
    else match guard
      case Err(e) => StepRow(s.args, Outcome(s.number, s.tool, StepError(RunError(true, e))))
      case Ok(false) => StepRow(s.args, Outcome(s.number, s.tool, StepSkipped(GuardFalse)))
      case Ok(true) =>
        match body
        case Err(e) => StepRow(s.args, Outcome(s.number, s.tool, StepError(RunError(false, e))))
        case Ok((args, x)) => StepRow(args, Outcome(s.number, s.tool, StepOk(x)))
  }

  lemma VerdictParts(w: World, trigger: Trigger, k: nat, s: PlanStep, results: Results, skipped: set<int>)
    ensures RowOf(s, Evaluate(w, trigger, k, s, results, skipped)) ==
            RowFrom(s, Refs(s, w.floatOf) * skipped, GuardPasses(GuardOf(s, w.floatOf), trigger, results, w.floatOf),
                    Body(w, k, s, trigger, results))
  {
  }

  /** What the parts say about a row: the justification with the parts in place of the relations. */
  predicate PartsJustify(s: PlanStep, blocked: set<int>, guard: Result<bool, Cause>, body: Result<(Args, Value), Cause>, row: StepRow) {
    row.outcome.number == s.number && row.outcome.tool == s.tool &&
    (!row.outcome.status.StepOk? ==> row.args == s.args) &&
    match row.outcome.status
    case StepSkipped(DependsOnSkipped(b)) => b != {} && b == blocked
    case StepSkipped(GuardFalse) => blocked == {} && guard == Ok(false)
    case StepOk(x) => blocked == {} && guard == Ok(true) && body == Ok((row.args, x))
    case StepError(e) =>
      blocked == {} && if e.inGuard then guard == Err(e.cause) else guard == Ok(true) && body == Err(e.cause)
  }

  lemma PartsExactly(s: PlanStep, blocked: set<int>, guard: Result<bool, Cause>, body: Result<(Args, Value), Cause>, row: StepRow)
    ensures PartsJustify(s, blocked, guard, body, row) <==> row == RowFrom(s, blocked, guard, body)
  {
  }

  lemma BlockedExactly(s: PlanStep, skipped: set<int>, floatOf: FloatReader, blocked: set<int>)
    ensures BlockedBy(s, skipped, floatOf, blocked) <==> blocked == Refs(s, floatOf) * skipped
  {
    var mine := Refs(s, floatOf) * skipped;
    forall n ensures n in mine <==> n in skipped && RefersTo(s, n, floatOf) { RefersExactly(s, n, floatOf); }
    if BlockedBy(s, skipped, floatOf, blocked) {
      forall n ensures n in blocked <==> n in mine {}
      assert blocked == mine;
    }
  }

  lemma FreeExactly(s: PlanStep, skipped: set<int>, floatOf: FloatReader)
    ensures Free(s, skipped, floatOf) <==> Refs(s, floatOf) * skipped == {}
  {
    BlockedExactly(s, skipped, floatOf, {});
  }

  lemma SkipParts(w: World, trigger: Trigger, before: seq<StepRow>, s: PlanStep, row: StepRow, blocked: set<int>,
                  guard: Result<bool, Cause>, body: Result<(Args, Value), Cause>)
    requires row.outcome.status.StepSkipped? && blocked == Refs(s, w.floatOf) * SkippedIn(before)
    requires guard == GuardPasses(GuardOf(s, w.floatOf), trigger, ResultsIn(before), w.floatOf)
    ensures Justified(w, trigger, before, s, row) <==> PartsJustify(s, blocked, guard, body, row)
  {
    FreeExactly(s, SkippedIn(before), w.floatOf);
    GuardPassesExactly(s, trigger, ResultsIn(before), w.floatOf, false);
    if row.outcome.status.reason.DependsOnSkipped? {
      BlockedExactly(s, SkippedIn(before), w.floatOf, row.outcome.status.reason.steps);
    }
  }

  lemma OkParts(w: World, trigger: Trigger, before: seq<StepRow>, s: PlanStep, row: StepRow, blocked: set<int>,
                guard: Result<bool, Cause>, body: Result<(Args, Value), Cause>)
    requires row.outcome.status.StepOk? && blocked == Refs(s, w.floatOf) * SkippedIn(before)
    requires guard == GuardPasses(GuardOf(s, w.floatOf), trigger, ResultsIn(before), w.floatOf)
    requires body == Body(w, CallsIn(before), s, trigger, ResultsIn(before))
    ensures Justified(w, trigger, before, s, row) <==> PartsJustify(s, blocked, guard, body, row)
  {
    FreeExactly(s, SkippedIn(before), w.floatOf);
    GuardPassesExactly(s, trigger, ResultsIn(before), w.floatOf, true);
    BodyExactly(w, CallsIn(before), s, trigger, ResultsIn(before), row.args, row.outcome.status.result);
  }

  lemma ErrorParts(w: World, trigger: Trigger, before: seq<StepRow>, s: PlanStep, row: StepRow, blocked: set<int>,
                   guard: Result<bool, Cause>, body: Result<(Args, Value), Cause>)
    requires row.outcome.status.StepError? && blocked == Refs(s, w.floatOf) * SkippedIn(before)
    requires guard == GuardPasses(GuardOf(s, w.floatOf), trigger, ResultsIn(before), w.floatOf)
    requires body == Body(w, CallsIn(before), s, trigger, ResultsIn(before))
    ensures Justified(w, trigger, before, s, row) <==> PartsJustify(s, blocked, guard, body, row)
  {
    FreeExactly(s, SkippedIn(before), w.floatOf);
    GuardPassesExactly(s, trigger, ResultsIn(before), w.floatOf, true);
    GuardFailsExactly(s, trigger, ResultsIn(before), w.floatOf, row.outcome.status.error.cause);
    BodyFailsExactly(w, CallsIn(before), s, trigger, ResultsIn(before), row.outcome.status.error.cause);
  }

  lemma JustifiedParts(w: World, trigger: Trigger, before: seq<StepRow>, s: PlanStep, row: StepRow, blocked: set<int>,
                       guard: Result<bool, Cause>, body: Result<(Args, Value), Cause>)
    requires blocked == Refs(s, w.floatOf) * SkippedIn(before)
    requires guard == GuardPasses(GuardOf(s, w.floatOf), trigger, ResultsIn(before), w.floatOf)
    requires body == Body(w, CallsIn(before), s, trigger, ResultsIn(before))
    ensures Justified(w, trigger, before, s, row) <==> PartsJustify(s, blocked, guard, body, row)
  {
    match row.outcome.status
    case StepSkipped(_) => SkipParts(w, trigger, before, s, row, blocked, guard, body);
    case StepOk(_) => OkParts(w, trigger, before, s, row, blocked, guard, body);
    case StepError(_) => ErrorParts(w, trigger, before, s, row, blocked, guard, body);
  }

  /** One row: the executor's verdict is the only justified one. */
  lemma JustifiedExactly(w: World, trigger: Trigger, before: seq<StepRow>, s: PlanStep, row: StepRow)
    ensures Justified(w, trigger, before, s, row) <==>
            row == RowOf(s, Evaluate(w, trigger, CallsIn(before), s, ResultsIn(before), SkippedIn(before)))
  {
    var blocked := Refs(s, w.floatOf) * SkippedIn(before);
    var guard := GuardPasses(GuardOf(s, w.floatOf), trigger, ResultsIn(before), w.floatOf);
    var body := Body(w, CallsIn(before), s, trigger, ResultsIn(before));
    JustifiedParts(w, trigger, before, s, row, blocked, guard, body);
    VerdictParts(w, trigger, CallsIn(before), s, ResultsIn(before), SkippedIn(before));
    PartsExactly(s, blocked, guard, body, row);
  }

  // ------------------------------------------------------------ whole runs

  predicate IsError(row: StepRow) { row.outcome.status.StepError? }

  /** Which row may follow which rows, for which step. */
  type Rule = (seq<StepRow>, PlanStep, StepRow) -> bool

  ghost function RuleOf(w: World, trigger: Trigger): Rule {
    (before: seq<StepRow>, s: PlanStep, row: StepRow) => Justified(w, trigger, before, s, row)
  }

  /** Every row is justified by the rows before it, no step follows an error, and none is left out otherwise. */
  ghost predicate Transcript(rule: Rule, steps: seq<PlanStep>, rows: seq<StepRow>) {
    |rows| <= |steps| &&
    (forall i | 0 <= i < |rows| :: rule(rows[..i], steps[i], rows[i])) &&
    (forall i | 0 <= i < |rows| - 1 :: !IsError(rows[i])) &&
    (|rows| < |steps| ==> rows != [] && IsError(rows[|rows|-1]))
  }

  /** The error that ended the run, if its last row is one. */
  function FailureIn(rows: seq<StepRow>): Option<RunError> {
    if rows != [] && IsError(rows[|rows|-1]) then Some(rows[|rows|-1].outcome.status.error) else None
  }

  /** The run's local state is what its rows say. */
  ghost predicate Mirrors(st: RunState) {
    st.results == ResultsIn(st.rows) && st.skipped == SkippedIn(st.rows) && st.calls == CallsIn(st.rows) &&
    st.failed == FailureIn(st.rows)
  }

  lemma SkippedLast(rows: seq<StepRow>, row: StepRow)
    ensures SkippedIn(rows + [row]) == SkippedIn(rows) + if row.outcome.status.StepSkipped? then {row.outcome.number} else {}
  {
    var all := rows + [row];
    assert all[|rows|] == row && forall i | 0 <= i < |rows| :: all[i] == rows[i];
    forall n | n in SkippedIn(rows) ensures n in SkippedIn(all) {
      var i :| 0 <= i < |rows| && rows[i].outcome.status.StepSkipped? && rows[i].outcome.number == n;
      assert all[i] == rows[i];
    }
  }

  lemma RowsLast(rows: seq<StepRow>, row: StepRow)
    ensures ResultsIn(rows + [row]) == (var o := row.outcome; if o.status.StepOk? then ResultsIn(rows)[o.number := o.status.result] else ResultsIn(rows))
    ensures CallsIn(rows + [row]) == CallsIn(rows) + if row.outcome.status.StepOk? then 1 else 0
  {
    assert (rows + [row])[..|rows|] == rows;
  }

  lemma ApplyMirrors(s: PlanStep, v: Verdict, st: RunState)
    requires Mirrors(st) && st.failed.None?
    ensures Mirrors(Apply(s, v, st)) && Apply(s, v, st).rows == st.rows + [RowOf(s, v)]
  {
    var row := RowOf(s, v);
    SkippedLast(st.rows, row);
    RowsLast(st.rows, row);
    assert Apply(s, v, st).rows == st.rows + [row] && (st.rows + [row])[|st.rows|] == row;
  }

  lemma TranscriptExtend(rule: Rule, steps: seq<PlanStep>, rows: seq<StepRow>, s: PlanStep, row: StepRow)
    requires Transcript(rule, steps, rows) && (rows != [] ==> !IsError(rows[|rows|-1])) && rule(rows, s, row)
    ensures Transcript(rule, steps + [s], rows + [row])
  {
    var all, longer := rows + [row], steps + [s];
    assert |rows| == |steps|;
    forall i | 0 <= i < |all| ensures rule(all[..i], longer[i], all[i]) {
      assert all[..i] == rows[..i];
      assert i == |rows| ==> rows[..i] == rows;
    }
  }

  lemma TranscriptStopped(rule: Rule, steps: seq<PlanStep>, rows: seq<StepRow>, s: PlanStep)
    requires Transcript(rule, steps, rows) && rows != [] && IsError(rows[|rows|-1])
    ensures Transcript(rule, steps + [s], rows)
  {
    var longer := steps + [s];
    assert forall i | 0 <= i < |rows| :: longer[i] == steps[i];
  }

  ghost predicate Tells(rule: Rule, steps: seq<PlanStep>, st: RunState) { Mirrors(st) && Transcript(rule, steps, st.rows) }

  lemma TellsNext(w: World, trigger: Trigger, steps: seq<PlanStep>, s: PlanStep, st: RunState)
    requires Tells(RuleOf(w, trigger), steps, st) && st.failed.None?
    ensures Tells(RuleOf(w, trigger), steps + [s], Apply(s, EvaluatorOf(w, trigger)(st, s), st))
  {
    var v := Evaluate(w, trigger, st.calls, s, st.results, st.skipped);
    JustifiedExactly(w, trigger, st.rows, s, RowOf(s, v));
    TranscriptExtend(RuleOf(w, trigger), steps, st.rows, s, RowOf(s, v));
    ApplyMirrors(s, v, st);
  }

  /** The evaluator answers every state that mirrors its rows by the rule. */
  ghost predicate Obeys(eval: Evaluator, rule: Rule) {
    forall st: RunState, s: PlanStep, steps: seq<PlanStep> ::
      Tells(rule, steps, st) && st.failed.None? ==> Tells(rule, steps + [s], Apply(s, eval(st, s), st))
  }

  lemma {:induction false} RunTells(eval: Evaluator, rule: Rule, steps: seq<PlanStep>)
    requires Obeys(eval, rule)
    ensures Tells(rule, steps, RunSteps(eval, steps))
  {
    if steps != [] {
      var init, s := steps[..|steps|-1], steps[|steps|-1];
      RunTells(eval, rule, init);
      Soundness.RunExtend(eval, init, s);
      assert steps == init + [s];
      if RunSteps(eval, init).failed.Some? { TranscriptStopped(rule, init, RunSteps(eval, init).rows, s); }
    }
  }

  lemma RunIsTranscript(w: World, trigger: Trigger, steps: seq<PlanStep>)
    ensures var st := RunSteps(EvaluatorOf(w, trigger), steps);
            Transcript(RuleOf(w, trigger), steps, st.rows) && st.failed == FailureIn(st.rows)
  {
    var eval, rule := EvaluatorOf(w, trigger), RuleOf(w, trigger);
    forall st: RunState, s: PlanStep, before: seq<PlanStep> | Tells(rule, before, st) && st.failed.None?
      ensures Tells(rule, before + [s], Apply(s, eval(st, s), st))
    {
      TellsNext(w, trigger, before, s, st);
    }
    RunTells(eval, rule, steps);
  }

  /** At most one row may follow. */
  ghost predicate Decides(rule: Rule) {
    forall before, s, a, b :: rule(before, s, a) && rule(before, s, b) ==> a == b
  }

  lemma RuleDecides(w: World, trigger: Trigger)
    ensures Decides(RuleOf(w, trigger))
  {
    forall before, s, a, b | RuleOf(w, trigger)(before, s, a) && RuleOf(w, trigger)(before, s, b) ensures a == b {
      JustifiedExactly(w, trigger, before, s, a);
      JustifiedExactly(w, trigger, before, s, b);
    }
  }

  lemma PrefixGrows<T>(a: seq<T>, b: seq<T>, i: nat)
    requires i < |a| && i < |b|
    ensures a[..i] == b[..i] && a[i] == b[i] ==> a[..i+1] == b[..i+1]
  {
    assert a[..i+1] == a[..i] + [a[i]] && b[..i+1] == b[..i] + [b[i]];
  }

  lemma {:induction false} OnePrefix(rule: Rule, steps: seq<PlanStep>, a: seq<StepRow>, b: seq<StepRow>, i: nat)
    requires Decides(rule) && Transcript(rule, steps, a) && Transcript(rule, steps, b) && i <= |a| && i <= |b|
    ensures a[..i] == b[..i]
  {
    if i > 0 {
      OnePrefix(rule, steps, a, b, i - 1);
      assert rule(a[..i-1], steps[i-1], a[i-1]) && rule(b[..i-1], steps[i-1], b[i-1]);
      PrefixGrows(a, b, i - 1);
    }
  }

  lemma SameAt<T>(a: seq<T>, b: seq<T>, i: nat)
    requires i < |a| <= |b|
    ensures a[..|a|] == b[..|a|] ==> a[i] == b[i]
  {
    assert a[i] == a[..|a|][i] && b[i] == b[..|a|][i];
  }

  lemma OneLength(rule: Rule, steps: seq<PlanStep>, a: seq<StepRow>, b: seq<StepRow>)
    requires Decides(rule) && Transcript(rule, steps, a) && Transcript(rule, steps, b)
    ensures |b| <= |a|
  {
    if |a| < |b| {
      SameAt(a, b, |a| - 1);
      OnePrefix(rule, steps, a, b, |a|);
    }
  }

  /** The rows of a run are its one transcript: in number order, every row justified by the rows before it. */
  lemma RunIsTheTranscript(w: World, trigger: Trigger, steps: seq<PlanStep>, rows: seq<StepRow>)
    ensures Transcript(RuleOf(w, trigger), SortSteps(steps), rows) <==> rows == RunPlan(w, trigger, steps).rows
  {
    var rule, sorted, mine := RuleOf(w, trigger), SortSteps(steps), RunPlan(w, trigger, steps).rows;
    RunIsTranscript(w, trigger, sorted);
    RuleDecides(w, trigger);
    if Transcript(rule, sorted, rows) {
      OneLength(rule, sorted, rows, mine);
      OneLength(rule, sorted, mine, rows);
      OnePrefix(rule, sorted, rows, mine, |rows|);
      assert rows[..|rows|] == rows && mine[..|rows|] == mine;
    }
  }

  // ------------------------------------------------------------ the order of the steps

  /** The steps with number `n`, in list order. */
  function Numbered(steps: seq<PlanStep>, n: int): seq<PlanStep> {
    if steps == [] then []
    else Numbered(steps[..|steps|-1], n) + if steps[|steps|-1].number == n then [steps[|steps|-1]] else []
  }

  lemma {:induction false} NumberedConcat(a: seq<PlanStep>, b: seq<PlanStep>, n: int)
    ensures Numbered(a + b, n) == Numbered(a, n) + Numbered(b, n)
  {
    if b == [] {
      assert a + b == a;
    } else {
      NumberedConcat(a, b[..|b|-1], n);
      assert (a + b)[..|a+b|-1] == a + b[..|b|-1];
    }
  }

  lemma {:induction false} NumberedNone(steps: seq<PlanStep>, n: int)
    requires forall s | s in steps :: s.number != n
    ensures Numbered(steps, n) == []
  {
    if steps != [] {
      assert steps[|steps|-1] in steps && forall s | s in steps[..|steps|-1] :: s in steps;
      NumberedNone(steps[..|steps|-1], n);
    }
  }

  lemma MovedForward(a: seq<PlanStep>, s: PlanStep, b: seq<PlanStep>, n: int)
    requires s.number == n ==> forall t | t in b :: t.number != n
    ensures Numbered((a + [s]) + b, n) == Numbered((a + b) + [s], n)
  {
    NumberedConcat(a + [s], b, n);
    NumberedConcat(a, [s], n);
    NumberedConcat(a + b, [s], n);
    NumberedConcat(a, b, n);
    if s.number == n {
      NumberedNone(b, n);
    } else {
      NumberedNone([s], n);
    }
  }

  lemma InsertIsStable(steps: seq<PlanStep>, s: PlanStep, n: int)
    requires Ordered(steps)
    ensures Numbered(InsertStep(steps, s), n) == Numbered(steps + [s], n)
  {
    var k := InsertPos(steps, s.number);
    var a, b := steps[..k], steps[k..];
    assert steps == a + b;
    forall t | t in b ensures t.number != s.number {
      var i :| 0 <= i < |b| && b[i] == t;
      assert b[i] == steps[k+i];
    }
    MovedForward(a, s, b, n);
  }

  /** The steps are run in the order of their numbers, and steps that share one in the order of the plan. */
  lemma {:induction false} SortedStably(steps: seq<PlanStep>, n: int)
    ensures Ordered(SortSteps(steps)) && Numbered(SortSteps(steps), n) == Numbered(steps, n)
  {
    if steps != [] {
      var init, s := steps[..|steps|-1], steps[|steps|-1];
      SortedStably(init, n);
      InsertIsStable(SortSteps(init), s, n);
      NumberedConcat(SortSteps(init), [s], n);
      NumberedConcat(init, [s], n);
      assert steps == init + [s];
    }
  }

  // ------------------------------------------------------------ what is on record after a run

  /** A result on record stands in the row of its step. */
  lemma {:induction false} ResultOnRecord(rows: seq<StepRow>, n: int) returns (j: nat)
    requires n in ResultsIn(rows)
    ensures j < |rows| && rows[j].outcome.number == n && rows[j].outcome.status == StepOk(ResultsIn(rows)[n])
  {
    var init, last := rows[..|rows|-1], rows[|rows|-1].outcome;
    if last.status.StepOk? && last.number == n {
      j := |rows| - 1;
    } else {
      j := ResultOnRecord(init, n);
    }
  }

  /** The value that a reference reads in the rows stored for the run. */
  predicate ReadsOnRecord(db: Db, run: nat, trigger: Trigger, r: Ref, x: Value) {
    match r.step
    case None => Picks(Obj(trigger), r.field, x)
    case Some(n) =>
      (run, n) in db.steps && var status := db.steps[(run, n)].outcome.status;
      status.StepOk? && status.result != Null && Picks(status.result, r.field, x)
  }

  /** The text spells a reference, and `x` is what that reads in the stored rows. */
  ghost predicate TextReadsOnRecord(db: Db, run: nat, trigger: Trigger, text: string, x: Value) {
    exists r :: Spells(text, r) && ReadsOnRecord(db, run, trigger, r, x)
  }

  ghost predicate RowsStored(db: Db, run: nat, rows: seq<StepRow>) {
    (forall n :: (run, n) in db.steps <==> exists j :: 0 <= j < |rows| && rows[j].outcome.number == n) &&
    forall j | 0 <= j < |rows| ::
      (run, rows[j].outcome.number) in db.steps && db.steps[(run, rows[j].outcome.number)] == rows[j]
  }

  lemma ReadOnRecord(db: Db, run: nat, trigger: Trigger, rows: seq<StepRow>, i: nat, text: string, x: Value)
    requires RowsStored(db, run, rows) && i <= |rows| && Reads(text, trigger, ResultsIn(rows[..i]), x)
    ensures TextReadsOnRecord(db, run, trigger, text, x)
  {
    var results := ResultsIn(rows[..i]);
    var r, src :| Spells(text, r) && Source(r.step, trigger, results, src) && Picks(src, r.field, x);
    if r.step.Some? {
      var j := ResultOnRecord(rows[..i], r.step.value);
      assert rows[..i][j] == rows[j];
    }
    assert ReadsOnRecord(db, run, trigger, r, x);
  }

  /** The stored row of a step that succeeded: its arguments are the plan's, with every reference replaced by what it
      reads in the stored rows; its guard held for the value that it reads there; and the tool returned its result. */
  ghost predicate SucceededOnRecord(w: World, db: Db, run: nat, trigger: Trigger, s: PlanStep, row: StepRow) {
    row.outcome.status.StepOk? && row.outcome.tool == s.tool && |row.args| == |s.args| &&
    (forall i | 0 <= i < |s.args| ::
       row.args[i].key == s.args[i].key &&
       if Dollar(s.args[i].value) then TextReadsOnRecord(db, run, trigger, s.args[i].value.s, row.args[i].value)
       else row.args[i].value == s.args[i].value) &&
    (HasGuard(s) ==>
       ParseCondition(s.when.value, w.floatOf).Some? && var c := ParseCondition(s.when.value, w.floatOf).value;
       exists y :: TextReadsOnRecord(db, run, trigger, c.ref, y) && Compare(y, c.op, c.literal, w.floatOf) == Some(true)) &&
    exists k :: Returns(w, k, s.tool, row.args, row.outcome.status.result)
  }

  lemma JustifiedOnRecord(w: World, db: Db, run: nat, trigger: Trigger, rows: seq<StepRow>, i: nat, s: PlanStep)
    requires RowsStored(db, run, rows) && i < |rows| && rows[i].outcome.status.StepOk?
    requires Justified(w, trigger, rows[..i], s, rows[i])
    ensures SucceededOnRecord(w, db, run, trigger, s, rows[i])
  {
    var results, row := ResultsIn(rows[..i]), rows[i];
    forall k | 0 <= k < |s.args|
      ensures row.args[k].key == s.args[k].key
      ensures if Dollar(s.args[k].value) then TextReadsOnRecord(db, run, trigger, s.args[k].value.s, row.args[k].value)
              else row.args[k].value == s.args[k].value
    {
      assert Becomes(s.args[k].value, trigger, results, row.args[k].value);
      if Dollar(s.args[k].value) { ReadOnRecord(db, run, trigger, rows, i, s.args[k].value.s, row.args[k].value); }
    }
    if HasGuard(s) {
      var c := ParseCondition(s.when.value, w.floatOf).value;
      var y :| Reads(c.ref, trigger, results, y) && Compare(y, c.op, c.literal, w.floatOf) == Some(true);
      ReadOnRecord(db, run, trigger, rows, i, c.ref, y);
    }
    assert Returns(w, CallsIn(rows[..i]), s.tool, row.args, row.outcome.status.result);
  }

  lemma RowsAreStored(w: World, db: Db, wid: nat, plan: WorkflowPlan, trigger: Trigger, key: Option<string>)
    requires Soundness.DistinctNumbers(plan.steps) && StepsHaveRuns(db)
    requires ExecuteSpec(w, db, wid, plan, trigger, key).1.Ok?
    ensures RowsStored(ExecuteSpec(w, db, wid, plan, trigger, key).0, |db.runs|, RunPlan(w, trigger, plan.steps).rows)
  {
    var run, rows := |db.runs|, RunPlan(w, trigger, plan.steps).rows;
    Soundness.DistinctPermuted(plan.steps, SortSteps(plan.steps));
    RowNumbers(EvaluatorOf(w, trigger), SortSteps(plan.steps));
    forall n ensures (run, n) in Recorded(db.steps, run, rows) <==> exists j :: 0 <= j < |rows| && rows[j].outcome.number == n {
      RecordedRows(db.steps, run, rows, n);
    }
    forall j | 0 <= j < |rows|
      ensures (run, rows[j].outcome.number) in Recorded(db.steps, run, rows)
      ensures Recorded(db.steps, run, rows)[(run, rows[j].outcome.number)] == rows[j]
    {
      RecordedRows(db.steps, run, rows, rows[j].outcome.number);
    }
  }

  lemma SameNumber(steps: seq<PlanStep>, i: nat, s: PlanStep)
    requires Soundness.DistinctNumbers(steps) && s in steps && i < |steps| && steps[i].number == s.number
    ensures steps[i] == s
  {
    var j :| 0 <= j < |steps| && steps[j] == s;
  }

  lemma TranscriptOnRecord(w: World, db: Db, run: nat, trigger: Trigger, steps: seq<PlanStep>, rows: seq<StepRow>, s: PlanStep)
    requires RowsStored(db, run, rows) && Transcript(RuleOf(w, trigger), steps, rows)
    requires Soundness.DistinctNumbers(steps) && s in steps
    ensures (run, s.number) in db.steps && db.steps[(run, s.number)].outcome.status.StepOk? ==>
              SucceededOnRecord(w, db, run, trigger, s, db.steps[(run, s.number)])
  {
    if (run, s.number) in db.steps && db.steps[(run, s.number)].outcome.status.StepOk? {
      var i :| 0 <= i < |rows| && rows[i].outcome.number == s.number;
      assert RuleOf(w, trigger)(rows[..i], steps[i], rows[i]);
      SameNumber(steps, i, s);
      JustifiedOnRecord(w, db, run, trigger, rows, i, s);
    }
  }

  /** After a run of a plan with distinct numbers, every step on record as succeeded was called with the plan's
      arguments in their order, each reference read in the row of the step that it names, and passed its guard on the
      value read there. */
  lemma RecordedStepsRead(w: World, db: Db, wid: nat, plan: WorkflowPlan, trigger: Trigger, key: Option<string>, s: PlanStep)
    requires Soundness.DistinctNumbers(plan.steps) && StepsHaveRuns(db) && s in plan.steps
    requires ExecuteSpec(w, db, wid, plan, trigger, key).1.Ok?
    ensures var (db', run) := (ExecuteSpec(w, db, wid, plan, trigger, key).0, |db.runs|);
            (run, s.number) in db'.steps && db'.steps[(run, s.number)].outcome.status.StepOk? ==>
              SucceededOnRecord(w, db', run, trigger, s, db'.steps[(run, s.number)])
  {
    var db' := ExecuteSpec(w, db, wid, plan, trigger, key).0;
    var sorted, rows := SortSteps(plan.steps), RunPlan(w, trigger, plan.steps).rows;
    RowsAreStored(w, db, wid, plan, trigger, key);
    RunIsTranscript(w, trigger, sorted);
    Soundness.DistinctPermuted(plan.steps, sorted);
    Soundness.SortedMembers(plan.steps);
    TranscriptOnRecord(w, db', |db.runs|, trigger, sorted, rows, s);
  }

  // ------------------------------------------------------------ one execution

  /** `row` is the last of the rows with number `n`. */
  ghost predicate LastNumbered(rows: seq<StepRow>, n: int, row: StepRow) {
    exists j | 0 <= j < |rows| ::
      rows[j] == row && row.outcome.number == n && forall k | j < k < |rows| :: rows[k].outcome.number != n
  }

  /** The new rows are stored under the run, the last one for each number, and all others are as before. */
  ghost predicate StepsAdded(before: StepTable, after: StepTable, run: nat, rows: seq<StepRow>) {
    (forall k: (nat, int) | k !in after :: k !in before && forall j | 0 <= j < |rows| :: (run, rows[j].outcome.number) != k) &&
    forall k: (nat, int) | k in after ::
      (k.0 == run && LastNumbered(rows, k.1, after[k])) ||
      (k in before && after[k] == before[k] && forall j | 0 <= j < |rows| :: (run, rows[j].outcome.number) != k)
  }

  lemma {:induction false} RecordedAdds(table: StepTable, run: nat, rows: seq<StepRow>)
    ensures StepsAdded(table, Recorded(table, run, rows), run, rows)
  {
    if rows != [] {
      var init, last := rows[..|rows|-1], rows[|rows|-1];
      assert rows == init + [last];
      RecordedAdds(table, run, init);
      AddOneMore(table, Recorded(table, run, init), run, init, last);
    }
  }

  lemma LastStays(rows: seq<StepRow>, last: StepRow, n: int, row: StepRow)
    requires LastNumbered(rows, n, row) && last.outcome.number != n
    ensures LastNumbered(rows + [last], n, row)
  {
    var j :| 0 <= j < |rows| && rows[j] == row && row.outcome.number == n && forall k | j < k < |rows| :: rows[k].outcome.number != n;
    assert (rows + [last])[j] == row;
  }

  lemma AddOneMore(before: StepTable, after: StepTable, run: nat, rows: seq<StepRow>, last: StepRow)
    requires StepsAdded(before, after, run, rows)
    ensures StepsAdded(before, after[(run, last.outcome.number) := last], run, rows + [last])
  {
    var all, now := rows + [last], after[(run, last.outcome.number) := last];
    assert all[|rows|] == last && forall j | 0 <= j < |rows| :: all[j] == rows[j];
    forall k: (nat, int) | k in now
      ensures (k.0 == run && LastNumbered(all, k.1, now[k])) ||
              (k in before && now[k] == before[k] && forall j | 0 <= j < |all| :: (run, all[j].outcome.number) != k)
    {
      if k == (run, last.outcome.number) {
        assert LastNumbered(all, k.1, last);
      } else if k.0 == run && LastNumbered(rows, k.1, after[k]) {
        LastStays(rows, last, k.1, after[k]);
      }
    }
  }

  /** The database and the answer after the run with these rows: the workflow went through RUNNING to its end, one
      finished run was added, and its rows. */
  ghost predicate RunAdded(db: Db, db': Db, wid: nat, key: Option<string>, rows: seq<StepRow>, answer: RunResult)
    requires wid < |db.workflows|
  {
    var end := if FailureIn(rows).Some? then FAILED else COMPLETED;
    var row := db.workflows[wid];
    db'.workflows == db.workflows[wid := row.(state := end, trail := row.trail + [RUNNING, end])] &&
    db'.runs == db.runs + [RunRow(wid, key, end, true)] && StepsAdded(db.steps, db'.steps, |db.runs|, rows) &&
    answer == RunResult(|db.runs|, end, seq(|rows|, i requires 0 <= i < |rows| => rows[i].outcome), FailureIn(rows))
  }

  ghost predicate TakenKey(db: Db, wid: nat, key: Option<string>) {
    key.Some? && exists i | 0 <= i < |db.runs| :: db.runs[i].workflow == wid && db.runs[i].key == key
  }

  ghost predicate RanPlan(w: World, db: Db, db': Db, wid: nat, plan: WorkflowPlan, trigger: Trigger, key: Option<string>,
                          r: Result<RunResult, StoreError>)
    requires wid < |db.workflows|
  {
    r.Ok? && exists rows ::
      Transcript(RuleOf(w, trigger), SortSteps(plan.steps), rows) && RunAdded(db, db', wid, key, rows, r.value)
  }

  predicate Enterable(db: Db, wid: nat) { wid < |db.workflows| && db.workflows[wid].state in {READY, PAUSED} }

  lemma TakenKeyIs(db: Db, wid: nat, key: Option<string>)
    ensures TakenKey(db, wid, key) <==> KeyTaken(db, wid, key)
  {
  }

  lemma EnterableIs(db: Db, wid: nat, key: Option<string>)
    ensures Transition(InsertRun(db, wid, key), wid, RUNNING).Ok? <==> Enterable(db, wid)
    ensures !Enterable(db, wid) ==>
              Transition(InsertRun(db, wid, key), wid, RUNNING) ==
              Err(if wid >= |db.workflows| then NoWorkflow else InvalidTransition(db.workflows[wid].state, RUNNING))
  {
  }

  /** `execute`, whatever its arguments: a taken key changes nothing; a workflow that is missing, or in a state without
      an edge to RUNNING, leaves an unfinished run behind; otherwise the plan is run as its transcript says. */
  lemma ExecutesExactly(w: World, db: Db, wid: nat, plan: WorkflowPlan, trigger: Trigger, key: Option<string>)
    ensures var (db', r) := ExecuteSpec(w, db, wid, plan, trigger, key);
            if TakenKey(db, wid, key) then db' == db && r == Err(IntegrityError)
            else if !Enterable(db, wid) then
              db' == db.(runs := db.runs + [RunRow(wid, key, RUNNING, false)]) &&
              r == Err(if wid >= |db.workflows| then NoWorkflow else InvalidTransition(db.workflows[wid].state, RUNNING))
            else RanPlan(w, db, db', wid, plan, trigger, key, r)
  {
    TakenKeyIs(db, wid, key);
    EnterableIs(db, wid, key);
    if Enterable(db, wid) { FinishedRan(w, db, wid, plan, trigger, key); }
  }

  lemma FinishedRan(w: World, db: Db, wid: nat, plan: WorkflowPlan, trigger: Trigger, key: Option<string>)
    requires wid < |db.workflows|
    ensures var (db', r) := Finished(w, db, wid, plan, trigger, key); RanPlan(w, db, db', wid, plan, trigger, key, r)
  {
    FinishedAdds(w, db, wid, plan, trigger, key);
  }

  lemma FinishedAdds(w: World, db: Db, wid: nat, plan: WorkflowPlan, trigger: Trigger, key: Option<string>)
    requires wid < |db.workflows|
    ensures var (db', r) := Finished(w, db, wid, plan, trigger, key);
            var rows := RunPlan(w, trigger, plan.steps).rows;
            r.Ok? && Transcript(RuleOf(w, trigger), SortSteps(plan.steps), rows) && RunAdded(db, db', wid, key, rows, r.value)
  {
    var rows := RunPlan(w, trigger, plan.steps).rows;
    RunIsTranscript(w, trigger, SortSteps(plan.steps));
    RecordedAdds(db.steps, |db.runs|, rows);
    var row := db.workflows[wid];
    var end := EndState(RunPlan(w, trigger, plan.steps));
    assert Enter(Enter(row, RUNNING), end).trail == row.trail + [RUNNING, end];
  }
}
