# Verification of the fraud platform's decision logic

The platform puts a language model, a stream and a warehouse to work on card fraud. What can be verified is the code
fenced around them: the checker, interpreter, store and scheduler of the workflow engine, the SQL guard of the
dashboard, the redactor of agent traces, the chunker of policy documents, the circuit breaker, the router of the agent
supervisor, the online feature state and the evaluation counters. This project models that code and proves what it is
for. `dafny verify dfyconfig.toml` checks it.

## How it is organised

| file | content |
|---|---|
| `Wrappers`, `Text`, `Splitting` | option and result types; Python's string classes, runs, decimals, order, `split`, `strip`, `join` |
| `Conditions`, `Guards` | references and guards: matching, parsing, coercion, comparison; the grammar that the parser accepts |
| `Feasibility`, `Rejections` | the static checker of plans, the condition it decides, and what each of its errors stands for |
| `Store` | the workflow tables, the transition law, the unique run key |
| `Execution`, `Executor` | the interpreter as a function, and as a class that writes the store step by step |
| `References`, `Transcripts` | which value a reference reads, and which rows a run writes, stated without matcher, resolver or interpreter |
| `Soundness`, `NullResults` | checked plans cannot go wrong; a run is the dataflow evaluation of its references; when a `None` result stops one |
| `Calendar` | proleptic Gregorian dates, ISO weeks (section 4.1.4 of ISO 8601:2004), period keys, report windows |
| `Stamps` | keys, windows and fire times read back as the dates and times they show |
| `Engine`, `Histories`, `Gates` | requests as atomic steps, the invariant of every history, the theorems about histories |
| `Requests` | what every request does to the tables: rows, runs and jobs, and nothing else |
| `Service` | the scheduler and the API as classes, each method proved equal to its request |
| `FiringProtocol` | concurrent fires and manual runs broken into their smallest steps |
| `SqlGuard`, `SqlAcceptance` | the guard on query trees; acceptance and each refusal over the nodes that occur in a tree |
| `SqlMeaning` | a denotational semantics the guard is proved against, with the usual joins and selections (`JoinMeans`, `SelectMeans`) |
| `Scrubbing`, `WholeScrub` | `str.replace` for many values, one after another; exactly when the whole pass works |
| `Escaping`, `JsonText` | how `json.dumps` writes strings and values, and what replacing in the written form does |
| `Exposure` | which values are personal and what becomes of them, over places in nested JSON |
| `Redaction` | masking JSON, nested JSON and trace rows; what a redacted trace can still show |
| `Chunker` | cutting and packing a section |
| `Breaker` | the circuit breaker, its history and its load bound |
| `Router` | the supervisor's routing under arbitrary answers |
| `FeatureState` | the latest-per-user fold, the trusted location baseline, the geo rule |
| `Batches` | what a micro-batch leaves in the store, over its transactions and its messages |
| `Metrics` | confusion matrix, per-pattern table, calibration bins |

`References`, `Transcripts`, `Rejections`, `Guards`, `Requests`, `SqlAcceptance`, `Exposure`, `Batches` and `Stamps` say what
the operations do in terms of their own, and prove that the functions of the other modules are exactly that.

Code that updates objects is a class or a method with loops, proved against a function; the theorems are about that
function. Randomness, clocks, tool bodies, planner plans and model answers are parameters or arbitrary values.

## Main results

* Workflow engine: `CheckedPlanIsSound`, `RunIsTheTranscript`, `RecordedStepsRead`, `ExecutesExactly`, `RunIsDataflow`,
  `SkipsExactly`, `MissedStepExactly`, `ReportsExactly`, `GuardsExactly`.
* Every request: `ServesExactly`, `EventAddsRuns`.
* Every history of requests: `OnlyCheckedPlansRun`, `ApprovalPrecedesRuns`, `StateHistoriesArePaths`,
  `JobsAgreeWithStore`, `RestartIsUnobservable`, `FireYieldsOneRun`; the classes refine the requests (`Service`).
* Every interleaving: `AtMostOnce`, `ReservedFate`, `LostExactly`, `NoPeriodIsLost`.
* Calendar: `SameWeek`, `KeyIsBucket`, `PeriodsApart`, `WindowShows`.
* SQL guard: `AcceptsExactly`, `RefusesExactly`, `AcceptedReads`, `AcceptedIsNoninterfering`, `CapBoundsAlways`,
  `CapKeepsMeaningAlways`, `ValidateIsIdempotent`.
* Redactor: `RedactsExactly`, `WalkMasks`, `RedactedTraceIsClean`, `ScrubIsClean`, `WholeScrubIsExact`,
  `NeverSpelledExactly`, `ReplaceInDumpExactly`, `LoadedFieldIsClean`.
* Chunker: `ChunksAreBounded`, `ChunksHold`, `WordsAreKept`, `ChunksAreFewest`.
* Breaker and router: `StateIsHistory`, `LoadIsBounded`, `LoadBoundIsReached`, `EveryRunDecides`, `RunsExactly`.
* Feature state and counters: `StreamStoresLatest`, `BatchStoresWinners`, `StoredLocationsAreClean`,
  `StoredMovesArePlausible`, `TableAgreesWithConfusion`, `DetectionIsConserved`, `MeansAreConserved`.

## Where the code falls short of what it is documented to do

Each of these is proved at a concrete input, named first, and the condition under which the promise holds second.

* A CTE alias collected anywhere in a statement lets the same bare name through everywhere, also where it is out of
  scope and denotes a stored relation (`AliasOutOfScopeIsAccepted`, for any engine whose UNION has the rows of both
  sides). Accepted queries stay inside the allowlist exactly when every bare reference names a CTE in scope or an
  allowlisted relation (`AcceptedReads`), provided the functions they call do not read the database themselves
  (`ImpureFunctionIsAccepted` shows that this is needed).
* The row cap reads a LIMIT by the name of its node. `LIMIT 1 + 1000000`, in an engine that accepts a computed limit,
  reads as 1 and is returned uncapped (`ComputedLimitEscapes`), while `FETCH FIRST 5 ROWS ONLY` reads as nothing and is
  raised to the cap (`FetchIsRaised`). Over all ordinary engines and databases, the bound holds exactly when no limit
  shows a number within the cap and denotes one beyond it, or the query can never have more rows than the cap
  (`CapBoundsAlways`); the meaning is kept exactly when, besides, no smaller limit is raised that the query can have
  more rows than (`CapKeepsMeaningAlways`). A stored relation can offer any number of rows (`TableOffersAny`), a query
  without a source only one (`NoSourceOffersOne`).
* A scheduled fire that armed its workflow can be overtaken by a manual run between arming and entering RUNNING. Its
  period is reserved and never runs (`PeriodCanBeLost`, `LostForever`), exactly when the fire finds its workflow in a
  state from which RUNNING is not allowed (`LostExactly`). At-most-once still holds (`AtMostOnce`), and no period is lost
  while nothing moves a workflow away from READY between another process's arming and entering (`NoPeriodIsLost`).
* A tool that returns `None` reads as a step that has not run: a checked plan of two steps fails on it
  (`NullResultStopsCheckedPlan`), exactly when a guard or the first argument that cannot be resolved points at such a
  result (`MissedStepExactly`). It is the one failure of a checked plan that is not found in the data
  (`CheckedPlanIsSound`).
* Scrubbing brings "x[" back across the edge of its own token (`BracketsCanReturn`). Longest first, every text comes out
  clean with every token kept in every context exactly when all values are apart from all tokens: neither occurs in the
  other, and neither can begin inside the other and run past its end (`WholeScrubIsExact`, `SeparableExactly`). Values
  without brackets that occur in no token are (`PlainValuesAreApart`), and so is "a[b" (`InnerBracketIsApart`). That a
  text comes out clean needs less than that its tokens are kept as well: "[[" always goes (`DoubleBracketIsRemoved`), so
  for cleanness alone only one direction is stated (`ScrubIsClean`).
* The scrub compares raw text, and `json.dumps` writes characters outside printable ASCII as escape sequences.
  `{"name": "José", "note": "José"}` is redacted to a field from which whoever loads it still reads "José"
  (`EscapedValueSurvives`), and so it is for every value with such a character (`UnprintableSurvives`). Redacted text
  spells no string that holds a value exactly when the value's characters are written as themselves, apart from
  backslashes at its ends and a quote that only backslashes precede (`ShownExactly`, `NeverSpelledExactly`); every other
  value is held by some string that loads unchanged (`ConcealedValueReturns`). For a value written as itself, replacing
  in the dump is replacing in its strings exactly when no occurrence lies outside the strings or begins inside an escape
  sequence (`ReplaceInDumpExactly`); then the strings of the loaded field hold none of the values (`LoadedFieldIsClean`).
* Under the pattern GEO_JUMP, a section whose name has 177 words loses its body, and one whose name has 176 words raises
  `ValueError` (`LongHeaderLosesBody`); words are kept exactly when the header leaves room, the section fits or has no
  words (`WordsAreKept`).
* The trusted location baseline need not be a chain of plausible moves: after one row without a latitude, the user's
  next row becomes the baseline wherever it lies (`MissingCoordinateOpensBaseline`). The rule is on exactly when both
  sides have coordinates, the new ones are not zero, and time does not go back (`SuspectExactly`); over any run whose
  rows all have coordinates and run forward in time, the stored locations are such a chain (`StoredMovesArePlausible`).
  Where the documentation calls the stored location trusted, the model follows the code.
* In the "NONE" bucket a correct label need not have been detected (`NoneBucketDisagrees`). Detected patterns split into
  correct and mislabelled ones in every other bucket, and there exactly when no correct label went unsurfaced
  (`DetectionIsConserved`).

## Model

| member | source | states |
|---|---|---|
| Text.DecimalRoundTrip | fraud_platform/workflow_engine/conditions.py:46-59 | reading the decimal digits of a number gives the number back |
| Splitting.SplitThenJoin | fraud_platform/retrieval/chunker.py:199-202 | joining the pieces of `split(sep)` with `sep` gives the text back |
| Splitting.WordsConcat | fraud_platform/retrieval/chunker.py:164-165 | with white space at the seam, the words of a concatenation are the words of both parts |
| Splitting.WordsOfJoin | fraud_platform/retrieval/chunker.py:247-259 | joining pieces with white space keeps all their words in order |
| Splitting.WordsStrip | fraud_platform/retrieval/chunker.py:200 | stripping keeps the words |
| Conditions.RefRoundTrip | fraud_platform/workflow_engine/feasibility.py:36 | printing any reference and matching it gives the reference back |
| Conditions.RefPrefixIsWellFormed | fraud_platform/workflow_engine/conditions.py:33-36 | whatever prefix the guard grammar takes as its reference is, taken alone, a complete reference |
| Conditions.ParsedRefIsWellFormed | fraud_platform/workflow_engine/conditions.py:62-69 | every reference a parsed guard can carry is well formed for the executor and the checker |
| Conditions.ReadIntRoundTrip | fraud_platform/workflow_engine/conditions.py:52-55 | `int` undoes the printing of every integer, negative ones included |
| Conditions.ConditionRoundTrip | fraud_platform/workflow_engine/conditions.py:46-69 | parsing undoes printing for every reference, operator and int, bool, quoted, float or bare literal, with any white space around the three parts |
| Guards.GuardsExactly | fraud_platform/workflow_engine/conditions.py:33-69 | a text is parsed to a condition exactly when it is a reference, an operator and one quoted literal or token with white space around them, the longer of two operators taken; everything else is refused |
| Conditions.ComparisonLaws | fraud_platform/workflow_engine/conditions.py:72-83 | when two sides can be ordered, as numbers or as strings, exactly one of <, ==, > holds and the other three negate them; otherwise a string literal still answers == and !=, and all else is an error |
| Conditions.ReadIntOfDigits | fraud_platform/workflow_engine/conditions.py:52-55 | every run of digits is read as the number it denotes, with a sign or none |
| Conditions.UnderscoreIgnored | fraud_platform/workflow_engine/conditions.py:52-55 | a single underscore between digits changes nothing |
| Feasibility.CheckPlan | fraud_platform/workflow_engine/feasibility.py:70-145 | the checker's loops return the report the specification gives, errors in order, approval flag included |
| Feasibility.ReportIffAccepted | fraud_platform/workflow_engine/feasibility.py:54-145 | the report is ok exactly for plans that meet the declarative condition on steps, tools, arguments, references, guards and schedule |
| Rejections.ReportsExactly | fraud_platform/workflow_engine/feasibility.py:54-145 | the report holds an error exactly when the plan is to blame for it: each error with its condition on the plan |
| Rejections.CandidateExactly | fraud_platform/workflow_engine/feasibility.py:46-120 | the schema is put to the known arguments in order, a value of the annotated type standing in for every reference |
| Execution.EvaluateLocal | fraud_platform/workflow_engine/executor.py:60-108 | a step's outcome depends on earlier steps only through the steps its arguments and guard refer to |
| Execution.EvaluateSound | fraud_platform/workflow_engine/executor.py:137-184 | a checked step whose references are settled fails only on data, or on a result that is `None` |
| References.MatchesExactly | fraud_platform/workflow_engine/feasibility.py:36 | the pattern matches exactly "$trigger" or "$step_" and digits, perhaps with "." and an identifier and one line break |
| References.ResolvedExactly | fraud_platform/workflow_engine/executor.py:61-83 | a reference resolves to exactly the field, or without a field the whole, of the step's result or the trigger payload |
| References.RefusedExactly | fraud_platform/workflow_engine/executor.py:61-83 | it fails for exactly the reason that it reads nothing: not a reference, no result, not a dictionary, no such field |
| References.DeliveredExactly | fraud_platform/workflow_engine/executor.py:85-86 | resolving gives the same keys in the same order, non-references unchanged, every reference the value that it reads |
| References.UndeliverableExactly | fraud_platform/workflow_engine/executor.py:85-86 | it fails for the first argument that reads nothing, and for its reason |
| Transcripts.JustifiedExactly | fraud_platform/workflow_engine/executor.py:137-194 | a step gets exactly the row that the rows before it justify: skipped with the skipped steps it refers to, skipped by a guard false of the value read, called with the arguments delivered, or failed for its cause |
| Transcripts.RunIsTheTranscript | fraud_platform/workflow_engine/executor.py:124-197 | the rows of a run are the one list in number order in which every row is justified and an error ends the list |
| Transcripts.SortedStably | fraud_platform/workflow_engine/executor.py:137 | steps run in the order of their numbers, equal numbers in the order of the plan |
| Transcripts.RecordedStepsRead | fraud_platform/workflow_engine/executor.py:171-194 | every step on record as succeeded has the plan's keys in order, each `$step_N.f` equal to field f of the result in step N's row, and passed its guard on the value read there |
| Transcripts.ExecutesExactly | fraud_platform/workflow_engine/executor.py:111-197 | a taken key changes nothing; a workflow that cannot enter RUNNING leaves an unfinished run; otherwise the database and the result after the transcript are given in full |
| Soundness.SettledRun | fraud_platform/workflow_engine/executor.py:137-197 | in any run whose steps come after their dependencies, everything before the first failure has a result or is skipped |
| Soundness.AgreeingRun | fraud_platform/workflow_engine/executor.py:125-197 | a run whose steps evaluate to their meanings writes exactly those meanings, cut after the first failure |
| Soundness.CheckedPlanIsSound | fraud_platform/workflow_engine/feasibility.py:54-145 | whatever the tools do, in any list order and with repeated numbers, an accepted plan never stops on an unknown tool, a malformed reference or guard, or a step that has not run, except one whose tool returned `None` |
| Soundness.CheckedPlanNeverMissesAStep | fraud_platform/workflow_engine/executor.py:74-76 | with tools that never return `None`, an accepted plan fails only for reasons found in the data |
| NullResults.MissedStepExactly | fraud_platform/workflow_engine/executor.py:60-86 | a settled, unblocked step fails as "has not run" exactly when its guard points at a `None` result, or the guard holds and the first argument that cannot be resolved points at one |
| NullResults.NullResultStopsCheckedPlan | fraud_platform/workflow_engine/executor.py:74-76 | an accepted plan whose run fails on a step that did run and returned `None` |
| Soundness.RunIsDataflow | fraud_platform/workflow_engine/executor.py:111-197 | with distinct numbers and deterministic tools, the rows of a run are the recursive evaluation of the steps along their references, in number order, cut at the first error |
| Soundness.SkipsExactly | fraud_platform/workflow_engine/executor.py:140-167 | a step is skipped exactly when a step it refers to is skipped or its guard is false |
| Soundness.OrderIrrelevant | fraud_platform/workflow_engine/executor.py:137 | permuting the plan's list of steps changes nothing about the run |
| Executor.Executor.ReferencedSteps | fraud_platform/workflow_engine/executor.py:88-108 | the loop collects exactly the step numbers of the specification |
| Executor.Executor.RunLoop | fraud_platform/workflow_engine/executor.py:125-193 | the loop over the sorted steps, with its results, skipped set and checkpoints, equals the functional run and writes its rows only |
| Executor.Executor.Execute | fraud_platform/workflow_engine/executor.py:111-197 | reserve, enter RUNNING, run, finish: the whole new store and result, including a taken key and an illegal state |
| Executor.StoredRowsAreOutcomes | fraud_platform/workflow_engine/state.py:375-391 | with distinct numbers the stored rows of a run are its outcomes, one per step reached, and no other run's rows change |
| Store.EdgesAre | fraud_platform/workflow_engine/state.py:60-75 | the allowed edges, one by one |
| Store.WorkflowStore.StartRun | fraud_platform/workflow_engine/state.py:361-373 | the unique index rejects a second row for a workflow and key and changes nothing; otherwise one run row is added |
| Store.WorkflowStore.DoTransition | fraud_platform/workflow_engine/state.py:320-331 | the state changes along an allowed edge, or the error is returned and nothing changes |
| Calendar.FromOrdinalInverse | fraud_platform/workflow_engine/scheduler.py:57-67 | every day number is the number of a date: the calendar has no gaps |
| Calendar.OrdinalInjective | fraud_platform/workflow_engine/scheduler.py:57-67 | two valid dates with the same day number are the same date |
| Calendar.IsoWeekByThursday | fraud_platform/workflow_engine/scheduler.py:62-64 | `isocalendar` gives the year of the week's Thursday and counts weeks from that year's first Thursday, across all year boundaries |
| Calendar.SameWeek | fraud_platform/workflow_engine/scheduler.py:62-64 | two dates have the same ISO year and week exactly when they fall in the same Monday-to-Sunday week |
| Calendar.KeyIsBucket | fraud_platform/workflow_engine/scheduler.py:57-67 | two fires have equal keys exactly when they fall in the same hour, day or week |
| Calendar.PeriodsApart | fraud_platform/workflow_engine/scheduler.py:41-67 | fires a whole number of periods apart are that many buckets apart, so their keys differ |
| Calendar.WindowsAbut | fraud_platform/workflow_engine/scheduler.py:48-54 | the windows of fires one period apart abut |
| Stamps.WindowShows | fraud_platform/workflow_engine/scheduler.py:48-54 | a window shows the fire's second as its end and the instant one hour, week or day before as its start, or there is none before year 1 |
| Stamps.KeyShows | fraud_platform/workflow_engine/scheduler.py:57-67 | a key is the frequency, a colon, and the digits of the hour, the ISO week or the day |
| Stamps.FiredAtShows | fraud_platform/workflow_engine/scheduler.py:188-189 | the fire time shows the second, the microseconds in six digits unless there are none, and UTC |
| Histories.ServeSafe | fraud_platform/workflow_engine/api.py:161-255 | every request keeps the invariant on rows, runs, keys and jobs |
| Histories.HistorySafe | fraud_platform/workflow_engine/api.py:161-380 | the invariant holds after every history of requests |
| Requests.EventRunsTriggered | fraud_platform/workflow_engine/state.py:339-347 | an event runs once each, in table order, exactly the workflows with its trigger that are READY or COMPLETED and have a plan with steps, every run as its transcript says |
| Requests.EventAddsRuns | fraud_platform/workflow_engine/api.py:241-255 | it adds one finished run without a key for each of them after all earlier runs, and changes no other row and no job |
| Requests.ServesExactly | fraud_platform/workflow_engine/api.py:176-385 | every request does to rows, runs, step rows and jobs exactly what is said of it, on any engine |
| Gates.OnlyCheckedPlansRun | fraud_platform/workflow_engine/api.py:176-255 | after every history, each run belongs to a workflow whose stored plan meets the checker's condition |
| Gates.ApprovalPrecedesRuns | fraud_platform/workflow_engine/api.py:161-239 | a workflow created by POST /workflows with a plan that requires approval has a run only after an approve request that found it awaiting approval |
| Gates.ServeMoves | fraud_platform/workflow_engine/state.py:320-331 | one request loses no recorded state of any workflow, and every state it writes is an allowed edge from the one before, starting at SUBMITTED |
| Gates.StateHistoriesArePaths | fraud_platform/workflow_engine/state.py:57-88 | after every history, the states ever written to a workflow start at SUBMITTED, follow ALLOWED_TRANSITIONS edge by edge and end in its state |
| Gates.JobsAgreeWithStore | fraud_platform/workflow_engine/scheduler.py:100-157 | a running scheduler's jobs are exactly the store's eligible workflows with their stored schedules |
| Gates.RestartIsUnobservable | fraud_platform/workflow_engine/scheduler.py:99-125 | stopping and starting at any point leaves store and jobs as they were, and so does a second start |
| Gates.ScheduledRests | fraud_platform/workflow_engine/scheduler.py:70-79 | after every history a scheduled workflow rests in READY, COMPLETED or FAILED |
| Gates.FireYieldsOneRun | fraud_platform/workflow_engine/scheduler.py:165-208 | an unpaused fire in a period without a run adds exactly one finished run stamped with the period, and a second fire in that period changes nothing |
| Service.SchedulerRuntime.Reload | fraud_platform/workflow_engine/scheduler.py:112-125 | the loop registers every eligible workflow and keeps the other jobs |
| Service.SchedulerRuntime.Start | fraud_platform/workflow_engine/scheduler.py:100-105 | the whole new job table after a start, running or not before |
| Service.SchedulerRuntime.Pause | fraud_platform/workflow_engine/scheduler.py:148-152 | the workflow is marked paused and loses its job |
| Service.SchedulerRuntime.Resume | fraud_platform/workflow_engine/scheduler.py:154-157 | the workflow is unmarked and its stored schedule registered |
| Service.SchedulerRuntime.Arm | fraud_platform/workflow_engine/scheduler.py:70-79 | armed from READY, FEASIBLE, COMPLETED and FAILED only |
| Service.SchedulerRuntime.FireJob | fraud_platform/workflow_engine/scheduler.py:165-208 | a fire changes the store as the atomic request says, skipping paused, unscheduled, planless and already run periods, and runs exactly when it is due and the workflow can be armed |
| Service.WorkflowApi.CreateWorkflow | fraud_platform/workflow_engine/api.py:176-197 | equals the atomic request, each state write recorded: planned, checked, and ready, awaiting approval or rejected; left PLANNED when the planner raises |
| Service.WorkflowApi.Approve | fraud_platform/workflow_engine/api.py:217-226 | equals the atomic request, with its status codes |
| Service.WorkflowApi.ExecuteNow | fraud_platform/workflow_engine/api.py:228-239 | equals the atomic request, with its status codes |
| Service.WorkflowApi.FireEvent | fraud_platform/workflow_engine/api.py:241-255 | the loop over the workflows matched beforehand equals the atomic request |
| Service.WorkflowApi.ScheduleReport | fraud_platform/workflow_engine/api.py:306-336 | equals the atomic request: a plan that fails the check creates nothing |
| Service.WorkflowApi.DeliverReport | fraud_platform/workflow_engine/api.py:338-360 | equals the atomic request: created, run once, at rest |
| Service.WorkflowApi.Pause | fraud_platform/workflow_engine/api.py:362-368 | equals the atomic request, with its status codes |
| Service.WorkflowApi.Resume | fraud_platform/workflow_engine/api.py:370-380 | equals the atomic request, with its status codes |
| FiringProtocol.AtMostOnce | fraud_platform/workflow_engine/state.py:203-206 | under every interleaving of fires and manual runs, and even if every existence check is wrong, a workflow and key have at most one run row and all tool calls for it come from one process |
| FiringProtocol.PeriodCanBeLost | fraud_platform/workflow_engine/executor.py:122-124 | an interleaving in which a fire reserves its period and can never run it |
| FiringProtocol.LostForever | fraud_platform/workflow_engine/scheduler.py:178-198 | a lost period stays lost whatever happens next |
| FiringProtocol.ReservedFate | fraud_platform/workflow_engine/executor.py:122-124 | every reserved period has entered RUNNING, is about to, or is lost |
| FiringProtocol.NoPeriodIsLost | fraud_platform/workflow_engine/scheduler.py:178-198 | if no action moves a workflow away from READY while another process is between arming it and entering RUNNING, every reserved period has run, is running or is about to |
| FiringProtocol.LostExactly | fraud_platform/workflow_engine/state.py:320-331 | a fire that has reserved its period loses it exactly when it finds its workflow in a state from which RUNNING is not allowed |
| SqlAcceptance.AcceptsExactly | fraud_platform/bi_dashboard/sql_guard.py:103-203 | a read is accepted exactly when no refused function and no table outside alias and allowlist occurs in it at any depth; only its limit may change |
| SqlAcceptance.RefusesExactly | fraud_platform/bi_dashboard/sql_guard.py:103-203 | the exact cause of every refusal |
| SqlMeaning.AcceptedReads | fraud_platform/bi_dashboard/sql_guard.py:148-153 | an accepted query reads allowlisted relations only, exactly when each bare name is a CTE in scope or happens to be allowlisted |
| SqlMeaning.AcceptedIsNoninterfering | fraud_platform/bi_dashboard/sql_guard.py:148-203 | when bare names denote only CTEs and functions do not read the database, databases that agree on the allowlisted relations give an accepted query the same result, for any nesting |
| SqlMeaning.ImpureFunctionIsAccepted | fraud_platform/bi_dashboard/sql_guard.py:139-146 | a query that calls a database-reading function other than the two refused names is accepted and depends on what the function reads |
| SqlMeaning.AliasOutOfScopeIsAccepted | fraud_platform/bi_dashboard/sql_guard.py:176-180 | an accepted query that, under any UNION with the rows of both sides, shows a value held only by a relation outside the allowlist |
| SqlMeaning.CapBoundsExactly | fraud_platform/bi_dashboard/sql_guard.py:205-225 | the returned statement has at most the capped number of rows, unless and only unless its limit shows a number within the cap, denotes one beyond it, and there are more rows than the cap |
| SqlMeaning.CapBoundsAlways | fraud_platform/bi_dashboard/sql_guard.py:205-225 | over all ordinary engines and databases the bound holds exactly when the limit does not escape so, or the query can never have more rows than the cap |
| SqlMeaning.CapKeepsMeaning | fraud_platform/bi_dashboard/sql_guard.py:205-225 | the returned statement gives the first rows of the original up to the cap, unless and only unless an escaping limit meets more rows than the cap, or a limit below the cap that shows no number within it is raised and would have cut rows |
| SqlMeaning.CapKeepsMeaningAlways | fraud_platform/bi_dashboard/sql_guard.py:205-225 | over all ordinary engines and databases the meaning is kept exactly when no limit escapes or is raised that the query can have enough rows to feel |
| SqlMeaning.TableOffersAny | fraud_platform/bi_dashboard/sql_guard.py:205-225 | a query of a stored relation can have any number of rows before its limit, in some ordinary engine |
| SqlMeaning.NoSourceOffersOne | fraud_platform/bi_dashboard/sql_guard.py:205-225 | a query without a source has one row in every ordinary engine, so no limit of its can exceed a cap |
| SqlMeaning.ComputedLimitEscapes | fraud_platform/bi_dashboard/sql_guard.py:217-225 | `LIMIT 1 + 1000000` over an allowlisted relation is returned as it is and exceeds the cap |
| SqlMeaning.FetchIsRaised | fraud_platform/bi_dashboard/sql_guard.py:217-225 | `FETCH FIRST 5 ROWS ONLY` is raised to the cap and returns more rows than asked |
| SqlMeaning.CapKeepsLiterals | fraud_platform/bi_dashboard/sql_guard.py:217-225 | with an absent or literal limit the cap never changes the rows below it, and a literal within the cap is untouched |
| SqlMeaning.ValidateIsIdempotent | fraud_platform/workflow_engine/reports_catalog.py:111-126 | validating a returned statement again accepts it and returns it unchanged |
| SqlMeaning.ValidatedIsSafe | fraud_platform/bi_dashboard/sql_guard.py:103-160 | whatever `validate` returns depends on allowlisted relations only, and keeps within the cap exactly when its limit does not escape or there are not that many rows |
| Scrubbing.ReplaceCutsAndJoins | fraud_platform/observability/redaction.py:121-122 | replacing is cutting at the occurrences from the left and joining with the token |
| Scrubbing.PiecesAreFree | fraud_platform/observability/redaction.py:121-122 | no piece between two occurrences holds an occurrence |
| Scrubbing.NotReintroduced | fraud_platform/observability/redaction.py:117-123 | after one replacement the replaced word is gone, and no word apart from the token appears that was not there |
| Scrubbing.TokenSplits | fraud_platform/observability/redaction.py:117-123 | a token that the value is apart from splits the replacement into its two sides |
| Scrubbing.TokenKeptExactly | fraud_platform/observability/redaction.py:117-123 | a replacement leaves a token alone in every context exactly when value and token are apart |
| Scrubbing.ScrubIsClean | fraud_platform/observability/redaction.py:117-123 | with all values apart from all tokens, after replacing them in any order no nonempty value is left |
| Scrubbing.ScrubKeepsToken | fraud_platform/observability/redaction.py:117-123 | tokens in the text stay, and the text around them is scrubbed on its own |
| Scrubbing.ScrubbingIsExact | fraud_platform/observability/redaction.py:117-123 | every value is outside its own token and leaves every token alone in every context exactly when all values are apart from all tokens |
| WholeScrub.WholeScrubIsExact | fraud_platform/observability/redaction.py:117-123 | for any number of values longest first: all texts come out clean and all tokens are kept in all contexts, exactly when all values are apart from all tokens |
| Scrubbing.OneValueScrubIsExact | fraud_platform/observability/redaction.py:117-123 | for one value, every text comes out clean with its token kept in every context exactly when the two are apart |
| Scrubbing.PlainValuesAreApart | fraud_platform/observability/redaction.py:45-49 | bracket-free values are apart from all tokens exactly when none occurs inside one |
| Scrubbing.InnerBracketIsApart | fraud_platform/observability/redaction.py:45-49 | a value with a bracket inside is apart from every token |
| Scrubbing.EdgeBracketIsNotApart | fraud_platform/observability/redaction.py:45-49 | "x[" is apart from no token |
| Scrubbing.BracketsCanReturn | fraud_platform/observability/redaction.py:120-122 | a value with a bracket that is brought back across a token's edge |
| Scrubbing.DoubleBracketIsRemoved | fraud_platform/observability/redaction.py:120-122 | a value that is apart from no token, yet never survives its own replacement |
| Exposure.CollectsExactly | fraud_platform/observability/redaction.py:92-115 | collected is the text of every non-null value under a personal key, at any depth of arrays, objects and strings that are JSON containers, unless it lies in another personal value, and nothing else |
| Exposure.WalkMasks | fraud_platform/observability/redaction.py:92-115 | after the walk each of these places holds its token, and every other place what it held, keys in order |
| Exposure.RedactsExactly | fraud_platform/observability/redaction.py:57-90 | a redacted trace keeps its columns; the three text fields are masked and scrubbed of exactly the values exposed anywhere in the trace, the others are as they were |
| Redaction.MaskingIsComplete | fraud_platform/observability/redaction.py:92-115 | after the walk every personal key at every depth, also in JSON nested in strings, holds null or the token of a collected value |
| Redaction.MaskingKeepsTheRest | fraud_platform/observability/redaction.py:92-115 | the walk keeps every key, their order and every value that is not personal |
| Redaction.MaskedFieldIsJson | fraud_platform/observability/redaction.py:81-90 | a masked JSON field is JSON again, masked throughout and otherwise unchanged |
| Redaction.ScrubLiterals | fraud_platform/observability/redaction.py:117-123 | the loop replaces all values, longest first, in some order among equals |
| Redaction.MaskRowFieldwise | fraud_platform/observability/redaction.py:64-68 | the first pass masks exactly the three text fields and keeps all others |
| Redaction.MaskRows | fraud_platform/observability/redaction.py:60-68 | the first pass over the array masks every row and collects every hidden value of the trace |
| Redaction.ScrubRows | fraud_platform/observability/redaction.py:72-77 | the second pass scrubs every text field of every row and nothing else |
| Redaction.RedactRows | fraud_platform/observability/redaction.py:57-78 | the rows in place become their masked and scrubbed form |
| Redaction.RedactedTraceIsClean | fraud_platform/observability/redaction.py:57-78 | with values apart from all tokens, no text field of any row contains a value hidden anywhere in the trace |
| Redaction.PlainValuesAreSeparable | fraud_platform/observability/redaction.py:57-78 | bracket-free collected values meet that condition exactly when none occurs inside a token |
| Redaction.SeparableExactly | fraud_platform/observability/redaction.py:117-123 | the condition on the collected values is exact for every order the loop can take |
| Redaction.UnseenIsUntouched | fraud_platform/observability/redaction.py:70-77 | the second pass changes a field exactly when its raw text contains a hidden value |
| Escaping.EscapeOfTwo | fraud_platform/observability/redaction.py:90 | "é" and a character beyond the basic plane as `json.dumps` writes them |
| JsonText.DumpShapes | fraud_platform/observability/redaction.py:90 | arrays, objects and constants as `json.dumps` writes them by default |
| Escaping.ShownExactly | fraud_platform/observability/redaction.py:90 | every string that holds a value shows it as dumped, exactly when the value is written as itself up to backslashes at its ends and one quote that only backslashes precede |
| Escaping.ReplaceEscapedExactly | fraud_platform/observability/redaction.py:117-123 | replacing a value in the dump of a string is replacing it in the string, exactly when no occurrence begins inside an escape sequence |
| JsonText.ReplaceInDumpExactly | fraud_platform/observability/redaction.py:90-123 | replacing a value in a dump is dumping the value with its strings replaced, exactly when no occurrence lies outside the strings or begins inside an escape sequence |
| JsonText.ScrubbedDumpIsDump | fraud_platform/observability/redaction.py:117-123 | under that condition for each of several values, the scrubbed dump is the dump with every string scrubbed |
| JsonText.NeverSpelledExactly | fraud_platform/observability/redaction.py:117-123 | no scrubbed dump spells a string that holds the value, exactly when the value is one that dumps always show |
| JsonText.UnprintableIsNeverScrubbed | fraud_platform/observability/redaction.py:120-122 | values with a character outside printable ASCII are never found in a dump |
| Redaction.RedactedTraceSpellsNone | fraud_platform/observability/redaction.py:57-78 | no text field of a redacted trace spells a string that holds a hidden value, if dumps always show the value |
| Redaction.ConcealedValueReturns | fraud_platform/observability/redaction.py:81-123 | any other value is held by some string whose scrubbed field still loads as that string |
| Redaction.LoadedFieldIsClean | fraud_platform/observability/redaction.py:57-123 | with values written as themselves that occur only within strings and not from inside an escape, the redacted field loads as the masked value with every string scrubbed (if its keys stay distinct), and no string of it holds a hidden value |
| Redaction.UnprintableSurvives | fraud_platform/observability/redaction.py:81-123 | a value with a character outside printable ASCII is masked under its key and still loaded from elsewhere in the field |
| Redaction.EscapedValueSurvives | fraud_platform/observability/redaction.py:81-123 | the field {"name": "José", "note": "José"}, redacted, still loads with the name in the note |
| Redaction.TokensSurvive | fraud_platform/observability/redaction.py:70-77 | a token written in the first pass is still in place after the second, whatever the order among equally long values |
| Chunker.SplitOversizedParagraphs | fraud_platform/retrieval/chunker.py:230-248 | the nested loops give the pieces of the specification, and fail on a zero step exactly when it does |
| Chunker.FitIsExact | fraud_platform/retrieval/chunker.py:230-248 | every piece fits the budget, the words are kept for a budget of at least zero and all lost below, and the split fails exactly at budget zero with words left |
| Chunker.CutIsFull | fraud_platform/retrieval/chunker.py:246-247 | only the last piece of a cut paragraph may hold fewer words than the budget |
| Chunker.FittingParagraphIsKept | fraud_platform/retrieval/chunker.py:242-245 | a paragraph within the budget passes through untouched |
| Chunker.PackParagraphs | fraud_platform/retrieval/chunker.py:203-227 | the packing loop builds the chunks of the greedy grouping |
| Chunker.BuildChunksForSection | fraud_platform/retrieval/chunker.py:139-227 | one section, whole or split: the chunks of the specification or its error |
| Chunker.PackKeeps | fraud_platform/retrieval/chunker.py:207-218 | greedy packing keeps the pieces in order and no group passes the budget |
| Chunker.PackIsOptimal | fraud_platform/retrieval/chunker.py:207-218 | no order-preserving grouping within the budget has fewer groups |
| Chunker.ChunksAreBounded | fraud_platform/retrieval/chunker.py:163-227 | every chunk starts with its header, counts its own words and has at most 180 of them |
| Chunker.OverheadIs | fraud_platform/retrieval/chunker.py:196-197 | a header has three words more than its pattern and section name |
| Chunker.WordsAreKept | fraud_platform/retrieval/chunker.py:163-227 | the chunk bodies are the section's words in order exactly when the header leaves room, the section fits or has no words; the split raises exactly when the header alone fills the limit |
| Chunker.ChunksHold | fraud_platform/retrieval/chunker.py:163-266 | every chunk carries its section's labels and its own word count; the text is the heading with the body, or with a group of the pieces in order with blank lines between them |
| Chunker.ParagraphsAreTrimmed | fraud_platform/retrieval/chunker.py:200 | paragraphs are not empty and have no white space around them |
| Chunker.LongHeaderLosesBody | fraud_platform/retrieval/chunker.py:196-202 | under the pattern GEO_JUMP a section name of 177 words leaves no chunk at all, one of 176 words raises |
| Chunker.ChunksAreFewest | fraud_platform/retrieval/chunker.py:192-227 | no order-preserving grouping of the same pieces into bounded chunks has fewer chunks |
| Breaker.CircuitBreaker.ReadState | fraud_platform/common/resilience.py:144-149 | reading may turn an elapsed OPEN into HALF_OPEN and changes nothing else |
| Breaker.CircuitBreaker.Invoke | fraud_platform/common/resilience.py:151-161 | a call is rejected while open; otherwise its outcome updates the state |
| Breaker.StateIsHistory | fraud_platform/common/resilience.py:125-171 | with a clock that never goes back, the observed state is a function of the trailing admitted failures, the time of the last one, and now |
| Breaker.LoadIsBounded | fraud_platform/common/resilience.py:125-171 | in an unbroken run of failures from a reset breaker over a span T, at most threshold + floor(T / timeout) calls are admitted |
| Breaker.LoadBoundIsReached | fraud_platform/common/resilience.py:125-171 | for every number of timeouts some run of failures attains the bound |
| Router.RouteIsSafe | fraud_platform/agents/multi_agent/orchestrator.py:156-212 | whatever the answer, the next specialist exists and has not run, a decision follows policy, and at the cap only policy or the decision is chosen |
| Router.AnswerIsObeyed | fraud_platform/agents/multi_agent/orchestrator.py:187-212 | the answer is overridden exactly at a hard stop, when it is not available, or when it asks to decide before policy |
| Router.FallbackIsFirst | fraud_platform/agents/multi_agent/orchestrator.py:193-212 | an unavailable answer falls back to the first specialist of the list that has not run, or to policy instead of an ungrounded decision |
| Router.EveryRunDecides | fraud_platform/agents/multi_agent/orchestrator.py:223-248 | for every team with policy and decision, cap and answers: the run ends, nobody runs twice, policy precedes the decision, which runs once and last, within min(n, max(cap, 1) + 1) visits |
| Router.RunsExactly | fraud_platform/agents/multi_agent/orchestrator.py:156-248 | the runs that some router brings about are exactly the decided orders within the cap, and those one longer that end with policy and the decision |
| FeatureState.RedisFeatureWriter.WriteBatch | fraud_platform/stream_processing/feature_engine.py:548-620 | the loop keeps one row per user; features are written for all of them, locations for those that are not suspect |
| FeatureState.RedisFeatureWriter.ProcessBatch | fraud_platform/stream_processing/feature_engine.py:1244-1330 | rows are scored against the baselines at the start of the batch, quarantined ones dropped, the rest written |
| FeatureState.LatestIsWinner | fraud_platform/stream_processing/feature_engine.py:574-592 | a batch keeps, for exactly the users with rows, the first row with the greatest timestamp string |
| FeatureState.UndatedRowIsKept | fraud_platform/stream_processing/feature_engine.py:584-592 | called on such rows alone, the fold lets a row without a timestamp displace a dated one of the same user |
| FeatureState.LatestByDateExactly | fraud_platform/stream_processing/feature_engine.py:574-592 | the kept row is the latest by date exactly when the batch does not mix dated and undated rows of the user |
| FeatureState.StreamKeepsLatest | fraud_platform/stream_processing/feature_engine.py:1101-1121 | behind the filter that drops messages without an id, a user or a readable timestamp, the kept row is always the latest of its user by date |
| Batches.BatchStoresWinners | fraud_platform/stream_processing/feature_engine.py:1244-1330 | a batch stores for every user with valid transactions the first of them with the greatest timestamp text, and its location exactly when it does not trip the rule; for others nothing changes |
| Batches.StreamStoresLatest | fraud_platform/stream_processing/feature_engine.py:1101-1330 | the same over messages: the latest usable message of the user, the first among equals |
| FeatureState.StoredFeaturesAreLatest | fraud_platform/stream_processing/feature_engine.py:594-601 | a feature row is stored exactly when it won some batch for its user, and since then no batch had a row of the user and the key has not expired |
| FeatureState.StoredLocationIsLast | fraud_platform/stream_processing/feature_engine.py:602-620 | a location is stored exactly when it is that of some winner that was not suspect, and since then no such winner came and the key has not expired |
| FeatureState.StoredLocationsAreClean | fraud_platform/stream_processing/feature_engine.py:602-620 | the stored location is that of the last unsuspected winner, which did not trip the geo rule against the baseline at the start of its batch |
| FeatureState.SuspectExactly | fraud_platform/stream_processing/scoring.py:99-135 | a row is suspect exactly when no guard switches the rule off and it lies 3000 km away, or 100 km away at over 900 km/h |
| FeatureState.StoredMovesArePlausible | fraud_platform/stream_processing/scoring.py:99-240 | over any run in which no valid row of the user lacks a coordinate or runs back in time, each stored location follows from the one stored before its batch by less than 3000 km, and not by 100 km or more at over 900 km/h |
| FeatureState.MissingCoordinateOpensBaseline | fraud_platform/stream_processing/scoring.py:213-240 | after a row without a latitude, the user's next row becomes the baseline wherever it lies |
| Metrics.ConfusionOf | fraud_platform/observability/metrics.py:47-64 | the loop counts each cell |
| Metrics.SurfacedExactly | fraud_platform/observability/metrics.py:89-113 | a pattern is surfaced exactly when a listed name, or a final label other than NONE, is the pattern but for case and surrounding space |
| Metrics.LabelsExactly | fraud_platform/observability/metrics.py:136-144 | the true pattern, the right label and the caught fraud, with their defaults |
| Metrics.ConfusionIsConserved | fraud_platform/observability/metrics.py:47-64 | the four cells and the escalations add up to the list |
| Metrics.PerPatternRecall | fraud_platform/observability/metrics.py:115-157 | the loop holds, per true pattern, the counts that counting directly would give, and a bucket for every pattern with frauds |
| Metrics.PatternsPartition | fraud_platform/observability/metrics.py:136-144 | counting anything per pattern and adding up is counting it over all frauds |
| Metrics.TableAgreesWithConfusion | fraud_platform/observability/metrics.py:47-157 | over all patterns, n adds up to decided plus escalated frauds and caught to blocked plus escalated frauds |
| Metrics.DetectionIsConserved | fraud_platform/observability/metrics.py:148-157 | detected + missed = n in every bucket; detected = correct + mislabelled for every real pattern, and in general exactly when no correct label went unsurfaced |
| Metrics.NoneBucketDisagrees | fraud_platform/observability/metrics.py:148-157 | a decision whose bucket has a correct label and nothing detected |
| Metrics.Calibrate | fraud_platform/observability/metrics.py:178-208 | the loops give the Brier score, the number of pairs, and the size, mean and observed rate of every nonempty bin |
| Metrics.PairsExactly | fraud_platform/observability/metrics.py:167-192 | the pairs are the confidence of a block or the complement of any other decision but an escalation, with the outcome, each as often as it is given |
| Metrics.BrierIsZeroExactly | fraud_platform/observability/metrics.py:193-194 | the score is zero exactly when every probability is the outcome, and positive otherwise |
| Metrics.BinsPartition | fraud_platform/observability/metrics.py:196-199 | a number in the unit interval falls into exactly one bin, any other into none |
| Metrics.CalibrationIsConserved | fraud_platform/observability/metrics.py:193-208 | the bins account for every pair exactly when there are none, or there is a bin and every implied probability lies in the unit interval |
| Metrics.MeansAreConserved | fraud_platform/observability/metrics.py:193-208 | weighted by the bins' sizes, the means add up to the sum of the probabilities in the unit interval and the rates to the frauds among them |

## Left out

- Text: strings hold no lone surrogates; digits and letters are the ASCII ones, so Unicode digits, Unicode case mapping and the digit limit of `int` are not modelled; `float` is an abstract reader without infinities and NaN, and floats are reals.
- Feasibility: pydantic's coercion is an abstract acceptance test per tool, schedule validity an abstract predicate, and rejection messages are constructors that carry the step and the name.
- Store: ids are positions in creation order; timestamps, latencies, templates, the outbox and the advisory columns (next run, last run, last report) are not modelled, and neither is `last_completed_step`, since nothing resumes a run.
- Service.SchedulerRuntime.FireJob: does not model the last-run, last-report and next-run columns it writes after a run, because they are advisory and nothing reads them back.
- Executor: a crash inside a run and any store error other than a taken key or an illegal transition are not modelled; a tool body is an arbitrary function of run, call number, tool and arguments.
- Soundness.RunIsDataflow: does not model tools whose results depend on earlier calls, because the recursive evaluation has no call order; soundness itself is proved for any tools.
- Engine: requests are atomic and sequential; interleavings are the subject of FiringProtocol, which has the store's smallest steps but no step contents. Planner output and report plans are arbitrary plans.
- Calendar: keys and windows are functions of the UTC fire instant; cron arithmetic and local time are not modelled, and years are printed without padding, which differs from some platforms' `%Y` below year 1000.
- SqlGuard: starts from a query tree; the parser and printer, recursive CTEs, VALUES and LATERAL sources, and subqueries inside GROUP BY, HAVING, QUALIFY, ORDER BY or LIMIT have no node, and identifiers are case-insensitive. What a computed limit denotes and what the name of its node reads as are two independent values.
- Redaction.RedactRows: does not model the same row object standing twice in the list, because rows are values in an array; the digest is an arbitrary function into tokens, and `json.loads` and `str` are abstract, with the round trip of loading what was dumped assumed.
- Redaction.LoadedFieldIsClean: its condition is exact for one value (`ReplaceInDumpExactly`) and only sufficient for several; values with a quote or a backslash are covered as text (`RedactedTraceSpellsNone`), not as loaded strings.
- Chunker: the title and H2 regular expressions and `chunk_document`'s loop over sections are not modelled; they select sections and add only easy members.
- Breaker: calls are sequential, as the class has no lock; `retry` and `classify_error` would add only easy members.
- Router: LangGraph's own recursion limit and the contents of the messages are not modelled.
- FeatureState: the great-circle distance and the reading of timestamps are arbitrary functions; risk score, velocity, device and validator details, the S3 and Snowflake sinks and Redis errors are not modelled, and a time to live is an expiry step that may come at any point.
- Metrics: recall and precision rates, rounding and the judge cross-check are arithmetic on the proved counts.
- Data generators, connectors, report rendering, chart choice, migrations and deployment files are not part of this model.
