/** The circuit breaker: a lazily updated state, its history, and how many calls a failing dependency sees. */
module Breaker {

  datatype Phase = CLOSED | OPEN | HALF_OPEN

  datatype Limits = Limits(threshold: int, resetTimeout: real)

  /** `last` is the clock reading of the last trip; it starts at zero. */
  datatype State = State(failures: nat, phase: Phase, openedAt: real)

  /** What callers do: read the state, or make a call whose body takes from `now` to `end` and may fail. */
  datatype Event = Read(now: real) | Call(now: real, ok: bool, end: real)

  const NEW_BREAKER := State(0, CLOSED, 0.0)

  /** The `state` property at clock reading `now`. */
  function Observe(l: Limits, s: State, now: real): State {
    if s.phase == OPEN && now - s.openedAt >= l.resetTimeout then s.(phase := HALF_OPEN) else s
  }

  function OnFailure(l: Limits, s: State, now: real): State {
    var failures := s.failures + 1;
    if failures >= l.threshold || s.phase == HALF_OPEN then State(failures, OPEN, now)
    else s.(failures := failures)
  }

  function OnSuccess(s: State): State { s.(failures := 0, phase := CLOSED) }

  function Step(l: Limits, s: State, e: Event): State {
    var seen := Observe(l, s, e.now);
    if e.Read? || seen.phase == OPEN then seen
    else if e.ok then OnSuccess(seen)
    else OnFailure(l, seen, e.end)
  }

  predicate Admitted(l: Limits, s: State, e: Event) { e.Call? && Observe(l, s, e.now).phase != OPEN }

  function Run(l: Limits, s: State, events: seq<Event>): State {
    if events == [] then s else Step(l, Run(l, s, events[..|events|-1]), events[|events|-1])
  }

  // ------------------------------------------------------------ the object

  datatype Outcome = Rejected | Returned | Raised

  class CircuitBreaker {
    const threshold: int
    const resetTimeout: real
    var failures: nat
    var phase: Phase
    var openedAt: real

    function Abstract(): State
      reads this
    {
      State(failures, phase, openedAt)
    }

    function Settings(): Limits { Limits(threshold, resetTimeout) }

    constructor (threshold: int, resetTimeout: real)
      ensures Abstract() == NEW_BREAKER && Settings() == Limits(threshold, resetTimeout)
    {
      this.threshold, this.resetTimeout := threshold, resetTimeout;
      failures, phase, openedAt := 0, CLOSED, 0.0;
    }

    method ReadState(now: real) returns (seen: Phase)
      modifies this
      ensures Abstract() == Step(Settings(), old(Abstract()), Read(now))
      ensures seen == Abstract().phase
    {
      if phase == OPEN && now - openedAt >= resetTimeout {
        phase := HALF_OPEN;
      }
      seen := phase;
    }

    /** One call; `ok` is whether the guarded function returns, `end` the clock when it fails. */
    method Invoke(now: real, ok: bool, end: real) returns (r: Outcome)
      modifies this
      ensures Abstract() == Step(Settings(), old(Abstract()), Call(now, ok, end))
      ensures r == if !Admitted(Settings(), old(Abstract()), Call(now, ok, end)) then Rejected
                   else if ok then Returned else Raised
    {
      var seen := ReadState(now);
      if seen == OPEN {
        return Rejected;
      }
      if ok {
        NoteSuccess();
        return Returned;
      }
      NoteFailure(end);
      return Raised;
    }

    method NoteSuccess()
      modifies this
      ensures Abstract() == OnSuccess(old(Abstract()))
    {
      failures := 0;
      phase := CLOSED;
    }

    method NoteFailure(now: real)
      modifies this
      ensures Abstract() == OnFailure(Settings(), old(Abstract()), now)
    {
      failures := failures + 1;
      if failures >= threshold || phase == HALF_OPEN {
        phase := OPEN;
        openedAt := now;
      }
    }
  }

  // ------------------------------------------------------------ the state is a function of the history

  /** How many failures in a row trip the breaker; a threshold below one acts as one. */
  function Trip(l: Limits): nat { if l.threshold < 1 then 1 else l.threshold }

  /** The failures admitted since the last success, and the clock at the latest of them. */
  datatype Trail = Trail(count: nat, at: real)

  /** What the breaker shows after such a trail. */
  function Shown(l: Limits, t: Trail, now: real): Phase {
    if t.count < Trip(l) then CLOSED
    else if now - t.at >= l.resetTimeout then HALF_OPEN
    else OPEN
  }

  function TrailOf(l: Limits, events: seq<Event>): Trail {
    if events == [] then Trail(0, 0.0)
    else
      var t, e := TrailOf(l, events[..|events|-1]), events[|events|-1];
      if e.Read? || Shown(l, t, e.now) == OPEN then t
      else if e.ok then Trail(0, t.at)
      else Trail(t.count + 1, e.end)
  }

  function Ends(e: Event): real { if e.Call? && !e.ok then e.end else e.now }

  /** The clock never goes back: within a call, and from one event to the next. */
  predicate Monotone(events: seq<Event>) {
    (forall i | 0 <= i < |events| :: events[i].now <= Ends(events[i])) &&
    forall i | 0 < i < |events| :: Ends(events[i-1]) <= events[i].now
  }

  predicate NotBefore(events: seq<Event>, now: real) {
    events == [] || Ends(events[|events|-1]) <= now
  }

  /** The stored fields, as the trail determines them up to a pending change from OPEN to HALF_OPEN. */
  predicate Tracks(l: Limits, s: State, t: Trail, now: real) {
    s.failures == t.count &&
    (t.count < Trip(l) ==> s.phase == CLOSED) &&
    (t.count >= Trip(l) ==> s.openedAt == t.at &&
                            (s.phase == OPEN || (s.phase == HALF_OPEN && now - t.at >= l.resetTimeout)))
  }

  lemma TracksShows(l: Limits, s: State, t: Trail, now: real, later: real)
    requires Tracks(l, s, t, now) && now <= later
    ensures Observe(l, s, later).phase == Shown(l, t, later)
    ensures Tracks(l, Observe(l, s, later), t, later)
  {
  }

  lemma StepTracks(l: Limits, s: State, t: Trail, now: real, e: Event)
    requires Tracks(l, s, t, now) && now <= e.now <= Ends(e)
    ensures Tracks(l, Step(l, s, e),
                   if e.Read? || Shown(l, t, e.now) == OPEN then t
                   else if e.ok then Trail(0, t.at) else Trail(t.count + 1, e.end),
                   Ends(e))
  {
    TracksShows(l, s, t, now, e.now);
  }

  lemma {:induction false} RunTracks(l: Limits, events: seq<Event>, now: real)
    requires Monotone(events) && NotBefore(events, now)
    ensures Tracks(l, Run(l, NEW_BREAKER, events), TrailOf(l, events), now)
  {
    if events != [] {
      var init, e := events[..|events|-1], events[|events|-1];
      RunTracks(l, init, e.now);
      StepTracks(l, Run(l, NEW_BREAKER, init), TrailOf(l, init), e.now, e);
    }
  }

  /** Whatever was called and read before, the state a caller sees depends only on the trailing admitted
      failures, the time of the last one, and now. */
  lemma StateIsHistory(l: Limits, events: seq<Event>, now: real)
    requires Monotone(events) && NotBefore(events, now)
    ensures Observe(l, Run(l, NEW_BREAKER, events), now).phase == Shown(l, TrailOf(l, events), now)
  {
    RunTracks(l, events, now);
    TracksShows(l, Run(l, NEW_BREAKER, events), TrailOf(l, events), now, now);
  }

  // ------------------------------------------------------------ the load on a failing dependency

  function AdmittedCalls(l: Limits, s: State, events: seq<Event>): nat {
    if events == [] then 0
    else
      var init, e := events[..|events|-1], events[|events|-1];
      AdmittedCalls(l, s, init) + if Admitted(l, Run(l, s, init), e) then 1 else 0
  }

  predicate AllFail(events: seq<Event>) { forall e | e in events && e.Call? :: !e.ok }

  /** No failure counted and not tripped: as new, or just after a success. */
  predicate IsReset(s: State) { s.failures == 0 && s.phase == CLOSED }

  /** After `n` admitted failures since time `start`: every one beyond the tripping ones took a timeout. */
  predicate Paced(l: Limits, s: State, n: nat, start: real, now: real) {
    s.failures == n && start <= now &&
    (n < Trip(l) ==> s.phase == CLOSED) &&
    (n >= Trip(l) ==>
      (n - Trip(l)) as real * l.resetTimeout <= s.openedAt - start && s.openedAt <= now &&
      (s.phase == OPEN || (s.phase == HALF_OPEN && now - s.openedAt >= l.resetTimeout)))
  }

  lemma NoTimeout(k: int, r: real)
    requires k == 0
    ensures k as real * r == 0.0
  {
  }

  lemma OneMoreTimeout(k: nat, r: real)
    ensures (k + 1) as real * r == k as real * r + r
  {
  }

  lemma StepPaced(l: Limits, s: State, n: nat, start: real, now: real, e: Event)
    requires Paced(l, s, n, start, now) && now <= e.now <= Ends(e) && (e.Call? ==> !e.ok)
    ensures Paced(l, Step(l, s, e), if Admitted(l, s, e) then n + 1 else n, start, Ends(e))
  {
    var beyond := n + 1 - Trip(l);
    if beyond > 0 {
      OneMoreTimeout(beyond - 1, l.resetTimeout);
    } else if beyond == 0 {
      NoTimeout(beyond, l.resetTimeout);
    }
  }

  lemma {:induction false} RunPaced(l: Limits, s: State, events: seq<Event>, start: real, now: real)
    requires IsReset(s) && AllFail(events) && Monotone(events) && NotBefore(events, now) && start <= now
    requires events != [] ==> start <= events[0].now
    ensures Paced(l, Run(l, s, events), AdmittedCalls(l, s, events), start, now)
  {
    if events != [] {
      var init, e := events[..|events|-1], events[|events|-1];
      assert forall i | 0 <= i < |init| :: init[i] == events[i];
      StartsBefore(events, start);
      RunPaced(l, s, init, start, e.now);
      StepPaced(l, Run(l, s, init), AdmittedCalls(l, s, init), start, e.now, e);
      PacedLater(l, Run(l, s, events), AdmittedCalls(l, s, events), start, Ends(e), now);
    }
  }

  lemma PacedLater(l: Limits, s: State, n: nat, start: real, now: real, later: real)
    requires Paced(l, s, n, start, now) && now <= later
    ensures Paced(l, s, n, start, later)
  {
  }

  lemma {:induction false} StartsBefore(events: seq<Event>, start: real)
    requires Monotone(events) && events != [] && start <= events[0].now
    ensures start <= events[|events|-1].now
  {
    if |events| > 1 {
      StartsBefore(events[..|events|-1], start);
    }
  }

  /** During an unbroken run of failures from a reset breaker, at most the tripping number of calls plus one
      per elapsed timeout reach the dependency. */
  lemma LoadIsBounded(l: Limits, s: State, events: seq<Event>, start: real, now: real)
    requires l.resetTimeout > 0.0
    requires IsReset(s) && AllFail(events) && Monotone(events) && NotBefore(events, now) && start <= now
    requires events != [] ==> start <= events[0].now
    ensures AdmittedCalls(l, s, events) <= Trip(l) + ((now - start) / l.resetTimeout).Floor
  {
    RunPaced(l, s, events, start, now);
    PacedBound(l, Run(l, s, events), AdmittedCalls(l, s, events), start, now);
  }

  lemma PacedBound(l: Limits, s: State, n: nat, start: real, now: real)
    requires l.resetTimeout > 0.0 && Paced(l, s, n, start, now)
    ensures n <= Trip(l) + ((now - start) / l.resetTimeout).Floor
  {
    if n >= Trip(l) {
      AtMostQuotient(n - Trip(l), now - start, l.resetTimeout);
    } else {
      NoTimeout(0, l.resetTimeout);
      AtMostQuotient(0, now - start, l.resetTimeout);
    }
  }

  lemma AtMostQuotient(k: nat, span: real, r: real)
    requires r > 0.0 && k as real * r <= span
    ensures k <= (span / r).Floor
  {
    var slack := span - k as real * r;
    assert slack / r >= 0.0;
    assert slack / r == span / r - k as real;
  }

  // ------------------------------------------------------------ the bound is reached

  /** A caller that fails at once, again and again, and after the trip whenever a timeout has passed. */
  function Storm(time: nat -> real, n: nat): seq<Event> {
    seq(n, i requires 0 <= i < n => Call(time(i), false, time(i)))
  }

  ghost predicate Schedule(l: Limits, time: nat -> real) {
    time(0) == 0.0 &&
    forall i: nat :: time(i) <= time(i + 1) && (i + 1 >= Trip(l) ==> time(i + 1) - time(i) == l.resetTimeout)
  }

  lemma {:induction false} StormIsAdmitted(l: Limits, time: nat -> real, n: nat)
    requires Schedule(l, time)
    ensures AdmittedCalls(l, NEW_BREAKER, Storm(time, n)) == n
    ensures var s := Run(l, NEW_BREAKER, Storm(time, n));
            s.failures == n && (n < Trip(l) ==> s.phase == CLOSED) &&
            (n >= Trip(l) ==> s.phase == OPEN && s.openedAt == time(n - 1))
  {
    if n > 0 {
      assert Storm(time, n)[..n-1] == Storm(time, n - 1);
      StormIsAdmitted(l, time, n - 1);
      if n > 1 { assert time(n - 2) <= time(n - 2 + 1); }
    }
  }

  lemma StormIsMonotone(l: Limits, time: nat -> real, n: nat)
    requires Schedule(l, time)
    ensures Monotone(Storm(time, n)) && AllFail(Storm(time, n))
  {
    var events := Storm(time, n);
    forall i | 0 < i < n ensures Ends(events[i-1]) <= events[i].now {
      assert time(i - 1) <= time(i - 1 + 1);
    }
  }

  function StormTime(l: Limits, i: nat): real {
    if i < Trip(l) then 0.0 else (i - Trip(l) + 1) as real * l.resetTimeout
  }

  lemma StormTimeIsSchedule(l: Limits)
    requires l.resetTimeout > 0.0
    ensures Schedule(l, (i: nat) => StormTime(l, i))
  {
    forall i: nat
      ensures StormTime(l, i) <= StormTime(l, i + 1)
      ensures i + 1 >= Trip(l) ==> StormTime(l, i + 1) - StormTime(l, i) == l.resetTimeout
    {
      var beyond := i + 1 - Trip(l);
      if beyond > 0 {
        OneMoreTimeout(beyond, l.resetTimeout);
      } else if beyond == 0 {
        NoTimeout(beyond, l.resetTimeout);
        OneMoreTimeout(beyond, l.resetTimeout);
      }
    }
  }

  /** `events` is a run of failures over `span` in which `n` calls reach the dependency of a new breaker. */
  ghost predicate FailingRun(l: Limits, events: seq<Event>, span: real, n: nat) {
    Monotone(events) && AllFail(events) && |events| > 0 && events[0].now == 0.0 &&
    Ends(events[|events|-1]) == span && AdmittedCalls(l, NEW_BREAKER, events) == n
  }

  lemma StormRuns(l: Limits, time: nat -> real, n: nat, span: real)
    requires Schedule(l, time) && n > 0 && time(n - 1) == span
    ensures FailingRun(l, Storm(time, n), span, n)
  {
    StormIsMonotone(l, time, n);
    StormIsAdmitted(l, time, n);
  }

  lemma LastStormTime(l: Limits, m: nat)
    ensures StormTime(l, Trip(l) + m - 1) == m as real * l.resetTimeout
  {
    if m == 0 { NoTimeout(0, l.resetTimeout); }
  }

  /** The load bound cannot be lowered: for every `m`, a run of failures that spans `m` timeouts gets the
      tripping number of calls plus `m` admitted. */
  lemma LoadBoundIsReached(l: Limits, m: nat)
    requires l.resetTimeout > 0.0
    ensures var span, n := m as real * l.resetTimeout, Trip(l) + m;
            exists events :: FailingRun(l, events, span, n)
  {
    StormTimeIsSchedule(l);
    LastStormTime(l, m);
    StormRuns(l, (i: nat) => StormTime(l, i), Trip(l) + m, m as real * l.resetTimeout);
  }
}
