/** The supervisor router: an arbitrary answer proposes the next specialist, the code disposes. */
module Router {
  import opened Text

  const POLICY := "policy_agent"
  const DECISION := "decision_agent"

  /** The specialists that have not run, in the order of the list. */
  function Available(team: seq<string>, invoked: seq<string>): seq<string> {
    if team == [] then []
    else (if team[0] in invoked then [] else [team[0]]) + Available(team[1..], invoked)
  }

  predicate HardStop(team: seq<string>, cap: int, invoked: seq<string>) {
    Available(team, invoked) == [DECISION] || |invoked| >= cap - 1
  }

  /** The specialist that runs next; `answer` is what the router model said, and is ignored at a hard stop. */
  function Route(team: seq<string>, cap: int, invoked: seq<string>, answer: string): string
    requires Available(team, invoked) != []
  {
    var available := Available(team, invoked);
    if HardStop(team, cap, invoked) then
      if POLICY in available then POLICY else DECISION
    else
      var choice := if answer in available then answer else available[0];
      if choice == DECISION && POLICY !in invoked then POLICY else choice
  }

  lemma {:induction false} AvailableIs(team: seq<string>, invoked: seq<string>)
    ensures forall a :: a in Available(team, invoked) <==> a in team && a !in invoked
  {
    if team != [] {
      AvailableIs(team[1..], invoked);
      assert team == [team[0]] + team[1..];
    }
  }

  predicate Staffed(team: seq<string>) { Distinct(team) && POLICY in team && DECISION in team }

  /** The invoked specialists of a run that has not decided yet. */
  predicate Undecided(team: seq<string>, invoked: seq<string>) {
    Distinct(invoked) && (forall a | a in invoked :: a in team) && DECISION !in invoked
  }

  /** Whatever the router answers, the next specialist exists and has not run; it is the decision only once
      policy has run, and at the cap nothing but policy and the decision is left to choose. */
  lemma RouteIsSafe(team: seq<string>, cap: int, invoked: seq<string>, answer: string)
    requires Staffed(team) && Undecided(team, invoked)
    ensures Available(team, invoked) != []
    ensures var next := Route(team, cap, invoked, answer);
            next in team && next !in invoked &&
            (next == DECISION ==> POLICY in invoked) &&
            (|invoked| >= cap - 1 ==> next == if POLICY in invoked then DECISION else POLICY)
  {
    AvailableIs(team, invoked);
    assert DECISION in Available(team, invoked);
    if Available(team, invoked) == [DECISION] {
      assert POLICY !in Available(team, invoked);
    }
  }

  /** The answer is overridden only at a hard stop, when it names no specialist that is still available, or
      when it asks for a decision before policy has run. */
  lemma AnswerIsObeyed(team: seq<string>, cap: int, invoked: seq<string>, answer: string)
    requires Staffed(team) && Undecided(team, invoked) && !HardStop(team, cap, invoked)
    ensures Available(team, invoked) != []
    ensures Route(team, cap, invoked, answer) == answer
            <==> answer in team && answer !in invoked && (answer == DECISION ==> POLICY in invoked)
  {
    AvailableIs(team, invoked);
    RouteIsSafe(team, cap, invoked, answer);
  }

  lemma {:induction false} FirstAvailable(team: seq<string>, invoked: seq<string>, i: nat)
    requires Available(team, invoked) != []
    requires i < |team| && team[i] !in invoked && forall j | 0 <= j < i :: team[j] in invoked
    ensures Available(team, invoked)[0] == team[i]
  {
    if i > 0 {
      assert team[1..][i-1] == team[i];
      FirstAvailable(team[1..], invoked, i - 1);
    }
  }

  /** An answer that is not available falls back to the first specialist of the list that has not run, or to
      policy where that would be a decision before policy. */
  lemma FallbackIsFirst(team: seq<string>, cap: int, invoked: seq<string>, answer: string, i: nat)
    requires Staffed(team) && Undecided(team, invoked) && !HardStop(team, cap, invoked)
    requires answer !in team || answer in invoked
    requires i < |team| && team[i] !in invoked && forall j | 0 <= j < i :: team[j] in invoked
    ensures Available(team, invoked) != []
    ensures Route(team, cap, invoked, answer) ==
            if team[i] == DECISION && POLICY !in invoked then POLICY else team[i]
  {
    AvailableIs(team, invoked);
    RouteIsSafe(team, cap, invoked, answer);
    FirstAvailable(team, invoked, i);
  }

  // ------------------------------------------------------------ whole runs

  lemma {:induction false} NoLonger(part: seq<string>, whole: seq<string>)
    requires Distinct(part) && forall a | a in part :: a in whole
    ensures |part| <= |whole|
  {
    if part != [] {
      var a := part[|part|-1];
      assert a in part;
      var i :| 0 <= i < |whole| && whole[i] == a;
      var init, rest := part[..|part|-1], whole[..i] + whole[i+1..];
      forall b | b in init ensures b in rest {
        var k :| 0 <= k < |init| && init[k] == b;
        assert part[k] != part[|part|-1];
        assert b in part;
        var j :| 0 <= j < |whole| && whole[j] == b;
        assert b == if j < i then rest[j] else rest[j-1];
      }
      NoLonger(init, rest);
    }
  }

  lemma UndecidedIsShort(team: seq<string>, invoked: seq<string>)
    requires Staffed(team) && Undecided(team, invoked)
    ensures |invoked| < |team|
  {
    NoLonger(invoked + [DECISION], team);
  }

  lemma UndecidedGrows(team: seq<string>, invoked: seq<string>, next: string)
    requires Undecided(team, invoked) && next in team && next !in invoked && next != DECISION
    ensures Undecided(team, invoked + [next])
  {
  }

  /** The graph: the router runs before every specialist, and the decision ends the run. `answers` gives the
      router's answer at every turn. */
  function Run(team: seq<string>, cap: int, answers: nat -> string, invoked: seq<string>): seq<string>
    requires Staffed(team) && Undecided(team, invoked)
    decreases |team| - |invoked|
  {
    RouteIsSafe(team, cap, invoked, answers(|invoked|));
    UndecidedIsShort(team, invoked);
    var next := Route(team, cap, invoked, answers(|invoked|));
    if next == DECISION then invoked + [next]
    else
      UndecidedGrows(team, invoked, next);
      Run(team, cap, answers, invoked + [next])
  }

  /** A cap below one acts as one. */
  function Capped(cap: int): nat { if cap < 1 then 1 else cap }

  function LengthBound(team: seq<string>, cap: int): int {
    if |team| < Capped(cap) + 1 then |team| else Capped(cap) + 1
  }

  /** The visits fit the cap, or exceed it by one because policy had to be fetched at the last moment. */
  predicate FitsCap(cap: int, visits: seq<string>) {
    |visits| <= cap || (|visits| == Capped(cap) + 1 && visits[|visits|-2] == POLICY)
  }

  /** A finished run: nobody twice, policy before the decision, and the decision once, at the end. */
  predicate Decided(team: seq<string>, visits: seq<string>) {
    Distinct(visits) && (forall a | a in visits :: a in team) &&
    visits != [] && visits[|visits|-1] == DECISION && POLICY in visits[..|visits|-1]
  }

  lemma DecisionEndsRun(team: seq<string>, invoked: seq<string>)
    requires Staffed(team) && Undecided(team, invoked) && POLICY in invoked
    ensures Decided(team, invoked + [DECISION]) && |invoked + [DECISION]| <= |team|
  {
    assert (invoked + [DECISION])[..|invoked|] == invoked;
    UndecidedIsShort(team, invoked);
  }

  /** How many specialists may have run before the router is asked again. */
  predicate WithinCap(cap: int, invoked: seq<string>) {
    |invoked| <= (if POLICY in invoked then Capped(cap) else Capped(cap) - 1) &&
    (|invoked| == Capped(cap) ==> invoked[|invoked|-1] == POLICY)
  }

  lemma {:induction false} RunDecides(team: seq<string>, cap: int, answers: nat -> string, invoked: seq<string>)
    requires Staffed(team) && Undecided(team, invoked) && WithinCap(cap, invoked)
    ensures Decided(team, Run(team, cap, answers, invoked))
    ensures |Run(team, cap, answers, invoked)| <= LengthBound(team, cap)
    ensures FitsCap(cap, Run(team, cap, answers, invoked))
    ensures invoked <= Run(team, cap, answers, invoked)
    decreases |team| - |invoked|
  {
    RouteIsSafe(team, cap, invoked, answers(|invoked|));
    UndecidedIsShort(team, invoked);
    var next := Route(team, cap, invoked, answers(|invoked|));
    if next == DECISION {
      DecisionEndsRun(team, invoked);
    } else {
      UndecidedGrows(team, invoked, next);
      RunDecides(team, cap, answers, invoked + [next]);
    }
  }

  /** For every team, step cap and sequence of router answers: the run ends, nobody runs twice, policy runs
      before the decision, the decision runs once and last, and the length is bounded. */
  lemma EveryRunDecides(team: seq<string>, cap: int, answers: nat -> string)
    requires Staffed(team)
    ensures Decided(team, Run(team, cap, answers, []))
    ensures 2 <= |Run(team, cap, answers, [])| <= LengthBound(team, cap)
  {
    RunDecides(team, cap, answers, []);
  }

  // ------------------------------------------------------------ exactly which orders can be had

  /** A router that asks for the visits one after another. */
  function Asks(visits: seq<string>): nat -> string { (i: nat) => if i < |visits| then visits[i] else DECISION }

  lemma StepIsVisit(team: seq<string>, cap: int, visits: seq<string>, k: nat)
    requires Staffed(team) && Decided(team, visits) && FitsCap(cap, visits)
    requires k < |visits| && Undecided(team, visits[..k])
    ensures Available(team, visits[..k]) != [] && Route(team, cap, visits[..k], visits[k]) == visits[k]
  {
    var invoked := visits[..k];
    AvailableIs(team, invoked);
    RouteIsSafe(team, cap, invoked, visits[k]);
    assert visits[k] in visits && visits[k] !in invoked;
    if !HardStop(team, cap, invoked) { AnswerIsObeyed(team, cap, invoked, visits[k]); }
  }

  lemma {:induction false} EveryOrderIsPossible(team: seq<string>, cap: int, visits: seq<string>, k: nat)
    requires Staffed(team) && Decided(team, visits) && FitsCap(cap, visits)
    requires k < |visits| && Undecided(team, visits[..k])
    ensures Run(team, cap, Asks(visits), visits[..k]) == visits
    decreases |visits| - k
  {
    StepIsVisit(team, cap, visits, k);
    assert visits[..k+1] == visits[..k] + [visits[k]];
    if k == |visits| - 1 {
      assert visits[..k+1] == visits;
    } else {
      UndecidedGrows(team, visits[..k], visits[k]);
      EveryOrderIsPossible(team, cap, visits, k + 1);
    }
  }

  /** The runs that some router brings about are exactly the decided orders within the cap, and those one longer
      that end with policy and the decision: the guardrails exclude nothing else. */
  lemma RunsExactly(team: seq<string>, cap: int, visits: seq<string>)
    requires Staffed(team)
    ensures (exists answers: nat -> string :: Run(team, cap, answers, []) == visits) <==>
            Decided(team, visits) && FitsCap(cap, visits)
  {
    if answers: nat -> string :| Run(team, cap, answers, []) == visits {
      RunDecides(team, cap, answers, []);
    }
    if Decided(team, visits) && FitsCap(cap, visits) {
      assert visits[..0] == [];
      EveryOrderIsPossible(team, cap, visits, 0);
      assert Run(team, cap, Asks(visits), []) == visits;
    }
  }
}
