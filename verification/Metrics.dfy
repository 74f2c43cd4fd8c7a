/** Evaluation counters: what the confusion matrix, the per-pattern table and the calibration bins conserve. */
module Metrics {
  import opened Wrappers
  import opened Text
  import opened Splitting

  datatype Elevated = Absent | Joined(text: string) | Listed(patterns: seq<string>)

  datatype Decision = Decision(
    decision: string, isFraud: bool, truth: Option<string>, agent: Option<string>,
    elevated: Elevated, confidence: Option<real>)

  predicate Escalated(d: Decision) { d.decision == "ESCALATE" }

  predicate Blocked(d: Decision) { d.decision == "BLOCK" }

  // ------------------------------------------------------------ counting

  function Count<T>(rows: seq<T>, p: T -> bool): nat {
    if rows == [] then 0 else Count(rows[..|rows|-1], p) + if p(rows[|rows|-1]) then 1 else 0
  }

  lemma CountOneMore<T>(rows: seq<T>, row: T, p: T -> bool)
    ensures Count(rows + [row], p) == Count(rows, p) + if p(row) then 1 else 0
  {
    assert (rows + [row])[..|rows|] == rows;
  }

  // ------------------------------------------------------------ confusion

  datatype Confusion = Confusion(tp: nat, fp: nat, fn: nat, tn: nat)

  predicate TruePositive(d: Decision) { !Escalated(d) && Blocked(d) && d.isFraud }
  predicate FalsePositive(d: Decision) { !Escalated(d) && Blocked(d) && !d.isFraud }
  predicate FalseNegative(d: Decision) { !Escalated(d) && !Blocked(d) && d.isFraud }
  predicate TrueNegative(d: Decision) { !Escalated(d) && !Blocked(d) && !d.isFraud }
  predicate EscalatedFraud(d: Decision) { Escalated(d) && d.isFraud }

  method ConfusionOf(decisions: seq<Decision>) returns (c: Confusion)
    ensures c == Confusion(Count(decisions, TruePositive), Count(decisions, FalsePositive),
                           Count(decisions, FalseNegative), Count(decisions, TrueNegative))
  {
    var tp, fp, fn, tn := 0, 0, 0, 0;
    for k := 0 to |decisions|
      invariant tp == Count(decisions[..k], TruePositive) && fp == Count(decisions[..k], FalsePositive)
      invariant fn == Count(decisions[..k], FalseNegative) && tn == Count(decisions[..k], TrueNegative)
    {
      var d := decisions[k];
      assert decisions[..k+1] == decisions[..k] + [d];
      CountOneMore(decisions[..k], d, TruePositive);
      CountOneMore(decisions[..k], d, FalsePositive);
      CountOneMore(decisions[..k], d, FalseNegative);
      CountOneMore(decisions[..k], d, TrueNegative);
      if d.decision == "ESCALATE" {
        continue;
      }
      var blocked := d.decision == "BLOCK";
      if blocked && d.isFraud {
        tp := tp + 1;
      } else if blocked && !d.isFraud {
        fp := fp + 1;
      } else if !blocked && d.isFraud {
        fn := fn + 1;
      } else {
        tn := tn + 1;
      }
    }
    assert decisions[..|decisions|] == decisions;
    c := Confusion(tp, fp, fn, tn);
  }

  /** Every decision is in exactly one cell or escalated. */
  lemma {:induction false} ConfusionIsConserved(decisions: seq<Decision>)
    ensures Count(decisions, TruePositive) + Count(decisions, FalsePositive) + Count(decisions, FalseNegative) +
            Count(decisions, TrueNegative) + Count(decisions, Escalated) == |decisions|
  {
    if decisions != [] { ConfusionIsConserved(decisions[..|decisions|-1]); }
  }

  // ------------------------------------------------------------ per-pattern table

  function Normal(p: string): string { Upper(Strip(p)) }

  function Normalised(raw: seq<string>): set<string> {
    set p | p in raw && Strip(p) != "" :: Normal(p)
  }

  /** `(x or default)` for an optional string. */
  function Or(x: Option<string>, default: string): string {
    if x.None? || x.value == "" then default else x.value
  }

  function Surfaced(d: Decision): set<string> {
    var listed := match d.elevated
                  case Absent => {}
                  case Joined(text) => Normalised(SplitOn(text, ","))
                  case Listed(patterns) => Normalised(patterns);
    var primary := Normal(Or(d.agent, ""));
    if primary != "" && primary != "NONE" then listed + {primary} else listed
  }

  function TruePattern(d: Decision): string { Normal(Or(d.truth, "UNKNOWN")) }

  predicate IsPrimary(d: Decision) { Normal(Or(d.agent, "NONE")) == TruePattern(d) }

  predicate IsDetected(d: Decision) { TruePattern(d) in Surfaced(d) }

  predicate IsCaught(d: Decision) { Blocked(d) || Escalated(d) }

  datatype Bucket = Bucket(n: nat, caught: nat, primaryCorrect: nat, detected: nat, mislabeled: nat, missed: nat)

  const EMPTY := Bucket(0, 0, 0, 0, 0, 0)

  /** A dictionary of buckets in insertion order. */
  datatype Table = Table(keys: seq<string>, buckets: map<string, Bucket>)

  ghost predicate WellFormed(t: Table) {
    Distinct(t.keys) && forall p :: p in t.keys <==> p in t.buckets
  }

  function OfPattern(pattern: string): Decision -> bool { (d: Decision) => d.isFraud && TruePattern(d) == pattern }

  function And(p: Decision -> bool, q: Decision -> bool): Decision -> bool { (d: Decision) => p(d) && q(d) }

  function Not(p: Decision -> bool): Decision -> bool { (d: Decision) => !p(d) }

  /** The bucket that counting would give. */
  function Tally(rows: seq<Decision>, pattern: string): Bucket {
    var mine := OfPattern(pattern);
    Bucket(Count(rows, mine), Count(rows, And(mine, IsCaught)), Count(rows, And(mine, IsPrimary)),
           Count(rows, And(mine, IsDetected)), Count(rows, And(mine, And(IsDetected, Not(IsPrimary)))),
           Count(rows, And(mine, Not(IsDetected))))
  }

  function Added(b: Bucket, d: Decision): Bucket {
    Bucket(b.n + 1,
           b.caught + if IsCaught(d) then 1 else 0,
           b.primaryCorrect + if IsPrimary(d) then 1 else 0,
           b.detected + if IsDetected(d) then 1 else 0,
           b.mislabeled + if IsDetected(d) && !IsPrimary(d) then 1 else 0,
           b.missed + if IsDetected(d) then 0 else 1)
  }

  lemma TallyOneMore(rows: seq<Decision>, d: Decision, pattern: string)
    ensures Tally(rows + [d], pattern) ==
            if d.isFraud && TruePattern(d) == pattern then Added(Tally(rows, pattern), d) else Tally(rows, pattern)
  {
    var mine := OfPattern(pattern);
    CountOneMore(rows, d, mine);
    CountOneMore(rows, d, And(mine, IsCaught));
    CountOneMore(rows, d, And(mine, IsPrimary));
    CountOneMore(rows, d, And(mine, IsDetected));
    CountOneMore(rows, d, And(mine, And(IsDetected, Not(IsPrimary))));
    CountOneMore(rows, d, And(mine, Not(IsDetected)));
  }

  /** The table holds `tally` for its patterns, and every other pattern tallies nothing. */
  ghost predicate Holds(t: Table, tally: string -> Bucket) {
    WellFormed(t) &&
    (forall p | p in t.buckets :: t.buckets[p] == tally(p)) &&
    forall p | p !in t.buckets :: tally(p) == EMPTY
  }

  ghost predicate IsTable(t: Table, rows: seq<Decision>) { Holds(t, p => Tally(rows, p)) }

  method PerPatternRecall(decisions: seq<Decision>) returns (t: Table)
    ensures IsTable(t, decisions)
  {
    t := Table([], map[]);
    for k := 0 to |decisions|
      invariant IsTable(t, decisions[..k])
    {
      var d := decisions[k];
      assert decisions[..k+1] == decisions[..k] + [d];
      TableStep(t, decisions[..k], d);
      if !d.isFraud {
        continue;
      }
      var pattern := TruePattern(d);
      if pattern !in t.buckets {
        t := Table(t.keys + [pattern], t.buckets[pattern := EMPTY]);
      }
      t := t.(buckets := t.buckets[pattern := Added(t.buckets[pattern], d)]);
    }
    assert decisions[..|decisions|] == decisions;
  }

  /** `setdefault` with an empty bucket, then the increments. */
  function Inserted(t: Table, p: string, bump: Bucket -> Bucket): Table {
    if p in t.buckets then t.(buckets := t.buckets[p := bump(t.buckets[p])])
    else Table(t.keys + [p], t.buckets[p := EMPTY][p := bump(EMPTY)])
  }

  lemma InsertedHolds(t: Table, before: string -> Bucket, after: string -> Bucket, p: string, bump: Bucket -> Bucket)
    requires Holds(t, before)
    requires forall k :: after(k) == if k == p then bump(before(k)) else before(k)
    ensures Holds(Inserted(t, p, bump), after)
  {
  }

  lemma TableStep(t: Table, rows: seq<Decision>, d: Decision)
    requires IsTable(t, rows)
    ensures IsTable(if d.isFraud then Inserted(t, TruePattern(d), b => Added(b, d)) else t, rows + [d])
  {
    var before, after := p => Tally(rows, p), p => Tally(rows + [d], p);
    forall p ensures after(p) == if d.isFraud && p == TruePattern(d) then Added(before(p), d) else before(p) {
      TallyOneMore(rows, d, p);
    }
    if d.isFraud {
      InsertedHolds(t, before, after, TruePattern(d), b => Added(b, d));
    }
  }

  // ------------------------------------------------------------ the table against the matrix

  function Sum(keys: seq<string>, f: string -> nat): nat {
    if keys == [] then 0 else Sum(keys[..|keys|-1], f) + f(keys[|keys|-1])
  }

  lemma {:induction false} SumSame(keys: seq<string>, f: string -> nat, g: string -> nat)
    requires forall k | k in keys :: f(k) == g(k)
    ensures Sum(keys, f) == Sum(keys, g)
  {
    if keys != [] {
      var init := keys[..|keys|-1];
      assert keys[|keys|-1] in keys && forall k | k in init :: k in keys;
      SumSame(init, f, g);
    }
  }

  lemma {:induction false} SumBump(keys: seq<string>, f: string -> nat, g: string -> nat, p: string, extra: nat)
    requires Distinct(keys) && p in keys && g(p) == f(p) + extra
    requires forall k | k != p :: g(k) == f(k)
    ensures Sum(keys, g) == Sum(keys, f) + extra
  {
    var init, last := keys[..|keys|-1], keys[|keys|-1];
    if last == p {
      assert p !in init;
      SumSame(init, f, g);
    } else {
      assert keys == init + [last];
      SumBump(init, f, g, p, extra);
    }
  }

  lemma {:induction false} SumZero(keys: seq<string>, f: string -> nat)
    requires forall k :: f(k) == 0
    ensures Sum(keys, f) == 0
  {
    if keys != [] { SumZero(keys[..|keys|-1], f); }
  }

  function PerPattern(rows: seq<Decision>, q: Decision -> bool): string -> nat {
    p => Count(rows, And(OfPattern(p), q))
  }

  predicate IsFraud(d: Decision) { d.isFraud }

  predicate Any(d: Decision) { true }

  /** Counting per true pattern and adding up is counting once, whatever is counted. */
  lemma {:induction false} PatternsPartition(keys: seq<string>, rows: seq<Decision>, q: Decision -> bool)
    requires Distinct(keys) && forall d | d in rows && d.isFraud :: TruePattern(d) in keys
    ensures Sum(keys, PerPattern(rows, q)) == Count(rows, And(IsFraud, q))
  {
    var f := PerPattern(rows, q);
    if rows == [] {
      SumZero(keys, f);
    } else {
      var init, d := rows[..|rows|-1], rows[|rows|-1];
      var before := PerPattern(init, q);
      assert d in rows && forall e | e in init :: e in rows;
      PatternsPartition(keys, init, q);
      assert forall p :: f(p) == before(p) + if d.isFraud && TruePattern(d) == p && q(d) then 1 else 0;
      if d.isFraud {
        SumBump(keys, before, f, TruePattern(d), if q(d) then 1 else 0);
      } else {
        SumSame(keys, before, f);
      }
    }
  }

  lemma {:induction false} CountSame<T>(rows: seq<T>, p: T -> bool, q: T -> bool)
    requires forall row | row in rows :: p(row) == q(row)
    ensures Count(rows, p) == Count(rows, q)
  {
    if rows != [] {
      var init := rows[..|rows|-1];
      assert rows[|rows|-1] in rows && forall row | row in init :: row in rows;
      CountSame(init, p, q);
    }
  }

  lemma {:induction false} CountSome<T>(rows: seq<T>, p: T -> bool, row: T)
    requires row in rows && p(row)
    ensures Count(rows, p) > 0
  {
    if rows[|rows|-1] != row {
      assert rows == rows[..|rows|-1] + [rows[|rows|-1]];
      CountSome(rows[..|rows|-1], p, row);
    }
  }

  lemma PatternsAreKeys(t: Table, rows: seq<Decision>, d: Decision)
    requires IsTable(t, rows) && d in rows && d.isFraud
    ensures TruePattern(d) in t.keys
  {
    CountSome(rows, OfPattern(TruePattern(d)), d);
    assert Tally(rows, TruePattern(d)).n > 0;
  }

  function NOf(t: Table): string -> nat { p => if p in t.buckets then t.buckets[p].n else 0 }

  function CaughtOf(t: Table): string -> nat { p => if p in t.buckets then t.buckets[p].caught else 0 }

  lemma AllPatternsAreKeys(t: Table, rows: seq<Decision>)
    requires IsTable(t, rows)
    ensures Distinct(t.keys) && forall d | d in rows && d.isFraud :: TruePattern(d) in t.keys
  {
    forall d | d in rows && d.isFraud ensures TruePattern(d) in t.keys { PatternsAreKeys(t, rows, d); }
  }

  lemma NAddsUp(t: Table, rows: seq<Decision>)
    requires IsTable(t, rows)
    ensures Sum(t.keys, NOf(t)) == Count(rows, And(IsFraud, Any))
  {
    AllPatternsAreKeys(t, rows);
    PatternsPartition(t.keys, rows, Any);
    var counted := PerPattern(rows, Any);
    forall p | p in t.keys ensures NOf(t)(p) == counted(p) {
      assert t.buckets[p] == Tally(rows, p);
      CountSame(rows, OfPattern(p), And(OfPattern(p), Any));
    }
    SumSame(t.keys, NOf(t), counted);
  }

  lemma CaughtAddsUp(t: Table, rows: seq<Decision>)
    requires IsTable(t, rows)
    ensures Sum(t.keys, CaughtOf(t)) == Count(rows, And(IsFraud, IsCaught))
  {
    AllPatternsAreKeys(t, rows);
    PatternsPartition(t.keys, rows, IsCaught);
    var counted := PerPattern(rows, IsCaught);
    forall p | p in t.keys ensures CaughtOf(t)(p) == counted(p) {
      assert t.buckets[p] == Tally(rows, p);
    }
    SumSame(t.keys, CaughtOf(t), counted);
  }

  /** The two reports agree: over all patterns, `n` adds up to the decided frauds plus the escalated ones, and
      `caught` to the blocked frauds plus the escalated ones. */
  lemma TableAgreesWithConfusion(t: Table, rows: seq<Decision>)
    requires IsTable(t, rows)
    ensures Sum(t.keys, NOf(t)) ==
            Count(rows, TruePositive) + Count(rows, FalseNegative) + Count(rows, EscalatedFraud)
    ensures Sum(t.keys, CaughtOf(t)) == Count(rows, TruePositive) + Count(rows, EscalatedFraud)
  {
    NAddsUp(t, rows);
    CaughtAddsUp(t, rows);
    FraudsSplit(rows);
  }

  lemma {:induction false} FraudsSplit(rows: seq<Decision>)
    ensures Count(rows, And(IsFraud, Any))
            == Count(rows, TruePositive) + Count(rows, FalseNegative) + Count(rows, EscalatedFraud)
    ensures Count(rows, And(IsFraud, IsCaught))
            == Count(rows, TruePositive) + Count(rows, EscalatedFraud)
  {
    if rows != [] {
      FraudsSplit(rows[..|rows|-1]);
      var d := rows[|rows|-1];
      assert And(IsFraud, Any)(d) == d.isFraud;
      assert And(IsFraud, IsCaught)(d) == (d.isFraud && (Blocked(d) || Escalated(d)));
      assert TruePositive(d) == (!Escalated(d) && Blocked(d) && d.isFraud);
      assert !(Blocked(d) && Escalated(d));
    }
  }

  // ------------------------------------------------------------ within one bucket

  /** A row whose label is the true pattern without that pattern being surfaced. */
  predicate Unsurfaced(d: Decision) { IsPrimary(d) && !IsDetected(d) }

  lemma {:induction false} BucketBalances(rows: seq<Decision>, pattern: string)
    ensures var b := Tally(rows, pattern);
            b.detected + b.missed == b.n &&
            b.detected + Count(rows, And(OfPattern(pattern), Unsurfaced)) == b.primaryCorrect + b.mislabeled
  {
    if rows != [] { BucketBalances(rows[..|rows|-1], pattern); }
  }

  lemma PrimaryIsSurfaced(d: Decision)
    requires TruePattern(d) != "NONE" && TruePattern(d) != ""
    ensures !Unsurfaced(d)
  {
    if IsPrimary(d) && (d.agent.None? || d.agent.value == "") { NormalNone(); }
  }

  lemma NormalNone()
    ensures Normal("NONE") == "NONE" && Normal("") == ""
  {
    assert Span("NONE", IsSpace) == 0;
    assert Strip("NONE") == "NONE";
    assert Upper("NONE") == "NONE";
  }

  lemma {:induction false} CountNone<T>(rows: seq<T>, p: T -> bool)
    requires forall row | row in rows :: !p(row)
    ensures Count(rows, p) == 0
  {
    if rows != [] {
      assert rows[|rows|-1] in rows && forall row | row in rows[..|rows|-1] :: row in rows;
      CountNone(rows[..|rows|-1], p);
    }
  }

  /** In every bucket detected and missed add up to `n`; detected is correct labels plus mislabels for every
      real pattern, and in the "NONE" and empty buckets exactly when no label is correct without its pattern
      having been surfaced. */
  lemma DetectionIsConserved(t: Table, rows: seq<Decision>, pattern: string)
    requires IsTable(t, rows) && pattern in t.buckets
    ensures var b := t.buckets[pattern];
            b.detected + b.missed == b.n &&
            (pattern != "NONE" && pattern != "" ==> b.detected == b.primaryCorrect + b.mislabeled) &&
            (b.detected == b.primaryCorrect + b.mislabeled <==>
             forall d | d in rows && d.isFraud && TruePattern(d) == pattern :: !Unsurfaced(d))
  {
    BucketBalances(rows, pattern);
    var bad := And(OfPattern(pattern), Unsurfaced);
    if pattern != "NONE" && pattern != "" {
      forall d | d in rows && OfPattern(pattern)(d) ensures !Unsurfaced(d) { PrimaryIsSurfaced(d); }
      CountNone(rows, bad);
    }
    if d :| d in rows && bad(d) {
      CountSome(rows, bad, d);
    } else {
      CountNone(rows, bad);
    }
  }

  /** A blocked fraud whose true pattern is recorded as "NONE", and which the system left unlabelled. */
  const UNLABELLED := Decision("BLOCK", true, Some("NONE"), None, Absent, None)

  /** In its bucket one label is correct, yet nothing was detected and nothing mislabelled. */
  lemma NoneBucketDisagrees(t: Table)
    requires IsTable(t, [UNLABELLED])
    ensures "NONE" in t.buckets && t.buckets["NONE"] == Bucket(1, 1, 1, 0, 0, 1)
  {
    NormalNone();
    var d := UNLABELLED;
    assert TruePattern(d) == "NONE" && IsPrimary(d) && !IsDetected(d) && IsCaught(d);
    assert [] + [d] == [d];
    TallyOneMore([], d, "NONE");
    assert Tally([], "NONE") == EMPTY;
    assert Tally([d], "NONE") == Bucket(1, 1, 1, 0, 0, 1);
  }

  // ------------------------------------------------------------ calibration

  function FraudProbability(d: Decision): Option<real> {
    if d.confidence.None? || Escalated(d) then None
    else if Blocked(d) then d.confidence else Some(1.0 - d.confidence.value)
  }

  function Edge(i: int, bins: nat): real
    requires bins > 0
  {
    i as real / bins as real
  }

  predicate InBin(p: real, i: int, bins: nat)
    requires bins > 0
  {
    Edge(i, bins) <= p < Edge(i + 1, bins) || (i == bins - 1 && p == Edge(i + 1, bins))
  }

  function Pairs(decisions: seq<Decision>): seq<(real, bool)> {
    if decisions == [] then []
    else
      var d := decisions[|decisions|-1];
      Pairs(decisions[..|decisions|-1]) +
      if FraudProbability(d).Some? then [(FraudProbability(d).value, d.isFraud)] else []
  }

  function Member(i: int, bins: nat): ((real, bool)) -> bool
    requires bins > 0
  {
    (x: (real, bool)) => InBin(x.0, i, bins)
  }

  type Pair = (real, bool)

  function Prob(): Pair -> real { (x: Pair) => x.0 }

  function Outcome(): Pair -> real { (x: Pair) => if x.1 then 1.0 else 0.0 }

  function SquaredError(): Pair -> real { (x: Pair) => (x.0 - Outcome()(x)) * (x.0 - Outcome()(x)) }

  function SumIf(pairs: seq<Pair>, p: Pair -> bool, f: Pair -> real): real {
    if pairs == [] then 0.0
    else SumIf(pairs[..|pairs|-1], p, f) + if p(pairs[|pairs|-1]) then f(pairs[|pairs|-1]) else 0.0
  }

  /** One row of the reliability table. */
  datatype Bin = Bin(index: nat, n: nat, meanPredicted: real, observedRate: real)

  function BinOf(pairs: seq<Pair>, i: nat, bins: nat): Bin
    requires bins > 0 && Count(pairs, Member(i, bins)) > 0
  {
    var size := Count(pairs, Member(i, bins));
    Bin(i, size, SumIf(pairs, Member(i, bins), Prob()) / size as real, SumIf(pairs, Member(i, bins), Outcome()) / size as real)
  }

  /** The rows of the nonempty bins among the first `n`. */
  function BinRows(pairs: seq<Pair>, n: nat, bins: nat): seq<Bin>
    requires bins > 0
  {
    if n == 0 then []
    else BinRows(pairs, n - 1, bins) +
         if Count(pairs, Member(n - 1, bins)) == 0 then [] else [BinOf(pairs, n - 1, bins)]
  }

  function Reliability(pairs: seq<Pair>, bins: int): seq<Bin> {
    if bins <= 0 then [] else BinRows(pairs, bins, bins)
  }

  function BrierScore(pairs: seq<Pair>): Option<real> {
    if pairs == [] then None else Some(SumIf(pairs, (x: Pair) => true, SquaredError()) / |pairs| as real)
  }

  method CollectPairs(decisions: seq<Decision>) returns (pairs: seq<Pair>)
    ensures pairs == Pairs(decisions)
  {
    pairs := [];
    for k := 0 to |decisions|
      invariant pairs == Pairs(decisions[..k])
    {
      var d := decisions[k];
      assert decisions[..k+1][..k] == decisions[..k];
      var p := FraudProbability(d);
      if p.Some? {
        pairs := pairs + [(p.value, d.isFraud)];
      }
    }
    assert decisions[..|decisions|] == decisions;
  }

  /** Summing a quantity over the pairs that satisfy a test. */
  method AddUp(pairs: seq<Pair>, p: Pair -> bool, f: Pair -> real) returns (size: nat, sum: real)
    ensures size == Count(pairs, p) && sum == SumIf(pairs, p, f)
  {
    size, sum := 0, 0.0;
    for k := 0 to |pairs|
      invariant size == Count(pairs[..k], p) && sum == SumIf(pairs[..k], p, f)
    {
      assert pairs[..k+1][..k] == pairs[..k];
      if p(pairs[k]) {
        size, sum := size + 1, sum + f(pairs[k]);
      }
    }
    assert pairs[..|pairs|] == pairs;
  }

  /** `calibration`, before rounding. */
  method Calibrate(decisions: seq<Decision>, bins: int) returns (brier: Option<real>, n: nat, table: seq<Bin>)
    ensures brier == BrierScore(Pairs(decisions)) && n == |Pairs(decisions)|
    ensures table == Reliability(Pairs(decisions), bins)
  {
    var pairs := CollectPairs(decisions);
    n, table := |pairs|, [];
    if pairs == [] {
      NoPairsNoBins(if bins < 0 then 0 else bins, if bins < 1 then 1 else bins);
      return None, 0, [];
    }
    var all, errors := AddUp(pairs, (x: Pair) => true, SquaredError());
    brier := Some(errors / |pairs| as real);
    var i := 0;
    while i < bins
      invariant 0 <= i && (bins >= 0 ==> i <= bins) && (bins < 0 ==> i == 0)
      invariant table == if bins <= 0 then [] else BinRows(pairs, i, bins)
    {
      var size, predicted := AddUp(pairs, Member(i, bins), Prob());
      var _, positive := AddUp(pairs, Member(i, bins), Outcome());
      if size != 0 {
        table := table + [Bin(i, size, predicted / size as real, positive / size as real)];
      }
      i := i + 1;
    }
  }

  lemma {:induction false} NoPairsNoBins(n: nat, bins: nat)
    requires bins > 0
    ensures BinRows([], n, bins) == []
  {
    if n > 0 { NoPairsNoBins(n - 1, bins); }
  }

  function TotalSize(table: seq<Bin>): nat {
    if table == [] then 0 else TotalSize(table[..|table|-1]) + table[|table|-1].n
  }

  lemma TotalOneMore(table: seq<Bin>, more: seq<Bin>)
    requires |more| <= 1
    ensures TotalSize(table + more) == TotalSize(table) + if more == [] then 0 else more[0].n
  {
    if more == [] {
      assert table + more == table;
    } else {
      assert (table + more)[..|table|] == table;
    }
  }

  /** In how many of the first `n` bins a probability falls. */
  function InBins(p: real, n: nat, bins: nat): nat
    requires bins > 0
  {
    if n == 0 then 0 else InBins(p, n - 1, bins) + if InBin(p, n - 1, bins) then 1 else 0
  }

  lemma EdgesGrow(i: int, bins: nat)
    requires bins > 0
    ensures Edge(i, bins) < Edge(i + 1, bins) && Edge(0, bins) == 0.0 && Edge(bins, bins) == 1.0
  {
    var width := 1.0 / bins as real;
    assert width > 0.0;
    assert Edge(i + 1, bins) == Edge(i, bins) + width;
  }

  /** The bins partition the unit interval: a probability falls into one bin, anything else into none. */
  lemma {:induction false} BinsPartition(p: real, n: nat, bins: nat)
    requires n <= bins && bins > 0
    ensures InBins(p, n, bins) ==
            if 0.0 <= p && (p < Edge(n, bins) || (n == bins && p == Edge(n, bins))) then 1 else 0
  {
    EdgesGrow(n, bins);
    if n > 0 {
      BinsPartition(p, n - 1, bins);
      EdgesGrow(n - 1, bins);
      EdgeIsNonnegative(n - 1, bins);
    }
  }

  lemma EdgeIsNonnegative(i: nat, bins: nat)
    requires bins > 0
    ensures Edge(i, bins) >= 0.0
  {
  }

  function Fallen(pairs: seq<(real, bool)>, n: nat, bins: nat): nat
    requires bins > 0
  {
    if pairs == [] then 0 else Fallen(pairs[..|pairs|-1], n, bins) + InBins(pairs[|pairs|-1].0, n, bins)
  }

  lemma {:induction false} FallenOneMoreBin(pairs: seq<(real, bool)>, n: nat, bins: nat)
    requires n > 0 && bins > 0
    ensures Fallen(pairs, n, bins) == Fallen(pairs, n - 1, bins) + Count(pairs, Member(n - 1, bins))
  {
    if pairs != [] { FallenOneMoreBin(pairs[..|pairs|-1], n, bins); }
  }

  /** Adding up over the bins is adding up over the pairs. */
  lemma {:induction false} BinsCountPairs(pairs: seq<(real, bool)>, n: nat, bins: nat)
    requires bins > 0
    ensures TotalSize(BinRows(pairs, n, bins)) == Fallen(pairs, n, bins)
  {
    if n == 0 {
      NothingFallen(pairs, bins);
    } else {
      BinsCountPairs(pairs, n - 1, bins);
      TotalOneMore(BinRows(pairs, n - 1, bins),
                   if Count(pairs, Member(n - 1, bins)) == 0 then [] else [BinOf(pairs, n - 1, bins)]);
      FallenOneMoreBin(pairs, n, bins);
    }
  }

  lemma {:induction false} NothingFallen(pairs: seq<(real, bool)>, bins: nat)
    requires bins > 0
    ensures Fallen(pairs, 0, bins) == 0
  {
    if pairs != [] { NothingFallen(pairs[..|pairs|-1], bins); }
  }

  predicate Unit(x: (real, bool)) { 0.0 <= x.0 <= 1.0 }

  lemma {:induction false} FallenAreUnit(pairs: seq<(real, bool)>, bins: nat)
    requires bins > 0
    ensures Fallen(pairs, bins, bins) == Count(pairs, Unit)
  {
    if pairs != [] {
      FallenAreUnit(pairs[..|pairs|-1], bins);
      BinsPartition(pairs[|pairs|-1].0, bins, bins);
      EdgesGrow(0, bins);
    }
  }

  lemma {:induction false} CountIsFull<T>(rows: seq<T>, p: T -> bool)
    ensures Count(rows, p) <= |rows|
    ensures Count(rows, p) == |rows| <==> forall row | row in rows :: p(row)
  {
    if rows != [] {
      var init, last := rows[..|rows|-1], rows[|rows|-1];
      assert rows == init + [last] && last in rows;
      assert forall row | row in rows :: row in init || row == last;
      assert forall row | row in init :: row in rows;
      CountIsFull(init, p);
    }
  }

  /** The reliability table accounts for every pair exactly when there is nothing to account for, or there is a
      bin and every implied probability lies in the unit interval. */
  lemma CalibrationIsConserved(pairs: seq<(real, bool)>, bins: int)
    ensures TotalSize(Reliability(pairs, bins)) == |pairs|
            <==> pairs == [] || (bins >= 1 && forall x | x in pairs :: 0.0 <= x.0 <= 1.0)
  {
    if bins >= 1 {
      BinsCountPairs(pairs, bins, bins);
      FallenAreUnit(pairs, bins);
      CountIsFull(pairs, Unit);
      assert (forall x | x in pairs :: Unit(x)) <==> forall x | x in pairs :: 0.0 <= x.0 <= 1.0;
    }
  }

  // ------------------------------------------------------------ the bins' means

  /** A mean of the table, weighted by the sizes of the bins. */
  function Weighted(table: seq<Bin>, mean: Bin -> real): real {
    if table == [] then 0.0
    else Weighted(table[..|table|-1], mean) + table[|table|-1].n as real * mean(table[|table|-1])
  }

  /** The sum over the bins of the sums in each. */
  function Spread(pairs: seq<Pair>, n: nat, bins: nat, f: Pair -> real): real
    requires bins > 0
  {
    if n == 0 then 0.0 else Spread(pairs, n - 1, bins, f) + SumIf(pairs, Member(n - 1, bins), f)
  }

  lemma {:induction false} NoneAddsNothing(pairs: seq<Pair>, p: Pair -> bool, f: Pair -> real)
    requires Count(pairs, p) == 0
    ensures SumIf(pairs, p, f) == 0.0
  {
    if pairs != [] { NoneAddsNothing(pairs[..|pairs|-1], p, f); }
  }

  lemma WeightedOneMore(table: seq<Bin>, b: Bin, mean: Bin -> real)
    ensures Weighted(table + [b], mean) == Weighted(table, mean) + b.n as real * mean(b)
  {
    assert (table + [b])[..|table|] == table;
  }

  /** A size times a mean is the sum it was taken from. */
  lemma SizeTimesMean(sum: real, size: nat)
    requires size > 0
    ensures size as real * (sum / size as real) == sum
  {
  }

  ghost predicate IsMeanOf(pairs: seq<Pair>, bins: nat, mean: Bin -> real, f: Pair -> real)
    requires bins > 0
  {
    forall i: nat | Count(pairs, Member(i, bins)) > 0 ::
      mean(BinOf(pairs, i, bins)) == SumIf(pairs, Member(i, bins), f) / Count(pairs, Member(i, bins)) as real
  }

  lemma {:induction false} WeightedIsSpread(pairs: seq<Pair>, n: nat, bins: nat, mean: Bin -> real, f: Pair -> real)
    requires bins > 0 && IsMeanOf(pairs, bins, mean, f)
    ensures Weighted(BinRows(pairs, n, bins), mean) == Spread(pairs, n, bins, f)
  {
    if n > 0 {
      WeightedIsSpread(pairs, n - 1, bins, mean, f);
      var size := Count(pairs, Member(n - 1, bins));
      if size == 0 {
        NoneAddsNothing(pairs, Member(n - 1, bins), f);
        assert BinRows(pairs, n - 1, bins) + [] == BinRows(pairs, n - 1, bins);
      } else {
        WeightedOneMore(BinRows(pairs, n - 1, bins), BinOf(pairs, n - 1, bins), mean);
        SizeTimesMean(SumIf(pairs, Member(n - 1, bins), f), size);
      }
    }
  }

  function Times(k: nat, x: real): real { if k == 0 then 0.0 else Times(k - 1, x) + x }

  lemma {:induction false} SpreadOneMore(init: seq<Pair>, last: Pair, n: nat, bins: nat, f: Pair -> real)
    requires bins > 0
    ensures Spread(init + [last], n, bins, f) == Spread(init, n, bins, f) + Times(InBins(last.0, n, bins), f(last))
  {
    if n > 0 {
      SpreadOneMore(init, last, n - 1, bins, f);
      assert (init + [last])[..|init|] == init;
    }
  }

  lemma {:induction false} SpreadIsUnitSum(pairs: seq<Pair>, bins: nat, f: Pair -> real)
    requires bins > 0
    ensures Spread(pairs, bins, bins, f) == SumIf(pairs, Unit, f)
  {
    if pairs == [] {
      NothingSpread(bins, bins, f);
    } else {
      var init, last := pairs[..|pairs|-1], pairs[|pairs|-1];
      assert pairs == init + [last];
      SpreadIsUnitSum(init, bins, f);
      SpreadOneMore(init, last, bins, bins, f);
      BinsPartition(last.0, bins, bins);
      EdgesGrow(0, bins);
      assert Times(1, f(last)) == f(last);
    }
  }

  lemma {:induction false} NothingSpread(n: nat, bins: nat, f: Pair -> real)
    requires bins > 0
    ensures Spread([], n, bins, f) == 0.0
  {
    if n > 0 { NothingSpread(n - 1, bins, f); }
  }

  function Predicted(): Bin -> real { (b: Bin) => b.meanPredicted }

  function Observed(): Bin -> real { (b: Bin) => b.observedRate }

  /** The table's means are the data's: weighted by the bins' sizes, the predicted means add up to the sum of all
      implied probabilities in the unit interval, and the observed rates to the number of frauds among them. */
  lemma MeansAreConserved(pairs: seq<Pair>, bins: nat)
    requires bins >= 1
    ensures Weighted(Reliability(pairs, bins), Predicted()) == SumIf(pairs, Unit, Prob())
    ensures Weighted(Reliability(pairs, bins), Observed()) == SumIf(pairs, Unit, Outcome())
  {
    WeightedIsSpread(pairs, bins, bins, Predicted(), Prob());
    WeightedIsSpread(pairs, bins, bins, Observed(), Outcome());
    SpreadIsUnitSum(pairs, bins, Prob());
    SpreadIsUnitSum(pairs, bins, Outcome());
  }

  // ------------------------------------------------------------ what a decision says

  predicate Given(x: Option<string>) { x.Some? && x.value != "" }

  /** The decision lists the name as an elevated pattern: in a list, or between the commas of a text. */
  predicate ListsName(d: Decision, raw: string) {
    match d.elevated
    case Absent => false
    case Joined(text) => raw in SplitOn(text, ",")
    case Listed(patterns) => raw in patterns
  }

  lemma UpperEmpty(s: string)
    ensures Upper(s) == "" <==> s == ""
  {
    assert |Upper(s)| == |s|;
  }

  lemma NormalisedExactly(raw: seq<string>, p: string)
    ensures p in Normalised(raw) <==> p != "" && exists r :: r in raw && Upper(Strip(r)) == p
  {
    if r :| r in raw && Upper(Strip(r)) == p && p != "" { UpperEmpty(Strip(r)); }
    if p in Normalised(raw) {
      var r :| r in raw && Strip(r) != "" && Normal(r) == p;
      UpperEmpty(Strip(r));
    }
  }

  /** A pattern is surfaced exactly when a listed name, or the final label unless that is "NONE", is the pattern but for
      case and the space around it. */
  lemma SurfacedExactly(d: Decision, p: string)
    ensures p in Surfaced(d) <==>
            p != "" && ((exists raw :: ListsName(d, raw) && Upper(Strip(raw)) == p) ||
                        (p != "NONE" && Given(d.agent) && Upper(Strip(d.agent.value)) == p))
  {
    NormalNone();
    match d.elevated
    case Absent =>
    case Joined(text) => NormalisedExactly(SplitOn(text, ","), p);
    case Listed(patterns) => NormalisedExactly(patterns, p);
  }

  /** The true pattern, without one "UNKNOWN"; the label is right when it names it, "NONE" standing for no label; a fraud
      is caught when it is blocked or escalated. */
  lemma LabelsExactly(d: Decision)
    ensures TruePattern(d) == Upper(Strip(if Given(d.truth) then d.truth.value else "UNKNOWN"))
    ensures IsPrimary(d) <==> Upper(Strip(if Given(d.agent) then d.agent.value else "NONE")) == TruePattern(d)
    ensures IsCaught(d) <==> d.decision == "BLOCK" || d.decision == "ESCALATE"
  {
  }

  /** The decision gives this pair: the confidence of a block, the complement of that of anything else but an
      escalation, and whether there was fraud. */
  predicate Implies(d: Decision, x: Pair) {
    d.confidence.Some? && d.decision != "ESCALATE" && x.1 == d.isFraud &&
    x.0 == if d.decision == "BLOCK" then d.confidence.value else 1.0 - d.confidence.value
  }

  function Gives(x: Pair): Decision -> bool { (d: Decision) => Implies(d, x) }

  /** The calibration's pairs are those that the decisions give, each as often as it is given. */
  lemma {:induction false} PairsExactly(decisions: seq<Decision>, x: Pair)
    ensures multiset(Pairs(decisions))[x] == Count(decisions, Gives(x))
  {
    if decisions != [] {
      var init, d := decisions[..|decisions|-1], decisions[|decisions|-1];
      PairsExactly(init, x);
      var more := if FraudProbability(d).Some? then [(FraudProbability(d).value, d.isFraud)] else [];
      assert Pairs(decisions) == Pairs(init) + more;
      assert multiset(Pairs(init) + more) == multiset(Pairs(init)) + multiset(more);
    }
  }

  lemma {:induction false} ErrorsAddUp(pairs: seq<Pair>)
    ensures var sum := SumIf(pairs, (x: Pair) => true, SquaredError());
            ((forall x | x in pairs :: x.0 == Outcome()(x)) ==> sum == 0.0) &&
            ((exists x :: x in pairs && x.0 != Outcome()(x)) ==> sum > 0.0)
  {
    if pairs != [] {
      var init, last := pairs[..|pairs|-1], pairs[|pairs|-1];
      assert pairs == init + [last];
      ErrorsAddUp(init);
      ErrorSign(last, SquaredError()(last));
    }
  }

  lemma ErrorSign(x: Pair, error: real)
    requires error == SquaredError()(x)
    ensures if x.0 == Outcome()(x) then error == 0.0 else error > 0.0
  {
    var e := x.0 - Outcome()(x);
    ProductSign(e, e, error);
  }

  lemma ProductSign(a: real, b: real, product: real)
    requires product == a * b && (a > 0.0 <==> b > 0.0) && (a < 0.0 <==> b < 0.0)
    ensures if a == 0.0 then product == 0.0 else product > 0.0
  {
    if a > 0.0 { PositiveProduct(a, b, product); }
    if a < 0.0 { NegativeProduct(a, b, product); }
  }

  lemma PositiveProduct(a: real, b: real, product: real)
    requires product == a * b && a > 0.0 && b > 0.0
    ensures product > 0.0
  {
  }

  lemma NegativeProduct(a: real, b: real, product: real)
    requires product == a * b && a < 0.0 && b < 0.0
    ensures product > 0.0
  {
  }

  lemma QuotientSign(a: real, n: real)
    requires a >= 0.0 && n > 0.0
    ensures if a == 0.0 then a / n == 0.0 else a / n > 0.0
  {
    assert (a / n) * n == a;
  }

  /** The Brier score is zero when every probability is the outcome itself, and only then; else it is positive. */
  lemma BrierIsZeroExactly(pairs: seq<Pair>)
    requires pairs != []
    ensures BrierScore(pairs).Some?
    ensures if forall x | x in pairs :: x.0 == (if x.1 then 1.0 else 0.0) then BrierScore(pairs).value == 0.0
            else BrierScore(pairs).value > 0.0
  {
    ErrorsAddUp(pairs);
    QuotientSign(SumIf(pairs, (x: Pair) => true, SquaredError()), |pairs| as real);
  }
}
