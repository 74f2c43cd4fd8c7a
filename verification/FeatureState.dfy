/** The online feature state: one winner per user and batch, and the location baseline the geo rule trusts. */
module FeatureState {
  import opened Wrappers
  import opened Text

  // ------------------------------------------------------------ scoring one transaction

  const HARD_RULE_GEO_MIN_JUMP_KM := 3000.0
  const IMPOSSIBLE_TRAVEL_SPEED_KMH := 900.0
  const SPEED_RULE_MIN_DISTANCE_KM := 100.0

  datatype Location = Location(lat: Option<real>, lon: Option<real>, city: string, ts: Option<string>)

  /** `valid` is whether everything else about the row passes the validators. */
  datatype Transaction = Transaction(
    user: string, ts: Option<string>, lat: Option<real>, lon: Option<real>, city: string, valid: bool)

  datatype FeatureRow = FeatureRow(
    user: string, ts: Option<string>, lat: Option<real>, lon: Option<real>, city: string, suspect: bool)

  /** The great-circle distance, and the minutes from one timestamp to another if both can be read. */
  datatype Geo = Geo(distance: (real, real, real, real) -> real, minutes: (string, string) -> Option<real>)

  /** Python takes zero and the empty string for absent here. */
  function Nonzero(x: Option<real>): Option<real> { if x == Some(0.0) then None else x }

  function Nonempty(s: Option<string>): Option<string> { if s == Some("") then None else s }

  datatype Delta = Delta(km: Option<real>, minutes: Option<real>)

  function Distance(g: Geo, from: Location, t: Transaction): Option<real> {
    var lat, lon := Nonzero(t.lat), Nonzero(t.lon);
    if from.lat.Some? && from.lon.Some? && lat.Some? && lon.Some?
    then Some(g.distance(from.lat.value, from.lon.value, lat.value, lon.value)) else None
  }

  function Minutes(g: Geo, from: Location, t: Transaction): Option<real> {
    var before, now := Nonempty(from.ts), Nonempty(t.ts);
    if before.Some? && now.Some? then g.minutes(before.value, now.value) else None
  }

  /** The geo features, after the ordering guard. */
  function GeoDelta(g: Geo, baseline: Option<Location>, t: Transaction): Delta {
    if baseline.None? || Nonzero(t.lat).None? || Nonzero(t.lon).None? then Delta(None, None)
    else
      var minutes := Minutes(g, baseline.value, t);
      if minutes.Some? && minutes.value <= 0.0 then Delta(None, None)
      else Delta(Distance(g, baseline.value, t), minutes)
  }

  function ImpliedSpeed(d: Delta): Option<real> {
    if d.km.None? || d.minutes.None? || d.minutes.value <= 0.0 then None
    else Some(d.km.value / (d.minutes.value / 60.0))
  }

  predicate GeoHardRule(d: Delta) {
    d.km.Some? &&
    (d.km.value >= HARD_RULE_GEO_MIN_JUMP_KM ||
     (ImpliedSpeed(d).Some? && ImpliedSpeed(d).value > IMPOSSIBLE_TRAVEL_SPEED_KMH &&
      d.km.value >= SPEED_RULE_MIN_DISTANCE_KM))
  }

  /** The feature row, or nothing when the transaction is quarantined. */
  function BuildFeatureRow(g: Geo, baseline: Option<Location>, t: Transaction): Option<FeatureRow> {
    if !t.valid then None
    else Some(FeatureRow(t.user, Nonempty(t.ts), Nonzero(t.lat), Nonzero(t.lon), t.city,
                         GeoHardRule(GeoDelta(g, baseline, t))))
  }

  // ------------------------------------------------------------ one winner per user

  /** `str(features.get("transaction_ts", ""))`: a missing timestamp reads "None". */
  function TsKey(f: FeatureRow): string { if f.ts.None? then "None" else f.ts.value }

  /** The row kept for each user: a later one replaces it only with a greater timestamp string. */
  function Latest(rows: seq<FeatureRow>): map<string, FeatureRow> {
    if rows == [] then map[]
    else
      var kept, f := Latest(rows[..|rows|-1]), rows[|rows|-1];
      if f.user == "" then kept
      else if f.user !in kept || StrLess(TsKey(kept[f.user]), TsKey(f)) then kept[f.user := f]
      else kept
  }

  /** `rows[i]` has the greatest timestamp string among its user's rows, and is the first that has it. */
  ghost predicate IsWinner(rows: seq<FeatureRow>, i: nat) {
    i < |rows| && rows[i].user != "" &&
    (forall j | 0 <= j < i && rows[j].user == rows[i].user :: StrLess(TsKey(rows[j]), TsKey(rows[i]))) &&
    (forall j | i < j < |rows| && rows[j].user == rows[i].user :: !StrLess(TsKey(rows[i]), TsKey(rows[j])))
  }

  predicate HasRow(rows: seq<FeatureRow>, user: string) {
    user != "" && exists i | 0 <= i < |rows| :: rows[i].user == user
  }

  lemma WinnerStays(rows: seq<FeatureRow>, f: FeatureRow, i: nat)
    requires IsWinner(rows, i)
    requires f.user == rows[i].user ==> !StrLess(TsKey(rows[i]), TsKey(f))
    ensures IsWinner(rows + [f], i)
  {
  }

  lemma WinnerReplaced(rows: seq<FeatureRow>, f: FeatureRow, i: nat)
    requires IsWinner(rows, i) && f.user == rows[i].user && StrLess(TsKey(rows[i]), TsKey(f))
    ensures IsWinner(rows + [f], |rows|)
  {
    var all := rows + [f];
    forall j | 0 <= j < |rows| && all[j].user == f.user ensures StrLess(TsKey(all[j]), TsKey(f)) {
      if j < i {
        StrLessTransitive(TsKey(rows[j]), TsKey(rows[i]), TsKey(f));
      } else if j > i {
        StrLessTotal(TsKey(rows[j]), TsKey(rows[i]));
        if StrLess(TsKey(rows[j]), TsKey(rows[i])) {
          StrLessTransitive(TsKey(rows[j]), TsKey(rows[i]), TsKey(f));
        }
      }
    }
  }

  lemma HasRowStep(rows: seq<FeatureRow>, f: FeatureRow, user: string)
    ensures HasRow(rows + [f], user) <==> HasRow(rows, user) || (user != "" && f.user == user)
  {
    var all := rows + [f];
    assert all[|rows|] == f;
    assert forall i | 0 <= i < |rows| :: all[i] == rows[i];
  }

  lemma {:induction false} LatestUsers(rows: seq<FeatureRow>, user: string)
    ensures user in Latest(rows) <==> HasRow(rows, user)
  {
    if rows != [] {
      var init, f := rows[..|rows|-1], rows[|rows|-1];
      assert rows == init + [f];
      LatestUsers(init, user);
      HasRowStep(init, f, user);
    }
  }

  ghost predicate Wins(rows: seq<FeatureRow>, i: nat, user: string, f: FeatureRow) {
    IsWinner(rows, i) && rows[i] == f && f.user == user
  }

  lemma WinsStep(rows: seq<FeatureRow>, f: FeatureRow, i: nat, user: string, kept: FeatureRow)
    requires Wins(rows, i, user, kept)
    ensures if f.user == user && StrLess(TsKey(kept), TsKey(f))
            then Wins(rows + [f], |rows|, user, f) else Wins(rows + [f], i, user, kept)
  {
    if f.user == user && StrLess(TsKey(kept), TsKey(f)) {
      WinnerReplaced(rows, f, i);
    } else {
      WinnerStays(rows, f, i);
    }
  }

  lemma {:induction false} LatestWins(rows: seq<FeatureRow>, user: string) returns (i: nat)
    requires user in Latest(rows)
    ensures Wins(rows, i, user, Latest(rows)[user])
  {
    var init, f := rows[..|rows|-1], rows[|rows|-1];
    assert rows == init + [f];
    var kept := Latest(init);
    LatestUsers(init, user);
    LatestUsers(init, f.user);
    if user in kept {
      i := LatestWins(init, user);
      WinsStep(init, f, i, user, kept[user]);
      if f.user == user && StrLess(TsKey(kept[user]), TsKey(f)) { i := |init|; }
    } else {
      FirstRowWins(init, f);
      i := |init|;
    }
  }

  /** A batch keeps, for exactly the users that have rows, the first row with the greatest timestamp string. */
  lemma LatestIsWinner(rows: seq<FeatureRow>, user: string)
    ensures user in Latest(rows) <==> HasRow(rows, user)
    ensures user in Latest(rows) ==> exists i: nat :: Wins(rows, i, user, Latest(rows)[user])
  {
    LatestUsers(rows, user);
    if user in Latest(rows) {
      var i := LatestWins(rows, user);
    }
  }

  lemma FirstRowWins(rows: seq<FeatureRow>, f: FeatureRow)
    requires f.user != "" && !HasRow(rows, f.user)
    ensures IsWinner(rows + [f], |rows|)
  {
  }

  // ------------------------------------------------------------ rows without a timestamp

  /** Timestamps are written as dates are: with a digit first. */
  predicate Dated(rows: seq<FeatureRow>) {
    forall f | f in rows && f.ts.Some? :: f.ts.value != "" && IsDigit(f.ts.value[0])
  }

  lemma DatesComeFirst(ts: string)
    requires ts != "" && IsDigit(ts[0])
    ensures StrLess(ts, "None") && !StrLess("None", ts)
  {
  }

  /** The fold alone would let a row without a timestamp displace a dated one of the same user, whichever comes
      first; the stream's filter keeps such rows out. */
  lemma UndatedRowIsKept(dated: FeatureRow, undated: FeatureRow)
    requires dated.user == undated.user != "" && undated.ts.None?
    requires dated.ts.Some? && dated.ts.value != "" && IsDigit(dated.ts.value[0])
    ensures Latest([dated, undated]) == map[dated.user := undated]
    ensures Latest([undated, dated]) == map[dated.user := undated]
  {
    DatesComeFirst(dated.ts.value);
    LatestOfTwo(dated, undated);
    LatestOfTwo(undated, dated);
  }

  lemma LatestOfTwo(a: FeatureRow, b: FeatureRow)
    requires a.user == b.user != ""
    ensures Latest([a, b]) == map[a.user := if StrLess(TsKey(a), TsKey(b)) then b else a]
  {
    assert [a, b][..1] == [a] && [a][..0] == [];
    assert Latest([a]) == map[a.user := a];
  }

  /** No row of the user has a later timestamp than `f`, and `f` has one if any row has. */
  predicate LatestByDate(rows: seq<FeatureRow>, user: string, f: FeatureRow) {
    forall r | r in rows && r.user == user && r.ts.Some? :: f.ts.Some? && !StrLess(f.ts.value, r.ts.value)
  }

  /** All rows of the user have a timestamp, or none has. */
  predicate Uniform(rows: seq<FeatureRow>, user: string) {
    (forall r | r in rows && r.user == user :: r.ts.Some?) || (forall r | r in rows && r.user == user :: r.ts.None?)
  }

  /** The kept row is the latest by date exactly when the batch does not mix dated and undated rows of the user:
      a condition on the batch alone. */
  lemma LatestByDateExactly(rows: seq<FeatureRow>, user: string)
    requires Dated(rows) && user in Latest(rows)
    ensures LatestByDate(rows, user, Latest(rows)[user]) <==> Uniform(rows, user)
  {
    var f := Latest(rows)[user];
    var i := LatestWins(rows, user);
    assert f in rows;
    forall r | r in rows && r.user == user ensures !StrLess(TsKey(f), TsKey(r)) {
      WinnerIsGreatest(rows, i, r);
    }
    if r :| r in rows && r.user == user && r.ts.None? {
      if f.ts.Some? { DatesComeFirst(f.ts.value); }
      assert f.ts.None?;
    }
  }

  lemma WinnerIsGreatest(rows: seq<FeatureRow>, i: nat, r: FeatureRow)
    requires IsWinner(rows, i) && r in rows && r.user == rows[i].user
    ensures !StrLess(TsKey(rows[i]), TsKey(r))
  {
    var j :| 0 <= j < |rows| && rows[j] == r;
    if j < i {
      StrLessTotal(TsKey(rows[j]), TsKey(rows[i]));
    } else if j == i {
      StrLessTotal(TsKey(r), TsKey(r));
    }
  }

  // ------------------------------------------------------------ the store

  datatype Online = Online(features: map<string, FeatureRow>, locations: map<string, Location>)

  function LocationOf(f: FeatureRow): Location { Location(f.lat, f.lon, f.city, f.ts) }

  function BaselineOf(s: Online, user: string): Option<Location> {
    if user in s.locations then Some(s.locations[user]) else None
  }

  /** The rows of a batch that are not quarantined, each scored against the baselines at the batch's start. */
  function Built(g: Geo, s: Online, batch: seq<Transaction>): seq<FeatureRow> {
    if batch == [] then []
    else
      var t := batch[|batch|-1];
      var f := BuildFeatureRow(g, BaselineOf(s, t.user), t);
      Built(g, s, batch[..|batch|-1]) + if f.Some? then [f.value] else []
  }

  function Written(s: Online, latest: map<string, FeatureRow>): Online {
    Online(s.features + latest,
           s.locations + map u | u in latest && !latest[u].suspect :: LocationOf(latest[u]))
  }

  function AfterBatch(g: Geo, s: Online, batch: seq<Transaction>): Online {
    Written(s, Latest(Built(g, s, batch)))
  }

  class RedisFeatureWriter {
    var features: map<string, FeatureRow>
    var locations: map<string, Location>

    function State(): Online
      reads this
    {
      Online(features, locations)
    }

    constructor ()
      ensures State() == Online(map[], map[])
    {
      features, locations := map[], map[];
    }

    method WriteBatch(rows: seq<FeatureRow>)
      modifies this
      ensures State() == Written(old(State()), Latest(rows))
    {
      var latestPerUser: map<string, FeatureRow> := map[];
      for k := 0 to |rows|
        invariant latestPerUser == Latest(rows[..k])
      {
        var f := rows[k];
        assert rows[..k+1][..k] == rows[..k];
        if f.user != "" {
          if f.user !in latestPerUser {
            latestPerUser := latestPerUser[f.user := f];
          } else if StrLess(TsKey(latestPerUser[f.user]), TsKey(f)) {
            latestPerUser := latestPerUser[f.user := f];
          }
        }
      }
      assert rows[..|rows|] == rows;
      features := features + latestPerUser;
      locations := locations + map u | u in latestPerUser && !latestPerUser[u].suspect :: LocationOf(latestPerUser[u]);
    }

    method ProcessBatch(g: Geo, batch: seq<Transaction>)
      modifies this
      ensures State() == AfterBatch(g, old(State()), batch)
    {
      var before := State();
      var featuresList: seq<FeatureRow> := [];
      for k := 0 to |batch|
        invariant featuresList == Built(g, before, batch[..k])
        invariant State() == before
      {
        var t := batch[k];
        assert batch[..k+1][..k] == batch[..k];
        var f := BuildFeatureRow(g, BaselineOf(before, t.user), t);
        if f.Some? {
          featuresList := featuresList + [f.value];
        }
      }
      assert batch[..|batch|] == batch;
      WriteBatch(featuresList);
    }
  }

  // ------------------------------------------------------------ the filter in front of the batches

  /** A message as it arrives: any field may be missing, and the timestamp is text. */
  datatype Message = Message(
    id: Option<string>, user: Option<string>, ts: Option<string>, lat: Option<real>, lon: Option<real>, city: string, valid: bool)

  /** Reading timestamps gives dates, printed with a digit first, or nothing. */
  ghost predicate ReadsDates(read: string -> Option<string>) {
    forall s :: read(s).Some? ==> read(s).value != "" && IsDigit(read(s).value[0])
  }

  function ParsedTs(m: Message, read: string -> Option<string>): Option<string> {
    if m.ts.None? then None else read(m.ts.value)
  }

  /** The messages with an id, a user and a readable timestamp. */
  function Parsed(messages: seq<Message>, read: string -> Option<string>): seq<Transaction> {
    if messages == [] then []
    else
      var m := messages[|messages|-1];
      var ts := ParsedTs(m, read);
      Parsed(messages[..|messages|-1], read) +
      if m.id.Some? && m.user.Some? && ts.Some? then [Transaction(m.user.value, ts, m.lat, m.lon, m.city, m.valid)]
      else []
  }

  lemma {:induction false} ParsedIsDated(messages: seq<Message>, read: string -> Option<string>, t: Transaction)
    requires ReadsDates(read) && t in Parsed(messages, read)
    ensures t.ts.Some? && t.ts.value != "" && IsDigit(t.ts.value[0])
  {
    var init := messages[..|messages|-1];
    if t in Parsed(init, read) { ParsedIsDated(init, read, t); }
  }

  /** In every batch of the stream the kept row is the latest of its user by date. */
  lemma StreamKeepsLatest(g: Geo, s: Online, messages: seq<Message>, read: string -> Option<string>, user: string)
    requires ReadsDates(read)
    ensures var rows := Built(g, s, Parsed(messages, read));
            user in Latest(rows) ==> LatestByDate(rows, user, Latest(rows)[user])
  {
    var batch := Parsed(messages, read);
    var rows := Built(g, s, batch);
    forall f | f in rows ensures f.ts.Some? && f.ts.value != "" && IsDigit(f.ts.value[0]) {
      BuiltSource(g, s, batch, f);
      var t :| t in batch && BuildFeatureRow(g, BaselineOf(s, t.user), t) == Some(f);
      ParsedIsDated(messages, read, t);
    }
    if user in Latest(rows) { LatestByDateExactly(rows, user); }
  }

  // ------------------------------------------------------------ whole runs

  /** A micro-batch, or keys whose time to live runs out. */
  datatype Step = Batch(rows: seq<Transaction>) | Expire(features: set<string>, locations: set<string>)

  function After(g: Geo, s: Online, step: Step): Online {
    match step
    case Batch(rows) => AfterBatch(g, s, rows)
    case Expire(features, locations) => Online(s.features - features, s.locations - locations)
  }

  function Run(g: Geo, steps: seq<Step>): Online {
    if steps == [] then Online(map[], map[]) else After(g, Run(g, steps[..|steps|-1]), steps[|steps|-1])
  }

  /** The rows that step `i` of a run wrote from. */
  function BuiltAt(g: Geo, steps: seq<Step>, i: nat): seq<FeatureRow>
    requires i < |steps|
  {
    if steps[i].Batch? then Built(g, Run(g, steps[..i]), steps[i].rows) else []
  }

  /** `t` of step `i` was scored against the baseline at the start of its batch and did not trip the rule. */
  ghost predicate CleanSource(g: Geo, steps: seq<Step>, i: nat, user: string, loc: Location) {
    i < |steps| && steps[i].Batch? &&
    exists t | t in steps[i].rows ::
      t.user == user && t.valid && loc == Location(Nonzero(t.lat), Nonzero(t.lon), t.city, Nonempty(t.ts)) &&
      !GeoHardRule(GeoDelta(g, BaselineOf(Run(g, steps[..i]), user), t))
  }

  // A key of the store through a run: steps write it, or clear it, or leave it.

  /** What a key holds after the first `n` steps. */
  function Held<X>(n: nat, wrote: nat -> Option<X>, cleared: nat -> bool): Option<X> {
    if n == 0 then None
    else if wrote(n - 1).Some? then wrote(n - 1)
    else if cleared(n - 1) then None
    else Held(n - 1, wrote, cleared)
  }

  /** Step `i` wrote `x`, and no later step wrote or cleared the key. */
  ghost predicate LastWrite<X>(n: nat, wrote: nat -> Option<X>, cleared: nat -> bool, i: nat, x: X) {
    i < n && wrote(i) == Some(x) && forall j: nat | i < j < n :: wrote(j).None? && !cleared(j)
  }

  lemma {:induction false} HeldExactly<X(!new)>(n: nat, wrote: nat -> Option<X>, cleared: nat -> bool, x: X)
    ensures Held(n, wrote, cleared) == Some(x) <==> exists i: nat :: LastWrite(n, wrote, cleared, i, x)
  {
    if n > 0 {
      var last := n - 1;
      HeldExactly(last, wrote, cleared, x);
      if wrote(last) == Some(x) { assert LastWrite(n, wrote, cleared, last, x); }
      if wrote(last).None? && !cleared(last) {
        if i: nat :| LastWrite(last, wrote, cleared, i, x) { assert LastWrite(n, wrote, cleared, i, x); }
        if i: nat :| LastWrite(n, wrote, cleared, i, x) { assert LastWrite(last, wrote, cleared, i, x); }
      }
    }
  }

  /** The feature row that step `i` wrote for the user. */
  function WroteFeatures(g: Geo, steps: seq<Step>, user: string): nat -> Option<FeatureRow> {
    (i: nat) =>
      if i < |steps| && user in Latest(BuiltAt(g, steps, i)) then Some(Latest(BuiltAt(g, steps, i))[user]) else None
  }

  /** The location that step `i` wrote for the user: its winner's, unless that is suspect. */
  function WroteLocation(g: Geo, steps: seq<Step>, user: string): nat -> Option<Location> {
    (i: nat) =>
      if i < |steps| && user in Latest(BuiltAt(g, steps, i)) && !Latest(BuiltAt(g, steps, i))[user].suspect
      then Some(LocationOf(Latest(BuiltAt(g, steps, i))[user])) else None
  }

  function ExpiredFeatures(steps: seq<Step>, user: string): nat -> bool {
    (i: nat) => i < |steps| && steps[i].Expire? && user in steps[i].features
  }

  function ExpiredLocation(steps: seq<Step>, user: string): nat -> bool {
    (i: nat) => i < |steps| && steps[i].Expire? && user in steps[i].locations
  }

  function FeaturesOf(s: Online, user: string): Option<FeatureRow> {
    if user in s.features then Some(s.features[user]) else None
  }

  lemma StepHolds(g: Geo, steps: seq<Step>, user: string, n: nat)
    requires n < |steps|
    ensures var before, after := Run(g, steps[..n]), Run(g, steps[..n+1]);
            FeaturesOf(after, user) ==
              (if WroteFeatures(g, steps, user)(n).Some? then WroteFeatures(g, steps, user)(n)
               else if ExpiredFeatures(steps, user)(n) then None else FeaturesOf(before, user)) &&
            BaselineOf(after, user) ==
              (if WroteLocation(g, steps, user)(n).Some? then WroteLocation(g, steps, user)(n)
               else if ExpiredLocation(steps, user)(n) then None else BaselineOf(before, user))
  {
    assert steps[..n+1][..n] == steps[..n];
    assert Run(g, steps[..n+1]) == After(g, Run(g, steps[..n]), steps[n]);
  }

  lemma {:induction false} RunHolds(g: Geo, steps: seq<Step>, user: string, n: nat)
    requires n <= |steps|
    ensures FeaturesOf(Run(g, steps[..n]), user) == Held(n, WroteFeatures(g, steps, user), ExpiredFeatures(steps, user))
    ensures BaselineOf(Run(g, steps[..n]), user) == Held(n, WroteLocation(g, steps, user), ExpiredLocation(steps, user))
  {
    if n > 0 {
      RunHolds(g, steps, user, n - 1);
      StepHolds(g, steps, user, n - 1);
    }
  }

  lemma {:induction false} BuiltSource(g: Geo, s: Online, batch: seq<Transaction>, f: FeatureRow)
    requires f in Built(g, s, batch)
    ensures exists t | t in batch :: BuildFeatureRow(g, BaselineOf(s, t.user), t) == Some(f)
  {
    var t := batch[|batch|-1];
    if BuildFeatureRow(g, BaselineOf(s, t.user), t) != Some(f) {
      BuiltSource(g, s, batch[..|batch|-1], f);
      var u :| u in batch[..|batch|-1] && BuildFeatureRow(g, BaselineOf(s, u.user), u) == Some(f);
      assert u in batch;
    } else {
      assert t in batch;
    }
  }

  lemma {:induction false} LatestIn(rows: seq<FeatureRow>, user: string)
    requires user in Latest(rows)
    ensures Latest(rows)[user] in rows && Latest(rows)[user].user == user
  {
    var i := LatestWins(rows, user);
    assert Latest(rows)[user] == rows[i];
  }

  /** A feature row is stored exactly when some batch's winner for the user is that row, and since then no batch
      had a row of the user and the key has not expired. */
  lemma StoredFeaturesAreLatest(g: Geo, steps: seq<Step>, user: string, f: FeatureRow)
    ensures FeaturesOf(Run(g, steps), user) == Some(f) <==>
            exists i: nat :: LastWrite(|steps|, WroteFeatures(g, steps, user), ExpiredFeatures(steps, user), i, f)
  {
    assert steps[..|steps|] == steps;
    RunHolds(g, steps, user, |steps|);
    HeldExactly(|steps|, WroteFeatures(g, steps, user), ExpiredFeatures(steps, user), f);
  }

  /** A location is stored exactly when it is that of some batch's winner for the user that was not suspect, and
      since then no such winner came and the key has not expired. */
  lemma StoredLocationIsLast(g: Geo, steps: seq<Step>, user: string, loc: Location)
    ensures BaselineOf(Run(g, steps), user) == Some(loc) <==>
            exists i: nat :: LastWrite(|steps|, WroteLocation(g, steps, user), ExpiredLocation(steps, user), i, loc)
  {
    assert steps[..|steps|] == steps;
    RunHolds(g, steps, user, |steps|);
    HeldExactly(|steps|, WroteLocation(g, steps, user), ExpiredLocation(steps, user), loc);
  }

  /** Every location that any step writes is that of a transaction which did not trip the geo rule against the
      baseline its batch began with. */
  lemma WrittenLocationIsClean(g: Geo, steps: seq<Step>, user: string, i: nat, loc: Location)
    requires WroteLocation(g, steps, user)(i) == Some(loc)
    ensures CleanSource(g, steps, i, user, loc)
  {
    var before, rows := Run(g, steps[..i]), BuiltAt(g, steps, i);
    LatestIn(rows, user);
    BuiltSource(g, before, steps[i].rows, Latest(rows)[user]);
  }

  /** So the stored location is that of the last such transaction. */
  lemma StoredLocationsAreClean(g: Geo, steps: seq<Step>, user: string)
    requires user in Run(g, steps).locations
    ensures exists i: nat ::
              LastWrite(|steps|, WroteLocation(g, steps, user), ExpiredLocation(steps, user), i, Run(g, steps).locations[user]) &&
              CleanSource(g, steps, i, user, Run(g, steps).locations[user])
  {
    var loc := Run(g, steps).locations[user];
    StoredLocationIsLast(g, steps, user, loc);
    var i: nat :| LastWrite(|steps|, WroteLocation(g, steps, user), ExpiredLocation(steps, user), i, loc);
    WrittenLocationIsClean(g, steps, user, i, loc);
  }

  // ------------------------------------------------------------ what the guard lets through

  /** The guards that switch the rule off: a coordinate missing on either side or equal to zero in the new
      row, or a known time step that does not go forward. A caller can test this before scoring. */
  predicate Untested(g: Geo, baseline: Option<Location>, t: Transaction) {
    baseline.None? || baseline.value.lat.None? || baseline.value.lon.None? ||
    Nonzero(t.lat).None? || Nonzero(t.lon).None? ||
    (Minutes(g, baseline.value, t).Some? && Minutes(g, baseline.value, t).value <= 0.0)
  }

  /** A row is suspect exactly when the rule is switched on and it lies 3000 km away, or at least 100 km away
      at more than 900 km/h. */
  lemma SuspectExactly(g: Geo, baseline: Option<Location>, t: Transaction)
    ensures GeoHardRule(GeoDelta(g, baseline, t)) <==>
            !Untested(g, baseline, t) &&
            var km, minutes := Distance(g, baseline.value, t).value, Minutes(g, baseline.value, t);
            km >= 3000.0 || (km >= 100.0 && minutes.Some? && km * 60.0 > 900.0 * minutes.value)
  {
    if !Untested(g, baseline, t) {
      var km, minutes := Distance(g, baseline.value, t).value, Minutes(g, baseline.value, t);
      if minutes.Some? { SpeedWithoutDivision(km, minutes.value); }
    }
  }

  lemma SpeedWithoutDivision(km: real, minutes: real)
    requires minutes > 0.0
    ensures km / (minutes / 60.0) > 900.0 <==> km * 60.0 > 900.0 * minutes
  {
    var hours := minutes / 60.0;
    var speed := km / hours;
    assert speed * hours == km;
    assert hours * 60.0 == minutes;
    if speed > 900.0 { StrictProduct(900.0, speed, hours); } else { WeakProduct(speed, 900.0, hours); }
  }

  lemma StrictProduct(a: real, b: real, c: real)
    requires a < b && c > 0.0
    ensures a * c < b * c
  {
  }

  lemma WeakProduct(a: real, b: real, c: real)
    requires a <= b && c > 0.0
    ensures a * c <= b * c
  {
  }

  lemma SingleBatch(g: Geo, s: Online, t: Transaction)
    requires t.valid && t.user != "" && !GeoHardRule(GeoDelta(g, BaselineOf(s, t.user), t))
    ensures BaselineOf(AfterBatch(g, s, [t]), t.user) ==
            Some(Location(Nonzero(t.lat), Nonzero(t.lon), t.city, Nonempty(t.ts)))
  {
    var f := BuildFeatureRow(g, BaselineOf(s, t.user), t).value;
    assert [t][..0] == [] && Built(g, s, [t]) == [f];
    assert [f][..0] == [] && Latest([f]) == map[t.user := f];
  }

  /** The baseline is not a chain of plausible moves: after one row without a latitude, any row of the user is
      trusted, however far it lies from the location that was trusted before. */
  lemma MissingCoordinateOpensBaseline(g: Geo, s: Online, blank: Transaction, t: Transaction)
    requires blank.valid && blank.user == t.user != "" && blank.lat.None? && t.valid
    ensures var before := AfterBatch(g, s, [blank]);
            BaselineOf(AfterBatch(g, before, [t]), t.user) ==
            Some(Location(Nonzero(t.lat), Nonzero(t.lon), t.city, Nonempty(t.ts)))
  {
    SuspectExactly(g, BaselineOf(s, t.user), blank);
    SingleBatch(g, s, blank);
    var before := AfterBatch(g, s, [blank]);
    SuspectExactly(g, BaselineOf(before, t.user), t);
    SingleBatch(g, before, t);
  }

  // ------------------------------------------------------------ when it is a chain of plausible moves

  /** From one location to another: less than 3000 km, and not 100 km or more at over 900 km/h. */
  predicate Plausible(g: Geo, from: Location, to: Location) {
    from.lat.Some? && from.lon.Some? && to.lat.Some? && to.lon.Some? &&
    var km := g.distance(from.lat.value, from.lon.value, to.lat.value, to.lon.value);
    km < 3000.0 &&
    (km >= 100.0 && Nonempty(from.ts).Some? && Nonempty(to.ts).Some? ==>
       var minutes := g.minutes(from.ts.value, to.ts.value);
       minutes.Some? ==> km * 60.0 <= 900.0 * minutes.value)
  }

  /** The row has both coordinates and does not run back in time. */
  predicate Testable(g: Geo, baseline: Option<Location>, t: Transaction) {
    Nonzero(t.lat).Some? && Nonzero(t.lon).Some? &&
    (baseline.Some? && Minutes(g, baseline.value, t).Some? ==> Minutes(g, baseline.value, t).value > 0.0)
  }

  /** Every valid row of the user, at its place in the run. */
  ghost predicate AllTestable(g: Geo, steps: seq<Step>, user: string) {
    forall i, t | 0 <= i < |steps| && steps[i].Batch? && t in steps[i].rows && t.user == user && t.valid ::
      Testable(g, BaselineOf(Run(g, steps[..i]), user), t)
  }

  /** The row whose location step `i` wrote. */
  lemma WrittenFrom(g: Geo, steps: seq<Step>, user: string, i: nat, to: Location) returns (t: Transaction)
    requires WroteLocation(g, steps, user)(i) == Some(to)
    ensures i < |steps| && steps[i].Batch? && t in steps[i].rows && t.user == user && t.valid
    ensures to == Location(Nonzero(t.lat), Nonzero(t.lon), t.city, Nonempty(t.ts))
    ensures !GeoHardRule(GeoDelta(g, BaselineOf(Run(g, steps[..i]), user), t))
  {
    WrittenLocationIsClean(g, steps, user, i, to);
    t :| t in steps[i].rows && t.user == user && t.valid &&
         to == Location(Nonzero(t.lat), Nonzero(t.lon), t.city, Nonempty(t.ts)) &&
         !GeoHardRule(GeoDelta(g, BaselineOf(Run(g, steps[..i]), user), t));
  }

  lemma {:induction false} BaselineHasCoordinates(g: Geo, steps: seq<Step>, user: string, n: nat, from: Location)
    requires AllTestable(g, steps, user) && n <= |steps| && BaselineOf(Run(g, steps[..n]), user) == Some(from)
    ensures from.lat.Some? && from.lon.Some?
  {
    if n > 0 {
      StepHolds(g, steps, user, n - 1);
      if WroteLocation(g, steps, user)(n - 1).Some? {
        var t := WrittenFrom(g, steps, user, n - 1, from);
        assert Testable(g, BaselineOf(Run(g, steps[..n-1]), user), t);
      } else {
        BaselineHasCoordinates(g, steps, user, n - 1, from);
      }
    }
  }

  lemma CleanIsPlausible(g: Geo, from: Location, t: Transaction)
    requires from.lat.Some? && from.lon.Some? && Testable(g, Some(from), t)
    ensures !GeoHardRule(GeoDelta(g, Some(from), t)) <==>
            Plausible(g, from, Location(Nonzero(t.lat), Nonzero(t.lon), t.city, Nonempty(t.ts)))
  {
    SuspectExactly(g, Some(from), t);
  }

  /** Over any run in which no valid row of the user lacks a coordinate or runs back in time, the stored locations form
      a chain of plausible moves: each follows plausibly from the one that was stored when its batch began. */
  lemma StoredMovesArePlausible(g: Geo, steps: seq<Step>, user: string, i: nat, from: Location, to: Location)
    requires AllTestable(g, steps, user)
    requires WroteLocation(g, steps, user)(i) == Some(to) && BaselineOf(Run(g, steps[..i]), user) == Some(from)
    ensures Plausible(g, from, to)
  {
    var t := WrittenFrom(g, steps, user, i, to);
    BaselineHasCoordinates(g, steps, user, i, from);
    CleanIsPlausible(g, from, t);
  }
}
