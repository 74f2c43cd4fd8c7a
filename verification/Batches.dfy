/** What a micro-batch leaves in the online store, stated over its transactions and over the messages they come from. */
module Batches {
  import opened Wrappers
  import opened Text
  import opened FeatureState

  // ------------------------------------------------------------ the first of the greatest

  /** The winner among the first `n` candidates: a later one wins only with a greater key. */
  function Winner(n: nat, ok: nat -> bool, key: nat -> string): Option<nat> {
    if n == 0 then None
    else
      var w := Winner(n - 1, ok, key);
      if ok(n - 1) && (w.None? || StrLess(key(w.value), key(n - 1))) then Some(n - 1) else w
  }

  /** Candidate `i` has the greatest key, and is the first that has it. */
  ghost predicate FirstGreatest(n: nat, ok: nat -> bool, key: nat -> string, i: nat) {
    i < n && ok(i) && (forall j: nat | j < n && ok(j) :: !StrLess(key(i), key(j))) &&
    forall j: nat | j < i && ok(j) :: StrLess(key(j), key(i))
  }

  lemma {:induction false} WinnerIsGreatest(n: nat, ok: nat -> bool, key: nat -> string)
    ensures Winner(n, ok, key).None? <==> forall j: nat | j < n :: !ok(j)
    ensures Winner(n, ok, key).Some? ==> FirstGreatest(n, ok, key, Winner(n, ok, key).value)
  {
    if n > 0 {
      var w := Winner(n - 1, ok, key);
      WinnerIsGreatest(n - 1, ok, key);
      StrLessTotal(key(n - 1), key(n - 1));
      if w.Some? && ok(n - 1) && StrLess(key(w.value), key(n - 1)) { NewWinner(n - 1, ok, key, w.value); }
    }
  }

  lemma NewWinner(n: nat, ok: nat -> bool, key: nat -> string, i: nat)
    requires FirstGreatest(n, ok, key, i) && ok(n) && StrLess(key(i), key(n))
    ensures FirstGreatest(n + 1, ok, key, n)
  {
    StrLessTotal(key(n), key(n));
    forall j: nat | j < n && ok(j) ensures StrLess(key(j), key(n)) && !StrLess(key(n), key(j)) {
      StrLessTotal(key(j), key(i));
      if j != i && StrLess(key(j), key(i)) { StrLessTransitive(key(j), key(i), key(n)); }
      StrLessTotal(key(j), key(n));
    }
  }

  // ------------------------------------------------------------ what a transaction is worth

  predicate Given(x: Option<string>) { x.Some? && x.value != "" }

  /** The timestamp as the fold compares it: Python prints a missing one as "None". */
  function TimeText(ts: Option<string>): string { if Given(ts) then ts.value else "None" }

  predicate Coordinate(x: Option<real>) { x.Some? && x.value != 0.0 }

  /** The transaction lies 3000 km from the trusted location, or 100 km at over 900 km/h: with coordinates on both
      sides, and a time between them that goes forward if it is known. */
  predicate Trips(g: Geo, from: Option<Location>, t: Transaction) {
    from.Some? && from.value.lat.Some? && from.value.lon.Some? && Coordinate(t.lat) && Coordinate(t.lon) &&
    var km := g.distance(from.value.lat.value, from.value.lon.value, t.lat.value, t.lon.value);
    var minutes := if Given(from.value.ts) && Given(t.ts) then g.minutes(from.value.ts.value, t.ts.value) else None;
    (minutes.Some? ==> minutes.value > 0.0) &&
    (km >= 3000.0 || (km >= 100.0 && minutes.Some? && km * 60.0 > 900.0 * minutes.value))
  }

  function Kept<T>(x: Option<T>, keep: bool): Option<T> { if keep then x else None }

  /** The feature row of a transaction, scored against the location trusted before the batch. */
  function FeaturesFor(g: Geo, s: Online, t: Transaction): FeatureRow {
    FeatureRow(t.user, Kept(t.ts, Given(t.ts)), Kept(t.lat, Coordinate(t.lat)), Kept(t.lon, Coordinate(t.lon)), t.city,
               Trips(g, Trusted(s, t.user), t))
  }

  function LocationFor(t: Transaction): Location {
    Location(Kept(t.lat, Coordinate(t.lat)), Kept(t.lon, Coordinate(t.lon)), t.city, Kept(t.ts, Given(t.ts)))
  }

  function Trusted(s: Online, user: string): Option<Location> {
    if user in s.locations then Some(s.locations[user]) else None
  }

  lemma TripsExactly(g: Geo, from: Option<Location>, t: Transaction)
    ensures GeoHardRule(GeoDelta(g, from, t)) <==> Trips(g, from, t)
  {
    SuspectExactly(g, from, t);
  }

  lemma BuiltIsFeatures(g: Geo, s: Online, t: Transaction)
    ensures BuildFeatureRow(g, BaselineOf(s, t.user), t) == if t.valid then Some(FeaturesFor(g, s, t)) else None
  {
    TripsExactly(g, Trusted(s, t.user), t);
  }

  // ------------------------------------------------------------ one transaction more

  lemma BuiltExtend(g: Geo, s: Online, batch: seq<Transaction>, t: Transaction)
    ensures Built(g, s, batch + [t]) == Built(g, s, batch) + if t.valid then [FeaturesFor(g, s, t)] else []
  {
    assert (batch + [t])[..|batch|] == batch;
    BuiltIsFeatures(g, s, t);
  }

  lemma LatestExtend(rows: seq<FeatureRow>, f: FeatureRow)
    ensures var kept := Latest(rows);
            Latest(rows + [f]) ==
            if f.user != "" && (f.user in kept ==> StrLess(TsKey(kept[f.user]), TsKey(f))) then kept[f.user := f] else kept
  {
    assert (rows + [f])[..|rows|] == rows;
  }

  /** The row kept for the user, if any. */
  function KeptFor(g: Geo, s: Online, batch: seq<Transaction>, user: string): Option<FeatureRow> {
    var latest := Latest(Built(g, s, batch));
    if user in latest then Some(latest[user]) else None
  }

  lemma KeptExtend(g: Geo, s: Online, batch: seq<Transaction>, t: Transaction, user: string)
    requires user != ""
    ensures var before := KeptFor(g, s, batch, user);
            KeptFor(g, s, batch + [t], user) ==
            if t.valid && t.user == user && (before.None? || StrLess(TsKey(before.value), TimeText(t.ts)))
            then Some(FeaturesFor(g, s, t)) else before
  {
    BuiltExtend(g, s, batch, t);
    if t.valid {
      LatestExtend(Built(g, s, batch), FeaturesFor(g, s, t));
    } else {
      assert Built(g, s, batch) + [] == Built(g, s, batch);
    }
  }

  // ------------------------------------------------------------ a batch of transactions

  function Mine(batch: seq<Transaction>, user: string): nat -> bool {
    (i: nat) => i < |batch| && batch[i].valid && batch[i].user == user
  }

  function TimesOf(batch: seq<Transaction>): nat -> string { (i: nat) => if i < |batch| then TimeText(batch[i].ts) else "" }

  ghost predicate FollowsAt(ok: nat -> bool, key: nat -> string, kept: nat -> Option<FeatureRow>, row: nat -> FeatureRow, i: nat) {
    (ok(i) ==> TsKey(row(i)) == key(i)) &&
    kept(i + 1) == if ok(i) && (kept(i).None? || StrLess(TsKey(kept(i).value), key(i))) then Some(row(i)) else kept(i)
  }

  /** The row kept after the first `i` candidates follows the winner's rule, step by step. */
  ghost predicate Follows(n: nat, ok: nat -> bool, key: nat -> string, kept: nat -> Option<FeatureRow>, row: nat -> FeatureRow) {
    kept(0) == None && forall i: nat | i < n :: FollowsAt(ok, key, kept, row, i)
  }

  lemma {:induction false} FollowsWinner(n: nat, ok: nat -> bool, key: nat -> string, kept: nat -> Option<FeatureRow>,
                                         row: nat -> FeatureRow)
    requires Follows(n, ok, key, kept, row)
    ensures var w := Winner(n, ok, key);
            (w.Some? ==> w.value < n && ok(w.value)) && kept(n) == if w.None? then None else Some(row(w.value))
  {
    if n > 0 {
      FollowsWinner(n - 1, ok, key, kept, row);
      assert FollowsAt(ok, key, kept, row, n - 1);
      var w := Winner(n - 1, ok, key);
      if w.Some? { assert FollowsAt(ok, key, kept, row, w.value); }
    }
  }

  function KeptAfter(g: Geo, s: Online, batch: seq<Transaction>, user: string): nat -> Option<FeatureRow> {
    (i: nat) => if i <= |batch| then KeptFor(g, s, batch[..i], user) else None
  }

  function RowsOf(g: Geo, s: Online, batch: seq<Transaction>): nat -> FeatureRow
    requires batch != []
  {
    (i: nat) => FeaturesFor(g, s, if i < |batch| then batch[i] else batch[0])
  }

  lemma KeptNext(g: Geo, s: Online, batch: seq<Transaction>, user: string, i: nat)
    requires user != "" && i < |batch|
    ensures FollowsAt(Mine(batch, user), TimesOf(batch), KeptAfter(g, s, batch, user), RowsOf(g, s, batch), i)
  {
    KeptExtend(g, s, batch[..i], batch[i], user);
    assert batch[..i+1] == batch[..i] + [batch[i]];
  }

  lemma KeptFollows(g: Geo, s: Online, batch: seq<Transaction>, user: string)
    requires user != "" && batch != []
    ensures Follows(|batch|, Mine(batch, user), TimesOf(batch), KeptAfter(g, s, batch, user), RowsOf(g, s, batch))
  {
    assert Built(g, s, batch[..0]) == [];
    forall i: nat | i < |batch|
      ensures FollowsAt(Mine(batch, user), TimesOf(batch), KeptAfter(g, s, batch, user), RowsOf(g, s, batch), i)
    {
      KeptNext(g, s, batch, user, i);
    }
  }

  lemma KeptIsWinner(g: Geo, s: Online, batch: seq<Transaction>, user: string)
    requires user != "" && batch != []
    ensures var w := Winner(|batch|, Mine(batch, user), TimesOf(batch));
            (w.Some? ==> w.value < |batch| && Mine(batch, user)(w.value)) &&
            KeptFor(g, s, batch, user) == if w.None? then None else Some(FeaturesFor(g, s, batch[w.value]))
  {
    KeptFollows(g, s, batch, user);
    FollowsWinner(|batch|, Mine(batch, user), TimesOf(batch), KeptAfter(g, s, batch, user), RowsOf(g, s, batch));
    assert batch[..|batch|] == batch;
  }

  /** The store after the batch, for one user: the features of the winning transaction, and its location unless that
      trips the rule. */
  ghost predicate Stores(g: Geo, s: Online, after: Online, user: string, t: Transaction) {
    user in after.features && after.features[user] == FeaturesFor(g, s, t) &&
    if Trips(g, Trusted(s, user), t) then Trusted(after, user) == Trusted(s, user)
    else Trusted(after, user) == Some(LocationFor(t))
  }

  ghost predicate Untouched(s: Online, after: Online, user: string) {
    FeaturesOf(after, user) == FeaturesOf(s, user) && Trusted(after, user) == Trusted(s, user)
  }

  lemma WrittenForUser(g: Geo, s: Online, batch: seq<Transaction>, user: string)
    ensures var kept, after := KeptFor(g, s, batch, user), AfterBatch(g, s, batch);
            FeaturesOf(after, user) == (if kept.Some? then kept else FeaturesOf(s, user)) &&
            Trusted(after, user) ==
              if kept.Some? && !kept.value.suspect then Some(LocationOf(kept.value)) else Trusted(s, user)
  {
  }

  lemma KeptIsStored(g: Geo, s: Online, batch: seq<Transaction>, user: string, t: Transaction)
    requires KeptFor(g, s, batch, user) == Some(FeaturesFor(g, s, t)) && t.user == user
    ensures Stores(g, s, AfterBatch(g, s, batch), user, t)
  {
    WrittenForUser(g, s, batch, user);
  }

  lemma NoneIsUntouched(g: Geo, s: Online, batch: seq<Transaction>, user: string)
    requires KeptFor(g, s, batch, user).None?
    ensures Untouched(s, AfterBatch(g, s, batch), user)
  {
    WrittenForUser(g, s, batch, user);
  }

  /** A batch stores, for every user with valid transactions in it, the first of those with the greatest timestamp
      text, scored against the location trusted before the batch; for all others nothing changes. */
  lemma BatchStoresWinners(g: Geo, s: Online, batch: seq<Transaction>, user: string)
    ensures var after := AfterBatch(g, s, batch);
            if user != "" && exists t :: t in batch && t.valid && t.user == user then
              exists i: nat :: FirstGreatest(|batch|, Mine(batch, user), TimesOf(batch), i) && Stores(g, s, after, user, batch[i])
            else Untouched(s, after, user)
  {
    if user == "" {
      NobodyIsKept(g, s, batch);
      NoneIsUntouched(g, s, batch, user);
    } else {
      var w := Winner(|batch|, Mine(batch, user), TimesOf(batch));
      if batch == [] { assert Built(g, s, batch) == []; } else { KeptIsWinner(g, s, batch, user); }
      WinnerIsGreatest(|batch|, Mine(batch, user), TimesOf(batch));
      if t :| t in batch && t.valid && t.user == user {
        var j: nat :| j < |batch| && batch[j] == t;
        assert Mine(batch, user)(j);
      }
      if w.Some? {
        assert Mine(batch, user)(w.value);
        KeptIsStored(g, s, batch, user, batch[w.value]);
      } else {
        NoneIsUntouched(g, s, batch, user);
      }
    }
  }

  lemma {:induction false} NobodyIsKept(g: Geo, s: Online, batch: seq<Transaction>)
    ensures KeptFor(g, s, batch, "").None?
  {
    var rows := Built(g, s, batch);
    LatestUsers(rows, "");
  }

  // ------------------------------------------------------------ a batch of messages

  /** The message names itself, the user and a readable time, and its row passes the validators. */
  predicate Usable(m: Message, read: string -> Option<string>, user: string) {
    m.id.Some? && m.user == Some(user) && m.ts.Some? && read(m.ts.value).Some? && m.valid
  }

  function UsableAt(messages: seq<Message>, read: string -> Option<string>, user: string): nat -> bool {
    (i: nat) => i < |messages| && Usable(messages[i], read, user)
  }

  function ReadTime(m: Message, read: string -> Option<string>): string {
    if m.ts.Some? && read(m.ts.value).Some? then TimeText(read(m.ts.value)) else ""
  }

  function ReadTimes(messages: seq<Message>, read: string -> Option<string>): nat -> string {
    (i: nat) => if i < |messages| then ReadTime(messages[i], read) else ""
  }

  /** The transaction of a usable message. */
  function TransactionOf(m: Message, read: string -> Option<string>, user: string): Transaction
    requires Usable(m, read, user)
  {
    Transaction(user, read(m.ts.value), m.lat, m.lon, m.city, true)
  }

  lemma ParsedExtend(messages: seq<Message>, m: Message, read: string -> Option<string>)
    ensures Parsed(messages + [m], read) ==
            Parsed(messages, read) +
            if m.id.Some? && m.user.Some? && m.ts.Some? && read(m.ts.value).Some?
            then [Transaction(m.user.value, read(m.ts.value), m.lat, m.lon, m.city, m.valid)] else []
  {
    assert (messages + [m])[..|messages|] == messages;
  }

  lemma KeptMessageExtend(g: Geo, s: Online, messages: seq<Message>, m: Message, read: string -> Option<string>, user: string)
    requires user != ""
    ensures var before := KeptFor(g, s, Parsed(messages, read), user);
            KeptFor(g, s, Parsed(messages + [m], read), user) ==
            if Usable(m, read, user) && (before.None? || StrLess(TsKey(before.value), ReadTime(m, read)))
            then Some(FeaturesFor(g, s, TransactionOf(m, read, user))) else before
  {
    ParsedExtend(messages, m, read);
    if m.id.Some? && m.user.Some? && m.ts.Some? && read(m.ts.value).Some? {
      var t := Transaction(m.user.value, read(m.ts.value), m.lat, m.lon, m.city, m.valid);
      KeptExtend(g, s, Parsed(messages, read), t, user);
    } else {
      assert Parsed(messages, read) + [] == Parsed(messages, read);
    }
  }

  function KeptAfterMessages(g: Geo, s: Online, messages: seq<Message>, read: string -> Option<string>, user: string)
    : nat -> Option<FeatureRow>
  {
    (i: nat) => if i <= |messages| then KeptFor(g, s, Parsed(messages[..i], read), user) else None
  }

  function MessageRows(g: Geo, s: Online, messages: seq<Message>, read: string -> Option<string>, user: string): nat -> FeatureRow {
    (i: nat) =>
      if i < |messages| && Usable(messages[i], read, user) then FeaturesFor(g, s, TransactionOf(messages[i], read, user))
      else FeaturesFor(g, s, Transaction(user, None, None, None, "", true))
  }

  lemma MessageTime(g: Geo, s: Online, m: Message, read: string -> Option<string>, user: string)
    requires Usable(m, read, user)
    ensures TsKey(FeaturesFor(g, s, TransactionOf(m, read, user))) == ReadTime(m, read)
  {
  }

  lemma MessageRowTime(g: Geo, s: Online, messages: seq<Message>, read: string -> Option<string>, user: string, i: nat)
    ensures UsableAt(messages, read, user)(i) ==>
              TsKey(MessageRows(g, s, messages, read, user)(i)) == ReadTimes(messages, read)(i)
  {
    if UsableAt(messages, read, user)(i) { MessageTime(g, s, messages[i], read, user); }
  }

  lemma KeptAfterIs(g: Geo, s: Online, messages: seq<Message>, read: string -> Option<string>, user: string, i: nat, init: seq<Message>)
    requires i <= |messages| && init == messages[..i]
    ensures KeptAfterMessages(g, s, messages, read, user)(i) == KeptFor(g, s, Parsed(init, read), user)
  {
  }

  lemma MessageKept(g: Geo, s: Online, messages: seq<Message>, read: string -> Option<string>, user: string, i: nat)
    requires user != "" && i < |messages|
    ensures var kept := KeptAfterMessages(g, s, messages, read, user);
            kept(i + 1) ==
            if Usable(messages[i], read, user) && (kept(i).None? || StrLess(TsKey(kept(i).value), ReadTime(messages[i], read)))
            then Some(FeaturesFor(g, s, TransactionOf(messages[i], read, user))) else kept(i)
  {
    var init, m := messages[..i], messages[i];
    assert messages[..i+1] == init + [m];
    KeptMessageExtend(g, s, init, m, read, user);
    KeptAfterIs(g, s, messages, read, user, i, init);
    KeptAfterIs(g, s, messages, read, user, i + 1, init + [m]);
  }

  lemma MessageNext(g: Geo, s: Online, messages: seq<Message>, read: string -> Option<string>, user: string, i: nat)
    requires user != "" && i < |messages|
    ensures FollowsAt(UsableAt(messages, read, user), ReadTimes(messages, read),
                      KeptAfterMessages(g, s, messages, read, user), MessageRows(g, s, messages, read, user), i)
  {
    MessageKept(g, s, messages, read, user, i);
    MessageRowTime(g, s, messages, read, user, i);
  }

  lemma MessagesFollow(g: Geo, s: Online, messages: seq<Message>, read: string -> Option<string>, user: string)
    requires user != ""
    ensures Follows(|messages|, UsableAt(messages, read, user), ReadTimes(messages, read),
                    KeptAfterMessages(g, s, messages, read, user), MessageRows(g, s, messages, read, user))
  {
    assert messages[..0] == [] && Parsed([], read) == [] && Built(g, s, []) == [];
    forall i: nat | i < |messages|
      ensures FollowsAt(UsableAt(messages, read, user), ReadTimes(messages, read),
                        KeptAfterMessages(g, s, messages, read, user), MessageRows(g, s, messages, read, user), i)
    {
      MessageNext(g, s, messages, read, user, i);
    }
  }

  lemma KeptIsMessage(g: Geo, s: Online, messages: seq<Message>, read: string -> Option<string>, user: string)
    requires user != ""
    ensures var w := Winner(|messages|, UsableAt(messages, read, user), ReadTimes(messages, read));
            (w.Some? ==> w.value < |messages| && Usable(messages[w.value], read, user)) &&
            KeptFor(g, s, Parsed(messages, read), user) ==
            if w.None? then None else Some(FeaturesFor(g, s, TransactionOf(messages[w.value], read, user)))
  {
    MessagesFollow(g, s, messages, read, user);
    FollowsWinner(|messages|, UsableAt(messages, read, user), ReadTimes(messages, read),
                  KeptAfterMessages(g, s, messages, read, user), MessageRows(g, s, messages, read, user));
    assert messages[..|messages|] == messages;
  }

  /** A batch of the stream stores, for every user with usable messages in it, the latest of them, the first among
      equals; for all others nothing changes. */
  lemma StreamStoresLatest(g: Geo, s: Online, messages: seq<Message>, read: string -> Option<string>, user: string)
    requires user != ""
    ensures var after := AfterBatch(g, s, Parsed(messages, read));
            if exists m :: m in messages && Usable(m, read, user) then
              exists i: nat :: FirstGreatest(|messages|, UsableAt(messages, read, user), ReadTimes(messages, read), i) &&
                          Stores(g, s, after, user, TransactionOf(messages[i], read, user))
            else Untouched(s, after, user)
  {
    var w := Winner(|messages|, UsableAt(messages, read, user), ReadTimes(messages, read));
    KeptIsMessage(g, s, messages, read, user);
    WinnerIsGreatest(|messages|, UsableAt(messages, read, user), ReadTimes(messages, read));
    if m :| m in messages && Usable(m, read, user) {
      var j: nat :| j < |messages| && messages[j] == m;
      assert UsableAt(messages, read, user)(j);
    }
    if w.Some? {
      assert UsableAt(messages, read, user)(w.value);
      KeptIsStored(g, s, Parsed(messages, read), user, TransactionOf(messages[w.value], read, user));
    } else {
      NoneIsUntouched(g, s, Parsed(messages, read), user);
    }
  }
}
