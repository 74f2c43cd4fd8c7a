/** Period keys and report windows: real calendar arithmetic behind `run_key` and `compute_window`.
    Dates are proleptic Gregorian; weeks follow section 4.1.4 of ISO 8601:2004. */
module Calendar {
  import opened Wrappers
  import opened Text

  datatype Date = Date(year: nat, month: nat, day: nat)

  /** A UTC fire instant. */
  datatype DateTime = DateTime(date: Date, hour: nat, minute: nat, second: nat, micro: nat)

  predicate Leap(y: nat) { y % 4 == 0 && (y % 100 != 0 || y % 400 == 0) }

  function DaysInYear(y: nat): nat { if Leap(y) then 366 else 365 }

  function DaysInMonth(y: nat, m: nat): nat {
    if m == 2 then (if Leap(y) then 29 else 28)
    else if m == 4 || m == 6 || m == 9 || m == 11 then 30
    else 31
  }

  predicate ValidDate(d: Date) { d.year >= 1 && 1 <= d.month <= 12 && 1 <= d.day <= DaysInMonth(d.year, d.month) }

  predicate Valid(t: DateTime) {
    ValidDate(t.date) && t.hour < 24 && t.minute < 60 && t.second < 60 && t.micro < 1000000
  }

  function DaysBeforeYear(y: nat): int { var n := y as int - 1; 365 * n + n / 4 - n / 100 + n / 400 }

  function DaysBeforeMonth(y: nat, m: nat): nat {
    if m <= 1 then 0 else DaysBeforeMonth(y, m - 1) + DaysInMonth(y, m - 1)
  }

  /** `toordinal`: 1 January of year 1 is day 1, a Monday. */
  function Ordinal(d: Date): int { DaysBeforeYear(d.year) + DaysBeforeMonth(d.year, d.month) + d.day }

  // ------------------------------------------------------------ dates and day numbers

  lemma NextYear(y: nat)
    requires y >= 1
    ensures DaysBeforeYear(y + 1) == DaysBeforeYear(y) + DaysInYear(y)
  {
    DivisibleStep(y, 4);
    DivisibleStep(y, 100);
    DivisibleStep(y, 400);
  }

  lemma DivisibleStep(y: nat, k: nat)
    requires y >= 1 && k in {4, 100, 400}
    ensures y / k - (y - 1) / k == if y % k == 0 then 1 else 0
  {
  }

  lemma {:induction false} YearsIncrease(y: nat, z: nat)
    requires 1 <= y <= z
    ensures DaysBeforeYear(y) + 365 * (z - y) <= DaysBeforeYear(z)
    decreases z
  {
    if y < z {
      YearsIncrease(y, z - 1);
      NextYear(z - 1);
    }
  }

  lemma MonthTable(y: nat)
    ensures DaysBeforeMonth(y, 12) + 31 == DaysInYear(y)
  {
    var l := if Leap(y) then 1 else 0;
    assert DaysBeforeMonth(y, 1) == 0 && DaysBeforeMonth(y, 2) == 31;
    assert DaysBeforeMonth(y, 3) == 59 + l;
    assert DaysBeforeMonth(y, 4) == 90 + l;
    assert DaysBeforeMonth(y, 5) == 120 + l;
    assert DaysBeforeMonth(y, 6) == 151 + l;
    assert DaysBeforeMonth(y, 7) == 181 + l;
    assert DaysBeforeMonth(y, 8) == 212 + l;
    assert DaysBeforeMonth(y, 9) == 243 + l;
    assert DaysBeforeMonth(y, 10) == 273 + l;
    assert DaysBeforeMonth(y, 11) == 304 + l;
  }

  lemma {:induction false} MonthsIncrease(y: nat, m: nat, n: nat)
    requires 1 <= m < n
    ensures DaysBeforeMonth(y, m) + DaysInMonth(y, m) <= DaysBeforeMonth(y, n)
  {
    if m < n - 1 {
      MonthsIncrease(y, m, n - 1);
    }
  }

  lemma OrdinalBounds(d: Date)
    requires ValidDate(d)
    ensures DaysBeforeYear(d.year) < Ordinal(d) <= DaysBeforeYear(d.year + 1)
    ensures Ordinal(d) >= 1
  {
    MonthTable(d.year);
    NextYear(d.year);
    YearsIncrease(1, d.year);
    if d.month < 12 { MonthsIncrease(d.year, d.month, 12); }
  }

  predicate Before(a: Date, b: Date) {
    a.year < b.year || (a.year == b.year && (a.month < b.month || (a.month == b.month && a.day < b.day)))
  }

  /** Later dates have greater day numbers, so a day number names one date. */
  lemma OrdinalIncreases(a: Date, b: Date)
    requires ValidDate(a) && ValidDate(b) && Before(a, b)
    ensures Ordinal(a) < Ordinal(b)
  {
    OrdinalBounds(a);
    OrdinalBounds(b);
    if a.year < b.year {
      YearsIncrease(a.year + 1, b.year);
    } else if a.month < b.month {
      MonthsIncrease(a.year, a.month, b.month);
    }
  }

  lemma OrdinalInjective(a: Date, b: Date)
    requires ValidDate(a) && ValidDate(b) && Ordinal(a) == Ordinal(b)
    ensures a == b
  {
    if Before(a, b) {
      OrdinalIncreases(a, b);
    } else if Before(b, a) {
      OrdinalIncreases(b, a);
    }
  }

  function NextDay(d: Date): (e: Date)
    requires ValidDate(d)
    ensures ValidDate(e)
  {
    if d.day < DaysInMonth(d.year, d.month) then d.(day := d.day + 1)
    else if d.month < 12 then Date(d.year, d.month + 1, 1)
    else Date(d.year + 1, 1, 1)
  }

  lemma NextDayOrdinal(d: Date)
    requires ValidDate(d)
    ensures Ordinal(NextDay(d)) == Ordinal(d) + 1
  {
    MonthTable(d.year);
    NextYear(d.year);
  }

  /** `fromordinal`. */
  function FromOrdinal(n: nat): (d: Date)
    requires n >= 1
    ensures ValidDate(d)
  {
    if n == 1 then Date(1, 1, 1) else NextDay(FromOrdinal(n - 1))
  }

  lemma {:induction false} FromOrdinalInverse(n: nat)
    requires n >= 1
    ensures Ordinal(FromOrdinal(n)) == n
  {
    if n > 1 {
      FromOrdinalInverse(n - 1);
      NextDayOrdinal(FromOrdinal(n - 1));
    }
  }

  // ------------------------------------------------------------ ISO weeks

  /** The Monday nearest to a year's first day: the one after it from Friday on, else the one before. */
  function NearestMonday(first: int): int {
    var weekday := (first + 6) % 7;
    if weekday > 3 then first - weekday + 7 else first - weekday
  }

  /** The Monday that starts week 1 of year `y`, as the library computes it. */
  function Week1Monday(y: nat): int { NearestMonday(DaysBeforeYear(y) + 1) }

  /** `isocalendar()[:2]` from the day number, the year, and the first Mondays of the years around it. */
  function IsoWeekFrom(today: int, year: nat, previous: int, first: int, next: int): (int, int) {
    if today < first then (year - 1, (today - previous) / 7 + 1)
    else if (today - first) / 7 >= 52 && today >= next then (year + 1, 1)
    else (year, (today - first) / 7 + 1)
  }

  function IsoWeek(d: Date): (int, int)
    requires d.year >= 1
  {
    IsoWeekFrom(Ordinal(d), d.year, Week1Monday(d.year - 1), Week1Monday(d.year), Week1Monday(d.year + 1))
  }

  /** The Monday on or before a day number. */
  function MondayOf(n: int): int { n - (n + 6) % 7 }

  predicate IsMonday(n: int) { (n + 6) % 7 == 0 }

  lemma Week1MondayIsMonday(y: nat)
    ensures IsMonday(Week1Monday(y))
    ensures DaysBeforeYear(y) - 3 < Week1Monday(y) <= DaysBeforeYear(y) + 4
  {
    NearestMondayIsNear(DaysBeforeYear(y) + 1);
  }

  lemma NearestMondayIsNear(first: int)
    ensures IsMonday(NearestMonday(first)) && first - 4 < NearestMonday(first) <= first + 3
  {
  }

  /** Counting whole weeks from an earlier Monday is counting from Monday to Monday. */
  lemma WeeksFromMonday(p: int, o: int)
    requires IsMonday(p) && p <= o
    ensures p <= MondayOf(o) <= o < MondayOf(o) + 7
    ensures (MondayOf(o) - p) % 7 == 0 && (o - p) / 7 == (MondayOf(o) - p) / 7
  {
  }

  /** Mondays are whole weeks apart. */
  lemma MondaysApart(p: int, q: int)
    requires IsMonday(p) && IsMonday(q) && p < q
    ensures p + 7 <= q
  {
  }

  /** The standard's definition: the week lies in the year that holds its Thursday, and is numbered by
      counting that year's Thursdays. */
  ghost predicate IsWeekOf(o: int, v: (int, int)) {
    var thursday := MondayOf(o) + 3;
    v.0 >= 1 && DaysBeforeYear(v.0) < thursday <= DaysBeforeYear(v.0 + 1) &&
    v.1 == (thursday - DaysBeforeYear(v.0) - 1) / 7 + 1
  }

  /** Weeks counted from the first Monday of `y` lie in `y` until the first Monday of the year after. */
  lemma WeekInYear(y: nat, o: int)
    requires y >= 1 && Week1Monday(y) <= o
    requires o < Week1Monday(y + 1) || (o - Week1Monday(y)) / 7 < 52
    ensures IsWeekOf(o, (y, (o - Week1Monday(y)) / 7 + 1))
  {
    Week1MondayIsMonday(y);
    Week1MondayIsMonday(y + 1);
    NextYear(y);
    WeekArithmetic(DaysBeforeYear(y), DaysBeforeYear(y + 1), Week1Monday(y), Week1Monday(y + 1), o);
  }

  lemma WeekArithmetic(start: int, next: int, p: int, q: int, o: int)
    requires IsMonday(p) && start - 3 < p <= start + 4 && IsMonday(q) && next - 3 < q <= next + 4
    requires start + 365 <= next && p <= o && (o < q || (o - p) / 7 < 52)
    ensures start < MondayOf(o) + 3 <= next
    ensures (o - p) / 7 == (MondayOf(o) + 3 - start - 1) / 7
  {
    var m := MondayOf(o);
    WeeksFromMonday(p, o);
    WeekQuotient(m - p, p + 2 - start);
    YearOfWeeks(p, q);
    assert o < q;
    MondaysApart(m, q);
  }

  /** First Mondays of consecutive years are at least 52 weeks apart. */
  lemma YearOfWeeks(p: int, q: int)
    requires IsMonday(p) && IsMonday(q) && q - p > 357
    ensures q - p >= 364
  {
  }

  lemma WeekQuotient(weeks: int, offset: int)
    requires weeks % 7 == 0 && 0 <= offset < 7
    ensures (weeks + offset) / 7 == weeks / 7
  {
  }

  /** Near the ends of a year the library's first week of the neighbouring year is close by. */
  lemma YearStep(y: nat)
    requires y >= 1
    ensures Week1Monday(y) + 300 <= Week1Monday(y + 1)
  {
    Week1MondayIsMonday(y);
    Week1MondayIsMonday(y + 1);
    NextYear(y);
  }

  lemma YearStart(d: Date)
    requires ValidDate(d)
    ensures Week1Monday(d.year) - 4 <= Ordinal(d) < Week1Monday(d.year + 1) + 7
  {
    OrdinalBounds(d);
    Week1MondayIsMonday(d.year);
    Week1MondayIsMonday(d.year + 1);
  }

  lemma FirstYear(d: Date)
    requires ValidDate(d)
    ensures Ordinal(d) < Week1Monday(d.year) ==> d.year > 1
  {
    OrdinalBounds(d);
    assert Week1Monday(1) == 1;
  }

  lemma YearEdges(d: Date)
    requires ValidDate(d)
    ensures Ordinal(d) < Week1Monday(d.year) ==> d.year > 1 && Week1Monday(d.year - 1) <= Ordinal(d)
    ensures Ordinal(d) < Week1Monday(d.year + 1) + 7 && Week1Monday(d.year + 1) + 7 <= Week1Monday(d.year + 2)
  {
    YearStart(d);
    FirstYear(d);
    YearStep(d.year + 1);
    if d.year > 1 { YearStep(d.year - 1); }
  }

  lemma NextYearsFirstWeek(today: int, year: nat, previous: int, first: int, next: int)
    requires first <= today && (today - first) / 7 >= 52 && next <= today < next + 7
    ensures IsoWeekFrom(today, year, previous, first, next) == (year + 1, (today - next) / 7 + 1)
  {
  }

  predicate InPreviousYear(d: Date) requires d.year >= 1 { Ordinal(d) < Week1Monday(d.year) }

  predicate InNextYear(d: Date)
    requires d.year >= 1
  {
    (Ordinal(d) - Week1Monday(d.year)) / 7 >= 52 && Ordinal(d) >= Week1Monday(d.year + 1)
  }

  lemma WeekOfPreviousYear(d: Date)
    requires ValidDate(d) && InPreviousYear(d)
    ensures IsWeekOf(Ordinal(d), IsoWeek(d))
  {
    YearEdges(d);
    WeekInYear(d.year - 1, Ordinal(d));
  }

  lemma WeekOfNextYear(d: Date)
    requires ValidDate(d) && !InPreviousYear(d) && InNextYear(d)
    ensures IsWeekOf(Ordinal(d), IsoWeek(d))
  {
    YearEdges(d);
    WeekInYear(d.year + 1, Ordinal(d));
    NextYearsFirstWeek(Ordinal(d), d.year, Week1Monday(d.year - 1), Week1Monday(d.year), Week1Monday(d.year + 1));
  }

  lemma WeekOfSameYear(d: Date)
    requires ValidDate(d) && !InPreviousYear(d) && !InNextYear(d)
    ensures IsWeekOf(Ordinal(d), IsoWeek(d))
  {
    WeekInYear(d.year, Ordinal(d));
  }

  lemma IsoWeekByThursday(d: Date)
    requires ValidDate(d)
    ensures IsWeekOf(Ordinal(d), IsoWeek(d))
  {
    if InPreviousYear(d) {
      WeekOfPreviousYear(d);
    } else if InNextYear(d) {
      WeekOfNextYear(d);
    } else {
      WeekOfSameYear(d);
    }
  }

  /** Two dates have the same ISO year and week exactly when they fall in the same Monday-to-Sunday week. */
  lemma SameWeek(a: Date, b: Date)
    requires ValidDate(a) && ValidDate(b)
    ensures IsoWeek(a) == IsoWeek(b) <==> MondayOf(Ordinal(a)) == MondayOf(Ordinal(b))
  {
    IsoWeekByThursday(a);
    IsoWeekByThursday(b);
    MondayOfIsMonday(Ordinal(a));
    MondayOfIsMonday(Ordinal(b));
    SameThursday(IsoWeek(a), IsoWeek(b), MondayOf(Ordinal(a)) + 3, MondayOf(Ordinal(b)) + 3);
  }

  lemma MondayOfIsMonday(o: int)
    ensures IsMonday(MondayOf(o))
  {
  }

  lemma SameThursday(v: (int, int), w: (int, int), s: int, t: int)
    requires v.0 >= 1 && w.0 >= 1 && IsMonday(s - 3) && IsMonday(t - 3)
    requires DaysBeforeYear(v.0) < s <= DaysBeforeYear(v.0 + 1) && v.1 == (s - DaysBeforeYear(v.0) - 1) / 7 + 1
    requires DaysBeforeYear(w.0) < t <= DaysBeforeYear(w.0 + 1) && w.1 == (t - DaysBeforeYear(w.0) - 1) / 7 + 1
    ensures v == w <==> s == t
  {
    if s == t {
      YearOfDay(s, v.0, w.0);
    } else if v.0 == w.0 {
      ThursdaysCounted(s, t, DaysBeforeYear(v.0));
    }
  }

  lemma YearOfDay(n: int, y: nat, z: nat)
    requires 1 <= y && 1 <= z
    requires DaysBeforeYear(y) < n <= DaysBeforeYear(y + 1) && DaysBeforeYear(z) < n <= DaysBeforeYear(z + 1)
    ensures y == z
  {
    if y < z { YearsIncrease(y + 1, z); }
    if z < y { YearsIncrease(z + 1, y); }
  }

  lemma ThursdaysCounted(s: int, t: int, start: int)
    requires s != t && IsMonday(s - 3) && IsMonday(t - 3)
    ensures (s - start - 1) / 7 != (t - start - 1) / 7
  {
    if s < t { MondaysApart(s - 3, t - 3); } else { MondaysApart(t - 3, s - 3); }
  }

  // ------------------------------------------------------------ keys

  function Pad2(n: nat): string { if n < 10 then "0" + DecimalText(n) else DecimalText(n) }

  /** `strftime("%Y-%m-%d")`; the platform's `%Y` does not pad. */
  function DayStamp(d: Date): string {
    DecimalText(d.year) + ("-" + (Pad2(d.month) + ("-" + Pad2(d.day))))
  }

  function HourStamp(t: DateTime): string { DayStamp(t.date) + ("T" + Pad2(t.hour)) }

  function WeekStamp(d: Date): string
    requires ValidDate(d)
  {
    IsoWeekByThursday(d);
    WeekNumberBounds(d);
    DecimalText(IsoWeek(d).0) + ("-W" + Pad2(IsoWeek(d).1))
  }

  lemma WeekNumberBounds(d: Date)
    requires ValidDate(d)
    ensures IsoWeek(d).0 >= 1 && 1 <= IsoWeek(d).1 <= 53
  {
    IsoWeekByThursday(d);
    NextYear(IsoWeek(d).0);
  }

  /** What the stamp after the colon shows of an instant. */
  function Stamp(frequency: string, t: DateTime): string
    requires Valid(t)
  {
    if frequency == "hourly" then HourStamp(t)
    else if frequency == "weekly" then WeekStamp(t.date)
    else DayStamp(t.date)
  }

  /** `run_key`. */
  function RunKey(frequency: string, t: DateTime): string
    requires Valid(t)
  {
    frequency + ":" + Stamp(frequency, t)
  }

  lemma DecimalInjective(a: nat, b: nat)
    requires DecimalText(a) == DecimalText(b)
    ensures a == b
  {
    DecimalRoundTrip(a);
    DecimalRoundTrip(b);
  }

  /** A number followed by a non-digit can be cut off again. */
  lemma DecimalCut(a: nat, x: string, b: nat, y: string)
    requires DecimalText(a) + x == DecimalText(b) + y
    requires x != "" && y != "" && !IsDigit(x[0]) && !IsDigit(y[0])
    ensures a == b && x == y
  {
    var s := DecimalText(a) + x;
    SpanOfRun(DecimalText(a), x, IsDigit);
    SpanOfRun(DecimalText(b), y, IsDigit);
    assert s[..|DecimalText(a)|] == DecimalText(a) && s[..|DecimalText(b)|] == DecimalText(b);
    assert s[|DecimalText(a)|..] == x && s[|DecimalText(b)|..] == y;
    DecimalInjective(a, b);
  }

  lemma Pad2Injective(a: nat, x: string, b: nat, y: string)
    requires a < 100 && b < 100 && Pad2(a) + x == Pad2(b) + y
    ensures a == b && x == y
  {
    var s, t := Pad2(a) + x, Pad2(b) + y;
    Pad2Shape(a);
    Pad2Shape(b);
    assert s[0] == Pad2(a)[0] && s[1] == Pad2(a)[1] && t[0] == Pad2(b)[0] && t[1] == Pad2(b)[1];
    assert s[2..] == x && t[2..] == y;
  }

  lemma Pad2Shape(n: nat)
    requires n < 100
    ensures Pad2(n) == [DigitChar(n / 10), DigitChar(n % 10)]
  {
    assert DigitChar(0) == '0';
    if n < 10 {
      assert n / 10 == 0 && n % 10 == n;
    } else {
      assert DecimalText(n / 10) == [DigitChar(n / 10)];
    }
  }

  lemma TailOf(c: char, x: string, y: string)
    requires [c] + x == [c] + y
    ensures x == y
  {
    assert ([c] + x)[1..] == x && ([c] + y)[1..] == y;
  }

  lemma MonthDayInjective(m: nat, d: nat, x: string, n: nat, e: nat, y: string)
    requires m < 100 && d < 100 && n < 100 && e < 100
    requires Pad2(m) + (['-'] + (Pad2(d) + x)) == Pad2(n) + (['-'] + (Pad2(e) + y))
    ensures m == n && d == e && x == y
  {
    Pad2Injective(m, ['-'] + (Pad2(d) + x), n, ['-'] + (Pad2(e) + y));
    TailOf('-', Pad2(d) + x, Pad2(e) + y);
    Pad2Injective(d, x, e, y);
  }

  lemma DayStampParts(d: Date, x: string)
    ensures DayStamp(d) + x == DecimalText(d.year) + (['-'] + (Pad2(d.month) + (['-'] + (Pad2(d.day) + x))))
  {
    Append3(DecimalText(d.year), Pad2(d.month), Pad2(d.day), x);
  }

  lemma Append3(a: string, b: string, c: string, x: string)
    ensures a + ("-" + (b + ("-" + c))) + x == a + (['-'] + (b + (['-'] + (c + x))))
  {
  }

  lemma DayStampInjective(a: Date, x: string, b: Date, y: string)
    requires ValidDate(a) && ValidDate(b) && DayStamp(a) + x == DayStamp(b) + y
    ensures a == b && x == y
  {
    DayStampParts(a, x);
    DayStampParts(b, y);
    var p, q := Pad2(a.month) + (['-'] + (Pad2(a.day) + x)), Pad2(b.month) + (['-'] + (Pad2(b.day) + y));
    DecimalCut(a.year, ['-'] + p, b.year, ['-'] + q);
    TailOf('-', p, q);
    MonthDayInjective(a.month, a.day, x, b.month, b.day, y);
  }

  lemma HourStampInjective(a: DateTime, b: DateTime)
    requires Valid(a) && Valid(b) && HourStamp(a) == HourStamp(b)
    ensures a.date == b.date && a.hour == b.hour
  {
    DayStampInjective(a.date, "T" + Pad2(a.hour), b.date, "T" + Pad2(b.hour));
    assert ("T" + Pad2(a.hour))[1..] == Pad2(a.hour) && ("T" + Pad2(b.hour))[1..] == Pad2(b.hour);
    assert Pad2(a.hour) + "" == Pad2(a.hour) && Pad2(b.hour) + "" == Pad2(b.hour);
    Pad2Injective(a.hour, "", b.hour, "");
  }

  lemma WeekStampInjective(a: Date, b: Date)
    requires ValidDate(a) && ValidDate(b) && WeekStamp(a) == WeekStamp(b)
    ensures IsoWeek(a) == IsoWeek(b)
  {
    WeekNumberBounds(a);
    WeekNumberBounds(b);
    var wa, wb := Pad2(IsoWeek(a).1), Pad2(IsoWeek(b).1);
    DecimalCut(IsoWeek(a).0, "-W" + wa, IsoWeek(b).0, "-W" + wb);
    assert ("-W" + wa)[2..] == wa && ("-W" + wb)[2..] == wb;
    assert wa + "" == wa && wb + "" == wb;
    Pad2Injective(IsoWeek(a).1, "", IsoWeek(b).1, "");
  }

  // ------------------------------------------------------------ keys are buckets of time

  const HOUR := 3600000000
  const DAY := 86400000000

  /** `_PERIOD.get(frequency, one day)`, in microseconds. */
  function Period(frequency: string): int {
    if frequency == "hourly" then HOUR else if frequency == "weekly" then 7 * DAY else DAY
  }

  function TimeOfDay(t: DateTime): int { ((t.hour * 60 + t.minute) * 60 + t.second) * 1000000 + t.micro }

  /** Microseconds since the start of day 0. */
  function Instant(t: DateTime): int { Ordinal(t.date) * DAY + TimeOfDay(t) }

  function WeekNumber(t: DateTime): int { (Instant(t) - DAY) / (7 * DAY) }

  /** The number of the clock hour, the calendar day, or the Monday-to-Sunday week of an instant. */
  function Bucket(frequency: string, t: DateTime): int {
    if frequency == "hourly" then Instant(t) / HOUR
    else if frequency == "weekly" then WeekNumber(t)
    else Instant(t) / DAY
  }

  lemma BucketParts(t: DateTime)
    requires Valid(t)
    ensures Instant(t) / HOUR == Ordinal(t.date) * 24 + t.hour
    ensures Instant(t) / DAY == Ordinal(t.date)
    ensures WeekNumber(t) == (Ordinal(t.date) - 1) / 7
  {
    var o, r := Ordinal(t.date), TimeOfDay(t);
    assert 0 <= r - t.hour * HOUR < HOUR && 0 <= r < DAY;
    assert Instant(t) == (o * 24 + t.hour) * HOUR + (r - t.hour * HOUR);
    var q, w := (o - 1) / 7, (o - 1) % 7;
    assert Instant(t) - DAY == q * (7 * DAY) + (w * DAY + r);
  }

  lemma SameBucketSameStamp(o: int, p: int, h: nat, k: nat)
    requires h < 24 && k < 24
    ensures o * 24 + h == p * 24 + k <==> o == p && h == k
    ensures (o - 1) / 7 == (p - 1) / 7 <==> MondayOf(o) == MondayOf(p)
  {
  }

  predicate SameStampedPart(frequency: string, a: DateTime, b: DateTime)
    requires Valid(a) && Valid(b)
  {
    if frequency == "hourly" then a.date == b.date && a.hour == b.hour
    else if frequency == "weekly" then IsoWeek(a.date) == IsoWeek(b.date)
    else a.date == b.date
  }

  lemma StampShowsPart(frequency: string, a: DateTime, b: DateTime)
    requires Valid(a) && Valid(b) && Stamp(frequency, a) == Stamp(frequency, b)
    ensures SameStampedPart(frequency, a, b)
  {
    if frequency == "hourly" {
      HourStampInjective(a, b);
    } else if frequency == "weekly" {
      WeekStampInjective(a.date, b.date);
    } else {
      assert DayStamp(a.date) + "" == DayStamp(a.date) && DayStamp(b.date) + "" == DayStamp(b.date);
      DayStampInjective(a.date, "", b.date, "");
    }
  }

  lemma KeyIsStamp(frequency: string, a: DateTime, b: DateTime)
    requires Valid(a) && Valid(b)
    ensures RunKey(frequency, a) == RunKey(frequency, b) <==> Stamp(frequency, a) == Stamp(frequency, b)
  {
    var n := |frequency| + 1;
    assert RunKey(frequency, a)[n..] == Stamp(frequency, a);
    assert RunKey(frequency, b)[n..] == Stamp(frequency, b);
  }

  lemma WeekNumberIs(t: DateTime, o: int)
    requires Valid(t) && o == Ordinal(t.date)
    ensures WeekNumber(t) == (o - 1) / 7
  {
    BucketParts(t);
  }

  lemma WeekNumberIsMonday(a: DateTime, b: DateTime, o: int, p: int)
    requires Valid(a) && Valid(b) && o == Ordinal(a.date) && p == Ordinal(b.date)
    ensures WeekNumber(a) == WeekNumber(b) <==> MondayOf(o) == MondayOf(p)
  {
    WeekNumberIs(a, o);
    WeekNumberIs(b, p);
    SameBucketSameStamp(o, p, 0, 0);
  }

  lemma WeekBucketIsPart(a: DateTime, b: DateTime)
    requires Valid(a) && Valid(b)
    ensures WeekNumber(a) == WeekNumber(b) <==> IsoWeek(a.date) == IsoWeek(b.date)
  {
    WeekNumberIsMonday(a, b, Ordinal(a.date), Ordinal(b.date));
    SameWeek(a.date, b.date);
  }

  lemma SameOrdinal(a: Date, b: Date)
    requires ValidDate(a) && ValidDate(b)
    ensures Ordinal(a) == Ordinal(b) <==> a == b
  {
    if Ordinal(a) == Ordinal(b) { OrdinalInjective(a, b); }
  }

  lemma BucketIsPart(frequency: string, a: DateTime, b: DateTime)
    requires Valid(a) && Valid(b)
    ensures Bucket(frequency, a) == Bucket(frequency, b) <==> SameStampedPart(frequency, a, b)
  {
    if frequency == "weekly" {
      WeekBucketIsPart(a, b);
    } else {
      BucketParts(a);
      BucketParts(b);
      SameOrdinal(a.date, b.date);
      SameBucketSameStamp(Ordinal(a.date), Ordinal(b.date), a.hour, b.hour);
    }
  }

  /** Period keys are exact buckets: equal keys mean the same hour, day, or Monday-to-Sunday week. */
  lemma KeyIsBucket(frequency: string, a: DateTime, b: DateTime)
    requires Valid(a) && Valid(b)
    ensures RunKey(frequency, a) == RunKey(frequency, b) <==> Bucket(frequency, a) == Bucket(frequency, b)
  {
    KeyIsStamp(frequency, a, b);
    BucketIsPart(frequency, a, b);
    if Stamp(frequency, a) == Stamp(frequency, b) {
      StampShowsPart(frequency, a, b);
    }
  }

  lemma ShiftedQuotient(x: int, k: int, frequency: string)
    ensures (x + k * Period(frequency)) / Period(frequency) == x / Period(frequency) + k
  {
    if frequency == "hourly" {
      assert (x + k * 3600000000) / 3600000000 == x / 3600000000 + k;
    } else if frequency == "weekly" {
      assert (x + k * 604800000000) / 604800000000 == x / 604800000000 + k;
    } else {
      assert (x + k * 86400000000) / 86400000000 == x / 86400000000 + k;
    }
  }

  lemma BucketShift(frequency: string, a: DateTime, b: DateTime, k: int)
    requires Instant(b) == Instant(a) + k * Period(frequency)
    ensures Bucket(frequency, b) == Bucket(frequency, a) + k
  {
    var x := if frequency == "weekly" then Instant(a) - DAY else Instant(a);
    var y := if frequency == "weekly" then Instant(b) - DAY else Instant(b);
    assert y == x + k * Period(frequency);
    ShiftedQuotient(x, k, frequency);
  }

  /** Fires a whole number of periods apart are that many buckets apart, so their keys differ. */
  lemma PeriodsApart(frequency: string, a: DateTime, b: DateTime, k: int)
    requires Valid(a) && Valid(b) && k != 0
    requires Instant(b) == Instant(a) + k * Period(frequency)
    ensures Bucket(frequency, b) == Bucket(frequency, a) + k
    ensures RunKey(frequency, a) != RunKey(frequency, b)
  {
    BucketShift(frequency, a, b, k);
    KeyIsBucket(frequency, a, b);
  }

  // ------------------------------------------------------------ windows

  lemma InstantInjective(a: DateTime, b: DateTime)
    requires Valid(a) && Valid(b) && Instant(a) == Instant(b)
    ensures a == b
  {
    BucketParts(a);
    BucketParts(b);
    OrdinalInjective(a.date, b.date);
    assert TimeOfDay(a) == TimeOfDay(b);
  }

  /** The date and time at an instant; the inverse of `Instant`. */
  function FromInstant(n: int): (t: DateTime)
    requires n >= DAY
    ensures Valid(t)
  {
    var r := n % DAY;
    var s := r / 1000000;
    DateTime(FromOrdinal(n / DAY), s / 3600, s / 60 % 60, s % 60, r % 1000000)
  }

  lemma ClockParts(r: int)
    requires 0 <= r < DAY
    ensures var s := r / 1000000;
            ((s / 3600 * 60 + s / 60 % 60) * 60 + s % 60) * 1000000 + r % 1000000 == r
  {
    var s := r / 1000000;
    assert s == (s / 60) * 60 + s % 60;
    assert s / 60 == (s / 3600) * 60 + s / 60 % 60;
  }

  lemma FromInstantInverse(n: int)
    requires n >= DAY
    ensures Instant(FromInstant(n)) == n
  {
    FromOrdinalInverse(n / DAY);
    ClockParts(n % DAY);
    assert TimeOfDay(FromInstant(n)) == n % DAY;
  }

  function Pad4(n: nat): string {
    if n < 10 then "000" + DecimalText(n) else if n < 100 then "00" + DecimalText(n)
    else if n < 1000 then "0" + DecimalText(n) else DecimalText(n)
  }

  /** `isoformat(timespec="seconds")` of a naive datetime. */
  function IsoSeconds(t: DateTime): string {
    Pad4(t.date.year) + "-" + Pad2(t.date.month) + "-" + Pad2(t.date.day) + "T" +
    Pad2(t.hour) + ":" + Pad2(t.minute) + ":" + Pad2(t.second)
  }

  /** `compute_window`; `None` is the overflow below year 1. */
  function ComputeWindow(frequency: string, fire: DateTime): Option<(string, string)>
    requires Valid(fire)
  {
    var start := Instant(fire) - Period(frequency);
    if start < DAY then None else Some((IsoSeconds(FromInstant(start)), IsoSeconds(fire)))
  }

  /** Windows of fires exactly one period apart abut: one ends where the next begins. */
  lemma WindowsAbut(frequency: string, a: DateTime, b: DateTime)
    requires Valid(a) && Valid(b) && Instant(b) == Instant(a) + Period(frequency)
    ensures ComputeWindow(frequency, b) == Some((IsoSeconds(a), IsoSeconds(b)))
    ensures ComputeWindow(frequency, a).Some? ==>
              ComputeWindow(frequency, a).value.1 == ComputeWindow(frequency, b).value.0
  {
    InstantRoundTrip(a);
    WindowStarts(frequency, a, b);
    WindowEnds(frequency, a);
  }

  lemma WindowStarts(frequency: string, a: DateTime, b: DateTime)
    requires Valid(b) && Instant(a) >= DAY && Instant(a) == Instant(b) - Period(frequency)
    requires FromInstant(Instant(a)) == a
    ensures ComputeWindow(frequency, b) == Some((IsoSeconds(a), IsoSeconds(b)))
  {
  }

  lemma WindowEnds(frequency: string, fire: DateTime)
    requires Valid(fire)
    ensures ComputeWindow(frequency, fire).Some? ==> ComputeWindow(frequency, fire).value.1 == IsoSeconds(fire)
  {
  }

  lemma InstantRoundTrip(t: DateTime)
    requires Valid(t)
    ensures Instant(t) >= DAY && FromInstant(Instant(t)) == t
  {
    OrdinalBounds(t.date);
    FromInstantInverse(Instant(t));
    InstantInjective(t, FromInstant(Instant(t)));
  }
}
