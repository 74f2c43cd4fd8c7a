/** What the scheduler's texts show: keys, windows and fire times read back as the dates and times they stand for. */
module Stamps {
  import opened Wrappers
  import opened Text
  import opened Calendar
  import opened Engine

  /** Decimal digits that denote `n`. */
  predicate Shows(s: string, n: nat) { s != "" && All(s, IsDigit) && DecimalValue(s) == n }

  /** With leading zeros, in this many digits. */
  predicate ShowsIn(s: string, n: nat, width: nat) { Shows(s, n) && |s| == width }

  // ------------------------------------------------------------ padded numbers

  lemma {:induction false} ZeroInFront(s: string)
    requires All(s, IsDigit)
    ensures All("0" + s, IsDigit) && DecimalValue("0" + s) == DecimalValue(s)
  {
    var t := "0" + s;
    if s == "" {
      assert t[..0] == "" && DigitValue('0') == 0;
    } else {
      ZeroInFront(s[..|s|-1]);
      assert t[..|t|-1] == "0" + s[..|s|-1];
    }
  }

  function Power(k: nat): (p: nat)
    ensures p >= 1
  {
    if k == 0 then 1 else 10 * Power(k - 1)
  }

  lemma {:induction false} DecimalWidth(n: nat, width: nat)
    requires width > 0
    ensures |DecimalText(n)| <= width <==> n < Power(width)
  {
    if n >= 10 {
      assert |DecimalText(n)| == |DecimalText(n / 10)| + 1;
      if width > 1 { DecimalWidth(n / 10, width - 1); }
    }
  }

  /** The number of digits tells the size. */
  lemma Widths(n: nat)
    ensures |DecimalText(n)| == 1 <==> n < 10
    ensures |DecimalText(n)| <= 2 <==> n < 100
    ensures |DecimalText(n)| <= 3 <==> n < 1000
    ensures |DecimalText(n)| <= 4 <==> n < 10000
    ensures |DecimalText(n)| <= 5 <==> n < 100000
    ensures |DecimalText(n)| <= 6 <==> n < 1000000
  {
    DecimalWidth(n, 1);
    DecimalWidth(n, 2);
    DecimalWidth(n, 3);
    DecimalWidth(n, 4);
    DecimalWidth(n, 5);
    DecimalWidth(n, 6);
    assert Power(1) == 10 && Power(2) == 100 && Power(3) == 1000;
    assert Power(4) == 10000 && Power(5) == 100000 && Power(6) == 1000000;
  }

  function Padded(k: nat, s: string): (r: string)
    ensures |r| == k + |s|
  {
    if k == 0 then s else "0" + Padded(k - 1, s)
  }

  lemma {:induction false} PaddedShows(k: nat, n: nat)
    ensures Shows(Padded(k, DecimalText(n)), n)
  {
    if k == 0 {
      DecimalRoundTrip(n);
    } else {
      PaddedShows(k - 1, n);
      ZeroInFront(Padded(k - 1, DecimalText(n)));
    }
  }

  lemma Pad2Shows(n: nat)
    requires n < 100
    ensures ShowsIn(Pad2(n), n, 2)
  {
    Widths(n);
    var k := 2 - |DecimalText(n)|;
    PaddedShows(k, n);
    assert Pad2(n) == Padded(k, DecimalText(n));
  }

  function Zeros(k: nat): string { if k == 0 then "" else ['0'] + Zeros(k - 1) }

  lemma {:induction false} PaddedIs(k: nat, s: string)
    ensures Padded(k, s) == Zeros(k) + s
  {
    if k > 0 {
      PaddedIs(k - 1, s);
      assert ['0'] + (Zeros(k - 1) + s) == Zeros(k) + s;
    }
  }

  lemma FewZeros()
    ensures Zeros(1) == "0" && Zeros(2) == "00" && Zeros(3) == "000" && Zeros(4) == "0000" && Zeros(5) == "00000"
  {
  }

  lemma Pad4Shows(n: nat)
    ensures Shows(Pad4(n), n) && (n < 10000 ==> |Pad4(n)| == 4)
  {
    Widths(n);
    var k := if n < 10000 then 4 - |DecimalText(n)| else 0;
    PaddedShows(k, n);
    PaddedIs(k, DecimalText(n));
    FewZeros();
    assert Pad4(n) == Padded(k, DecimalText(n));
  }

  lemma Pad6Shows(n: nat)
    requires n < 1000000
    ensures ShowsIn(Pad6(n), n, 6)
  {
    Widths(n);
    var k := 6 - |DecimalText(n)|;
    PaddedShows(k, n);
    PaddedIs(k, DecimalText(n));
    FewZeros();
    assert Pad6(n) == Padded(k, DecimalText(n));
  }

  // ------------------------------------------------------------ dates and times

  /** `text` is the date, then "T" and the time to the second. */
  ghost predicate ShowsSecond(text: string, t: DateTime) {
    exists y, mo, d, h, mi, s ::
      Shows(y, t.date.year) && (t.date.year < 10000 ==> |y| == 4) && ShowsIn(mo, t.date.month, 2) && ShowsIn(d, t.date.day, 2) &&
      ShowsIn(h, t.hour, 2) && ShowsIn(mi, t.minute, 2) && ShowsIn(s, t.second, 2) &&
      text == y + "-" + mo + "-" + d + "T" + h + ":" + mi + ":" + s
  }

  lemma IsoSecondsShows(t: DateTime)
    requires Calendar.Valid(t)
    ensures ShowsSecond(IsoSeconds(t), t)
  {
    Pad4Shows(t.date.year);
    Pad2Shows(t.date.month);
    DaysAreTwo(t.date);
    Pad2Shows(t.date.day);
    Pad2Shows(t.hour);
    Pad2Shows(t.minute);
    Pad2Shows(t.second);
  }

  lemma DaysAreTwo(d: Date)
    requires ValidDate(d)
    ensures d.day < 100
  {
  }

  /** An hour, a week or a day, in microseconds. */
  function Length(frequency: string): int {
    (if frequency == "hourly" then 1 else if frequency == "weekly" then 168 else 24) * 3600 * 1000000
  }

  lemma LengthIsPeriod(frequency: string)
    ensures Length(frequency) == Period(frequency)
  {
  }

  ghost predicate ShowsInstant(text: string, at: int) {
    exists t :: Calendar.Valid(t) && Instant(t) == at && ShowsSecond(text, t)
  }

  lemma FromInstantShows(at: int)
    requires at >= DAY
    ensures ShowsInstant(IsoSeconds(FromInstant(at)), at)
  {
    FromInstantInverse(at);
    IsoSecondsShows(FromInstant(at));
  }

  lemma WindowTexts(frequency: string, fire: DateTime, at: int)
    requires Calendar.Valid(fire) && at == Instant(fire) - Period(frequency)
    ensures ComputeWindow(frequency, fire) == if at < DAY then None else Some((IsoSeconds(FromInstant(at)), IsoSeconds(fire)))
  {
  }

  ghost predicate ShowsWindow(w: (string, string), fire: DateTime, at: int) { ShowsSecond(w.1, fire) && ShowsInstant(w.0, at) }

  lemma TextsShow(w: (string, string), fire: DateTime, at: int)
    requires Calendar.Valid(fire) && at >= DAY && w.0 == IsoSeconds(FromInstant(at)) && w.1 == IsoSeconds(fire)
    ensures ShowsWindow(w, fire, at)
  {
    IsoSecondsShows(fire);
    FromInstantShows(at);
  }

  /** The window of a fire: it ends at the fire, and begins one hour, day or week before it, if that is not before
      year 1. */
  lemma WindowShows(frequency: string, fire: DateTime)
    requires Calendar.Valid(fire)
    ensures var at := Instant(fire) - Length(frequency);
            if at < DAY then ComputeWindow(frequency, fire).None?
            else ComputeWindow(frequency, fire).Some? && ShowsWindow(ComputeWindow(frequency, fire).value, fire, at)
  {
    LengthIsPeriod(frequency);
    var at := Instant(fire) - Period(frequency);
    WindowTexts(frequency, fire, at);
    if at >= DAY { TextsShow(ComputeWindow(frequency, fire).value, fire, at); }
  }

  /** The period key shows the frequency, then the hour, the ISO week or the day. */
  ghost predicate ShowsPeriod(stamp: string, frequency: string, t: DateTime)
    requires Calendar.Valid(t)
  {
    if frequency == "weekly" then
      exists y, w :: Shows(y, IsoWeek(t.date).0) && ShowsIn(w, IsoWeek(t.date).1, 2) && stamp == y + "-W" + w
    else
      exists y, mo, d, h ::
        Shows(y, t.date.year) && ShowsIn(mo, t.date.month, 2) && ShowsIn(d, t.date.day, 2) && ShowsIn(h, t.hour, 2) &&
        stamp == y + "-" + mo + "-" + d + if frequency == "hourly" then "T" + h else ""
  }

  lemma KeyShows(frequency: string, t: DateTime)
    requires Calendar.Valid(t)
    ensures exists stamp :: RunKey(frequency, t) == frequency + ":" + stamp && ShowsPeriod(stamp, frequency, t)
  {
    DaysAreTwo(t.date);
    if frequency == "weekly" { WeekShows(t); } else { DayShows(frequency, t); }
    assert ShowsPeriod(Stamp(frequency, t), frequency, t);
  }

  lemma WeekShows(t: DateTime)
    requires Calendar.Valid(t)
    ensures ShowsPeriod(Stamp("weekly", t), "weekly", t)
  {
    WeekNumberBounds(t.date);
    var y, w := DecimalText(IsoWeek(t.date).0), Pad2(IsoWeek(t.date).1);
    PaddedShows(0, IsoWeek(t.date).0);
    Pad2Shows(IsoWeek(t.date).1);
    assert WeekStamp(t.date) == y + "-W" + w;
  }

  lemma DateText(y: string, mo: string, d: string, hour: string)
    ensures y + ("-" + (mo + ("-" + d))) == y + "-" + mo + "-" + d
    ensures (y + ("-" + (mo + ("-" + d)))) + hour == y + "-" + mo + "-" + d + hour
    ensures y + "-" + mo + "-" + d + "" == y + "-" + mo + "-" + d
  {
  }

  lemma DayShows(frequency: string, t: DateTime)
    requires Calendar.Valid(t) && frequency != "weekly"
    ensures ShowsPeriod(Stamp(frequency, t), frequency, t)
  {
    DaysAreTwo(t.date);
    var y, mo, d, h := DecimalText(t.date.year), Pad2(t.date.month), Pad2(t.date.day), Pad2(t.hour);
    PaddedShows(0, t.date.year);
    Pad2Shows(t.date.month);
    Pad2Shows(t.date.day);
    Pad2Shows(t.hour);
    DateText(y, mo, d, "T" + h);
  }

  /** The fire time shows the second, the microseconds in six digits unless there are none, and UTC. */
  lemma FiredAtShows(t: DateTime)
    requires Calendar.Valid(t)
    ensures exists second, micro ::
              ShowsSecond(second, t) && ShowsIn(micro, t.micro, 6) &&
              FiredAt(t) == second + (if t.micro == 0 then "" else "." + micro) + "+00:00"
  {
    IsoSecondsShows(t);
    Pad6Shows(t.micro);
  }
}
