// engine/event_calendar.py: WTI trading time by walking calendar days.
//
// Same-zone datetime arithmetic is wall-clock arithmetic on microseconds, so a datetime is an integer
// here: microseconds of Eastern wall-clock time since the day of ordinal 1 began, a Monday.
module WtiCalendar {
  import opened Numeric
  import BusinessDays

  const MINUTE := 60_000_000
  const HOUR := 3_600_000_000
  const DAY := 86_400_000_000
  const WEEK := 604_800_000_000

  type Window = (int, int, int, int)  // start hour and minute, end hour and minute

  function Weekday(t: int): (d: nat)
    ensures d < 7
  {
    (t / DAY) % 7
  }

  function Windows(weekday: nat): seq<Window> {
    if weekday <= 3 then [(0, 0, 17, 0), (18, 0, 24, 0)]
    else if weekday == 4 then [(0, 0, 17, 0)]
    else if weekday == 5 then []
    else [(18, 0, 24, 0)]
  }

  function WindowEndpoints(day: int, w: Window): (int, int) {
    (day + w.0 * HOUR + w.1 * MINUTE, if w.2 >= 24 then day + DAY else day + w.2 * HOUR + w.3 * MINUTE)
  }

  // ---- The session, instant by instant ---------------------------------------------------------------

  // Monday to Thursday all day but the halt 17:00-18:00; Friday until 17:00; Sunday from 18:00.
  predicate Open(t: int) {
    var d, h := Weekday(t), t % DAY;
    if d <= 3 then h < 17 * HOUR || h >= 18 * HOUR
    else if d == 4 then h < 17 * HOUR
    else d == 6 && h >= 18 * HOUR
  }

  // The number of open microseconds in [a, b).
  function Measure(a: int, b: int): nat
    decreases b - a
  {
    if b <= a then 0 else Measure(a, b - 1) + if Open(b - 1) then 1 else 0
  }

  lemma {:induction false} MeasureSplits(a: int, b: int, c: int)
    requires a <= b <= c
    ensures Measure(a, c) == Measure(a, b) + Measure(b, c)
    decreases c - b
  {
    if b < c {
      MeasureSplits(a, b, c - 1);
    }
  }

  lemma {:induction false} AllOpen(a: int, b: int)
    requires a <= b && forall t :: a <= t < b ==> Open(t)
    ensures Measure(a, b) == b - a
    decreases b - a
  {
    if a < b {
      AllOpen(a, b - 1);
    }
  }

  lemma {:induction false} AllClosed(a: int, b: int)
    requires a <= b && forall t :: a <= t < b ==> !Open(t)
    ensures Measure(a, b) == 0
    decreases b - a
  {
    if a < b {
      AllClosed(a, b - 1);
    }
  }

  // ---- The day walk ----------------------------------------------------------------------------------

  function Overlap(lo0: int, hi0: int, lo1: int, hi1: int): int { Max(0, Min(hi0, hi1) - Max(lo0, lo1)) }

  // What the windows of one day add.
  function DayTotal(day: int, ws: seq<Window>, start: int, stop: int): int {
    if ws == [] then 0
    else
      var (lo, hi) := WindowEndpoints(day, ws[|ws| - 1]);
      DayTotal(day, ws[..|ws| - 1], start, stop) + Overlap(lo, hi, start, stop)
  }

  lemma SameDay(day: int, t: int)
    requires day % DAY == 0 && day <= t < day + DAY
    ensures Weekday(t) == Weekday(day) && t % DAY == t - day
  {
    assert t / DAY == day / DAY;
  }

  // Within one day, from 17:00 and 18:00 on.
  lemma DayParts(day: int, lo: int, hi: int)
    requires day % DAY == 0 && day <= lo <= hi <= day + DAY
    ensures var m := Max(lo, Min(hi, day + 17 * HOUR));
            var e := Max(lo, Min(hi, day + 18 * HOUR));
            var d := Weekday(day);
            Measure(lo, hi) == (if d <= 4 then m - lo else 0) + (if d <= 3 || d == 6 then hi - e else 0)
  {
    var m := Max(lo, Min(hi, day + 17 * HOUR));
    var e := Max(lo, Min(hi, day + 18 * HOUR));
    var d := Weekday(day);
    forall t | lo <= t < hi ensures Weekday(t) == d && t % DAY == t - day {
      SameDay(day, t);
    }
    MeasureSplits(lo, m, hi);
    MeasureSplits(m, e, hi);
    AllClosed(m, e);
    if d <= 4 { AllOpen(lo, m); } else { AllClosed(lo, m); }
    if d <= 3 || d == 6 { AllOpen(e, hi); } else { AllClosed(e, hi); }
  }

  lemma EndpointsInHours(day: int)
    ensures WindowEndpoints(day, (0, 0, 17, 0)) == (day, day + 17 * HOUR)
    ensures WindowEndpoints(day, (18, 0, 24, 0)) == (day + 18 * HOUR, day + DAY)
  {
  }

  lemma DayTotalByWeekday(day: int, d: nat, start: int, stop: int)
    requires d < 7
    ensures DayTotal(day, Windows(d), start, stop) ==
            (if d <= 4 then Overlap(day, day + 17 * HOUR, start, stop) else 0)
            + (if d <= 3 || d == 6 then Overlap(day + 18 * HOUR, day + DAY, start, stop) else 0)
  {
    EndpointsInHours(day);
    var morning, evening := (0, 0, 17, 0), (18, 0, 24, 0);
    OneWindow(day, morning, start, stop);
    OneWindow(day, evening, start, stop);
    assert [morning, evening][..1] == [morning];
  }

  lemma OneWindow(day: int, w: Window, start: int, stop: int)
    ensures var (lo, hi) := WindowEndpoints(day, w);
            DayTotal(day, [w], start, stop) == Overlap(lo, hi, start, stop)
  {
    assert [w][..0] == [];
  }

  lemma NextDay(day: int)
    requires day % DAY == 0
    ensures (day + DAY) % DAY == 0
  {
  }

  lemma DayTotalIsMeasure(day: int, start: int, stop: int)
    requires day % DAY == 0 && start < day + DAY && day < stop && start < stop
    ensures DayTotal(day, Windows(Weekday(day)), start, stop) == Measure(Max(day, start), Min(day + DAY, stop))
  {
    DayParts(day, Max(day, start), Min(day + DAY, stop));
    DayTotalByWeekday(day, Weekday(day), start, stop);
  }

  method WtiTradingTime(start: int, end: int) returns (total: int)
    ensures total == Measure(start, end)
  {
    if end <= start {
      return 0;
    }
    total := 0;
    var day := start - start % DAY;
    while day < end
      invariant day % DAY == 0 && start < day + DAY
      invariant total == Measure(start, Min(end, Max(start, day)))
      decreases end - day
    {
      var today := WindowsOfDay(day, start, end);
      total := total + today;
      DayTotalIsMeasure(day, start, end);
      MeasureSplits(start, Max(start, day), Min(end, day + DAY));
      NextDay(day);
      day := day + DAY;
    }
  }

  // The inner loop.
  method WindowsOfDay(day: int, start: int, stop: int) returns (total: int)
    ensures total == DayTotal(day, Windows(Weekday(day)), start, stop)
  {
    total := 0;
    var ws := Windows(Weekday(day));
    for i := 0 to |ws|
      invariant total == DayTotal(day, ws[..i], start, stop)
    {
      assert ws[..i + 1][..i] == ws[..i];
      var (winStart, winEnd) := WindowEndpoints(day, ws[i]);
      var lo, hi := Max(winStart, start), Min(winEnd, stop);
      if hi > lo {
        total := total + (hi - lo);
      }
    }
    assert ws[..|ws|] == ws;
  }

  // ---- What a measure promises -------------------------------------------------------------------------

  // Additive over any split, monotone in both ends, and never more than the elapsed time.
  lemma TradingTimeIsAMeasure(a: int, b: int, c: int, d: int)
    requires a <= b <= c <= d
    ensures Measure(a, d) == Measure(a, b) + Measure(b, c) + Measure(c, d)
    ensures Measure(b, c) <= Measure(a, d) && Measure(b, c) <= c - b
  {
    MeasureSplits(a, b, d);
    MeasureSplits(b, c, d);
    AtMostElapsed(b, c);
  }

  lemma {:induction false} AtMostElapsed(a: int, b: int)
    requires a <= b
    ensures Measure(a, b) <= b - a
    decreases b - a
  {
    if a < b {
      AtMostElapsed(a, b - 1);
    }
  }

  lemma OpenIsWeekly(t: int)
    ensures Open(t + WEEK) == Open(t)
  {
    assert (t + WEEK) / DAY == t / DAY + 7;
    assert (t + WEEK) % DAY == t % DAY;
  }

  lemma WholeDay(n: nat)
    requires n < 7
    ensures Measure(n * DAY, (n + 1) * DAY) ==
            (if n <= 3 then 23 else if n == 4 then 17 else if n == 5 then 0 else 6) * HOUR
  {
    var day := n * DAY;
    assert day / DAY == n && Weekday(day) == n;
    hide Measure, Open, Weekday;
    DayParts(day, day, day + DAY);
  }

  lemma {:induction false} FirstDays(n: nat)
    requires n <= 7
    ensures Measure(0, n * DAY) == (if n <= 4 then 23 * n else if n <= 6 then 109 else 115) * HOUR
  {
    if n > 0 {
      FirstDays(n - 1);
      WholeDay(n - 1);
      hide Measure;
      MeasureSplits(0, (n - 1) * DAY, n * DAY);
    }
  }

  lemma OneSecond(t: int)
    ensures Measure(t, t + 1) == if Open(t) then 1 else 0
  {
    assert Measure(t, t) == 0;
  }

  lemma WeekSlides(lo: int)
    ensures Measure(lo + 1, lo + 1 + WEEK) == Measure(lo, lo + WEEK)
  {
    OneSecond(lo);
    OneSecond(lo + WEEK);
    OpenIsWeekly(lo);
    hide Measure, Open;
    MeasureSplits(lo, lo + 1, lo + 1 + WEEK);
    MeasureSplits(lo, lo + WEEK, lo + 1 + WEEK);
  }

  // Every week holds 115 trading hours, wherever it starts.
  lemma {:induction false} WeekHolds115Hours(a: int)
    ensures Measure(a, a + WEEK) == 115 * HOUR
    decreases if a < 0 then -a else a
  {
    hide Measure, Open;
    if a == 0 {
      FirstDays(7);
    } else if a > 0 {
      WeekHolds115Hours(a - 1);
      WeekSlides(a - 1);
    } else {
      WeekHolds115Hours(a + 1);
      WeekSlides(a);
    }
  }

  // The instants of a date have its weekday.
  lemma WeekdayOfDate(ordinal: int, t: int)
    requires (ordinal - 1) * DAY <= t < ordinal * DAY
    ensures Weekday(t) == BusinessDays.Weekday(ordinal)
  {
    assert t / DAY == ordinal - 1;
  }

  // The closed hours of the week of this Monday: the halts of Monday to Thursday, and the weekend from Friday
  // 17:00 to Sunday 18:00. They make up the 53 hours not traded.
  lemma ClosedHours(monday: int, d: nat)
    requires monday % WEEK == 0 && d < 4
    ensures Measure(monday + d * DAY + 17 * HOUR, monday + d * DAY + 18 * HOUR) == 0
    ensures Measure(monday + 4 * DAY + 17 * HOUR, monday + 6 * DAY + 18 * HOUR) == 0
  {
    ClosedFrom(monday, d, 17 * HOUR, 18 * HOUR);
    ClosedFrom(monday, 4, 17 * HOUR, DAY);
    ClosedFrom(monday, 5, 0, DAY);
    ClosedFrom(monday, 6, 0, 18 * HOUR);
    hide Measure;
    MeasureSplits(monday + 4 * DAY + 17 * HOUR, monday + 5 * DAY, monday + 6 * DAY + 18 * HOUR);
    MeasureSplits(monday + 5 * DAY, monday + 6 * DAY, monday + 6 * DAY + 18 * HOUR);
  }

  lemma ClosedFrom(monday: int, d: nat, from: nat, to: nat)
    requires monday % WEEK == 0 && d < 7 && from <= to <= DAY
    requires if d < 4 then 17 * HOUR <= from && to <= 18 * HOUR
             else if d == 4 then 17 * HOUR <= from
             else if d == 6 then to <= 18 * HOUR else true
    ensures Measure(monday + d * DAY + from, monday + d * DAY + to) == 0
  {
    var day := monday + d * DAY;
    assert day / DAY == monday / WEEK * 7 + d && day % DAY == 0;
    forall t | day + from <= t < day + to ensures !Open(t) {
      SameDay(day, t);
    }
    AllClosed(day + from, day + to);
  }

  // Whole weeks can be taken off an interval.
  lemma {:induction false} WeeksAdd(a: int, b: int, n: nat)
    requires a <= b
    ensures Measure(a, b + n * WEEK) == Measure(a, b) + n * 115 * HOUR
  {
    if n > 0 {
      WeeksAdd(a, b, n - 1);
      var c := b + (n - 1) * WEEK;
      MeasureSplits(a, c, c + WEEK);
      WeekHolds115Hours(c);
    }
  }
}
