// engine/goldman_roll.py: the index roll window, the fifth to the ninth business day of a month.
module GoldmanRoll {
  import opened Numeric
  import opened CivilDates
  import opened BusinessDays

  function FirstOf(y: int, m: int): int
    requires 1 <= m <= 12
  {
    Date(y, m, 1).Ordinal()
  }

  // d is the n-th business day of the month.
  predicate IsNth(cal: Calendar, y: int, m: int, n: int, d: int)
    requires 1 <= m <= 12
  {
    FirstOf(y, m) <= d <= LastDayOfMonth(y, m) && IsTradingDay(cal, d) && Count(cal, FirstOf(y, m), d) == n - 1
  }

  // None where the program raises. The result inverts the rank of a business day within its month.
  method NthBusinessDay(cal: Calendar, y: int, m: int, n: int) returns (r: Option<int>)
    requires 1 <= m <= 12
    ensures r.Some? ==> InRange(cal, FirstOf(y, m)) && IsNth(cal, y, m, n, r.value)
    ensures r.None? <==>
            !InRange(cal, FirstOf(y, m)) || n < 1 || Count(cal, FirstOf(y, m), LastDayOfMonth(y, m) + 1) < n
  {
    LastDayIsLast(y, m);
    var first := FirstOf(y, m);
    var next := LastDayOfMonth(y, m) + 1;
    if !InRange(cal, first) {
      return None;
    }
    var d, count := first, 0;
    while true
      invariant first <= d < next && count == Count(cal, first, d) && (n < 1 || count < n)
      decreases next - d
    {
      if Weekday(d) < 5 && d !in cal.holidays {
        count := count + 1;
        if count == n {
          CountSplits(cal, first, d + 1, next);
          return Some(d);
        }
      }
      d := d + 1;
      if d == next {  // d.month != month
        return None;
      }
    }
  }

  lemma NthIsUnique(cal: Calendar, y: int, m: int, n: int, d: int, e: int)
    requires 1 <= m <= 12 && IsNth(cal, y, m, n, d) && IsNth(cal, y, m, n, e)
    ensures d == e
  {
    var lo, hi := Min(d, e), Max(d, e);
    if lo < hi {
      CountSplits(cal, FirstOf(y, m), lo, hi);
      CountSplits(cal, lo, lo + 1, hi);
      assert Count(cal, lo, lo + 1) == 1;
    }
  }

  // What roll_window returns: None when either call raises.
  method RollWindow(cal: Calendar, y: int, m: int) returns (r: Option<(int, int)>)
    requires 1 <= m <= 12
    ensures r.Some? ==> IsNth(cal, y, m, 5, r.value.0) && IsNth(cal, y, m, 9, r.value.1)
    ensures r.None? <==> !InRange(cal, FirstOf(y, m)) || Count(cal, FirstOf(y, m), LastDayOfMonth(y, m) + 1) < 9
  {
    var start := NthBusinessDay(cal, y, m, 5);
    if start == None {
      return None;
    }
    var end := NthBusinessDay(cal, y, m, 9);
    if end == None {
      return None;
    }
    return Some((start.value, end.value));
  }

  // Every roll window holds exactly five trading days and is at least four days long, so the
  // degenerate window that roll_drift_cents guards against never occurs.
  lemma WindowHoldsFiveTradingDays(cal: Calendar, y: int, m: int, start: int, end: int)
    requires 1 <= m <= 12 && IsNth(cal, y, m, 5, start) && IsNth(cal, y, m, 9, end)
    ensures Count(cal, start, end + 1) == 5 && end - start >= 4
  {
    var first := FirstOf(y, m);
    if end < start {
      CountSplits(cal, first, end, start);
    } else {
      CountSplits(cal, first, start, end);
      CountAtMost(cal, start, end);
    }
  }

  lemma {:induction false} CountAtMost(cal: Calendar, a: int, b: int)
    requires a <= b
    ensures Count(cal, a, b) <= b - a
    decreases b - a
  {
    if a < b {
      CountAtMost(cal, a, b - 1);
    }
  }

  function Part(x: int, whole: int): real
    requires whole > 0
  {
    x as real / whole as real
  }

  // roll_drift_cents, once the window is known.
  function Drift(start: int, end: int, d: int): real
    requires start <= end
  {
    if d < start || d > end then 0.0
    else if end == start then -3.5
    else
      var progress := Part(d - start, end - start);
      -2.0 - 3.0 * (1.0 - RAbs(2.0 * progress - 1.0))
  }

  // A part is what gives x when multiplied back.
  lemma PartTimes(x: int, whole: int)
    requires whole > 0
    ensures Part(x, whole) * whole as real == x as real
  {
  }

  lemma ProductOrder(p: real, q: real, n: real)
    requires n > 0.0
    ensures p <= q <==> p * n <= q * n
  {
    Distributes(p - q, q, n);
    if p > q {
      PositiveProduct(p - q, n);
    } else if p < q {
      PositiveProduct(q - p, n);
      Distributes(q - p, p, n);
    }
  }

  lemma Distributes(a: real, b: real, n: real)
    ensures (a + b) * n == a * n + b * n
  {
  }

  lemma PositiveProduct(a: real, b: real)
    requires a > 0.0 && b > 0.0
    ensures a * b > 0.0
  {
  }

  lemma PartsAreOrdered(x: int, y: int, whole: int)
    requires x <= y && whole > 0
    ensures Part(x, whole) <= Part(y, whole)
  {
    PartTimes(x, whole);
    PartTimes(y, whole);
    hide Part;
    ProductOrder(Part(x, whole), Part(y, whole), whole as real);
  }

  lemma PartsAddUp(x: int, whole: int)
    requires whole > 0
    ensures Part(x, whole) + Part(whole - x, whole) == 1.0
  {
    PartTimes(x, whole);
    PartTimes(whole - x, whole);
    hide Part;
    var p, q, n := Part(x, whole), Part(whole - x, whole), whole as real;
    assert (whole - x) as real == n - x as real;
    Distributes(p, q, n);
    ProductOrder(p + q, 1.0, n);
    ProductOrder(1.0, p + q, n);
  }

  lemma NoPart(whole: int)
    requires whole > 0
    ensures Part(0, whole) == 0.0
  {
  }

  // The drift falls on a straight line from -2 cents at either edge to -5 halfway between them, by the distance
  // to the nearer edge; outside the window it is zero.
  lemma DriftIsATriangle(start: int, end: int, d: int)
    requires start < end
    ensures Drift(start, end, d) ==
            if start <= d <= end then -2.0 - 6.0 * Part(Min(d - start, end - d), end - start) else 0.0
    ensures start <= d <= end ==> -5.0 <= Drift(start, end, d) <= -2.0
    ensures d - start == end - d ==> Drift(start, end, d) == -5.0
    ensures Drift(start, end, d) == Drift(start, end, start + end - d)
  {
    hide Part;
    if start <= d <= end {
      var x, y, n := d - start, end - d, end - start;
      assert n - x == y && start + end - d - start == y;
      PartsAddUp(x, n);
      NoPart(n);
      PartsAreOrdered(0, x, n);
      PartsAreOrdered(0, y, n);
      PartsAreOrdered(Min(x, y), Max(x, y), n);
    }
  }

  // roll_drift_cents: None when the window of the date's month cannot be found.
  method RollDriftCents(cal: Calendar, date: Date) returns (r: Option<real>)
    requires date.Valid()
    ensures r.None? <==> !InRange(cal, FirstOf(date.year, date.month)) ||
                         Count(cal, FirstOf(date.year, date.month), LastDayOfMonth(date.year, date.month) + 1) < 9
    ensures r.Some? ==> exists start, end ::
              && IsNth(cal, date.year, date.month, 5, start) && IsNth(cal, date.year, date.month, 9, end)
              && start < end && r.value == Drift(start, end, date.Ordinal())
  {
    var window := RollWindow(cal, date.year, date.month);
    if window == None {
      return None;
    }
    var (start, end) := window.value;
    WindowHoldsFiveTradingDays(cal, date.year, date.month, start, end);
    return Some(Drift(start, end, date.Ordinal()));
  }

  // ---- The maintained table ------------------------------------------------------------------------------

  // The CBOT holidays of 2026 and 2027, as ordinals.
  const CBOT_2026: set<int> :=
    {739617, 739635, 739663, 739709, 739761, 739786, 739800, 739866, 739946, 739975}
  const CBOT_2027: set<int> :=
    {739982, 739999, 740027, 740066, 740132, 740150, 740167, 740230, 740310, 740339}

  const CBOT := Calendar(CBOT_2026 + CBOT_2027, 739617, 740346)

  function HolidaysIn(cal: Calendar, a: int, b: int): set<int> { set h | h in cal.holidays && a <= h < b }

  function WeekdaysIn(a: int, b: int): nat
    decreases b - a
  {
    if b <= a then 0 else WeekdaysIn(a, b - 1) + if Weekday(b - 1) < 5 then 1 else 0
  }

  lemma {:induction false} WeekdaysAreTradingDaysOrHolidays(cal: Calendar, a: int, b: int)
    requires a <= b
    ensures Count(cal, a, b) + |HolidaysIn(cal, a, b)| >= WeekdaysIn(a, b)
    decreases b - a
  {
    if a < b {
      WeekdaysAreTradingDaysOrHolidays(cal, a, b - 1);
      if b - 1 in cal.holidays {
        assert HolidaysIn(cal, a, b) == HolidaysIn(cal, a, b - 1) + {b - 1};
      } else {
        assert HolidaysIn(cal, a, b) == HolidaysIn(cal, a, b - 1);
      }
    }
  }

  lemma {:induction false} WeekdaysSplit(a: int, b: int, c: int)
    requires a <= b <= c
    ensures WeekdaysIn(a, c) == WeekdaysIn(a, b) + WeekdaysIn(b, c)
    decreases c - b
  {
    if b < c {
      WeekdaysSplit(a, b, c - 1);
    }
  }

  lemma {:induction false} WeekdaysSoFar(a: int, n: nat)
    requires n <= 7
    ensures var w := Weekday(a);
            && Weekday(a + n) == (if w + n < 7 then w + n else w + n - 7)
            && WeekdaysIn(a, a + n) == if w + n <= 5 then n
                                       else if w + n <= 7 then Max(0, 5 - w)
                                       else Max(0, 5 - w) + Min(5, w + n - 7)
  {
    if n > 0 {
      WeekdaysSoFar(a, n - 1);
      WeekdayNext(a + n - 1);
    }
  }

  // Weekdays follow one another, so one known date fixes them all.
  lemma WeekdayNext(d: int)
    ensures Weekday(d + 1) == if Weekday(d) == 6 then 0 else Weekday(d) + 1
  {
  }

  lemma WeekHasFive(a: int)
    ensures WeekdaysIn(a, a + 7) == 5
  {
    WeekdaysSoFar(a, 7);
  }

  lemma FourWeeksHaveTwenty(a: int)
    ensures WeekdaysIn(a, a + 28) == 20
  {
    WeekHasFive(a);
    WeekHasFive(a + 7);
    WeekHasFive(a + 14);
    WeekHasFive(a + 21);
    WeekdaysSplit(a, a + 7, a + 14);
    WeekdaysSplit(a, a + 14, a + 21);
    WeekdaysSplit(a, a + 21, a + 28);
  }

  lemma SubsetIsSmaller<T>(s: set<T>, t: set<T>)
    requires s <= t
    ensures |s| <= |t|
  {
    assert t == s + (t - s);
  }

  // No four weeks of the table hold more than eleven holidays (in fact far fewer).
  lemma FewHolidays(a: int)
    ensures |HolidaysIn(CBOT, a, a + 28)| <= 11
  {
    var h := HolidaysIn(CBOT, a, a + 28);
    if a <= 739866 {
      SubsetIsSmaller(h, {739617, 739635, 739663, 739709, 739761, 739786, 739800, 739866});
    } else if a <= 740066 {
      SubsetIsSmaller(h, {739946, 739975, 739982, 739999, 740027, 740066});
    } else {
      SubsetIsSmaller(h, {740132, 740150, 740167, 740230, 740310, 740339});
    }
  }

  // On the maintained table every month that starts in range has its roll window.
  lemma MaintainedMonthsHaveAWindow(y: int, m: int)
    requires 1 <= m <= 12
    ensures Count(CBOT, FirstOf(y, m), LastDayOfMonth(y, m) + 1) >= 9
  {
    var first := FirstOf(y, m);
    LastDayIsLast(y, m);
    FourWeeksHaveTwenty(first);
    FewHolidays(first);
    WeekdaysAreTradingDaysOrHolidays(CBOT, first, first + 28);
    CountSplits(CBOT, first, first + 28, LastDayOfMonth(y, m) + 1);
  }

  // The ordinals above are the dates of the table.
  lemma TableDates()
    ensures CBOT_2026 == {Date(2026, 1, 1).Ordinal(), Date(2026, 1, 19).Ordinal(), Date(2026, 2, 16).Ordinal(),
                          Date(2026, 4, 3).Ordinal(), Date(2026, 5, 25).Ordinal(), Date(2026, 6, 19).Ordinal(),
                          Date(2026, 7, 3).Ordinal(), Date(2026, 9, 7).Ordinal(), Date(2026, 11, 26).Ordinal(),
                          Date(2026, 12, 25).Ordinal()}
    ensures CBOT_2027 == {Date(2027, 1, 1).Ordinal(), Date(2027, 1, 18).Ordinal(), Date(2027, 2, 15).Ordinal(),
                          Date(2027, 3, 26).Ordinal(), Date(2027, 5, 31).Ordinal(), Date(2027, 6, 18).Ordinal(),
                          Date(2027, 7, 5).Ordinal(), Date(2027, 9, 6).Ordinal(), Date(2027, 11, 25).Ordinal(),
                          Date(2027, 12, 24).Ordinal()}
    ensures CBOT.first == Date(2026, 1, 1).Ordinal() && CBOT.last == Date(2027, 12, 31).Ordinal()
  {
    assert DaysBeforeYear(2026) == 739616 && DaysBeforeYear(2027) == 739981;
    CommonYear(2026);
    CommonYear(2027);
    hide DaysBeforeMonth, DaysBeforeYear;
  }

  function DayOf(y: int, m: int, d: int): nat
    requires 1 <= m <= 12
  {
    Weekday(Date(y, m, d).Ordinal())
  }

  lemma TableYears()
    ensures DaysBeforeYear(2026) == 739616 && !IsLeap(2026)
    ensures DaysBeforeYear(2027) == 739981 && !IsLeap(2027)
  {
  }

  // The weekdays of the table's dates, as the table notes them: 0 is Monday. So are those of the actual dates
  // of the holidays it observes on another day.
  lemma Weekdays2026()
    ensures DayOf(2026, 1, 19) == DayOf(2026, 2, 16) == DayOf(2026, 5, 25) == DayOf(2026, 9, 7) == 0
    ensures DayOf(2026, 1, 1) == DayOf(2026, 11, 26) == 3
    ensures DayOf(2026, 4, 3) == DayOf(2026, 6, 19) == DayOf(2026, 7, 3) == DayOf(2026, 12, 25) == 4
    ensures DayOf(2026, 7, 4) == 5
  {
    hide IsLeap, DaysBeforeMonth, DaysBeforeYear, DaysInMonth;
    TableYears();
    CommonYear(2026);
  }

  lemma Weekdays2027()
    ensures DayOf(2027, 1, 18) == DayOf(2027, 2, 15) == DayOf(2027, 5, 31) == 0
    ensures DayOf(2027, 7, 5) == DayOf(2027, 9, 6) == 0
    ensures DayOf(2027, 11, 25) == 3
    ensures DayOf(2027, 1, 1) == DayOf(2027, 3, 26) == DayOf(2027, 6, 18) == DayOf(2027, 12, 24) == 4
    ensures DayOf(2027, 6, 19) == DayOf(2027, 12, 25) == 5 && DayOf(2027, 7, 4) == 6
  {
    hide IsLeap, DaysBeforeMonth, DaysBeforeYear, DaysInMonth;
    TableYears();
    CommonYear(2027);
  }

  lemma HolidaysAreWeekdays(h: int)
    requires h in CBOT.holidays
    ensures Weekday(h) < 5
  {
  }

  lemma CommonYear(y: int)
    requires !IsLeap(y)
    ensures DaysBeforeMonth(y, 1) == 0 && DaysBeforeMonth(y, 2) == 31 && DaysBeforeMonth(y, 3) == 59
    ensures DaysBeforeMonth(y, 4) == 90 && DaysBeforeMonth(y, 5) == 120 && DaysBeforeMonth(y, 6) == 151
    ensures DaysBeforeMonth(y, 7) == 181 && DaysBeforeMonth(y, 8) == 212 && DaysBeforeMonth(y, 9) == 243
    ensures DaysBeforeMonth(y, 10) == 273 && DaysBeforeMonth(y, 11) == 304 && DaysBeforeMonth(y, 12) == 334
  {
  }
}
