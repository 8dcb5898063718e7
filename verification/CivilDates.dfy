// The part of Python's proleptic Gregorian calendar that the contract and roll calendars use.
module CivilDates {

  predicate IsLeap(y: int) { y % 4 == 0 && (y % 100 != 0 || y % 400 == 0) }

  function DaysBeforeYear(y: int): int { var p := y - 1; p * 365 + p / 4 - p / 100 + p / 400 }

  function DaysInMonth(y: int, m: int): int
    requires 1 <= m <= 12
  {
    if m == 2 then (if IsLeap(y) then 29 else 28)
    else if m == 4 || m == 6 || m == 9 || m == 11 then 30
    else 31
  }

  function DaysBeforeMonth(y: int, m: int): int
    requires 1 <= m <= 12
  {
    if m == 1 then 0 else DaysBeforeMonth(y, m - 1) + DaysInMonth(y, m - 1)
  }

  datatype Date = Date(year: int, month: int, day: int) {
    predicate Valid() { 1 <= month <= 12 && 1 <= day <= DaysInMonth(year, month) }

    function Ordinal(): int
      requires 1 <= month <= 12
    {
      DaysBeforeYear(year) + DaysBeforeMonth(year, month) + day
    }
  }

  // _last_day_of_month: the day before the first of the next month.
  function LastDayOfMonth(y: int, m: int): int
    requires 1 <= m <= 12
  {
    if m == 12 then Date(y + 1, 1, 1).Ordinal() - 1 else Date(y, m + 1, 1).Ordinal() - 1
  }

  lemma DivSteps(y: int)
    ensures y / 4 == (y - 1) / 4 + if y % 4 == 0 then 1 else 0
    ensures y / 100 == (y - 1) / 100 + if y % 100 == 0 then 1 else 0
    ensures y / 400 == (y - 1) / 400 + if y % 400 == 0 then 1 else 0
  {
  }

  lemma MultiplesNest(y: int)
    ensures y % 400 == 0 ==> y % 100 == 0
    ensures y % 100 == 0 ==> y % 4 == 0
  {
  }

  lemma YearLength(y: int)
    ensures DaysBeforeYear(y + 1) == DaysBeforeYear(y) + if IsLeap(y) then 366 else 365
  {
    DivSteps(y);
    MultiplesNest(y);
  }

  lemma YearIsTwelveMonths(y: int)
    ensures DaysBeforeMonth(y, 12) + 31 == if IsLeap(y) then 366 else 365
  {
    assert DaysBeforeMonth(y, 2) == 31;
    var a := DaysBeforeMonth(y, 3);
    assert a == 31 + DaysInMonth(y, 2);
    assert DaysBeforeMonth(y, 4) == a + 31;
    assert DaysBeforeMonth(y, 5) == a + 61;
    assert DaysBeforeMonth(y, 6) == a + 92;
    assert DaysBeforeMonth(y, 7) == a + 122;
    assert DaysBeforeMonth(y, 8) == a + 153;
    assert DaysBeforeMonth(y, 9) == a + 184;
    assert DaysBeforeMonth(y, 10) == a + 214;
    assert DaysBeforeMonth(y, 11) == a + 245;
    assert DaysBeforeMonth(y, 12) == a + 275;
  }

  lemma {:induction false} MonthsAscend(y: int, m: int, n: int)
    requires 1 <= m <= n <= 12
    ensures m < n ==> DaysBeforeMonth(y, m) + DaysInMonth(y, m) <= DaysBeforeMonth(y, n)
    decreases n
  {
    if m < n {
      MonthsAscend(y, m, n - 1);
    }
  }

  // The last day of a month is the last day its own first day counts to.
  lemma LastDayIsLast(y: int, m: int)
    requires 1 <= m <= 12
    ensures LastDayOfMonth(y, m) == Date(y, m, 1).Ordinal() + DaysInMonth(y, m) - 1
  {
    hide IsLeap, DaysBeforeYear;
    if m == 12 {
      YearLength(y);
      YearIsTwelveMonths(y);
    }
  }

  lemma WithinYear(d: Date)
    requires d.Valid()
    ensures DaysBeforeYear(d.year) < d.Ordinal() <= DaysBeforeYear(d.year + 1)
  {
    MonthsAscend(d.year, 1, d.month);
    MonthsAscend(d.year, d.month, 12);
    YearLength(d.year);
    YearIsTwelveMonths(d.year);
  }

  lemma {:induction false} YearsAscend(y: int, z: int)
    requires y <= z
    ensures DaysBeforeYear(y) + 365 * (z - y) <= DaysBeforeYear(z)
    decreases z - y
  {
    if y < z {
      YearsAscend(y, z - 1);
      YearLength(z - 1);
    }
  }

  // A date on or before another is not in a later year.
  lemma EarlierDateEarlierYear(d: Date, e: Date)
    requires d.Valid() && e.Valid() && d.Ordinal() <= e.Ordinal()
    ensures d.year <= e.year
  {
    WithinYear(d);
    WithinYear(e);
    if e.year < d.year {
      YearsAscend(e.year + 1, d.year);
    }
  }
}
