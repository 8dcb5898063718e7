// engine/event_calendar.py and engine/cbot_settle.py: CBOT trading days, the settlement roll and
// counting business days backwards.
//
// A date is its proleptic Gregorian ordinal, as Python's date.toordinal gives it.
module BusinessDays {
  import opened Numeric

  // The holiday table and the range of dates it is maintained for; outside it the program raises.
  datatype Calendar = Calendar(holidays: set<int>, first: int, last: int)

  function Weekday(d: int): (w: nat)
    ensures w < 7
  {
    (d + 6) % 7
  }

  predicate IsTradingDay(cal: Calendar, d: int) { Weekday(d) < 5 && d !in cal.holidays }

  predicate InRange(cal: Calendar, d: int) { cal.first <= d <= cal.last }

  // The number of trading days in [a, b).
  function Count(cal: Calendar, a: int, b: int): nat
    decreases b - a
  {
    if b <= a then 0 else Count(cal, a, b - 1) + if IsTradingDay(cal, b - 1) then 1 else 0
  }

  lemma {:induction false} CountSplits(cal: Calendar, a: int, b: int, c: int)
    requires a <= b <= c
    ensures Count(cal, a, c) == Count(cal, a, b) + Count(cal, b, c)
    decreases c - b
  {
    if b < c {
      CountSplits(cal, a, b, c - 1);
    }
  }

  lemma {:induction false} NoneBetween(cal: Calendar, a: int, b: int)
    requires a <= b
    ensures Count(cal, a, b) == 0 <==> forall d :: a <= d < b ==> !IsTradingDay(cal, d)
    decreases b - a
  {
    if a < b {
      NoneBetween(cal, a, b - 1);
    }
  }

  // ---- Rule 7.2(b): the settlement roll ----------------------------------------------------------------

  function HolidaysFrom(cal: Calendar, d: int): set<int> { set h | h in cal.holidays && h >= d }

  method SettleDateRoll(cal: Calendar, nominal: int) returns (r: Option<int>)
    ensures r.None? <==> !InRange(cal, nominal)
    ensures r.Some? ==> && nominal <= r.value && IsTradingDay(cal, r.value)
                        && forall d :: nominal <= d < r.value ==> !IsTradingDay(cal, d)
  {
    if nominal < cal.first || nominal > cal.last {
      return None;
    }
    var rolled := nominal;
    while !IsTradingDay(cal, rolled)
      invariant nominal <= rolled
      invariant forall d :: nominal <= d < rolled ==> !IsTradingDay(cal, d)
      // Past the last holiday at most two weekend days are left.
      decreases |HolidaysFrom(cal, rolled)|, (7 - Weekday(rolled)) % 7
    {
      RollProgresses(cal, rolled);
      rolled := rolled + 1;
    }
    return Some(rolled);
  }

  lemma RollProgresses(cal: Calendar, d: int)
    requires !IsTradingDay(cal, d)
    ensures var m, n := |HolidaysFrom(cal, d)|, |HolidaysFrom(cal, d + 1)|;
            n < m || (n == m && (7 - Weekday(d + 1)) % 7 < (7 - Weekday(d)) % 7)
  {
    var now, next := HolidaysFrom(cal, d), HolidaysFrom(cal, d + 1);
    if d in cal.holidays {
      assert now == next + {d};
    } else {
      assert now == next;
    }
  }

  // ---- Business days backwards -----------------------------------------------------------------------

  // _prev_business_day: None where the program raises.
  function Prev(cal: Calendar, d: int): Option<int>
    decreases d - cal.first
  {
    if !InRange(cal, d) then None else if IsTradingDay(cal, d) then Some(d) else Prev(cal, d - 1)
  }

  method PrevBusinessDay(cal: Calendar, d0: int) returns (r: Option<int>)
    ensures r == Prev(cal, d0)
  {
    var d := d0;
    if !InRange(cal, d) {
      return None;
    }
    while !IsTradingDay(cal, d)
      invariant InRange(cal, d) && Prev(cal, d) == Prev(cal, d0)
      decreases d - cal.first
    {
      d := d - 1;
      if !InRange(cal, d) {
        return None;
      }
    }
    return Some(d);
  }

  // _subtract_business_days
  function Subtract(cal: Calendar, d: int, n: int): Option<int> {
    if n <= 0 then Prev(cal, d)
    else
      match Subtract(cal, d, n - 1)
      case None => None
      case Some(c) => Prev(cal, c - 1)
  }

  method SubtractBusinessDays(cal: Calendar, d: int, n: int) returns (r: Option<int>)
    ensures r == Subtract(cal, d, n)
  {
    if !InRange(cal, d) {
      StaysNone(cal, d, 0, n);
      return None;
    }
    r := PrevBusinessDay(cal, d);
    var k := 0;
    while k < n && r != None
      invariant 0 <= k <= Max(0, n) && r == Subtract(cal, d, k)
    {
      var current := r.value - 1;
      if !InRange(cal, current) {
        r := None;
      } else {
        r := PrevBusinessDay(cal, current);
      }
      k := k + 1;
    }
    if r == None {
      StaysNone(cal, d, k, n);
    }
  }

  lemma {:induction false} StaysNone(cal: Calendar, d: int, k: nat, n: int)
    requires Subtract(cal, d, k).None?
    ensures n >= k || n <= 0 ==> Subtract(cal, d, Max(n, k)).None?
    decreases n - k
  {
    if n > k {
      StaysNone(cal, d, k, n - 1);
    }
  }

  // Prev selects the last trading day of the range up to d, if there is one.
  lemma {:induction false} PrevSelects(cal: Calendar, d: int, p: int)
    requires InRange(cal, d)
    ensures Prev(cal, d) == Some(p) <==> cal.first <= p <= d && IsTradingDay(cal, p) && Count(cal, p + 1, d + 1) == 0
    ensures Prev(cal, d).None? <==> Count(cal, cal.first, d + 1) == 0
    decreases d - cal.first
  {
    if !IsTradingDay(cal, d) {
      if d == cal.first {
        assert Count(cal, d, d + 1) == 0;
      } else {
        PrevSelects(cal, d - 1, p);
      }
    } else if p < d {
      NoneBetween(cal, p + 1, d + 1);
    }
  }

  // r is the trading day with exactly n trading days after it, up to and including d.
  predicate IsNthBack(cal: Calendar, d: int, n: int, r: int) {
    cal.first <= r <= d && IsTradingDay(cal, r) && Count(cal, r + 1, d + 1) == n
  }

  lemma NthBackIsUnique(cal: Calendar, d: int, n: int, r: int, s: int)
    requires IsNthBack(cal, d, n, r) && IsNthBack(cal, d, n, s)
    ensures r == s
  {
    var lo, hi := Min(r, s), Max(r, s);
    if lo < hi {
      CountSplits(cal, lo + 1, hi, d + 1);
      CountSplits(cal, hi, hi + 1, d + 1);
      assert Count(cal, hi, hi + 1) == 1;
    }
  }

  lemma PrevIsNthBack(cal: Calendar, d: int, n: nat, c: int)
    requires InRange(cal, d) && IsNthBack(cal, d, n, c)
    ensures match Prev(cal, c - 1)
            case Some(r) => IsNthBack(cal, d, n + 1, r)
            case None => Count(cal, cal.first, d + 1) == n + 1
  {
    CountSplits(cal, cal.first, c, d + 1);
    CountSplits(cal, c, c + 1, d + 1);
    assert Count(cal, c, c + 1) == 1;
    if c - 1 >= cal.first {
      match Prev(cal, c - 1)
      case Some(r) =>
        PrevSelects(cal, c - 1, r);
        CountSplits(cal, r + 1, c, d + 1);
      case None =>
        PrevSelects(cal, c - 1, c);
    }
  }

  lemma {:induction false} SubtractReaches(cal: Calendar, d: int, n: nat)
    requires InRange(cal, d)
    ensures match Subtract(cal, d, n)
            case Some(r) => IsNthBack(cal, d, n, r)
            case None => Count(cal, cal.first, d + 1) <= n
  {
    if n == 0 {
      match Prev(cal, d)
      case Some(r) => PrevSelects(cal, d, r);
      case None => PrevSelects(cal, d, d);
    } else {
      SubtractReaches(cal, d, n - 1);
      match Subtract(cal, d, n - 1)
      case Some(c) => PrevIsNthBack(cal, d, n - 1, c);
      case None =>
    }
  }

  // Subtracting n business days is selection by rank: it yields r exactly when r is the trading day with
  // n trading days after it up to d, and raises exactly when the range holds too few.
  lemma SubtractSelects(cal: Calendar, d: int, n: nat, r: int)
    ensures Subtract(cal, d, n) == Some(r) <==> InRange(cal, d) && IsNthBack(cal, d, n, r)
    ensures Subtract(cal, d, n).None? <==> !InRange(cal, d) || Count(cal, cal.first, d + 1) <= n
  {
    if !InRange(cal, d) {
      StaysNone(cal, d, 0, n);
    } else {
      SubtractReaches(cal, d, n);
      if IsNthBack(cal, d, n, r) {
        AtLeastAsMany(cal, d, n, r);
        NthBackIsUnique(cal, d, n, r, Subtract(cal, d, n).value);
      }
      if Subtract(cal, d, n).Some? {
        AtLeastAsMany(cal, d, n, Subtract(cal, d, n).value);
      }
    }
  }

  lemma AtLeastAsMany(cal: Calendar, d: int, n: nat, r: int)
    requires IsNthBack(cal, d, n, r)
    ensures Count(cal, cal.first, d + 1) > n
  {
    CountSplits(cal, cal.first, r, d + 1);
    CountSplits(cal, r, r + 1, d + 1);
    assert Count(cal, r, r + 1) == 1;
  }

  // n days and then m more are n + m days.
  lemma {:induction false} SubtractComposes(cal: Calendar, d: int, n: nat, m: nat)
    requires Subtract(cal, d, n).Some?
    ensures Subtract(cal, Subtract(cal, d, n).value, m) == Subtract(cal, d, n + m)
  {
    var c := Subtract(cal, d, n).value;
    SubtractSelects(cal, d, n, c);
    if m > 0 {
      SubtractComposes(cal, d, n, m - 1);
    }
  }

  // A later start ends no earlier, and more days end strictly earlier.
  lemma SubtractIsMonotone(cal: Calendar, d: int, e: int, n: nat)
    requires d <= e && Subtract(cal, d, n).Some? && Subtract(cal, e, n).Some?
    ensures Subtract(cal, d, n).value <= Subtract(cal, e, n).value
    ensures Subtract(cal, d, n + 1).Some? ==> Subtract(cal, d, n + 1).value < Subtract(cal, d, n).value
  {
    var r, s := Subtract(cal, d, n).value, Subtract(cal, e, n).value;
    SubtractSelects(cal, d, n, r);
    SubtractSelects(cal, e, n, s);
    if s < r {
      CountSplits(cal, s + 1, r, e + 1);
      CountSplits(cal, r, r + 1, e + 1);
      CountSplits(cal, r + 1, d + 1, e + 1);
    }
    match Subtract(cal, d, n + 1)
    case Some(q) => PrevBelow(cal, r - 1);
    case None =>
  }

  lemma {:induction false} PrevBelow(cal: Calendar, d: int)
    ensures Prev(cal, d).Some? ==> Prev(cal, d).value <= d
    decreases d - cal.first
  {
    if InRange(cal, d) && !IsTradingDay(cal, d) {
      PrevBelow(cal, d - 1);
    }
  }
}
