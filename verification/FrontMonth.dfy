// engine/cbot_settle.py: roll dates of the soybean (ZS) contracts and the front month.
module FrontMonth {
  import opened Numeric
  import opened CivilDates
  import opened BusinessDays

  datatype Contract = Contract(code: char, month: int, year: int)

  // F H K N Q U X with their delivery months.
  const CYCLE: seq<(char, int)> := [('F', 1), ('H', 3), ('K', 5), ('N', 7), ('Q', 8), ('U', 9), ('X', 11)]

  // The contracts of all years in one line: seven positions a year.
  function ContractAt(pos: int): (c: Contract)
    ensures 1 <= c.month <= 12
  {
    Contract(CYCLE[pos % 7].0, CYCLE[pos % 7].1, pos / 7)
  }

  // The exchange's letters for the months.
  const MONTH_CODES := "FGHJKMNQUVXZ"

  // A year's contracts deliver in its odd months and in August, each under its month's letter and in order.
  lemma CycleIsSoybeans(year: int, month: int)
    requires 1 <= month <= 12
    ensures var c := Contract(MONTH_CODES[month - 1], month, year);
            (exists pos :: 7 * year <= pos < 7 * year + 7 && ContractAt(pos) == c) <==> month % 2 == 1 || month == 8
    ensures forall pos :: 7 * year <= pos < 7 * year + 7 ==>
              ContractAt(pos).year == year && ContractAt(pos).code == MONTH_CODES[ContractAt(pos).month - 1]
  {
    var i := if month == 1 then 0 else if month == 3 then 1 else if month == 5 then 2 else if month == 7 then 3
             else if month == 8 then 4 else if month == 9 then 5 else 6;
    var pos := 7 * year + i;
    assert pos / 7 == year && pos % 7 == i;
    if month % 2 == 1 || month == 8 {
      assert ContractAt(pos) == Contract(MONTH_CODES[month - 1], month, year);
    }
  }

  function LastDayBefore(c: Contract): int
    requires 1 <= c.month <= 12
  {
    if c.month == 1 then LastDayOfMonth(c.year - 1, 12) else LastDayOfMonth(c.year, c.month - 1)
  }

  // The last business day of the month before delivery; None where the program raises.
  function FirstNoticeDate(cal: Calendar, c: Contract): Option<int>
    requires 1 <= c.month <= 12
  {
    var last := LastDayBefore(c);
    if !InRange(cal, last) then None else Prev(cal, last)
  }

  function RollDate(cal: Calendar, c: Contract, offset: int): Option<int>
    requires 1 <= c.month <= 12
  {
    if offset < 0 then None
    else
      match FirstNoticeDate(cal, c)
      case None => None
      case Some(fnd) => Subtract(cal, fnd, offset)
  }

  // The roll date by rank: the trading day with `offset` trading days between it and the first of the delivery
  // month, if the last day of the month before is in the table's range.
  lemma RollDateByRank(cal: Calendar, c: Contract, offset: int, r: int)
    requires 1 <= c.month <= 12
    ensures var first := Date(c.year, c.month, 1).Ordinal();
            RollDate(cal, c, offset) == Some(r) <==>
            && offset >= 0 && InRange(cal, first - 1)
            && cal.first <= r < first && IsTradingDay(cal, r) && Count(cal, r + 1, first) == offset
  {
    var last := LastDayBefore(c);
    assert last == Date(c.year, c.month, 1).Ordinal() - 1;
    hide LastDayBefore, Date.Ordinal;
    if offset >= 0 {
      SubtractSelects(cal, last, offset, r);
      if Subtract(cal, last, 0).Some? {
        SubtractComposes(cal, last, 0, offset);
      } else {
        StaysNone(cal, last, 0, offset);
      }
    }
  }

  // The loop's test: the roll date is known and not yet reached.
  predicate Live(cal: Calendar, pos: int, today: int, offset: int) {
    var rd := RollDate(cal, ContractAt(pos), offset);
    rd.Some? && today < rd.value
  }

  // The first live position from `from` on, or `end`.
  function FirstLive(cal: Calendar, from: int, end: int, today: int, offset: int): (p: int)
    requires from <= end
    ensures from <= p <= end && (p < end ==> Live(cal, p, today, offset))
    ensures forall q :: from <= q < p ==> !Live(cal, q, today, offset)
    decreases end - from
  {
    if from == end || Live(cal, from, today, offset) then from else FirstLive(cal, from + 1, end, today, offset)
  }

  // front_month as a position; None where the program raises.
  function FrontPosition(cal: Calendar, obs: Date, offset: int): Option<int>
    requires obs.Valid()
  {
    if !InRange(cal, obs.Ordinal()) then None
    else
      var p := FirstLive(cal, 7 * obs.year, 7 * obs.year + 14, obs.Ordinal(), offset);
      if p == 7 * obs.year + 14 then None else Some(p)
  }

  function ContractsForYear(year: int): seq<Contract> {
    seq(7, i requires 0 <= i < 7 => Contract(CYCLE[i].0, CYCLE[i].1, year))
  }

  method GetFrontMonth(cal: Calendar, obs: Date, offset: int) returns (r: Option<Contract>)
    requires obs.Valid()
    ensures r == match FrontPosition(cal, obs, offset) case None => None case Some(p) => Some(ContractAt(p))
  {
    hide RollDate;
    var today := obs.Ordinal();
    if !InRange(cal, today) {
      return None;
    }
    var candidates := ContractsForYear(obs.year) + ContractsForYear(obs.year + 1);
    var start := 7 * obs.year;
    for i := 0 to 14
      invariant forall q :: start <= q < start + i ==> !Live(cal, q, today, offset)
    {
      CandidatePosition(obs.year, i);
      var contract := candidates[i];
      var rd := RollDate(cal, contract, offset);
      assert Live(cal, start + i, today, offset) <==> rd.Some? && today < rd.value;
      if rd != None && today < rd.value {
        FirstLiveIs(cal, start, start + i, start + 14, today, offset);
        return Some(contract);
      }
    }
    FirstLiveIs(cal, start, start + 14, start + 14, today, offset);
    return None;
  }

  lemma FirstLiveIs(cal: Calendar, from: int, p: int, end: int, today: int, offset: int)
    requires from <= p <= end && (p < end ==> Live(cal, p, today, offset))
    requires forall q :: from <= q < p ==> !Live(cal, q, today, offset)
    ensures FirstLive(cal, from, end, today, offset) == p
  {
    var r := FirstLive(cal, from, end, today, offset);
    assert r < p ==> Live(cal, r, today, offset);
    assert p < r ==> !Live(cal, p, today, offset);
  }

  lemma CandidatePosition(year: int, i: nat)
    requires i < 14
    ensures (ContractsForYear(year) + ContractsForYear(year + 1))[i] == ContractAt(7 * year + i)
  {
    assert (7 * year + i) / 7 == year + i / 7 && (7 * year + i) % 7 == i % 7;
  }

  // The front month never moves back in the cycle as the observation date moves forward, also over a new
  // year, where the candidate list changes, and whatever contracts are skipped as out of range: its delivery
  // month never does either.
  lemma FrontMonthIsMonotone(cal: Calendar, d: Date, e: Date, offset: int)
    requires d.Valid() && e.Valid() && d.Ordinal() <= e.Ordinal()
    requires FrontPosition(cal, d, offset).Some? && FrontPosition(cal, e, offset).Some?
    ensures FrontPosition(cal, d, offset).value <= FrontPosition(cal, e, offset).value
    ensures var c := ContractAt(FrontPosition(cal, d, offset).value);
            var k := ContractAt(FrontPosition(cal, e, offset).value);
            c.year < k.year || (c.year == k.year && c.month <= k.month)
  {
    hide RollDate, Date.Ordinal;
    EarlierDateEarlierYear(d, e);
    var q := FrontPosition(cal, e, offset).value;
    assert Live(cal, q, d.Ordinal(), offset);
  }

  // It is the nearest contract not yet rolled: every contract before it, from January of the observation
  // year on, has rolled or has no roll date the table can give.
  lemma FrontMonthIsNearest(cal: Calendar, obs: Date, offset: int, pos: int)
    requires obs.Valid() && InRange(cal, obs.Ordinal())
    ensures FrontPosition(cal, obs, offset) == Some(pos) <==>
            && 7 * obs.year <= pos < 7 * obs.year + 14
            && RollDate(cal, ContractAt(pos), offset).Some?
            && obs.Ordinal() < RollDate(cal, ContractAt(pos), offset).value
            && forall q :: 7 * obs.year <= q < pos ==> HasRolled(cal, q, obs.Ordinal(), offset)
  {
    hide RollDate;
    var p := FirstLive(cal, 7 * obs.year, 7 * obs.year + 14, obs.Ordinal(), offset);
    assert forall q :: HasRolled(cal, q, obs.Ordinal(), offset) <==> !Live(cal, q, obs.Ordinal(), offset);
    if pos < p && 7 * obs.year <= pos {
      assert !Live(cal, pos, obs.Ordinal(), offset);
    }
  }

  predicate HasRolled(cal: Calendar, pos: int, today: int, offset: int) {
    var rd := RollDate(cal, ContractAt(pos), offset);
    rd.None? || rd.value <= today
  }

  // ---- Contracts whose roll date the table cannot reach --------------------------------------------------

  lemma {:induction false} PrevOfLongerTable(cal: Calendar, first: int, d: int)
    requires first <= cal.first && InRange(cal, d)
    ensures var longer := cal.(first := first);
            match Prev(cal, d)
            case Some(r) => Prev(longer, d) == Some(r) && InRange(cal, r) && r <= d
            case None => Prev(longer, d).Some? ==> Prev(longer, d).value < cal.first
    decreases d - cal.first
  {
    if !IsTradingDay(cal, d) {
      if d == cal.first {
        PrevBelow(cal.(first := first), d - 1);
      } else {
        PrevOfLongerTable(cal, first, d - 1);
      }
    }
  }

  lemma {:induction false} SubtractOfLongerTable(cal: Calendar, first: int, d: int, n: nat)
    requires first <= cal.first && InRange(cal, d)
    ensures var longer := cal.(first := first);
            match Subtract(cal, d, n)
            case Some(r) => Subtract(longer, d, n) == Some(r) && InRange(cal, r)
            case None => Subtract(longer, d, n).Some? ==> Subtract(longer, d, n).value < cal.first
  {
    var longer := cal.(first := first);
    if n == 0 {
      PrevOfLongerTable(cal, first, d);
    } else {
      SubtractOfLongerTable(cal, first, d, n - 1);
      match Subtract(longer, d, n - 1)
      case None =>
      case Some(c) =>
        PrevBelow(longer, c - 1);
        if InRange(cal, c) && c > cal.first {
          PrevOfLongerTable(cal, first, c - 1);
        }
    }
  }

  lemma LiveInLongerTable(cal: Calendar, first: int, pos: int, today: int, offset: int)
    requires first <= cal.first <= today
    ensures Live(cal.(first := first), pos, today, offset) <==> Live(cal, pos, today, offset)
  {
    var longer := cal.(first := first);
    var c := ContractAt(pos);
    var last := LastDayBefore(c);
    if offset >= 0 && last <= cal.last {
      if last < cal.first {
        PrevBelow(longer, last);
        if Prev(longer, last).Some? {
          SubtractBelow(longer, Prev(longer, last).value, offset);
        }
      } else {
        PrevOfLongerTable(cal, first, last);
        if Prev(longer, last).Some? {
          SubtractBelow(longer, Prev(longer, last).value, offset);
        }
        if Prev(cal, last).Some? {
          SubtractOfLongerTable(cal, first, Prev(cal, last).value, offset);
        }
      }
    }
  }

  lemma {:induction false} SubtractBelow(cal: Calendar, d: int, n: nat)
    ensures Subtract(cal, d, n).Some? ==> Subtract(cal, d, n).value <= d
  {
    if n == 0 {
      PrevBelow(cal, d);
    } else {
      SubtractBelow(cal, d, n - 1);
      match Subtract(cal, d, n - 1)
      case Some(c) => PrevBelow(cal, c - 1);
      case None =>
    }
  }

  // Skipping contracts whose notice or roll date lies before the table loses nothing: a table that goes
  // further back gives the same front month on every date of the shorter one.
  lemma EarlierHistoryIsNotNeeded(cal: Calendar, first: int, obs: Date, offset: int)
    requires first <= cal.first && obs.Valid() && InRange(cal, obs.Ordinal())
    ensures FrontPosition(cal.(first := first), obs, offset) == FrontPosition(cal, obs, offset)
  {
    hide Live;
    var longer, today := cal.(first := first), obs.Ordinal();
    forall pos ensures Live(longer, pos, today, offset) <==> Live(cal, pos, today, offset) {
      LiveInLongerTable(cal, first, pos, today, offset);
    }
    SameLiveSameFirst(cal, longer, 7 * obs.year, 7 * obs.year + 14, today, offset);
  }

  lemma SameLiveSameFirst(cal: Calendar, other: Calendar, from: int, end: int, today: int, offset: int)
    requires from <= end && forall pos :: Live(other, pos, today, offset) <==> Live(cal, pos, today, offset)
    ensures FirstLive(other, from, end, today, offset) == FirstLive(cal, from, end, today, offset)
  {
    hide Live;
    FirstLiveIs(other, from, FirstLive(cal, from, end, today, offset), end, today, offset);
  }
}
