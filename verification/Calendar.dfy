/** Calendar arithmetic of the line parser (server/src/parser/LogLineParser.cpp:69-137) and the packed
    hour keys of the statistics (server/src/stats/StatsCollector.cpp:5-31). */
module Calendar {

  /** Integer division as C++ computes it: towards zero. */
  function TruncDiv(a: int, b: int): int
    requires b > 0
  {
    if a >= 0 then a / b else -((-a) / b)
  }

  /** Days since 1970-01-01, as the source computes them. */
  function DaysFromCivil(year: int, month: int, day: int): (r: int)
    requires 1 <= month <= 12
  {
    var y := if month <= 2 then year - 1 else year;
    var era := TruncDiv(if y >= 0 then y else y - 399, 400);
    var yoe := y - era * 400;
    var doy := (153 * (month + if month > 2 then -3 else 9) + 2) / 5 + day - 1;
    var doe := yoe * 365 + yoe / 4 - yoe / 100 + doy;
    era * 146097 + doe - 719468
  }

  predicate IsLeapYear(y: int) {
    (y % 4 == 0 && y % 100 != 0) || y % 400 == 0
  }

  function DaysInMonth(y: int, m: int): (r: int)
    requires 1 <= m <= 12
    ensures 28 <= r <= 31
  {
    if m == 2 && IsLeapYear(y) then 29 else [31, 28, 31, 30, 31, 30, 31, 31, 30, 31, 30, 31][m - 1]
  }

  datatype Date = Date(year: int, month: int, day: int)

  predicate ValidDate(d: Date) {
    1 <= d.month <= 12 && 1 <= d.day <= DaysInMonth(d.year, d.month)
  }

  function Days(d: Date): int
    requires ValidDate(d)
  {
    DaysFromCivil(d.year, d.month, d.day)
  }

  /** The calendar's own successor. */
  function NextDay(d: Date): (r: Date)
    requires ValidDate(d)
    ensures ValidDate(r)
  {
    if d.day < DaysInMonth(d.year, d.month) then d.(day := d.day + 1)
    else if d.month < 12 then Date(d.year, d.month + 1, 1)
    else Date(d.year + 1, 1, 1)
  }

  // ---- The formula counts days ----

  /** Days before March of year `y`, counted from March of year zero. */
  function MarchStart(y: int): int {
    365 * y + y / 4 - y / 100 + y / 400
  }

  /** Days from the first of March to the first of `month`. */
  function MonthOffset(month: int): (r: int)
    requires 1 <= month <= 12
  {
    [306, 337, 0, 31, 61, 92, 122, 153, 184, 214, 245, 275][month - 1]
  }

  lemma EraIsFloor(y: int)
    ensures TruncDiv(if y >= 0 then y else y - 399, 400) == y / 400
  {}

  lemma EraSplit(y: int)
    ensures var era := y / 400;
            var yoe := y - era * 400;
            era * 146097 + yoe * 365 + yoe / 4 - yoe / 100 == MarchStart(y)
  {
    var era := y / 400;
    var yoe := y - era * 400;
    assert y / 4 == 100 * era + yoe / 4;
    assert y / 100 == 4 * era + yoe / 100;
  }

  lemma OffsetFormula(month: int)
    requires 1 <= month <= 12
    ensures (153 * (month + if month > 2 then -3 else 9) + 2) / 5 == MonthOffset(month)
  {}

  /** The day number of the first of a month. */
  function MonthFirst(year: int, month: int): int
    requires 1 <= month <= 12
  {
    MarchStart(if month <= 2 then year - 1 else year) + MonthOffset(month) - 719468
  }

  lemma {:induction false} DaysFormula(year: int, month: int, day: int)
    requires 1 <= month <= 12
    ensures DaysFromCivil(year, month, day) == MonthFirst(year, month) + day - 1
  {
    var y := if month <= 2 then year - 1 else year;
    EraIsFloor(y);
    EraSplit(y);
    OffsetFormula(month);
  }

  lemma Epoch()
    ensures DaysFromCivil(1970, 1, 1) == 0
  {}

  lemma {:induction false} YearLength(y: int)
    ensures MarchStart(y + 1) - MarchStart(y) == if IsLeapYear(y + 1) then 366 else 365
  {
    var z := y + 1;
    assert z / 4 - y / 4 == if z % 4 == 0 then 1 else 0;
    assert z / 100 - y / 100 == if z % 100 == 0 then 1 else 0;
    assert z / 400 - y / 400 == if z % 400 == 0 then 1 else 0;
    LeapCount(z);
  }

  lemma LeapCount(z: int)
    ensures (if z % 4 == 0 then 1 else 0) - (if z % 100 == 0 then 1 else 0) + (if z % 400 == 0 then 1 else 0)
            == if IsLeapYear(z) then 1 else 0
  {
    if z % 400 == 0 {
      assert z == 100 * (4 * (z / 400));
    }
    if z % 100 == 0 {
      assert z == 4 * (25 * (z / 100));
    }
  }

  function FollowingMonth(year: int, month: int): (r: (int, int))
    requires 1 <= month <= 12
    ensures 1 <= r.1 <= 12
  {
    if month < 12 then (year, month + 1) else (year + 1, 1)
  }

  lemma {:induction false} MonthLength(year: int, month: int)
    requires 1 <= month <= 12
    ensures var (y, m) := FollowingMonth(year, month);
            MonthFirst(y, m) == MonthFirst(year, month) + DaysInMonth(year, month)
  {
    if month == 2 {
      YearLength(year - 1);
    } else {
      var (y, m) := FollowingMonth(year, month);
      OffsetsAddUp(month);
      assert (if m <= 2 then y - 1 else y) == (if month <= 2 then year - 1 else year);
    }
  }

  lemma OffsetsAddUp(month: int)
    requires 1 <= month <= 12 && month != 2
    ensures MonthOffset(if month < 12 then month + 1 else 1) ==
            MonthOffset(month) + [31, 28, 31, 30, 31, 30, 31, 31, 30, 31, 30, 31][month - 1]
  {}

  /** The day after is one more, across month ends, year ends and leap days, in every year. */
  lemma {:induction false} NextDayIsOneMore(d: Date)
    requires ValidDate(d)
    ensures Days(NextDay(d)) == Days(d) + 1
  {
    var e := NextDay(d);
    DaysFormula(d.year, d.month, d.day);
    DaysFormula(e.year, e.month, e.day);
    MonthLength(d.year, d.month);
  }

  // ---- Day numbers order dates ----

  predicate Before(a: Date, b: Date) {
    a.year < b.year || (a.year == b.year && (a.month < b.month || (a.month == b.month && a.day < b.day)))
  }

  /** Months numbered consecutively from year zero. */
  function MonthStart(k: int): int {
    MonthFirst(k / 12, k % 12 + 1)
  }

  function MonthIndex(d: Date): int {
    d.year * 12 + d.month - 1
  }

  lemma MonthIndexSplits(d: Date)
    requires ValidDate(d)
    ensures MonthIndex(d) / 12 == d.year && MonthIndex(d) % 12 == d.month - 1
  {}

  lemma {:induction false} NextMonthStart(k: int)
    ensures MonthStart(k + 1) == MonthStart(k) + DaysInMonth(k / 12, k % 12 + 1)
  {
    MonthLength(k / 12, k % 12 + 1);
    if k % 12 < 11 {
      assert (k + 1) / 12 == k / 12 && (k + 1) % 12 == k % 12 + 1;
    } else {
      assert (k + 1) / 12 == k / 12 + 1 && (k + 1) % 12 == 0;
    }
  }

  lemma {:induction false} LaterMonthStart(a: int, b: int)
    requires a < b
    ensures MonthStart(b) >= MonthStart(a) + DaysInMonth(a / 12, a % 12 + 1)
    decreases b - a
  {
    hide MonthStart;
    if b == a + 1 {
      NextMonthStart(a);
    } else {
      LaterMonthStart(a, b - 1);
      NextMonthStart(b - 1);
    }
  }

  lemma {:induction false} BeforeIsFewerDays(a: Date, b: Date)
    requires ValidDate(a) && ValidDate(b) && Before(a, b)
    ensures Days(a) < Days(b)
  {
    DaysFromMonthStart(a);
    DaysFromMonthStart(b);
    if MonthIndex(a) < MonthIndex(b) {
      LaterMonthStart(MonthIndex(a), MonthIndex(b));
    } else {
      MonthIndexSplits(a);
      MonthIndexSplits(b);
    }
  }

  lemma {:induction false} DaysFromMonthStart(d: Date)
    requires ValidDate(d)
    ensures Days(d) == MonthStart(MonthIndex(d)) + d.day - 1
    ensures d.day <= DaysInMonth(MonthIndex(d) / 12, MonthIndex(d) % 12 + 1)
  {
    MonthIndexSplits(d);
    DaysFormula(d.year, d.month, d.day);
  }

  /** Chronological order, on valid dates of any year, is the order of the day numbers. */
  lemma {:induction false} DaysOrderDates(a: Date, b: Date)
    requires ValidDate(a) && ValidDate(b)
    ensures Before(a, b) <==> Days(a) < Days(b)
    ensures a == b <==> Days(a) == Days(b)
  {
    if Before(a, b) {
      BeforeIsFewerDays(a, b);
    } else if Before(b, a) {
      BeforeIsFewerDays(b, a);
    }
  }

  // ---- Hours ----

  /** StatsCollector.cpp:5-8. */
  function HourKey(d: Date, hour: int): int {
    d.year * 1000000 + d.month * 10000 + d.day * 100 + hour
  }

  /** Hours since 1970-01-01 00. */
  function HourIndex(d: Date, hour: int): int
    requires ValidDate(d)
  {
    Days(d) * 24 + hour
  }

  /** Ascending keys are ascending hours: the CSV's integer order is the order of time. */
  lemma {:induction false} HourKeyOrder(a: Date, h: int, b: Date, k: int)
    requires ValidDate(a) && ValidDate(b) && 0 <= h < 24 && 0 <= k < 24
    ensures HourKey(a, h) < HourKey(b, k) <==> HourIndex(a, h) < HourIndex(b, k)
    ensures HourKey(a, h) == HourKey(b, k) <==> HourIndex(a, h) == HourIndex(b, k)
  {
    DaysOrderDates(a, b);
    DaysOrderDates(b, a);
    assert a == b || Before(a, b) || Before(b, a);
  }

  /** Seconds since 1970-01-01 00:00:00. */
  function AbsSeconds(d: Date, hour: int, minute: int, second: int): int
    requires ValidDate(d)
  {
    Days(d) * 86400 + hour * 3600 + minute * 60 + second
  }

  lemma HourOfSeconds(d: Date, hour: int, minute: int, second: int)
    requires ValidDate(d) && 0 <= hour < 24 && 0 <= minute < 60 && 0 <= second < 60
    ensures AbsSeconds(d, hour, minute, second) / 3600 == HourIndex(d, hour)
  {
    var s := AbsSeconds(d, hour, minute, second);
    assert s == 3600 * HourIndex(d, hour) + (minute * 60 + second);
  }
}
