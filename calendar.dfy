/** Proleptic Gregorian calendar arithmetic shared by slot generation, the
    month availability route and the birth-date parser.  A calendar day is
    identified with its epoch-day number (days since 1970-01-01), and an
    instant in milliseconds falls on the epoch day obtained by floor division. */
module Calendar {
  import opened Common

  datatype Date = Date(year: int, month: int, day: int)

  predicate IsLeapYear(y: int)
  {
    y % 4 == 0 && (y % 100 != 0 || y % 400 == 0)
  }

  function DaysInMonth(y: int, m: int): (n: int)
    requires 1 <= m <= 12
    ensures 28 <= n <= 31
    ensures m == 2 ==> (n == 29 <==> IsLeapYear(y))
  {
    if m == 2 then (if IsLeapYear(y) then 29 else 28)
    else if m == 4 || m == 6 || m == 9 || m == 11 then 30
    else 31
  }

  /** A date that exists: month 1-12 and a day the month has. */
  predicate ValidDate(d: Date)
  {
    1 <= d.month <= 12 && 1 <= d.day <= DaysInMonth(d.year, d.month)
  }

  /** Days from 1970-01-01 to the start of the March-based year Y
      (the year that runs from 1 March of Y to the end of February of Y + 1). */
  function ShiftedYearStart(y: int): int
  {
    var era := y / 400;
    var yoe := y % 400;
    era * 146097 + yoe * 365 + yoe / 4 - yoe / 100 - 719468
  }

  /** Day of the March-based year on which month m begins. */
  function MonthOffset(m: int): int
    requires 1 <= m <= 12
  {
    var mp := if m > 2 then m - 3 else m + 9;
    (153 * mp + 2) / 5
  }

  /** Epoch-day number of a civil date (the days-from-civil algorithm). */
  function DaysFromCivil(d: Date): int
    requires 1 <= d.month <= 12
  {
    var y := if d.month <= 2 then d.year - 1 else d.year;
    ShiftedYearStart(y) + MonthOffset(d.month) + d.day - 1
  }

  function NextMonth(y: int, m: int): (r: (int, int))
    requires 1 <= m <= 12
    ensures 1 <= r.1 <= 12
  {
    if m == 12 then (y + 1, 1) else (y, m + 1)
  }

  function PrevMonth(y: int, m: int): (r: (int, int))
    requires 1 <= m <= 12
    ensures 1 <= r.1 <= 12
    ensures NextMonth(r.0, r.1) == (y, m)
  {
    if m == 1 then (y - 1, 12) else (y, m - 1)
  }

  /** The calendar day before d. */
  function PrevDay(d: Date): (r: Date)
    requires ValidDate(d)
    ensures ValidDate(r)
    ensures d.day > 1 ==> r == d.(day := d.day - 1)
    ensures d.day == 1 ==> (r.year, r.month) == PrevMonth(d.year, d.month)
                           && r.day == DaysInMonth(r.year, r.month)
  {
    if d.day > 1 then d.(day := d.day - 1)
    else
      var pm := PrevMonth(d.year, d.month);
      Date(pm.0, pm.1, DaysInMonth(pm.0, pm.1))
  }

  /** The epoch day on which an instant (ms, UTC) falls. */
  function EpochDay(t: int): int
  {
    t / MS_PER_DAY
  }

  /** Day of the week of an epoch day, 0 = Sunday (1970-01-01 was a Thursday). */
  function Weekday(day: int): (w: int)
    ensures 0 <= w < 7
  {
    (day + 4) % 7
  }

  /** Midnight of a date in the server's local zone, which is UTC. */
  function LocalMidnightMs(d: Date): int
    requires 1 <= d.month <= 12
  {
    DaysFromCivil(d) * MS_PER_DAY
  }

  lemma {:induction false} EpochDayOfRange(day: int, t: int)
    requires day * MS_PER_DAY <= t < day * MS_PER_DAY + MS_PER_DAY
    ensures EpochDay(t) == day
  {
  }

  /** A March-based year has 365 days, plus one when the February at its end
      (the February of Y + 1) has 29 days. */
  lemma {:induction false} ShiftedYearLength(y: int)
    ensures ShiftedYearStart(y + 1) - ShiftedYearStart(y)
            == 365 + (if IsLeapYear(y + 1) then 1 else 0)
  {
    var q, r := y / 400, y % 400;
    assert ShiftedYearStart(y) == q * 146097 + r * 365 + r / 4 - r / 100 - 719468;
    if r < 399 {
      DivStep(y, q, r);
      var a := r + 1;
      assert ShiftedYearStart(y + 1) == q * 146097 + a * 365 + a / 4 - a / 100 - 719468;
      ModOfMultiple(4 * q, a);
      assert IsLeapYear(y + 1) <==> a % 4 == 0 && a % 100 != 0;
      QuarterStep(r);
      CenturyStep(r);
    } else {
      assert (y + 1) / 400 == q + 1 && (y + 1) % 400 == 0;
      assert ShiftedYearStart(y + 1) == (q + 1) * 146097 - 719468;
      ModOfMultiple(4 * (q + 1), 0);
      assert IsLeapYear(y + 1);
    }
  }

  lemma {:induction false} DivStep(y: int, q: int, r: int)
    requires q == y / 400 && r == y % 400 && r < 399
    ensures (y + 1) / 400 == q && (y + 1) % 400 == r + 1
  {
  }

  /** Adding 400 * c (here written as 4 * c' or 100 * c'') does not change the
      remainders by 4 and by 100. */
  lemma {:induction false} ModOfMultiple(c: int, a: int)
    ensures (100 * c + a) % 4 == a % 4 && (100 * c + a) % 100 == a % 100
  {
    assert 100 * c + a == 4 * (25 * c) + a;
  }

  lemma {:induction false} QuarterStep(r: int)
    requires 0 <= r
    ensures (r + 1) / 4 - r / 4 == (if (r + 1) % 4 == 0 then 1 else 0)
  {
  }

  lemma {:induction false} CenturyStep(r: int)
    requires 0 <= r
    ensures (r + 1) / 100 - r / 100 == (if (r + 1) % 100 == 0 then 1 else 0)
    ensures (r + 1) % 100 == 0 ==> (r + 1) % 4 == 0
  {
  }

  /** The first day of the next month immediately follows the last day of
      this one, so the days of consecutive months are consecutive numbers. */
  lemma {:induction false} MonthContinuity(y: int, m: int)
    requires 1 <= m <= 12
    ensures DaysFromCivil(Date(NextMonth(y, m).0, NextMonth(y, m).1, 1))
            == DaysFromCivil(Date(y, m, 1)) + DaysInMonth(y, m)
  {
    if m == 2 {
      ShiftedYearLength(y - 1);
    }
  }

  /** Taking the previous calendar day subtracts exactly one epoch day. */
  lemma PrevDayIsOneDayEarlier(d: Date)
    requires ValidDate(d)
    ensures DaysFromCivil(PrevDay(d)) == DaysFromCivil(d) - 1
  {
    if d.day == 1 {
      var pm := PrevMonth(d.year, d.month);
      MonthContinuity(pm.0, pm.1);
    }
  }

  /** Within a month, day k lies k - 1 days after the first. */
  lemma {:induction false} DayOfMonthOffset(y: int, m: int, k: int)
    requires 1 <= m <= 12
    ensures DaysFromCivil(Date(y, m, k)) == DaysFromCivil(Date(y, m, 1)) + k - 1
  {
  }
}
