/** The proleptic Gregorian calendar that Python's `date`, `datetime` and
    `timedelta` implement, and that `calendar.monthrange` and
    `calendar.monthdatescalendar` read from. Dates are numbered as
    `date.toordinal()` numbers them (0001-01-01 is day 1), weekdays as
    `date.weekday()` (Monday is 0), and a datetime is counted in whole
    seconds from the start of day 0. */
module Dates {

  datatype Date = Date(year: int, month: int, day: int)
  {
    predicate Valid()
    {
      1 <= month <= 12 && 1 <= day <= DaysInMonth(year, month)
    }
  }

  type CalendarDate = d: Date | d.Valid() witness Date(1970, 1, 1)

  predicate IsLeapYear(y: int)
  {
    y % 4 == 0 && (y % 100 != 0 || y % 400 == 0)
  }

  /** The second result of `calendar.monthrange(y, m)`. */
  function DaysInMonth(y: int, m: int): (n: int)
    requires 1 <= m <= 12
    ensures 28 <= n <= 31
    ensures n == 29 <==> (m == 2 && IsLeapYear(y))
  {
    if m == 2 then (if IsLeapYear(y) then 29 else 28)
    else if m == 4 || m == 6 || m == 9 || m == 11 then 30
    else 31
  }

  function DaysInYear(y: int): int
  {
    if IsLeapYear(y) then 366 else 365
  }

  /** Days in the years before year y (Python's `_days_before_year`). */
  function DaysBeforeYear(y: int): int
  {
    365 * (y - 1) + (y - 1) / 4 - (y - 1) / 100 + (y - 1) / 400
  }

  /** Days in the months of year y before month m (`_days_before_month`). */
  function DaysBeforeMonth(y: int, m: int): int
    requires 1 <= m <= 12
  {
    [0, 31, 59, 90, 120, 151, 181, 212, 243, 273, 304, 334][m - 1]
      + (if m > 2 && IsLeapYear(y) then 1 else 0)
  }

  /** `date.toordinal()`. */
  function Ordinal(d: CalendarDate): int
  {
    DaysBeforeYear(d.year) + DaysBeforeMonth(d.year, d.month) + d.day
  }

  /** `date.weekday()`: Monday is 0 and Sunday is 6. */
  function Weekday(d: CalendarDate): (w: int)
    ensures 0 <= w < 7
  {
    (Ordinal(d) + 6) % 7
  }

  /** Python's `(y1, m1, d1) < (y2, m2, d2)` comparison of dates. */
  predicate DateBefore(a: CalendarDate, b: CalendarDate)
  {
    a.year < b.year || (a.year == b.year && (a.month < b.month || (a.month == b.month && a.day < b.day)))
  }

  function NextDay(d: CalendarDate): (r: CalendarDate)
  {
    if d.day < DaysInMonth(d.year, d.month) then Date(d.year, d.month, d.day + 1)
    else if d.month < 12 then Date(d.year, d.month + 1, 1)
    else Date(d.year + 1, 1, 1)
  }

  function PrevDay(d: CalendarDate): (r: CalendarDate)
  {
    if d.day > 1 then Date(d.year, d.month, d.day - 1)
    else if d.month > 1 then Date(d.year, d.month - 1, DaysInMonth(d.year, d.month - 1))
    else Date(d.year - 1, 12, 31)
  }

  /** `d + timedelta(days=n)`, one day at a time. */
  function AddDays(d: CalendarDate, n: int): CalendarDate
    decreases if n >= 0 then n else -n
  {
    if n == 0 then d
    else if n > 0 then AddDays(NextDay(d), n - 1)
    else AddDays(PrevDay(d), n + 1)
  }

  /** `d.replace(day=k)`. */
  function WithDay(d: CalendarDate, k: int): CalendarDate
    requires 1 <= k <= DaysInMonth(d.year, d.month)
  {
    Date(d.year, d.month, k)
  }

  // ---------------------------------------------------------------------
  // Ordinal arithmetic

  lemma DaysBeforeYearStep(y: int)
    ensures DaysBeforeYear(y + 1) == DaysBeforeYear(y) + DaysInYear(y)
  {
    var a := y - 1;
    DivStep4(a);
    DivStep100(a);
    DivStep400(a);
    DivisorsNest(y);
    var q4 := if y % 4 == 0 then 1 else 0;
    var q100 := if y % 100 == 0 then 1 else 0;
    var q400 := if y % 400 == 0 then 1 else 0;
    assert DaysBeforeYear(y + 1) == DaysBeforeYear(y) + 365 + q4 - q100 + q400;
  }

  /** A multiple of 400 is one of 100, and a multiple of 100 one of 4. */
  lemma DivisorsNest(y: int)
    ensures y % 400 == 0 ==> y % 100 == 0
    ensures y % 100 == 0 ==> y % 4 == 0
  {
    if y % 400 == 0 {
      var m := 4 * (y / 400);
      assert y == 100 * m;
      Mod100OfMultiple(m);
    }
    if y % 100 == 0 {
      var m := 25 * (y / 100);
      assert y == 4 * m;
      Mod4OfMultiple(m);
    }
  }

  lemma Mod100OfMultiple(m: int)
    ensures (100 * m) % 100 == 0
  {
  }

  lemma Mod4OfMultiple(m: int)
    ensures (4 * m) % 4 == 0
  {
  }

  lemma DivStep4(a: int)
    ensures (a + 1) / 4 == a / 4 + (if (a + 1) % 4 == 0 then 1 else 0)
  {
    assert a == 4 * (a / 4) + a % 4;
  }

  lemma DivStep100(a: int)
    ensures (a + 1) / 100 == a / 100 + (if (a + 1) % 100 == 0 then 1 else 0)
  {
    assert a == 100 * (a / 100) + a % 100;
  }

  lemma DivStep400(a: int)
    ensures (a + 1) / 400 == a / 400 + (if (a + 1) % 400 == 0 then 1 else 0)
  {
    assert a == 400 * (a / 400) + a % 400;
  }

  lemma {:induction false} DaysBeforeYearMonotone(y1: int, y2: int)
    requires y1 <= y2
    ensures DaysBeforeYear(y1) + 365 * (y2 - y1) <= DaysBeforeYear(y2)
    decreases y2 - y1
  {
    if y1 < y2 {
      DaysBeforeYearStep(y1);
      DaysBeforeYearMonotone(y1 + 1, y2);
    }
  }

  lemma DaysBeforeMonthStep(y: int, m: int)
    requires 1 <= m < 12
    ensures DaysBeforeMonth(y, m + 1) == DaysBeforeMonth(y, m) + DaysInMonth(y, m)
  {
  }

  /** The day after d has the next ordinal. */
  lemma NextDayOrdinal(d: CalendarDate)
    ensures Ordinal(NextDay(d)) == Ordinal(d) + 1
  {
    if d.day == DaysInMonth(d.year, d.month) {
      if d.month < 12 {
        DaysBeforeMonthStep(d.year, d.month);
      } else {
        DaysBeforeYearStep(d.year);
      }
    }
  }

  /** The day before d has the previous ordinal. */
  lemma PrevDayOrdinal(d: CalendarDate)
    ensures Ordinal(PrevDay(d)) == Ordinal(d) - 1
  {
    if d.day == 1 {
      if d.month > 1 {
        DaysBeforeMonthStep(d.year, d.month - 1);
      } else {
        DaysBeforeYearStep(d.year - 1);
      }
    }
  }

  /** Adding n days adds n to the ordinal: AddDays is `date + timedelta`. */
  lemma {:induction false} AddDaysOrdinal(d: CalendarDate, n: int)
    ensures Ordinal(AddDays(d, n)) == Ordinal(d) + n
    decreases if n >= 0 then n else -n
  {
    if n > 0 {
      var e := NextDay(d);
      NextDayOrdinal(d);
      AddDaysOrdinal(e, n - 1);
      assert AddDays(d, n) == AddDays(e, n - 1);
    } else if n < 0 {
      var e := PrevDay(d);
      PrevDayOrdinal(d);
      AddDaysOrdinal(e, n + 1);
      assert AddDays(d, n) == AddDays(e, n + 1);
    }
  }

  /** Within one year the ordinal runs over exactly that year's days. */
  lemma OrdinalWithinYear(d: CalendarDate)
    ensures DaysBeforeYear(d.year) < Ordinal(d) <= DaysBeforeYear(d.year) + DaysInYear(d.year)
  {
  }

  /** The ordinal orders dates as Python compares them. */
  lemma OrdinalOrder(a: CalendarDate, b: CalendarDate)
    ensures DateBefore(a, b) <==> Ordinal(a) < Ordinal(b)
    ensures a == b <==> Ordinal(a) == Ordinal(b)
  {
    if a.year < b.year {
      EarlierYear(a, b);
    } else if b.year < a.year {
      EarlierYear(b, a);
    } else if a.month < b.month {
      MonthsApart(a.year, a.month, b.month);
    } else if b.month < a.month {
      MonthsApart(a.year, b.month, a.month);
    }
  }

  /** Every date of an earlier year has a smaller ordinal. */
  lemma EarlierYear(a: CalendarDate, b: CalendarDate)
    requires a.year < b.year
    ensures Ordinal(a) < Ordinal(b)
  {
    OrdinalWithinYear(a);
    OrdinalWithinYear(b);
    DaysBeforeYearStep(a.year);
    DaysBeforeYearMonotone(a.year + 1, b.year);
  }

  lemma MonthsApart(y: int, m1: int, m2: int)
    requires 1 <= m1 < m2 <= 12
    ensures DaysBeforeMonth(y, m1) + DaysInMonth(y, m1) <= DaysBeforeMonth(y, m2)
  {
  }

  /** Dates with the same ordinal are the same date. */
  lemma OrdinalInjective(a: CalendarDate, b: CalendarDate)
    requires Ordinal(a) == Ordinal(b)
    ensures a == b
  {
    OrdinalOrder(a, b);
  }

  /** Adding days composes: (d + a days) + b days == d + (a + b) days. */
  lemma AddDaysAdd(d: CalendarDate, a: int, b: int)
    ensures AddDays(AddDays(d, a), b) == AddDays(d, a + b)
  {
    AddDaysOrdinal(d, a);
    AddDaysOrdinal(AddDays(d, a), b);
    AddDaysOrdinal(d, a + b);
    OrdinalInjective(AddDays(AddDays(d, a), b), AddDays(d, a + b));
  }

  /** Moving by n days moves the weekday by n, modulo 7. */
  lemma AddDaysWeekday(d: CalendarDate, n: int)
    ensures Weekday(AddDays(d, n)) == (Weekday(d) + n) % 7
  {
    AddDaysOrdinal(d, n);
    ModAdd7(Ordinal(d) + 6, n);
  }

  lemma ModAdd7(o: int, n: int)
    ensures (o + n) % 7 == (o % 7 + n) % 7
  {
    assert o == 7 * (o / 7) + o % 7;
    assert o + n == 7 * (o / 7) + (o % 7 + n);
  }

  /** The first day of the month after d's month. */
  function FirstOfNextMonth(d: CalendarDate): CalendarDate
  {
    if d.month < 12 then Date(d.year, d.month + 1, 1) else Date(d.year + 1, 1, 1)
  }

  lemma LastDayThenFirst(d: CalendarDate)
    ensures NextDay(WithDay(d, DaysInMonth(d.year, d.month))) == FirstOfNextMonth(d)
    ensures PrevDay(FirstOfNextMonth(d)) == WithDay(d, DaysInMonth(d.year, d.month))
  {
  }

  // ---------------------------------------------------------------------
  // Datetimes, to the second

  datatype DateTime = DateTime(date: CalendarDate, hour: int, minute: int, second: int)
  {
    predicate Valid()
    {
      0 <= hour < 24 && 0 <= minute < 60 && 0 <= second < 60
    }
  }

  type Timestamp = t: DateTime | t.Valid() witness DateTime(Date(1970, 1, 1), 0, 0, 0)

  function SecondOfDay(t: Timestamp): (s: int)
    ensures 0 <= s < 86400
  {
    t.hour * 3600 + t.minute * 60 + t.second
  }

  /** Whole seconds since the start of ordinal day 0. */
  function Seconds(t: Timestamp): int
  {
    Ordinal(t.date) * 86400 + SecondOfDay(t)
  }

  /** Python's `a < b` on naive datetimes. */
  predicate Before(a: Timestamp, b: Timestamp)
  {
    Seconds(a) < Seconds(b)
  }

  /** Python's `a <= b` on naive datetimes. */
  predicate AtOrBefore(a: Timestamp, b: Timestamp)
  {
    Seconds(a) <= Seconds(b)
  }

  /** Two datetimes are equal exactly when they denote the same second, so
      comparing Seconds is comparing datetimes. */
  lemma SecondsInjective(a: Timestamp, b: Timestamp)
    requires Seconds(a) == Seconds(b)
    ensures a == b
  {
    var da, db := Ordinal(a.date), Ordinal(b.date);
    var sa, sb := SecondOfDay(a), SecondOfDay(b);
    assert (da - db) * 86400 == sb - sa;
    assert da == db && sa == sb;
    OrdinalInjective(a.date, b.date);
  }

  /** Python compares datetimes field by field; so does Seconds. */
  lemma BeforeIsLexicographic(a: Timestamp, b: Timestamp)
    ensures Before(a, b) <==>
      DateBefore(a.date, b.date) ||
      (a.date == b.date && (a.hour, a.minute, a.second) != (b.hour, b.minute, b.second) &&
        SecondOfDay(a) < SecondOfDay(b))
  {
    OrdinalOrder(a.date, b.date);
    var da, db := Ordinal(a.date), Ordinal(b.date);
    if da < db {
      assert da * 86400 + 86400 <= db * 86400;
    } else if db < da {
      assert db * 86400 + 86400 <= da * 86400;
    }
  }

  function StartOfDay(d: CalendarDate): (t: Timestamp)
    ensures t.date == d && SecondOfDay(t) == 0
  {
    DateTime(d, 0, 0, 0)
  }

  function EndOfDay(d: CalendarDate): (t: Timestamp)
    ensures t.date == d && SecondOfDay(t) == 86399
  {
    DateTime(d, 23, 59, 59)
  }

  /** `t + timedelta(seconds=delta)`, normalised as timedelta arithmetic
      normalises it: whole days carried into the date. */
  function AddSeconds(t: Timestamp, delta: int): Timestamp
  {
    var total := SecondOfDay(t) + delta;
    var days := total / 86400;
    var rest := total % 86400;
    DateTime(AddDays(t.date, days), rest / 3600, rest % 3600 / 60, rest % 60)
  }

  /** Adding seconds adds exactly that many seconds. */
  lemma AddSecondsSeconds(t: Timestamp, delta: int)
    ensures Seconds(AddSeconds(t, delta)) == Seconds(t) + delta
  {
    var total := SecondOfDay(t) + delta;
    var days := total / 86400;
    var rest := total % 86400;
    var r := AddSeconds(t, delta);
    AddSecondsParts(t, delta);
    AddDaysOrdinal(t.date, days);
    assert Ordinal(r.date) == Ordinal(t.date) + days;
    assert Seconds(r) == (Ordinal(t.date) + days) * 86400 + rest;
  }

  /** The shifted datetime is the day shift plus the second of the day left over. */
  lemma AddSecondsParts(t: Timestamp, delta: int)
    ensures var total := SecondOfDay(t) + delta;
      AddSeconds(t, delta).date == AddDays(t.date, total / 86400) &&
      SecondOfDay(AddSeconds(t, delta)) == total % 86400
  {
  }

  /** Shifting by a and then b seconds is shifting by a + b. */
  lemma AddSecondsAdd(t: Timestamp, a: int, b: int)
    ensures AddSeconds(AddSeconds(t, a), b) == AddSeconds(t, a + b)
  {
    AddSecondsTwice(t, a, b);
    AddSecondsUnique(t, a + b, AddSeconds(AddSeconds(t, a), b));
  }

  /** Two shifts move the clock by their sum. */
  lemma AddSecondsTwice(t: Timestamp, a: int, b: int)
    ensures Seconds(AddSeconds(AddSeconds(t, a), b)) == Seconds(t) + (a + b)
  {
    AddSecondsSeconds(t, a);
    AddSecondsSeconds(AddSeconds(t, a), b);
  }

  /** The shift by d is the only datetime d seconds after t. */
  lemma AddSecondsUnique(t: Timestamp, d: int, r: Timestamp)
    requires Seconds(r) == Seconds(t) + d
    ensures r == AddSeconds(t, d)
  {
    AddSecondsSeconds(t, d);
    SecondsInjective(r, AddSeconds(t, d));
  }
}
