/** Named date windows for listing events (date_ranges.py), computed from
    an explicit `today`. */
module DateRanges {
  import opened Common
  import opened Dates

  /** A window of datetimes; a missing side is unbounded. */
  datatype DateRange = DateRange(start: Option<Timestamp>, end: Option<Timestamp>)

  /** `_start_of_week`: the Monday on or before `day`. */
  function StartOfWeek(day: CalendarDate): (r: CalendarDate)
    ensures Weekday(r) == 0
    ensures Ordinal(day) - 6 <= Ordinal(r) <= Ordinal(day)
  {
    AddDaysOrdinal(day, -Weekday(day));
    AddDaysWeekday(day, -Weekday(day));
    AddDays(day, -Weekday(day))
  }

  /** `_end_of_week`: the Sunday six days after the start of the week. */
  function EndOfWeek(day: CalendarDate): (r: CalendarDate)
    ensures Weekday(r) == 6
    ensures Ordinal(r) == Ordinal(StartOfWeek(day)) + 6
    ensures Ordinal(day) <= Ordinal(r) <= Ordinal(day) + 6
  {
    var s := StartOfWeek(day);
    AddDaysOrdinal(s, 6);
    AddDaysWeekday(s, 6);
    AddDays(s, 6)
  }

  /** `_start_of_month`: `day.replace(day=1)`. */
  function StartOfMonth(day: CalendarDate): (r: CalendarDate)
    ensures r.year == day.year && r.month == day.month && r.day == 1
  {
    WithDay(day, 1)
  }

  /** `_end_of_month`: jump from the 28th four days into the next month,
      go back to its 1st, and step back one day. */
  function EndOfMonth(day: CalendarDate): (r: CalendarDate)
  {
    var nextMonth := WithDay(AddDays(WithDay(day, 28), 4), 1);
    AddDays(nextMonth, -1)
  }

  /** From the 28th, four days on is always in the next month. */
  lemma TwentyEighthPlusFour(day: CalendarDate)
    ensures var r := AddDays(WithDay(day, 28), 4);
      r == Date(FirstOfNextMonth(day).year, FirstOfNextMonth(day).month, 32 - DaysInMonth(day.year, day.month))
  {
    var d28 := WithDay(day, 28);
    var last := WithDay(day, DaysInMonth(day.year, day.month));
    var first := FirstOfNextMonth(day);
    AddDaysOrdinal(d28, 4);
    LastDayThenFirst(day);
    NextDayOrdinal(last);
    assert Ordinal(last) == Ordinal(d28) + DaysInMonth(day.year, day.month) - 28;
    var k := 32 - DaysInMonth(day.year, day.month);
    var target: CalendarDate := Date(first.year, first.month, k);
    assert Ordinal(target) == Ordinal(first) + k - 1;
    OrdinalInjective(AddDays(d28, 4), target);
  }

  /** `_end_of_month` returns the last day of the same month, whose next
      day is the 1st of the following month. */
  lemma EndOfMonthIsLastDay(day: CalendarDate)
    ensures EndOfMonth(day) == Date(day.year, day.month, DaysInMonth(day.year, day.month))
    ensures NextDay(EndOfMonth(day)) == FirstOfNextMonth(day) && NextDay(EndOfMonth(day)).day == 1
  {
    TwentyEighthPlusFour(day);
    var first := FirstOfNextMonth(day);
    assert WithDay(AddDays(WithDay(day, 28), 4), 1) == first;
    assert AddDays(first, -1) == PrevDay(first);
    LastDayThenFirst(day);
  }

  /** `resolve_date_range(kind, today=today)`. */
  function ResolveDateRange(kind: string, today: CalendarDate): (r: Result<DateRange>)
    ensures r.Fail? ==> r.failure == ValueError("Unknown date range kind: " + kind)
  {
    if kind == "day_before_yesterday" then DayRange(AddDays(today, -2))
    else if kind == "yesterday" then DayRange(AddDays(today, -1))
    else if kind == "today" then DayRange(today)
    else if kind == "tomorrow" then DayRange(AddDays(today, 1))
    else if kind == "this_week" then Span(StartOfWeek(today), EndOfWeek(today))
    else if kind == "this_month" then Span(StartOfMonth(today), EndOfMonth(today))
    else if kind == "next_month" then
      var nextMonthStart := WithDay(AddDays(EndOfMonth(today), 1), 1);
      Span(nextMonthStart, EndOfMonth(nextMonthStart))
    else if kind == "last_month" then
      var prevMonthEnd := AddDays(StartOfMonth(today), -1);
      Span(StartOfMonth(prevMonthEnd), prevMonthEnd)
    else if kind == "this_year" then
      Span(Date(today.year, 1, 1), Date(today.year, 12, 31))
    else if kind == "all" then Ok(DateRange(None, None))
    else Fail(ValueError("Unknown date range kind: " + kind))
  }

  /** From the start of one day to the end of another. */
  function Span(first: CalendarDate, last: CalendarDate): Result<DateRange>
  {
    Ok(DateRange(Some(StartOfDay(first)), Some(EndOfDay(last))))
  }

  function DayRange(day: CalendarDate): Result<DateRange>
  {
    Span(day, day)
  }

  /** The ten kinds `resolve_date_range` knows. */
  predicate IsKnownKind(kind: string)
  {
    kind in {"day_before_yesterday", "yesterday", "today", "tomorrow", "this_week",
             "this_month", "next_month", "last_month", "this_year", "all"}
  }

  /** Exactly the ten known kinds resolve; any other raises ValueError. */
  lemma ResolveKnownKinds(kind: string, today: CalendarDate)
    ensures ResolveDateRange(kind, today).Ok? <==> IsKnownKind(kind)
  {
  }

  /** The four single-day kinds cover one whole day, two days back to one
      day ahead. */
  lemma SingleDayKinds(today: CalendarDate)
    ensures ResolveDateRange("day_before_yesterday", today) == Span(AddDays(today, -2), AddDays(today, -2))
    ensures ResolveDateRange("yesterday", today) == Span(AddDays(today, -1), AddDays(today, -1))
    ensures ResolveDateRange("today", today) == Span(today, today)
    ensures ResolveDateRange("tomorrow", today) == Span(AddDays(today, 1), AddDays(today, 1))
    ensures Ordinal(AddDays(today, -2)) == Ordinal(today) - 2 && Ordinal(AddDays(today, 1)) == Ordinal(today) + 1
  {
    AddDaysOrdinal(today, -2);
    AddDaysOrdinal(today, 1);
  }

  /** `this_week` runs from the Monday on or before today to the Sunday
      six days later, and contains today. */
  lemma ThisWeek(today: CalendarDate)
    ensures var r := ResolveDateRange("this_week", today).value;
      r.start.Some? && r.end.Some? &&
      Weekday(r.start.value.date) == 0 && Weekday(r.end.value.date) == 6 &&
      Ordinal(r.end.value.date) == Ordinal(r.start.value.date) + 6 &&
      Ordinal(r.start.value.date) <= Ordinal(today) <= Ordinal(r.end.value.date)
  {
  }

  /** `this_month` covers the 1st through the last day of today's month. */
  lemma ThisMonth(today: CalendarDate)
    ensures ResolveDateRange("this_month", today) ==
      Span(Date(today.year, today.month, 1), Date(today.year, today.month, DaysInMonth(today.year, today.month)))
  {
    EndOfMonthIsLastDay(today);
  }

  /** `next_month` covers the whole following month; December rolls over
      to January of the next year. */
  lemma NextMonth(today: CalendarDate)
    ensures var n := FirstOfNextMonth(today);
      ResolveDateRange("next_month", today) == Span(n, Date(n.year, n.month, DaysInMonth(n.year, n.month)))
    ensures today.month == 12 ==> FirstOfNextMonth(today) == Date(today.year + 1, 1, 1)
  {
    EndOfMonthIsLastDay(today);
    var last := EndOfMonth(today);
    assert AddDays(last, 1) == NextDay(last);
    EndOfMonthIsLastDay(FirstOfNextMonth(today));
  }

  /** The month before today's, as a date of its last day. */
  function LastDayOfPreviousMonth(today: CalendarDate): (r: CalendarDate)
    ensures r.day == DaysInMonth(r.year, r.month)
    ensures NextDay(r) == Date(today.year, today.month, 1)
  {
    PrevDay(Date(today.year, today.month, 1))
  }

  /** `last_month` ends the day before the 1st of this month and starts on
      the 1st of that month. */
  lemma LastMonth(today: CalendarDate)
    ensures var e := LastDayOfPreviousMonth(today);
      ResolveDateRange("last_month", today) == Span(Date(e.year, e.month, 1), e)
    ensures today.month == 1 ==> LastDayOfPreviousMonth(today) == Date(today.year - 1, 12, 31)
  {
    assert AddDays(StartOfMonth(today), -1) == PrevDay(StartOfMonth(today));
  }

  /** `this_year` covers January 1 to December 31 of today's year. */
  lemma ThisYear(today: CalendarDate)
    ensures ResolveDateRange("this_year", today) == Span(Date(today.year, 1, 1), Date(today.year, 12, 31))
  {
  }

  /** Every bounded window starts no later than it ends, and `all` is
      unbounded on both sides. */
  lemma RangesAreOrdered(kind: string, today: CalendarDate)
    requires ResolveDateRange(kind, today).Ok?
    ensures var r := ResolveDateRange(kind, today).value;
      (kind == "all" <==> r.start.None?) && (r.start.None? <==> r.end.None?) &&
      (r.start.Some? ==> AtOrBefore(r.start.value, r.end.value))
  {
    if kind == "this_week" {
      ThisWeek(today);
    } else if kind == "this_month" {
      ThisMonth(today);
    } else if kind == "next_month" {
      NextMonth(today);
    } else if kind == "last_month" {
      LastMonth(today);
      var e := LastDayOfPreviousMonth(today);
      OrdinalOrder(Date(e.year, e.month, 1), e);
    } else if kind == "this_year" {
      OrdinalOrder(Date(today.year, 1, 1), Date(today.year, 12, 31));
    }
  }
}
