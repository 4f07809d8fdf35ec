/** The month view (view_month.py): the events grouped by day, the day,
    week and month moves of the grid cursor, and where `render` puts the
    title, the weekday header, the grid of day cells and the events pane of
    the selected day. The grid is the one `calendar.monthdatescalendar`
    lays out: whole weeks, Monday first, from the week of the 1st to the
    week of the last day. */
module ViewMonth {
  import opened Common
  import opened Text
  import opened Dates
  import opened Models
  import opened UiBase
  import opened Store
  import Seqs

  // ---------------------------------------------------------------------
  // Grouping by date

  /** The events dated d, in list order. */
  function OnDate(events: seq<Event>, d: CalendarDate): seq<Event>
    decreases |events|
  {
    if |events| == 0 then []
    else
      var front := OnDate(events[..|events| - 1], d);
      if events[|events| - 1].datetime.date == d then front + [events[|events| - 1]] else front
  }

  /** The days that have at least one event. */
  function DatesOf(events: seq<Event>): set<CalendarDate>
  {
    set e | e in events :: e.datetime.date
  }

  /** `events_by_date`: every day with events, mapped to them sorted by
      datetime (ties kept in list order). */
  function Grouped(events: seq<Event>): map<CalendarDate, seq<Event>>
  {
    map d | d in DatesOf(events) :: SortBy(ByDatetime, OnDate(events, d))
  }

  /** `events_by_date.get(d, [])`. */
  function EventsOn(byDate: map<CalendarDate, seq<Event>>, d: CalendarDate): seq<Event>
  {
    if d in byDate then byDate[d] else []
  }

  /** `_group_by_date(events)`: append each event to the list of its day,
      then sort every list by datetime. */
  method GroupByDate(events: seq<Event>) returns (out: map<CalendarDate, seq<Event>>)
    ensures out == Grouped(events)
  {
    var buckets := Bucket(events);
    out := SortBuckets(buckets);
    assert forall d :: d in out ==> out[d] == Grouped(events)[d];
  }

  /** The first loop of `_group_by_date`: `out.setdefault(d, []).append(ev)`. */
  method Bucket(events: seq<Event>) returns (buckets: map<CalendarDate, seq<Event>>)
    ensures buckets.Keys == DatesOf(events)
    ensures forall d :: EventsOn(buckets, d) == OnDate(events, d)
  {
    buckets := map[];
    var i := 0;
    while i < |events|
      invariant 0 <= i <= |events|
      invariant buckets.Keys == DatesOf(events[..i])
      invariant forall d :: EventsOn(buckets, d) == OnDate(events[..i], d)
    {
      var ev := events[i];
      var d := ev.datetime.date;
      AppendToBucket(buckets, events, i);
      DatesOfStep(events, i);
      buckets := buckets[d := EventsOn(buckets, d) + [ev]];
      i := i + 1;
    }
    assert events[..i] == events;
  }

  /** The second loop of `_group_by_date`: each list sorted in place by
      datetime, one list at a time. */
  method SortBuckets(buckets: map<CalendarDate, seq<Event>>) returns (out: map<CalendarDate, seq<Event>>)
    ensures out.Keys == buckets.Keys
    ensures forall d :: d in out ==> out[d] == SortBy(ByDatetime, buckets[d])
  {
    out := buckets;
    var todo := buckets.Keys;
    while todo != {}
      invariant todo <= buckets.Keys && out.Keys == buckets.Keys
      invariant forall d :: d in out ==> out[d] == if d in todo then buckets[d] else SortBy(ByDatetime, buckets[d])
      decreases |todo|
    {
      var d :| d in todo;
      out := out[d := SortBy(ByDatetime, out[d])];
      todo := todo - {d};
    }
  }

  /** One more event joins the list of its own day and no other. */
  lemma AppendToBucket(buckets: map<CalendarDate, seq<Event>>, events: seq<Event>, i: nat)
    requires i < |events|
    requires forall d :: EventsOn(buckets, d) == OnDate(events[..i], d)
    ensures var day := events[i].datetime.date;
      var next := buckets[day := EventsOn(buckets, day) + [events[i]]];
      forall d :: EventsOn(next, d) == OnDate(events[..i + 1], d)
  {
    assert events[..i + 1][..i] == events[..i];
  }

  lemma DatesOfStep(events: seq<Event>, i: nat)
    requires i < |events|
    ensures DatesOf(events[..i + 1]) == DatesOf(events[..i]) + {events[i].datetime.date}
  {
    assert events[..i + 1] == events[..i] + [events[i]];
  }

  /** An event is in the list of day d exactly as often as it is in the
      events, if it is dated d, and not at all otherwise. */
  lemma {:induction false} OnDateCounts(events: seq<Event>, d: CalendarDate)
    ensures forall e :: multiset(OnDate(events, d))[e] == if e.datetime.date == d then multiset(events)[e] else 0
    decreases |events|
  {
    if |events| > 0 {
      OnDateCounts(events[..|events| - 1], d);
      Seqs.MultisetFrontLast(events);
    }
  }

  /** Every event lands in exactly the bucket of its own day, each bucket
      holds all of that day's events and nothing else, and it is sorted by
      datetime. A day without events has no bucket. */
  lemma GroupedBuckets(events: seq<Event>, d: CalendarDate)
    ensures EventsOn(Grouped(events), d) == SortBy(ByDatetime, OnDate(events, d))
    ensures forall e :: multiset(EventsOn(Grouped(events), d))[e] == (if e.datetime.date == d then multiset(events)[e] else 0)
    ensures forall e :: e in EventsOn(Grouped(events), d) <==> e in events && e.datetime.date == d
    ensures Sorted(ByDatetime, EventsOn(Grouped(events), d))
    ensures d in Grouped(events) <==> |OnDate(events, d)| > 0
  {
    OnDateCounts(events, d);
    SortByPermutes(ByDatetime, OnDate(events, d));
    SortBySorted(ByDatetime, OnDate(events, d));
    var bucket := EventsOn(Grouped(events), d);
    if d !in DatesOf(events) {
      assert forall e :: e in events ==> e.datetime.date != d;
      assert multiset(OnDate(events, d)) == multiset{};
    } else {
      var e :| e in events && e.datetime.date == d;
      assert multiset(OnDate(events, d))[e] > 0;
    }
    forall e
      ensures e in bucket <==> e in events && e.datetime.date == d
    {
      assert e in bucket <==> multiset(bucket)[e] > 0;
      assert e in events <==> multiset(events)[e] > 0;
    }
  }

  // ---------------------------------------------------------------------
  // Moving the grid cursor

  /** `move_day(d, delta)`: `d + timedelta(days=delta)`. */
  function MoveDay(d: CalendarDate, delta: int): (r: CalendarDate)
    ensures Ordinal(r) == Ordinal(d) + delta
  {
    AddDaysOrdinal(d, delta);
    AddDays(d, delta)
  }

  /** `move_week(d, delta)`: seven days per week, landing on the same
      weekday. */
  function MoveWeek(d: CalendarDate, delta: int): (r: CalendarDate)
    ensures Ordinal(r) == Ordinal(d) + 7 * delta
    ensures Weekday(r) == Weekday(d)
  {
    AddDaysOrdinal(d, 7 * delta);
    AddDaysWeekday(d, 7 * delta);
    SameWeekday(Weekday(d), delta);
    AddDays(d, 7 * delta)
  }

  lemma SameWeekday(w: int, n: int)
    requires 0 <= w < 7
    ensures (w + 7 * n) % 7 == w
  {
    assert w + 7 * n == 7 * n + w;
  }

  /** Moving back undoes a move, and moves add up. */
  lemma MoveDayCompose(d: CalendarDate, a: int, b: int)
    ensures MoveDay(MoveDay(d, a), b) == MoveDay(d, a + b)
    ensures MoveDay(MoveDay(d, a), -a) == d
  {
    OrdinalInjective(MoveDay(MoveDay(d, a), b), MoveDay(d, a + b));
    OrdinalInjective(MoveDay(MoveDay(d, a), -a), d);
  }

  /** Moving a number of weeks and back returns to the same day. */
  lemma MoveWeekUndo(d: CalendarDate, a: int)
    ensures MoveWeek(MoveWeek(d, a), -a) == d
  {
    OrdinalInjective(MoveWeek(MoveWeek(d, a), -a), d);
  }

  /** `move_month(d, delta)`: the month `delta` months on (years carried
      with floor division, so negative deltas work), on the same day or
      that month's last day when it is shorter. */
  function MoveMonth(d: CalendarDate, delta: int): (r: CalendarDate)
    ensures 12 * r.year + r.month == 12 * d.year + d.month + delta
    ensures r.day == Min(d.day, DaysInMonth(r.year, r.month))
  {
    var year := d.year + (d.month - 1 + delta) / 12;
    var month := (d.month - 1 + delta) % 12 + 1;
    Date(year, month, Min(d.day, DaysInMonth(year, month)))
  }

  /** A count of months since year 0 names one year and month. */
  lemma MonthIndexUnique(y1: int, m1: int, y2: int, m2: int)
    requires 1 <= m1 <= 12 && 1 <= m2 <= 12
    requires 12 * y1 + m1 == 12 * y2 + m2
    ensures y1 == y2 && m1 == m2
  {
  }

  /** The 31st of January moves to the last day of February. */
  lemma EndOfJanuary(y: int)
    ensures MoveMonth(Date(y, 1, 31), 1) == Date(y, 2, if IsLeapYear(y) then 29 else 28)
  {
    var r := MoveMonth(Date(y, 1, 31), 1);
    MonthIndexUnique(r.year, r.month, y, 2);
  }

  /** When the day exists in the target month the move keeps it, and
      moving back returns to the starting day. */
  lemma MoveMonthBack(d: CalendarDate, delta: int)
    requires d.day <= DaysInMonth(MoveMonth(d, delta).year, MoveMonth(d, delta).month)
    ensures MoveMonth(d, delta).day == d.day
    ensures MoveMonth(MoveMonth(d, delta), -delta) == d
  {
    var r := MoveMonth(d, delta);
    var back := MoveMonth(r, -delta);
    MonthIndexUnique(back.year, back.month, d.year, d.month);
  }

  /** `clamp_event_index(d, idx)`: 0 for a day without events, otherwise
      the index held inside that day's list. */
  function ClampEventIndex(byDate: map<CalendarDate, seq<Event>>, d: CalendarDate, idx: int): (r: int)
    ensures |EventsOn(byDate, d)| == 0 ==> r == 0
    ensures |EventsOn(byDate, d)| > 0 ==> 0 <= r < |EventsOn(byDate, d)|
    ensures 0 <= idx < |EventsOn(byDate, d)| ==> r == idx
    ensures |EventsOn(byDate, d)| > 0 && idx < 0 ==> r == 0
    ensures |EventsOn(byDate, d)| > 0 && idx >= |EventsOn(byDate, d)| ==> r == |EventsOn(byDate, d)| - 1
  {
    var evs := EventsOn(byDate, d);
    if |evs| == 0 then 0 else Clamp(idx, 0, |evs| - 1)
  }

  // ---------------------------------------------------------------------
  // The grid of weeks

  function FirstOfMonth(d: CalendarDate): CalendarDate
  {
    Date(d.year, d.month, 1)
  }

  /** The Monday on or before the 1st, where the first week starts. */
  function GridStart(d: CalendarDate): CalendarDate
  {
    AddDays(FirstOfMonth(d), -Weekday(FirstOfMonth(d)))
  }

  /** `_grid_required_rows(d)`: the number of weeks of d's month, from the
      week of the 1st to the week of the last day. */
  function GridRequiredRows(d: CalendarDate): (n: int)
    ensures 4 <= n <= 6
  {
    (Weekday(FirstOfMonth(d)) + DaysInMonth(d.year, d.month) + 6) / 7
  }

  /** The day shown in week `row`, column `col` (Monday is column 0). */
  function CellDate(d: CalendarDate, row: int, col: int): CalendarDate
  {
    AddDays(GridStart(d), 7 * row + col)
  }

  /** Every week of the grid starts on a Monday. */
  lemma GridStartsMonday(d: CalendarDate)
    ensures Weekday(GridStart(d)) == 0
  {
    AddDaysWeekday(FirstOfMonth(d), -Weekday(FirstOfMonth(d)));
  }

  /** The cell of week `row`, column `col` is `7 * row + col` days after
      the Monday the grid starts on. */
  lemma CellOrdinal(d: CalendarDate, row: int, col: int)
    ensures Ordinal(CellDate(d, row, col)) == Ordinal(FirstOfMonth(d)) - Weekday(FirstOfMonth(d)) + 7 * row + col
  {
    AddDaysOrdinal(FirstOfMonth(d), -Weekday(FirstOfMonth(d)));
    AddDaysOrdinal(GridStart(d), 7 * row + col);
  }

  /** Day k of the month sits in the column of its weekday, on a row of the
      grid: the 1st on the first row and the last day on the last, so the
      grid has no week without a day of the month. */
  lemma GridCoversMonth(d: CalendarDate, k: int)
    requires 1 <= k <= DaysInMonth(d.year, d.month)
    ensures var off := Weekday(FirstOfMonth(d)) + k - 1;
      CellDate(d, off / 7, off % 7) == Date(d.year, d.month, k) &&
      off % 7 == Weekday(Date(d.year, d.month, k)) &&
      0 <= off / 7 < GridRequiredRows(d) &&
      (k == 1 ==> off / 7 == 0) &&
      (k == DaysInMonth(d.year, d.month) ==> off / 7 == GridRequiredRows(d) - 1)
  {
    var first := FirstOfMonth(d);
    var off := Weekday(first) + k - 1;
    var row, col := off / 7, off % 7;
    CellOrdinal(d, row, col);
    var day: CalendarDate := Date(d.year, d.month, k);
    assert Ordinal(day) == Ordinal(first) + k - 1;
    OrdinalInjective(CellDate(d, row, col), day);
    GridStartsMonday(d);
    AddDaysWeekday(GridStart(d), 7 * row + col);
    SameWeekday(col, row);
    WeekRows(Weekday(first), k, DaysInMonth(d.year, d.month));
  }

  /** Day k of an n-day month whose 1st falls on weekday wd is on week
      `(wd + k - 1) / 7` of `ceil((wd + n) / 7)`. */
  lemma WeekRows(wd: int, k: int, n: int)
    requires 0 <= wd < 7 && 1 <= k <= n
    ensures 0 <= (wd + k - 1) / 7 < (wd + n + 6) / 7
    ensures k == 1 ==> (wd + k - 1) / 7 == 0
    ensures k == n ==> (wd + k - 1) / 7 == (wd + n + 6) / 7 - 1
  {
    var a, b := wd + k - 1, wd + n - 1;
    assert (b + 7) / 7 == b / 7 + 1;
    assert a / 7 <= b / 7 by {
      assert a == 7 * (a / 7) + a % 7;
      assert b == 7 * (b / 7) + b % 7;
    }
  }

  /** `len(weeks[:h])`: how many weeks a grid of h rows shows. */
  function VisibleWeeks(h: int, d: CalendarDate): (n: nat)
    ensures n <= GridRequiredRows(d)
    ensures h >= GridRequiredRows(d) ==> n == GridRequiredRows(d)
    ensures 0 <= h <= GridRequiredRows(d) ==> n == h
  {
    var total := GridRequiredRows(d);
    if h >= 0 then Min(h, total) else Max(0, total + h)
  }

  /** `cell_w`: seven columns when the screen has room for seven cells of
      seven, otherwise the widest cell of at least four that lets the
      seven fit, and four when even that does not. */
  function CellWidth(w: int): (c: int)
    ensures 4 <= c <= 7
    ensures 49 <= w <==> c == 7
    ensures 28 <= w ==> 7 * c <= w
    ensures 28 <= w < 49 ==> w < 7 * (c + 1)
    ensures w < 28 ==> c == 4
  {
    if 7 * 7 > w then Max(4, w / 7) else 7
  }

  /** `f"{day:2d}"`. */
  function DayLabel(day: nat): (s: string)
    ensures day < 100 ==> |s| == 2
    ensures day >= 10 ==> s == NatToString(day)
    ensures day < 10 ==> s == " " + NatToString(day)
  {
    NatToStringShort(day);
    RJust(NatToString(day), 2)
  }

  /** A number below 100 has at most two digits. */
  lemma NatToStringShort(n: nat)
    ensures n < 10 ==> |NatToString(n)| == 1
    ensures 10 <= n < 100 ==> |NatToString(n)| == 2
  {
  }

  /** The text of a day cell: the day, then the event count (capped at 99)
      in parentheses when the day has events and the cell is seven wide,
      all cut to the cell. */
  function CellText(day: nat, count: nat, cellW: int): (t: string)
    requires 1 <= day <= 31
    ensures cellW >= 7 && count > 0 ==> t == DayLabel(day) + "(" + NatToString(Min(count, 99)) + ")"
    ensures cellW >= 2 && (cellW < 7 || count == 0) ==> t == DayLabel(day)
    ensures |t| <= 6 && (cellW >= 0 ==> |t| <= cellW)
  {
    NatToStringShort(Min(count, 99));
    var suffix := if count > 0 && cellW >= 7 then "(" + NatToString(Min(count, 99)) + ")" else "";
    SliceTo(DayLabel(day) + suffix, cellW)
  }

  /** The attributes of a day cell: bold for today, dim for a day of
      another month, reversed for the selected day. */
  function CellAttrs(day: CalendarDate, month: int, today: CalendarDate, selected: CalendarDate): (a: set<Attr>)
    ensures Bold in a <==> day == today
    ensures Dim in a <==> day.month != month
    ensures Reverse in a <==> day == selected
    ensures BoxColour !in a
  {
    (if day == today then {Bold} else {}) + (if day.month != month then {Dim} else {}) +
      (if day == selected then {Reverse} else {})
  }

  /** The cell of week `row`, column `col`, on a grid whose first week is
      drawn on screen row y. */
  function Cell(byDate: map<CalendarDate, seq<Event>>, selected: CalendarDate, today: CalendarDate,
                y: int, cellW: int, row: int, col: int): (p: Put)
    ensures var day := CellDate(selected, row, col);
      p.row == y + row && p.col == col * cellW && p.limit == cellW &&
      p.text == CellText(day.day, |EventsOn(byDate, day)|, cellW) &&
      p.attrs == CellAttrs(day, selected.month, today, selected)
  {
    var day := CellDate(selected, row, col);
    Put(y + row, col * cellW, CellText(day.day, |EventsOn(byDate, day)|, cellW), cellW,
      CellAttrs(day, selected.month, today, selected))
  }

  /** `_draw_grid(y, h, w, selected_date)`, with `date.today()` passed in:
      the seven cells of each visible week, week by week. */
  method DrawGrid(byDate: map<CalendarDate, seq<Event>>, y: int, h: int, w: int,
                  selected: CalendarDate, today: CalendarDate) returns (drawn: seq<Put>)
    ensures |drawn| == 7 * VisibleWeeks(h, selected)
    ensures forall row, col :: 0 <= row < VisibleWeeks(h, selected) && 0 <= col < 7 ==>
      drawn[7 * row + col] == Cell(byDate, selected, today, y, CellWidth(w), row, col)
  {
    var cellW := CellWidth(w);
    var weeks := VisibleWeeks(h, selected);
    drawn := [];
    var row := 0;
    while row < weeks
      invariant 0 <= row <= weeks
      invariant |drawn| == 7 * row
      invariant forall r, c :: 0 <= r < row && 0 <= c < 7 ==> drawn[7 * r + c] == Cell(byDate, selected, today, y, cellW, r, c)
    {
      var week := DrawWeek(byDate, y, cellW, selected, today, row);
      GridSnocWeek(drawn, week, byDate, selected, today, y, cellW, row);
      drawn := drawn + week;
      row := row + 1;
    }
  }

  /** Appending week `row` to the first `row` weeks keeps every cell in its
      place. */
  lemma GridSnocWeek(drawn: seq<Put>, week: seq<Put>, byDate: map<CalendarDate, seq<Event>>,
                     selected: CalendarDate, today: CalendarDate, y: int, cellW: int, row: int)
    requires |drawn| == 7 * row
    requires forall r, c :: 0 <= r < row && 0 <= c < 7 ==> drawn[7 * r + c] == Cell(byDate, selected, today, y, cellW, r, c)
    requires |week| == 7 && forall col :: 0 <= col < 7 ==> week[col] == Cell(byDate, selected, today, y, cellW, row, col)
    ensures forall r, c :: 0 <= r < row + 1 && 0 <= c < 7 ==>
      (drawn + week)[7 * r + c] == Cell(byDate, selected, today, y, cellW, r, c)
  {
    forall r, c | 0 <= r < row + 1 && 0 <= c < 7
      ensures (drawn + week)[7 * r + c] == Cell(byDate, selected, today, y, cellW, r, c)
    {
      if r < row {
        assert (drawn + week)[7 * r + c] == drawn[7 * r + c];
      } else {
        assert (drawn + week)[7 * r + c] == week[c];
      }
    }
  }

  /** The inner loop of `_draw_grid`: the seven cells of week `row`. */
  method DrawWeek(byDate: map<CalendarDate, seq<Event>>, y: int, cellW: int,
                  selected: CalendarDate, today: CalendarDate, row: int) returns (cells: seq<Put>)
    ensures |cells| == 7
    ensures forall col :: 0 <= col < 7 ==> cells[col] == Cell(byDate, selected, today, y, cellW, row, col)
  {
    cells := [];
    var col := 0;
    while col < 7
      invariant 0 <= col <= 7
      invariant |cells| == col
      invariant forall c :: 0 <= c < col ==> cells[c] == Cell(byDate, selected, today, y, cellW, row, c)
    {
      WeekSnocCell(cells, byDate, selected, today, y, cellW, row);
      cells := cells + [Cell(byDate, selected, today, y, cellW, row, col)];
      col := col + 1;
    }
  }

  /** One more cell keeps the cells drawn so far. */
  lemma WeekSnocCell(cells: seq<Put>, byDate: map<CalendarDate, seq<Event>>,
                     selected: CalendarDate, today: CalendarDate, y: int, cellW: int, row: int)
    requires forall c :: 0 <= c < |cells| ==> cells[c] == Cell(byDate, selected, today, y, cellW, row, c)
    ensures var next := cells + [Cell(byDate, selected, today, y, cellW, row, |cells|)];
      forall c :: 0 <= c < |next| ==> next[c] == Cell(byDate, selected, today, y, cellW, row, c)
  {
  }

  /** The day names of the header, Monday first. */
  const WeekdayNames: seq<string> := ["Mon", "Tue", "Wed", "Thu", "Fri", "Sat", "Sun"]

  /** A three-letter name fitted to a cell of at least four columns is the
      whole name padded with blanks. */
  lemma FitName(name: string, n: nat)
    requires |name| == 3 && n >= 4
    ensures Fit(name, n) == name + Spaces(n - 3)
  {
    assert forall i :: 0 <= i < n ==> Fit(name, n)[i] == (name + Spaces(n - 3))[i];
  }

  /** `_draw_weekday_header(y, x, w)`: the seven day names, each shown whole
      and padded to the cell width, dimmed; nothing on a screen without
      columns. */
  function WeekdayHeader(y: int, w: int): (r: seq<Put>)
    ensures w <= 0 ==> r == []
    ensures w > 0 ==> |r| == 7
    ensures forall i :: 0 <= i < |r| ==>
      r[i].row == y && r[i].col == i * CellWidth(w) && |r[i].text| == CellWidth(w) && r[i].attrs == {Dim}
    ensures forall i :: 0 <= i < |r| ==>
      r[i].text == WeekdayNames[i] + Spaces(CellWidth(w) - 3) && r[i].limit == CellWidth(w)
  {
    var cellW := CellWidth(w);
    if w <= 0 then []
    else
      assert forall i :: 0 <= i < 7 ==> Fit(WeekdayNames[i], cellW) == WeekdayNames[i] + Spaces(cellW - 3) by {
        forall i | 0 <= i < 7
          ensures Fit(WeekdayNames[i], cellW) == WeekdayNames[i] + Spaces(cellW - 3)
        {
          FitName(WeekdayNames[i], cellW);
        }
      }
      seq(7, i requires 0 <= i < 7 => Put(y, i * cellW, Fit(WeekdayNames[i], cellW), cellW, {Dim}))
  }

  // ---------------------------------------------------------------------
  // The row split of `render`

  /** Rows given to the grid (its header included) and to the events pane. */
  datatype Split = Split(gridRows: int, eventsRows: int)

  /** The row split of `render` on an h by w screen: nothing below the title
      when the body, the width or the room under the title is empty;
      otherwise the grid takes the rows it needs as long as the events pane
      keeps at least three (or every row, on a screen with fewer), and the
      pane takes the rest. */
  method Layout(h: int, w: int, selected: CalendarDate) returns (split: Option<Split>)
    ensures split.None? <==> h - 1 <= 0 || w <= 0 || h - 3 <= 0
    ensures split.Some? ==> var s := split.value; var avail := h - 3;
      s.gridRows + s.eventsRows == avail && 0 <= s.gridRows <= GridRequiredRows(selected) + 1 &&
      s.eventsRows >= Min(3, avail) &&
      (s.gridRows == GridRequiredRows(selected) + 1 || s.eventsRows == Min(3, avail))
  {
    var bodyH := h - 1;
    var bodyW := w;
    if bodyH <= 0 || bodyW <= 0 {
      return None;
    }
    var contentTop := 2;
    var availableH := bodyH - contentTop;
    if availableH <= 0 {
      return None;
    }
    var gridNeededRows := GridRequiredRows(selected) + 1;
    var minEventsRows := if availableH >= 3 then 3 else availableH;
    var gridRows := Min(gridNeededRows, Max(availableH - minEventsRows, 0));
    var eventsRows := availableH - gridRows;
    if eventsRows < minEventsRows && availableH >= minEventsRows {
      eventsRows := minEventsRows;
      gridRows := Max(availableH - eventsRows, 0);
    }
    if eventsRows <= 0 {
      eventsRows := Min(availableH, minEventsRows);
      gridRows := Max(availableH - eventsRows, 0);
    }
    split := Some(Split(gridRows, eventsRows));
  }

  const MonthNames := ["January", "February", "March", "April", "May", "June", "July",
    "August", "September", "October", "November", "December"]

  /** `f"{calendar.month_name[d.month]}, {d.year}"`. */
  function MonthTitleText(d: CalendarDate): string
  {
    MonthNames[d.month - 1] + ", " + IntToString(d.year)
  }

  /** The title row of `render`, cut to `w - 1` columns. */
  function MonthTitle(d: CalendarDate, w: int): (p: Put)
    ensures p.row == 0 && p.col == 0 && p.limit == Max(0, w - 1)
    ensures |p.text| == Min(Max(0, w - 1), |MonthTitleText(d)|)
    ensures p.text == MonthTitleText(d)[..|p.text|]
  {
    Put(0, 0, SliceTo(MonthTitleText(d), Max(0, w - 1)), Max(0, w - 1), {})
  }

  // ---------------------------------------------------------------------
  // The events pane

  /** `date.isoformat()`: the year padded to four digits. */
  function IsoFormat(d: CalendarDate): string
  {
    (if 0 <= d.year < 10000 then ZeroPad(d.year, 4) else IntToString(d.year)) + "-" +
      ZeroPad(d.month, 2) + "-" + ZeroPad(d.day, 2)
  }

  /** The pane's bold title, `Events YYYY-MM-DD` cut or padded to `w - 1`
      columns. */
  function PaneTitle(y: int, w: int, d: CalendarDate): (p: Put)
    ensures p.row == y && p.col == 0 && p.limit == Max(0, w - 1) && |p.text| == Max(0, w - 1) && p.attrs == {Bold}
  {
    Put(y, 0, Fit("Events " + IsoFormat(d), Max(0, w - 1)), Max(0, w - 1), {Bold})
  }

  /** The text of an event in the pane, `HH:MM event`. */
  function PaneLine(ev: Event): string
  {
    FormatHourMinute(ev.datetime) + " " + ev.event
  }

  /** Line i of the pane, on the row under the title, cut or padded to the
      usable width and reversed when the pane has the focus and i is the
      selected index. */
  function PaneRow(lines: seq<string>, y: int, usableW: nat, eventsFocused: bool, selected: int, i: nat): (p: Put)
    requires i < |lines|
    ensures p.row == y + 1 + i && p.col == 0 && p.limit == usableW && |p.text| == usableW
    ensures Reverse in p.attrs <==> eventsFocused && i == selected
  {
    Put(y + 1 + i, 0, Fit(lines[i], usableW), usableW, if eventsFocused && i == selected then {Reverse} else {})
  }

  /** `_draw_events_pane(y, x=0, h, w, d, focus, idx)` with the day's bucket
      looked up: nothing for a day without events; otherwise a bold title
      and then at most `h - 1` of the day's events, the one at the clamped
      index reversed when the pane has the focus. */
  method DrawEventsPane(bucket: seq<Event>, y: int, h: int, w: int, d: CalendarDate,
                        eventsFocused: bool, selectedIdx: int) returns (drawn: seq<Put>)
    ensures |bucket| == 0 ==> drawn == []
    ensures |bucket| > 0 ==> |drawn| >= 1 && drawn[0] == PaneTitle(y, w, d)
    ensures |bucket| > 0 ==> |drawn| == 1 + (if w - 1 <= 0 || h - 1 <= 0 then 0 else Min(h - 1, |bucket|))
    ensures forall i :: 0 <= i < |drawn| - 1 ==>
      i < |bucket| && drawn[1..][i] == PaneRow(Seqs.Map(bucket, PaneLine), y, Max(0, w - 1), eventsFocused, Clamp(selectedIdx, 0, |bucket| - 1), i)
  {
    if |bucket| == 0 {
      return [];
    }
    var usableW := Max(0, w - 1);
    var title := PaneTitle(y, w, d);
    var bodyH := h - 1;
    if usableW == 0 || bodyH <= 0 {
      return [title];
    }
    var selected := Clamp(selectedIdx, 0, Max(0, |bucket| - 1));
    var lines := Seqs.Map(bucket, PaneLine);
    var rows := DrawPaneRows(lines, y, usableW, Min(bodyH, |bucket|), eventsFocused, selected);
    drawn := [title] + rows;
    assert drawn[1..] == rows;
  }

  /** The loop of `_draw_events_pane`: the first `count` lines of the day,
      row after row. */
  method DrawPaneRows(lines: seq<string>, y: int, usableW: nat, count: nat, eventsFocused: bool, selected: int)
    returns (rows: seq<Put>)
    requires count <= |lines|
    ensures |rows| == count
    ensures forall i :: 0 <= i < count ==> rows[i] == PaneRow(lines, y, usableW, eventsFocused, selected, i)
  {
    rows := [];
    var idx := 0;
    while idx < count
      invariant 0 <= idx <= count
      invariant |rows| == idx
      invariant forall i :: 0 <= i < idx ==> rows[i] == PaneRow(lines, y, usableW, eventsFocused, selected, i)
    {
      PaneRowsSnoc(rows, lines, y, usableW, eventsFocused, selected);
      rows := rows + [PaneRow(lines, y, usableW, eventsFocused, selected, idx)];
      idx := idx + 1;
    }
  }

  /** One more row keeps the rows drawn so far. */
  lemma PaneRowsSnoc(rows: seq<Put>, lines: seq<string>, y: int, usableW: nat, eventsFocused: bool, selected: int)
    requires |rows| < |lines|
    requires forall i :: 0 <= i < |rows| ==> rows[i] == PaneRow(lines, y, usableW, eventsFocused, selected, i)
    ensures var next := rows + [PaneRow(lines, y, usableW, eventsFocused, selected, |rows|)];
      forall i :: 0 <= i < |next| ==> next[i] == PaneRow(lines, y, usableW, eventsFocused, selected, i)
  {
  }
}
