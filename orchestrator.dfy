/** The key-driven state machine of the curses UI (orchestrator.py). Each
    handler is specified by a function from the view state before the key
    to the view state after it and what the handler returns; the class
    `Orchestrator` below performs the updates in place on an `AppState`
    and is proved against those functions; where a handler as written
    misbehaves, the class follows the corrected function, and the
    as-written one is kept beside it. The clock, the
    deletion the calendar service performs and the external editor's answer
    come in as an `Env`. */
module Orchestrator {
  import opened Common
  import opened Text
  import opened Dates
  import opened Models
  import opened UiBase
  import opened Store
  import opened State
  import opened Keys
  import ViewAgenda
  import ViewMonth
  import CalendarService

  const LeaderTimeoutMs := 1000
  const DeleteTimeoutMs := 600
  const SeededDefaultTime := "09:00:00"

  /** What a handler gives back: whether the screen is to be redrawn, or
      the exception that escapes it and ends the program. */
  datatype Outcome = Handled(redraw: bool) | Raised(error: string)

  const IndexErrorText := "IndexError: list index out of range"

  /** What the calendar service's deletion does: the new list, or the
      message of the StorageError it raises. */
  datatype Removal = Removed(events: seq<Event>) | StorageFailed(message: string)

  /** What `_edit_or_create` hands to the editor: a lone event when there is
      exactly one seed, the list otherwise. */
  datatype Payload = OneEvent(event: Event) | EventList(events: seq<Event>)

  /** `edit_event_via_editor`'s `(ok, events | message)`. */
  datatype EditorResult = Edited(events: seq<Event>) | EditorFailed(message: string)

  /** What a key handler reads from outside the program: the clock in
      milliseconds and as a datetime, today's date, the deletion and the
      editor. */
  datatype Env = Env(
    nowMs: int,
    now: Timestamp,
    today: CalendarDate,
    delete: (seq<Event>, Event) -> Removal,
    editor: Payload -> EditorResult)

  /** The state the handlers read and write: the `AppState` fields, the
      leader's, and the `_pending_delete` entries. */
  datatype Ui = Ui(
    view: View,
    leaderActive: bool,
    leaderStartedAt: Option<int>,
    overlay: Overlay,
    message: string,
    events: seq<Event>,
    agendaIndex: nat,
    agendaScroll: int,
    monthFocus: Focus,
    monthDate: CalendarDate,
    monthIndex: nat,
    pendingActive: bool,
    pendingStartedAt: int,
    pendingView: View)

  /** A handler's new state and its outcome. */
  datatype Step = Step(ui: Ui, outcome: Outcome)

  /** The agenda selection points at an event, or is 0 on an empty list. */
  predicate AgendaIndexValid(u: Ui)
  {
    u.agendaIndex == 0 || u.agendaIndex < |u.events|
  }

  // ---------------------------------------------------------------------
  // Timeouts

  /** `_maybe_timeout_leader(now_ms)`: the leader is dropped when it has a
      start time other than 0 and more than 1000 ms have passed since. */
  function LeaderTimedOut(u: Ui, nowMs: int): (r: Ui)
    ensures r == u.(leaderActive := r.leaderActive)
    ensures r.leaderActive <==> (u.leaderActive &&
      !(u.leaderStartedAt.Some? && u.leaderStartedAt.value != 0 && nowMs - u.leaderStartedAt.value > LeaderTimeoutMs))
  {
    if u.leaderActive && u.leaderStartedAt.Some? && u.leaderStartedAt.value != 0 then
      if nowMs - u.leaderStartedAt.value > LeaderTimeoutMs then u.(leaderActive := false) else u
    else u
  }

  /** `_maybe_timeout_delete(now_ms)`: an armed delete is dropped more than
      600 ms after the first `d`. */
  function DeleteTimedOut(u: Ui, nowMs: int): (r: Ui)
    ensures r == u.(pendingActive := r.pendingActive)
    ensures r.pendingActive <==> u.pendingActive && nowMs - u.pendingStartedAt <= DeleteTimeoutMs
  {
    if u.pendingActive && nowMs - u.pendingStartedAt > DeleteTimeoutMs then u.(pendingActive := false) else u
  }

  // ---------------------------------------------------------------------
  // The selected day's events

  /** `_month_events_for_selected_date()` as written: the selected day's
      events in list order. */
  function MonthEventsAsWritten(u: Ui): (r: seq<Event>)
    ensures multiset(r) == multiset(MonthEvents(u))
    ensures forall e :: e in r <==> e in u.events && e.datetime.date == u.monthDate
  {
    var r := ViewMonth.OnDate(u.events, u.monthDate);
    SortByPermutes(ByDatetime, r);
    ViewMonth.OnDateCounts(u.events, u.monthDate);
    assert forall e :: e in r <==> multiset(r)[e] > 0;
    r
  }

  /** The selected day's events in the order the events pane lists and
      highlights them: `_month_events_for_selected_date()` corrected to sort
      by datetime as `events_by_date` does. */
  function MonthEvents(u: Ui): (r: seq<Event>)
    ensures r == ViewMonth.EventsOn(ViewMonth.Grouped(u.events), u.monthDate)
  {
    ViewMonth.GroupedBuckets(u.events, u.monthDate);
    SortBy(ByDatetime, ViewMonth.OnDate(u.events, u.monthDate))
  }

  // ---------------------------------------------------------------------
  // Delete

  /** The event `_perform_delete` picks, if any; in the agenda an index
      past the end is an IndexError. */
  datatype Target = NoTarget | OutOfRange | Chosen(event: Event)

  /** The selection `_perform_delete` deletes, over a given list of the
      selected day's events. */
  function TargetIn(u: Ui, monthEvents: seq<Event>): (t: Target)
    ensures t.NoTarget? <==>
      (u.view.Agenda? && |u.events| == 0) || (u.view.Month? && (u.monthFocus.Grid? || |monthEvents| == 0))
    ensures t.OutOfRange? <==> u.view.Agenda? && 0 < |u.events| <= u.agendaIndex
    ensures t.Chosen? && u.view.Agenda? ==> t.event == u.events[u.agendaIndex]
    ensures t.Chosen? && u.view.Month? ==> |monthEvents| > 0 && t.event == monthEvents[Min(u.monthIndex, |monthEvents| - 1)]
  {
    if u.view.Agenda? then
      if |u.events| == 0 then NoTarget
      else if u.agendaIndex < |u.events| then Chosen(u.events[u.agendaIndex])
      else OutOfRange
    else if u.monthFocus.EventsPane? then
      if |monthEvents| == 0 then NoTarget
      else Chosen(monthEvents[Min(u.monthIndex, |monthEvents| - 1)])
    else NoTarget
  }

  /** Lines 309-319 as written: the new list is installed; in the agenda the
      index is held on it; in the month view only the month index is. */
  function AfterDeleteAsWritten(u: Ui, newEvents: seq<Event>): (r: Ui)
    ensures r.events == newEvents && r.view == u.view && r.monthDate == u.monthDate
    ensures u.view.Month? ==> r.agendaIndex == u.agendaIndex
  {
    var v := u.(events := newEvents);
    if u.view.Agenda? then v.(agendaIndex := Max(0, Min(u.agendaIndex, |newEvents| - 1)))
    else v.(monthIndex := Min(u.monthIndex, Max(|MonthEventsAsWritten(v)| - 1, 0)))
  }

  /** Lines 309-319 corrected: the agenda index is held on the new list in
      both views, since the agenda shows the same list. */
  function AfterDelete(u: Ui, newEvents: seq<Event>): (r: Ui)
    ensures r == u.(events := newEvents, agendaIndex := r.agendaIndex, monthIndex := r.monthIndex)
    ensures r.agendaIndex == Max(0, Min(u.agendaIndex, |newEvents| - 1)) && AgendaIndexValid(r)
    ensures u.view.Agenda? ==> r.monthIndex == u.monthIndex
    ensures u.view.Month? ==> r.monthIndex == Min(u.monthIndex, Max(|MonthEvents(r)| - 1, 0))
  {
    var v := u.(events := newEvents, agendaIndex := Max(0, Min(u.agendaIndex, |newEvents| - 1)));
    if u.view.Agenda? then v
    else v.(monthIndex := Min(u.monthIndex, Max(|MonthEvents(v)| - 1, 0)))
  }

  /** `_perform_delete()`, corrected: the month view deletes the event the
      events pane highlights, and the agenda index is held on the new list
      in both views. */
  function DeletePerformed(u: Ui, delete: (seq<Event>, Event) -> Removal): (s: Step)
  {
    match TargetIn(u, MonthEvents(u))
    case NoTarget => Step(u, Handled(false))
    case OutOfRange => Step(u, Raised(IndexErrorText))
    case Chosen(target) =>
      match delete(u.events, target)
      case StorageFailed(m) => Step(u.(overlay := ErrorOverlay, message := "Storage error: " + m), Handled(true))
      case Removed(newEvents) => Step(AfterDelete(u, newEvents), Handled(true))
  }

  /** `_perform_delete()` as written. */
  function DeletePerformedAsWritten(u: Ui, delete: (seq<Event>, Event) -> Removal): (s: Step)
  {
    match TargetIn(u, MonthEventsAsWritten(u))
    case NoTarget => Step(u, Handled(false))
    case OutOfRange => Step(u, Raised(IndexErrorText))
    case Chosen(target) =>
      match delete(u.events, target)
      case StorageFailed(m) => Step(u.(overlay := ErrorOverlay, message := "Storage error: " + m), Handled(true))
      case Removed(newEvents) => Step(AfterDeleteAsWritten(u, newEvents), Handled(true))
  }

  /** `_handle_delete_key(ch)`'s new state and its result; `None` lets the
      key through to the other handlers. */
  datatype DeleteKeyStep = DeleteKeyStep(ui: Ui, result: Option<Outcome>)

  /** `_handle_delete_key(ch)`: any other key disarms and passes; a `d`
      within 600 ms of an armed one disarms and deletes; any other `d` arms
      and reports no redraw. */
  function DeleteKeyHandled(u: Ui, ch: int, nowMs: int, delete: (seq<Event>, Event) -> Removal): (r: DeleteKeyStep)
    ensures ch != KeyD <==> r.result.None?
    ensures ch != KeyD ==> r.ui == u.(pendingActive := false)
    ensures ch == KeyD && !(u.pendingActive && nowMs - u.pendingStartedAt <= DeleteTimeoutMs) ==>
      r == DeleteKeyStep(u.(pendingActive := true, pendingStartedAt := nowMs, pendingView := u.view), Some(Handled(false)))
    ensures ch == KeyD && u.pendingActive && nowMs - u.pendingStartedAt <= DeleteTimeoutMs ==>
      var s := DeletePerformed(u.(pendingActive := false), delete); r == DeleteKeyStep(s.ui, Some(s.outcome))
  {
    if ch != KeyD then DeleteKeyStep(u.(pendingActive := false), None)
    else if u.pendingActive && nowMs - u.pendingStartedAt <= DeleteTimeoutMs then
      var s := DeletePerformed(u.(pendingActive := false), delete);
      DeleteKeyStep(s.ui, Some(s.outcome))
    else
      DeleteKeyStep(u.(pendingActive := true, pendingStartedAt := nowMs, pendingView := u.view), Some(Handled(false)))
  }

  // ---------------------------------------------------------------------
  // Agenda keys

  /** The forward scan of `_agenda_jump_day`: the first index from `from`
      on whose day is after `day`. */
  function FirstLaterDay(events: seq<Event>, from: nat, day: CalendarDate): (r: Option<nat>)
    ensures r.Some? ==> from <= r.value < |events| && DateBefore(day, events[r.value].datetime.date)
    ensures r.Some? ==> forall j :: from <= j < r.value ==> !DateBefore(day, events[j].datetime.date)
    ensures r.None? ==> forall j :: from <= j < |events| ==> !DateBefore(day, events[j].datetime.date)
    decreases |events| - from
  {
    if from >= |events| then None
    else if DateBefore(day, events[from].datetime.date) then Some(from)
    else FirstLaterDay(events, from + 1, day)
  }

  /** The backward scan of `_agenda_jump_day`: the last index below `below`
      whose day is before `day`. */
  function LastEarlierDay(events: seq<Event>, below: nat, day: CalendarDate): (r: Option<nat>)
    requires below <= |events|
    ensures r.Some? ==> r.value < below && DateBefore(events[r.value].datetime.date, day)
    ensures r.Some? ==> forall j :: r.value < j < below ==> !DateBefore(events[j].datetime.date, day)
    ensures r.None? ==> forall j :: 0 <= j < below ==> !DateBefore(events[j].datetime.date, day)
  {
    if below == 0 then None
    else if DateBefore(events[below - 1].datetime.date, day) then Some(below - 1)
    else LastEarlierDay(events, below - 1, day)
  }

  /** `next((i for i, ev in enumerate(events) if ev.datetime.date() == day),
      default)`, scanning from `from`. */
  function FirstOnDay(events: seq<Event>, day: CalendarDate, from: nat, default: nat): (r: nat)
    ensures r == default || (from <= r < |events| && events[r].datetime.date == day)
    ensures forall j :: from <= j < |events| && j < r ==> events[j].datetime.date != day
    ensures (exists j :: from <= j < |events| && events[j].datetime.date == day) ==>
      from <= r < |events| && events[r].datetime.date == day
    decreases |events| - from
  {
    if from >= |events| then default
    else if events[from].datetime.date == day then from
    else FirstOnDay(events, day, from + 1, default)
  }

  /** `_agenda_jump_day(direction)`: nothing on an empty list; otherwise,
      backwards, the first event of the day of the nearest earlier event on
      an earlier day, and forwards, the nearest later event on a later day;
      nothing when there is none. */
  function AgendaDayJumped(u: Ui, direction: int): (s: Step)
  {
    if |u.events| == 0 then Step(u, Handled(false))
    else if u.agendaIndex >= |u.events| then Step(u, Raised(IndexErrorText))
    else
      var day := u.events[u.agendaIndex].datetime.date;
      if direction < 0 then
        match LastEarlierDay(u.events, u.agendaIndex, day)
        case None => Step(u, Handled(false))
        case Some(idx) =>
          Step(u.(agendaIndex := FirstOnDay(u.events, u.events[idx].datetime.date, 0, idx)), Handled(true))
      else
        match FirstLaterDay(u.events, u.agendaIndex + 1, day)
        case None => Step(u, Handled(false))
        case Some(idx) => Step(u.(agendaIndex := idx), Handled(true))
  }

  /** `_handle_agenda_keys(ch)`. */
  function AgendaKeysHandled(u: Ui, ch: int): (s: Step)
  {
    if ch == KeyJ then Step(u.(agendaIndex := ViewAgenda.MoveSelection(u.events, u.agendaIndex, 1)), Handled(true))
    else if ch == KeyK then Step(u.(agendaIndex := ViewAgenda.MoveSelection(u.events, u.agendaIndex, -1)), Handled(true))
    else if ch == KeyH then AgendaDayJumped(u, -1)
    else if ch == KeyL then AgendaDayJumped(u, 1)
    else Step(u, Handled(false))
  }

  // ---------------------------------------------------------------------
  // Month keys

  /** A move of the grid cursor: the new day, with the month index back at 0. */
  function GridMoved(u: Ui, d: CalendarDate): Step
  {
    Step(u.(monthDate := d, monthIndex := 0), Handled(true))
  }

  /** `_handle_month_keys(ch)`: the grid keys or the events-pane keys,
      after the focus. */
  function MonthKeysHandled(u: Ui, ch: int): (s: Step)
  {
    if u.monthFocus.Grid? then GridKeysHandled(u, ch) else PaneKeysHandled(u, ch)
  }

  /** The day a grid key moves the cursor to: Ctrl-H and Ctrl-L a month,
      `h` and `l` a day, `j` and `k` a week. */
  function GridMove(d: CalendarDate, ch: int): (r: Option<CalendarDate>)
    ensures r.Some? <==> ch in {KeyCtrlH, KeyCtrlL, KeyH, KeyL, KeyJ, KeyK}
    ensures ch == KeyH || ch == KeyL ==> r.Some? && Ordinal(r.value) == Ordinal(d) + (if ch == KeyH then -1 else 1)
    ensures ch == KeyJ || ch == KeyK ==> r.Some? && Ordinal(r.value) == Ordinal(d) + (if ch == KeyK then -7 else 7)
    ensures ch == KeyCtrlH || ch == KeyCtrlL ==>
      r.Some? && 12 * r.value.year + r.value.month == 12 * d.year + d.month + (if ch == KeyCtrlH then -1 else 1)
  {
    if ch == KeyCtrlH then Some(ViewMonth.MoveMonth(d, -1))
    else if ch == KeyCtrlL then Some(ViewMonth.MoveMonth(d, 1))
    else if ch == KeyH then Some(ViewMonth.MoveDay(d, -1))
    else if ch == KeyL then Some(ViewMonth.MoveDay(d, 1))
    else if ch == KeyJ then Some(ViewMonth.MoveWeek(d, 1))
    else if ch == KeyK then Some(ViewMonth.MoveWeek(d, -1))
    else None
  }

  /** The grid branch of `_handle_month_keys`: a move resets the pane
      selection; Tab enters the events pane when the day has events, with
      the selection held on them. */
  function GridKeysHandled(u: Ui, ch: int): (s: Step)
    ensures s.ui == u.(monthDate := s.ui.monthDate, monthIndex := s.ui.monthIndex, monthFocus := s.ui.monthFocus)
    ensures s.ui.monthFocus.EventsPane? <==> u.monthFocus.EventsPane? || (ch == KeyTab && |MonthEvents(u)| > 0)
    ensures u.monthFocus.Grid? && s.ui.monthFocus.EventsPane? ==>
      s.ui.monthDate == u.monthDate && s.ui.monthIndex < |MonthEvents(u)|
    ensures s.outcome == Handled(ch in {KeyCtrlH, KeyCtrlL, KeyH, KeyL, KeyJ, KeyK} || (ch == KeyTab && |MonthEvents(u)| > 0))
    ensures GridMove(u.monthDate, ch).Some? ==> s.ui == u.(monthDate := GridMove(u.monthDate, ch).value, monthIndex := 0)
    ensures ch == KeyTab && |MonthEvents(u)| > 0 ==>
      s.ui == u.(monthFocus := EventsPane, monthIndex := Clamp(u.monthIndex, 0, |MonthEvents(u)| - 1))
    ensures s.outcome == Handled(false) ==> s.ui == u
  {
    match GridMove(u.monthDate, ch)
    case Some(d) => GridMoved(u, d)
    case None =>
      if ch == KeyTab && |MonthEvents(u)| > 0 then
        Step(u.(monthFocus := EventsPane,
                monthIndex := ViewMonth.ClampEventIndex(ViewMonth.Grouped(u.events), u.monthDate, u.monthIndex)), Handled(true))
      else Step(u, Handled(false))
  }

  /** The events-pane branch of `_handle_month_keys`: Ctrl-H and Ctrl-L
      move a month, back to the first event or to the grid on a day without
      events; `j` and `k` move the selection within the day's events; Tab
      does nothing. */
  function PaneKeysHandled(u: Ui, ch: int): (s: Step)
    ensures s.ui == u.(monthDate := s.ui.monthDate, monthIndex := s.ui.monthIndex, monthFocus := s.ui.monthFocus)
    ensures u.monthFocus.EventsPane? && u.monthIndex < |MonthEvents(u)| && s.ui.monthFocus.EventsPane? ==>
      s.ui.monthIndex < |ViewMonth.EventsOn(ViewMonth.Grouped(u.events), s.ui.monthDate)|
    ensures s.outcome == Handled(ch in {KeyCtrlH, KeyCtrlL, KeyJ, KeyK})
    ensures ch in {KeyCtrlH, KeyCtrlL} ==>
      s.ui.monthDate == ViewMonth.MoveMonth(u.monthDate, if ch == KeyCtrlH then -1 else 1) && s.ui.monthIndex == 0 &&
      s.ui.monthFocus == (if |ViewMonth.EventsOn(ViewMonth.Grouped(u.events), s.ui.monthDate)| == 0 then Grid else u.monthFocus)
    ensures ch in {KeyJ, KeyK} ==>
      s.ui == u.(monthIndex := ViewMonth.ClampEventIndex(ViewMonth.Grouped(u.events), u.monthDate,
                                                         u.monthIndex + (if ch == KeyJ then 1 else -1)))
    ensures s.outcome == Handled(false) ==> s.ui == u
  {
    var byDate := ViewMonth.Grouped(u.events);
    if ch == KeyTab then Step(u, Handled(false))
    else if ch == KeyCtrlH || ch == KeyCtrlL then
      var d := ViewMonth.MoveMonth(u.monthDate, if ch == KeyCtrlH then -1 else 1);
      var v := u.(monthDate := d, monthIndex := 0);
      if |ViewMonth.EventsOn(byDate, d)| == 0 then Step(v.(monthFocus := Grid), Handled(true))
      else Step(v, Handled(true))
    else if ch == KeyJ then
      Step(u.(monthIndex := ViewMonth.ClampEventIndex(byDate, u.monthDate, u.monthIndex + 1)), Handled(true))
    else if ch == KeyK then
      Step(u.(monthIndex := ViewMonth.ClampEventIndex(byDate, u.monthDate, u.monthIndex - 1)), Handled(true))
    else Step(u, Handled(false))
  }

  // ---------------------------------------------------------------------
  // Today, Esc

  /** `_jump_today()`: the agenda selects `jump_to_today()`, the month view
      selects today with the month index at 0. */
  function TodayJumped(u: Ui, now: Timestamp, today: CalendarDate): (s: Step)
  {
    if u.view.Agenda? then Step(u.(agendaIndex := ViewAgenda.TodayIndex(u.events, now)), Handled(true))
    else GridMoved(u, today)
  }

  /** The Esc branch of `_handle_key`. */
  function Escaped(u: Ui): (r: Ui)
  {
    u.(monthFocus := if u.view.Month? && u.monthFocus.EventsPane? then Grid else u.monthFocus,
       overlay := NoOverlay, leaderActive := false, pendingActive := false)
  }

  // ---------------------------------------------------------------------
  // Editing

  /** The event `_seed_events_for_*` creates on day d: `parse_datetime` of
      the day at 09:00:00, with empty title and details. */
  function SeedEvent(d: CalendarDate): Result<Event>
  {
    match ParseDatetime(FormatDate(d) + " " + SeededDefaultTime)
    case Ok(t) => Ok(Event(t, "", ""))
    case Fail(f) => Fail(f)
  }

  /** For a four-digit year the seed is 09:00:00 on that day. A year printed
      with fewer digits does not parse, and the ValidationError escapes. */
  lemma SeedEventOnDay(d: CalendarDate)
    requires 1000 <= d.year <= 9999
    ensures SeedEvent(d) == Ok(Event(DateTime(d, 9, 0, 0), "", ""))
  {
    var t: Timestamp := DateTime(d, 9, 0, 0);
    assert FormatClock(t) == SeededDefaultTime by {
      assert ZeroPad(9, 2) == ZeroPad(0, 1) + "9";
      assert ZeroPad(0, 2) == ZeroPad(0, 1) + "0";
    }
    ParseDatetimeOfFormat(t);
  }

  /** `_seed_events_for_agenda(force_new)`. */
  function AgendaSeeds(u: Ui, forceNew: bool, today: CalendarDate): (r: Result<seq<Event>>)
    ensures r.Ok? ==> |r.value| == 1
  {
    if !forceNew && |u.events| > 0 && u.agendaIndex < |u.events| then Ok([u.events[u.agendaIndex]])
    else
      match SeedEvent(today)
      case Ok(e) => Ok([e])
      case Fail(f) => Fail(f)
  }

  /** `_seed_events_for_month(force_new, selected_only)` over the selected
      day's events. */
  function MonthSeeds(u: Ui, monthEvents: seq<Event>, forceNew: bool, selectedOnly: bool): (r: Result<seq<Event>>)
    ensures r.Ok? ==> |r.value| > 0
  {
    if !forceNew && |monthEvents| > 0 then
      if selectedOnly && u.monthIndex < |monthEvents| then Ok([monthEvents[u.monthIndex]]) else Ok(monthEvents)
    else
      match SeedEvent(u.monthDate)
      case Ok(e) => Ok([e])
      case Fail(f) => Fail(f)
  }

  /** What `_edit_or_create` prepares before the editor opens: the seeds,
      whether the edited events replace originals, and the originals. */
  datatype Plan = Plan(seeds: seq<Event>, allowOverwrite: bool, originals: seq<Event>)

  /** The plan over a given list of the selected day's events. In the
      month view, with the events pane focused on an event, the one seed is
      the event at the month index and it alone is replaced. */
  function EditPlanIn(u: Ui, monthEvents: seq<Event>, forceNew: bool, today: CalendarDate): (r: Result<Plan>)
    ensures r.Ok? ==> |r.value.seeds| > 0
    ensures r.Ok? && u.view.Agenda? ==> |r.value.originals| <= 1
    ensures u.view.Month? && !forceNew && u.monthFocus.EventsPane? && u.monthIndex < |monthEvents| ==>
      r == Ok(Plan([monthEvents[u.monthIndex]], true, [monthEvents[u.monthIndex]]))
  {
    if u.view.Agenda? then
      match AgendaSeeds(u, forceNew, today)
      case Fail(f) => Fail(f)
      case Ok(seeds) =>
        var allow := !forceNew && |u.events| > 0;
        Ok(Plan(seeds, allow, if allow && u.agendaIndex < |u.events| then [u.events[u.agendaIndex]] else []))
    else
      var selectSingle := !forceNew && u.monthFocus.EventsPane? && |monthEvents| > 0;
      match MonthSeeds(u, monthEvents, forceNew, selectSingle)
      case Fail(f) => Fail(f)
      case Ok(seeds) =>
        var allow := !forceNew && |monthEvents| > 0;
        var originals :=
          if selectSingle && u.monthIndex < |monthEvents| then [monthEvents[u.monthIndex]]
          else if allow then monthEvents
          else [];
        Ok(Plan(seeds, allow, originals))
  }

  /** `_edit_or_create`'s plan over the selected day's events in the order
      the events pane lists them. */
  function EditPlan(u: Ui, forceNew: bool, today: CalendarDate): (r: Result<Plan>)
    ensures r.Ok? ==> |r.value.seeds| > 0
    ensures r.Ok? && u.view.Agenda? ==> |r.value.originals| <= 1
    ensures u.view.Month? && !forceNew && u.monthFocus.EventsPane? && u.monthIndex < |MonthEvents(u)| ==>
      r == Ok(Plan([MonthEvents(u)[u.monthIndex]], true, [MonthEvents(u)[u.monthIndex]]))
  {
    EditPlanIn(u, MonthEvents(u), forceNew, today)
  }

  /** `_edit_or_create`'s plan as written, over the selected day's events
      in list order. */
  function EditPlanAsWritten(u: Ui, forceNew: bool, today: CalendarDate): (r: Result<Plan>)
    ensures r.Ok? ==> |r.value.seeds| > 0
    ensures u.view.Month? && !forceNew && u.monthFocus.EventsPane? && u.monthIndex < |MonthEventsAsWritten(u)| ==>
      r == Ok(Plan([MonthEventsAsWritten(u)[u.monthIndex]], true, [MonthEventsAsWritten(u)[u.monthIndex]]))
  {
    EditPlanIn(u, MonthEventsAsWritten(u), forceNew, today)
  }

  /** The payload choice of `_edit_or_create`. */
  function PayloadOf(seeds: seq<Event>): Payload
  {
    if |seeds| == 1 then OneEvent(seeds[0]) else EventList(seeds)
  }

  /** The upsert loop of `_edit_or_create`: the i-th edited event replaces
      the i-th original when there is one and is added otherwise. */
  function UpsertAll(events: seq<Event>, updated: seq<Event>, originals: seq<Event>): seq<Event>
    decreases |updated|
  {
    if |updated| == 0 then events
    else
      var n := |updated| - 1;
      var original := if n < |originals| then Some(originals[n]) else None;
      Upserted(UpsertAll(events, updated[..n], originals), updated[n], original.Some?, original)
  }

  /** The re-selection loop of `_edit_or_create`: the first index from
      `from` on whose event equals e on datetime, title and details, else
      `default`. */
  function FirstEqual(events: seq<Event>, e: Event, from: nat, default: nat): (r: nat)
    ensures r == default || (from <= r < |events| && events[r] == e)
    ensures forall j :: from <= j < |events| && j < r ==> events[j] != e
    ensures from <= |events| && e in events[from..] ==> from <= r < |events| && events[r] == e
    decreases |events| - from
  {
    if from >= |events| then default
    else if events[from] == e then from
    else
      assert from + 1 <= |events| && events[from..] == [events[from]] + events[from + 1..];
      FirstEqual(events, e, from + 1, default)
  }

  /** `_edit_or_create(force_new)`: seed, open the editor, upsert what comes
      back, drop an armed delete, and re-select. A failed editor shows its
      message; an empty result in the agenda has no first event and raises
      IndexError. */
  function EditedOrCreated(u: Ui, forceNew: bool, today: CalendarDate, editor: Payload -> EditorResult): (s: Step)
  {
    match EditPlan(u, forceNew, today)
    case Fail(f) => Step(u, Raised("ValidationError: " + f.message))
    case Ok(plan) =>
      if |plan.seeds| == 0 then Step(u, Handled(false))
      else
        match editor(PayloadOf(plan.seeds))
        case EditorFailed(m) => Step(u.(overlay := ErrorOverlay, message := m), Handled(true))
        case Edited(updated) => EditApplied(u, updated, if plan.allowOverwrite then plan.originals else [])
  }

  /** The part of `_edit_or_create` after the editor returns: upsert, drop
      an armed delete, re-select. */
  function EditApplied(u: Ui, updated: seq<Event>, originals: seq<Event>): (s: Step)
  {
    var newEvents := UpsertAll(u.events, updated, originals);
    var v := u.(events := newEvents, pendingActive := false);
    if u.view.Agenda? then
      if |updated| == 0 then Step(v, Raised(IndexErrorText))
      else Step(v.(agendaIndex := FirstEqual(newEvents, updated[0], 0, u.agendaIndex)), Handled(true))
    else Step(v.(monthIndex := 0), Handled(true))
  }

  // ---------------------------------------------------------------------
  // The dispatcher

  /** `_handle_key(ch)`: overlays first, then the leader, then the delete
      key, then the rest. */
  function KeyHandled(u: Ui, ch: int, env: Env): (s: Step)
  {
    if u.overlay.Help? && ch == KeyEsc then Step(u.(overlay := NoOverlay), Handled(true))
    else if u.overlay.ErrorOverlay? || u.overlay.MessageOverlay? then Step(u.(overlay := NoOverlay), Handled(true))
    else Dispatched(u, ch, env)
  }

  /** `_handle_key` from the leader handling on (lines 199-256). */
  function Dispatched(u: Ui, ch: int, env: Env): (s: Step)
  {
    if u.leaderActive then LeaderFollowed(u.(leaderActive := false), ch, env)
    else if ch == KeyLeader then Step(u.(leaderActive := true, leaderStartedAt := Some(env.nowMs)), Handled(false))
    else
      var d := DeleteKeyHandled(u, ch, env.nowMs, env.delete);
      if d.result.Some? then Step(d.ui, d.result.value) else Unprefixed(d.ui, ch, env)
  }

  /** The key after the leader: `a`, `m`, `n`, or a cancel. */
  function LeaderFollowed(u: Ui, ch: int, env: Env): (s: Step)
  {
    if ch == KeyA then Step(u.(view := Agenda), Handled(true))
    else if ch == KeyM then Step(u.(view := Month), Handled(true))
    else if ch == KeyN then EditedOrCreated(u, true, env.today, env.editor)
    else Step(u, Handled(true))
  }

  /** `_handle_key` after the delete key (lines 221-256). */
  function Unprefixed(u: Ui, ch: int, env: Env): (s: Step)
  {
    if ch == KeyHelp then Step(u.(overlay := Help), Handled(true))
    else if ch == KeyEsc then Step(Escaped(u), Handled(true))
    else if ch == KeyToday then TodayJumped(u, env.now, env.today)
    else if ch == KeyI then
      if u.view.Agenda? then EditedOrCreated(u, |u.events| == 0, env.today, env.editor)
      else if u.monthFocus.EventsPane? && |MonthEvents(u)| > 0 then EditedOrCreated(u, false, env.today, env.editor)
      else Step(u, Handled(false))
    else if u.view.Agenda? then AgendaKeysHandled(u, ch)
    else MonthKeysHandled(u, ch)
  }

  // ---------------------------------------------------------------------
  // Scans

  /** The `next(...)` of `_agenda_jump_day`: the first index whose event is
      on `day`, else `default`. */
  method FindFirstOnDay(events: seq<Event>, day: CalendarDate, default: nat) returns (r: nat)
    ensures r == FirstOnDay(events, day, 0, default)
  {
    var i := 0;
    while i < |events|
      invariant 0 <= i <= |events|
      invariant FirstOnDay(events, day, 0, default) == FirstOnDay(events, day, i, default)
    {
      if events[i].datetime.date == day {
        return i;
      }
      i := i + 1;
    }
    return default;
  }

  /** The backward loop of `_agenda_jump_day`: from just below `below`
      down to 0, the first index whose day is before `day`. */
  method ScanEarlierDay(events: seq<Event>, below: nat, day: CalendarDate) returns (r: Option<nat>)
    requires below <= |events|
    ensures r == LastEarlierDay(events, below, day)
  {
    var idx := below as int - 1;
    while idx >= 0
      invariant -1 <= idx < below
      invariant LastEarlierDay(events, below, day) == LastEarlierDay(events, idx + 1, day)
    {
      if DateBefore(events[idx].datetime.date, day) {
        return Some(idx);
      }
      idx := idx - 1;
    }
    return None;
  }

  /** The forward loop of `_agenda_jump_day`: from `from` on, the first
      index whose day is after `day`. */
  method ScanLaterDay(events: seq<Event>, from: nat, day: CalendarDate) returns (r: Option<nat>)
    ensures r == FirstLaterDay(events, from, day)
  {
    var idx := from;
    while idx < |events|
      invariant from <= idx
      invariant FirstLaterDay(events, from, day) == FirstLaterDay(events, idx, day)
    {
      if DateBefore(day, events[idx].datetime.date) {
        return Some(idx);
      }
      idx := idx + 1;
    }
    return None;
  }

  /** The re-selection loop of `_edit_or_create`: the first index whose event
      equals `target` field for field, else `default`. */
  method FindFirstEqual(events: seq<Event>, target: Event, default: nat) returns (r: nat)
    ensures r == FirstEqual(events, target, 0, default)
  {
    var i := 0;
    while i < |events|
      invariant 0 <= i <= |events|
      invariant FirstEqual(events, target, 0, default) == FirstEqual(events, target, i, default)
    {
      var ev := events[i];
      if ev.datetime == target.datetime && ev.event == target.event && ev.details == target.details {
        return i;
      }
      i := i + 1;
    }
    return default;
  }

  // ---------------------------------------------------------------------
  // The orchestrator

  /** `Orchestrator`: the calendar service, the application state and the
      pending delete, updated in place by the key handlers. */
  class Orchestrator {
    const calendar: CalendarService.Service
    const state: AppState
    /** Set once and never read. */
    const lastTickMs: int
    var pendingActive: bool
    var pendingStartedAt: int
    var pendingTargetView: View

    /** The state the handlers read and write, as one value. */
    function Snapshot(): Ui
      reads this, state, state.leader
    {
      Ui(state.view, state.leader.active, state.leader.startedAtMs, state.overlay, state.overlayMessage,
        state.events, state.agendaIndex, state.agendaScroll, state.monthFocus, state.monthSelectedDate,
        state.monthEventIndex, pendingActive, pendingStartedAt, pendingTargetView)
    }

    /** `Orchestrator()` over the configured data file, on the day `today`:
        a fresh `AppState` and no pending delete. */
    constructor(dataPath: string, today: CalendarDate)
      ensures fresh(state) && fresh(state.leader) && calendar.dataPath == dataPath && lastTickMs == 0
      ensures Snapshot() == Ui(Month, false, None, NoOverlay, "", [], 0, 0, Grid, today, 0, false, 0, Agenda)
    {
      calendar := new CalendarService.Service(dataPath);
      state := new AppState(today);
      lastTickMs := 0;
      pendingActive := false;
      pendingStartedAt := 0;
      pendingTargetView := Agenda;
    }

    /** `_maybe_timeout_leader(now_ms)`. */
    method MaybeTimeoutLeader(nowMs: int)
      modifies state.leader
      ensures Snapshot() == LeaderTimedOut(old(Snapshot()), nowMs)
    {
      if state.leader.active && state.leader.startedAtMs.Some? && state.leader.startedAtMs.value != 0 {
        if nowMs - state.leader.startedAtMs.value > LeaderTimeoutMs {
          state.leader.active := false;
        }
      }
    }

    /** `_maybe_timeout_delete(now_ms)`. */
    method MaybeTimeoutDelete(nowMs: int)
      modifies this
      ensures Snapshot() == DeleteTimedOut(old(Snapshot()), nowMs)
    {
      if pendingActive {
        if nowMs - pendingStartedAt > DeleteTimeoutMs {
          pendingActive := false;
        }
      }
    }

    /** `_month_events_for_selected_date()`, in the order of the events
        pane. */
    method MonthEventsForSelectedDate() returns (monthEvents: seq<Event>)
      ensures monthEvents == MonthEvents(Snapshot())
    {
      var byDate := ViewMonth.GroupByDate(state.events);
      monthEvents := ViewMonth.EventsOn(byDate, state.monthSelectedDate);
    }

    /** `_handle_delete_key(ch)`, with the clock reading passed in. */
    method HandleDeleteKey(ch: int, nowMs: int, delete: (seq<Event>, Event) -> Removal) returns (result: Option<Outcome>)
      modifies this, state
      ensures DeleteKeyStep(Snapshot(), result) == DeleteKeyHandled(old(Snapshot()), ch, nowMs, delete)
    {
      if ch != KeyD {
        pendingActive := false;
        return None;
      }
      if pendingActive && nowMs - pendingStartedAt <= DeleteTimeoutMs {
        pendingActive := false;
        var handled := PerformDelete(delete);
        return Some(handled);
      }
      pendingActive := true;
      pendingStartedAt := nowMs;
      pendingTargetView := state.view;
      return Some(Handled(false));
    }

    /** The selection `_perform_delete` deletes. */
    method DeleteTarget() returns (t: Target)
      ensures t == TargetIn(Snapshot(), MonthEvents(Snapshot()))
    {
      if state.view.Agenda? {
        if |state.events| == 0 {
          return NoTarget;
        }
        if state.agendaIndex >= |state.events| {
          return OutOfRange;
        }
        return Chosen(state.events[state.agendaIndex]);
      } else if state.monthFocus.EventsPane? {
        var monthEvents := MonthEventsForSelectedDate();
        if |monthEvents| == 0 {
          return NoTarget;
        }
        return Chosen(monthEvents[Min(state.monthEventIndex, |monthEvents| - 1)]);
      }
      return NoTarget;
    }

    /** The end of `_perform_delete`: the new list is installed and both
        selections are held on it. */
    method InstallEvents(newEvents: seq<Event>)
      modifies state
      ensures Snapshot() == AfterDelete(old(Snapshot()), newEvents)
    {
      state.events := newEvents;
      var idx := Min(state.agendaIndex, |newEvents| - 1);
      if idx < 0 {
        idx := 0;
      }
      state.agendaIndex := idx;
      if !state.view.Agenda? {
        var monthEvents := MonthEventsForSelectedDate();
        state.monthEventIndex := Min(state.monthEventIndex, Max(|monthEvents| - 1, 0));
      }
    }

    /** `_perform_delete()`, corrected as `DeletePerformed` says. */
    method PerformDelete(delete: (seq<Event>, Event) -> Removal) returns (outcome: Outcome)
      modifies state
      ensures Step(Snapshot(), outcome) == DeletePerformed(old(Snapshot()), delete)
    {
      var target := DeleteTarget();
      if target.NoTarget? {
        return Handled(false);
      }
      if target.OutOfRange? {
        return Raised(IndexErrorText);
      }
      var removal := delete(state.events, target.event);
      if removal.StorageFailed? {
        state.overlay := ErrorOverlay;
        state.overlayMessage := "Storage error: " + removal.message;
        return Handled(true);
      }
      InstallEvents(removal.events);
      return Handled(true);
    }

    /** `_handle_agenda_keys(ch)`. */
    method HandleAgendaKeys(ch: int) returns (outcome: Outcome)
      modifies state
      ensures Step(Snapshot(), outcome) == AgendaKeysHandled(old(Snapshot()), ch)
    {
      if ch == KeyJ {
        state.agendaIndex := ViewAgenda.MoveSelection(state.events, state.agendaIndex, 1);
        return Handled(true);
      }
      if ch == KeyK {
        state.agendaIndex := ViewAgenda.MoveSelection(state.events, state.agendaIndex, -1);
        return Handled(true);
      }
      if ch == KeyH {
        outcome := AgendaJumpDay(-1);
        return;
      }
      if ch == KeyL {
        outcome := AgendaJumpDay(1);
        return;
      }
      return Handled(false);
    }

    /** `_agenda_jump_day(direction)`. */
    method AgendaJumpDay(direction: int) returns (outcome: Outcome)
      modifies state
      ensures Step(Snapshot(), outcome) == AgendaDayJumped(old(Snapshot()), direction)
    {
      if |state.events| == 0 {
        return Handled(false);
      }
      var events := state.events;
      var curIdx := state.agendaIndex;
      if curIdx >= |events| {
        return Raised(IndexErrorText);
      }
      var curDay := events[curIdx].datetime.date;
      if direction < 0 {
        var found := ScanEarlierDay(events, curIdx, curDay);
        if found.Some? {
          var firstIdx := FindFirstOnDay(events, events[found.value].datetime.date, found.value);
          state.agendaIndex := firstIdx;
          return Handled(true);
        }
      } else {
        var found := ScanLaterDay(events, curIdx + 1, curDay);
        if found.Some? {
          state.agendaIndex := found.value;
          return Handled(true);
        }
      }
      return Handled(false);
    }

    /** `_handle_month_keys(ch)`; `MonthView(events)` groups the events by
        day on construction. */
    method HandleMonthKeys(ch: int) returns (outcome: Outcome)
      modifies state
      ensures Step(Snapshot(), outcome) == MonthKeysHandled(old(Snapshot()), ch)
    {
      var byDate := ViewMonth.GroupByDate(state.events);
      if state.monthFocus.Grid? {
        outcome := HandleGridKeys(byDate, ch);
      } else {
        outcome := HandlePaneKeys(byDate, ch);
      }
    }

    /** The grid branch of `_handle_month_keys`. */
    method HandleGridKeys(byDate: map<CalendarDate, seq<Event>>, ch: int) returns (outcome: Outcome)
      requires byDate == ViewMonth.Grouped(state.events)
      modifies state
      ensures Step(Snapshot(), outcome) == GridKeysHandled(old(Snapshot()), ch)
    {
      var d := state.monthSelectedDate;
      if ch == KeyCtrlH || ch == KeyCtrlL || ch == KeyH || ch == KeyL || ch == KeyJ || ch == KeyK {
        state.monthSelectedDate :=
          if ch == KeyCtrlH then ViewMonth.MoveMonth(d, -1)
          else if ch == KeyCtrlL then ViewMonth.MoveMonth(d, 1)
          else if ch == KeyH then ViewMonth.MoveDay(d, -1)
          else if ch == KeyL then ViewMonth.MoveDay(d, 1)
          else if ch == KeyJ then ViewMonth.MoveWeek(d, 1)
          else ViewMonth.MoveWeek(d, -1);
        assert GridMove(d, ch) == Some(state.monthSelectedDate);
        state.monthEventIndex := 0;
        return Handled(true);
      }
      assert GridMove(d, ch).None?;
      if ch == KeyTab {
        var monthEvents := MonthEventsForSelectedDate();
        if |monthEvents| > 0 {
          state.monthFocus := EventsPane;
          state.monthEventIndex := ViewMonth.ClampEventIndex(byDate, d, state.monthEventIndex);
          return Handled(true);
        }
      }
      return Handled(false);
    }

    /** The events-pane branch of `_handle_month_keys`. */
    method HandlePaneKeys(byDate: map<CalendarDate, seq<Event>>, ch: int) returns (outcome: Outcome)
      requires byDate == ViewMonth.Grouped(state.events)
      modifies state
      ensures Step(Snapshot(), outcome) == PaneKeysHandled(old(Snapshot()), ch)
    {
      var d := state.monthSelectedDate;
      if ch == KeyTab {
        return Handled(false);
      }
      if ch == KeyCtrlH || ch == KeyCtrlL {
        state.monthSelectedDate := ViewMonth.MoveMonth(d, if ch == KeyCtrlH then -1 else 1);
        state.monthEventIndex := 0;
        if |ViewMonth.EventsOn(byDate, state.monthSelectedDate)| == 0 {
          state.monthFocus := Grid;
        }
        return Handled(true);
      }
      if ch == KeyJ {
        state.monthEventIndex := ViewMonth.ClampEventIndex(byDate, d, state.monthEventIndex + 1);
        return Handled(true);
      }
      if ch == KeyK {
        state.monthEventIndex := ViewMonth.ClampEventIndex(byDate, d, state.monthEventIndex - 1);
        return Handled(true);
      }
      return Handled(false);
    }

    /** `_jump_today()`, with the clock readings passed in. */
    method JumpToday(now: Timestamp, today: CalendarDate) returns (outcome: Outcome)
      modifies state
      ensures Step(Snapshot(), outcome) == TodayJumped(old(Snapshot()), now, today)
    {
      if state.view.Agenda? {
        var idx := ViewAgenda.JumpToToday(state.events, now);
        state.agendaIndex := idx;
        return Handled(true);
      }
      state.monthSelectedDate := today;
      state.monthEventIndex := 0;
      return Handled(true);
    }

    /** `_edit_or_create(force_new)`, with the editor's answer passed in. */
    method EditOrCreate(forceNew: bool, today: CalendarDate, editor: Payload -> EditorResult) returns (outcome: Outcome)
      modifies this, state
      ensures Step(Snapshot(), outcome) == EditedOrCreated(old(Snapshot()), forceNew, today, editor)
    {
      var plan := EditPlan(Snapshot(), forceNew, today);
      if plan.Fail? {
        return Raised("ValidationError: " + plan.failure.message);
      }
      var seeds := plan.value.seeds;
      if |seeds| == 0 {
        return Handled(false);
      }
      var result := editor(PayloadOf(seeds));
      if result.EditorFailed? {
        state.overlay := ErrorOverlay;
        state.overlayMessage := result.message;
        return Handled(true);
      }
      outcome := ApplyEdited(result.events, if plan.value.allowOverwrite then plan.value.originals else []);
    }

    /** The upsert loop of `_edit_or_create`, one `upsert_event` per edited
        event. */
    method UpsertEach(updated: seq<Event>, originals: seq<Event>) returns (newEvents: seq<Event>)
      ensures newEvents == UpsertAll(state.events, updated, originals)
    {
      newEvents := state.events;
      var idx := 0;
      while idx < |updated|
        invariant 0 <= idx <= |updated|
        invariant newEvents == UpsertAll(state.events, updated[..idx], originals)
      {
        var original := if idx < |originals| then Some(originals[idx]) else None;
        assert updated[..idx + 1][..idx] == updated[..idx];
        var write;
        newEvents, write := calendar.UpsertEvent(newEvents, updated[idx], original.Some?, original);
        idx := idx + 1;
      }
      assert updated[..idx] == updated;
    }

    /** `_edit_or_create` from the upsert on. */
    method ApplyEdited(updated: seq<Event>, originals: seq<Event>) returns (outcome: Outcome)
      modifies this, state
      ensures Step(Snapshot(), outcome) == EditApplied(old(Snapshot()), updated, originals)
    {
      var newEvents := UpsertEach(updated, originals);
      state.events := newEvents;
      pendingActive := false;
      if state.view.Agenda? {
        if |updated| == 0 {
          return Raised(IndexErrorText);
        }
        var found := FindFirstEqual(state.events, updated[0], state.agendaIndex);
        state.agendaIndex := found;
      } else {
        state.monthEventIndex := 0;
      }
      return Handled(true);
    }

    /** `_handle_key(ch)`: the overlays, then `Dispatch`. */
    method HandleKey(ch: int, env: Env) returns (outcome: Outcome)
      modifies this, state, state.leader
      ensures Step(Snapshot(), outcome) == KeyHandled(old(Snapshot()), ch, env)
    {
      if state.overlay.Help? {
        if ch == KeyEsc {
          state.overlay := NoOverlay;
          return Handled(true);
        }
      } else if state.overlay.ErrorOverlay? || state.overlay.MessageOverlay? {
        state.overlay := NoOverlay;
        return Handled(true);
      }
      outcome := Dispatch(ch, env);
    }

    /** `_handle_key` from the leader handling on. */
    method Dispatch(ch: int, env: Env) returns (outcome: Outcome)
      modifies this, state, state.leader
      ensures Step(Snapshot(), outcome) == Dispatched(old(Snapshot()), ch, env)
    {
      if state.leader.active {
        state.leader.active := false;
        if ch == KeyA {
          state.view := Agenda;
          return Handled(true);
        }
        if ch == KeyM {
          state.view := Month;
          return Handled(true);
        }
        if ch == KeyN {
          outcome := EditOrCreate(true, env.today, env.editor);
          return;
        }
        return Handled(true);
      }
      if ch == KeyLeader {
        state.leader.active := true;
        state.leader.startedAtMs := Some(env.nowMs);
        return Handled(false);
      }
      var handledDelete := HandleDeleteKey(ch, env.nowMs, env.delete);
      if handledDelete.Some? {
        return handledDelete.value;
      }
      outcome := HandleOtherKey(ch, env);
    }

    /** `_handle_key` after the delete key. */
    method HandleOtherKey(ch: int, env: Env) returns (outcome: Outcome)
      modifies this, state, state.leader
      ensures Step(Snapshot(), outcome) == Unprefixed(old(Snapshot()), ch, env)
    {
      if ch == KeyHelp {
        state.overlay := Help;
        return Handled(true);
      }
      if ch == KeyEsc {
        var handled := false;
        if state.view.Month? && state.monthFocus.EventsPane? {
          state.monthFocus := Grid;
          handled := true;
        }
        state.overlay := NoOverlay;
        state.leader.active := false;
        pendingActive := false;
        return if handled || state.overlay.NoOverlay? then Handled(true) else Handled(false);
      }
      if ch == KeyToday {
        outcome := JumpToday(env.now, env.today);
        return;
      }
      if ch == KeyI {
        if state.view.Agenda? {
          outcome := EditOrCreate(|state.events| == 0, env.today, env.editor);
          return;
        }
        var monthEvents := MonthEventsForSelectedDate();
        if state.monthFocus.EventsPane? && |monthEvents| > 0 {
          outcome := EditOrCreate(false, env.today, env.editor);
          return;
        }
        return Handled(false);
      }
      if state.view.Agenda? {
        outcome := HandleAgendaKeys(ch);
      } else {
        outcome := HandleMonthKeys(ch);
      }
    }

    /** The agenda part of `_draw`: render, and keep the scroll offset it
        returns. The rows drawn are left to the caller. */
    method Draw(h: int, w: int) returns (drawn: seq<Put>)
      modifies state
      ensures Snapshot() == old(Snapshot()).(agendaScroll := state.agendaScroll)
      ensures !state.view.Agenda? ==> state.agendaScroll == old(state.agendaScroll) && drawn == []
      ensures var lines := ViewAgenda.Lines(state.events);
        var selected := Clamp(state.agendaIndex, 0, |lines| - 1);
        state.view.Agenda? && h - 1 >= 1 ==> 0 <= state.agendaScroll <= selected < state.agendaScroll + (h - 1)
    {
      if !state.view.Agenda? {
        return [];
      }
      var newScroll;
      newScroll, drawn := ViewAgenda.Render(state.events, h, w, state.agendaIndex, state.agendaScroll);
      state.agendaScroll := newScroll;
    }
  }
}
