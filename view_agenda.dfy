/** The agenda view (view_agenda.py): one line per event, a selection that
    stays on the list, and a scroll offset that keeps it on screen. */
module ViewAgenda {
  import opened Dates
  import opened Models
  import opened UiBase
  import Seqs

  const Placeholder := "No events yet. Press i to create."

  /** One agenda line, `f"{ts}  {ev.event}"` with `ts` as `%Y-%m-%d %H:%M`. */
  function EventLine(e: Event): string
  {
    FormatDate(e.datetime.date) + " " + FormatHourMinute(e.datetime) + "  " + e.event
  }

  /** The lines `render` lists: one per event, or the placeholder alone, so
      never none. */
  function Lines(events: seq<Event>): (r: seq<string>)
    ensures |r| == Max(1, |events|)
    ensures |events| == 0 ==> r == [Placeholder]
    ensures forall i :: 0 <= i < |events| ==> r[i] == EventLine(events[i])
  {
    if |events| == 0 then [Placeholder] else Seqs.Map(events, EventLine)
  }

  /** `move_selection(selected_idx, delta)`: 0 on an empty list, otherwise
      the moved index held inside the list. */
  function MoveSelection(events: seq<Event>, selectedIdx: int, delta: int): (r: int)
    ensures |events| == 0 ==> r == 0
    ensures |events| > 0 ==> 0 <= r < |events|
    ensures 0 <= selectedIdx + delta < |events| ==> r == selectedIdx + delta
    ensures |events| > 0 && selectedIdx + delta < 0 ==> r == 0
    ensures |events| > 0 && selectedIdx + delta >= |events| ==> r == |events| - 1
  {
    if |events| == 0 then 0 else Clamp(selectedIdx + delta, 0, |events| - 1)
  }

  /** The index `jump_to_today()` settles on, with the clock reading passed
      in: the first event at or after now, else the last event, and 0 on an
      empty list. `now` is the clock rounded up to a whole second, which
      keeps `>=` on whole-second events as it is on the exact clock. */
  function TodayIndex(events: seq<Event>, now: Timestamp): (idx: int)
    ensures |events| == 0 ==> idx == 0
    ensures |events| > 0 ==> 0 <= idx < |events|
    ensures forall j :: 0 <= j < idx && j < |events| ==> Before(events[j].datetime, now)
    ensures 0 <= idx < |events| ==> AtOrBefore(now, events[idx].datetime) || idx == |events| - 1
    ensures (exists j :: 0 <= j < |events| && AtOrBefore(now, events[j].datetime)) ==>
      AtOrBefore(now, events[idx].datetime)
  {
    if |events| == 0 then 0 else FirstAtOrAfter(events, now, 0)
  }

  /** The scan of `jump_to_today` from index `from` on. */
  function FirstAtOrAfter(events: seq<Event>, now: Timestamp, from: nat): (i: nat)
    requires from < |events|
    ensures from <= i < |events|
    ensures forall j :: from <= j < i ==> Before(events[j].datetime, now)
    ensures AtOrBefore(now, events[i].datetime) || i == |events| - 1
    decreases |events| - from
  {
    if AtOrBefore(now, events[from].datetime) || from == |events| - 1 then from
    else FirstAtOrAfter(events, now, from + 1)
  }

  /** `jump_to_today()`: the loop that finds `TodayIndex`. */
  method JumpToToday(events: seq<Event>, now: Timestamp) returns (idx: int)
    ensures idx == TodayIndex(events, now)
  {
    if |events| == 0 {
      return 0;
    }
    var i := 0;
    while i < |events|
      invariant 0 <= i <= |events|
      invariant TodayIndex(events, now) == if i < |events| then FirstAtOrAfter(events, now, i) else |events| - 1
    {
      if AtOrBefore(now, events[i].datetime) {
        return i;
      }
      i := i + 1;
    }
    return |events| - 1;
  }

  /** The rebinding of `selected_idx` and `scroll` in `render`: the
      selection is held on the list, the scroll inside the range that keeps
      the screen full, and then moved just enough to show the selection. */
  method FollowSelection(lineCount: nat, bodyH: int, selectedIdx: int, scroll: int)
    returns (selected: int, top: int)
    requires lineCount >= 1
    ensures selected == Clamp(selectedIdx, 0, lineCount - 1) && 0 <= selected < lineCount
    ensures top >= 0
    ensures bodyH >= 1 ==> top <= selected < top + bodyH && top <= Max(0, lineCount - bodyH)
    ensures var held := Clamp(scroll, 0, Max(0, lineCount - bodyH));
      bodyH >= 1 ==>
      (held <= selected < held + bodyH ==> top == held) &&
      (selected < held ==> top == selected) &&
      (held + bodyH <= selected ==> top == selected - bodyH + 1)
  {
    selected := Clamp(selectedIdx, 0, Max(0, lineCount - 1));
    top := Clamp(scroll, 0, Max(0, lineCount - bodyH));
    if selected < top {
      top := selected;
    } else if selected >= top + bodyH {
      top := selected - bodyH + 1;
    }
  }

  /** Row k of the screen, showing line `top + k` cut or padded to
      `usable_w` columns and reversed when it is the selected line. */
  function Row(lines: seq<string>, usableW: nat, selected: int, top: nat, k: nat): (p: Put)
    requires top + k < |lines|
    ensures p.row == k && p.col == 0 && p.limit == usableW && |p.text| == usableW
    ensures Reverse in p.attrs <==> top + k == selected
  {
    Put(k, 0, Fit(lines[top + k], usableW), usableW, if top + k == selected then {Reverse} else {})
  }

  /** The drawing loop of `render`: up to `body_h` rows from line `top` on.
      The source also asks for events or a single line before reversing,
      which the placeholder always satisfies. */
  method DrawRows(events: seq<Event>, lines: seq<string>, bodyH: int, usableW: nat, selected: int, top: nat)
    returns (drawn: seq<Put>)
    requires |events| > 0 || |lines| == 1
    ensures |drawn| == Max(0, Min(bodyH, |lines| - top))
    ensures forall k :: 0 <= k < |drawn| ==> top + k < |lines| && drawn[k] == Row(lines, usableW, selected, top, k)
  {
    drawn := [];
    var idx := 0;
    while idx < bodyH
      invariant 0 <= idx <= Max(0, bodyH)
      invariant idx <= Max(0, |lines| - top)
      invariant |drawn| == idx
      invariant forall k :: 0 <= k < idx ==> top + k < |lines| && drawn[k] == Row(lines, usableW, selected, top, k)
    {
      var lineIdx := top + idx;
      if lineIdx >= |lines| {
        break;
      }
      var attrs: set<Attr> := if lineIdx == selected && (|events| > 0 || |lines| == 1) then {Reverse} else {};
      drawn := drawn + [Put(idx, 0, Fit(lines[lineIdx], usableW), usableW, attrs)];
      idx := idx + 1;
    }
  }

  /** `render(stdscr, selected_idx, scroll)` on an h by w screen: the new
      scroll offset, and the rows drawn above the footer, among them the
      selected line whenever there is room to draw. */
  method Render(events: seq<Event>, h: int, w: int, selectedIdx: int, scroll: int)
    returns (newScroll: int, drawn: seq<Put>)
    ensures var lines := Lines(events); var selected := Clamp(selectedIdx, 0, |lines| - 1);
      newScroll >= 0 && (h - 1 >= 1 ==> newScroll <= selected < newScroll + (h - 1))
    ensures |drawn| <= Max(0, h - 1)
    ensures w <= 1 || h <= 1 ==> drawn == []
    ensures var lines := Lines(events); var selected := Clamp(selectedIdx, 0, |lines| - 1);
      forall k :: 0 <= k < |drawn| ==> newScroll + k < |lines| && drawn[k] == Row(lines, w - 1, selected, newScroll, k)
    ensures var selected := Clamp(selectedIdx, 0, |Lines(events)| - 1);
      w > 1 && h > 1 ==> 0 <= selected - newScroll < |drawn|
  {
    var bodyH := h - 1;
    var lines := Lines(events);
    var selected, top := FollowSelection(|lines|, bodyH, selectedIdx, scroll);
    newScroll := top;
    var usableW := Max(0, w - 1);
    if usableW == 0 || bodyH <= 0 {
      return newScroll, [];
    }
    drawn := DrawRows(events, lines, bodyH, usableW, selected, top);
  }
}
