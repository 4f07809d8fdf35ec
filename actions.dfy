/** The action handlers behind natural-language commands (actions.py):
    missing-component checks, matching, relative shifts, the listing text,
    and the decisions of the create, list and reschedule handlers.

    The handlers name the record's fields x (trigger), y (outcome) and
    z (impact); they are the `datetime`, `event` and `details` of `Event`. */
module Actions {
  import opened Common
  import opened Text
  import opened Dates
  import opened Models
  import Seqs
  import Store
  import DateRanges
  import CalendarService

  /** `ActionResult(success, message, events)`. */
  datatype ActionResult = ActionResult(success: bool, message: string, events: Option<seq<Event>>)

  /** The three parts of a well-formed task: when (x), what (y) and why (z). */
  datatype Component = Trigger | Outcome | Impact

  /** How a missing component is named in the refusal. */
  function Label(c: Component): string
  {
    match c
    case Trigger => "x (trigger)"
    case Outcome => "y (outcome)"
    case Impact => "z (impact)"
  }

  /** The position of a component in the order `_missing_components`
      reports them. */
  function Rank(c: Component): nat
  {
    match c
    case Trigger => 0
    case Outcome => 1
    case Impact => 2
  }

  /** `_missing_components`: the trigger when absent, then the outcome and
      the impact when blank, in that order. */
  function MissingComponents(trigger: Option<Timestamp>, outcome: string, impact: string): (r: seq<Component>)
    ensures forall i, j :: 0 <= i < j < |r| ==> Rank(r[i]) < Rank(r[j])
    ensures Trigger in r <==> trigger.None?
    ensures Outcome in r <==> Strip(outcome) == ""
    ensures Impact in r <==> Strip(impact) == ""
  {
    Missing(trigger.None?, Strip(outcome) == "", Strip(impact) == "")
  }

  /** The components whose flags are set, in report order. */
  function Missing(noTrigger: bool, noOutcome: bool, noImpact: bool): (r: seq<Component>)
    ensures forall i, j :: 0 <= i < j < |r| ==> Rank(r[i]) < Rank(r[j])
    ensures Trigger in r <==> noTrigger
    ensures Outcome in r <==> noOutcome
    ensures Impact in r <==> noImpact
  {
    var t: seq<Component> := if noTrigger then [Trigger] else [];
    var o: seq<Component> := if noOutcome then [Outcome] else [];
    var m: seq<Component> := if noImpact then [Impact] else [];
    t + o + m
  }

  /** The labels of the missing components, in order. */
  function Labels(cs: seq<Component>): seq<string>
  {
    Seqs.Map(cs, Label)
  }

  const CookWords: seq<string> := ["cook", "cooking", "meal", "kitchen"]
  const StudyWords: seq<string> := ["study", "learn", "learning", "exam", "course", "class"]
  const ExerciseWords: seq<string> := ["exercise", "fitness", "run", "workout", "train"]

  const CookClause := "serve affordable, nutritious meals for myself and friends"
  const StudyClause := "confidently tackle advanced coursework and related opportunities"
  const ExerciseClause := "build long-term health, energy, and resilience"
  const DefaultClause := "unlock new opportunities and turn this effort into tangible momentum"

  /** `any(word in text for word in words)`. */
  predicate AnyWordIn(text: string, words: seq<string>)
  {
    exists i :: 0 <= i < |words| && Contains(text, words[i])
  }

  /** `_infer_impact_clause`: the first keyword group found in the
      lower-cased outcome decides, cooking before study before exercise. */
  function InferImpactClause(outcome: string): (r: string)
    ensures r == CookClause <==> AnyWordIn(Lower(outcome), CookWords)
    ensures r == StudyClause <==> !AnyWordIn(Lower(outcome), CookWords) && AnyWordIn(Lower(outcome), StudyWords)
    ensures r == ExerciseClause <==>
      !AnyWordIn(Lower(outcome), CookWords) && !AnyWordIn(Lower(outcome), StudyWords) && AnyWordIn(Lower(outcome), ExerciseWords)
    ensures r in {CookClause, StudyClause, ExerciseClause, DefaultClause}
  {
    var lower := Lower(outcome);
    if AnyWordIn(lower, CookWords) then CookClause
    else if AnyWordIn(lower, StudyWords) then StudyClause
    else if AnyWordIn(lower, ExerciseWords) then ExerciseClause
    else DefaultClause
  }

  /** An outcome that mentions cooking gets the cooking clause, whatever
      else it mentions, in any letter case. */
  lemma CookingWins(before: string, after: string)
    ensures InferImpactClause(before + "Cook" + after) == CookClause
  {
    var o := before + "Cook" + after;
    assert Lower(o) == Lower(before) + "cook" + Lower(after) by {
      assert Lower("Cook") == "cook";
      assert Lower(o) == Lower(before) + Lower("Cook") + Lower(after);
    }
    ContainsMiddle(Lower(before), "cook", Lower(after));
    assert Contains(Lower(o), CookWords[0]);
  }

  /** `%B`: the full English month name. */
  function MonthName(m: int): string
    requires 1 <= m <= 12
  {
    ["January", "February", "March", "April", "May", "June", "July",
     "August", "September", "October", "November", "December"][m - 1]
  }

  const Rule := "-------------------------------------"

  /** `x.strftime("%B %d, %Y")`, or a placeholder without a trigger. */
  function TriggerHuman(trigger: Option<Timestamp>): string
  {
    if trigger.Some? then
      MonthName(trigger.value.date.month) + " " + ZeroPad(trigger.value.date.day, 2) + ", " + IntToString(trigger.value.date.year)
    else "a clear date"
  }

  /** The suggested rephrasing of a refused task. */
  function Suggestion(trigger: Option<Timestamp>, outcome: string): string
  {
    var stated := if Strip(outcome) != "" then Strip(outcome) else "finish this task";
    "\"When " + TriggerHuman(trigger) + " arrives, I want to " + Lower(stated) +
    " so I can " + InferImpactClause(stated) + ".\""
  }

  /** The lines of `_format_missing_component_message`: a banner, the
      missing components, then what was parsed and a suggested rephrasing. */
  function MissingMessageLines(trigger: Option<Timestamp>, outcome: string, missing: seq<Component>): (r: seq<string>)
  {
    [Rule, "Task not created (missing components)", Rule] + [MissingLine(missing)] + ParsedLines(trigger, outcome)
  }

  /** The lines after the missing line. */
  function ParsedLines(trigger: Option<Timestamp>, outcome: string): seq<string>
  {
    ["\U{2022} Parsed:",
     "    x = " + (if trigger.Some? then FormatDateTime(trigger.value) else "(unspecified)"),
     "    y = '" + outcome + "'",
     "\U{2022} Suggested rephrase:",
     "    " + Suggestion(trigger, outcome)]
  }

  /** `_format_missing_component_message`. */
  function MissingMessage(trigger: Option<Timestamp>, outcome: string, missing: seq<Component>): string
  {
    Join("\n", MissingMessageLines(trigger, outcome, missing))
  }

  /** The line listing the missing components. */
  function MissingLine(missing: seq<Component>): string
  {
    "\U{2022} Missing: " + Join(", ", Labels(missing))
  }

  /** The missing line names every missing component. */
  lemma MissingLineNamesEach(missing: seq<Component>, i: nat)
    requires i < |missing|
    ensures Contains(MissingLine(missing), Label(missing[i]))
  {
    var labels := Join(", ", Labels(missing));
    JoinContains(", ", Labels(missing), i);
    ContainsMiddle("\U{2022} Missing: ", labels, "");
    assert MissingLine(missing) == "\U{2022} Missing: " + labels + "";
    ContainsTrans(MissingLine(missing), labels, Label(missing[i]));
  }

  /** The refusal names every missing component. */
  lemma MissingMessageNamesEach(trigger: Option<Timestamp>, outcome: string, missing: seq<Component>, i: nat)
    requires i < |missing|
    ensures Contains(MissingMessage(trigger, outcome, missing), Label(missing[i]))
  {
    MissingLineNamesEach(missing, i);
    JoinMiddleContains("\n", [Rule, "Task not created (missing components)", Rule], MissingLine(missing),
      ParsedLines(trigger, outcome), Label(missing[i]));
  }

  /** `_match_events(events, description)`: the events whose outcome or
      impact contains the description, ignoring case. */
  function MatchEvents(events: seq<Event>, description: string): seq<Event>
  {
    CalendarService.FilterEventsByKeyword(events, description)
  }

  /** The matches are exactly the events mentioning the description in
      their outcome or impact, in their original order. */
  lemma MatchEventsSpec(events: seq<Event>, description: string)
    ensures Seqs.IsSubsequence(MatchEvents(events, description), events)
    ensures forall e :: e in MatchEvents(events, description) <==>
      e in events && (Contains(Lower(e.event), Lower(description)) || Contains(Lower(e.details), Lower(description)))
  {
    CalendarService.KeywordFilteredSubsequence(events, description);
    CalendarService.KeywordFilteredMembers(events, description);
  }

  /** The seconds in one unit of a relative adjustment; a week is seven days. */
  function UnitSeconds(unit: string): (s: int)
    requires unit in {"minutes", "hours", "days", "weeks"}
    ensures s > 0
  {
    if unit == "minutes" then 60
    else if unit == "hours" then 60 * 60
    else if unit == "days" then 24 * 60 * 60
    else 7 * 24 * 60 * 60
  }

  /** `_apply_relative_adjustment(original, adjustment)`. */
  function ApplyRelativeAdjustment(original: Timestamp, amount: int, unit: string): (r: Result<Timestamp>)
    ensures r.Fail? <==> unit !in {"minutes", "hours", "days", "weeks"}
    ensures r.Fail? ==> r.failure == ValidationError("Unsupported relative unit: " + unit)
    ensures r.Ok? ==> Seconds(r.value) == Seconds(original) + amount * UnitSeconds(unit)
  {
    if unit !in {"minutes", "hours", "days", "weeks"} then
      Fail(ValidationError("Unsupported relative unit: " + unit))
    else
      AddSecondsSeconds(original, amount * UnitSeconds(unit));
      Ok(AddSeconds(original, amount * UnitSeconds(unit)))
  }

  /** Shifting by n weeks is shifting by 7n days. */
  lemma WeekIsSevenDays(t: Timestamp, amount: int)
    ensures ApplyRelativeAdjustment(t, amount, "weeks") == ApplyRelativeAdjustment(t, 7 * amount, "days")
  {
    var w := ApplyRelativeAdjustment(t, amount, "weeks");
    var d := ApplyRelativeAdjustment(t, 7 * amount, "days");
    assert Seconds(w.value) == Seconds(t) + amount * 604800;
    assert Seconds(d.value) == Seconds(t) + (7 * amount) * 86400;
    SecondsInjective(w.value, d.value);
  }

  /** Shifting back by the same amount returns the original time. */
  lemma ShiftBack(t: Timestamp, amount: int, unit: string)
    requires unit in {"minutes", "hours", "days", "weeks"}
    ensures ApplyRelativeAdjustment(ApplyRelativeAdjustment(t, amount, unit).value, -amount, unit) == Ok(t)
  {
    var k := UnitSeconds(unit);
    var s := ApplyRelativeAdjustment(t, amount, unit).value;
    var back := ApplyRelativeAdjustment(s, -amount, unit).value;
    assert Seconds(s) == Seconds(t) + amount * k;
    assert Seconds(back) == Seconds(s) + (-amount) * k;
    assert (-amount) * k == -(amount * k);
    SecondsInjective(back, t);
  }

  /** `{ev.x:%Y-%m-%d %H:%M}`. */
  function MinuteText(t: Timestamp): string
  {
    FormatDate(t.date) + " " + FormatHourMinute(t)
  }

  /** One line of `_format_event_list`. */
  function EventLine(e: Event): string
  {
    "- " + MinuteText(e.datetime) + " " + e.event + (if e.details != "" then " \U{2014} " + e.details else "")
  }

  /** The lines for a run of events, one each, in order. */
  function EventLines(events: seq<Event>): seq<string>
  {
    Seqs.Map(events, EventLine)
  }

  /** Python's truth value of an optional keyword: present and non-empty. */
  predicate HasKeyword(keyword: Option<string>)
  {
    keyword.Some? && keyword.value != ""
  }

  /** The header line of a non-empty listing. */
  function ListingHeader(count: nat, rangeName: string, keyword: Option<string>): string
  {
    var plain := Title(ReplaceChar(rangeName, '_', ' ')) + " tasks";
    var matching := if HasKeyword(keyword) then plain + " matching '" + keyword.value + "'" else plain;
    matching + " (" + NatToString(count) + ")"
  }

  /** How many events a listing shows. */
  function Shown(n: nat): nat
  {
    if n < 10 then n else 10
  }

  /** The lines `_format_event_list` joins. */
  function EventListLines(events: seq<Event>, rangeName: string, keyword: Option<string>): seq<string>
  {
    var name := ReplaceChar(rangeName, '_', ' ');
    if |events| == 0 then
      if HasKeyword(keyword) then ["No tasks found for " + name + " matching '" + keyword.value + "'."]
      else ["No tasks found for " + name + "."]
    else
      [ListingHeader(|events|, rangeName, keyword)] + EventLines(events[..Shown(|events|)]) +
      (if |events| > 10 then ["\U{2026}and " + NatToString(|events| - 10) + " more tasks"] else [])
  }

  /** A listing has one line when empty; otherwise a header carrying the
      total, at most ten event lines in order, and a line counting the rest. */
  lemma EventListShape(events: seq<Event>, rangeName: string, keyword: Option<string>)
    ensures var lines := EventListLines(events, rangeName, keyword);
      (|events| == 0 ==> |lines| == 1) &&
      (|events| > 0 ==>
        |lines| == 1 + Shown(|events|) + (if |events| > 10 then 1 else 0) &&
        lines[0] == ListingHeader(|events|, rangeName, keyword) &&
        (forall i :: 0 <= i < Shown(|events|) ==> lines[i + 1] == EventLine(events[i])) &&
        (|events| > 10 ==> lines[11] == "\U{2026}and " + NatToString(|events| - 10) + " more tasks"))
  {
    if |events| > 0 {
      var lines := EventListLines(events, rangeName, keyword);
      var header := ListingHeader(|events|, rangeName, keyword);
      var body := EventLines(events[..Shown(|events|)]);
      var tail: seq<string> := if |events| > 10 then ["\U{2026}and " + NatToString(|events| - 10) + " more tasks"] else [];
      assert lines == [header] + body + tail;
      forall i | 0 <= i < Shown(|events|)
        ensures lines[i + 1] == EventLine(events[i])
      {
        assert lines[i + 1] == body[i];
      }
    }
  }

  /** The header of a non-empty listing ends with the total in brackets. */
  lemma HeaderCountsAll(count: nat, rangeName: string, keyword: Option<string>)
    ensures Contains(ListingHeader(count, rangeName, keyword), " (" + NatToString(count) + ")")
  {
    var plain := Title(ReplaceChar(rangeName, '_', ' ')) + " tasks";
    var matching := if HasKeyword(keyword) then plain + " matching '" + keyword.value + "'" else plain;
    assert ListingHeader(count, rangeName, keyword) == matching + (" (" + NatToString(count) + ")");
    ContainsSuffix(matching, " (" + NatToString(count) + ")");
  }

  /** One more event, one more line. */
  lemma ExtendEventLines(events: seq<Event>, i: nat)
    requires i < |events|
    ensures EventLines(events[..i + 1]) == EventLines(events[..i]) + [EventLine(events[i])]
  {
    Seqs.MapPrefixSnoc(events, EventLine, i);
  }

  lemma AppendAssociates(a: seq<string>, b: seq<string>, c: seq<string>)
    ensures (a + b) + c == a + (b + c)
  {
  }

  /** `_format_event_list(events, range_name, keyword)`. */
  method FormatEventList(events: seq<Event>, rangeName: string, keyword: Option<string>) returns (message: string)
    ensures message == Join("\n", EventListLines(events, rangeName, keyword))
  {
    var name := ReplaceChar(rangeName, '_', ' ');
    if |events| == 0 {
      if HasKeyword(keyword) {
        return "No tasks found for " + name + " matching '" + keyword.value + "'.";
      }
      return "No tasks found for " + name + ".";
    }
    var header := Title(name) + " tasks";
    if HasKeyword(keyword) {
      header := header + " matching '" + keyword.value + "'";
    }
    header := header + " (" + NatToString(|events|) + ")";
    var lines := [header];
    var shown := events[..Shown(|events|)];
    for i := 0 to |shown|
      invariant lines == [header] + EventLines(shown[..i])
    {
      ExtendEventLines(shown, i);
      AppendAssociates([header], EventLines(shown[..i]), [EventLine(shown[i])]);
      lines := lines + [EventLine(shown[i])];
    }
    assert shown[..|shown|] == shown;
    assert header == ListingHeader(|events|, rangeName, keyword);
    if |events| > 10 {
      lines := lines + ["\U{2026}and " + NatToString(|events| - 10) + " more tasks"];
    }
    assert lines == EventListLines(events, rangeName, keyword);
    message := Join("\n", lines);
  }

  /** One option in the ambiguous-match message. */
  function MatchOption(e: Event): string
  {
    e.event + " (" + MinuteText(e.datetime) + ")"
  }

  /** The options for the first few matches, one each, in order. */
  function MatchOptions(matches: seq<Event>): seq<string>
  {
    Seqs.Map(matches, MatchOption)
  }

  /** The option list: the first five matches, then an ellipsis if more. */
  function OptionsText(matches: seq<Event>): string
  {
    Join(", ", MatchOptions(matches[..if |matches| < 5 then |matches| else 5])) +
    (if |matches| > 5 then ", \U{2026}" else "")
  }

  /** Each of the first five matches is offered by name. */
  lemma OptionsNameFirstFive(matches: seq<Event>, i: nat)
    requires i < |matches| && i < 5
    ensures Contains(OptionsText(matches), MatchOption(matches[i]))
  {
    var k := if |matches| < 5 then |matches| else 5;
    var opts := MatchOptions(matches[..k]);
    var joined := Join(", ", opts);
    JoinContains(", ", opts, i);
    var tail := if |matches| > 5 then ", \U{2026}" else "";
    assert OptionsText(matches) == joined + tail;
    ContainsPrefix(joined, tail);
    ContainsTrans(OptionsText(matches), joined, MatchOption(matches[i]));
  }

  /** The new trigger a reschedule asks for: the absolute time when given,
      else the original shifted by the adjustment, else none. */
  function NewTrigger(original: Event, newDatetime: Option<Timestamp>, adjustment: Option<(int, string)>)
    : (r: Option<Result<Timestamp>>)
    ensures newDatetime.Some? ==> r == Some(Ok(newDatetime.value))
    ensures r.None? <==> newDatetime.None? && adjustment.None?
  {
    if newDatetime.Some? then Some(Ok(newDatetime.value))
    else if adjustment.Some? then Some(ApplyRelativeAdjustment(original.datetime, adjustment.value.0, adjustment.value.1))
    else None
  }

  /** The success message of a reschedule. */
  function RescheduleMessage(original: Event, newDt: Timestamp, adjusted: bool): string
  {
    (if adjusted then "Adjusted" else "Rescheduled") + " '" + original.event + "' from " +
    MinuteText(original.datetime) + " to " + MinuteText(newDt) + "."
  }

  /** The records the list handler returns: the range filter, then the
      keyword filter when a keyword is given. */
  function ListedEvents(events: seq<Event>, range: DateRanges.DateRange, keyword: Option<string>): (r: seq<Event>)
  {
    var inRange := CalendarService.RangeFiltered(events, range.start, range.end);
    if HasKeyword(keyword) then CalendarService.FilterEventsByKeyword(inRange, keyword.value) else inRange
  }

  /** A listed record is a stored record inside the window that, when a
      keyword is given, mentions it; the listing keeps the stored order. */
  lemma ListedEventsSpec(events: seq<Event>, range: DateRanges.DateRange, keyword: Option<string>)
    ensures forall e :: e in ListedEvents(events, range, keyword) <==>
      e in events && CalendarService.InRange(e, range.start, range.end) &&
      (HasKeyword(keyword) ==> CalendarService.MatchesKeyword(e, keyword.value))
    ensures Seqs.IsSubsequence(ListedEvents(events, range, keyword), events)
  {
    var inRange := CalendarService.RangeFiltered(events, range.start, range.end);
    CalendarService.RangeFilteredSubsequence(events, range.start, range.end);
    CalendarService.RangeFilteredMembers(events, range.start, range.end);
    if HasKeyword(keyword) {
      CalendarService.KeywordFilteredMembers(inRange, keyword.value);
      CalendarService.KeywordFilteredSubsequence(inRange, keyword.value);
      SubsequenceTrans(ListedEvents(events, range, keyword), inRange, events);
    }
  }

  /** A subsequence of a subsequence is a subsequence. */
  lemma {:induction false} SubsequenceTrans(a: seq<Event>, b: seq<Event>, c: seq<Event>)
    requires Seqs.IsSubsequence(a, b) && Seqs.IsSubsequence(b, c)
    ensures Seqs.IsSubsequence(a, c)
    decreases |c|
  {
    if a == [] {
    } else if |c| > 0 && Seqs.IsSubsequence(b, c[..|c| - 1]) {
      SubsequenceTrans(a, b, c[..|c| - 1]);
    } else {
      var b' := b[..|b| - 1];
      var c' := c[..|c| - 1];
      if a[|a| - 1] == b[|b| - 1] && Seqs.IsSubsequence(a[..|a| - 1], b') {
        SubsequenceTrans(a[..|a| - 1], b', c');
      } else {
        SubsequenceTrans(a, b', c');
      }
    }
  }

  /** The confirmation of a created task; the impact is mentioned only when
      there is one. */
  function CreatedMessage(created: Event): string
  {
    var impactSuffix := if created.details != "" then " with impact '" + created.details + "'" else "";
    "Created task '" + created.event + "' at " + DateTimeStr(created.datetime) + impactSuffix
  }

  /** `handle_create_event`: refuse with the missing components, or upsert
      the record, append it and report it. */
  method HandleCreateEvent(created: Event, calendar: CalendarService.Service, existing: seq<Event>)
    returns (result: ActionResult, write: Option<Store.FileWrite>)
    ensures var missing := MissingComponents(Some(created.datetime), created.event, created.details);
      (missing != [] ==>
        result == ActionResult(false, MissingMessage(Some(created.datetime), created.event, missing), None) &&
        write.None?) &&
      (missing == [] ==>
        result == ActionResult(true, CreatedMessage(created), Some(existing + [created])) &&
        write == Some(Store.FileWrite(calendar.dataPath, Store.SaveRows(existing + [created]))))
  {
    var missing := MissingComponents(Some(created.datetime), created.event, created.details);
    if missing != [] {
      return ActionResult(false, MissingMessage(Some(created.datetime), created.event, missing), None), None;
    }
    var updated, w := calendar.UpsertEvent(existing, created, false, None);
    Store.UpsertedAppendsOnly(existing, created, false, None);
    result := ActionResult(true, CreatedMessage(created), Some(updated));
    write := Some(w);
  }

  /** `str(datetime)`: the ISO form with a space, the year padded to four
      digits. */
  function DateTimeStr(t: Timestamp): string
  {
    ZeroPad(if t.date.year < 0 then 0 else t.date.year, 4) + "-" + ZeroPad(t.date.month, 2) + "-" +
    ZeroPad(t.date.day, 2) + " " + FormatClock(t)
  }

  /** For four-digit years `str(datetime)` and the storage format agree. */
  lemma DateTimeStrIsFormat(t: Timestamp)
    requires 1000 <= t.date.year <= 9999
    ensures DateTimeStr(t) == FormatDateTime(t)
  {
    NatToStringFourDigits(t.date.year);
  }

  /** `handle_list_events`, with today's date as an input. */
  method HandleListEvents(range: string, keyword: Option<string>, today: CalendarDate,
                          calendar: CalendarService.Service, existing: seq<Event>)
    returns (result: ActionResult)
    ensures DateRanges.ResolveDateRange(range, today).Fail? ==>
      result == ActionResult(false, "Unknown date range kind: " + range, None)
    ensures DateRanges.ResolveDateRange(range, today).Ok? ==>
      var listed := ListedEvents(existing, DateRanges.ResolveDateRange(range, today).value, keyword);
      result == ActionResult(true, Join("\n", EventListLines(listed, range, keyword)), Some(listed))
  {
    var info := DateRanges.ResolveDateRange(range, today);
    if info.Fail? {
      return ActionResult(false, info.failure.message, None);
    }
    var events := calendar.FilterEventsByRange(existing, info.value.start, info.value.end);
    if HasKeyword(keyword) {
      events := CalendarService.FilterEventsByKeyword(events, keyword.value);
    }
    var message := FormatEventList(events, range, keyword);
    result := ActionResult(true, message, Some(events));
  }

  /** `handle_reschedule_event`. A ValidationError from the adjustment is
      not caught by the handler and comes back as `Fail`. */
  method HandleRescheduleEvent(target: string, newDatetime: Option<Timestamp>, adjustment: Option<(int, string)>,
                               calendar: CalendarService.Service, existing: seq<Event>)
    returns (result: Result<ActionResult>, write: Option<Store.FileWrite>)
    ensures var matches := MatchEvents(existing, target);
      (|matches| == 0 ==>
        result == Ok(ActionResult(false, "No tasks found matching '" + target + "'.", None)) && write.None?) &&
      (|matches| > 1 ==>
        result == Ok(ActionResult(false, "Multiple tasks match '" + target + "': " + OptionsText(matches), None)) &&
        write.None?) &&
      (|matches| == 1 && NewTrigger(matches[0], newDatetime, adjustment).None? ==>
        result == Ok(ActionResult(false, "No new trigger (x) provided for reschedule.", None)) && write.None?)
    ensures var matches := MatchEvents(existing, target);
      |matches| == 1 && NewTrigger(matches[0], newDatetime, adjustment).Some? ==>
      match NewTrigger(matches[0], newDatetime, adjustment).value
      case Fail(f) => result == Fail(f) && write.None?
      case Ok(t) =>
        var updated := Store.Upserted(existing, WithUpdated(matches[0], Some(t), None, None), true, Some(matches[0]));
        result == Ok(ActionResult(true, RescheduleMessage(matches[0], t, adjustment.Some? && newDatetime.None?), Some(updated))) &&
        write == Some(Store.FileWrite(calendar.dataPath, Store.SaveRows(updated)))
  {
    var matches := MatchEvents(existing, target);
    if |matches| == 0 {
      return Ok(ActionResult(false, "No tasks found matching '" + target + "'.", None)), None;
    }
    if |matches| > 1 {
      return Ok(ActionResult(false, "Multiple tasks match '" + target + "': " + OptionsText(matches), None)), None;
    }
    var original := matches[0];
    var newDt: Timestamp;
    if newDatetime.Some? {
      newDt := newDatetime.value;
    } else if adjustment.Some? {
      var shifted := ApplyRelativeAdjustment(original.datetime, adjustment.value.0, adjustment.value.1);
      if shifted.Fail? {
        return Fail(shifted.failure), None;
      }
      newDt := shifted.value;
    } else {
      return Ok(ActionResult(false, "No new trigger (x) provided for reschedule.", None)), None;
    }
    var updatedEvent := WithUpdated(original, Some(newDt), None, None);
    var updatedEvents, w := calendar.UpsertEvent(existing, updatedEvent, true, Some(original));
    var adjusted := adjustment.Some? && newDatetime.None?;
    result := Ok(ActionResult(true, RescheduleMessage(original, newDt, adjusted), Some(updatedEvents)));
    write := Some(w);
  }

  /** A successful reschedule replaces the one matching record by its
      moved copy: same length, the original gone once, the copy last with
      the outcome and impact unchanged. */
  lemma RescheduleReplacesMatch(existing: seq<Event>, target: string, t: Timestamp)
    requires |MatchEvents(existing, target)| == 1
    ensures var original := MatchEvents(existing, target)[0];
      var moved := WithUpdated(original, Some(t), None, None);
      var updated := Store.Upserted(existing, moved, true, Some(original));
      |updated| == |existing| && updated[|updated| - 1] == moved &&
      moved.event == original.event && moved.details == original.details && moved.datetime == t &&
      multiset(updated) == multiset(existing) - multiset{original} + multiset{moved}
  {
    var original := MatchEvents(existing, target)[0];
    MatchEventsSpec(existing, target);
    assert original in MatchEvents(existing, target);
    var moved := WithUpdated(original, Some(t), None, None);
    Store.UpsertedReplacesFirst(existing, moved, original);
  }
}
