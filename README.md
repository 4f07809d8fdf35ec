# tcal in Dafny

This project models the deterministic core of tcal, a terminal calendar with agenda and month views over a CSV file of events, and proves what that core promises. Each event has a datetime, a title and details.

The model covers the following parts:

- **The key-driven state machine of the curses UI** (`orchestrator.py` over `state.py`):
  - overlays and Esc;
  - the `,` leader and its 1000 ms timeout;
  - the two-press `dd` delete with its 600 ms window;
  - agenda and month-grid navigation;
  - jump to today;
  - editing through the external editor, with re-selection afterwards.

  Each handler is a function from the view state before a key to the state after it and what the handler returns (redraw or not, or the exception that escapes). The `Orchestrator` class holds a mutable `AppState` and performs the corrected updates in place: where a handler as written misbehaves (see ## Findings), the class follows the corrected handler, and the as-written one is kept as a function beside it. Each of its methods is proved equal to its handler function, and the properties are proved about the functions in `OrchestratorProperties`. The chief property is that every key keeps the agenda selection on the list of events. The clock, the calendar's deletion and the editor's answer are inputs (`Env`).
- **The views' arithmetic** (`view_agenda.py`, `view_month.py`, `ui_base.py`):
  - selection clamps and the scroll that follows the selection;
  - grouping events by day;
  - day, week and month moves on a proleptic Gregorian calendar, with end-of-month clamping;
  - the Monday-first month grid;
  - the split of rows between the grid and the events pane;
  - cell widths, labels and attributes, and the centred box.

  A drawing call is described by the `addnstr` it makes (`UiBase.Put`). The drawing loops are methods proved to draw exactly the rows or cells a function describes.
- **Records and storage** (`models.py`, `store.py`, `calendar_service.py`):
  - `parse_datetime`;
  - payload normalisation and the JSON form;
  - the CSV row form and its round trip;
  - the two sort orders;
  - the upsert that replaces the first equal record and appends;
  - the inclusive range filter and the keyword filter.
- **Date ranges** (`date_ranges.py`): the named windows, from an explicit `today`.
- **Commands**:
  - the intent validation (`intents.py`);
  - the action helpers and handler decisions (`actions.py`);
  - the structured command block: entry splitting, parsing and printing (`structured_command.py`);
  - the command-line flag scan and dispatch (`main.py`).

Dates are numbered as `date.toordinal()` numbers them, and weekdays as `date.weekday()`. Datetimes have whole seconds.

## Model

| member | source | states |
|---|---|---|
| Common.MapResult | store.py:38 | a loop over items that stops at the first failure: on success one value per item in order, on failure the failure of the first item that fails, every earlier item having succeeded |
| Common.MapResultAllOk | store.py:38 | when every item maps to a value, the loop succeeds with exactly those values |
| Seqs.Map | structured_command.py:110-114 | a list comprehension without a filter: one image per item, in order |
| Text.LeadingSpaces | models.py:38 | the count of leading whitespace characters: all of them whitespace, and the next one not |
| Text.TrailingSpaces | models.py:38 | the count of trailing whitespace characters: all of them whitespace, and the one before them not |
| Text.Strip | models.py:38 | `str.strip()`: the middle of the text after its leading whitespace, starting and ending on a non-blank character, with only whitespace after it |
| Text.StripUnchanged | models.py:38 | text without surrounding whitespace is its own strip |
| Text.StripIdempotent | models.py:66 | stripping twice is stripping once |
| Text.StripEmptyIffAllSpace | actions.py:37-40 | a text is blank after stripping exactly when it is all whitespace |
| Text.AllSpaceConcat | structured_command.py:120-129 | two all-blank texts make an all-blank text |
| Text.Lower | calendar_service.py:46-50 | `str.lower()` on ASCII: same length, each letter lower-cased |
| Text.LowerUnchanged | calendar_service.py:46-50 | text without capitals is its own lower case |
| Text.Title | actions.py:208 | `str.title()` on ASCII: a letter after a letter is lower-cased, any other letter upper-cased |
| Text.ReplaceChar | models.py:44 | `str.replace` of one character: same length, each occurrence replaced and nothing else changed |
| Text.ReplaceAbsent | models.py:44 | replacing a character the text does not hold changes nothing |
| Text.ContainsEmpty | calendar_service.py:46-50 | the empty keyword is contained in every text |
| Text.ContainsMiddle | calendar_service.py:46-50 | a text contains anything it is the middle of |
| Text.ContainsPrefix | calendar_service.py:46-50 | a text contains its own prefix |
| Text.ContainsSuffix | calendar_service.py:46-50 | a text contains its own suffix |
| Text.ContainsTrans | calendar_service.py:46-50 | containment is transitive |
| Text.JoinNonEmpty | structured_command.py:124 | joining parts whose first part is non-empty gives a non-empty text |
| Text.JoinSnoc | structured_command.py:124 | joining one more part appends the separator and that part |
| Text.JoinContains | structured_command.py:124 | a joined text contains each of its parts |
| Text.JoinedPartContains | actions.py:139 | whatever one part contains, the joined text contains too |
| Text.JoinMiddleContains | actions.py:139 | whatever a part in the middle contains, the joined text contains too |
| Text.JoinEnds | structured_command.py:124 | a join of non-empty parts starts with the first part's first character and ends with the last part's last one |
| Text.JoinStripped | structured_command.py:121-124 | a join of stripped, non-empty parts is non-empty and its own strip |
| Text.JoinExtendLast | structured_command.py:124 | extending the last part extends the joined text by the same characters |
| Text.NoLineBreakConcat | structured_command.py:120 | two texts without line boundaries make one without them |
| Text.IndexOfLineBreak | structured_command.py:120 | the first line boundary, with no boundary before it |
| Text.SplitLinesHaveNoBreaks | structured_command.py:120 | no line that `splitlines()` returns holds a line boundary |
| Text.IndexOfLineBreakAfter | structured_command.py:120 | in a line, a line feed and the rest, the first boundary is right after the line |
| Text.SplitLinesCons | structured_command.py:120 | a line followed by a line feed is the first line of the split |
| Text.SplitLinesLeadingBreak | structured_command.py:120 | a leading line feed opens an empty first line |
| Text.SplitLinesBlank | structured_command.py:120 | a line followed by an empty line gives both lines first |
| Text.SplitLinesSingle | structured_command.py:120 | a non-empty text without boundaries is a single line |
| Text.SliceTo | ui_base.py:59 | the slice `s[:k]`: a prefix of s, of length k when k fits and k is not negative |
| Text.Spaces | ui_base.py:33 | n blanks |
| Text.LJust | ui_base.py:33 | `str.ljust(width)`: the text itself, padded up to `width` characters |
| Text.RJust | view_month.py:150 | `str.rjust(width)`: as long as the text or `width`, whichever is more |
| Text.NatToString | view_month.py:149 | `str(n)` of a natural number is a non-empty run of digits |
| Text.IntToString | actions.py:220 | `str(n)` is never empty |
| Text.NatToStringValue | view_month.py:149 | reading back `str(n)` gives n |
| Text.ZeroPad | models.py:76 | a zero-padded field is exactly `width` digits |
| Text.ZeroPadValue | models.py:76 | reading back a zero-padded number gives it back when it fits the width |
| Text.NatToStringFourDigits | models.py:76 | a four-digit year prints the same with `str` and with `%Y` |
| Dates.DaysInMonth | view_month.py:210 | the month length `calendar.monthrange` gives: 28 to 31 days, 29 exactly for February of a leap year |
| Dates.Weekday | date_ranges.py:26 | `date.weekday()` lies in 0..6 |
| Dates.NextDayOrdinal | view_month.py:199-200 | the day after a date has the next day number |
| Dates.PrevDayOrdinal | view_month.py:199-200 | the day before a date has the previous day number |
| Dates.AddDaysOrdinal | view_month.py:199-200 | adding n days with `timedelta` moves the day number by exactly n, forwards or backwards |
| Dates.OrdinalWithinYear | view_month.py:199-200 | a date's day number lies within the days of its own year |
| Dates.OrdinalOrder | orchestrator.py:343-357 | the day number orders dates the way Python compares them, and equal numbers mean equal dates |
| Dates.EarlierYear | orchestrator.py:343-357 | every date of an earlier year comes before every date of a later one |
| Dates.OrdinalInjective | view_month.py:199-203 | two dates with the same day number are the same date |
| Dates.AddDaysAdd | view_month.py:199-203 | adding a days and then b days is adding a + b days |
| Dates.AddDaysWeekday | date_ranges.py:25-30 | moving n days moves the weekday by n modulo 7 |
| Dates.LastDayThenFirst | date_ranges.py:37-39 | the day after a month's last day is the 1st of the next month, and the day before that 1st is the last day |
| Dates.SecondOfDay | date_ranges.py:17-22 | the second within the day of a datetime lies in 0..86399 |
| Dates.SecondsInjective | calendar_service.py:35-42 | datetimes that denote the same second are equal |
| Dates.BeforeIsLexicographic | calendar_service.py:35-42 | one datetime is before another exactly when its date is earlier, or the date is the same and its time of day is earlier |
| Dates.StartOfDay | date_ranges.py:17-18 | `_start_of_day` is midnight of the same date |
| Dates.EndOfDay | date_ranges.py:21-22 | `_end_of_day` is 23:59:59 of the same date |
| Dates.AddSecondsSeconds | actions.py:184-196 | adding a `timedelta` of n seconds moves the datetime by exactly n seconds |
| Dates.AddSecondsParts | actions.py:184-196 | the shifted datetime's date and time of day are the day carry and the remainder of the shift |
| Dates.AddSecondsAdd | actions.py:184-196 | shifting by a and then b seconds is shifting by a + b |
| Dates.AddSecondsTwice | actions.py:184-196 | two shifts move the clock by their sum |
| Dates.AddSecondsUnique | actions.py:184-196 | the shifted datetime is the only one that many seconds later |
| DateRanges.StartOfWeek | date_ranges.py:25-26 | `_start_of_week` is a Monday, at most six days before the given day |
| DateRanges.EndOfWeek | date_ranges.py:29-30 | `_end_of_week` is a Sunday, six days after the start of the week and at most six days after the given day |
| DateRanges.StartOfMonth | date_ranges.py:33-34 | `_start_of_month` is the 1st of the same month and year |
| DateRanges.TwentyEighthPlusFour | date_ranges.py:38 | four days after the 28th always lands in the next month |
| DateRanges.EndOfMonthIsLastDay | date_ranges.py:37-39 | `_end_of_month` is the last day of the same month, and the next day is the 1st of the following month |
| DateRanges.ResolveDateRange | date_ranges.py:42-84 | an unknown kind raises ValueError with the kind in the message |
| DateRanges.ResolveKnownKinds | date_ranges.py:45-84 | a kind resolves exactly when it is one of the ten known kinds |
| DateRanges.SingleDayKinds | date_ranges.py:45-54 | the day-before-yesterday, yesterday, today and tomorrow windows each cover one whole day, two days back to one day ahead |
| DateRanges.ThisWeek | date_ranges.py:56-59 | `this_week` runs from a Monday to the Sunday six days later and contains today |
| DateRanges.ThisMonth | date_ranges.py:61-64 | `this_month` covers the 1st through the last day of today's month |
| DateRanges.NextMonth | date_ranges.py:66-69 | `next_month` covers the whole following month, and December rolls over to January of the next year |
| DateRanges.LastDayOfPreviousMonth | date_ranges.py:72 | the day before the 1st of this month is the last day of its own month |
| DateRanges.LastMonth | date_ranges.py:71-74 | `last_month` runs from the 1st to the last day of the previous month, and January goes back to December of the previous year |
| DateRanges.ThisYear | date_ranges.py:76-79 | `this_year` covers January 1 to December 31 of today's year |
| DateRanges.RangesAreOrdered | date_ranges.py:45-82 | every bounded window starts no later than it ends, and only `all` is unbounded, on both sides |
| Models.Str | models.py:65-70 | `str()` of a JSON string is the string, of a natural number its decimal digits, and of a float, an array or an object the Python text the decoded value carries |
| Models.WithUpdatedNothing | models.py:19-30 | `with_updated()` with no arguments returns an equal event |
| Models.WithUpdatedEverything | models.py:19-30 | with every argument given, the result is built from the arguments alone |
| Models.WithUpdatedTwice | models.py:19-30 | two updates are one update in which the second's arguments win, so repeating an update changes nothing more |
| Models.FormatHourMinute | view_month.py:190 | `%H:%M` is five characters |
| Models.FormatClock | models.py:76 | `%H:%M:%S` is eight characters |
| Models.MakeTimestamp | models.py:46 | the datetime constructor succeeds exactly for year 1..9999, a real day of the month and a valid time of day, and then builds those fields |
| Models.FromIsoFormat | models.py:46 | a date `fromisoformat` accepts has the `YYYY-MM-DD` shape and those three fields, and a bare date is midnight |
| Models.IndexOfChar | models.py:54 | the first index of a character, with no earlier occurrence |
| Models.IndexOfSpace | models.py:54 | the first whitespace index, with no earlier whitespace |
| Models.FieldValue | models.py:54 | a one- or two-digit strptime field is below 100 |
| Models.ParseDatetime | models.py:37-58 | `parse_datetime` succeeds exactly when fromisoformat accepts the stripped text with `Z` dropped and `T` made a blank, or strptime, read over ASCII digits (see `Models.ParseDatetime` under ## Left out), accepts the stripped text with `:00` added to a 16-character text without `T`; otherwise ValidationError quoting that text |
| Models.NormalizeEventPayload | models.py:61-71 | a missing `datetime` or `event` key raises ValidationError; the result's name is the stripped, non-empty `str()` of `event`, its datetime the parsed `datetime`, its details `str()` of `details` or empty; with both keys and a valid datetime it fails exactly when the name strips to nothing |
| Models.EventToJsonable | models.py:74-79 | exactly the keys `datetime`, `event` and `details`, with the datetime printed as `%Y-%m-%d %H:%M:%S` |
| Models.ZeroPad2 | models.py:76 | a two-digit field reads back its value |
| Models.ZeroPad4 | models.py:76 | a four-digit field reads back its value |
| Models.FormatDateReads | models.py:76 | a printed date with a four-digit year has the ISO date shape and its fields read back |
| Models.IsoClockOfFormat | models.py:46 | `fromisoformat`'s clock reads back `%H:%M:%S` and `%H:%M` |
| Models.FromIsoFormatOfFormat | models.py:46 | `fromisoformat` reads back a printed date, any separator and a printed clock, with or without seconds |
| Models.FromIsoOfDateAndClock | models.py:46 | a printed date, any separator and a clock text that reads as t's time make t |
| Models.FormatChars | models.py:76 | a printed datetime holds only digits, `-`, `:` and a blank, and starts and ends with a digit |
| Models.PrintedCandidate | models.py:38-44 | printed text is already stripped and is its own fromisoformat candidate |
| Models.ParseOfIsoText | models.py:37-46 | printed text that fromisoformat reads parses to the same datetime |
| Models.ParseDatetimeOfFormat | models.py:37-46 | `parse_datetime` reads back what `event_to_jsonable` prints, for four-digit years |
| Models.ParseDatetimeIsoT | models.py:40-46 | the `T`-separated form with a trailing `Z` parses to the same datetime as the printed form |
| Models.IsoCandidateOfT | models.py:42-44 | dropping the `Z` and turning the `T` into a blank gives the printed form |
| Models.ParseDatetimeWithoutSeconds | models.py:50-54 | `YYYY-MM-DD HH:MM` parses to that minute with zero seconds |
| Models.IndexOfCharAfter | models.py:54 | in text without c, then c, then more, the first c is right after the text |
| Models.IndexOfSpaceAfter | models.py:54 | after a run of digits, the first blank is right after the digits |
| Models.SplitYearMonthOf | models.py:54 | strptime's year and month split off four digits, a dash, digits and a dash |
| Models.LeadingSpacesOf | models.py:54 | a run of whitespace before a non-blank character is all the leading whitespace |
| Models.SplitDayOf | models.py:54 | strptime's day field splits off digits followed by whitespace |
| Models.SplitClockOf | models.py:54 | strptime's clock splits into hour, minute and second at the two colons |
| Models.SplitStrptimeOf | models.py:54 | text shaped like `%Y-%m-%d %H:%M:%S` splits into its six fields |
| Models.SmallNatText | models.py:54 | `str(n)` of a number below 100 is a field strptime reads as n, for each field whose range holds n |
| Models.StrptimeUnpadded | models.py:54 | strptime also accepts month, day and time written without zero padding |
| Models.StrptimeOfFields | models.py:54 | fields that fit their patterns and hold t's values make t |
| Models.PaddedField | models.py:54 | a zero-padded number below 100 is a field strptime reads as that number |
| Models.FormatDateTimeFields | models.py:76 | the printed form is the six zero-padded fields with their separators |
| Models.StrptimeOfFormat | models.py:54 | strptime reads back the printed form |
| Models.ParseDatetimeIgnoresSurroundingSpace | models.py:38 | surrounding whitespace never changes what `parse_datetime` returns |
| Models.NormalizeOfJsonable | models.py:61-79 | normalising the JSON form of an event with a stripped, non-empty name and a four-digit year gives the event back |
| Store.SerializeEvent | store.py:19-20 | a row of exactly three fields: the printed datetime, the name and the details |
| Store.DeserializeRow | store.py:23-29 | a row shorter than three fields raises StorageError; otherwise it reads exactly when its first field parses, with the name and details from the next two fields |
| Store.DeserializeSerialized | store.py:19-29 | a serialised event with a four-digit year reads back as the same event |
| Store.DeserializeIgnoresExtraColumns | store.py:26 | columns after the third never change what a row reads as |
| Store.StrLeqTotal | store.py:58 | the text order of the sort key is total |
| Store.StrLeqAntisymmetric | store.py:58 | texts ordered both ways are equal |
| Store.LeqTotal | store.py:41-58 | both sort keys order any two events one way or the other |
| Store.LeqAllFieldsByDatetime | store.py:41-58 | the (datetime, event, details) order refines the datetime order |
| Store.LeqAllFieldsAntisymmetric | store.py:58 | under the (datetime, event, details) order only equal events tie |
| Store.Insert | store.py:41-58 | one insertion step of the sort adds one element, ending with it or with the old last element |
| Store.InsertPermutes | store.py:41-58 | insertion adds the element and loses nothing |
| Store.SortBy | store.py:41-58 | the sort returns as many events as it was given |
| Store.SortByPermutes | store.py:41-58 | the sort is a permutation of its input |
| Store.InsertSorted | store.py:41-58 | inserting into a sorted list keeps it sorted |
| Store.SortedSnoc | store.py:41-58 | a sorted list stays sorted when an element not below its last is appended |
| Store.SortBySorted | store.py:41-58 | the sort's result is ordered by its key |
| Store.SortBySortedIdentity | store.py:41-58 | sorting a list already in order returns it unchanged |
| Store.AtDatetimeSnoc | store.py:41 | the events at one datetime of a list with one more event gain that event exactly when it is at that datetime |
| Store.InsertStable | store.py:41 | an insertion keeps the events at each datetime in their order, the new one last |
| Store.SortByDatetimeStable | store.py:41 | `list.sort` is stable: the events sharing any datetime keep their input order |
| Store.SortedAllFieldsByDatetime | store.py:41-58 | a list in (datetime, event, details) order is in datetime order |
| Store.SaveRows | store.py:57-60 | `save_events` writes one serialised row per event, in (datetime, event, details) order |
| Store.DeserializeRows | store.py:38 | reading the rows stops at the first corrupt one, whose failure it returns with every earlier row read; otherwise one event per row, each the reading of its row |
| Store.LoadEvents | store.py:32-42 | a missing file holds no events; otherwise loading succeeds exactly when every row reads, giving the events read in the stable datetime sort (`SortBy(ByDatetime, …)`), a permutation sorted by datetime; a failure is StorageError `Failed to read events from <path>: <message of the first corrupt row>` |
| Store.LoadKeepsTiesInFileOrder | store.py:40 | the sort on load is stable: the events loaded at one datetime keep their file order |
| Store.DeserializeSaved | store.py:19-29 | reading the saved rows gives the saved events in (datetime, event, details) order |
| Store.LoadAfterSave | store.py:32-60 | loading what was saved gives the events in (datetime, event, details) order: the datetime sort on load leaves that order alone |
| Store.RemoveFirst | store.py:73-83 | dropping the first match shortens the list by one when the original is there, and changes nothing otherwise |
| Store.RemoveFirstSplits | store.py:73-83 | the first match's position i: the result is everything before i and everything after it, in order |
| Store.RemoveFirstSnoc | store.py:74-83 | one more event in the loop either is kept or is the first match |
| Store.UpsertEvent | store.py:63-88 | `upsert_event`'s list is the events without the first field-for-field match of the original when editing one, then the new event; the file write is `save_events` of that list |
| Store.DropFirstMatch | store.py:71-83 | the copying loop under the `replaced` flag skips exactly the first event equal to the original |
| Store.UpsertedShape | store.py:84-86 | the new event is always last; the list keeps its length when an original was found and removed, and grows by one otherwise |
| Store.UpsertedAppendsOnly | store.py:84-85 | without editing or without an original the whole list is kept, then the new event |
| Store.UpsertedReplacesFirst | store.py:70-86 | editing removes exactly the first copy of the original; later duplicates and every other event stay in order; as a multiset, the original is swapped for the new event |
| CalendarService.RangeFilteredMembers | calendar_service.py:35-42 | the range filter keeps exactly the events inside the window |
| CalendarService.KeywordFilteredMembers | calendar_service.py:45-51 | the keyword filter keeps exactly the events whose name or details contain the keyword, ignoring case |
| CalendarService.RangeFilteredStep | calendar_service.py:36-41 | one more event either extends the filtered list or leaves it alone |
| CalendarService.OutsideIffNotInRange | calendar_service.py:37-40 | the two `continue` tests reject exactly the events outside the inclusive window, a missing bound being no bound |
| CalendarService.RangeFilteredSubsequence | calendar_service.py:35-42 | the range filter keeps the order of its input |
| CalendarService.KeywordFilteredSubsequence | calendar_service.py:45-51 | the keyword filter keeps the order of its input |
| CalendarService.RangeUnbounded | calendar_service.py:37-40 | with neither bound every event is kept |
| CalendarService.EmptyKeywordKeepsAll | calendar_service.py:45-51 | the empty keyword keeps every event |
| CalendarService.LowerIdempotent | calendar_service.py:46-50 | lower-casing twice is lower-casing once |
| CalendarService.KeywordCaseInsensitive | calendar_service.py:46-50 | lower-casing the keyword first changes nothing |
| CalendarService.SameKeywordTest | calendar_service.py:46-50 | keywords equal up to case filter alike |
| CalendarService.OwnNameMatches | calendar_service.py:45-51 | an event's own name finds it |
| CalendarService.Service.constructor | calendar_service.py:17-22 | the service keeps its data path |
| CalendarService.Service.FilterEventsByRange | calendar_service.py:28-42 | the loop returns the range-filtered events |
| CalendarService.Service.UpsertEvent | calendar_service.py:53-66 | forwards to the store's upsert with the service's own path, unchanged |
| Intents.Get | intents.py:109-110 | `dict.get`: a missing key reads as None |
| Intents.AsInt | intents.py:143 | `isinstance(v, int)` holds for integers and also for booleans, Python's bool being an int |
| Intents.ParseList | intents.py:119-126 | a parsed list intent has one of the ten range values and never an empty keyword; every failure is IntentParseError |
| Intents.ParseNewDatetime | intents.py:137-139 | a missing or null `new_datetime` means none; anything else is `parse_datetime(str(value))`, whose ValidationError propagates |
| Intents.ParseAdjustment | intents.py:141-147 | with neither field there is no adjustment; otherwise it fails exactly when the amount is not an int or the unit is not minutes, hours, days or weeks, and succeeds with those two values; with an int amount, a list or object unit raises TypeError (an unhashable value in the set test) and every other failure is IntentParseError |
| Intents.ParseReschedule | intents.py:128-160 | a parsed reschedule has a stripped, non-empty target and exactly one of a new datetime or a valid adjustment; failures are IntentParseError, the ValidationError of `parse_datetime`, or the TypeError of an unhashable unit, which comes only from the adjustment fields |
| Intents.ParseIntentPayload | intents.py:104-162 | a payload that is not an object, or whose `data` is not an object, raises IntentParseError with its message; every parsed intent is well formed; every failure is IntentParseError, ValidationError or TypeError, and TypeError only for a reschedule payload |
| Intents.RangeValuesResolve | intents.py:17-28 | the accepted range values are exactly the kinds `resolve_date_range` knows, so a parsed list intent always resolves |
| Intents.IntentToPayload | intents.py:30-66 | the payload of an intent carries its name and its data fields |
| Intents.ParseListOfPayload | intents.py:119-126 | the list branch reads back a well-formed list intent |
| Intents.RescheduleFromFields | intents.py:149-160 | once the target and both time fields have been read, the result keeps the absolute time when there is one and the adjustment only otherwise |
| Intents.NewDatetimeOfFormat | intents.py:138-139 | a printed datetime with a four-digit year reads back as itself |
| Intents.ParseRescheduleOfPayload | intents.py:128-160 | the reschedule branch reads back a well-formed reschedule intent |
| Intents.AbsoluteRescheduleOfPayload | intents.py:128-160 | an absolute reschedule reads back from its printed new datetime |
| Intents.AbsoluteFields | intents.py:129-135 | the fields read from an absolute reschedule payload |
| Intents.RelativeRescheduleOfPayload | intents.py:128-160 | a relative reschedule reads back from its amount and unit |
| Intents.RelativeFields | intents.py:129-135 | the fields read from a relative reschedule payload |
| Intents.IntentNamesDiffer | intents.py:13-15 | the three intent names are distinct, so dispatch is unambiguous |
| Intents.Payload | intents.py:109-110 | the payload an intent name and its data make carries both |
| Intents.DispatchCreate | intents.py:115-117 | a create payload is built by `normalize_event_payload`, whose error propagates |
| Intents.DispatchList | intents.py:119-126 | a list payload goes to the list branch |
| Intents.DispatchReschedule | intents.py:128-160 | a reschedule payload goes to the reschedule branch |
| Intents.ParseOfPayload | intents.py:104-162 | every well-formed intent with four-digit years survives the trip through its JSON payload |
| Intents.EmptyKeywordDropped | intents.py:123-126 | an empty keyword becomes no keyword |
| Intents.AbsoluteWins | intents.py:152-154 | with both an absolute time and a valid adjustment, the absolute time wins and the adjustment is dropped |
| Intents.RescheduleNeedsTarget | intents.py:142-150 | an amount or unit given alone, or neither an absolute nor a relative target, raises IntentParseError |
| Actions.MissingComponents | actions.py:33-41 | the trigger is reported exactly when absent, the outcome and the impact exactly when blank after stripping, always in the order trigger, outcome, impact |
| Actions.InferImpactClause | actions.py:44-52 | the cooking clause exactly when the lower-cased outcome holds a cooking word; the study clause exactly when it holds no cooking word but a study word; the exercise clause after both; the default otherwise |
| Actions.CookingWins | actions.py:45-47 | an outcome mentioning cooking in any letter case gets the cooking clause, whatever else it mentions |
| Actions.MissingLineNamesEach | actions.py:59-69 | the `Missing:` line names every missing component |
| Actions.MissingMessageNamesEach | actions.py:55-76 | the refusal message names every missing component |
| Actions.MatchEventsSpec | actions.py:174-181 | the matches are exactly the events whose outcome or impact contains the description, ignoring case, in their original order |
| Actions.UnitSeconds | actions.py:188-193 | each relative unit is a positive number of seconds |
| Actions.ApplyRelativeAdjustment | actions.py:184-196 | an unknown unit raises ValidationError naming it; otherwise the datetime moves by the amount times the unit's seconds |
| Actions.WeekIsSevenDays | actions.py:192 | shifting by n weeks is shifting by 7n days |
| Actions.ShiftBack | actions.py:184-196 | shifting back by the same amount returns the original time |
| Actions.EventListShape | actions.py:199-221 | an empty listing is one line; otherwise the header with the total, the first ten events in order, and a line counting the rest when there are more than ten |
| Actions.HeaderCountsAll | actions.py:208-211 | the header ends with the total in brackets |
| Actions.ExtendEventLines | actions.py:214-218 | one more event, one more line |
| Actions.FormatEventList | actions.py:199-221 | the loop's message is the listing's lines joined by line feeds |
| Actions.OptionsNameFirstFive | actions.py:139-141 | each of the first five matches is offered by name |
| Actions.NewTrigger | actions.py:146-151 | the absolute time when given, else the shifted original, else no trigger at all |
| Actions.ListedEventsSpec | actions.py:116-123 | a listed event is a stored event inside the window that mentions the keyword when one is given; the listing keeps the stored order |
| Actions.SubsequenceTrans | actions.py:116-123 | a subsequence of a subsequence is a subsequence |
| Actions.HandleCreateEvent | actions.py:79-102 | with missing components: the refusal message and no write; otherwise success with the stored events plus the new one, and `save_events` of that list |
| Actions.DateTimeStrIsFormat | actions.py:100 | for four-digit years `str(datetime)` prints as the storage format |
| Actions.HandleListEvents | actions.py:105-126 | an unknown range fails with the resolver's message; otherwise success with the range- and keyword-filtered events and their listing |
| Actions.HandleRescheduleEvent | actions.py:129-171 | no match, several matches or no new trigger: failure with its message and no write; an unknown unit raises; one match with a trigger: the match replaced by its moved copy, saved, with "Adjusted" for a relative-only change and "Rescheduled" otherwise |
| Actions.RescheduleReplacesMatch | actions.py:144-160 | a successful reschedule keeps the length, removes the original once and appends its moved copy with outcome and impact unchanged |
| StructuredCommand.ExtractComponent | structured_command.py:44-49 | a block that is found gives its stripped contents; a missing one raises StructuredCommandError naming its label |
| StructuredCommand.CheckComponents | structured_command.py:63-81 | in this order: an empty outcome, an empty bucket, a bucket not among the buckets and a datetime that does not parse each raise StructuredCommandError with its own message; otherwise the record holds the lower-cased bucket, the parsed datetime and the outcome and impact as given |
| StructuredCommand.InvalidBucketListsBuckets | structured_command.py:69-71 | the bucket error names the rejected bucket and every accepted one |
| StructuredCommand.ParseStructuredCommand | structured_command.py:52-81 | blank text raises "Command text is empty"; every failure is StructuredCommandError |
| StructuredCommand.MissingBlockReported | structured_command.py:58-61 | the first missing block in the order bucket, x, y, z is the one reported |
| StructuredCommand.ParseOfComponents | structured_command.py:58-81 | with all four blocks present, the result is what the checks on their stripped contents decide |
| StructuredCommand.ParseOfExtracted | structured_command.py:52-107 | when the bracket contents read back what was printed, a printed command parses to the record it came from; the extractor as written never reads them back (see `_extract_component` under ## Left out) |
| StructuredCommand.CheckOfPrinted | structured_command.py:63-81 | the checks accept the fields of a record as printed |
| StructuredCommand.PrintedDateTimeParses | structured_command.py:73-76 | a printed datetime has no surrounding whitespace and parses back |
| StructuredCommand.BucketsAreCanonical | structured_command.py:66-69 | each bucket name is already stripped and lower-case |
| StructuredCommand.BucketChars | structured_command.py:24-28 | the bucket names are non-empty runs of lower-case letters and underscores |
| StructuredCommand.SplitEntries | structured_command.py:117-130 | the loop's entries are the entries of the text's lines |
| StructuredCommand.TrimmedIsStripped | structured_command.py:121 | a trimmed text is non-empty and its own strip |
| StructuredCommand.JoinTrimmed | structured_command.py:124 | a join of trimmed lines is trimmed |
| StructuredCommand.ScanTrimmed | structured_command.py:120-127 | the loop only ever holds trimmed lines and trimmed entries |
| StructuredCommand.ScanOpen | structured_command.py:122-127 | an entry is open exactly when the last line is not blank |
| StructuredCommand.ScanCount | structured_command.py:120-129 | finished entries plus the open one count the maximal runs of non-blank lines |
| StructuredCommand.ScanEmpty | structured_command.py:120-129 | there is no entry at all exactly when no line is non-blank |
| StructuredCommand.EntriesShape | structured_command.py:117-130 | every entry is non-empty and stripped, and there is one entry per maximal run of non-blank lines |
| StructuredCommand.EntriesKeepText | structured_command.py:117-130 | blank lines only separate: the entries joined by spaces are the stripped non-blank lines joined by spaces |
| StructuredCommand.KeepTextStep | structured_command.py:127 | one non-blank line extends the joined text by a space and the line |
| StructuredCommand.ParseStructuredBlock | structured_command.py:84-97 | the block's result is its entries parsed in turn, the first failure reported with its position |
| StructuredCommand.ParseEntries | structured_command.py:91-97 | the loop returns the entries parsed in turn, stopping at the first failure |
| StructuredCommand.ParseFromOk | structured_command.py:91-97 | a block that parses gives one record per entry, each the record its entry parses to |
| StructuredCommand.ParseFromFail | structured_command.py:92-96 | a failing block reports the first entry that does not parse, prefixed `Entry k: ` with k counted from 1 |
| StructuredCommand.ParseFromOkIffAll | structured_command.py:91-97 | the block parses exactly when every entry does |
| StructuredCommand.BlankBlockIsEmpty | structured_command.py:87-89 | text without a non-blank line has no entries, so the block parses to no records |
| StructuredCommand.InterleaveSnoc | structured_command.py:114 | one more command adds an empty line and the command |
| StructuredCommand.SplitJoined | structured_command.py:114-120 | single-line commands joined by a blank line split back into those lines with an empty line between |
| StructuredCommand.ScanSnoc | structured_command.py:120-127 | one more line is one more step of the loop |
| StructuredCommand.ScanInterleaved | structured_command.py:120-127 | scanning interleaved trimmed commands leaves the last open and the others finished |
| StructuredCommand.DateTimeOneLine | structured_command.py:105 | a printed datetime is one line |
| StructuredCommand.TemplateIsTrimmed | structured_command.py:103-107 | a filled template starts and ends with a non-blank character |
| StructuredCommand.TemplateIsOneLine | structured_command.py:103-107 | a filled template is one line when its fields are |
| StructuredCommand.TemplatePiecesOneLine | structured_command.py:103-107 | the template's fixed text holds no line boundary |
| StructuredCommand.CommandIsOneLine | structured_command.py:100-107 | a printed command is one trimmed line when its fields hold no line boundary |
| StructuredCommand.SplitOfFormattedBlock | structured_command.py:110-130 | splitting a printed block into entries gives one entry per record: its command |
| StructuredCommand.SplitOfJoinedCommands | structured_command.py:114-130 | single-line trimmed texts joined by blank lines split back into exactly those texts |
| Cli.FlagsDisjoint | main.py:74-79 | an argument is a flag of at most one kind |
| Cli.ParseArgs | main.py:63-82 | the loop's result: the arguments that are not flags, in order, and each flag set exactly when it appears anywhere |
| Cli.GivenStep | main.py:70-81 | one more argument either extends `remaining` or sets its own flag, and leaves the rest alone |
| Cli.NonFlagsMembers | main.py:80-81 | no flag is passed on, every other argument is, in its original order |
| Cli.NonFlagsSkipFlag | main.py:74-81 | a flag added anywhere leaves the other arguments alone |
| Cli.RepeatedFlag | main.py:74-79 | repeating a flag that is already given changes nothing |
| Cli.Dispatch | main.py:94-111 | version wins over help, help over upgrade, upgrade over the natural-language text, and with nothing left the UI starts; the text is the remaining arguments joined by single spaces |
| Cli.Run | main.py:85-111 | `main` dispatches on the parsed arguments |
| Cli.VersionWins | main.py:76-77 | `--version` wins wherever it stands |
| Cli.PlainArguments | main.py:106-111 | without flags, the arguments joined by single spaces are the natural-language text; with no arguments the UI starts |
| Cli.AllPlain | main.py:80-81 | without flags every argument is passed on |
| UiBase.Clamp | ui_base.py:65-66 | `clamp` lies in [lo, hi] when lo <= hi, returns the value unchanged inside the bounds, lo below them or whenever lo > hi, and hi above them |
| UiBase.ClampIdempotent | ui_base.py:65-66 | clamping twice is clamping once |
| UiBase.Longest | ui_base.py:47 | `max(len(line) for line in lines)`: no line is longer, and some line has that length |
| UiBase.CenteredBox | ui_base.py:43-49 | with no lines `max()` raises ValueError; otherwise the box is `min(#lines + 2, h - 2)` tall and `min(longest + 4, w - 2)` wide, and centred with the odd cell left below and to the right |
| UiBase.BoxLine | ui_base.py:57-61 | line i is drawn on row i + 1 at column 2, limited to `win_w - 4` columns, as a prefix of the line that is as long as fits |
| UiBase.BoxLines | ui_base.py:57-61 | one drawing call per line |
| UiBase.BoxLinesFit | ui_base.py:43-61 | in a box wide enough for its margin, each line starts at column 2 on its own row, is cut to the box, and is shown whole when the box is wide enough for it |
| UiBase.Bar | ui_base.py:29-40 | a bar draws nothing when h or w is at most 0; otherwise it writes at column 0 of its row, limited to `w - 1` columns, the text padded with blanks |
| UiBase.LJustChars | ui_base.py:33 | padding keeps the text and fills the rest with blanks |
| UiBase.Fit | view_agenda.py:50 | `s[:n].ljust(n)` is exactly n columns: the text, cut or padded with blanks |
| UiBase.Header | ui_base.py:29-33 | `draw_header` writes on the top row |
| UiBase.Footer | ui_base.py:36-40 | `draw_footer` writes on the bottom row, `h - 1` |
| ViewAgenda.Lines | view_agenda.py:22-27 | one line per event, or the placeholder alone for no events, so there is always at least one line |
| ViewAgenda.MoveSelection | view_agenda.py:53-56 | 0 on an empty list; otherwise the moved index when it is on the list, else the nearer end, so always a valid index |
| ViewAgenda.TodayIndex | view_agenda.py:58-65 | 0 on an empty list; otherwise a valid index before which every event is earlier than now, at or after now unless it is the last index, and at or after now whenever some event is |
| ViewAgenda.FirstAtOrAfter | view_agenda.py:62-65 | the scan from an index on stops at the first event at or after now, or at the last index |
| ViewAgenda.JumpToToday | view_agenda.py:58-65 | the loop with early return finds the index `TodayIndex` describes |
| ViewAgenda.FollowSelection | view_agenda.py:30-35 | the selection is clamped onto the lines; with a body of at least one row, the scroll keeps it on screen and stays within [0, max(0, lines - body_h)], held where it was when the selection is visible and moved just enough otherwise |
| ViewAgenda.Row | view_agenda.py:44-50 | screen row k shows line `scroll + k`, exactly `usable_w` columns wide, reversed exactly when it is the selected line |
| ViewAgenda.DrawRows | view_agenda.py:40-50 | at most `body_h` rows, starting at line `scroll`, each the row of its line |
| ViewAgenda.Render | view_agenda.py:18-51 | the returned scroll keeps the clamped selection on screen; at most `h - 1` rows are drawn, none when h or w is at most 1; each row shows its line, and the selected line is among them whenever anything is drawn |
| ViewMonth.GroupByDate | view_month.py:21-28 | `_group_by_date` builds the grouping of the events by day |
| ViewMonth.Bucket | view_month.py:22-25 | the first loop keys exactly the days that have events, each list holding that day's events in order |
| ViewMonth.SortBuckets | view_month.py:26-27 | the second loop sorts each day's list by datetime and keeps the days |
| ViewMonth.AppendToBucket | view_month.py:25 | one more event joins the list of its own day and no other |
| ViewMonth.DatesOfStep | view_month.py:24-25 | one more event adds its own day to the keys |
| ViewMonth.OnDateCounts | view_month.py:22-25 | an event is in day d's list as often as in the events when it is dated d, and not at all otherwise |
| ViewMonth.GroupedBuckets | view_month.py:21-28 | every event lands in exactly the list of its own day; each list holds all of that day's events and nothing else, sorted by datetime; a day without events has no list |
| ViewMonth.MoveDay | view_month.py:199-200 | `move_day` moves the day number by delta |
| ViewMonth.MoveWeek | view_month.py:202-203 | `move_week` moves the day number by 7 delta and keeps the weekday |
| ViewMonth.SameWeekday | view_month.py:202-203 | whole weeks keep the weekday |
| ViewMonth.MoveDayCompose | view_month.py:199-200 | day moves add up, and moving back undoes a move |
| ViewMonth.MoveWeekUndo | view_month.py:202-203 | moving some weeks and back returns to the same day |
| ViewMonth.MoveMonth | view_month.py:205-212 | `move_month` lands delta months on, years carried by floor division so negative deltas work, on the same day or the target month's last day when it is shorter |
| ViewMonth.MonthIndexUnique | view_month.py:206-207 | a count of months names one year and month |
| ViewMonth.EndOfJanuary | view_month.py:208-212 | January 31 plus one month is February 28, or 29 in a leap year |
| ViewMonth.MoveMonthBack | view_month.py:205-212 | when the day exists in the target month the move keeps it, and moving back returns to the start |
| ViewMonth.ClampEventIndex | view_month.py:214-218 | 0 for a day without events; otherwise a valid index of that day's list: the index itself when it is valid, else the nearer end |
| ViewMonth.GridRequiredRows | view_month.py:91-95 | a month spans four to six Monday-based weeks |
| ViewMonth.GridStartsMonday | view_month.py:128-130 | every week of `monthdatescalendar` starts on a Monday |
| ViewMonth.CellOrdinal | view_month.py:144-147 | the cell of week row, column col is `7 row + col` days after the grid's first Monday |
| ViewMonth.GridCoversMonth | view_month.py:128-130 | day k of the month sits in the column of its weekday on a row of the grid, the 1st on the first row and the last day on the last, so the grid has no week without a day of the month |
| ViewMonth.WeekRows | view_month.py:91-95 | day k of an n-day month whose 1st falls on weekday wd is in week `(wd + k - 1) / 7` of `ceil((wd + n) / 7)` |
| ViewMonth.VisibleWeeks | view_month.py:142 | `weeks[:h]` shows all the month's weeks when h is enough, and h weeks otherwise |
| ViewMonth.CellWidth | view_month.py:133-139 | the cell is 7 wide exactly when the width is at least 49; otherwise the widest cell of at least 4 that lets seven fit, and 4 when even that does not |
| ViewMonth.DayLabel | view_month.py:148 | `f"{day:2d}"` is two characters for days below 100, blank-padded below 10 |
| ViewMonth.NatToStringShort | view_month.py:148-151 | numbers below 10 have one digit and below 100 two |
| ViewMonth.CellText | view_month.py:148-153 | the day label, then the count capped at 99 in brackets only when the day has events and the cell is at least 7 wide, all cut to the cell |
| ViewMonth.CellAttrs | view_month.py:155-161 | bold exactly for today, dim exactly for a day of another month, reversed exactly for the selected day |
| ViewMonth.Cell | view_month.py:144-163 | the cell of week row, column col is drawn at `y + row`, column `col * cell_w`, limited to `cell_w`, with that day's text and attributes |
| ViewMonth.DrawGrid | view_month.py:119-163 | `_draw_grid` draws the seven cells of each visible week, week by week, each the cell of its row and column |
| ViewMonth.GridSnocWeek | view_month.py:144-163 | appending a week keeps every earlier cell in its place |
| ViewMonth.DrawWeek | view_month.py:146-163 | the inner loop draws the seven cells of one week in column order |
| ViewMonth.WeekSnocCell | view_month.py:146-163 | one more cell keeps the cells drawn so far |
| ViewMonth.FitName | view_month.py:117 | a three-letter day name fitted to a cell of at least four columns is the whole name, blank-padded to the cell |
| ViewMonth.WeekdayHeader | view_month.py:97-117 | nothing on a screen without columns; otherwise the seven day names Monday first at their cell columns, each shown whole and blank-padded to the cell width, with the cell width as the limit, dimmed |
| ViewMonth.Layout | view_month.py:37-66 | nothing below the title when the body, the width or the room under the title is empty; otherwise grid and events rows add up to the available rows, the grid takes no more than its weeks plus the header, the pane keeps at least `min(3, available)` rows, and the grid is as tall as it needs unless the pane is at that minimum |
| ViewMonth.MonthTitle | view_month.py:44-47 | the title on row 0, cut to `w - 1` columns |
| ViewMonth.PaneTitle | view_month.py:180-182 | the pane's title on its first row, exactly `w - 1` columns, bold |
| ViewMonth.PaneRow | view_month.py:188-197 | line i on the row under the title plus i, exactly `usable_w` columns, reversed exactly when the pane has the focus and i is the selected index |
| ViewMonth.DrawEventsPane | view_month.py:165-197 | nothing for a day without events; otherwise the title, then the first `min(h - 1, n)` of the day's events, each the pane row of its line with the selection clamped onto the list |
| ViewMonth.DrawPaneRows | view_month.py:188-197 | the loop draws the first `count` lines, each the pane row of its index |
| ViewMonth.PaneRowsSnoc | view_month.py:188-197 | one more row keeps the rows drawn so far |
| State.LeaderState.constructor | state.py:19-22 | a new leader is inactive, has no start time and an empty sequence |
| State.AppState.constructor | state.py:26-45 | a new state shows the month view on today, with no overlay, no events, both selections at the start, the grid focused and a fresh inactive leader |
| Orchestrator.LeaderTimedOut | orchestrator.py:258-261 | only the leader flag changes: it drops exactly when the leader was active, its start time is present and not 0, and more than 1000 ms have passed |
| Orchestrator.DeleteTimedOut | orchestrator.py:263-266 | only the pending flag changes: an armed delete stays armed exactly while at most 600 ms have passed since the first `d` |
| Orchestrator.MonthEventsAsWritten | orchestrator.py:570-572 | the events dated on the selected day, each as often as in the list, in list order |
| Orchestrator.MonthEvents | view_month.py:21-28 | the selected day's events in the order the events pane lists them, which is the grouping by day, sorted by datetime |
| Orchestrator.TargetIn | orchestrator.py:288-300 | nothing is deleted in an agenda without events, on the grid, or on a day without events; an agenda index past the end is out of range (IndexError); otherwise the agenda's selected event, or the pane's selection clamped to the last event of the day |
| Orchestrator.AfterDeleteAsWritten | orchestrator.py:309-319 | the new list and the view are installed; in the month view the agenda index is left as it was |
| Orchestrator.AfterDelete | orchestrator.py:309-319 | only the events and the two selections change; the agenda index is held on the new list in both views, and in the month view the pane index is held on the day's remaining events |
| Orchestrator.DeleteKeyHandled | orchestrator.py:268-286 | a key other than `d` disarms and passes the key on; a `d` within 600 ms of an armed one disarms and deletes; any other `d` arms with its time and view and asks for no redraw |
| Orchestrator.FirstLaterDay | orchestrator.py:356-359 | the forward scan finds the first index from `from` on whose day is after the current day, or reports that there is none |
| Orchestrator.LastEarlierDay | orchestrator.py:342-343 | the backward scan finds the last index below the selection whose day is before the current day, or reports that there is none |
| Orchestrator.FirstOnDay | orchestrator.py:345-352 | `next(...)` gives the first index on the target day, and the default only when no event is on it |
| Orchestrator.GridMove | orchestrator.py:366-401 | exactly Ctrl-H, Ctrl-L, `h`, `l`, `j` and `k` move the grid cursor: `h` and `l` by one day, `k` and `j` by seven, Ctrl-H and Ctrl-L by one month |
| Orchestrator.GridKeysHandled | orchestrator.py:365-409 | only the day, the pane index and the focus change; a move key selects the day `GridMove` gives, with pane index 0; the focus moves to the pane exactly on Tab over a day with events, keeping the day, with the pane index clamped onto the day's events; an unhandled key changes nothing; a redraw exactly for a move or that Tab |
| Orchestrator.PaneKeysHandled | orchestrator.py:410-439 | only the day, the pane index and the focus change; Ctrl-H and Ctrl-L move a month back or forward with pane index 0, and the focus returns to the grid exactly when the new day has no events; `j` and `k` move the pane index one down or up, clamped onto the day's events; any other key changes nothing and is not handled; a valid pane index stays valid for the day shown while the pane keeps the focus |
| Orchestrator.SeedEventOnDay | orchestrator.py:546-550 | for a four-digit year the seed is 09:00:00 on that day with empty title and details |
| Orchestrator.AgendaSeeds | orchestrator.py:539-550 | the agenda seeds are a single event |
| Orchestrator.MonthSeeds | orchestrator.py:552-568 | the month seeds are never empty |
| Orchestrator.EditPlanIn | orchestrator.py:457-481 | over a given list of the day's events: the editor always gets at least one seed; in the agenda at most one original is replaced; with the pane focused on the event at the month index, that event is the one seed and the one original |
| Orchestrator.EditPlan | orchestrator.py:457-481 | corrected (see ## Findings): the same, over the day's events in the pane's order |
| Orchestrator.EditPlanAsWritten | orchestrator.py:467-481 | as written: the same, over the day's events in list order, so the one seed and original are the list-order event at the month index |
| Orchestrator.FirstEqual | orchestrator.py:523-530 | the first index from `from` on whose event equals the edited one field for field, and the default only when there is none |
| Orchestrator.FindFirstOnDay | orchestrator.py:345-352 | the loop finds the index `FirstOnDay` describes |
| Orchestrator.FindFirstEqual | orchestrator.py:523-530 | the loop finds the index `FirstEqual` describes |
| Orchestrator.ScanEarlierDay | orchestrator.py:342-343 | the backward loop finds the index `LastEarlierDay` describes |
| Orchestrator.ScanLaterDay | orchestrator.py:356-357 | the forward loop finds the index `FirstLaterDay` describes |
| Orchestrator.Orchestrator.constructor | orchestrator.py:50-59 | the calendar on the configured file, a fresh `AppState` on today, a last tick of 0 and no pending delete |
| Orchestrator.Orchestrator.MaybeTimeoutLeader | orchestrator.py:258-261 | the state afterwards is `LeaderTimedOut` of the state before |
| Orchestrator.Orchestrator.MaybeTimeoutDelete | orchestrator.py:263-266 | the state afterwards is `DeleteTimedOut` of the state before |
| Orchestrator.Orchestrator.MonthEventsForSelectedDate | orchestrator.py:570-572 | corrected (see ## Findings): the selected day's events, in the pane's order |
| Orchestrator.Orchestrator.HandleDeleteKey | orchestrator.py:268-286 | the state and the result are `DeleteKeyHandled` of the state before |
| Orchestrator.Orchestrator.DeleteTarget | orchestrator.py:288-300 | corrected (see ## Findings): the target is `TargetIn` over the pane's events |
| Orchestrator.Orchestrator.InstallEvents | orchestrator.py:309-319 | corrected (see ## Findings): the state afterwards is `AfterDelete` of the state before |
| Orchestrator.Orchestrator.PerformDelete | orchestrator.py:288-319 | corrected (see ## Findings): the state and the result are the corrected delete of the state before |
| Orchestrator.Orchestrator.HandleAgendaKeys | orchestrator.py:322-334 | the state and the result are the agenda-key step of the state before |
| Orchestrator.Orchestrator.AgendaJumpDay | orchestrator.py:336-360 | the state and the result are the day-jump step of the state before |
| Orchestrator.Orchestrator.HandleMonthKeys | orchestrator.py:363-439 | the state and the result are the month-key step of the state before |
| Orchestrator.Orchestrator.HandleGridKeys | orchestrator.py:365-409 | the state and the result are `GridKeysHandled` of the state before |
| Orchestrator.Orchestrator.HandlePaneKeys | orchestrator.py:410-439 | the state and the result are `PaneKeysHandled` of the state before |
| Orchestrator.Orchestrator.JumpToday | orchestrator.py:442-451 | the state and the result are the jump-to-today step of the state before |
| Orchestrator.Orchestrator.EditOrCreate | orchestrator.py:454-537 | the state and the result are the edit step of the state before, given the editor's answer |
| Orchestrator.Orchestrator.UpsertEach | orchestrator.py:510-517 | the loop's list is the events with each edited event upserted in turn, the i-th replacing the i-th original |
| Orchestrator.Orchestrator.ApplyEdited | orchestrator.py:506-537 | the state and the result are the applied edit of the state before |
| Orchestrator.Orchestrator.HandleKey | orchestrator.py:188-256 | the state and the result are the key step of the state before |
| Orchestrator.Orchestrator.Dispatch | orchestrator.py:199-256 | the state and the result are the step from the leader handling on |
| Orchestrator.Orchestrator.HandleOtherKey | orchestrator.py:221-256 | the state and the result are the step after the delete key |
| Orchestrator.Orchestrator.Draw | orchestrator.py:140-149 | only the agenda scroll changes, and only in the agenda view, where it keeps the clamped selection on screen whenever there is a body row |
| OrchestratorProperties.OverlaySwallowsKey | orchestrator.py:195-197 | an error or message overlay swallows any key: it is dismissed with a redraw and nothing else changes |
| OrchestratorProperties.EscAlwaysRedraws | orchestrator.py:225-234 | Esc always asks for a redraw and keeps the events; with no overlay and no leader it leaves the pane and drops the overlay, the leader and an armed delete |
| OrchestratorProperties.LeaderThenAgenda | orchestrator.py:199-215 | `,` arms the leader with no redraw; `a` within 1000 ms then shows the agenda with a redraw, and nothing else changes |
| OrchestratorProperties.LeaderExpires | orchestrator.py:258-261 | a leader armed at a nonzero time is gone more than 1000 ms later, and the `a` that follows leaves the view alone |
| OrchestratorProperties.SlowDoubleDRearms | orchestrator.py:268-286 | two `d` presses more than 600 ms apart never delete: each arms the delete from its own time |
| OrchestratorProperties.QuickDoubleDDeletes | orchestrator.py:268-286 | two `d` presses at most 600 ms apart delete once and leave the delete disarmed |
| OrchestratorProperties.DeleteLeavesPending | orchestrator.py:288-319 | deleting leaves the pending-delete entries as they were |
| OrchestratorProperties.DeletesHighlightedEvent | orchestrator.py:293-298 | in the events pane `dd` deletes exactly the event the pane draws reversed, and only that row is reversed |
| OrchestratorProperties.DeleteKeepsSelection | orchestrator.py:288-319 | with the agenda selection on the list a delete never raises, and the selection stays on the new list |
| OrchestratorProperties.DayJumpForward | orchestrator.py:355-360 | `l` moves exactly when a later event is on a later day, then to the nearest such event, and changes nothing else |
| OrchestratorProperties.DayJumpBackward | orchestrator.py:341-354 | `h` moves exactly when an earlier event is on an earlier day, then to the first event in the list on the day of the nearest such event, and changes nothing else |
| OrchestratorProperties.MonthKeysKeepPaneIndex | orchestrator.py:363-439 | month keys keep the pane index on the selected day's events while the pane has the focus |
| OrchestratorProperties.TabEntersPane | orchestrator.py:402-409 | Tab on the grid redraws exactly when the day has events, and exactly then focuses the pane |
| OrchestratorProperties.GridDayMovesUndo | orchestrator.py:378-389 | `h` then `l` on the grid returns to the same day, with the pane index back at 0 |
| OrchestratorProperties.GridWeekMovesUndo | orchestrator.py:390-401 | `j` then `k` on the grid returns to the same day, with the pane index back at 0 |
| OrchestratorProperties.EditNeverDeclines | orchestrator.py:483-484 | an edit never answers "not handled": the empty-seeds branch is dead |
| OrchestratorProperties.NewAgendaEventSeed | orchestrator.py:539-550 | a new agenda event starts at 09:00 today with empty title and details, for a four-digit year |
| OrchestratorProperties.UpsertAllAppends | orchestrator.py:510-517 | without originals every edited event is appended, in order |
| OrchestratorProperties.UpsertAllLength | orchestrator.py:510-517 | upserting never shortens the list and adds at most one event per edited event |
| OrchestratorProperties.UpsertAllKeepsFirst | orchestrator.py:510-517 | with at most one original the first edited event ends up in the list |
| OrchestratorProperties.AgendaEditSelectsEdited | orchestrator.py:518-530 | after an edit in the agenda the selection is on the first edited event |
| OrchestratorProperties.AgendaEditReplacesSelected | orchestrator.py:458-530 | editing the selected agenda event into one event removes the original, appends the edited one and selects it |
| OrchestratorProperties.EditAppliedKeepsSelection | orchestrator.py:506-537 | applying an edit keeps the agenda selection on the list |
| OrchestratorProperties.EditKeepsSelection | orchestrator.py:454-537 | an edit, whatever the editor answers, keeps the agenda selection on the list |
| OrchestratorProperties.AgendaKeysKeepSelection | orchestrator.py:322-360 | agenda keys never raise and keep the selection on the list |
| OrchestratorProperties.UnprefixedKeepsSelection | orchestrator.py:221-256 | the keys after the delete key keep the selection on the list |
| OrchestratorProperties.MonthKeysKeepSelection | orchestrator.py:363-439 | month keys change only the selected day, the pane index and the focus |
| OrchestratorProperties.KeyKeepsSelection | orchestrator.py:188-256 | every key keeps the agenda selection on the list of events |
| OrchestratorProperties.DispatchedKeepsSelection | orchestrator.py:199-256 | the leader, the delete key and the rest keep the selection on the list |
| OrchestratorProperties.LeaderKeepsSelection | orchestrator.py:200-210 | the key after the leader keeps the selection on the list |
| OrchestratorProperties.DeleteKeyKeepsSelection | orchestrator.py:268-286 | the delete key keeps the selection on the list |
| OrchestratorProperties.NoIndexErrorWithValidSelection | orchestrator.py:188-256 | with the selection on the list, no key other than `i` raises in the agenda |
| OrchestratorProperties.MonthDeleteLeavesStaleIndex | orchestrator.py:314-318 | as written, deleting the second of two events from the month view leaves the agenda index at 1 on a one-event list |
| OrchestratorProperties.StaleIndexRaises | orchestrator.py:336-340 | with the index past the end, `,` `a` shows the agenda, where `l` and `dd` raise IndexError |
| OrchestratorProperties.MonthDeleteKeepsIndex | orchestrator.py:309-319 | the corrected delete from that same state keeps the index on the list |
| OrchestratorProperties.ListOrderMissesHighlight | orchestrator.py:294-298 | as written, `dd` takes the first event in list order (10:00) while the pane highlights the 08:00 event |
| OrchestratorProperties.ListOrderEditsUnhighlighted | orchestrator.py:467-481 | as written, `i` on the same state seeds the editor with the 10:00 event and replaces it, while the pane highlights the 08:00 event |

## Left out

- Curses: windows, colours, `refresh`, the poll loop of `_curses_main`, the `q` quit check and `_render_overlay` are not modelled. Drawing is described by the text, position, limit and attributes of each `addnstr` call.
- Orchestrator.Orchestrator.Draw: models only the agenda part of `_draw`, which keeps the scroll offset `render` returns. The month view's drawing is modelled by `ViewMonth` on its own.
- The wall clock: `time.time()` (as whole milliseconds), `date.today()` and `datetime.today()` are parameters. One clock reading per key is assumed.
- ViewAgenda.TodayIndex: `now` is a whole-second Timestamp, while `datetime.today()` (view_agenda.py:61) carries microseconds. Events are whole seconds, so `ev.datetime >= now` agrees with the source only when `now` is the clock rounded up to a whole second (a clock already on a whole second is kept); truncating it would select an event at 10:00:00 read at 10:00:00.4, which the source skips.
- Orchestrator.LeaderTimedOut: follows the source, in which a leader armed at time 0 never times out because 0 is falsy.
- The external editor: `edit_event_via_editor` is not part of this model. Its `(ok, events | message)` answer is an input (`EditorResult`). In the source, a single seed is handed over as a lone event that `editor.py` iterates as a list. The model hands over a `Payload` and takes the answer as given.
- Orchestrator.EditApplied: an editor answer with no events raises IndexError at `updated_events[0]` in the agenda. This is modelled as `Raised`, and NoIndexErrorWithValidSelection excludes `i` for this reason.
- `_show_overlay`'s immediate redraw is not modelled. The overlay and its message are set, and the next draw shows them.
- The `except ValidationError` / `except StorageError` around the upsert loop in `_edit_or_create` is not modelled. `store.upsert_event` raises neither on the events the editor returns.
- Deletion: `CalendarService` defines no `delete_event`, which `_perform_delete` calls. The deletion is an input (`Removal`) that returns the new list or a StorageError message.
- Orchestrator.SeedEventOnDay: holds for four-digit years only. A year printed with fewer digits does not parse, and the ValidationError escapes `_edit_or_create`. The model keeps this error path.
- The `if not seeds` branch of `_edit_or_create` is modelled but dead, as EditNeverDeclines proves.
- `handle_nl_cli`, `nl_executor.py` and `openai_client.py` are not part of this model. The network and the language model are outside it.
- Files: `_write_atomic`, the file-reading side of `load_events`, `config.py` and `paths.py` are not modelled. The `csv` module is not modelled either: a file's content is its list of rows, and saving produces a `FileWrite` value.
- Store.SaveRows: an OSError while writing is not modelled.
- Years are unbounded. The OverflowError that Python's date arithmetic raises outside years 1..9999 is not modelled; only the `datetime` constructor's range check is.
- Models.ParseDatetime: fractional seconds and UTC offsets are not accepted. Only whole seconds are modelled. The `strptime` fallback (`Models.Strptime`) reads ASCII digits only. Python's `_strptime` builds `%Y`, the second digit of `%d`, and `%H`, `%M` and `%S` from `\d`, which also matches every other Unicode decimal digit, and `int()` reads those digits. So text such as `２０２４-01-15 10:00:00` (full-width year digits) parses in Python, but fails in the model. `%m` is built from ASCII digit classes alone, so it is the same in both.
- Text: `lower` and `title` map case on ASCII letters only; Unicode case mapping is not modelled. `isspace`, `strip` and `splitlines` cover Python's full sets of whitespace and line-break characters.
- The `label(...)` extraction of `_extract_component` is a regular expression that is not part of this model. It is the parameter `extract` of the structured-command parser. As written (structured_command.py:45), in the raw f-string each `\\(` and `\\)` is a literal backslash followed by a group delimiter, so the pattern matches no parenthesis at all: it asks for a backslash right after the label and another one ending the block, and group 1 is the text between them together with that closing backslash (on `bucket\(x\)` it is `(x\`). Printed commands hold no backslash, so the program's extractor finds no block in the `bucket(...) x(...) y(...) z(...)` text `FormatEventAsCommand` prints; the precondition of `StructuredCommand.ParseOfExtracted` holds for an extractor that reads plain parentheses, not for that one.
- Models.Str: the text Python's str() gives a float, an array or an object is carried by the decoded value, not computed from it; JSON decoding itself is not part of this model.
- Models.FromIsoFormat: models the `fromisoformat` grammar of Python 3.7 to 3.10. The wider grammar of Python 3.11 and later (such as `20240115`, `2024-W03-1` or `2024-01-15T1030`) is not accepted.
- Record shape:
  - `actions.py` and `structured_command.py` use fields `x`, `y`, `z` and a bucket that `models.py`'s `Event` does not have. They are modelled as `datetime`, `event` and `details`.
  - The bucket is carried beside the event (`BucketedEvent`).
  - `BUCKETS` is taken from the command template, since `models.py` does not define it. Nor does it define `ALL_BUCKET`, which `state.py` imports at line 10, so that import fails as the source stands; `agenda_bucket_filter`, its only use, is not modelled.
- `LeaderState.sequence`, `agenda_expand_all`, `agenda_col`, `agenda_bucket_filter` and `focused_date` are never read. They are kept as fields only, and `agenda_bucket_filter` is not modelled.
- `help_content.py` is static text. Only the key codes of `keys.py` are used.

## Findings

| source | as written | input that shows it | evidently intended | confidence | as-written member | corrected member |
|---|---|---|---|---|---|---|
| orchestrator.py:309-319 | a delete in the month view clamps only the pane index, so the agenda index may be left past the end of the shortened list | events at 10:00 on day d1 and day d2, with the agenda index at 1; in the month view on d2, `dd` leaves one event and agenda index 1; `,` `a` then `l` (or `dd`) raises IndexError | the agenda index is held on the new list in both views, as the agenda branch does | high (proved about the model; not executed) | OrchestratorProperties.MonthDeleteLeavesStaleIndex, OrchestratorProperties.StaleIndexRaises | Orchestrator.AfterDelete, OrchestratorProperties.MonthDeleteKeepsIndex, OrchestratorProperties.KeyKeepsSelection |
| orchestrator.py:294-298, 570-572 | `dd` and `i` in the events pane index the selected day's events in list order, but the pane lists and highlights them sorted by datetime (view_month.py:26-27, 187-196) | a day with a 10:00 event listed before an 08:00 event, pane index 0: the pane highlights 08:00, while `dd` deletes 10:00 and `i` opens the editor on 10:00 and replaces it | the pane's own order, so that `dd` deletes the highlighted event | high (proved about the model; not executed) | OrchestratorProperties.ListOrderMissesHighlight, Orchestrator.EditPlanAsWritten, OrchestratorProperties.ListOrderEditsUnhighlighted | Orchestrator.MonthEvents, Orchestrator.EditPlan, OrchestratorProperties.DeletesHighlightedEvent |
