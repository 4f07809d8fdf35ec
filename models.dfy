/** The calendar record and its validation (models.py): the Event value,
    field-wise update, date-time text parsing, normalisation of a JSON
    payload into an Event, and the JSON form of an Event. */
module Models {
  import opened Common
  import opened Text
  import opened Dates

  /** One calendar record. */
  datatype Event = Event(datetime: Timestamp, event: string, details: string)

  /** A decoded JSON value. A float, an array and an object carry the
      text Python's str() gives them: that text depends on the order the
      decoder met the keys in, which a map does not keep. */
  datatype Json =
    | JNull
    | JBool(b: bool)
    | JInt(i: int)
    | JFloat(text: string)
    | JString(s: string)
    | JArray(text: string)
    | JObject(fields: map<string, Json>, text: string)

  /** Python's str() of a JSON value. */
  function Str(j: Json): (r: string)
    ensures j.JString? ==> r == j.s
    ensures j.JInt? && j.i >= 0 ==> AllDigits(r) && DigitsValue(r) == j.i
    ensures j.JFloat? || j.JArray? || j.JObject? ==> r == j.text
  {
    match j
    case JNull => "None"
    case JBool(b) => if b then "True" else "False"
    case JInt(i) => NatToStringValue(if i < 0 then -i else i); IntToString(i)
    case JFloat(text) => text
    case JString(s) => s
    case JArray(text) => text
    case JObject(_, text) => text
  }

  /** `Event.with_updated(dt=…, event=…, details=…)`: a given argument
      replaces its field. */
  function WithUpdated(e: Event, dt: Option<Timestamp>, event: Option<string>, details: Option<string>): Event
  {
    Event(
      if dt.Some? then dt.value else e.datetime,
      if event.Some? then event.value else e.event,
      if details.Some? then details.value else e.details)
  }

  /** The later of two optional arguments. */
  function Latest<T>(first: Option<T>, second: Option<T>): Option<T>
  {
    if second.Some? then second else first
  }

  /** With no arguments, with_updated returns an equal copy. */
  lemma WithUpdatedNothing(e: Event)
    ensures WithUpdated(e, None, None, None) == e
  {
  }

  /** Giving every argument builds the record from the arguments alone. */
  lemma WithUpdatedEverything(e: Event, dt: Timestamp, event: string, details: string)
    ensures WithUpdated(e, Some(dt), Some(event), Some(details)) == Event(dt, event, details)
  {
  }

  /** Two updates in a row are one update where the second one's arguments
      win; in particular, repeating an update changes nothing more. */
  lemma WithUpdatedTwice(e: Event, dt1: Option<Timestamp>, ev1: Option<string>, de1: Option<string>,
                         dt2: Option<Timestamp>, ev2: Option<string>, de2: Option<string>)
    ensures WithUpdated(WithUpdated(e, dt1, ev1, de1), dt2, ev2, de2)
         == WithUpdated(e, Latest(dt1, dt2), Latest(ev1, ev2), Latest(de1, de2))
    ensures WithUpdated(WithUpdated(e, dt1, ev1, de1), dt1, ev1, de1) == WithUpdated(e, dt1, ev1, de1)
  {
  }

  // ---------------------------------------------------------------------
  // Printing: DATETIME_FMT = "%Y-%m-%d %H:%M:%S"

  /** `%Y-%m-%d`: the year as str() prints it, month and day two digits. */
  function FormatDate(d: CalendarDate): string
  {
    IntToString(d.year) + "-" + ZeroPad(d.month, 2) + "-" + ZeroPad(d.day, 2)
  }

  /** `%H:%M`. */
  function FormatHourMinute(t: Timestamp): (r: string)
    ensures |r| == 5
  {
    ZeroPad(t.hour, 2) + ":" + ZeroPad(t.minute, 2)
  }

  /** `%H:%M:%S`. */
  function FormatClock(t: Timestamp): (r: string)
    ensures |r| == 8
  {
    FormatHourMinute(t) + ":" + ZeroPad(t.second, 2)
  }

  /** `t.strftime(DATETIME_FMT)`. */
  function FormatDateTime(t: Timestamp): string
  {
    FormatDate(t.date) + " " + FormatClock(t)
  }

  // ---------------------------------------------------------------------
  // Parsing

  /** The datetime constructor's range checks: year 1..9999, a real day
      of the month, and a clock time of the day. */
  function MakeTimestamp(y: int, m: int, d: int, hh: int, mm: int, ss: int): (r: Option<Timestamp>)
    ensures r.Some? <==>
      1 <= y <= 9999 && 1 <= m <= 12 && 1 <= d <= DaysInMonth(y, m) &&
      0 <= hh < 24 && 0 <= mm < 60 && 0 <= ss < 60
    ensures r.Some? ==> r.value == DateTime(Date(y, m, d), hh, mm, ss)
  {
    if 1 <= y <= 9999 && 1 <= m <= 12 && 1 <= d <= DaysInMonth(y, m) &&
       0 <= hh < 24 && 0 <= mm < 60 && 0 <= ss < 60
    then
      var t: Timestamp := DateTime(Date(y, m, d), hh, mm, ss);
      Some(t)
    else None
  }

  /** `HH`, `HH:MM` or `HH:MM:SS`, two digits each, as (hour, minute, second). */
  function IsoClock(t: string): Option<(nat, nat, nat)>
  {
    if |t| == 2 && AllDigits(t) then
      Some((DigitsValue(t), 0, 0))
    else if |t| == 5 && AllDigits(t[..2]) && t[2] == ':' && AllDigits(t[3..]) then
      Some((DigitsValue(t[..2]), DigitsValue(t[3..]), 0))
    else if |t| == 8 && AllDigits(t[..2]) && t[2] == ':' && AllDigits(t[3..5]) && t[5] == ':' && AllDigits(t[6..]) then
      Some((DigitsValue(t[..2]), DigitsValue(t[3..5]), DigitsValue(t[6..])))
    else None
  }

  predicate IsoDateShape(s: string)
  {
    |s| >= 10 && AllDigits(s[..4]) && s[4] == '-' && AllDigits(s[5..7]) && s[7] == '-' && AllDigits(s[8..10])
  }

  /** `datetime.fromisoformat(s)` for naive datetimes with whole seconds:
      `YYYY-MM-DD`, optionally followed by any one separator character and
      `HH`, `HH:MM` or `HH:MM:SS`. */
  function FromIsoFormat(s: string): (r: Option<Timestamp>)
    ensures r.Some? ==> IsoDateShape(s) && DigitsValue(s[..4]) == r.value.date.year
    ensures r.Some? ==> DigitsValue(s[5..7]) == r.value.date.month && DigitsValue(s[8..10]) == r.value.date.day
    ensures r.Some? && |s| == 10 ==> SecondOfDay(r.value) == 0
  {
    if !IsoDateShape(s) then None
    else
      var clock := if |s| == 10 then Some((0, 0, 0)) else IsoClock(s[11..]);
      if clock.None? then None
      else
        MakeTimestamp(DigitsValue(s[..4]), DigitsValue(s[5..7]), DigitsValue(s[8..10]),
                      clock.value.0, clock.value.1, clock.value.2)
  }

  /** The first index of c in s, or |s| when there is none. */
  function IndexOfChar(s: string, c: char): (k: nat)
    ensures k <= |s| && (k < |s| ==> s[k] == c)
    ensures forall i :: 0 <= i < k ==> s[i] != c
  {
    if |s| == 0 || s[0] == c then 0 else 1 + IndexOfChar(s[1..], c)
  }

  /** The first index of a whitespace character in s, or |s|. */
  function IndexOfSpace(s: string): (k: nat)
    ensures k <= |s| && (k < |s| ==> IsSpace(s[k]))
    ensures forall i :: 0 <= i < k ==> !IsSpace(s[i])
  {
    if |s| == 0 || IsSpace(s[0]) then 0 else 1 + IndexOfSpace(s[1..])
  }

  /** One or two digits, or a blank followed by a digit. */
  predicate FieldShape(f: string)
  {
    (|f| == 1 && IsDigit(f[0])) || (|f| == 2 && (IsDigit(f[0]) || f[0] == ' ') && IsDigit(f[1]))
  }

  function FieldValue(f: string): (v: nat)
    requires FieldShape(f)
    ensures v < 100
  {
    if |f| == 1 then DigitValue(f[0])
    else if f[0] == ' ' then DigitValue(f[1])
    else 10 * DigitValue(f[0]) + DigitValue(f[1])
  }

  /** The strptime pattern for `%m`: `1[0-2]|0[1-9]|[1-9]`. */
  predicate IsMonthField(f: string)
  {
    (|f| == 1 && '1' <= f[0] <= '9') ||
    (|f| == 2 && ((f[0] == '1' && '0' <= f[1] <= '2') || (f[0] == '0' && '1' <= f[1] <= '9')))
  }

  /** `%d`: `3[01]|[12]\d|0[1-9]|[1-9]| [1-9]`. */
  predicate IsDayField(f: string)
  {
    (|f| == 1 && '1' <= f[0] <= '9') ||
    (|f| == 2 && ((f[0] == '3' && '0' <= f[1] <= '1') || (('1' <= f[0] <= '2') && IsDigit(f[1])) ||
                  ((f[0] == '0' || f[0] == ' ') && '1' <= f[1] <= '9')))
  }

  /** `%H`: `2[0-3]|[0-1]\d|\d`. */
  predicate IsHourField(f: string)
  {
    (|f| == 1 && IsDigit(f[0])) ||
    (|f| == 2 && ((f[0] == '2' && '0' <= f[1] <= '3') || ('0' <= f[0] <= '1' && IsDigit(f[1]))))
  }

  /** `%M`: `[0-5]\d|\d`. */
  predicate IsMinuteField(f: string)
  {
    (|f| == 1 && IsDigit(f[0])) || (|f| == 2 && '0' <= f[0] <= '5' && IsDigit(f[1]))
  }

  /** `%S`: `6[0-1]|[0-5]\d|\d`. */
  predicate IsSecondField(f: string)
  {
    IsMinuteField(f) || f == "60" || f == "61"
  }

  /** The six field texts of `%Y-%m-%d %H:%M:%S` as strptime's pattern
      delimits them: four year characters, then up to each separator. */
  datatype StrptimeFields = StrptimeFields(
    year: string, month: string, day: string, hour: string, minute: string, second: string)

  /** `%Y-%m-`: four characters, a `-`, the text up to the next `-`, and
      what follows that `-`. */
  function SplitYearMonth(s: string): Option<(string, string, string)>
  {
    if |s| < 5 || s[4] != '-' then None
    else
      var r := s[5..];
      var i := IndexOfChar(r, '-');
      if i == |r| then None else Some((s[..4], r[..i], r[i + 1..]))
  }

  /** `%d` and the whitespace after it: a blank and one character when the
      day starts with a blank, otherwise the text up to the first
      whitespace; then a non-empty whitespace run. */
  function SplitDay(r: string): Option<(string, string)>
  {
    var dl := if |r| > 0 && r[0] == ' ' then (if |r| >= 2 then 2 else |r|) else IndexOfSpace(r);
    var rest := r[dl..];
    var w := LeadingSpaces(rest);
    if w == 0 then None else Some((r[..dl], rest[w..]))
  }

  /** `%H:%M:%S`: the texts between the first two colons and after them. */
  function SplitClock(r: string): Option<(string, string, string)>
  {
    var j := IndexOfChar(r, ':');
    if j == |r| then None
    else
      var r2 := r[j + 1..];
      var k := IndexOfChar(r2, ':');
      if k == |r2| then None else Some((r[..j], r2[..k], r2[k + 1..]))
  }

  function SplitStrptime(s: string): Option<StrptimeFields>
  {
    match SplitYearMonth(s)
    case None => None
    case Some((y, m, r)) =>
      match SplitDay(r)
      case None => None
      case Some((d, r2)) =>
        match SplitClock(r2)
        case None => None
        case Some((hh, mm, ss)) => Some(StrptimeFields(y, m, d, hh, mm, ss))
  }

  /** `datetime.strptime(s, "%Y-%m-%d %H:%M:%S")`: four year digits, one
      or two digits for the other fields (the day may be a blank and a
      digit), a run of whitespace between date and time, and nothing left
      over. */
  function Strptime(s: string): Option<Timestamp>
  {
    match SplitStrptime(s)
    case None => None
    case Some(f) =>
      if |f.year| == 4 && AllDigits(f.year) && IsMonthField(f.month) && IsDayField(f.day) &&
         IsHourField(f.hour) && IsMinuteField(f.minute) && IsSecondField(f.second)
      then
        MakeTimestamp(DigitsValue(f.year), FieldValue(f.month), FieldValue(f.day),
                      FieldValue(f.hour), FieldValue(f.minute), FieldValue(f.second))
      else None
  }

  /** The text fromisoformat is tried on: stripped, one trailing `Z`
      dropped, every `T` turned into a blank. */
  function IsoCandidate(v: string): string
  {
    var c := if |v| > 0 && v[|v| - 1] == 'Z' then v[..|v| - 1] else v;
    ReplaceChar(c, 'T', ' ')
  }

  /** The text strptime is tried on: sixteen characters without a `T`
      (`YYYY-MM-DD HH:MM`) get `:00` appended. */
  function StrptimeCandidate(v: string): string
  {
    if |v| == 16 && 'T' !in v then v + ":00" else v
  }

  /** `parse_datetime(value)`. */
  function ParseDatetime(value: string): (r: Result<Timestamp>)
    ensures r.Fail? ==> (r.failure ==
      ValidationError("Invalid datetime format: '" + StrptimeCandidate(Strip(value)) + "'. Expected YYYY-MM-DD HH:MM[:SS]"))
    ensures r.Ok? <==> FromIsoFormat(IsoCandidate(Strip(value))).Some? || Strptime(StrptimeCandidate(Strip(value))).Some?
  {
    var v := Strip(value);
    match FromIsoFormat(IsoCandidate(v))
    case Some(t) => Ok(t)
    case None =>
      var w := StrptimeCandidate(v);
      match Strptime(w)
      case Some(t) => Ok(t)
      case None => Fail(ValidationError("Invalid datetime format: '" + w + "'. Expected YYYY-MM-DD HH:MM[:SS]"))
  }

  /** `normalize_event_payload(data)`. */
  function NormalizeEventPayload(data: map<string, Json>): (r: Result<Event>)
    ensures ("datetime" !in data || "event" !in data) ==>
      r == Fail(ValidationError("Missing 'datetime' or 'event' field"))
    ensures r.Ok? ==> r.value.event != "" && Strip(r.value.event) == r.value.event
    ensures r.Ok? ==> r.value.event == Strip(Str(data["event"]))
    ensures r.Ok? ==> ParseDatetime(Str(data["datetime"])) == Ok(r.value.datetime)
    ensures r.Ok? ==> r.value.details == if "details" in data then Str(data["details"]) else ""
    ensures "datetime" in data && "event" in data && ParseDatetime(Str(data["datetime"])).Ok? ==>
      (r.Ok? <==> Strip(Str(data["event"])) != "")
  {
    if "datetime" !in data || "event" !in data then
      Fail(ValidationError("Missing 'datetime' or 'event' field"))
    else
      match ParseDatetime(Str(data["datetime"]))
      case Fail(f) => Fail(f)
      case Ok(dt) =>
        var ev := Strip(Str(data["event"]));
        StripIdempotent(Str(data["event"]));
        if ev == "" then Fail(ValidationError("'event' cannot be empty"))
        else Ok(Event(dt, ev, if "details" in data then Str(data["details"]) else ""))
  }

  /** `event_to_jsonable(event)`. */
  function EventToJsonable(e: Event): (r: map<string, Json>)
    ensures r.Keys == {"datetime", "event", "details"}
    ensures r["event"] == JString(e.event) && r["details"] == JString(e.details)
    ensures r["datetime"] == JString(FormatDateTime(e.datetime))
  {
    map["datetime" := JString(FormatDateTime(e.datetime)), "event" := JString(e.event), "details" := JString(e.details)]
  }

  // ---------------------------------------------------------------------
  // Round trips

  lemma ZeroPad2(n: nat)
    requires n < 100
    ensures AllDigits(ZeroPad(n, 2)) && DigitsValue(ZeroPad(n, 2)) == n
  {
    ZeroPadValue(n, 2, 100);
  }

  lemma ZeroPad4(n: nat)
    requires n < 10000
    ensures AllDigits(ZeroPad(n, 4)) && DigitsValue(ZeroPad(n, 4)) == n
  {
    ZeroPadValue(n, 4, 10000);
  }

  /** The date printed with four year digits has the ISO date shape and
      its three fields read back. */
  lemma FormatDateReads(d: CalendarDate)
    requires 1000 <= d.year <= 9999
    ensures var s := FormatDate(d);
      |s| == 10 && IsoDateShape(s) && DigitsValue(s[..4]) == d.year &&
      DigitsValue(s[5..7]) == d.month && DigitsValue(s[8..10]) == d.day
  {
    NatToStringFourDigits(d.year);
    var s := FormatDate(d);
    assert s == ZeroPad(d.year, 4) + "-" + ZeroPad(d.month, 2) + "-" + ZeroPad(d.day, 2);
    assert s[..4] == ZeroPad(d.year, 4);
    assert s[5..7] == ZeroPad(d.month, 2);
    assert s[8..10] == ZeroPad(d.day, 2);
    ZeroPad4(d.year);
    ZeroPad2(d.month);
    ZeroPad2(d.day);
  }

  lemma IsoClockOfFormat(t: Timestamp)
    ensures IsoClock(FormatClock(t)) == Some((t.hour as nat, t.minute as nat, t.second as nat))
    ensures IsoClock(FormatHourMinute(t)) == Some((t.hour as nat, t.minute as nat, 0))
  {
    var c := FormatClock(t);
    assert c[..2] == ZeroPad(t.hour, 2);
    assert c[3..5] == ZeroPad(t.minute, 2);
    assert c[6..] == ZeroPad(t.second, 2);
    var hm := FormatHourMinute(t);
    assert hm[..2] == ZeroPad(t.hour, 2);
    assert hm[3..] == ZeroPad(t.minute, 2);
    ZeroPad2(t.hour);
    ZeroPad2(t.minute);
    ZeroPad2(t.second);
  }

  /** fromisoformat reads back any date, any separator and any of the
      three clock forms it was printed with. */
  lemma FromIsoFormatOfFormat(t: Timestamp, sep: char)
    requires 1000 <= t.date.year <= 9999
    ensures FromIsoFormat(FormatDate(t.date) + [sep] + FormatClock(t)) == Some(t)
    ensures t.second == 0 ==> FromIsoFormat(FormatDate(t.date) + [sep] + FormatHourMinute(t)) == Some(t)
  {
    IsoClockOfFormat(t);
    FromIsoOfDateAndClock(t, sep, FormatClock(t), t.second);
    if t.second == 0 {
      FromIsoOfDateAndClock(t, sep, FormatHourMinute(t), 0);
    }
  }

  /** A printed date, any separator and a clock text fromisoformat reads
      as t's time of day make t. */
  lemma FromIsoOfDateAndClock(t: Timestamp, sep: char, clock: string, second: nat)
    requires 1000 <= t.date.year <= 9999 && second == t.second
    requires IsoClock(clock) == Some((t.hour as nat, t.minute as nat, second))
    ensures FromIsoFormat(FormatDate(t.date) + [sep] + clock) == Some(t)
  {
    FormatDateReads(t.date);
    var d := FormatDate(t.date);
    var s := d + [sep] + clock;
    assert s[..10] == d && s[11..] == clock;
    assert s[..4] == d[..4] && s[5..7] == d[5..7] && s[8..10] == d[8..10];
  }

  /** Printed dates and times contain digits, `-`, `:` and one blank only. */
  lemma FormatChars(t: Timestamp)
    requires 1000 <= t.date.year <= 9999
    ensures var s := FormatDateTime(t);
      (forall i :: 0 <= i < |s| ==> IsDigit(s[i]) || s[i] == '-' || s[i] == ':' || s[i] == ' ') &&
      IsDigit(s[0]) && IsDigit(s[|s| - 1])
  {
    NatToStringFourDigits(t.date.year);
    var s := FormatDateTime(t);
    var y, mo, d := ZeroPad(t.date.year, 4), ZeroPad(t.date.month, 2), ZeroPad(t.date.day, 2);
    var h, mi, se := ZeroPad(t.hour, 2), ZeroPad(t.minute, 2), ZeroPad(t.second, 2);
    assert s == y + "-" + mo + "-" + d + " " + h + ":" + mi + ":" + se;
    assert s[0] == y[0] && s[18] == se[1];
  }

  /** Text made of digits, `-`, `:` and blanks, with a digit at each end. */
  predicate PrintedShape(s: string)
  {
    |s| > 0 && IsDigit(s[0]) && IsDigit(s[|s| - 1]) &&
    forall i :: 0 <= i < |s| ==> IsDigit(s[i]) || s[i] == '-' || s[i] == ':' || s[i] == ' '
  }

  /** Such text is already stripped and is its own fromisoformat candidate. */
  lemma PrintedCandidate(s: string)
    requires PrintedShape(s)
    ensures Strip(s) == s && IsoCandidate(s) == s
  {
    StripUnchanged(s);
    assert s[|s| - 1] != 'Z';
    forall i | 0 <= i < |s|
      ensures s[i] != 'T'
    {
      assert IsDigit(s[i]) || s[i] == '-' || s[i] == ':' || s[i] == ' ';
    }
    ReplaceAbsent(s, 'T', ' ');
  }

  /** Such text that fromisoformat reads parses to the same datetime. */
  lemma ParseOfIsoText(s: string, t: Timestamp)
    requires PrintedShape(s) && FromIsoFormat(s) == Some(t)
    ensures ParseDatetime(s) == Ok(t)
  {
    PrintedCandidate(s);
  }

  /** parse_datetime reads back what event_to_jsonable prints. */
  lemma ParseDatetimeOfFormat(t: Timestamp)
    requires 1000 <= t.date.year <= 9999
    ensures ParseDatetime(FormatDateTime(t)) == Ok(t)
  {
    FormatChars(t);
    FromIsoFormatOfFormat(t, ' ');
    ParseOfIsoText(FormatDateTime(t), t);
  }

  /** The ISO 8601 form with a `T` separator and a trailing `Z` parses to
      the same datetime as the printed form. */
  lemma ParseDatetimeIsoT(t: Timestamp)
    requires 1000 <= t.date.year <= 9999
    ensures ParseDatetime(FormatDate(t.date) + "T" + FormatClock(t) + "Z") == Ok(t)
  {
    FormatChars(t);
    var f := FormatDateTime(t);
    var s := FormatDate(t.date) + "T" + FormatClock(t) + "Z";
    IsoCandidateOfT(FormatDate(t.date), FormatClock(t));
    StripUnchanged(s);
    FromIsoFormatOfFormat(t, ' ');
  }

  /** Dropping the `Z` and turning the `T` into a blank gives the printed form. */
  lemma IsoCandidateOfT(d: string, c: string)
    requires 'T' !in d && 'T' !in c
    ensures IsoCandidate(d + "T" + c + "Z") == d + " " + c
  {
    var s := d + "T" + c + "Z";
    assert s[..|s| - 1] == d + "T" + c;
    var r := IsoCandidate(s);
    assert |r| == |d + " " + c|;
    forall i | 0 <= i < |r|
      ensures r[i] == (d + " " + c)[i]
    {
      if i < |d| {
        assert s[i] == d[i];
      } else if i > |d| {
        assert s[i] == c[i - |d| - 1];
      }
    }
  }

  /** Without seconds, `YYYY-MM-DD HH:MM` parses to that minute. */
  lemma ParseDatetimeWithoutSeconds(t: Timestamp)
    requires 1000 <= t.date.year <= 9999 && t.second == 0
    ensures ParseDatetime(FormatDate(t.date) + " " + FormatHourMinute(t)) == Ok(t)
  {
    FormatChars(t);
    var f := FormatDateTime(t);
    var m := FormatDate(t.date) + " " + FormatHourMinute(t);
    assert f == m + ":" + ZeroPad(t.second, 2);
    assert forall i :: 0 <= i < |m| ==> m[i] == f[i];
    FromIsoFormatOfFormat(t, ' ');
    ParseOfIsoText(m, t);
  }

  lemma {:induction false} IndexOfCharAfter(a: string, c: char, b: string)
    requires c !in a
    ensures IndexOfChar(a + [c] + b, c) == |a|
    decreases |a|
  {
    if |a| > 0 {
      assert (a + [c] + b)[1..] == a[1..] + [c] + b;
      IndexOfCharAfter(a[1..], c, b);
    }
  }

  lemma {:induction false} IndexOfSpaceAfter(a: string, b: string)
    requires AllDigits(a)
    ensures IndexOfSpace(a + " " + b) == |a|
    decreases |a|
  {
    if |a| > 0 {
      assert (a + " " + b)[1..] == a[1..] + " " + b;
      IndexOfSpaceAfter(a[1..], b);
    }
  }

  lemma SplitYearMonthOf(y: string, m: string, rest: string)
    requires |y| == 4 && AllDigits(m)
    ensures SplitYearMonth(y + "-" + m + "-" + rest) == Some((y, m, rest))
  {
    var s := y + "-" + m + "-" + rest;
    var r1 := m + "-" + rest;
    assert s[5..] == r1 && s[4] == '-' && s[..4] == y;
    assert '-' !in m by {
      assert forall i :: 0 <= i < |m| ==> IsDigit(m[i]);
    }
    IndexOfCharAfter(m, '-', rest);
    assert r1 == m + ['-'] + rest;
    assert r1[|m| + 1..] == rest && r1[..|m|] == m;
  }

  lemma {:induction false} LeadingSpacesOf(gap: string, rest: string)
    requires AllSpace(gap) && (|rest| > 0 ==> !IsSpace(rest[0]))
    ensures LeadingSpaces(gap + rest) == |gap|
    decreases |gap|
  {
    if |gap| > 0 {
      assert (gap + rest)[1..] == gap[1..] + rest;
      LeadingSpacesOf(gap[1..], rest);
    }
  }

  lemma SplitDayOf(d: string, gap: string, rest: string)
    requires AllDigits(d) && |d| >= 1 && (|rest| > 0 ==> !IsSpace(rest[0]))
    requires |gap| >= 1 && gap[0] == ' ' && AllSpace(gap)
    ensures SplitDay(d + gap + rest) == Some((d, rest))
  {
    var r := d + gap + rest;
    assert r == d + " " + (gap[1..] + rest);
    IndexOfSpaceAfter(d, gap[1..] + rest);
    assert r[|d|..] == gap + rest && r[..|d|] == d;
    LeadingSpacesOf(gap, rest);
    assert (gap + rest)[|gap|..] == rest;
  }

  lemma SplitClockOf(hh: string, mm: string, ss: string)
    requires AllDigits(hh) && AllDigits(mm)
    ensures SplitClock(hh + ":" + mm + ":" + ss) == Some((hh, mm, ss))
  {
    var r := hh + ":" + mm + ":" + ss;
    var r2 := mm + ":" + ss;
    assert ':' !in hh by {
      assert forall i :: 0 <= i < |hh| ==> IsDigit(hh[i]);
    }
    assert ':' !in mm by {
      assert forall i :: 0 <= i < |mm| ==> IsDigit(mm[i]);
    }
    assert r == hh + [':'] + r2;
    IndexOfCharAfter(hh, ':', r2);
    assert r[..|hh|] == hh && r[|hh| + 1..] == r2;
    assert r2 == mm + [':'] + ss;
    IndexOfCharAfter(mm, ':', ss);
    assert r2[..|mm|] == mm && r2[|mm| + 1..] == ss;
  }

  /** Text shaped like `%Y-%m-%d %H:%M:%S` splits into its six fields. */
  lemma SplitStrptimeOf(y: string, m: string, d: string, hh: string, mm: string, ss: string)
    requires |y| == 4 && AllDigits(m) && AllDigits(d) && AllDigits(hh) && AllDigits(mm)
    requires |d| >= 1 && |hh| >= 1
    ensures SplitStrptime(y + "-" + m + "-" + d + " " + hh + ":" + mm + ":" + ss)
         == Some(StrptimeFields(y, m, d, hh, mm, ss))
  {
    var clock := hh + ":" + mm + ":" + ss;
    var afterMonth := d + " " + clock;
    assert y + "-" + m + "-" + d + " " + hh + ":" + mm + ":" + ss == y + "-" + m + "-" + afterMonth;
    SplitYearMonthOf(y, m, afterMonth);
    SplitDayOf(d, " ", clock);
    SplitClockOf(hh, mm, ss);
  }

  /** str(n) of a number below 100 is a one- or two-digit field of that value. */
  lemma SmallNatText(n: nat)
    requires n < 100
    ensures var f := NatToString(n);
      FieldShape(f) && FieldValue(f) == n &&
      (1 <= n <= 12 ==> IsMonthField(f)) && (1 <= n <= 31 ==> IsDayField(f)) &&
      (n < 24 ==> IsHourField(f)) && (n < 60 ==> IsMinuteField(f) && IsSecondField(f))
  {
    var f := NatToString(n);
    if n < 10 {
      assert f == [DigitChar(n)];
    } else {
      assert f == NatToString(n / 10) + [DigitChar(n % 10)];
      assert f == [DigitChar(n / 10), DigitChar(n % 10)];
    }
  }

  /** strptime also accepts the date and time written without zero padding. */
  lemma StrptimeUnpadded(t: Timestamp)
    requires 1000 <= t.date.year <= 9999
    ensures Strptime(ZeroPad(t.date.year, 4) + "-" + NatToString(t.date.month) + "-" + NatToString(t.date.day) + " " +
                     NatToString(t.hour) + ":" + NatToString(t.minute) + ":" + NatToString(t.second)) == Some(t)
  {
    ZeroPad4(t.date.year);
    SmallNatText(t.date.month);
    SmallNatText(t.date.day);
    SmallNatText(t.hour);
    SmallNatText(t.minute);
    SmallNatText(t.second);
    var f := StrptimeFields(ZeroPad(t.date.year, 4), NatToString(t.date.month), NatToString(t.date.day),
                            NatToString(t.hour), NatToString(t.minute), NatToString(t.second));
    var s := f.year + "-" + f.month + "-" + f.day + " " + f.hour + ":" + f.minute + ":" + f.second;
    SplitStrptimeOf(f.year, f.month, f.day, f.hour, f.minute, f.second);
    StrptimeOfFields(s, f, t);
  }

  /** Fields that each fit their pattern and hold the values of t give t. */
  lemma StrptimeOfFields(s: string, f: StrptimeFields, t: Timestamp)
    requires SplitStrptime(s) == Some(f)
    requires |f.year| == 4 && AllDigits(f.year) && DigitsValue(f.year) == t.date.year
    requires IsMonthField(f.month) && FieldValue(f.month) == t.date.month
    requires IsDayField(f.day) && FieldValue(f.day) == t.date.day
    requires IsHourField(f.hour) && FieldValue(f.hour) == t.hour
    requires IsMinuteField(f.minute) && FieldValue(f.minute) == t.minute
    requires IsSecondField(f.second) && FieldValue(f.second) == t.second
    requires 1 <= t.date.year <= 9999
    ensures Strptime(s) == Some(t)
  {
    assert MakeTimestamp(t.date.year, t.date.month, t.date.day, t.hour, t.minute, t.second) == Some(t);
  }

  lemma PaddedField(n: nat)
    requires n < 100
    ensures var f := ZeroPad(n, 2);
      FieldShape(f) && FieldValue(f) == n &&
      (1 <= n <= 12 ==> IsMonthField(f)) && (1 <= n <= 31 ==> IsDayField(f)) &&
      (n < 24 ==> IsHourField(f)) && (n < 60 ==> IsMinuteField(f) && IsSecondField(f))
  {
    var p := ZeroPad(n, 2);
    assert p == ZeroPad(n / 10, 1) + [DigitChar(n % 10)];
    assert ZeroPad(n / 10, 1) == ZeroPad(n / 100, 0) + [DigitChar(n / 10 % 10)];
  }

  /** The printed form is the six zero-padded fields with their separators. */
  lemma FormatDateTimeFields(t: Timestamp)
    requires 1000 <= t.date.year <= 9999
    ensures FormatDateTime(t) == ZeroPad(t.date.year, 4) + "-" + ZeroPad(t.date.month, 2) + "-" +
      ZeroPad(t.date.day, 2) + " " + ZeroPad(t.hour, 2) + ":" + ZeroPad(t.minute, 2) + ":" + ZeroPad(t.second, 2)
  {
    NatToStringFourDigits(t.date.year);
  }

  /** strptime reads back the zero-padded printed form as well. */
  lemma StrptimeOfFormat(t: Timestamp)
    requires 1000 <= t.date.year <= 9999
    ensures Strptime(FormatDateTime(t)) == Some(t)
  {
    ZeroPad4(t.date.year);
    ZeroPad2(t.date.month);
    ZeroPad2(t.date.day);
    ZeroPad2(t.hour);
    ZeroPad2(t.minute);
    ZeroPad2(t.second);
    var y, mo, d := ZeroPad(t.date.year, 4), ZeroPad(t.date.month, 2), ZeroPad(t.date.day, 2);
    var h, mi, se := ZeroPad(t.hour, 2), ZeroPad(t.minute, 2), ZeroPad(t.second, 2);
    FormatDateTimeFields(t);
    SplitStrptimeOf(y, mo, d, h, mi, se);
    var f := StrptimeFields(y, mo, d, h, mi, se);
    PaddedField(t.date.month);
    PaddedField(t.date.day);
    PaddedField(t.hour);
    PaddedField(t.minute);
    PaddedField(t.second);
    StrptimeOfFields(FormatDateTime(t), f, t);
  }

  /** Surrounding whitespace never changes what parse_datetime returns. */
  lemma ParseDatetimeIgnoresSurroundingSpace(value: string)
    ensures ParseDatetime(value) == ParseDatetime(Strip(value))
  {
    StripIdempotent(value);
  }

  /** Normalising the JSON form of an already normalised event gives the
      event back. */
  lemma NormalizeOfJsonable(e: Event)
    requires e.event != "" && Strip(e.event) == e.event
    requires 1000 <= e.datetime.date.year <= 9999
    ensures NormalizeEventPayload(EventToJsonable(e)) == Ok(e)
  {
    ParseDatetimeOfFormat(e.datetime);
  }
}
