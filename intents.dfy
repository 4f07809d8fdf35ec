/** The intents a natural-language command resolves to (intents.py), and
    the validation that turns a decoded JSON payload into one. */
module Intents {
  import opened Common
  import opened Text
  import opened Dates
  import opened Models
  import DateRanges

  const CreateEventIntent := "create_event"
  const ListEventsIntent := "list_events"
  const RescheduleEventIntent := "reschedule_event"

  /** `VALID_RANGE_VALUES`, in the order the source lists them. */
  const ValidRangeValues: seq<string> := [
    "day_before_yesterday", "yesterday", "today", "tomorrow", "this_week",
    "this_month", "next_month", "last_month", "this_year", "all"]

  /** The units a relative adjustment may name. */
  predicate IsRelativeUnit(unit: string)
  {
    unit in {"minutes", "hours", "days", "weeks"}
  }

  /** `RelativeAdjustment(amount, unit)`. */
  datatype RelativeAdjustment = RelativeAdjustment(amount: int, unit: string)

  /** `CreateEventIntent | ListEventsIntent | RescheduleEventIntent`. */
  datatype Intent =
    | CreateEvent(event: Event)
    | ListEvents(range: string, keyword: Option<string>)
    | RescheduleEvent(targetDescription: string, newDatetime: Option<Timestamp>,
                      relativeAdjustment: Option<RelativeAdjustment>)

  /** `dict.get(key)`: a missing key reads as JSON null, as Python's None. */
  function Get(fields: map<string, Json>, key: string): (r: Json)
    ensures key !in fields ==> r == JNull
    ensures key in fields ==> r == fields[key]
  {
    if key in fields then fields[key] else JNull
  }

  /** `isinstance(v, int)`: Python's bool is a subclass of int, so a JSON
      boolean passes too and counts as 0 or 1. */
  function AsInt(v: Json): (r: Option<int>)
    ensures r.Some? <==> v.JInt? || v.JBool?
    ensures v.JInt? ==> r == Some(v.i)
  {
    match v
    case JInt(i) => Some(i)
    case JBool(b) => Some(if b then 1 else 0)
    case _ => None
  }

  /** A well-formed intent, as the schema and the parser describe it. */
  predicate WellFormed(intent: Intent)
  {
    match intent
    case CreateEvent(e) => e.event != "" && Strip(e.event) == e.event
    case ListEvents(range, keyword) => range in ValidRangeValues && keyword != Some("")
    case RescheduleEvent(target, newDatetime, adjustment) =>
      target != "" && Strip(target) == target &&
      (newDatetime.Some? <==> adjustment.None?) &&
      (adjustment.Some? ==> IsRelativeUnit(adjustment.value.unit))
  }

  /** The list branch of `parse_intent_payload`. */
  function ParseList(data: map<string, Json>): (r: Result<Intent>)
    ensures r.Ok? ==> WellFormed(r.value)
    ensures r.Fail? ==> r.failure.IntentParseError?
  {
    var rangeValue := Get(data, "range");
    if !(rangeValue.JString? && rangeValue.s in ValidRangeValues) then
      Fail(IntentParseError("Invalid range value: " + Str(rangeValue)))
    else
      var keyword := Get(data, "keyword");
      if !keyword.JNull? && !keyword.JString? then
        Fail(IntentParseError("keyword must be a string if provided"))
      else
        Ok(ListEvents(rangeValue.s, if keyword.JString? && keyword.s != "" then Some(keyword.s) else None))
  }

  /** The `new_datetime` field: absent or null means none, anything else
      goes through `parse_datetime(str(value))`. */
  function ParseNewDatetime(value: Json): (r: Result<Option<Timestamp>>)
    ensures value.JNull? <==> r == Ok(None)
    ensures r.Ok? && r.value.Some? ==> ParseDatetime(Str(value)) == Ok(r.value.value)
    ensures r.Fail? ==> ParseDatetime(Str(value)).Fail? && r.failure == ParseDatetime(Str(value)).failure
  {
    if value.JNull? then Ok(None)
    else match ParseDatetime(Str(value))
      case Ok(t) => Ok(Some(t))
      case Fail(f) => Fail(f)
  }

  /** The `relative_amount` and `relative_unit` fields: both absent means
      none; otherwise both must be present and valid. The amount is tested
      first; with an int amount, the membership test of a list or object
      unit in the set of unit names raises TypeError, as such values
      cannot be hashed. */
  function ParseAdjustment(amount: Json, unit: Json): (r: Result<Option<RelativeAdjustment>>)
    ensures amount.JNull? && unit.JNull? <==> r == Ok(None)
    ensures r.Ok? && r.value.Some? ==>
      AsInt(amount) == Some(r.value.value.amount) && unit == JString(r.value.value.unit) && IsRelativeUnit(r.value.value.unit)
    ensures r.Fail? <==> (!amount.JNull? || !unit.JNull?) && (AsInt(amount).None? || !unit.JString? || !IsRelativeUnit(unit.s))
    ensures r.Fail? && r.failure.TypeError? <==> AsInt(amount).Some? && (unit.JArray? || unit.JObject?)
    ensures r.Fail? ==> r.failure.IntentParseError? || r.failure.TypeError?
  {
    if amount.JNull? && unit.JNull? then Ok(None)
    else if AsInt(amount).None? then
      Fail(IntentParseError("relative_amount must be int and relative_unit one of minutes/hours/days/weeks"))
    else if unit.JArray? then Fail(TypeError("unhashable type: 'list'"))
    else if unit.JObject? then Fail(TypeError("unhashable type: 'dict'"))
    else if !unit.JString? || !IsRelativeUnit(unit.s) then
      Fail(IntentParseError("relative_amount must be int and relative_unit one of minutes/hours/days/weeks"))
    else Ok(Some(RelativeAdjustment(AsInt(amount).value, unit.s)))
  }

  /** The reschedule branch of `parse_intent_payload`. */
  function ParseReschedule(data: map<string, Json>): (r: Result<Intent>)
    ensures r.Ok? ==> WellFormed(r.value)
    ensures r.Fail? ==> r.failure.IntentParseError? || r.failure.ValidationError? || r.failure.TypeError?
    ensures r.Fail? && r.failure.TypeError? ==>
      ParseAdjustment(Get(data, "relative_amount"), Get(data, "relative_unit")).Fail?
  {
    var target := Get(data, "target_description");
    if !target.JString? || Strip(target.s) == "" then
      Fail(IntentParseError("target_description must be a non-empty string"))
    else
      var newDt := ParseNewDatetime(Get(data, "new_datetime"));
      var adjustment := ParseAdjustment(Get(data, "relative_amount"), Get(data, "relative_unit"));
      if newDt.Fail? then Fail(newDt.failure)
      else if adjustment.Fail? then Fail(adjustment.failure)
      else if newDt.value.None? && adjustment.value.None? then
        Fail(IntentParseError("reschedule intent requires new_datetime or relative adjustment"))
      else
        StripIdempotent(target.s);
        Ok(RescheduleEvent(Strip(target.s), newDt.value, if newDt.value.Some? then None else adjustment.value))
  }

  /** `parse_intent_payload(payload)`. */
  function ParseIntentPayload(payload: Json): (r: Result<Intent>)
    ensures !payload.JObject? ==> r == Fail(IntentParseError("Intent payload must be an object"))
    ensures payload.JObject? && !Get(payload.fields, "data").JObject? ==>
      r == Fail(IntentParseError("Intent data must be an object"))
    ensures r.Ok? ==> WellFormed(r.value)
    ensures r.Fail? ==> r.failure.IntentParseError? || r.failure.ValidationError? || r.failure.TypeError?
    ensures r.Fail? && r.failure.TypeError? ==>
      Get(payload.fields, "intent") == JString(RescheduleEventIntent)
  {
    if !payload.JObject? then Fail(IntentParseError("Intent payload must be an object"))
    else
      var intentName := Get(payload.fields, "intent");
      var data := Get(payload.fields, "data");
      if !data.JObject? then Fail(IntentParseError("Intent data must be an object"))
      else if intentName == JString(CreateEventIntent) then
        match NormalizeEventPayload(data.fields)
        case Ok(e) => Ok(CreateEvent(e))
        case Fail(f) => Fail(f)
      else if intentName == JString(ListEventsIntent) then ParseList(data.fields)
      else if intentName == JString(RescheduleEventIntent) then ParseReschedule(data.fields)
      else Fail(IntentParseError("Unsupported intent: " + Str(intentName)))
  }

  /** The range values the parser accepts are exactly the kinds the date
      range resolver knows, so a parsed list intent always resolves. */
  lemma RangeValuesResolve(range: string, today: CalendarDate)
    ensures range in ValidRangeValues <==> DateRanges.ResolveDateRange(range, today).Ok?
  {
    DateRanges.ResolveKnownKinds(range, today);
  }

  /** The fields a well-formed intent's payload carries under "data". */
  function PayloadData(intent: Intent): map<string, Json>
  {
    match intent
    case CreateEvent(e) => EventToJsonable(e)
    case ListEvents(range, keyword) =>
      if keyword.Some? then map["range" := JString(range), "keyword" := JString(keyword.value)]
      else map["range" := JString(range)]
    case RescheduleEvent(target, newDatetime, adjustment) =>
      if newDatetime.Some? then
        map["target_description" := JString(target), "new_datetime" := JString(FormatDateTime(newDatetime.value))]
      else if adjustment.Some? then
        map["target_description" := JString(target), "relative_amount" := JInt(adjustment.value.amount),
            "relative_unit" := JString(adjustment.value.unit)]
      else map["target_description" := JString(target)]
  }

  /** The name a payload gives its intent. */
  function IntentName(intent: Intent): string
  {
    match intent
    case CreateEvent(_) => CreateEventIntent
    case ListEvents(_, _) => ListEventsIntent
    case RescheduleEvent(_, _, _) => RescheduleEventIntent
  }

  /** The payload a well-formed intent is sent as: the inverse of the parser.
      `text` and `dataText` are the str() texts of the payload and its data. */
  function IntentToPayload(intent: Intent, text: string, dataText: string): (r: Json)
    ensures r.JObject? && Get(r.fields, "data") == JObject(PayloadData(intent), dataText)
    ensures Get(r.fields, "intent") == JString(IntentName(intent))
  {
    Payload(IntentName(intent), PayloadData(intent), text, dataText)
  }

  /** The list branch reads back a well-formed list intent. */
  lemma ParseListOfPayload(range: string, keyword: Option<string>)
    requires WellFormed(ListEvents(range, keyword))
    ensures ParseList(PayloadData(ListEvents(range, keyword))) == Ok(ListEvents(range, keyword))
  {
    var data := PayloadData(ListEvents(range, keyword));
    assert Get(data, "range") == JString(range);
    if keyword.Some? {
      assert Get(data, "keyword") == JString(keyword.value);
    } else {
      assert Get(data, "keyword") == JNull;
    }
  }

  /** The reschedule branch, once its three field readers have succeeded. */
  lemma RescheduleFromFields(data: map<string, Json>, target: string, newDatetime: Option<Timestamp>,
                             adjustment: Option<RelativeAdjustment>)
    requires Get(data, "target_description") == JString(target) && target != "" && Strip(target) == target
    requires ParseNewDatetime(Get(data, "new_datetime")) == Ok(newDatetime)
    requires ParseAdjustment(Get(data, "relative_amount"), Get(data, "relative_unit")) == Ok(adjustment)
    requires newDatetime.Some? || adjustment.Some?
    ensures ParseReschedule(data) == Ok(RescheduleEvent(target, newDatetime, if newDatetime.Some? then None else adjustment))
  {
  }

  /** A printed datetime with a four-digit year reads back as itself. */
  lemma NewDatetimeOfFormat(t: Timestamp)
    requires 1000 <= t.date.year <= 9999
    ensures ParseNewDatetime(JString(FormatDateTime(t))) == Ok(Some(t))
  {
    ParseDatetimeOfFormat(t);
  }

  /** The reschedule branch reads back a well-formed reschedule intent. */
  lemma ParseRescheduleOfPayload(target: string, newDatetime: Option<Timestamp>, adjustment: Option<RelativeAdjustment>)
    requires WellFormed(RescheduleEvent(target, newDatetime, adjustment))
    requires newDatetime.Some? ==> 1000 <= newDatetime.value.date.year <= 9999
    ensures ParseReschedule(PayloadData(RescheduleEvent(target, newDatetime, adjustment)))
      == Ok(RescheduleEvent(target, newDatetime, adjustment))
  {
    if newDatetime.Some? {
      AbsoluteRescheduleOfPayload(target, newDatetime.value);
    } else {
      RelativeRescheduleOfPayload(target, adjustment.value);
    }
  }

  /** An absolute reschedule is sent with its printed new datetime. */
  lemma AbsoluteRescheduleOfPayload(target: string, t: Timestamp)
    requires target != "" && Strip(target) == target
    requires 1000 <= t.date.year <= 9999
    ensures ParseReschedule(PayloadData(RescheduleEvent(target, Some(t), None)))
      == Ok(RescheduleEvent(target, Some(t), None))
  {
    var printed := FormatDateTime(t);
    var data := map["target_description" := JString(target), "new_datetime" := JString(printed)];
    assert PayloadData(RescheduleEvent(target, Some(t), None)) == data;
    AbsoluteFields(target, printed);
    NewDatetimeOfFormat(t);
    assert ParseNewDatetime(Get(data, "new_datetime")) == Ok(Some(t));
    assert ParseAdjustment(Get(data, "relative_amount"), Get(data, "relative_unit")) == Ok(None);
    RescheduleFromFields(data, target, Some(t), None);
  }

  /** The fields of an absolute reschedule payload. */
  lemma AbsoluteFields(target: string, printed: string)
    ensures var data := map["target_description" := JString(target), "new_datetime" := JString(printed)];
      Get(data, "target_description") == JString(target) && Get(data, "new_datetime") == JString(printed) &&
      Get(data, "relative_amount") == JNull && Get(data, "relative_unit") == JNull
  {
  }

  /** A relative reschedule is sent with its amount and unit. */
  lemma RelativeRescheduleOfPayload(target: string, a: RelativeAdjustment)
    requires target != "" && Strip(target) == target
    requires IsRelativeUnit(a.unit)
    ensures ParseReschedule(PayloadData(RescheduleEvent(target, None, Some(a))))
      == Ok(RescheduleEvent(target, None, Some(a)))
  {
    var data := PayloadData(RescheduleEvent(target, None, Some(a)));
    RelativeFields(target, a.amount, a.unit);
    assert ParseAdjustment(JInt(a.amount), JString(a.unit)) == Ok(Some(a));
    RescheduleFromFields(data, target, None, Some(a));
  }

  /** The fields of a relative reschedule payload. */
  lemma RelativeFields(target: string, amount: int, unit: string)
    ensures var data := map["target_description" := JString(target), "relative_amount" := JInt(amount),
                            "relative_unit" := JString(unit)];
      Get(data, "target_description") == JString(target) && Get(data, "new_datetime") == JNull &&
      Get(data, "relative_amount") == JInt(amount) && Get(data, "relative_unit") == JString(unit)
  {
  }

  /** The three intent names differ in their first letter. */
  lemma IntentNamesDiffer()
    ensures CreateEventIntent != ListEventsIntent && CreateEventIntent != RescheduleEventIntent
    ensures ListEventsIntent != RescheduleEventIntent
  {
    assert CreateEventIntent[0] == 'c' && ListEventsIntent[0] == 'l' && RescheduleEventIntent[0] == 'r';
  }

  /** The payload an intent name and its data make; `text` and `dataText`
      are the str() texts of the two objects, which parsing never reads. */
  function Payload(name: string, data: map<string, Json>, text: string, dataText: string): (r: Json)
    ensures r.JObject? && Get(r.fields, "intent") == JString(name) && Get(r.fields, "data") == JObject(data, dataText)
  {
    JObject(map["intent" := JString(name), "data" := JObject(data, dataText)], text)
  }

  /** A create payload is handed to event normalisation. */
  lemma DispatchCreate(data: map<string, Json>, text: string, dataText: string)
    ensures ParseIntentPayload(Payload(CreateEventIntent, data, text, dataText)) == match NormalizeEventPayload(data)
      case Ok(e) => Ok(CreateEvent(e))
      case Fail(f) => Fail(f)
  {
  }

  /** A list payload is handed to the list branch. */
  lemma DispatchList(data: map<string, Json>, text: string, dataText: string)
    ensures ParseIntentPayload(Payload(ListEventsIntent, data, text, dataText)) == ParseList(data)
  {
    IntentNamesDiffer();
  }

  /** A reschedule payload is handed to the reschedule branch. */
  lemma DispatchReschedule(data: map<string, Json>, text: string, dataText: string)
    ensures ParseIntentPayload(Payload(RescheduleEventIntent, data, text, dataText)) == ParseReschedule(data)
  {
    IntentNamesDiffer();
  }

  /** A well-formed intent whose datetimes have four-digit years survives
      the trip through its JSON payload. */
  lemma ParseOfPayload(intent: Intent, text: string, dataText: string)
    requires WellFormed(intent)
    requires intent.CreateEvent? ==> 1000 <= intent.event.datetime.date.year <= 9999
    requires intent.RescheduleEvent? && intent.newDatetime.Some? ==> 1000 <= intent.newDatetime.value.date.year <= 9999
    ensures ParseIntentPayload(IntentToPayload(intent, text, dataText)) == Ok(intent)
  {
    assert IntentToPayload(intent, text, dataText) == Payload(IntentName(intent), PayloadData(intent), text, dataText);
    match intent
    case CreateEvent(e) =>
      DispatchCreate(PayloadData(intent), text, dataText);
      NormalizeOfJsonable(e);
    case ListEvents(range, keyword) =>
      DispatchList(PayloadData(intent), text, dataText);
      ParseListOfPayload(range, keyword);
    case RescheduleEvent(target, newDatetime, adjustment) =>
      DispatchReschedule(PayloadData(intent), text, dataText);
      ParseRescheduleOfPayload(target, newDatetime, adjustment);
  }

  /** A list intent with an empty keyword is a list intent without one. */
  lemma EmptyKeywordDropped(range: string, text: string, dataText: string)
    requires range in ValidRangeValues
    ensures ParseIntentPayload(JObject(map["intent" := JString(ListEventsIntent),
      "data" := JObject(map["range" := JString(range), "keyword" := JString("")], dataText)], text)) == Ok(ListEvents(range, None))
  {
  }

  /** When both an absolute and a valid relative target are given, the
      absolute one wins and the adjustment is dropped. */
  lemma AbsoluteWins(data: map<string, Json>, t: Timestamp)
    requires Get(data, "target_description").JString? && Strip(Get(data, "target_description").s) != ""
    requires ParseDatetime(Str(Get(data, "new_datetime"))) == Ok(t) && !Get(data, "new_datetime").JNull?
    requires ParseAdjustment(Get(data, "relative_amount"), Get(data, "relative_unit")).Ok?
    ensures ParseReschedule(data) == Ok(RescheduleEvent(Strip(Get(data, "target_description").s), Some(t), None))
  {
    assert ParseNewDatetime(Get(data, "new_datetime")) == Ok(Some(t));
  }

  /** A relative amount or unit given alone is an error, as is a reschedule
      with neither an absolute nor a relative target. */
  lemma RescheduleNeedsTarget(data: map<string, Json>)
    requires Get(data, "target_description").JString? && Strip(Get(data, "target_description").s) != ""
    requires Get(data, "new_datetime").JNull?
    requires Get(data, "relative_amount").JNull? || Get(data, "relative_unit").JNull?
    ensures ParseReschedule(data).Fail? && ParseReschedule(data).failure.IntentParseError?
  {
    var amount, unit := Get(data, "relative_amount"), Get(data, "relative_unit");
    assert ParseNewDatetime(Get(data, "new_datetime")) == Ok(None);
    if amount.JNull? && unit.JNull? {
      assert ParseAdjustment(amount, unit) == Ok(None);
    } else {
      assert ParseAdjustment(amount, unit).Fail?;
    }
  }
}
