/** The calendar service (calendar_service.py): range and keyword filters
    over the event list, and upsert forwarded to the store. */
module CalendarService {
  import opened Common
  import opened Text
  import opened Dates
  import opened Models
  import Store
  import Seqs

  /** The range test of `filter_events_by_range`: a missing bound does
      not limit, both bounds are inclusive. */
  predicate InRange(e: Event, start: Option<Timestamp>, end: Option<Timestamp>)
  {
    (start.None? || AtOrBefore(start.value, e.datetime)) && (end.None? || AtOrBefore(e.datetime, end.value))
  }

  /** The events of `events` in range, in order. */
  function RangeFiltered(events: seq<Event>, start: Option<Timestamp>, end: Option<Timestamp>): seq<Event>
    decreases |events|
  {
    if |events| == 0 then []
    else
      var front := events[..|events| - 1];
      var last := events[|events| - 1];
      if InRange(last, start, end) then RangeFiltered(front, start, end) + [last]
      else RangeFiltered(front, start, end)
  }

  /** The range filter keeps exactly the events inside the window. */
  lemma {:induction false} RangeFilteredMembers(events: seq<Event>, start: Option<Timestamp>, end: Option<Timestamp>)
    ensures forall e :: e in RangeFiltered(events, start, end) <==> e in events && InRange(e, start, end)
    decreases |events|
  {
    if |events| > 0 {
      var front := events[..|events| - 1];
      RangeFilteredMembers(front, start, end);
      Seqs.FrontLast(events);
    }
  }

  /** The case-insensitive keyword test of `filter_events_by_keyword`. */
  predicate MatchesKeyword(e: Event, keyword: string)
  {
    Contains(Lower(e.event), Lower(keyword)) || Contains(Lower(e.details), Lower(keyword))
  }

  /** `CalendarService.filter_events_by_keyword(events, keyword)`. */
  function FilterEventsByKeyword(events: seq<Event>, keyword: string): seq<Event>
    decreases |events|
  {
    if |events| == 0 then []
    else
      var front := events[..|events| - 1];
      var last := events[|events| - 1];
      if MatchesKeyword(last, keyword) then FilterEventsByKeyword(front, keyword) + [last]
      else FilterEventsByKeyword(front, keyword)
  }

  /** The keyword filter keeps exactly the events mentioning the keyword. */
  lemma {:induction false} KeywordFilteredMembers(events: seq<Event>, keyword: string)
    ensures forall e :: e in FilterEventsByKeyword(events, keyword) <==> e in events && MatchesKeyword(e, keyword)
    decreases |events|
  {
    if |events| > 0 {
      var front := events[..|events| - 1];
      KeywordFilteredMembers(front, keyword);
      Seqs.FrontLast(events);
    }
  }

  /** One more event either extends the filtered list or leaves it alone. */
  lemma RangeFilteredStep(events: seq<Event>, i: nat, start: Option<Timestamp>, end: Option<Timestamp>)
    requires i < |events|
    ensures RangeFiltered(events[..i + 1], start, end) ==
      if InRange(events[i], start, end) then RangeFiltered(events[..i], start, end) + [events[i]]
      else RangeFiltered(events[..i], start, end)
  {
    assert events[..i + 1][..i] == events[..i];
  }

  /** The loop's two `continue` tests reject exactly the events outside the window. */
  lemma OutsideIffNotInRange(e: Event, start: Option<Timestamp>, end: Option<Timestamp>)
    ensures InRange(e, start, end) <==>
      !(start.Some? && Before(e.datetime, start.value)) && !(end.Some? && Before(end.value, e.datetime))
  {
  }

  /** The range filter keeps the order of its input. */
  lemma {:induction false} RangeFilteredSubsequence(events: seq<Event>, start: Option<Timestamp>, end: Option<Timestamp>)
    ensures Seqs.IsSubsequence(RangeFiltered(events, start, end), events)
    decreases |events|
  {
    if |events| > 0 {
      var r := RangeFiltered(events, start, end);
      RangeFilteredSubsequence(events[..|events| - 1], start, end);
      if InRange(events[|events| - 1], start, end) {
        assert r[..|r| - 1] == RangeFiltered(events[..|events| - 1], start, end);
      }
    }
  }

  /** The keyword filter keeps the order of its input. */
  lemma {:induction false} KeywordFilteredSubsequence(events: seq<Event>, keyword: string)
    ensures Seqs.IsSubsequence(FilterEventsByKeyword(events, keyword), events)
    decreases |events|
  {
    if |events| > 0 {
      var r := FilterEventsByKeyword(events, keyword);
      KeywordFilteredSubsequence(events[..|events| - 1], keyword);
      if MatchesKeyword(events[|events| - 1], keyword) {
        assert r[..|r| - 1] == FilterEventsByKeyword(events[..|events| - 1], keyword);
      }
    }
  }

  /** With neither bound every event is kept. */
  lemma {:induction false} RangeUnbounded(events: seq<Event>)
    ensures RangeFiltered(events, None, None) == events
    decreases |events|
  {
    if |events| > 0 {
      RangeUnbounded(events[..|events| - 1]);
      assert events[..|events| - 1] + [events[|events| - 1]] == events;
    }
  }

  /** The empty keyword is contained in every text, so it keeps every event. */
  lemma {:induction false} EmptyKeywordKeepsAll(events: seq<Event>)
    ensures FilterEventsByKeyword(events, "") == events
    decreases |events|
  {
    if |events| > 0 {
      var last := events[|events| - 1];
      EmptyKeywordKeepsAll(events[..|events| - 1]);
      assert Lower("") == "";
      ContainsEmpty(Lower(last.event));
      assert events[..|events| - 1] + [last] == events;
    }
  }

  lemma LowerIdempotent(s: string)
    ensures Lower(Lower(s)) == Lower(s)
  {
  }

  /** Upper- or lower-casing the keyword changes nothing. */
  lemma KeywordCaseInsensitive(events: seq<Event>, keyword: string)
    ensures FilterEventsByKeyword(events, Lower(keyword)) == FilterEventsByKeyword(events, keyword)
  {
    LowerIdempotent(keyword);
    assert forall e :: MatchesKeyword(e, Lower(keyword)) == MatchesKeyword(e, keyword);
    SameKeywordTest(events, Lower(keyword), keyword);
  }

  lemma {:induction false} SameKeywordTest(events: seq<Event>, k1: string, k2: string)
    requires Lower(k1) == Lower(k2)
    ensures FilterEventsByKeyword(events, k1) == FilterEventsByKeyword(events, k2)
    decreases |events|
  {
    if |events| > 0 {
      SameKeywordTest(events[..|events| - 1], k1, k2);
    }
  }

  /** An event's own name, in any case, finds it. */
  lemma OwnNameMatches(e: Event)
    ensures MatchesKeyword(e, e.event)
  {
    assert Lower(e.event) == "" + Lower(e.event) + "";
    ContainsMiddle("", Lower(e.event), "");
  }

  /** `CalendarService`: the storage path and the operations over it. */
  class Service {
    const dataPath: string

    constructor(dataPath: string)
      ensures this.dataPath == dataPath
    {
      this.dataPath := dataPath;
    }

    /** `filter_events_by_range(events, start=…, end=…)`. */
    method FilterEventsByRange(events: seq<Event>, start: Option<Timestamp>, end: Option<Timestamp>)
      returns (filtered: seq<Event>)
      ensures filtered == RangeFiltered(events, start, end)
    {
      filtered := [];
      var i := 0;
      while i < |events|
        invariant 0 <= i <= |events|
        invariant filtered == RangeFiltered(events[..i], start, end)
      {
        var ev := events[i];
        RangeFilteredStep(events, i, start, end);
        OutsideIffNotInRange(ev, start, end);
        if start.Some? && Before(ev.datetime, start.value) {
          i := i + 1;
          continue;
        }
        if end.Some? && Before(end.value, ev.datetime) {
          i := i + 1;
          continue;
        }
        filtered := filtered + [ev];
        i := i + 1;
      }
      assert events[..i] == events;
    }

    /** `upsert_event`: forwards to the store with this service's path. */
    method UpsertEvent(events: seq<Event>, newEvent: Event, editing: bool, original: Option<Event>)
      returns (updated: seq<Event>, write: Store.FileWrite)
      ensures updated == Store.Upserted(events, newEvent, editing, original)
      ensures write == Store.FileWrite(dataPath, Store.SaveRows(updated))
    {
      updated, write := Store.UpsertEvent(dataPath, events, newEvent, editing, original);
    }
  }
}
