/** The CSV-backed event store (store.py): the row form of an event, the
    two sort orders, loading, saving and the upsert that replaces the
    first record equal to the one being edited.

    Files are not modelled: a file's content is the list of rows the csv
    module reads from it, and saving produces the rows to be written. */
module Store {
  import opened Common
  import opened Text
  import opened Dates
  import opened Models
  import Seqs

  type Row = seq<string>

  /** The rows handed to the file writer, and the file they go to. */
  datatype FileWrite = FileWrite(path: string, rows: seq<Row>)

  /** `_serialize_event`: printed datetime, name and details. */
  function SerializeEvent(e: Event): (r: Row)
    ensures |r| == 3 && r[1] == e.event && r[2] == e.details
  {
    [FormatDateTime(e.datetime), e.event, e.details]
  }

  /** `_deserialize_row`: rows shorter than three fields are corrupt;
      columns after the third are ignored. */
  function DeserializeRow(row: Row): (r: Result<Event>)
    ensures |row| < 3 ==> r == Fail(StorageError("Corrupt CSV row"))
    ensures |row| >= 3 ==> r.Ok? == ParseDatetime(row[0]).Ok?
    ensures r.Ok? ==> r.value.event == row[1] && r.value.details == row[2]
  {
    if |row| < 3 then Fail(StorageError("Corrupt CSV row"))
    else
      match ParseDatetime(row[0])
      case Fail(f) => Fail(f)
      case Ok(dt) => Ok(Event(dt, row[1], row[2]))
  }

  /** A serialised event reads back as the same event. */
  lemma DeserializeSerialized(e: Event)
    requires 1000 <= e.datetime.date.year <= 9999
    ensures DeserializeRow(SerializeEvent(e)) == Ok(e)
  {
    ParseDatetimeOfFormat(e.datetime);
  }

  /** Extra trailing columns never change what a row reads as. */
  lemma DeserializeIgnoresExtraColumns(row: Row, extra: seq<string>)
    requires |row| >= 3
    ensures DeserializeRow(row + extra) == DeserializeRow(row)
  {
    assert (row + extra)[..3] == row[..3];
  }

  // ---------------------------------------------------------------------
  // Sort orders

  /** Python's `<=` on strings: code point by code point. */
  predicate StrLeq(a: string, b: string)
    decreases |a|
  {
    a == [] || (b != [] && (a[0] < b[0] || (a[0] == b[0] && StrLeq(a[1..], b[1..]))))
  }

  lemma {:induction false} StrLeqTotal(a: string, b: string)
    ensures StrLeq(a, b) || StrLeq(b, a)
    decreases |a|
  {
    if a != [] && b != [] && a[0] == b[0] {
      StrLeqTotal(a[1..], b[1..]);
    }
  }

  lemma {:induction false} StrLeqAntisymmetric(a: string, b: string)
    requires StrLeq(a, b) && StrLeq(b, a)
    ensures a == b
    decreases |a|
  {
    if a != [] {
      StrLeqAntisymmetric(a[1..], b[1..]);
      assert a == [a[0]] + a[1..] && b == [b[0]] + b[1..];
    }
  }

  /** The key of `load_events` (datetime) or of `save_events`
      (datetime, event, details). */
  datatype SortKey = ByDatetime | ByAllFields

  predicate Leq(k: SortKey, a: Event, b: Event)
  {
    var sa, sb := Seconds(a.datetime), Seconds(b.datetime);
    match k
    case ByDatetime => sa <= sb
    case ByAllFields =>
      sa < sb || (sa == sb &&
        ((StrLeq(a.event, b.event) && a.event != b.event) || (a.event == b.event && StrLeq(a.details, b.details))))
  }

  lemma LeqTotal(k: SortKey, a: Event, b: Event)
    ensures Leq(k, a, b) || Leq(k, b, a)
  {
    StrLeqTotal(a.event, b.event);
    StrLeqTotal(a.details, b.details);
    if StrLeq(a.event, b.event) && StrLeq(b.event, a.event) {
      StrLeqAntisymmetric(a.event, b.event);
    }
  }

  /** The full-field order refines the datetime order. */
  lemma LeqAllFieldsByDatetime(a: Event, b: Event)
    requires Leq(ByAllFields, a, b)
    ensures Leq(ByDatetime, a, b)
  {
  }

  /** Under the full-field order only equal events tie. */
  lemma LeqAllFieldsAntisymmetric(a: Event, b: Event)
    requires Leq(ByAllFields, a, b) && Leq(ByAllFields, b, a)
    ensures a == b
  {
    SecondsInjective(a.datetime, b.datetime);
    if a.event == b.event {
      StrLeqAntisymmetric(a.details, b.details);
    } else {
      StrLeqAntisymmetric(a.event, b.event);
    }
  }

  predicate Sorted(k: SortKey, s: seq<Event>)
  {
    forall i :: 0 <= i < |s| - 1 ==> Leq(k, s[i], s[i + 1])
  }

  /** Insert x into sorted s after every element not above it. */
  function Insert(k: SortKey, s: seq<Event>, x: Event): (r: seq<Event>)
    ensures |r| == |s| + 1
    ensures r[|r| - 1] == x || (|s| > 0 && r[|r| - 1] == s[|s| - 1])
    decreases |s|
  {
    if |s| == 0 || Leq(k, s[|s| - 1], x) then s + [x]
    else Insert(k, s[..|s| - 1], x) + [s[|s| - 1]]
  }

  /** Insertion adds x and loses nothing. */
  lemma {:induction false} InsertPermutes(k: SortKey, s: seq<Event>, x: Event)
    ensures multiset(Insert(k, s, x)) == multiset(s) + multiset{x}
    decreases |s|
  {
    if |s| > 0 && !Leq(k, s[|s| - 1], x) {
      var front := s[..|s| - 1];
      InsertPermutes(k, front, x);
      Seqs.MultisetFrontLast(s);
    }
  }

  /** Python's stable `sorted(s, key=…)`, as insertion sort. */
  function SortBy(k: SortKey, s: seq<Event>): (r: seq<Event>)
    ensures |r| == |s|
    decreases |s|
  {
    if |s| == 0 then []
    else Insert(k, SortBy(k, s[..|s| - 1]), s[|s| - 1])
  }

  /** The sort is a permutation of its input. */
  lemma {:induction false} SortByPermutes(k: SortKey, s: seq<Event>)
    ensures multiset(SortBy(k, s)) == multiset(s)
    decreases |s|
  {
    if |s| > 0 {
      var front := s[..|s| - 1];
      SortByPermutes(k, front);
      InsertPermutes(k, SortBy(k, front), s[|s| - 1]);
      Seqs.MultisetFrontLast(s);
    }
  }

  lemma {:induction false} InsertSorted(k: SortKey, s: seq<Event>, x: Event)
    requires Sorted(k, s)
    ensures Sorted(k, Insert(k, s, x))
    decreases |s|
  {
    if |s| == 0 || Leq(k, s[|s| - 1], x) {
      SortedSnoc(k, s, x);
    } else {
      var front, last := s[..|s| - 1], s[|s| - 1];
      LeqTotal(k, last, x);
      assert Sorted(k, front);
      InsertSorted(k, front, x);
      var r := Insert(k, front, x);
      assert |front| > 0 ==> Leq(k, front[|front| - 1], last);
      SortedSnoc(k, r, last);
    }
  }

  /** A sorted list stays sorted when an element not below its last is appended. */
  lemma SortedSnoc(k: SortKey, s: seq<Event>, y: Event)
    requires Sorted(k, s)
    requires |s| > 0 ==> Leq(k, s[|s| - 1], y)
    ensures Sorted(k, s + [y])
  {
    var r := s + [y];
    forall i | 0 <= i < |r| - 1
      ensures Leq(k, r[i], r[i + 1])
    {
      if i < |s| - 1 {
        assert r[i] == s[i] && r[i + 1] == s[i + 1];
      }
    }
  }

  /** The sort's result is ordered by its key. */
  lemma {:induction false} SortBySorted(k: SortKey, s: seq<Event>)
    ensures Sorted(k, SortBy(k, s))
    decreases |s|
  {
    if |s| > 0 {
      SortBySorted(k, s[..|s| - 1]);
      InsertSorted(k, SortBy(k, s[..|s| - 1]), s[|s| - 1]);
    }
  }

  /** The front of a sorted list is sorted, and its last element is not
      above the list's last. */
  lemma SortedFront(k: SortKey, s: seq<Event>)
    requires Sorted(k, s) && |s| > 0
    ensures Sorted(k, s[..|s| - 1])
    ensures |s| > 1 ==> Leq(k, s[..|s| - 1][|s| - 2], s[|s| - 1])
  {
    assert forall i :: 0 <= i < |s| - 1 ==> s[..|s| - 1][i] == s[i];
  }

  /** Inserting an element not below the last appends it. */
  lemma InsertAfterLast(k: SortKey, s: seq<Event>, x: Event)
    requires |s| > 0 ==> Leq(k, s[|s| - 1], x)
    ensures Insert(k, s, x) == s + [x]
  {
  }

  /** Sorting a list already in order returns it unchanged. */
  lemma {:induction false} SortBySortedIdentity(k: SortKey, s: seq<Event>)
    requires Sorted(k, s)
    ensures SortBy(k, s) == s
    decreases |s|
  {
    if |s| > 0 {
      var front, last := s[..|s| - 1], s[|s| - 1];
      SortedFront(k, s);
      SortBySortedIdentity(k, front);
      InsertAfterLast(k, front, last);
      assert front + [last] == s;
    }
  }

  /** The events of s whose datetime is t, in their order in s. */
  function AtDatetime(s: seq<Event>, t: Timestamp): seq<Event>
    decreases |s|
  {
    if |s| == 0 then []
    else
      var front := AtDatetime(s[..|s| - 1], t);
      if s[|s| - 1].datetime == t then front + [s[|s| - 1]] else front
  }

  lemma {:induction false} AtDatetimeSnoc(s: seq<Event>, e: Event, t: Timestamp)
    ensures AtDatetime(s + [e], t) == AtDatetime(s, t) + (if e.datetime == t then [e] else [])
  {
    assert (s + [e])[..|s|] == s;
  }

  lemma {:induction false} InsertStable(s: seq<Event>, x: Event, t: Timestamp)
    ensures AtDatetime(Insert(ByDatetime, s, x), t) == AtDatetime(s, t) + (if x.datetime == t then [x] else [])
    decreases |s|
  {
    if |s| == 0 || Leq(ByDatetime, s[|s| - 1], x) {
      AtDatetimeSnoc(s, x, t);
    } else {
      var last := s[|s| - 1];
      var front := s[..|s| - 1];
      var inserted := Insert(ByDatetime, front, x);
      var before := AtDatetime(front, t);
      InsertStable(front, x, t);
      assert Insert(ByDatetime, s, x) == inserted + [last];
      AtDatetimeSnoc(inserted, last, t);
      if x.datetime == t {
        assert last.datetime != t;
        assert AtDatetime(inserted, t) == before + [x];
        assert AtDatetime(s, t) == before + [];
      } else {
        assert AtDatetime(inserted, t) == before + [];
      }
    }
  }

  /** Stability: the events sharing any one datetime keep their input
      order through the datetime sort of `load_events`. */
  lemma {:induction false} SortByDatetimeStable(s: seq<Event>, t: Timestamp)
    ensures AtDatetime(SortBy(ByDatetime, s), t) == AtDatetime(s, t)
    decreases |s|
  {
    if |s| > 0 {
      var init := s[..|s| - 1];
      SortByDatetimeStable(init, t);
      InsertStable(SortBy(ByDatetime, init), s[|s| - 1], t);
    }
  }

  lemma SortedAllFieldsByDatetime(s: seq<Event>)
    requires Sorted(ByAllFields, s)
    ensures Sorted(ByDatetime, s)
  {
  }

  // ---------------------------------------------------------------------
  // Loading and saving

  /** `save_events`: the rows written, in (datetime, event, details) order. */
  function SaveRows(events: seq<Event>): (rows: seq<Row>)
    ensures |rows| == |events|
    ensures forall i :: 0 <= i < |rows| ==> rows[i] == SerializeEvent(SortBy(ByAllFields, events)[i])
  {
    var ordered := SortBy(ByAllFields, events);
    seq(|ordered|, i requires 0 <= i < |ordered| => SerializeEvent(ordered[i]))
  }

  /** Deserialise every row, stopping at the first that fails. */
  function DeserializeRows(rows: seq<Row>): (r: Result<seq<Event>>)
    ensures r.Ok? ==> |r.value| == |rows| && forall i :: 0 <= i < |rows| ==> DeserializeRow(rows[i]) == Ok(r.value[i])
    ensures r.Fail? ==> exists i :: (0 <= i < |rows| && DeserializeRow(rows[i]) == Fail(r.failure) &&
      forall j :: 0 <= j < i ==> DeserializeRow(rows[j]).Ok?)
  {
    MapResult(rows, DeserializeRow)
  }

  /** `load_events(path)`: a missing file (None) holds no events; any
      failure while reading becomes a StorageError naming the path; the
      events come back sorted by datetime. */
  function LoadEvents(path: string, file: Option<seq<Row>>): (r: Result<seq<Event>>)
    ensures file.None? ==> r == Ok([])
    ensures r.Ok? ==> Sorted(ByDatetime, r.value)
    ensures file.Some? ==> (r.Ok? <==> DeserializeRows(file.value).Ok?)
    ensures r.Ok? && file.Some? ==>
      multiset(r.value) == multiset(DeserializeRows(file.value).value) &&
      r.value == SortBy(ByDatetime, DeserializeRows(file.value).value)
    ensures r.Fail? ==> (file.Some? &&
      r.failure == StorageError("Failed to read events from " + path + ": " + DeserializeRows(file.value).failure.message))
  {
    match file
    case None => Ok([])
    case Some(rows) =>
      match DeserializeRows(rows)
      case Fail(f) => Fail(StorageError("Failed to read events from " + path + ": " + f.message))
      case Ok(events) =>
        SortBySorted(ByDatetime, events);
        SortByPermutes(ByDatetime, events);
        Ok(SortBy(ByDatetime, events))
  }

  /** The datetime sort on load is stable: the events loaded at any one
      datetime keep the order their rows have in the file. */
  lemma LoadKeepsTiesInFileOrder(path: string, rows: seq<Row>, t: Timestamp)
    requires LoadEvents(path, Some(rows)).Ok?
    ensures AtDatetime(LoadEvents(path, Some(rows)).value, t) == AtDatetime(DeserializeRows(rows).value, t)
  {
    SortByDatetimeStable(DeserializeRows(rows).value, t);
  }

  lemma DeserializeSaved(events: seq<Event>)
    requires forall e :: e in events ==> 1000 <= e.datetime.date.year <= 9999
    ensures DeserializeRows(SaveRows(events)) == Ok(SortBy(ByAllFields, events))
  {
    var ordered := SortBy(ByAllFields, events);
    var rows := SaveRows(events);
    SortByPermutes(ByAllFields, events);
    forall i | 0 <= i < |rows|
      ensures DeserializeRow(rows[i]) == Ok(ordered[i])
    {
      assert ordered[i] in multiset(events);
      DeserializeSerialized(ordered[i]);
    }
    MapResultAllOk(rows, DeserializeRow, ordered);
  }

  /** Loading what was saved gives the saved events in (datetime, event,
      details) order: the datetime sort on load leaves that order alone. */
  lemma LoadAfterSave(path: string, events: seq<Event>)
    requires forall e :: e in events ==> 1000 <= e.datetime.date.year <= 9999
    ensures LoadEvents(path, Some(SaveRows(events))) == Ok(SortBy(ByAllFields, events))
  {
    DeserializeSaved(events);
    SortBySorted(ByAllFields, events);
    SortedAllFieldsByDatetime(SortBy(ByAllFields, events));
    SortBySortedIdentity(ByDatetime, SortBy(ByAllFields, events));
  }

  // ---------------------------------------------------------------------
  // Upsert

  /** s without its first occurrence of o (s itself when o is absent). */
  function RemoveFirst(s: seq<Event>, o: Event): (r: seq<Event>)
    ensures o !in s ==> r == s
    ensures o in s ==> |r| == |s| - 1
    decreases |s|
  {
    if |s| == 0 then []
    else if s[0] == o then s[1..]
    else [s[0]] + RemoveFirst(s[1..], o)
  }

  /** Removing the first match leaves everything before it and everything
      after it, in order. */
  lemma {:induction false} RemoveFirstSplits(s: seq<Event>, o: Event) returns (i: nat)
    requires o in s
    ensures i < |s| && s[i] == o && o !in s[..i]
    ensures RemoveFirst(s, o) == s[..i] + s[i + 1..]
    decreases |s|
  {
    if s[0] == o {
      i := 0;
    } else {
      var j := RemoveFirstSplits(s[1..], o);
      i := j + 1;
      assert s[..i] == [s[0]] + s[1..][..j];
      assert s[i + 1..] == s[1..][j + 1..];
    }
  }

  lemma {:induction false} RemoveFirstSnoc(s: seq<Event>, e: Event, o: Event)
    ensures RemoveFirst(s + [e], o) ==
      if o in s then RemoveFirst(s, o) + [e] else if e == o then s else s + [e]
    decreases |s|
  {
    if |s| == 0 {
      assert s + [e] == [e];
    } else {
      assert (s + [e])[1..] == s[1..] + [e];
      RemoveFirstSnoc(s[1..], e, o);
      if s[0] != o {
        assert o in s <==> o in s[1..];
        assert [s[0]] + s[1..] == s;
      }
    }
  }

  /** The list `upsert_event` returns (and saves). */
  function Upserted(events: seq<Event>, newEvent: Event, editing: bool, original: Option<Event>): seq<Event>
  {
    (if editing && original.Some? then RemoveFirst(events, original.value) else events) + [newEvent]
  }

  /** `upsert_event(path, events, new_event, replace_dt=(editing, original))`:
      when editing an original, drop the first event equal to it field for
      field; append the new event; save. */
  method UpsertEvent(path: string, events: seq<Event>, newEvent: Event, editing: bool, original: Option<Event>)
    returns (updated: seq<Event>, write: FileWrite)
    ensures updated == Upserted(events, newEvent, editing, original)
    ensures write == FileWrite(path, SaveRows(updated))
  {
    if editing && original.Some? {
      updated := DropFirstMatch(events, original.value);
    } else {
      updated := events;
    }
    updated := updated + [newEvent];
    write := FileWrite(path, SaveRows(updated));
  }

  /** The loop of `upsert_event` that copies the events, skipping the first
      one equal to the original. */
  method DropFirstMatch(events: seq<Event>, o: Event) returns (kept: seq<Event>)
    ensures kept == RemoveFirst(events, o)
  {
    kept := [];
    var replaced := false;
    var i := 0;
    while i < |events|
      invariant 0 <= i <= |events|
      invariant replaced <==> o in events[..i]
      invariant kept == RemoveFirst(events[..i], o)
    {
      var e := events[i];
      RemoveFirstSnoc(events[..i], e, o);
      Seqs.FrontLast(events[..i + 1]);
      assert events[..i + 1][..i] == events[..i];
      if !replaced && e == o {
        replaced := true;
      } else {
        kept := kept + [e];
      }
      i := i + 1;
    }
    assert events[..i] == events;
  }

  /** The new event is always last; the list grows by one unless an
      original was found and removed. */
  lemma UpsertedShape(events: seq<Event>, newEvent: Event, editing: bool, original: Option<Event>)
    ensures var r := Upserted(events, newEvent, editing, original);
      r[|r| - 1] == newEvent &&
      |r| == (if editing && original.Some? && original.value in events then |events| else |events| + 1)
  {
  }

  /** Not editing (or editing without an original) keeps the whole list. */
  lemma UpsertedAppendsOnly(events: seq<Event>, newEvent: Event, editing: bool, original: Option<Event>)
    requires !editing || original.None?
    ensures Upserted(events, newEvent, editing, original) == events + [newEvent]
  {
  }

  /** Editing removes exactly one copy of the original, the first; every
      other event, including later duplicates, stays in order. */
  lemma UpsertedReplacesFirst(events: seq<Event>, newEvent: Event, o: Event)
    requires o in events
    ensures exists i :: (0 <= i < |events| && events[i] == o && o !in events[..i] &&
      Upserted(events, newEvent, true, Some(o)) == events[..i] + events[i + 1..] + [newEvent])
    ensures multiset(Upserted(events, newEvent, true, Some(o))) == multiset(events) - multiset{o} + multiset{newEvent}
  {
    var i := RemoveFirstSplits(events, o);
    assert events == events[..i] + [o] + events[i + 1..];
    assert multiset(events) == multiset(events[..i]) + multiset{o} + multiset(events[i + 1..]);
  }
}
