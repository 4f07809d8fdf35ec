/** Deterministic `bucket(...) — when x(...) happens, I want y(...)
    outcome, to have z(...) impact` commands (structured_command.py):
    splitting editor text into entries, parsing each entry, and printing
    records back in the template.

    Finding the text inside `label(...)` is done by a regular expression
    that is not part of this model: it is the parameter `extract`, which
    returns the raw text between the brackets, or None when the block is
    absent. */
module StructuredCommand {
  import opened Common
  import opened Text
  import opened Dates
  import opened Models
  import Seqs

  /** The buckets the template offers. */
  const Buckets: seq<string> := ["personal_development", "thing", "economic"]

  /** A record with the bucket it was filed under; x, y and z are the
      `datetime`, `event` and `details` of the record. */
  datatype BucketedEvent = BucketedEvent(bucket: string, event: Event)

  function MissingBlock(name: string): string
  {
    "Missing " + name + "(...) block"
  }

  /** `_extract_component(text, label)`, given the raw bracket contents. */
  function ExtractComponent(text: string, name: string, extract: (string, string) -> Option<string>): (r: Result<string>)
    ensures r.Ok? <==> extract(text, name).Some?
    ensures r.Ok? ==> r.value == Strip(extract(text, name).value)
    ensures r.Fail? ==> r.failure == StructuredCommandError(MissingBlock(name))
  {
    match extract(text, name)
    case None => Fail(StructuredCommandError(MissingBlock(name)))
    case Some(raw) => Ok(Strip(raw))
  }

  /** The checks after extraction, on the four stripped components: the
      outcome must be present, the lower-cased bucket must be one of the
      buckets, and x must parse as a datetime. */
  function CheckComponents(bucketRaw: string, xRaw: string, yRaw: string, zRaw: string): (r: Result<BucketedEvent>)
    ensures yRaw == "" ==> r == Fail(StructuredCommandError("y(...) must include an outcome description"))
    ensures yRaw != "" && Lower(Strip(bucketRaw)) == "" ==> r == Fail(StructuredCommandError("bucket(...) cannot be empty"))
    ensures (yRaw != "" && Lower(Strip(bucketRaw)) != "" && Lower(Strip(bucketRaw)) !in Buckets) ==>
      r == Fail(StructuredCommandError(InvalidBucket(Lower(Strip(bucketRaw)))))
    ensures yRaw != "" && Lower(Strip(bucketRaw)) in Buckets && ParseDatetime(xRaw).Fail? ==>
      r == Fail(StructuredCommandError(ParseDatetime(xRaw).failure.message))
    ensures r.Ok? <==> yRaw != "" && Lower(Strip(bucketRaw)) in Buckets && ParseDatetime(xRaw).Ok?
    ensures r.Ok? ==> (r.value.bucket in Buckets && r.value.bucket == Lower(Strip(bucketRaw)) &&
      Ok(r.value.event.datetime) == ParseDatetime(xRaw) && r.value.event.event == yRaw && r.value.event.details == zRaw)
  {
    if yRaw == "" then Fail(StructuredCommandError("y(...) must include an outcome description"))
    else
      var bucket := Lower(Strip(bucketRaw));
      if bucket == "" then Fail(StructuredCommandError("bucket(...) cannot be empty"))
      else if bucket !in Buckets then
        Fail(StructuredCommandError(InvalidBucket(bucket)))
      else
        match ParseDatetime(xRaw)
        case Fail(f) => Fail(StructuredCommandError(f.message))
        case Ok(dt) => Ok(BucketedEvent(bucket, Event(dt, yRaw, zRaw)))
  }

  function InvalidBucket(bucket: string): string
  {
    "Invalid bucket '" + bucket + "'. Expected one of: " + Join(", ", Buckets)
  }

  /** The error message names the rejected bucket and each accepted one. */
  lemma InvalidBucketListsBuckets(bucket: string, i: nat)
    requires i < |Buckets|
    ensures Contains(InvalidBucket(bucket), bucket) && Contains(InvalidBucket(bucket), Buckets[i])
  {
    var list := Join(", ", Buckets);
    ContainsMiddle("Invalid bucket '", bucket, "'. Expected one of: " + list);
    assert InvalidBucket(bucket) == "Invalid bucket '" + bucket + ("'. Expected one of: " + list);
    JoinContains(", ", Buckets, i);
    ContainsMiddle("Invalid bucket '" + bucket + "'. Expected one of: ", list, "");
    assert InvalidBucket(bucket) == "Invalid bucket '" + bucket + "'. Expected one of: " + list + "";
    ContainsTrans(InvalidBucket(bucket), list, Buckets[i]);
  }

  /** `parse_structured_command(text)`. */
  function ParseStructuredCommand(text: string, extract: (string, string) -> Option<string>): (r: Result<BucketedEvent>)
    ensures Strip(text) == "" ==> r == Fail(StructuredCommandError("Command text is empty"))
    ensures r.Fail? ==> r.failure.StructuredCommandError?
  {
    if Strip(text) == "" then Fail(StructuredCommandError("Command text is empty"))
    else
      var bucketRaw := ExtractComponent(text, "bucket", extract);
      if bucketRaw.Fail? then Fail(bucketRaw.failure)
      else
        var xRaw := ExtractComponent(text, "x", extract);
        if xRaw.Fail? then Fail(xRaw.failure)
        else
          var yRaw := ExtractComponent(text, "y", extract);
          if yRaw.Fail? then Fail(yRaw.failure)
          else
            var zRaw := ExtractComponent(text, "z", extract);
            if zRaw.Fail? then Fail(zRaw.failure)
            else
              CheckComponents(bucketRaw.value, xRaw.value, yRaw.value, zRaw.value)
  }

  /** The first block that is missing, in the order bucket, x, y, z, is the
      one reported. */
  lemma MissingBlockReported(text: string, extract: (string, string) -> Option<string>)
    requires Strip(text) != ""
    ensures extract(text, "bucket").None? ==>
      ParseStructuredCommand(text, extract) == Fail(StructuredCommandError(MissingBlock("bucket")))
    ensures extract(text, "bucket").Some? && extract(text, "x").None? ==>
      ParseStructuredCommand(text, extract) == Fail(StructuredCommandError(MissingBlock("x")))
    ensures extract(text, "bucket").Some? && extract(text, "x").Some? && extract(text, "y").None? ==>
      ParseStructuredCommand(text, extract) == Fail(StructuredCommandError(MissingBlock("y")))
    ensures (extract(text, "bucket").Some? && extract(text, "x").Some? && extract(text, "y").Some? &&
             extract(text, "z").None?) ==>
      ParseStructuredCommand(text, extract) == Fail(StructuredCommandError(MissingBlock("z")))
  {
  }

  /** With all four blocks present, the command is whatever the checks on
      their stripped contents decide. */
  lemma ParseOfComponents(text: string, extract: (string, string) -> Option<string>, b: string, x: string, y: string, z: string)
    requires Strip(text) != ""
    requires extract(text, "bucket") == Some(b) && extract(text, "x") == Some(x)
    requires extract(text, "y") == Some(y) && extract(text, "z") == Some(z)
    ensures ParseStructuredCommand(text, extract) == CheckComponents(Strip(b), Strip(x), Strip(y), Strip(z))
  {
  }

  /** `format_event_as_command(event)`. */
  function FormatEventAsCommand(e: BucketedEvent): string
  {
    Template(e.bucket, FormatDateTime(e.event.datetime), e.event.event, e.event.details)
  }

  /** The command template filled with the bucket and the x, y and z texts. */
  function Template(bucket: string, x: string, y: string, z: string): string
  {
    "bucket(" + bucket + ") \U{2014} when x(" + x + ") happens, I want y(" + y + ") outcome, to have z(" + z + ") impact"
  }

  /** The commands for a run of records, one each, in order. */
  function FormatCommands(events: seq<BucketedEvent>): seq<string>
  {
    Seqs.Map(events, FormatEventAsCommand)
  }

  /** `format_events_block(events)`: commands separated by blank lines. */
  function FormatEventsBlock(events: seq<BucketedEvent>): string
  {
    Join("\n\n", FormatCommands(events))
  }

  /** When the bracket contents read back exactly what was printed, a
      printed command parses to the record it came from. */
  lemma ParseOfExtracted(e: BucketedEvent, extract: (string, string) -> Option<string>)
    requires e.bucket in Buckets
    requires e.event.event != "" && Strip(e.event.event) == e.event.event && Strip(e.event.details) == e.event.details
    requires 1000 <= e.event.datetime.date.year <= 9999
    requires var c := FormatEventAsCommand(e);
      extract(c, "bucket") == Some(e.bucket) && extract(c, "x") == Some(FormatDateTime(e.event.datetime)) &&
      extract(c, "y") == Some(e.event.event) && extract(c, "z") == Some(e.event.details)
    ensures ParseStructuredCommand(FormatEventAsCommand(e), extract) == Ok(e)
  {
    var d := FormatDateTime(e.event.datetime);
    var c := FormatEventAsCommand(e);
    TemplateIsTrimmed(e.bucket, d, e.event.event, e.event.details);
    TrimmedIsStripped(c);
    ParseOfComponents(c, extract, e.bucket, d, e.event.event, e.event.details);
    CheckOfPrinted(e);
  }

  /** The checks accept the fields of a record as printed. */
  lemma CheckOfPrinted(e: BucketedEvent)
    requires e.bucket in Buckets
    requires e.event.event != "" && Strip(e.event.event) == e.event.event && Strip(e.event.details) == e.event.details
    requires 1000 <= e.event.datetime.date.year <= 9999
    ensures var d := FormatDateTime(e.event.datetime);
      CheckComponents(Strip(e.bucket), Strip(d), Strip(e.event.event), Strip(e.event.details)) == Ok(e)
  {
    BucketsAreCanonical(e.bucket);
    PrintedDateTimeParses(e.event.datetime);
  }

  /** A printed datetime has no surrounding whitespace and parses back. */
  lemma PrintedDateTimeParses(t: Timestamp)
    requires 1000 <= t.date.year <= 9999
    ensures Strip(FormatDateTime(t)) == FormatDateTime(t) && ParseDatetime(Strip(FormatDateTime(t))) == Ok(t)
  {
    FormatChars(t);
    StripUnchanged(FormatDateTime(t));
    ParseDatetimeOfFormat(t);
  }

  /** Each bucket name is stripped and lower-case already. */
  lemma BucketsAreCanonical(b: string)
    requires b in Buckets
    ensures Strip(b) == b && Lower(b) == b
  {
    BucketChars(b);
    StripUnchanged(b);
    LowerUnchanged(b);
  }

  /** The bucket names are lower-case letters and underscores. */
  lemma BucketChars(b: string)
    requires b in Buckets
    ensures |b| > 0 && forall i :: 0 <= i < |b| ==> 'a' <= b[i] <= 'z' || b[i] == '_'
  {
    assert b == Buckets[0] || b == Buckets[1] || b == Buckets[2];
  }

  // Splitting editor text into entries

  /** The loop state of `_split_entries`: the finished entries and the
      stripped lines of the entry being collected. */
  datatype Pending = Pending(entries: seq<string>, current: seq<string>)

  /** One line of `_split_entries`: a blank line closes the open entry; any
      other line joins it, stripped. */
  function Step(p: Pending, line: string): Pending
  {
    var stripped := Strip(line);
    if stripped == "" then
      if p.current != [] then Pending(p.entries + [Join(" ", p.current)], []) else p
    else Pending(p.entries, p.current + [stripped])
  }

  /** The loop state after the given lines. */
  function Scan(lines: seq<string>): Pending
    decreases |lines|
  {
    if lines == [] then Pending([], [])
    else Step(Scan(lines[..|lines| - 1]), lines[|lines| - 1])
  }

  /** The entries once the last open entry is closed. */
  function Flush(p: Pending): seq<string>
  {
    if p.current != [] then p.entries + [Join(" ", p.current)] else p.entries
  }

  /** The entries of a sequence of lines. */
  function EntriesOf(lines: seq<string>): seq<string>
  {
    Flush(Scan(lines))
  }

  /** `_split_entries(text)`. */
  method SplitEntries(text: string) returns (entries: seq<string>)
    ensures entries == EntriesOf(SplitLines(text))
  {
    var lines := SplitLines(text);
    entries := [];
    var current: seq<string> := [];
    for i := 0 to |lines|
      invariant Pending(entries, current) == Scan(lines[..i])
    {
      assert lines[..i + 1][..i] == lines[..i];
      var stripped := Strip(lines[i]);
      if stripped == "" {
        if current != [] {
          entries := entries + [Join(" ", current)];
          current := [];
        }
        continue;
      }
      current := current + [stripped];
    }
    assert lines[..|lines|] == lines;
    if current != [] {
      entries := entries + [Join(" ", current)];
    }
  }

  /** The stripped non-blank lines, in order. */
  function NonBlank(lines: seq<string>): seq<string>
    decreases |lines|
  {
    if lines == [] then []
    else
      var s := Strip(lines[|lines| - 1]);
      NonBlank(lines[..|lines| - 1]) + (if s != "" then [s] else [])
  }

  /** The number of maximal runs of non-blank lines: the non-blank lines
      that come first or right after a blank one. */
  function RunStarts(lines: seq<string>): nat
    decreases |lines|
  {
    if lines == [] then 0
    else
      var front := lines[..|lines| - 1];
      var starts := Strip(lines[|lines| - 1]) != "" && (front == [] || Strip(front[|front| - 1]) == "");
      RunStarts(front) + (if starts then 1 else 0)
  }

  /** Non-empty, with no whitespace at either end. */
  predicate Trimmed(s: string)
  {
    s != "" && !IsSpace(s[0]) && !IsSpace(s[|s| - 1])
  }

  /** A trimmed text is its own strip. */
  lemma TrimmedIsStripped(s: string)
    requires Trimmed(s)
    ensures s != "" && Strip(s) == s
  {
    StripUnchanged(s);
  }

  /** A join of trimmed parts is trimmed. */
  lemma JoinTrimmed(sep: string, parts: seq<string>)
    requires |parts| > 0 && forall i :: 0 <= i < |parts| ==> Trimmed(parts[i])
    ensures Trimmed(Join(sep, parts))
  {
    JoinEnds(sep, parts);
  }

  predicate AllTrimmed(parts: seq<string>)
  {
    forall i :: 0 <= i < |parts| ==> Trimmed(parts[i])
  }

  /** The loop only ever holds trimmed lines and trimmed entries. */
  lemma {:induction false} ScanTrimmed(lines: seq<string>)
    ensures AllTrimmed(Scan(lines).entries) && AllTrimmed(Scan(lines).current)
    decreases |lines|
  {
    if lines != [] {
      var front := lines[..|lines| - 1];
      ScanTrimmed(front);
      var p := Scan(front);
      if Strip(lines[|lines| - 1]) == "" && p.current != [] {
        JoinTrimmed(" ", p.current);
      }
    }
  }

  /** An entry is open exactly when the last line is not blank. */
  lemma ScanOpen(lines: seq<string>)
    ensures Scan(lines).current != [] <==> lines != [] && Strip(lines[|lines| - 1]) != ""
  {
  }

  /** Finished entries plus the open one count the runs of non-blank
      lines. */
  lemma {:induction false} ScanCount(lines: seq<string>)
    ensures |Scan(lines).entries| + (if Scan(lines).current != [] then 1 else 0) == RunStarts(lines)
    decreases |lines|
  {
    if lines != [] {
      var front := lines[..|lines| - 1];
      ScanCount(front);
      ScanOpen(front);
    }
  }

  /** No entry at all exactly when no line is non-blank. */
  lemma {:induction false} ScanEmpty(lines: seq<string>)
    ensures Flush(Scan(lines)) == [] <==> NonBlank(lines) == []
    decreases |lines|
  {
    if lines != [] {
      ScanEmpty(lines[..|lines| - 1]);
    }
  }

  /** Every entry is non-empty and has no surrounding whitespace, and there
      is one entry per maximal run of non-blank lines. */
  lemma EntriesShape(lines: seq<string>)
    ensures forall i :: 0 <= i < |EntriesOf(lines)| ==> EntriesOf(lines)[i] != "" && Strip(EntriesOf(lines)[i]) == EntriesOf(lines)[i]
    ensures |EntriesOf(lines)| == RunStarts(lines)
    ensures EntriesOf(lines) == [] <==> NonBlank(lines) == []
  {
    ScanTrimmed(lines);
    ScanCount(lines);
    ScanEmpty(lines);
    var p := Scan(lines);
    if p.current != [] {
      JoinTrimmed(" ", p.current);
    }
    var entries := EntriesOf(lines);
    assert AllTrimmed(entries);
    forall i | 0 <= i < |entries|
      ensures entries[i] != "" && Strip(entries[i]) == entries[i]
    {
      TrimmedIsStripped(entries[i]);
    }
  }

  /** Blank lines only separate: the entries, joined by spaces, are the
      stripped non-blank lines joined by spaces. */
  lemma {:induction false} EntriesKeepText(lines: seq<string>)
    ensures Join(" ", EntriesOf(lines)) == Join(" ", NonBlank(lines))
    decreases |lines|
  {
    if lines != [] {
      var front := lines[..|lines| - 1];
      EntriesKeepText(front);
      ScanEmpty(front);
      var p := Scan(front);
      var s := Strip(lines[|lines| - 1]);
      assert Scan(lines) == Step(p, lines[|lines| - 1]);
      if s == "" {
        assert NonBlank(lines) == NonBlank(front) + [] == NonBlank(front);
        assert EntriesOf(lines) == Flush(p);
      } else {
        assert NonBlank(lines) == NonBlank(front) + [s];
        KeepTextStep(p, s, NonBlank(front));
      }
    }
  }

  /** One non-blank line extends the joined text by a space and the line. */
  lemma KeepTextStep(p: Pending, s: string, before: seq<string>)
    requires Join(" ", Flush(p)) == Join(" ", before)
    requires Flush(p) == [] <==> before == []
    ensures Join(" ", Flush(Pending(p.entries, p.current + [s]))) == Join(" ", before + [s])
  {
    var after := Flush(Pending(p.entries, p.current + [s]));
    if p.current != [] {
      JoinSnoc(" ", p.current, s);
      assert after == p.entries + [Join(" ", p.current) + " " + s];
      JoinExtendLast(" ", p.entries, Join(" ", p.current), s);
      JoinSnoc(" ", before, s);
    } else if p.entries == [] {
      assert after == [s];
      assert before + [s] == [s];
    } else {
      assert after == p.entries + [s];
      JoinSnoc(" ", p.entries, s);
      JoinSnoc(" ", before, s);
    }
  }

  /** The error for entry k: its own error, prefixed with its position
      counted from 1. */
  function EntryError(k: nat, f: Failure): Failure
  {
    StructuredCommandError("Entry " + NatToString(k + 1) + ": " + f.message)
  }

  /** The entries from position i on, each parsed by `parse` in order
      until the first failure. */
  function ParseFrom(entries: seq<string>, parse: string -> Result<BucketedEvent>, i: nat): Result<seq<BucketedEvent>>
    requires i <= |entries|
    decreases |entries| - i
  {
    if i == |entries| then Ok([])
    else
      match parse(entries[i])
      case Fail(f) => Fail(EntryError(i, f))
      case Ok(e) => Prepend([e], ParseFrom(entries, parse, i + 1))
  }

  /** Records parsed so far, in front of the outcome for the rest. */
  function Prepend(done: seq<BucketedEvent>, rest: Result<seq<BucketedEvent>>): Result<seq<BucketedEvent>>
  {
    if rest.Ok? then Ok(done + rest.value) else rest
  }

  /** The parser of one entry. */
  function CommandParser(extract: (string, string) -> Option<string>): string -> Result<BucketedEvent>
  {
    entry => ParseStructuredCommand(entry, extract)
  }

  /** `parse_structured_block(text)`: each entry parsed in turn; the first
      failure is reported with the entry's position. */
  method ParseStructuredBlock(text: string, extract: (string, string) -> Option<string>)
    returns (r: Result<seq<BucketedEvent>>)
    ensures r == ParseFrom(EntriesOf(SplitLines(text)), CommandParser(extract), 0)
  {
    var entries := SplitEntries(text);
    if entries == [] {
      return Ok([]);
    }
    r := ParseEntries(entries, CommandParser(extract));
  }

  /** The loop of `parse_structured_block`, over any parser of one entry. */
  method ParseEntries(entries: seq<string>, parse: string -> Result<BucketedEvent>)
    returns (r: Result<seq<BucketedEvent>>)
    ensures r == ParseFrom(entries, parse, 0)
  {
    var events: seq<BucketedEvent> := [];
    ghost var all := ParseFrom(entries, parse, 0);
    assert all.Ok? ==> [] + all.value == all.value;
    for idx := 0 to |entries|
      invariant ParseFrom(entries, parse, 0) == Prepend(events, ParseFrom(entries, parse, idx))
    {
      var parsed := parse(entries[idx]);
      if parsed.Fail? {
        return Fail(EntryError(idx, parsed.failure));
      }
      ghost var rest := ParseFrom(entries, parse, idx + 1);
      assert rest.Ok? ==> events + ([parsed.value] + rest.value) == (events + [parsed.value]) + rest.value;
      events := events + [parsed.value];
    }
    assert events == events + [];
    r := Ok(events);
  }

  /** When the block parses, there is one record per entry, each the
      record its entry parses to. */
  lemma {:induction false} ParseFromOk(entries: seq<string>, parse: string -> Result<BucketedEvent>, i: nat)
    requires i <= |entries| && ParseFrom(entries, parse, i).Ok?
    ensures |ParseFrom(entries, parse, i).value| == |entries| - i
    ensures forall j :: i <= j < |entries| ==> parse(entries[j]) == Ok(ParseFrom(entries, parse, i).value[j - i])
    decreases |entries| - i
  {
    if i < |entries| {
      ParseFromOk(entries, parse, i + 1);
    }
  }

  /** Entry k is the first entry from position i on that does not parse. */
  predicate FirstFailure(entries: seq<string>, parse: string -> Result<BucketedEvent>, i: nat, k: int)
  {
    i <= k < |entries| && parse(entries[k]).Fail? && forall j :: i <= j < k ==> parse(entries[j]).Ok?
  }

  /** When the block fails, the error is that of the first entry that does
      not parse, prefixed with its position counted from 1. */
  lemma {:induction false} ParseFromFail(entries: seq<string>, parse: string -> Result<BucketedEvent>, i: nat)
    requires i <= |entries| && ParseFrom(entries, parse, i).Fail?
    ensures exists k :: (FirstFailure(entries, parse, i, k) &&
      ParseFrom(entries, parse, i).failure == EntryError(k, parse(entries[k]).failure))
    decreases |entries| - i
  {
    if parse(entries[i]).Fail? {
      assert FirstFailure(entries, parse, i, i);
    } else {
      ParseFromFail(entries, parse, i + 1);
      var k :| FirstFailure(entries, parse, i + 1, k) &&
        ParseFrom(entries, parse, i + 1).failure == EntryError(k, parse(entries[k]).failure);
      assert FirstFailure(entries, parse, i, k);
    }
  }

  /** Every entry that parses comes before the first that does not: the
      block succeeds exactly when every entry does. */
  lemma {:induction false} ParseFromOkIffAll(entries: seq<string>, parse: string -> Result<BucketedEvent>, i: nat)
    requires i <= |entries|
    ensures ParseFrom(entries, parse, i).Ok? <==> forall j :: i <= j < |entries| ==> parse(entries[j]).Ok?
    decreases |entries| - i
  {
    if i < |entries| {
      ParseFromOkIffAll(entries, parse, i + 1);
    }
  }

  /** Text without a non-blank line holds no entries, so the block parses
      to no records. */
  lemma BlankBlockIsEmpty(text: string)
    requires NonBlank(SplitLines(text)) == []
    ensures EntriesOf(SplitLines(text)) == []
  {
    EntriesShape(SplitLines(text));
  }

  // Printing a block and splitting it again

  /** The lines of commands separated by blank lines. */
  function Interleave(commands: seq<string>): seq<string>
    decreases |commands|
  {
    if |commands| <= 1 then commands else [commands[0], ""] + Interleave(commands[1..])
  }

  lemma {:induction false} InterleaveSnoc(commands: seq<string>, c: string)
    requires |commands| > 0
    ensures Interleave(commands + [c]) == Interleave(commands) + ["", c]
    decreases |commands|
  {
    if |commands| > 1 {
      assert (commands + [c])[1..] == commands[1..] + [c];
      InterleaveSnoc(commands[1..], c);
    }
  }

  /** Joining single-line commands with a blank line between them gives
      exactly those lines back, with an empty line between. */
  lemma {:induction false} SplitJoined(commands: seq<string>)
    requires forall i :: 0 <= i < |commands| ==> commands[i] != "" && NoLineBreak(commands[i])
    ensures SplitLines(Join("\n\n", commands)) == Interleave(commands)
    decreases |commands|
  {
    if |commands| == 1 {
      SplitLinesSingle(commands[0]);
    } else if |commands| > 1 {
      var rest := Join("\n\n", commands[1..]);
      SplitLinesBlank(commands[0], rest);
      SplitJoined(commands[1..]);
    }
  }

  lemma ScanSnoc(lines: seq<string>, line: string)
    ensures Scan(lines + [line]) == Step(Scan(lines), line)
  {
    assert (lines + [line])[..|lines|] == lines;
  }

  /** Scanning interleaved trimmed commands leaves the last one open and
      the others finished. */
  lemma {:induction false} ScanInterleaved(front: seq<string>, c: string)
    requires AllTrimmed(front) && Trimmed(c)
    ensures Scan(Interleave(front + [c])) == Pending(front, [c])
    decreases |front|
  {
    TrimmedIsStripped(c);
    if |front| == 0 {
      assert Interleave(front + [c]) == [] + [c];
      ScanSnoc([], c);
    } else {
      var init, last := front[..|front| - 1], front[|front| - 1];
      Seqs.FrontLast(front);
      ScanInterleaved(init, last);
      InterleaveSnoc(front, c);
      var before := Interleave(front);
      assert Interleave(front + [c]) == (before + [""]) + [c];
      ScanSnoc(before, "");
      ScanSnoc(before + [""], c);
      assert Strip("") == "";
      assert Join(" ", [last]) == last;
      assert Scan(before + [""]) == Pending(front, []);
    }
  }

  /** A printed datetime is one line. */
  lemma DateTimeOneLine(t: Timestamp)
    ensures NoLineBreak(FormatDateTime(t))
  {
    var y := IntToString(t.date.year);
    assert NoLineBreak(y) by {
      if t.date.year < 0 {
        NoLineBreakConcat("-", NatToString(-t.date.year));
      }
    }
    var mo, d := ZeroPad(t.date.month, 2), ZeroPad(t.date.day, 2);
    var h, mi, se := ZeroPad(t.hour, 2), ZeroPad(t.minute, 2), ZeroPad(t.second, 2);
    assert NoLineBreak(mo) && NoLineBreak(d) && NoLineBreak(h) && NoLineBreak(mi) && NoLineBreak(se);
    NoLineBreakConcat(y, "-");
    NoLineBreakConcat(y + "-", mo);
    NoLineBreakConcat(y + "-" + mo, "-");
    NoLineBreakConcat(y + "-" + mo + "-", d);
    NoLineBreakConcat(h, ":");
    NoLineBreakConcat(h + ":", mi);
    NoLineBreakConcat(h + ":" + mi, ":");
    NoLineBreakConcat(h + ":" + mi + ":", se);
    NoLineBreakConcat(FormatDate(t.date), " ");
    NoLineBreakConcat(FormatDate(t.date) + " ", FormatClock(t));
  }

  /** A filled template starts and ends with a letter. */
  lemma TemplateIsTrimmed(bucket: string, x: string, y: string, z: string)
    ensures Trimmed(Template(bucket, x, y, z))
  {
    var c7 := "bucket(" + bucket + ") \U{2014} when x(" + x + ") happens, I want y(" + y + ") outcome, to have z(" + z;
    var c := c7 + ") impact";
    assert c == Template(bucket, x, y, z);
    assert ("bucket(" + bucket)[0] == 'b';
    assert ("bucket(" + bucket + ") \U{2014} when x(")[0] == 'b';
    assert ("bucket(" + bucket + ") \U{2014} when x(" + x)[0] == 'b';
    assert ("bucket(" + bucket + ") \U{2014} when x(" + x + ") happens, I want y(")[0] == 'b';
    assert ("bucket(" + bucket + ") \U{2014} when x(" + x + ") happens, I want y(" + y)[0] == 'b';
    assert ("bucket(" + bucket + ") \U{2014} when x(" + x + ") happens, I want y(" + y + ") outcome, to have z(")[0] == 'b';
    assert c7[0] == 'b';
    assert c[0] == 'b' && c[|c| - 1] == 't';
  }

  /** A filled template holds no line boundary when its fields hold none. */
  lemma TemplateIsOneLine(bucket: string, x: string, y: string, z: string)
    requires NoLineBreak(bucket) && NoLineBreak(x) && NoLineBreak(y) && NoLineBreak(z)
    ensures NoLineBreak(Template(bucket, x, y, z))
  {
    var p1 := "bucket(";
    var p2 := ") \U{2014} when x(";
    var p3 := ") happens, I want y(";
    var p4 := ") outcome, to have z(";
    var p5 := ") impact";
    TemplatePiecesOneLine();
    NoLineBreakConcat(p1, bucket);
    NoLineBreakConcat(p1 + bucket, p2);
    NoLineBreakConcat(p1 + bucket + p2, x);
    NoLineBreakConcat(p1 + bucket + p2 + x, p3);
    NoLineBreakConcat(p1 + bucket + p2 + x + p3, y);
    NoLineBreakConcat(p1 + bucket + p2 + x + p3 + y, p4);
    NoLineBreakConcat(p1 + bucket + p2 + x + p3 + y + p4, z);
    NoLineBreakConcat(p1 + bucket + p2 + x + p3 + y + p4 + z, p5);
  }

  /** The fixed text of the template holds no line boundary. */
  lemma TemplatePiecesOneLine()
    ensures NoLineBreak("bucket(") && NoLineBreak(") \U{2014} when x(") && NoLineBreak(") happens, I want y(")
    ensures NoLineBreak(") outcome, to have z(") && NoLineBreak(") impact")
  {
  }

  /** A command holds no line boundary when its fields hold none. */
  lemma CommandIsOneLine(e: BucketedEvent)
    requires NoLineBreak(e.bucket) && NoLineBreak(e.event.event) && NoLineBreak(e.event.details)
    ensures NoLineBreak(FormatEventAsCommand(e)) && Trimmed(FormatEventAsCommand(e))
  {
    DateTimeOneLine(e.event.datetime);
    TemplateIsOneLine(e.bucket, FormatDateTime(e.event.datetime), e.event.event, e.event.details);
    TemplateIsTrimmed(e.bucket, FormatDateTime(e.event.datetime), e.event.event, e.event.details);
  }

  /** Printing records as a block and splitting the block into entries
      gives back one entry per record: its command. */
  lemma SplitOfFormattedBlock(events: seq<BucketedEvent>)
    requires forall i :: 0 <= i < |events| ==>
      NoLineBreak(events[i].bucket) && NoLineBreak(events[i].event.event) && NoLineBreak(events[i].event.details)
    ensures EntriesOf(SplitLines(FormatEventsBlock(events))) == FormatCommands(events)
  {
    var commands := FormatCommands(events);
    forall i | 0 <= i < |commands|
      ensures Trimmed(commands[i]) && NoLineBreak(commands[i])
    {
      CommandIsOneLine(events[i]);
    }
    SplitOfJoinedCommands(commands);
  }

  /** Single-line trimmed texts joined by blank lines split back into
      exactly those texts. */
  lemma SplitOfJoinedCommands(commands: seq<string>)
    requires forall i :: 0 <= i < |commands| ==> Trimmed(commands[i]) && NoLineBreak(commands[i])
    ensures EntriesOf(SplitLines(Join("\n\n", commands))) == commands
  {
    SplitJoined(commands);
    if |commands| > 0 {
      var front, c := commands[..|commands| - 1], commands[|commands| - 1];
      Seqs.FrontLast(commands);
      ScanInterleaved(front, c);
      assert Join(" ", [c]) == c;
    }
  }
}
