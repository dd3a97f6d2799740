/**
  `parse_article`: reading the event window of one piece of content from its
  metadata, and recording it on the content object under both attribute
  spellings (`event-start`/`event-end` and `event_start`/`event_end`).
 */
module Resolver {
  import opened Results
  import opened DateTimes
  import opened Durations

  /** Metadata as Pelican hands it over: field name to the text written in the article. */
  type Metadata = map<string, string>

  /**
    Why `parse_article` raises. The ValueErrors of an unparsable timestamp, of a
    bad duration chunk and of a missing end all look the title up first when
    building their log message, so without a `title` they become a KeyError
    (MissingTitle) instead. The OverflowErrors of `timedelta` (a cause of
    BadDuration) and of `start + duration` (EndOutOfRange) need no title.
   */
  datatype ResolveError =
    | BadTimestamp(field: string)
    | BadDuration(cause: DurationError)
    | EndOutOfRange
    | MissingEnd
    | MissingTitle

  /** What the metadata makes of the content: no event at all, or an event window. */
  datatype Resolution = NotAnEvent | Window(start: DateTime, end: DateTime)

  /** `parse_tstamp(metadata, field)`. */
  function Timestamp(md: Metadata, field: string): (r: Result<DateTime, ResolveError>)
    requires field in md
    ensures r.Success? <==> ParseTimestamp(md[field]).Some?
    ensures r.Success? ==> Valid(r.value) && r.value.second == 0 && r.value == ParseTimestamp(md[field]).value
    ensures r.Failure? ==> r.error == (if "title" in md then BadTimestamp(field) else MissingTitle)
  {
    match ParseTimestamp(md[field])
    case Some(t) => Success(t)
    case None => Failure(if "title" in md then BadTimestamp(field) else MissingTitle)
  }

  /** `parse_timedelta(metadata)` in seconds. */
  function Duration(md: Metadata): (r: Result<int, ResolveError>)
    requires "event-duration" in md
    ensures r.Success? <==> DurationSeconds(md["event-duration"]).Success?
    ensures r.Success? ==> r.value == DurationSeconds(md["event-duration"]).value
    ensures r.Failure? ==>
              var e := DurationSeconds(md["event-duration"]).error;
              r.error == if e.Overflow? || "title" in md then BadDuration(e) else MissingTitle
  {
    match DurationSeconds(md["event-duration"])
    case Success(n) => Success(n)
    case Failure(Overflow) => Failure(BadDuration(Overflow))
    case Failure(e) => Failure(if "title" in md then BadDuration(e) else MissingTitle)
  }

  /** `parse_article` on the metadata alone: what it records, or why it raises. */
  function Resolve(md: Metadata): (r: Result<Resolution, ResolveError>)
    ensures r.Success? && r.value.Window? ==> Valid(r.value.start) && Valid(r.value.end)
  {
    if "event-start" !in md then Success(NotAnEvent)
    else
      var start :- Timestamp(md, "event-start");
      if "event-end" in md then
        var end :- Timestamp(md, "event-end");
        Success(Window(start, end))
      else if "event-duration" in md then
        var delta :- Duration(md);
        match AddSeconds(start, delta)
        case None => Failure(EndOutOfRange)
        case Some(end) => Success(Window(start, end))
      else Failure(if "title" in md then MissingEnd else MissingTitle)
  }

  /**
    A piece of generated content. The metadata never changes; the four event
    attributes are absent (None) until `parse_article` sets them.
   */
  class Content {
    const metadata: Metadata
    var dashedStart: Option<DateTime>
    var dashedEnd: Option<DateTime>
    var eventStart: Option<DateTime>
    var eventEnd: Option<DateTime>

    /** Both spellings agree, and a start is always recorded with its end. */
    predicate Valid()
      reads this
    {
      && dashedStart == eventStart
      && dashedEnd == eventEnd
      && eventStart.Some? == eventEnd.Some?
    }

    constructor(metadata: Metadata)
      ensures this.metadata == metadata
      ensures dashedStart.None? && dashedEnd.None? && eventStart.None? && eventEnd.None?
      ensures Valid()
    {
      this.metadata := metadata;
      dashedStart, dashedEnd, eventStart, eventEnd := None, None, None, None;
    }

    /**
      `parse_article(content)`. The attributes are set only after both ends are
      known, so a content object that raises keeps its attributes as they were.
     */
    method ParseArticle() returns (r: Result<Resolution, ResolveError>)
      modifies this
      ensures r == Resolve(metadata)
      ensures r.Success? && r.value.Window? ==>
                && dashedStart == Some(r.value.start) && eventStart == Some(r.value.start)
                && dashedEnd == Some(r.value.end) && eventEnd == Some(r.value.end)
      ensures !(r.Success? && r.value.Window?) ==>
                && dashedStart == old(dashedStart) && dashedEnd == old(dashedEnd)
                && eventStart == old(eventStart) && eventEnd == old(eventEnd)
      ensures old(Valid()) ==> Valid()
    {
      if "event-start" !in metadata {
        return Success(NotAnEvent);
      }
      var start := Timestamp(metadata, "event-start");
      if start.Failure? {
        return Failure(start.error);
      }
      var end: DateTime;
      if "event-end" in metadata {
        var parsed := Timestamp(metadata, "event-end");
        if parsed.Failure? {
          return Failure(parsed.error);
        }
        end := parsed.value;
      } else if "event-duration" in metadata {
        var delta := ParseDuration(metadata["event-duration"]);
        if delta.Failure? {
          return Failure(if delta.error.Overflow? || "title" in metadata then BadDuration(delta.error) else MissingTitle);
        }
        var shifted := AddSeconds(start.value, delta.value);
        if shifted.None? {
          return Failure(EndOutOfRange);
        }
        end := shifted.value;
      } else {
        return Failure(if "title" in metadata then MissingEnd else MissingTitle);
      }
      dashedStart := Some(start.value);
      dashedEnd := Some(end);
      eventStart := Some(start.value);
      eventEnd := Some(end);
      r := Success(Window(start.value, end));
    }
  }

  // ---------------------------------------------------------------------------
  // What the resolution promises
  // ---------------------------------------------------------------------------

  /** Content without an `event-start` is no event, whatever else its metadata says. */
  lemma NoStartNoEvent(md: Metadata)
    requires "event-start" !in md
    ensures Resolve(md) == Success(NotAnEvent)
  {
  }

  /** Content with an `event-start` is an event or an error, never silently skipped. */
  lemma StartMeansEventOrError(md: Metadata)
    requires "event-start" in md
    ensures Resolve(md).Success? ==> Resolve(md).value.Window?
    ensures Resolve(md).Success? ==> Some(Resolve(md).value.start) == ParseTimestamp(md["event-start"])
  {
  }

  /** With an `event-end`, the window runs from the parsed start to the parsed end, and fails when either does not parse. */
  lemma EndFromEventEnd(md: Metadata)
    requires "event-start" in md && "event-end" in md
    ensures Resolve(md).Success? <==> ParseTimestamp(md["event-start"]).Some? && ParseTimestamp(md["event-end"]).Some?
    ensures Resolve(md).Success? ==>
              Resolve(md).value == Window(ParseTimestamp(md["event-start"]).value, ParseTimestamp(md["event-end"]).value)
  {
  }

  /** A duration that does not parse, or overflows, fails the content, naming the cause. */
  lemma BadDurationFails(md: Metadata)
    requires "event-start" in md && "event-end" !in md && "event-duration" in md
    requires ParseTimestamp(md["event-start"]).Some?
    ensures DurationSeconds(md["event-duration"]).Failure? ==>
              var e := DurationSeconds(md["event-duration"]).error;
              Resolve(md) == Failure(if e.Overflow? || "title" in md then BadDuration(e) else MissingTitle)
  {
  }

  /** An explicit end wins: the duration is then never read, valid or not. */
  lemma EndBeatsDuration(md: Metadata)
    requires "event-start" in md && "event-end" in md
    ensures Resolve(md) == Resolve(md - {"event-duration"})
  {
    var md' := md - {"event-duration"};
    assert md'["event-start"] == md["event-start"] && md'["event-end"] == md["event-end"];
    assert ("title" in md') == ("title" in md);
  }

  /** With a duration and no end, the end lies exactly the given number of seconds after the start. */
  lemma DurationGivesEnd(md: Metadata)
    requires "event-start" in md && "event-end" !in md && "event-duration" in md
    ensures Resolve(md).Success? ==>
              && DurationSeconds(md["event-duration"]).Success?
              && ToSeconds(Resolve(md).value.end) == ToSeconds(Resolve(md).value.start) + DurationSeconds(md["event-duration"]).value
  {
  }

  /**
    With a duration and no end, both fields parsing decides the outcome by the
    range of `dtstart + dtdelta`: the window, or the OverflowError.
   */
  lemma DurationWindow(md: Metadata)
    requires "event-start" in md && "event-end" !in md && "event-duration" in md
    requires ParseTimestamp(md["event-start"]).Some? && DurationSeconds(md["event-duration"]).Success?
    ensures var s := ParseTimestamp(md["event-start"]).value;
            var d := DurationSeconds(md["event-duration"]).value;
            Resolve(md) == if 0 <= ToSeconds(s) + d < EndOfTime() then Success(Window(s, AddSeconds(s, d).value))
                           else Failure(EndOutOfRange)
  {
  }

  /** Ten o'clock plus `2h` ends at noon. */
  lemma TwoHoursFromTen()
    ensures Resolve(map["event-start" := "2024-01-01 10:00", "event-duration" := "2h"])
            == Success(Window(DateTime(2024, 1, 1, 10, 0, 0), DateTime(2024, 1, 1, 12, 0, 0)))
  {
    var md := map["event-start" := "2024-01-01 10:00", "event-duration" := "2h"];
    assert md["event-start"] == "2024-01-01 10:00" && md["event-duration"] == "2h";
    AcceptsDocstringFormat();
    TwoHours();
    TenPlusTwoHours();
    DurationWindow(md);
  }

  lemma TenPlusTwoHours()
    ensures AddSeconds(DateTime(2024, 1, 1, 10, 0, 0), 7200) == Some(DateTime(2024, 1, 1, 12, 0, 0))
  {
    var start, noon := DateTime(2024, 1, 1, 10, 0, 0), DateTime(2024, 1, 1, 12, 0, 0);
    SameDayOffset(start, noon);
    ToSecondsInjective(AddSeconds(start, 7200).value, noon);
  }

  /** Neither an end nor a duration: the ValueError, or the KeyError when the title is missing too. */
  lemma NeitherEndNorDuration(md: Metadata)
    requires "event-start" in md && "event-end" !in md && "event-duration" !in md
    requires ParseTimestamp(md["event-start"]).Some?
    ensures Resolve(md) == Failure(if "title" in md then MissingEnd else MissingTitle)
  {
  }

  /** The window is not checked for order: a negative duration ends the event before it starts. */
  lemma EndMayPrecedeStart(md: Metadata)
    requires "event-start" in md && "event-end" !in md && "event-duration" in md
    ensures Resolve(md).Success? && DurationSeconds(md["event-duration"]).Success? && DurationSeconds(md["event-duration"]).value < 0
            ==> Before(Resolve(md).value.end, Resolve(md).value.start)
  {
    if Resolve(md).Success? {
      var w := Resolve(md).value;
      BeforeIsEarlier(w.end, w.start);
    }
  }
}
