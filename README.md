# Pelican events plugin, modelled in Dafny

The `events` plugin for the Pelican static site generator turns articles into
calendar events. When `parse_article` sees an article, it reads the event
window from the article's metadata. The start is `event-start`, and the end is
either `event-end` or `event-start` plus `event-duration` (written like
`2h 30m`). The window is recorded on the content object under two spellings.
Once the articles are generated, `generate_events`:

- collects one `Event` per content object with a window, with no duplicates;
- with the `i18n_subsites` plugin on, files the events by language;
- writes an iCalendar file when `ics_fname` is set;
- publishes `events_list` for the templates, latest event first.

The model has one Dafny module per concern:

| file | module | what it holds |
|---|---|---|
| `results.dfy` | `Results` | `Option` and `Result`, for the error paths |
| `chars.dfy` | `Chars` | ASCII digits, and Python's whitespace characters |
| `datetimes.dfy` | `DateTimes` | naive `datetime`: validity, ordering, conversion to seconds and back, `datetime + timedelta` with its range check, and `datetime.strptime(…, '%Y-%m-%d %H:%M')` following CPython's regular expressions for those directives |
| `text.dfy` | `Text` | `str.split()` and `int(str)` |
| `durations.dfy` | `Durations` | `TIME_MULTIPLIERS` and `parse_timedelta`; its loop is a method proved against a fold |
| `resolver.dfy` | `Resolver` | `parse_tstamp`, and `parse_article`, both as a function on the metadata and as a method of the `Content` class that sets its four attributes |
| `store.dfy` | `Store` | the `Event` tuple and the two module-level collections as the fields of the `EventStore` class; its methods are `initialize_events`, the collecting loop of `generate_events`, `generate_localized_events` and the exporter's `defaultdict` read |
| `listing.dfy` | `Listing` | `generate_events_list`: the stable descending sort and the per-language dictionary |
| `calendar.dfy` | `Calendar` | what `generate_ical_file` puts in the calendar, and which KeyError stops it |
| `plugin.dfy` | `Plugin` | `generate_events` as one pass over the store |

A few behaviours of the code go beyond what its docstrings say (that of
`parse_tstamp` gives the format as "YYYY-MM-DD HH:MM", events/events.py:41).
The model follows the code:

- `strptime` accepts more than a zero-padded `YYYY-MM-DD HH:MM`. It takes one-digit fields (`2024-1-5 9:7`), a space before a one-digit day, and any run of whitespace for the blank.
- Every error message of `parse_tstamp`, of the two handlers in `parse_timedelta` and of the missing-end branch looks up `title`. Without a title, each of these becomes a KeyError (`MissingTitle`). The `OverflowError`s need no title.
- `generate_localized_events` also looks up `title` when it logs an event without `lang`. Without a title it raises in the middle of the loop, and the events it filed so far stay filed.
- The exporter's `localized_events[DEFAULT_LANG]` is a `defaultdict` read. When the dictionary is non-empty and lacks the default language, the read adds an empty list, and that list then shows up in `events_list`.

## Model

| member | source | states |
|---|---|---|
| DateTimes.ParseTimestamp | events/events.py:46 | a parsed timestamp is a valid date-time (year 1..9999, real day of the month) with zero seconds |
| DateTimes.ParseFormatted | events/events.py:46 | every valid minute-precision date-time, written zero-padded, parses back to itself |
| DateTimes.AcceptsDocstringFormat | events/events.py:41-46 | the documented zero-padded `2024-01-01 10:00` is accepted |
| DateTimes.AcceptsUnpadded | events/events.py:46 | one-digit month, day, hour and minute are accepted |
| DateTimes.AcceptsSpaceRun | events/events.py:46 | a space-padded day and a run of mixed whitespace for the blank are accepted |
| DateTimes.AcceptsLeapDay | events/events.py:46 | 29 February of a leap year is accepted |
| DateTimes.RejectsCommonYearLeapDay | events/events.py:46 | 29 February of a common year is refused |
| DateTimes.RejectsCenturyLeapDay | events/events.py:46 | 29 February of a century year not divisible by 400 is refused |
| DateTimes.RejectsApril31 | events/events.py:46 | a day past the end of its month is refused |
| DateTimes.RejectsYearZero | events/events.py:46 | year 0 is refused |
| DateTimes.RejectsSeconds | events/events.py:46 | trailing seconds are refused: the whole text must match |
| DateTimes.RejectsHour24 | events/events.py:46 | hour 24 is refused |
| DateTimes.RejectsMonth13 | events/events.py:46 | month 13 is refused |
| DateTimes.RejectsIsoSeparator | events/events.py:46 | a `T` in place of the blank is refused |
| DateTimes.RejectsLeadingSpace | events/events.py:46 | leading whitespace is refused |
| DateTimes.ToSeconds | events/events.py:99 | a valid date-time is a second count in [0, the end of year 9999) |
| DateTimes.FromSeconds | events/events.py:99 | every second count in range is the count of exactly one valid date-time |
| DateTimes.FromToSeconds | events/events.py:99 | converting to seconds and back is the identity |
| DateTimes.ToSecondsInjective | events/events.py:99 | distinct valid date-times have distinct second counts |
| DateTimes.AddSeconds | events/events.py:99 | `start + delta` succeeds exactly when the sum stays within years 1..9999, and it is then exactly `delta` seconds later |
| DateTimes.BeforeIsStrictTotalOrder | events/events.py:194-195 | date-time comparison is irreflexive, asymmetric, transitive and total |
| DateTimes.BeforeIsEarlier | events/events.py:194-195 | field-by-field date-time order is the order of the second counts |
| Text.Split | events/events.py:60 | `str.split()` yields non-empty chunks without whitespace |
| Text.SplitKeepsText | events/events.py:60 | the chunks, glued together, are the text with its whitespace removed |
| Text.SplitJoin | events/events.py:60 | splitting chunks joined by single spaces gives the chunks back |
| Text.ParseInt | events/events.py:65 | `int()` succeeds exactly on an optional sign followed by digits with single underscores between them |
| Text.ParseFormatInt | events/events.py:65 | every integer, written in decimal, parses back to itself |
| Text.ParsesSignAndUnderscore | events/events.py:65 | a sign and an underscore between digits are accepted (`-1_0` is -10) |
| Text.RejectsMisplacedUnderscores | events/events.py:65 | a doubled, leading or trailing underscore, a bare sign and the empty text are refused |
| Durations.UnitOf | events/events.py:27-33 | a known suffix names the unit whose letter it is |
| Durations.UnitOfLetter | events/events.py:27-33 | exactly `w`, `d`, `h`, `m`, `s` are known, each naming its unit |
| Durations.ParseChunk | events/events.py:63-75 | a chunk parses exactly when its last character is a unit letter and `int()` accepts the rest, giving that unit and value; an unknown suffix is reported before a bad number, and both errors name the chunk |
| Durations.ParseChunkFormatted | events/events.py:64-66 | every integer followed by a unit letter parses to that unit and value |
| Durations.FillArgsSucceeds | events/events.py:62-75 | the loop completes exactly when every chunk parses |
| Durations.FillArgsFirstError | events/events.py:62-75 | the first bad chunk decides the error, whatever follows it |
| Durations.FillArgsAppend | events/events.py:66 | a later chunk sets its unit on top of what came before: the last value wins |
| Durations.FillArgsUnnamed | events/events.py:61-66 | a unit no chunk names keeps its previous value |
| Durations.FillArgsKeys | events/events.py:61-66 | on success, a unit is set exactly when it was set before or some chunk names it |
| Durations.FillArgsConcat | events/events.py:62-66 | the loop over two runs of chunks is the loop over the second started from the result of the first |
| Durations.LastOccurrenceWins | events/events.py:66 | when no later chunk names a unit, that unit holds the value of its last chunk |
| Durations.FillArgsOutcome | events/events.py:60-75 | the loop never drops a unit, and the error it stops with names one of the chunks |
| Durations.FillArgsSwap | events/events.py:62-66 | neighbouring chunks for different units may be swapped without changing the result |
| Durations.RepeatedUnitOrderMatters | events/events.py:66 | for two chunks of the same unit with different values, the later one wins, so their order changes the result |
| Durations.Timedelta | events/events.py:78 | `timedelta(**tdargs)` is the weighted sum of the counts, refused exactly when its floor day count exceeds 999999999 in magnitude |
| Durations.DurationSeconds | events/events.py:53-78 | a duration is within the range of `timedelta`, and its error is the overflow or names one of the chunks of the field |
| Durations.ParseDuration | events/events.py:53-78 | the chunk loop computes the duration defined by the fold, with the same error |
| Durations.TwoHoursThirtyMinutes | events/events.py:54-55 | the docstring's `2h 30m` is 9000 seconds |
| Durations.TwoHours | events/events.py:60-78 | a single chunk `2h` is 7200 seconds |
| Durations.LastValueWins | events/events.py:66 | `1h 2h` is two hours, not three |
| Durations.MissingNumber | events/events.py:65-75 | a bare `h` fails on its number, naming the chunk |
| Durations.FirstBadChunk | events/events.py:64-71 | an unknown suffix fails, naming the first such chunk |
| Resolver.Timestamp | events/events.py:40-50 | the field parses, or the error names the field, or is MissingTitle when the title is missing |
| Resolver.Duration | events/events.py:60-78 | the field's duration, or its error; a chunk error becomes MissingTitle when the title is missing, an overflow never does |
| Resolver.Resolve | events/events.py:81-110 | a recorded window has two valid date-times |
| Resolver.Content.ParseArticle | events/events.py:81-110 | the method returns the resolution of the metadata; on a window it sets both spellings of start and end, and otherwise changes nothing |
| Resolver.NoStartNoEvent | events/events.py:89-90 | without `event-start` the content is no event, whatever else it has |
| Resolver.StartMeansEventOrError | events/events.py:92 | with `event-start` the content is an event starting at the parsed start, or an error |
| Resolver.EndFromEventEnd | events/events.py:94-95 | with `event-end`, the content is an event exactly when both fields parse, and its window is the two parsed times |
| Resolver.EndBeatsDuration | events/events.py:94-99 | with `event-end`, the duration field is never read |
| Resolver.DurationGivesEnd | events/events.py:97-99 | a duration-based end lies exactly the parsed number of seconds after the start |
| Resolver.DurationWindow | events/events.py:97-99 | when both fields parse, the content is the window from the start to the start plus the duration if that stays in range, and otherwise fails with EndOutOfRange |
| Resolver.TwoHoursFromTen | events/events.py:97-99 | a start of `2024-01-01 10:00` with a duration of `2h` ends at noon the same day |
| Resolver.BadDurationFails | events/events.py:97-98 | a duration that does not parse or overflows fails the content with that error, or MissingTitle for a chunk error without a title |
| Resolver.NeitherEndNorDuration | events/events.py:101-105 | a start alone fails with MissingEnd, or MissingTitle without a title |
| Resolver.EndMayPrecedeStart | events/events.py:97-99 | a negative duration gives an end before the start: the window is not checked |
| Store.CandidateOf | events/events.py:114-116 | content contributes one event exactly when it carries a window, built from its window, metadata and itself; for valid content, exactly when `event_start` is set |
| Store.CandidatesMembers | events/events.py:113-116 | the content gives at most one event per object, and an event is offered exactly when some content object carries it |
| Store.EventStore.constructor | events/events.py:35-36 | the store starts with no events and no language lists |
| Store.EventStore.Initialize | events/events.py:201-208 | both collections are emptied |
| Store.EventStore.Collect | events/events.py:113-118 | the list becomes the old list plus each new candidate not yet in it, in order; the language lists are untouched; the store invariant is kept |
| Store.Collected | events/events.py:113-118 | collecting only appends, and at most one event per candidate |
| Store.CollectedMembers | events/events.py:113-118 | an event is listed afterwards exactly when it was listed before or is a candidate |
| Store.CollectedKeepsNoDuplicates | events/events.py:117 | the membership test keeps the list free of duplicates |
| Store.CollectedKeepsValid | events/events.py:113-118 | collecting keeps both parts of the store invariant |
| Store.CollectedKnown | events/events.py:117 | candidates that are all listed already change nothing |
| Store.CollectedTwice | events/events.py:113-118 | collecting the same candidates twice is the same as once |
| Store.Unlisted | events/events.py:183-187 | the localizing loop stops at the first event with neither `lang` nor `title`, and at no earlier one |
| Store.EventStore.Localize | events/events.py:176-187 | with `i18n_subsites`, the events up to the stop are appended to their language's list, and it reports failure exactly when there is a stop; otherwise nothing changes |
| Store.PartitionedLookup | events/events.py:183-185 | each language's list grows by exactly the events of that language, in their order |
| Store.PartitionedKeys | events/events.py:183-185 | a language has a list exactly when it had one or some event carries it |
| Store.Partitioned | events/events.py:183-185 | no language list is lost, and each only grows at its end |
| Store.PartitionedFiled | events/events.py:183-185 | every localized entry is one of the events, filed under its own language |
| Store.WithLangHasLang | events/events.py:184-187 | an event is in a language's share exactly when it carries that language; events without `lang` are in none |
| Store.EventStore.SelectForCalendar | events/events.py:146 | the calendar gets all events when there are no language lists, otherwise the default language's list, which is inserted empty when missing |
| Store.Selection | events/events.py:146 | the calendar gets all events without language lists; with them, only filed events of the default language |
| Store.SelectionOfPartitioned | events/events.py:146 | once localized, the calendar gets exactly the default language's previous list followed by the events carrying that language, in order |
| Store.AfterSelection | events/events.py:146 | the read adds at most the default language, with an empty list, and changes no existing list |
| Listing.KeyOrder | events/events.py:194-195 | the `(dtstart, dtend)` key order is a strict total order |
| Listing.InsertDescSorted | events/events.py:194-195 | inserting into a sorted list keeps it sorted and adds exactly the one event |
| Listing.InsertDescWithKey | events/events.py:194-195 | an inserted event goes in front of the events with its key |
| Listing.SortDesc | events/events.py:194-195 | the sorted list is non-increasing in the key and a permutation of its input |
| Listing.SortDescStable | events/events.py:194-195 | events with equal keys keep their relative order |
| Listing.SortDescOfSorted | events/events.py:194-195 | sorting a sorted list changes nothing |
| Listing.MakeEventsList | events/events.py:190-199 | one sorted permutation of all events when there are no language lists, otherwise one sorted permutation per language, for exactly the same languages |
| Calendar.LocationOf | events/events.py:165-168 | `event-location` wins over `location`; with neither, there is no location |
| Calendar.EntryOf | events/events.py:148-170 | a VEVENT is built exactly when `date`, `title` and `slug` are present, and the error names the first one missing; the summary is the title, uid is `slug@SITENAME`, and start and end are the event's own |
| Calendar.Entries | events/events.py:148-170 | a successful export has one VEVENT per event |
| Calendar.MakeIcs | events/events.py:129-170 | the file is made exactly when every selected event can be exported; it has the configured name, the fixed headers and VEVENT `i` for event `i` |
| Calendar.EntriesPointwise | events/events.py:148-170 | the export succeeds exactly when every event can be exported, and VEVENT `i` is that of event `i` |
| Calendar.EntriesFirstError | events/events.py:148-158 | the first event that cannot be exported decides the error |
| Calendar.UidsFollowSlugs | events/events.py:158 | two VEVENTs share a uid exactly when their slugs are equal |
| Plugin.GenerateEvents | events/events.py:112-122 | one pass changes the store and returns exactly what the pass function defines, and it keeps the store invariant |
| Plugin.Generate | events/events.py:112-122 | a pass only appends events; it fails with Untitled exactly when localizing stops; a calendar is made exactly when `ics_fname` is set; the listing is flat exactly when no language list is left |
| Plugin.Localized | events/events.py:179-185 | the localizing step keeps every language list as a prefix of the new one, and keeps every entry filed under its own language |
| Plugin.LocalizeFails | events/events.py:179-187 | with `i18n_subsites`, the step raises exactly when some event has neither `lang` nor `title` |
| Plugin.PassCollects | events/events.py:113-118 | a pass only appends to the list, lists exactly the old events and the candidates, and adds no duplicate |
| Plugin.NoFileNameNoCalendar | events/events.py:129-131 | an empty `ics_fname` gives no calendar and no default-language insertion; the pass then fails only on localizing |
| Plugin.CalendarFollowsSelection | events/events.py:129-170 | a written calendar has the fixed headers, the configured name and one VEVENT per selected event, in order |
| Plugin.ExportFailureStopsListing | events/events.py:121-122 | an export error comes from the selected events, and then no `events_list` is produced |
| Plugin.DefaultLanguageInListing | events/events.py:146-199 | per-language listings have the filed languages, plus the default language exactly when a calendar was exported |
| Plugin.FlatListingHasEveryEvent | events/events.py:193-195 | a single listing is sorted latest first and contains each collected event exactly as often as the list does |
| Plugin.PassKeepsFiled | events/events.py:183-185 | after a pass, every localized entry is still one of the events, filed under its own language |
| Plugin.FirstPassWithoutLanguages | events/events.py:201-208 | after `initialize_events`, and with `i18n_subsites` off, a pass lists each candidate exactly once, and the listing is a single list |

## Left out

- The order of the per-language `events_list`: it is a Python dict whose keys templates see in insertion order, the order in which languages were first filed; a Dafny `map` has no order, so the model states only which languages have lists and what each list holds.
- Time zones: start and end stay naive local times, and the conversion to UTC when exporting, with its possible failure near years 1 and 9999, is not modelled.
- The iCalendar text: its serialisation, the `dtstamp` taken from `date` (only the presence of `date` is checked), and the DESCRIPTION from `get_summary` are not modelled. The summary is the raw title, because `striptags` is not modelled.
- The calendar file and the output directory: joining with `OUTPUT_PATH`, `os.path.exists`, `os.makedirs` and the file write are I/O; the model records only the configured file name.
- `register`, the signals and all logging are left out. The only logging the model keeps is the `title` lookups that can raise.
- `strptime` and `int()` accept only ASCII digits here; Python also accepts other Unicode decimal digits.
- Text.ParseInt: does not strip surrounding whitespace as `int()` does, because a chunk of `str.split()` never has any.
- Python's limit on the length of integer strings is not modelled.
- The settings keys (`PLUGIN_EVENTS`, `OUTPUT_PATH`, `DEFAULT_LANG`, `SITENAME`, `PLUGINS`, `TIMEZONE`, `SITEURL`) are assumed present. Metadata values are assumed to be strings.
- Microseconds: every date-time the plugin builds is whole-minute or whole-second, and durations are whole seconds.
- The exception classes are not modelled: each error constructor records which error occurs and what it names, not the Python exception class raised (`RuntimeError`, `ValueError`, `KeyError` or `OverflowError`).
- Two events are equal when all four fields are; the content object compares by identity.
- Store.CandidateOf: tests `event_start` and `event_end` together, where the source tests `hasattr(content, "event_start")` only. The source always sets the two together: `Resolver.Content.ParseArticle` keeps `Resolver.Content.Valid`, and on a valid content object the last ensures of `CandidateOf` reduces its test to the source's.
- `parse_article` raising is returned as a `Result`; what Pelican does with the exception is the host's business.
