/**
  `generate_events`, run once the articles are generated: collect the events of
  the generated content, file them by language, export the calendar and build
  the `events_list` template variable, in that order. A KeyError in any step
  stops the steps after it.
 */
module Plugin {
  import opened Results
  import opened Resolver
  import opened Store
  import opened Listing
  import opened Calendar

  /** Why `generate_events` raises. */
  datatype PipelineError =
    | Untitled                   // an event with neither `lang` nor `title` while localizing
    | Export(cause: ExportError) // an exported event lacking `date`, `title` or `slug`

  /** What one pass produces: the calendar file, if any, and the template variable. */
  datatype Output = Output(calendar: Option<Ics>, eventsList: EventsList)

  /** The two module-level collections. */
  datatype State = State(events: seq<Event>, localized: map<string, seq<Event>>)

  /** The outcome of one pass together with the collections it leaves behind. */
  datatype Run = Run(result: Result<Output, PipelineError>, after: State)

  /** The language lists after the localizing step, which stops at the first event it cannot log. */
  function Localized(events: seq<Event>, localized: map<string, seq<Event>>, settings: Settings): (r: map<string, seq<Event>>)
    ensures localized.Keys <= r.Keys
    ensures forall k :: k in localized ==> localized[k] <= r[k]
    ensures Filed(localized, events) ==> Filed(r, events)
  {
    if I18nSubsites(settings) then
      assert Filed(localized, events) ==> Filed(Partitioned(localized, events[..Unlisted(events)]), events) by {
        if Filed(localized, events) {
          PartitionedFiled(localized, events, Unlisted(events));
        }
      }
      Partitioned(localized, events[..Unlisted(events)])
    else localized
  }

  /** The localizing step raises. */
  predicate LocalizeFails(events: seq<Event>, settings: Settings): (r: bool)
    ensures r <==> I18nSubsites(settings) && exists i :: 0 <= i < |events| && "lang" !in events[i].metadata && "title" !in events[i].metadata
  {
    I18nSubsites(settings) && Unlisted(events) < |events|
  }

  /** `generate_events` on the collections, given the events the generated content offers. */
  function Generate(s: State, candidates: seq<Event>, settings: Settings): (r: Run)
    ensures s.events <= r.after.events
    ensures r.result.Failure? && r.result.error.Untitled? <==> LocalizeFails(r.after.events, settings)
    ensures r.result.Success? ==> (r.result.value.calendar.Some? <==> settings.icsFname != "")
    ensures r.result.Success? ==> (r.result.value.eventsList.Flat? <==> r.after.localized == map[])
  {
    var events := Collected(s.events, candidates);
    var localized := Localized(events, s.localized, settings);
    if LocalizeFails(events, settings) then Run(Failure(Untitled), State(events, localized))
    else if settings.icsFname == "" then
      Run(Success(Output(None, MakeEventsList(events, localized))), State(events, localized))
    else
      var selected := Selection(events, localized, settings.defaultLang);
      var after := AfterSelection(localized, settings.defaultLang);
      match MakeIcs(settings, selected)
      case Failure(e) => Run(Failure(Export(e)), State(events, after))
      case Success(ics) => Run(Success(Output(Some(ics), MakeEventsList(events, after))), State(events, after))
  }

  /** `generate_events(generator)`, with `items` the values of `generated_content`. */
  method GenerateEvents(store: EventStore, items: seq<Content>, settings: Settings) returns (r: Result<Output, PipelineError>)
    modifies store
    ensures Run(r, State(store.events, store.localized))
            == Generate(State(old(store.events), old(store.localized)), old(Candidates(items)), settings)
    ensures old(store.Valid()) ==> store.Valid()
  {
    store.Collect(items);
    var localizedOk := store.Localize(I18nSubsites(settings));
    if !localizedOk {
      return Failure(Untitled);
    }
    var calendar: Option<Ics> := None;
    if settings.icsFname != "" {
      var selected := store.SelectForCalendar(settings.defaultLang);
      var ics := MakeIcs(settings, selected);
      if ics.Failure? {
        return Failure(Export(ics.error));
      }
      calendar := Some(ics.value);
    }
    r := Success(Output(calendar, MakeEventsList(store.events, store.localized)));
  }

  // ---------------------------------------------------------------------------
  // What one pass promises
  // ---------------------------------------------------------------------------

  /** The events list is the old list extended by the new candidates, free of duplicates when it was. */
  lemma PassCollects(s: State, candidates: seq<Event>, settings: Settings)
    ensures s.events <= Generate(s, candidates, settings).after.events
    ensures forall e :: e in Generate(s, candidates, settings).after.events <==> e in s.events || e in candidates
    ensures NoDuplicates(s.events) ==> NoDuplicates(Generate(s, candidates, settings).after.events)
  {
    var events := Collected(s.events, candidates);
    forall e
      ensures e in events <==> e in s.events || e in candidates
    {
      CollectedMembers(s.events, candidates, e);
    }
    if NoDuplicates(s.events) {
      CollectedKeepsNoDuplicates(s.events, candidates);
    }
  }

  /** An empty `ics_fname` writes no calendar and leaves the language lists as the localizing step made them. */
  lemma NoFileNameNoCalendar(s: State, candidates: seq<Event>, settings: Settings)
    requires settings.icsFname == ""
    ensures var run := Generate(s, candidates, settings);
            var events := Collected(s.events, candidates);
            && (run.result.Success? <==> !LocalizeFails(events, settings))
            && (run.result.Success? ==> run.result.value.calendar.None?)
            && run.after == State(events, Localized(events, s.localized, settings))
  {
  }

  /** The calendar holds one VEVENT per selected event, in order, under the configured file name. */
  lemma CalendarFollowsSelection(s: State, candidates: seq<Event>, settings: Settings)
    requires Generate(s, candidates, settings).result.Success?
    requires Generate(s, candidates, settings).result.value.calendar.Some?
    ensures var events := Collected(s.events, candidates);
            var selected := Selection(events, Localized(events, s.localized, settings), settings.defaultLang);
            var ics := Generate(s, candidates, settings).result.value.calendar.value;
            && settings.icsFname != ""
            && ics.fileName == settings.icsFname
            && ics.prodId == ProdId && ics.version == Version && ics.icalMethod == Method
            && |ics.entries| == |selected|
            && forall i :: 0 <= i < |selected| ==>
                 EntryOf(selected[i], settings.siteName).Success? && ics.entries[i] == EntryOf(selected[i], settings.siteName).value
  {
    var events := Collected(s.events, candidates);
    var selected := Selection(events, Localized(events, s.localized, settings), settings.defaultLang);
    EntriesPointwise(selected, settings.siteName);
  }

  /** A calendar that cannot be exported leaves no template variable: the listing step never runs. */
  lemma ExportFailureStopsListing(s: State, candidates: seq<Event>, settings: Settings)
    requires Generate(s, candidates, settings).result.Failure?
    requires Generate(s, candidates, settings).result.error.Export?
    ensures var events := Collected(s.events, candidates);
            var localized := Localized(events, s.localized, settings);
            && settings.icsFname != ""
            && !LocalizeFails(events, settings)
            && MakeIcs(settings, Selection(events, localized, settings.defaultLang))
               == Failure(Generate(s, candidates, settings).result.error.cause)
  {
  }

  /**
    Exporting a calendar while the language lists are in use gives the listing
    a list for the default language, empty when no event carries it; without
    the calendar the listing has exactly the languages of the events.
   */
  lemma DefaultLanguageInListing(s: State, candidates: seq<Event>, settings: Settings)
    requires Generate(s, candidates, settings).result.Success?
    requires Generate(s, candidates, settings).result.value.eventsList.PerLanguage?
    ensures var events := Collected(s.events, candidates);
            var localized := Localized(events, s.localized, settings);
            var lists := Generate(s, candidates, settings).result.value.eventsList.lists;
            && (settings.icsFname != "" ==> lists.Keys == localized.Keys + {settings.defaultLang})
            && (settings.icsFname == "" ==> lists.Keys == localized.Keys)
  {
    var events := Collected(s.events, candidates);
    var localized := Localized(events, s.localized, settings);
  }

  /** With no language lists the listing is every collected event, latest first. */
  lemma FlatListingHasEveryEvent(s: State, candidates: seq<Event>, settings: Settings)
    requires Generate(s, candidates, settings).result.Success?
    requires Generate(s, candidates, settings).result.value.eventsList.Flat?
    ensures var listed := Generate(s, candidates, settings).result.value.eventsList.events;
            var events := Collected(s.events, candidates);
            && SortedDesc(listed)
            && multiset(listed) == multiset(events)
            && forall e :: e in listed <==> e in s.events || e in candidates
  {
    var events := Collected(s.events, candidates);
    var listed := Generate(s, candidates, settings).result.value.eventsList.events;
    forall e
      ensures e in listed <==> e in s.events || e in candidates
    {
      assert e in listed <==> e in multiset(listed);
      CollectedMembers(s.events, candidates, e);
    }
  }

  /** Every entry of every language list is a collected event of that language, before and after a pass. */
  lemma PassKeepsFiled(s: State, candidates: seq<Event>, settings: Settings)
    requires Filed(s.localized, s.events)
    ensures Filed(Generate(s, candidates, settings).after.localized, Generate(s, candidates, settings).after.events)
  {
    var events := Collected(s.events, candidates);
    var localized := Localized(events, s.localized, settings);
    assert Filed(s.localized, events) by {
      forall e | e in s.events
        ensures e in events
      {
        CollectedMembers(s.events, candidates, e);
      }
    }
    assert Filed(localized, events) by {
      if I18nSubsites(settings) {
        PartitionedFiled(s.localized, events, Unlisted(events));
      }
    }
    var after := AfterSelection(localized, settings.defaultLang);
    assert Filed(after, events) by {
        forall k, e | k in after && e in after[k]
        ensures e in events && "lang" in e.metadata && e.metadata["lang"] == k
      {
        assert k in localized;
      }
    }
    var run := Generate(s, candidates, settings);
    assert run.after == State(events, localized) || run.after == State(events, after);
  }

  /** After `initialize_events`, without the i18n plugin, one pass lists exactly the events of the content. */
  lemma FirstPassWithoutLanguages(candidates: seq<Event>, settings: Settings)
    requires !I18nSubsites(settings)
    ensures var run := Generate(State([], map[]), candidates, settings);
            && run.after.localized == map[]
            && (run.result.Success? ==> run.result.value.eventsList.Flat?)
            && NoDuplicates(run.after.events)
            && forall e :: e in run.after.events <==> e in candidates
  {
    PassCollects(State([], map[]), candidates, settings);
  }
}
