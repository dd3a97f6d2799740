/**
  `generate_ical_file`: one iCalendar VEVENT per exported event, in the order of
  the exported list, inside a calendar with fixed headers, written to the
  configured file name under the output directory.
 */
module Calendar {
  import opened Results
  import opened DateTimes
  import opened Store

  /** The values `generate_ical_file` reads from the settings. */
  datatype Settings = Settings(
    icsFname: string,      // PLUGIN_EVENTS['ics_fname']; empty means no calendar
    defaultLang: string,   // DEFAULT_LANG
    siteName: string,      // SITENAME
    plugins: seq<string>)  // PLUGINS

  predicate I18nSubsites(s: Settings) {
    "i18n_subsites" in s.plugins
  }

  const ProdId: string := "-//pelican/events//mxm.dk//EN"
  const Version: string := "2.0"
  const Method: string := "PUBLISH"
  const Classification: string := "PUBLIC"

  /** One VEVENT, with its start and end still in the site's local time. */
  datatype Entry = Entry(
    summary: string,
    dtstart: DateTime,
    dtend: DateTime,
    uid: string,
    classification: string,
    location: Option<string>)

  /** The calendar written to the file `ics_fname` under the output directory. */
  datatype Ics = Ics(fileName: string, prodId: string, version: string, icalMethod: string, entries: seq<Entry>)

  /** The KeyError of a metadata field an exported event lacks. */
  datatype ExportError = MissingField(key: string)

  /** `event-location` wins over `location`; with neither the VEVENT has no location. */
  function LocationOf(md: map<string, string>): (r: Option<string>)
    ensures r.Some? <==> "event-location" in md || "location" in md
    ensures "event-location" in md ==> r == Some(md["event-location"])
    ensures "event-location" !in md && "location" in md ==> r == Some(md["location"])
  {
    if "event-location" in md then Some(md["event-location"])
    else if "location" in md then Some(md["location"])
    else None
  }

  /** The VEVENT of one event; `date`, `title` and `slug` are read in that order. */
  function EntryOf(e: Event, siteName: string): (r: Result<Entry, ExportError>)
    ensures r.Success? <==> "date" in e.metadata && "title" in e.metadata && "slug" in e.metadata
    ensures r.Failure? ==> r.error.key == (if "date" !in e.metadata then "date"
                                          else if "title" !in e.metadata then "title" else "slug")
    ensures r.Success? ==> && r.value.dtstart == e.dtstart && r.value.dtend == e.dtend
                           && r.value.summary == e.metadata["title"]
                           && r.value.uid == e.metadata["slug"] + "@" + siteName
                           && r.value.location == LocationOf(e.metadata)
  {
    if "date" !in e.metadata then Failure(MissingField("date"))
    else if "title" !in e.metadata then Failure(MissingField("title"))
    else if "slug" !in e.metadata then Failure(MissingField("slug"))
    else Success(Entry(e.metadata["title"], e.dtstart, e.dtend, e.metadata["slug"] + "@" + siteName,
                       Classification, LocationOf(e.metadata)))
  }

  /** The VEVENTs of the list, in order; the first event that cannot be exported stops the export. */
  function Entries(events: seq<Event>, siteName: string): (r: Result<seq<Entry>, ExportError>)
    ensures r.Success? ==> |r.value| == |events|
    decreases |events|
  {
    if events == [] then Success([])
    else
      var first :- EntryOf(events[0], siteName);
      var rest :- Entries(events[1..], siteName);
      Success([first] + rest)
  }

  /** The calendar file written for the exported list, or the KeyError that stops it. */
  function MakeIcs(settings: Settings, exported: seq<Event>): (r: Result<Ics, ExportError>)
    ensures r.Success? <==> forall i :: 0 <= i < |exported| ==> EntryOf(exported[i], settings.siteName).Success?
    ensures r.Success? ==> && r.value.fileName == settings.icsFname
                           && r.value.prodId == ProdId && r.value.version == Version && r.value.icalMethod == Method
                           && |r.value.entries| == |exported|
                           && forall i :: 0 <= i < |exported| ==> r.value.entries[i] == EntryOf(exported[i], settings.siteName).value
  {
    EntriesPointwise(exported, settings.siteName);
    var entries :- Entries(exported, settings.siteName);
    Success(Ics(settings.icsFname, ProdId, Version, Method, entries))
  }

  // ---------------------------------------------------------------------------
  // What the export promises
  // ---------------------------------------------------------------------------

  /** Every event of the list becomes the VEVENT in the same position, exactly when each can be exported. */
  lemma {:induction false} EntriesPointwise(events: seq<Event>, siteName: string)
    ensures Entries(events, siteName).Success? <==> forall i :: 0 <= i < |events| ==> EntryOf(events[i], siteName).Success?
    ensures Entries(events, siteName).Success? ==>
              forall i :: 0 <= i < |events| ==> Entries(events, siteName).value[i] == EntryOf(events[i], siteName).value
    decreases |events|
  {
    if events != [] {
      EntriesPointwise(events[1..], siteName);
      assert forall i :: 1 <= i < |events| ==> events[1..][i - 1] == events[i];
    }
  }

  /** The export fails with the error of the first event that lacks a field. */
  lemma {:induction false} EntriesFirstError(events: seq<Event>, siteName: string, k: nat)
    requires k < |events| && EntryOf(events[k], siteName).Failure?
    requires forall i :: 0 <= i < k ==> EntryOf(events[i], siteName).Success?
    ensures Entries(events, siteName) == Failure(EntryOf(events[k], siteName).error)
    decreases k
  {
    if k > 0 {
      assert forall i :: 0 <= i < k - 1 ==> events[1..][i] == events[i + 1];
      EntriesFirstError(events[1..], siteName, k - 1);
    }
  }

  /** The VEVENT uid is unique across events whose slugs differ. */
  lemma UidsFollowSlugs(a: Event, b: Event, siteName: string)
    requires EntryOf(a, siteName).Success? && EntryOf(b, siteName).Success?
    ensures EntryOf(a, siteName).value.uid == EntryOf(b, siteName).value.uid <==> a.metadata["slug"] == b.metadata["slug"]
  {
    var u, v := a.metadata["slug"] + "@" + siteName, b.metadata["slug"] + "@" + siteName;
    if u == v {
      assert u[..|u| - |siteName| - 1] == a.metadata["slug"];
      assert v[..|v| - |siteName| - 1] == b.metadata["slug"];
    }
  }
}
