/**
  The plugin's two module-level collections: the list `events` and the
  dictionary of lists `localized_events`, here the two fields of one store
  object, with the operations that clear, fill and read them.
 */
module Store {
  import opened DateTimes
  import opened Resolver

  /** The `Event` named tuple; two events are equal when all four fields are. */
  datatype Event = Event(dtstart: DateTime, dtend: DateTime, metadata: Metadata, article: Content)

  /** The event a content object contributes: one exactly when `parse_article` recorded a window on it. */
  function CandidateOf(c: Content): (r: seq<Event>)
    reads c
    ensures |r| <= 1
    ensures r != [] <==> c.eventStart.Some? && c.eventEnd.Some?
    ensures r != [] ==> r[0] == Event(c.eventStart.value, c.eventEnd.value, c.metadata, c)
    ensures c.Valid() ==> (r != [] <==> c.eventStart.Some?)
  {
    if c.eventStart.Some? && c.eventEnd.Some? then [Event(c.eventStart.value, c.eventEnd.value, c.metadata, c)]
    else []
  }

  /** The events of the generated content, in its order. */
  function Candidates(items: seq<Content>): seq<Event>
    reads items
  {
    if items == [] then [] else Candidates(items[..|items| - 1]) + CandidateOf(items[|items| - 1])
  }

  /** Appending each candidate that is not in the list yet. */
  function Collected(events: seq<Event>, candidates: seq<Event>): (r: seq<Event>)
    ensures events <= r
    ensures |r| <= |events| + |candidates|
  {
    if candidates == [] then events
    else
      var before := Collected(events, candidates[..|candidates| - 1]);
      var e := candidates[|candidates| - 1];
      if e in before then before else before + [e]
  }

  predicate NoDuplicates(s: seq<Event>) {
    forall i, j :: 0 <= i < j < |s| ==> s[i] != s[j]
  }

  /** The events carrying `lang` in their metadata, each filed under its language, in order. */
  function Partitioned(localized: map<string, seq<Event>>, events: seq<Event>): (r: map<string, seq<Event>>)
    ensures localized.Keys <= r.Keys
    ensures forall k :: k in localized ==> localized[k] <= r[k]
  {
    if events == [] then localized
    else
      var before := Partitioned(localized, events[..|events| - 1]);
      var e := events[|events| - 1];
      if "lang" in e.metadata then before[e.metadata["lang"] := Lookup(before, e.metadata["lang"]) + [e]]
      else before
  }

  /** A `defaultdict(list)` read without the side effect: the list under `k`, or the empty list. */
  function Lookup(m: map<string, seq<Event>>, k: string): seq<Event> {
    if k in m then m[k] else []
  }

  /**
    Where `generate_localized_events` stops: the first event with neither a
    language nor a title, whose log message raises a KeyError; `|events|` when
    there is none.
   */
  function Unlisted(events: seq<Event>): (r: nat)
    ensures r <= |events|
    ensures forall i :: 0 <= i < r ==> "lang" in events[i].metadata || "title" in events[i].metadata
    ensures r < |events| ==> "lang" !in events[r].metadata && "title" !in events[r].metadata
    decreases |events|
  {
    if events == [] then 0
    else if "lang" !in events[0].metadata && "title" !in events[0].metadata then 0
    else
      var rest := Unlisted(events[1..]);
      assert forall i :: 1 <= i < rest + 1 ==> events[i] == events[1..][i - 1];
      1 + rest
  }

  /** Every localized entry is an event of the list, filed under its own language. */
  predicate Filed(localized: map<string, seq<Event>>, events: seq<Event>) {
    forall k, e :: k in localized && e in localized[k] ==> e in events && "lang" in e.metadata && e.metadata["lang"] == k
  }

  function WithLang(events: seq<Event>, lang: string): seq<Event> {
    if events == [] then []
    else
      var e := events[|events| - 1];
      WithLang(events[..|events| - 1], lang)
      + (if "lang" in e.metadata && e.metadata["lang"] == lang then [e] else [])
  }

  /** The list the calendar is made of: all events, or those of the default language. */
  function Selection(events: seq<Event>, localized: map<string, seq<Event>>, defaultLang: string): (r: seq<Event>)
    ensures Filed(localized, events) ==> forall e :: e in r ==> e in events
    ensures Filed(localized, events) && localized != map[] ==>
              forall e :: e in r ==> "lang" in e.metadata && e.metadata["lang"] == defaultLang
    ensures localized == map[] ==> r == events
  {
    if localized == map[] then events else Lookup(localized, defaultLang)
  }

  /** What reading `localized_events[DEFAULT_LANG]` leaves behind: a new empty list when the key was missing. */
  function AfterSelection(localized: map<string, seq<Event>>, defaultLang: string): (r: map<string, seq<Event>>)
    ensures r.Keys == localized.Keys + (if localized == map[] then {} else {defaultLang})
    ensures forall k :: k in localized ==> r[k] == localized[k]
    ensures Lookup(r, defaultLang) == Lookup(localized, defaultLang)
  {
    if localized == map[] || defaultLang in localized then localized else localized[defaultLang := []]
  }

  class EventStore {
    var events: seq<Event>
    var localized: map<string, seq<Event>>

    /** No event is listed twice, and every localized entry is one of the events. */
    predicate Valid()
      reads this
    {
      NoDuplicates(events) && Filed(localized, events)
    }

    constructor()
      ensures events == [] && localized == map[]
      ensures Valid()
    {
      events, localized := [], map[];
    }

    /** `initialize_events`: both collections are emptied. */
    method Initialize()
      modifies this
      ensures events == [] && localized == map[]
      ensures Valid()
    {
      events := [];
      localized := map[];
    }

    /** The loop of `generate_events`: every content object with an event window adds its event once. */
    method Collect(items: seq<Content>)
      modifies this
      ensures events == Collected(old(events), old(Candidates(items)))
      ensures localized == old(localized)
      ensures old(Valid()) ==> Valid()
    {
      var list := events;
      ghost var seen: seq<Event> := [];
      for i := 0 to |items|
        invariant unchanged(this)
        invariant seen == Candidates(items[..i])
        invariant list == Collected(events, seen)
      {
        var found := CandidateOf(items[i]);
        CandidatesSnoc(items, i);
        if found != [] {
          var event := found[0];
          CollectedSnoc(events, seen, event);
          if event !in list {
            list := list + [event];
          }
          seen := seen + [event];
        } else {
          assert Candidates(items[..i + 1]) == seen + [];
        }
      }
      assert items[..|items|] == items;
      CollectedKeepsValid(events, localized, seen);
      events := list;
    }

    /**
      `generate_localized_events`: with the i18n plugin on, every event with a
      language is appended to its list, until an event with neither a language
      nor a title raises (`ok` false).
     */
    method Localize(i18nSubsites: bool) returns (ok: bool)
      modifies this
      ensures ok <==> !i18nSubsites || Unlisted(events) == |events|
      ensures events == old(events)
      ensures localized == if i18nSubsites then Partitioned(old(localized), events[..Unlisted(events)]) else old(localized)
      ensures old(Valid()) ==> Valid()
    {
      if !i18nSubsites {
        return true;
      }
      ghost var start := localized;
      for i := 0 to |events|
        invariant events == old(events)
        invariant i <= Unlisted(events)
        invariant localized == Partitioned(start, events[..i])
      {
        var e := events[i];
        PartitionedSnoc(start, events, i);
        if "lang" in e.metadata {
          var lang := e.metadata["lang"];
          var list := if lang in localized then localized[lang] else [];
          localized := localized[lang := list + [e]];
        } else if "title" !in e.metadata {
          if Filed(start, events) {
            PartitionedFiled(start, events, i);
          }
          return false;
        }
      }
      assert events[..|events|] == events;
      if Filed(start, events) {
        PartitionedFiled(start, events, |events|);
      }
      ok := true;
    }

    /** The list `generate_ical_file` exports, with the insertion its `defaultdict` lookup makes. */
    method SelectForCalendar(defaultLang: string) returns (selected: seq<Event>)
      modifies this
      ensures selected == Selection(old(events), old(localized), defaultLang)
      ensures events == old(events)
      ensures localized == AfterSelection(old(localized), defaultLang)
      ensures old(Valid()) ==> Valid()
    {
      if localized == map[] {
        selected := events;
      } else {
        if defaultLang !in localized {
          localized := localized[defaultLang := []];
        }
        selected := localized[defaultLang];
      }
    }
  }

  // ---------------------------------------------------------------------------
  // Collecting
  // ---------------------------------------------------------------------------

  /**
    At most one event per content object, and an event is a candidate exactly
    when some content object of the list contributes it.
   */
  lemma {:induction false} CandidatesMembers(items: seq<Content>, e: Event)
    ensures |Candidates(items)| <= |items|
    ensures e in Candidates(items) <==> exists c :: c in items && CandidateOf(c) == [e]
    decreases |items|
  {
    if items != [] {
      var init, last := items[..|items| - 1], items[|items| - 1];
      CandidatesMembers(init, e);
      assert items == init + [last];
      assert forall c :: c in items <==> c in init || c == last;
    }
  }

  lemma CandidatesSnoc(items: seq<Content>, i: nat)
    requires i < |items|
    ensures Candidates(items[..i + 1]) == Candidates(items[..i]) + CandidateOf(items[i])
  {
    assert items[..i + 1][..i] == items[..i];
  }

  lemma CollectedSnoc(events: seq<Event>, candidates: seq<Event>, e: Event)
    ensures Collected(events, candidates + [e])
            == (var before := Collected(events, candidates); if e in before then before else before + [e])
  {
    assert (candidates + [e])[..|candidates|] == candidates;
  }

  /** An event ends up in the list exactly when it was there or is a candidate. */
  lemma {:induction false} CollectedMembers(events: seq<Event>, candidates: seq<Event>, e: Event)
    ensures e in Collected(events, candidates) <==> e in events || e in candidates
    decreases |candidates|
  {
    if candidates != [] {
      var init := candidates[..|candidates| - 1];
      CollectedMembers(events, init, e);
      assert candidates == init + [candidates[|candidates| - 1]];
    }
  }

  /** The `event not in events` test keeps the list free of duplicates. */
  lemma {:induction false} CollectedKeepsNoDuplicates(events: seq<Event>, candidates: seq<Event>)
    requires NoDuplicates(events)
    ensures NoDuplicates(Collected(events, candidates))
    decreases |candidates|
  {
    if candidates != [] {
      CollectedKeepsNoDuplicates(events, candidates[..|candidates| - 1]);
    }
  }

  /** Collecting keeps the store free of duplicates and keeps every localized entry an event. */
  lemma CollectedKeepsValid(events: seq<Event>, localized: map<string, seq<Event>>, candidates: seq<Event>)
    ensures NoDuplicates(events) && Filed(localized, events) ==>
              NoDuplicates(Collected(events, candidates)) && Filed(localized, Collected(events, candidates))
  {
    if NoDuplicates(events) && Filed(localized, events) {
      CollectedKeepsNoDuplicates(events, candidates);
      forall e | e in events
        ensures e in Collected(events, candidates)
      {
        CollectedMembers(events, candidates, e);
      }
    }
  }

  /** Candidates that are all known already change nothing: a second pass over the same content adds nothing. */
  lemma {:induction false} CollectedKnown(events: seq<Event>, candidates: seq<Event>)
    requires forall e :: e in candidates ==> e in events
    ensures Collected(events, candidates) == events
    decreases |candidates|
  {
    if candidates != [] {
      var init := candidates[..|candidates| - 1];
      assert forall e :: e in init ==> e in candidates;
      CollectedKnown(events, init);
      assert candidates[|candidates| - 1] in candidates;
    }
  }

  lemma CollectedTwice(events: seq<Event>, candidates: seq<Event>)
    ensures Collected(Collected(events, candidates), candidates) == Collected(events, candidates)
  {
    forall e | e in candidates
      ensures e in Collected(events, candidates)
    {
      CollectedMembers(events, candidates, e);
    }
    CollectedKnown(Collected(events, candidates), candidates);
  }

  // ---------------------------------------------------------------------------
  // Localizing
  // ---------------------------------------------------------------------------

  /**
    Once localizing has filed the events, the calendar gets exactly the
    default language's old list followed by the events carrying it, in order.
   */
  lemma SelectionOfPartitioned(localized: map<string, seq<Event>>, events: seq<Event>, defaultLang: string)
    requires Partitioned(localized, events) != map[]
    ensures Selection(events, Partitioned(localized, events), defaultLang) == Lookup(localized, defaultLang) + WithLang(events, defaultLang)
  {
    PartitionedLookup(localized, events, defaultLang);
  }

  /** Each language's list grows by exactly the events of that language, in order. */
  lemma {:induction false} PartitionedLookup(localized: map<string, seq<Event>>, events: seq<Event>, lang: string)
    ensures Lookup(Partitioned(localized, events), lang) == Lookup(localized, lang) + WithLang(events, lang)
    decreases |events|
  {
    if events != [] {
      PartitionedLookup(localized, events[..|events| - 1], lang);
    }
  }

  /** A language gets a list exactly when it had one or some event carries it. */
  lemma {:induction false} PartitionedKeys(localized: map<string, seq<Event>>, events: seq<Event>, lang: string)
    ensures lang in Partitioned(localized, events)
            <==> lang in localized || exists i :: 0 <= i < |events| && "lang" in events[i].metadata
                                                   && events[i].metadata["lang"] == lang
    decreases |events|
  {
    if events != [] {
      var init := events[..|events| - 1];
      PartitionedKeys(localized, init, lang);
      if exists i :: 0 <= i < |events| && "lang" in events[i].metadata && events[i].metadata["lang"] == lang {
        var i :| 0 <= i < |events| && "lang" in events[i].metadata && events[i].metadata["lang"] == lang;
        if i < |init| {
          assert init[i] == events[i];
        }
      }
      if exists i :: 0 <= i < |init| && "lang" in init[i].metadata && init[i].metadata["lang"] == lang {
        var i :| 0 <= i < |init| && "lang" in init[i].metadata && init[i].metadata["lang"] == lang;
        assert events[i] == init[i];
      }
    }
  }

  lemma PartitionedSnoc(localized: map<string, seq<Event>>, events: seq<Event>, i: nat)
    requires i < |events|
    ensures Partitioned(localized, events[..i + 1])
            == (var before := Partitioned(localized, events[..i]);
                var e := events[i];
                if "lang" in e.metadata then before[e.metadata["lang"] := Lookup(before, e.metadata["lang"]) + [e]]
                else before)
  {
    assert events[..i + 1][..i] == events[..i];
  }

  /** Filing a prefix of the events keeps every localized entry an event of its own language. */
  lemma PartitionedFiled(localized: map<string, seq<Event>>, events: seq<Event>, n: nat)
    requires n <= |events|
    requires Filed(localized, events)
    ensures Filed(Partitioned(localized, events[..n]), events)
  {
    var p := Partitioned(localized, events[..n]);
    forall k, e | k in p && e in p[k]
      ensures e in events && "lang" in e.metadata && e.metadata["lang"] == k
    {
      PartitionedLookup(localized, events[..n], k);
      assert p[k] == Lookup(localized, k) + WithLang(events[..n], k);
      if e !in Lookup(localized, k) {
        WithLangHasLang(events[..n], k, e);
      }
    }
  }

  /** Events without a language are in no language's list. */
  lemma {:induction false} WithLangHasLang(events: seq<Event>, lang: string, e: Event)
    ensures e in WithLang(events, lang) <==> e in events && "lang" in e.metadata && e.metadata["lang"] == lang
    decreases |events|
  {
    if events != [] {
      var init := events[..|events| - 1];
      WithLangHasLang(init, lang, e);
      assert events == init + [events[|events| - 1]];
    }
  }
}
