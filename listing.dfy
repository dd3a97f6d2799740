/**
  `generate_events_list`: the `events_list` template variable, the events from
  the latest to the earliest by `(dtstart, dtend)`, either as one list or as one
  list per language.
 */
module Listing {
  import opened DateTimes
  import opened Store

  /** The sort key `(ev.dtstart, ev.dtend)` of one event is smaller than that of another: tuples compare field by field. */
  predicate KeyLess(a: Event, b: Event) {
    Before(a.dtstart, b.dtstart) || (a.dtstart == b.dtstart && Before(a.dtend, b.dtend))
  }

  predicate SameKey(a: Event, b: Event) {
    a.dtstart == b.dtstart && a.dtend == b.dtend
  }

  /** The key order is a strict total order. */
  lemma KeyOrder(a: Event, b: Event, c: Event)
    ensures !KeyLess(a, a)
    ensures KeyLess(a, b) ==> !KeyLess(b, a)
    ensures KeyLess(a, b) && KeyLess(b, c) ==> KeyLess(a, c)
    ensures SameKey(a, b) || KeyLess(a, b) || KeyLess(b, a)
  {
    BeforeIsStrictTotalOrder(a.dtstart, b.dtstart, c.dtstart);
    BeforeIsStrictTotalOrder(a.dtend, b.dtend, c.dtend);
    BeforeIsStrictTotalOrder(b.dtstart, a.dtstart, c.dtstart);
    BeforeIsStrictTotalOrder(b.dtend, a.dtend, c.dtend);
  }

  /** From the latest to the earliest key. */
  predicate SortedDesc(s: seq<Event>) {
    forall i, j :: 0 <= i < j < |s| ==> !KeyLess(s[i], s[j])
  }

  /** `x` goes in front of the first event whose key is not larger than its own. */
  function InsertDesc(x: Event, s: seq<Event>): seq<Event> {
    if s == [] then [x]
    else if !KeyLess(x, s[0]) then [x] + s
    else [s[0]] + InsertDesc(x, s[1..])
  }

  /** `sorted(s, key=lambda ev: (ev.dtstart, ev.dtend), reverse=True)`. */
  function SortDesc(s: seq<Event>): (r: seq<Event>)
    ensures SortedDesc(r)
    ensures multiset(r) == multiset(s)
  {
    if s == [] then []
    else
      InsertDescSorted(s[0], SortDesc(s[1..]));
      assert s == [s[0]] + s[1..];
      InsertDesc(s[0], SortDesc(s[1..]))
  }

  /** The events of `s` with the key of `k`, in order. */
  function WithKey(s: seq<Event>, k: Event): seq<Event> {
    if s == [] then [] else (if SameKey(s[0], k) then [s[0]] else []) + WithKey(s[1..], k)
  }

  lemma {:induction false} InsertDescSorted(x: Event, s: seq<Event>)
    requires SortedDesc(s)
    ensures SortedDesc(InsertDesc(x, s))
    ensures multiset(InsertDesc(x, s)) == multiset(s) + multiset{x}
    decreases |s|
  {
    if s == [] {
    } else if !KeyLess(x, s[0]) {
      InsertInFront(x, s);
    } else {
      InsertDescSorted(x, s[1..]);
      InsertBehindHead(x, s, InsertDesc(x, s[1..]));
    }
  }

  /** An event with a key at least that of the head goes first. */
  lemma InsertInFront(x: Event, s: seq<Event>)
    requires SortedDesc(s) && s != [] && !KeyLess(x, s[0])
    ensures SortedDesc([x] + s)
  {
    forall j | 0 <= j < |s|
      ensures !KeyLess(x, s[j])
    {
      if j > 0 {
        KeyOrder(x, s[0], s[j]);
        KeyOrder(s[0], x, s[j]);
        KeyOrder(s[0], s[j], x);
      }
    }
    assert forall j :: 1 <= j < |[x] + s| ==> ([x] + s)[j] == s[j - 1];
  }

  /** An event with a key below that of the head goes in the sorted tail. */
  lemma InsertBehindHead(x: Event, s: seq<Event>, rest: seq<Event>)
    requires SortedDesc(s) && s != [] && KeyLess(x, s[0])
    requires SortedDesc(rest) && multiset(rest) == multiset(s[1..]) + multiset{x}
    ensures SortedDesc([s[0]] + rest)
    ensures multiset([s[0]] + rest) == multiset(s) + multiset{x}
  {
    assert s == [s[0]] + s[1..];
    assert !KeyLess(s[0], x) by {
      KeyOrder(x, s[0], x);
    }
    assert forall k :: 0 <= k < |s[1..]| ==> !KeyLess(s[0], s[1..][k]) by {
      assert forall k :: 0 <= k < |s[1..]| ==> s[1..][k] == s[k + 1];
    }
    forall j | 0 <= j < |rest|
      ensures !KeyLess(s[0], rest[j])
    {
      assert rest[j] in multiset(s[1..]) + multiset{x};
    }
    assert forall j :: 1 <= j < |[s[0]] + rest| ==> ([s[0]] + rest)[j] == rest[j - 1];
  }

  lemma {:induction false} InsertDescWithKey(x: Event, s: seq<Event>, k: Event)
    ensures WithKey(InsertDesc(x, s), k) == (if SameKey(x, k) then [x] else []) + WithKey(s, k)
    decreases |s|
  {
    if s == [] {
    } else if !KeyLess(x, s[0]) {
      assert ([x] + s)[1..] == s;
    } else {
      InsertDescWithKey(x, s[1..], k);
      assert ([s[0]] + InsertDesc(x, s[1..]))[1..] == InsertDesc(x, s[1..]);
      if SameKey(x, k) {
        KeyOrder(x, s[0], x);
        assert !SameKey(s[0], k);
      }
    }
  }

  /** The sort is stable: events with equal keys keep the order they had in the list. */
  lemma {:induction false} SortDescStable(s: seq<Event>, k: Event)
    ensures WithKey(SortDesc(s), k) == WithKey(s, k)
    decreases |s|
  {
    if s != [] {
      SortDescStable(s[1..], k);
      InsertDescWithKey(s[0], SortDesc(s[1..]), k);
    }
  }

  /** Sorting a sorted listing changes nothing. */
  lemma {:induction false} SortDescOfSorted(s: seq<Event>)
    requires SortedDesc(s)
    ensures SortDesc(s) == s
    decreases |s|
  {
    if s != [] {
      assert SortedDesc(s[1..]) by {
        forall i, j | 0 <= i < j < |s[1..]|
          ensures !KeyLess(s[1..][i], s[1..][j])
        {
          assert s[1..][i] == s[i + 1] && s[1..][j] == s[j + 1];
        }
      }
      SortDescOfSorted(s[1..]);
      if |s| > 1 {
        assert !KeyLess(s[0], s[1]);
      }
      assert s == [s[0]] + s[1..];
    }
  }

  /** The `events_list` of the templates. */
  datatype EventsList = Flat(events: seq<Event>) | PerLanguage(lists: map<string, seq<Event>>)

  /** `generate_events_list`: one sorted list, or one per language once any language has one. */
  function MakeEventsList(events: seq<Event>, localized: map<string, seq<Event>>): (r: EventsList)
    ensures r.Flat? <==> localized == map[]
    ensures r.Flat? ==> SortedDesc(r.events) && multiset(r.events) == multiset(events)
    ensures r.PerLanguage? ==> r.lists.Keys == localized.Keys
    ensures r.PerLanguage? ==> forall k :: k in r.lists ==>
                                 SortedDesc(r.lists[k]) && multiset(r.lists[k]) == multiset(localized[k])
  {
    if localized == map[] then
      Flat(SortDesc(events))
    else
      var lists := map k | k in localized :: SortDesc(localized[k]);
      PerLanguage(lists)
  }
}
