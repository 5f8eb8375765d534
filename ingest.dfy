/** The save half of the scraper: the loop that stores each extracted record unless its title is
    the sentinel or a record with the same `sourceUrl` is already stored. The database is an
    in-memory sequence of records searched by exact `sourceUrl` equality. */
module Ingest {
  import opened Wrappers
  import opened Dom
  import opened Extract
  import opened Text

  /** `Event.findOne({ sourceUrl: url })`: the position of the first stored record whose
      `sourceUrl` equals `url` exactly (the empty string included). */
  function FindBySourceUrl(records: seq<EventRecord>, url: string): (r: Option<nat>)
    ensures r.Some? ==> r.value < |records| && records[r.value].sourceUrl == url
    ensures r.Some? ==> forall j :: 0 <= j < r.value ==> records[j].sourceUrl != url
    ensures r.None? <==> !Stored(records, url)
  {
    if records == [] then None
    else if records[0].sourceUrl == url then Some(0)
    else
      match FindBySourceUrl(records[1..], url)
      case None => None
      case Some(i) => Some(i + 1)
  }

  predicate Stored(records: seq<EventRecord>, url: string) {
    exists i :: 0 <= i < |records| && records[i].sourceUrl == url
  }

  /** No two stored records share a `sourceUrl`. */
  predicate UniqueSourceUrls(records: seq<EventRecord>) {
    forall i, j :: 0 <= i < j < |records| ==> records[i].sourceUrl != records[j].sourceUrl
  }

  /** `{ ...eventData, status: 'new' }`: every field copied, the status overwritten. */
  function Saved(e: EventRecord): (r: EventRecord)
    ensures r.title == e.title && r.date == e.date && r.venue == e.venue
    ensures r.imageUrl == e.imageUrl && r.sourceUrl == e.sourceUrl && r.city == e.city
    ensures r.status == StatusNew
  {
    e.(status := StatusNew)
  }

  /** The store after one pass of the loop body on `e`: either unchanged, or grown by the
      restamped record, and it grows exactly when the title is genuine and the URL unstored. */
  function SaveStep(records: seq<EventRecord>, e: EventRecord): (r: seq<EventRecord>)
    ensures r == records || r == records + [Saved(e)]
    ensures r != records <==> e.title != TitleNotFound && !Stored(records, e.sourceUrl)
  {
    if e.title != TitleNotFound && FindBySourceUrl(records, e.sourceUrl).None? then records + [Saved(e)]
    else records
  }

  /** The store after the loop has processed `events` in order, starting from `records`: the old
      records followed by at most one new record per batch record. */
  function Ingested(records: seq<EventRecord>, events: seq<EventRecord>): (r: seq<EventRecord>)
    ensures |records| <= |r| <= |records| + |events|
    decreases |events|
  {
    if events == [] then records
    else SaveStep(Ingested(records, events[..|events| - 1]), events[|events| - 1])
  }

  /** The `sourceUrl`s the loop looks up, in order: one per record whose title is not the
      sentinel, and none for a sentinel record. */
  function Lookups(events: seq<EventRecord>): (urls: seq<string>)
    ensures |urls| <= |events|
    ensures forall u :: u in urls ==> exists e :: e in events && e.title != TitleNotFound && e.sourceUrl == u
    ensures (forall i :: 0 <= i < |events| ==> events[i].title == TitleNotFound) ==> urls == []
    decreases |events|
  {
    if events == [] then []
    else
      var last := events[|events| - 1];
      var front := Lookups(events[..|events| - 1]);
      assert forall e :: e in events[..|events| - 1] ==> e in events;
      if last.title != TitleNotFound then front + [last.sourceUrl] else front
  }

  /** The lookups of two consecutive stretches of a batch are those of the first stretch followed
      by those of the second, and a single record is looked up once when its title is genuine and
      not at all when it is the sentinel. */
  lemma {:induction false} LookupsAppend(a: seq<EventRecord>, b: seq<EventRecord>)
    ensures Lookups(a + b) == Lookups(a) + Lookups(b)
    decreases |b|
  {
    if b == [] {
      assert a + b == a;
    } else {
      var b' := b[..|b| - 1];
      assert (a + b)[..|a + b| - 1] == a + b';
      LookupsAppend(a, b');
    }
  }

  lemma LookupsSingle(e: EventRecord)
    ensures Lookups([e]) == if e.title != TitleNotFound then [e.sourceUrl] else []
  {
    assert [e][..0] == [];
  }

  /** Every batch record with a genuine title has its `sourceUrl` looked up. */
  lemma {:induction false} LookupsCoverGenuine(events: seq<EventRecord>)
    ensures forall i :: 0 <= i < |events| && events[i].title != TitleNotFound ==>
      events[i].sourceUrl in Lookups(events)
    decreases |events|
  {
    if events != [] {
      var front := events[..|events| - 1];
      LookupsCoverGenuine(front);
      forall i | 0 <= i < |front| && front[i].title != TitleNotFound
        ensures front[i].sourceUrl in Lookups(events)
      {
      }
      forall i | 0 <= i < |events| - 1
        ensures events[i] == front[i]
      {
      }
    }
  }

  /** A sentinel record anywhere in a batch causes no lookup. */
  lemma LookupsSkipSentinel(a: seq<EventRecord>, e: EventRecord, b: seq<EventRecord>)
    requires e.title == TitleNotFound
    ensures Lookups(a + [e] + b) == Lookups(a + b)
  {
    LookupsAppend(a + [e], b);
    LookupsAppend(a, [e]);
    LookupsAppend(a, b);
    LookupsSingle(e);
  }

  /** The `Event` collection: the stored records in insertion order, and a log of the
      `sourceUrl`s it has been queried for. */
  class Store {
    var records: seq<EventRecord>
    ghost var queries: seq<string>

    constructor ()
      ensures records == [] && queries == []
    {
      records := [];
      queries := [];
    }

    /** `Event.findOne({ sourceUrl: url })` */
    method FindOne(url: string) returns (existing: Option<EventRecord>)
      modifies this`queries
      ensures records == old(records)
      ensures queries == old(queries) + [url]
      ensures existing.None? <==> !Stored(records, url)
      ensures existing.Some? ==> existing.value in records && existing.value.sourceUrl == url
    {
      queries := queries + [url];
      var i := FindBySourceUrl(records, url);
      existing := if i.Some? then Some(records[i.value]) else None;
    }

    /** `Event.create(record)` */
    method Create(record: EventRecord)
      modifies this`records
      ensures records == old(records) + [record]
    {
      records := records + [record];
    }
  }

  /** Extending the processed prefix by one record is one pass of the loop body. */
  lemma PrefixStep(records: seq<EventRecord>, events: seq<EventRecord>, i: nat)
    requires i < |events|
    ensures Ingested(records, events[..i + 1]) == SaveStep(Ingested(records, events[..i]), events[i])
    ensures Lookups(events[..i + 1]) ==
      if events[i].title != TitleNotFound then Lookups(events[..i]) + [events[i].sourceUrl]
      else Lookups(events[..i])
  {
    assert events[..i + 1][..i] == events[..i];
  }

  /** The save loop: `for (const eventData of events) { ... }`. */
  method SaveEvents(store: Store, events: seq<EventRecord>)
    modifies store
    ensures store.records == Ingested(old(store.records), events)
    ensures store.queries == old(store.queries) + Lookups(events)
  {
    var i := 0;
    assert events[..0] == [];
    assert store.records == Ingested(old(store.records), events[..0]);
    assert store.queries == old(store.queries) + Lookups(events[..0]);
    while i < |events|
      invariant 0 <= i <= |events|
      invariant store.records == Ingested(old(store.records), events[..i])
      invariant store.queries == old(store.queries) + Lookups(events[..i])
    {
      var eventData := events[i];
      ghost var done, doneLookups := store.records, store.queries;
      PrefixStep(old(store.records), events, i);
      if eventData.title != TitleNotFound {
        var existing := store.FindOne(eventData.sourceUrl);
        if existing.None? {
          store.Create(Saved(eventData));
        }
      }
      assert store.records == Ingested(old(store.records), events[..i + 1]);
      if eventData.title != TitleNotFound {
        var u := [eventData.sourceUrl];
        assert store.queries == doneLookups + u;
        assert (old(store.queries) + Lookups(events[..i])) + u == old(store.queries) + (Lookups(events[..i]) + u);
      }
      assert store.queries == old(store.queries) + Lookups(events[..i + 1]);
      i := i + 1;
    }
    assert events[..|events|] == events;
  }

  /** `scrapeEvents` on an already rendered page: extract the records, then save them. */
  method ScrapeEvents(store: Store, page: seq<Element>)
    modifies store
    ensures store.records == Ingested(old(store.records), ScrapePage(page))
    ensures store.queries == old(store.queries) + Lookups(ScrapePage(page))
  {
    var events := ScrapePage(page);
    SaveEvents(store, events);
  }

  /** Saving only appends: the old records stay in place, and every appended record is a batch
      record with a genuine title, restamped `new`, whose `sourceUrl` was not stored before. */
  lemma {:induction false} IngestedAppendsOnly(records: seq<EventRecord>, events: seq<EventRecord>)
    ensures var r := Ingested(records, events);
      |records| <= |r| && r[..|records|] == records &&
      forall k :: |records| <= k < |r| ==>
        r[k].title != TitleNotFound && r[k].status == StatusNew && !Stored(records, r[k].sourceUrl) &&
        exists e :: e in events && r[k] == Saved(e)
    decreases |events|
  {
    if events != [] {
      var front := events[..|events| - 1];
      var last := events[|events| - 1];
      IngestedAppendsOnly(records, front);
      var mid := Ingested(records, front);
      var r := Ingested(records, events);
      assert r == SaveStep(mid, last);
      assert forall e :: e in front ==> e in events;
      if r != mid {
        assert r == mid + [Saved(last)];
        assert !Stored(mid, last.sourceUrl);
        forall i | 0 <= i < |records|
          ensures records[i].sourceUrl != last.sourceUrl
        {
          assert mid[i] == records[i];
        }
      }
    }
  }

  /** A store without sentinel titles has none after saving. */
  lemma NoSentinelStored(records: seq<EventRecord>, events: seq<EventRecord>)
    requires forall i :: 0 <= i < |records| ==> records[i].title != TitleNotFound
    ensures var r := Ingested(records, events);
      forall i :: 0 <= i < |r| ==> r[i].title != TitleNotFound
  {
    IngestedAppendsOnly(records, events);
    var r := Ingested(records, events);
    forall i | 0 <= i < |r|
      ensures r[i].title != TitleNotFound
    {
      if i < |records| {
        assert r[i] == r[..|records|][i];
      }
    }
  }

  /** Saving keeps `sourceUrl`s pairwise distinct. */
  lemma {:induction false} UniquenessPreserved(records: seq<EventRecord>, events: seq<EventRecord>)
    requires UniqueSourceUrls(records)
    ensures UniqueSourceUrls(Ingested(records, events))
    decreases |events|
  {
    if events != [] {
      var front := events[..|events| - 1];
      var last := events[|events| - 1];
      UniquenessPreserved(records, front);
      var mid := Ingested(records, front);
      if SaveStep(mid, last) != mid {
        assert !Stored(mid, last.sourceUrl);
        var r := mid + [Saved(last)];
        forall i, j | 0 <= i < j < |r|
          ensures r[i].sourceUrl != r[j].sourceUrl
        {
          if j == |mid| {
            assert r[i] == mid[i];
          }
        }
      }
    }
  }

  /** A `sourceUrl` stored before saving is still stored after it. */
  lemma StoredKept(records: seq<EventRecord>, events: seq<EventRecord>, url: string)
    requires Stored(records, url)
    ensures Stored(Ingested(records, events), url)
  {
    IngestedAppendsOnly(records, events);
    var r := Ingested(records, events);
    var i :| 0 <= i < |records| && records[i].sourceUrl == url;
    assert r[i] == r[..|records|][i];
  }

  /** After saving, the `sourceUrl` of every batch record with a genuine title is stored. */
  lemma {:induction false} SavedUrlsStored(records: seq<EventRecord>, events: seq<EventRecord>)
    ensures forall i :: 0 <= i < |events| && events[i].title != TitleNotFound ==>
      Stored(Ingested(records, events), events[i].sourceUrl)
    decreases |events|
  {
    if events != [] {
      var front := events[..|events| - 1];
      var last := events[|events| - 1];
      SavedUrlsStored(records, front);
      var mid := Ingested(records, front);
      var r := Ingested(records, events);
      forall i | 0 <= i < |events| && events[i].title != TitleNotFound
        ensures Stored(r, events[i].sourceUrl)
      {
        assert r == SaveStep(mid, last);
        if i < |front| {
          assert front[i] == events[i];
          var j :| 0 <= j < |mid| && mid[j].sourceUrl == events[i].sourceUrl;
          assert r[j] == mid[j];
        } else if r != mid {
          assert r[|mid|] == Saved(last);
        } else {
          assert FindBySourceUrl(mid, last.sourceUrl).Some?;
        }
      }
    }
  }

  /** A batch whose every genuine-title `sourceUrl` is already stored leaves the store as it is. */
  lemma {:induction false} IngestedUnchanged(records: seq<EventRecord>, events: seq<EventRecord>)
    requires forall i :: 0 <= i < |events| && events[i].title != TitleNotFound ==>
      Stored(records, events[i].sourceUrl)
    ensures Ingested(records, events) == records
    decreases |events|
  {
    if events != [] {
      var front := events[..|events| - 1];
      forall i | 0 <= i < |front| && front[i].title != TitleNotFound
        ensures Stored(records, front[i].sourceUrl)
      {
        assert front[i] == events[i];
      }
      IngestedUnchanged(records, front);
    }
  }

  /** Saving the same batch a second time creates nothing. */
  lemma IngestedIdempotent(records: seq<EventRecord>, events: seq<EventRecord>)
    ensures Ingested(Ingested(records, events), events) == Ingested(records, events)
  {
    SavedUrlsStored(records, events);
    IngestedUnchanged(Ingested(records, events), events);
  }

  /** The lookup is an exact match, so of two genuine-title records with the same `sourceUrl`
      (the empty one included) only the first is stored. */
  lemma SameUrlSavedOnce(a: EventRecord, b: EventRecord)
    requires a.title != TitleNotFound && b.title != TitleNotFound && a.sourceUrl == b.sourceUrl
    ensures Ingested([], [a, b]) == [Saved(a)]
  {
    assert [a, b][..1] == [a] && [a][..0] == [];
    assert Ingested([], [a]) == [Saved(a)];
    assert FindBySourceUrl([Saved(a)], b.sourceUrl) == Some(0);
  }

  /** A batch of one record is saved exactly when the loop body saves it. */
  lemma IngestedSingle(stored: seq<EventRecord>, e: EventRecord)
    ensures Ingested(stored, [e]) ==
      if e.title == TitleNotFound || Stored(stored, e.sourceUrl) then stored else stored + [Saved(e)]
  {
    assert [e][..0] == [];
  }

  /** Saving the one-card page into an empty store creates the page's record, unless its heading
      trims to the sentinel, in which case nothing is saved. */
  lemma OneCardPageIntoEmptyStore(title: string, date: string, image: string, link: string)
    ensures var rec := EventRecord(Trim(title), Trim(date), Venue, image, link, City, StatusNew);
      Ingested([], ScrapePage(OneCardPage(title, date, image, link))) ==
        if Trim(title) == TitleNotFound then [] else [rec]
  {
    var rec := EventRecord(Trim(title), Trim(date), Venue, image, link, City, StatusNew);
    var events := ScrapePage(OneCardPage(title, date, image, link));
    assert events == [rec] by {
      OneCardPageScraped(title, date, image, link);
    }
    assert Saved(rec) == rec;
    IngestedSingle([], rec);
  }

  /** Saving the one-card page into a store that already holds the link's URL creates nothing. */
  lemma OneCardPageAlreadyStored(stored: seq<EventRecord>, title: string, date: string, image: string, link: string)
    requires Stored(stored, link)
    ensures Ingested(stored, ScrapePage(OneCardPage(title, date, image, link))) == stored
  {
    var rec := EventRecord(Trim(title), Trim(date), Venue, image, link, City, StatusNew);
    var events := ScrapePage(OneCardPage(title, date, image, link));
    assert events == [rec] by {
      OneCardPageScraped(title, date, image, link);
    }
    IngestedSingle(stored, rec);
  }
}
