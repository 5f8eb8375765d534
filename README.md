# Sydney events scraper: extraction and ingestion model

This project models the core of `scrapeEvents` in `server/scraper.js`. The scraper opens the
Sydney events listing in a browser, picks out the elements that look like event cards, builds
one event record per card through fixed-priority selector cascades, and saves each record whose
title is not the sentinel "Title Not Found" unless a record with the same `sourceUrl` is already stored.

The browser and the database are abstracted away:

- The rendered page is an explicit value: a sequence of elements in document order. Each element
  carries its own descendants, also in document order (`Dom.Element`). Each node has a tag, a class
  set, its rendered `innerText`, and its `src` and `href` already resolved by the browser.
- `card.querySelector(sel)` is the first descendant the selector matches (`Dom.QuerySelector`).
- `innerText.trim()` strips the characters ECMAScript counts as white space or line terminators
  (`Text.Trim`).
- The `Event` collection is a class holding the stored records in insertion order
  (`Ingest.Store`). `findOne({ sourceUrl })` is an exact-equality search. `create` appends. A ghost
  log of the URLs the store was queried for lets the save loop's contract say which records cause
  a lookup.

Modules:

- `Wrappers` (wrappers.dfy): `Option`, standing for JavaScript's `null`.
- `Text` (text.dfy): trimming.
- `Dom` (dom.dfy): selectors, elements, `querySelector`.
- `Extract` (extract.dfy): the card locator, the field cascades and the record built per card.
- `Ingest` (ingest.dfy): the store and the save loop. `Ingested` is the specification function
  for the loop: the store's contents after processing a batch in order. The lemmas about it state
  the ingestion guarantees.

Behaviour of the code that the model keeps:

- `querySelectorAll` with a selector list returns each matching element once, in document order.
  `LocateCards` is therefore a filter. An element matching several of the selectors is not repeated.
- The lookup is an exact match, and the loop is sequential. A record with an empty `sourceUrl` is
  therefore deduplicated like any other: once one is stored, later ones are skipped
  (`SameUrlSavedOnce`).
- The code returns no `{attempted, created, skipped}` report, so none is modelled. The number
  created is the growth of the store.

## Model

| member | source | states |
|---|---|---|
| Text.TrimStart | server/scraper.js:34 | the result is the suffix of the text that starts at its first non-whitespace character; everything dropped is whitespace |
| Text.TrimEnd | server/scraper.js:34 | the result is the prefix of the text that ends at its last non-whitespace character; everything dropped is whitespace |
| Text.Trim | server/scraper.js:34-35 | the trimmed text is no longer than the input and neither starts nor ends with whitespace |
| Text.TrimBlank | server/scraper.js:34-35 | trimming gives the empty string exactly when the text is all whitespace |
| Text.TrimIsInfix | server/scraper.js:34-35 | the trimmed text occurs in the input at the first non-whitespace offset, with only whitespace before and after it |
| Text.TrimTrimmed | server/scraper.js:34-35 | text without whitespace at either end is returned unchanged |
| Text.TrimIdempotent | server/scraper.js:34-35 | trimming twice equals trimming once |
| Dom.FirstMatch | server/scraper.js:22-31 | returns the index of the first node the selector matches, with no match before it, or None when no node matches |
| Dom.QuerySelector | server/scraper.js:22-31 | returns a descendant exactly when some descendant matches; the result matches and no earlier descendant does |
| Dom.QuerySelectorFirst | server/scraper.js:22-31 | a match with no earlier match is what querySelector returns |
| Extract.LocateCards | server/scraper.js:16 | the result keeps exactly the page's elements that match the card selector list, and is no longer than the page |
| Extract.IsCard | server/scraper.js:16 | an element is a card iff it has class item-list-item, is an article, or has class card |
| Extract.LocateCardsAppend | server/scraper.js:16 | the locator preserves document order: the cards of a + b are those of a followed by those of b |
| Extract.LocateCardsExtremes | server/scraper.js:16 | a page of cards is returned whole; a page with no card, the empty page included, gives no cards |
| Extract.FirstSome | server/scraper.js:22-25 | the cascade yields None iff every query result is null; otherwise it yields the first present result, chosen by existence and not by text |
| Extract.Queries | server/scraper.js:22-25 | one query result per selector of the cascade, in cascade order, each the card's querySelector for that selector |
| Extract.FirstSomeOfThree | server/scraper.js:22-25 | a three-selector cascade equals the chain: the first of a, b, c that has a matching descendant decides |
| Extract.TextOr | server/scraper.js:34-35 | a missing element gives the fallback; a present one gives its trimmed text, which is empty iff the text is all whitespace and otherwise has no whitespace at either end |
| Extract.ExtractRecord | server/scraper.js:33-41 | every record has venue "Sydney, Australia", city "Sydney" and status "new" |
| Extract.ExtractTitle | server/scraper.js:22-34 | title is the trimmed text of the first h3, else of the first h2, else of the first .title, else "Title Not Found" |
| Extract.ExtractDate | server/scraper.js:25-35 | date is the trimmed text of the first time, else of the first .date, else of the first p, else "Date TBA" |
| Extract.ExtractImageAndLink | server/scraper.js:28-38 | imageUrl is the first img's src and sourceUrl the first a's href, each "" when the card has no such element |
| Extract.TitleSentinelByAbsence | server/scraper.js:22-34 | a card with no h3, h2 or .title descendant gets "Title Not Found"; otherwise the title is the trimmed text of a descendant matching one of them |
| Extract.BlankHeadingStillWins | server/scraper.js:22-34 | an h3 whose text is all whitespace still wins over any h2, giving title "", which is not the sentinel |
| Extract.ExtractAll | server/scraper.js:18-42 | exactly one record per card, in card order, each the record of its card |
| Extract.ScrapePage | server/scraper.js:13-43 | one record per located card, each with the fixed venue, city and status |
| Extract.OneCardQueries | server/scraper.js:22-31 | on a card holding an h3, a time, an img and an a, each query returns that element |
| Extract.OneCardPageScraped | server/scraper.js:16-42 | a page with one article card holding an h3, a time, an img and an a yields exactly one record with their trimmed texts, src and href and the fixed fields |
| Ingest.FindBySourceUrl | server/scraper.js:53 | returns the first stored record with exactly that sourceUrl, or None exactly when no stored record has it |
| Ingest.Lookups | server/scraper.js:52-53 | every URL looked up belongs to a batch record with a genuine title; a batch of sentinel titles causes no lookup |
| Ingest.LookupsAppend | server/scraper.js:50-53 | the lookups of a + b are those of a followed by those of b |
| Ingest.LookupsSingle | server/scraper.js:52-53 | a single record is looked up once, by its sourceUrl, when its title is genuine, and not at all when it is the sentinel |
| Ingest.LookupsCoverGenuine | server/scraper.js:52-53 | every genuine-title record's sourceUrl is looked up |
| Ingest.LookupsSkipSentinel | server/scraper.js:52-53 | a sentinel record anywhere in a batch causes no lookup: removing it leaves the lookups unchanged |
| Ingest.Saved | server/scraper.js:55 | every field of the record is copied and the status is set to "new" |
| Ingest.SaveStep | server/scraper.js:52-56 | one loop pass leaves the store unchanged or appends the restamped record, and appends exactly when the title is genuine and the sourceUrl unstored |
| Ingest.Ingested | server/scraper.js:50-58 | the store after the loop: at least the old records' count and at most one new record per batch record |
| Ingest.PrefixStep | server/scraper.js:50-58 | processing one more batch record is one loop pass, and adds its lookup exactly when its title is genuine |
| Ingest.Store.FindOne | server/scraper.js:53 | logs the query, leaves the records alone, and returns a stored record with that sourceUrl iff one exists |
| Ingest.Store.Create | server/scraper.js:55 | appends the record to the store |
| Ingest.SaveEvents | server/scraper.js:50-58 | the store afterwards is the specification `Ingested` of the old store and the batch; the lookups made are exactly `Lookups` of the batch |
| Ingest.ScrapeEvents | server/scraper.js:13-58 | saving the records extracted from the page leaves the store as `Ingested` of the old store and those records |
| Ingest.IngestedAppendsOnly | server/scraper.js:50-58 | old records stay in place; each appended record is a batch record with a genuine title, restamped "new", whose sourceUrl was not stored before |
| Ingest.NoSentinelStored | server/scraper.js:52 | a store without sentinel titles has none after saving |
| Ingest.UniquenessPreserved | server/scraper.js:50-58 | pairwise distinct sourceUrls stay pairwise distinct |
| Ingest.StoredKept | server/scraper.js:53-55 | a sourceUrl stored before saving is stored after it |
| Ingest.SavedUrlsStored | server/scraper.js:50-58 | after saving, the sourceUrl of every genuine-title batch record is stored |
| Ingest.IngestedUnchanged | server/scraper.js:53-54 | a batch whose genuine-title URLs are all stored leaves the store unchanged |
| Ingest.IngestedIdempotent | server/scraper.js:50-58 | saving the same batch a second time appends nothing |
| Ingest.SameUrlSavedOnce | server/scraper.js:53-56 | saved into an empty store, of two genuine-title records with the same sourceUrl, the empty one included, only the first is stored |
| Ingest.IngestedSingle | server/scraper.js:52-56 | a one-record batch is stored, restamped "new", exactly when its title is genuine and its sourceUrl not yet stored; otherwise the store is unchanged |
| Ingest.OneCardPageIntoEmptyStore | server/scraper.js:16-58 | the one-card page saved into an empty store creates its record, unless the heading trims to the sentinel |
| Ingest.OneCardPageAlreadyStored | server/scraper.js:16-58 | the one-card page saved into a store that already holds its link creates nothing |

## Left out

- Browser launch, navigation with `networkidle2`, `page.evaluate` marshalling and closing the browser (server/scraper.js:7-13,47): the rendered page is a parameter instead.
- How the browser computes `innerText` and resolves `src` and `href` to absolute URLs: these are opaque strings on each node.
- HTML tag-name case folding: tag names are taken as lower case, as the HTML parser reports them.
- Selectors other than a single tag or a single class: the scraper uses no others.
- Mongoose connection, schema casting and validation in `Event.findOne` and `Event.create`: the store is an in-memory sequence with exact-match lookup.
- Store failures: the code does not handle exceptions from `findOne` or `create`. An exception would abort the rest of the loop, and records created before it would stay. The model has no failing store.
- `console.log` output (server/scraper.js:5,45,59) and the async sequencing, which the loop awaits step by step and so behaves as sequential code.
