/** The browser-side half of the scraper: locating the event cards on the page and turning each
    card into an event record through fixed-priority selector cascades. */
module Extract {
  import opened Wrappers
  import opened Dom
  import opened Text

  const TitleNotFound: string := "Title Not Found"
  const DateTBA: string := "Date TBA"
  const Venue: string := "Sydney, Australia"
  const City: string := "Sydney"
  const StatusNew: string := "new"

  /** `.item-list-item, article, .card` */
  const CardSelectors: seq<Selector> := [Class("item-list-item"), Tag("article"), Class("card")]
  /** `h3`, then `h2`, then `.title` */
  const TitleCascade: seq<Selector> := [Tag("h3"), Tag("h2"), Class("title")]
  /** `time`, then `.date`, then `p` */
  const DateCascade: seq<Selector> := [Tag("time"), Class("date"), Tag("p")]
  const Img: Selector := Tag("img")
  const Link: Selector := Tag("a")

  /** The object literal built for each card; `status` is a free string, as in the store. */
  datatype EventRecord = EventRecord(
    title: string,
    date: string,
    venue: string,
    imageUrl: string,
    sourceUrl: string,
    city: string,
    status: string)

  /** The selector list `.item-list-item, article, .card`: an element is a card exactly when it
      has class `item-list-item`, is an `article`, or has class `card`. */
  predicate IsCard(e: Element): (b: bool)
    ensures b <==> "item-list-item" in e.node.classes || e.node.tag == "article" || "card" in e.node.classes
  {
    assert Matches(e.node, CardSelectors[0]) <==> "item-list-item" in e.node.classes;
    assert Matches(e.node, CardSelectors[1]) <==> e.node.tag == "article";
    assert Matches(e.node, CardSelectors[2]) <==> "card" in e.node.classes;
    MatchesAny(e.node, CardSelectors)
  }

  /** `document.querySelectorAll('.item-list-item, article, .card')`: the page's elements that
      match the selector list, in document order, each once. */
  function LocateCards(page: seq<Element>): (cards: seq<Element>)
    ensures |cards| <= |page|
    ensures forall c :: c in cards ==> c in page && IsCard(c)
    ensures forall e :: e in page && IsCard(e) ==> e in cards
  {
    if page == [] then []
    else (if IsCard(page[0]) then [page[0]] else []) + LocateCards(page[1..])
  }

  /** The locator keeps document order: the cards of two consecutive stretches of the page are
      the cards of the first stretch followed by those of the second. */
  lemma {:induction false} LocateCardsAppend(a: seq<Element>, b: seq<Element>)
    ensures LocateCards(a + b) == LocateCards(a) + LocateCards(b)
  {
    if a == [] {
      assert a + b == b;
    } else {
      assert (a + b)[1..] == a[1..] + b;
      LocateCardsAppend(a[1..], b);
    }
  }

  /** A page whose elements are all cards is returned whole, and a page with no card (the empty
      page among them) gives no cards. */
  lemma {:induction false} LocateCardsExtremes(page: seq<Element>)
    ensures (forall i :: 0 <= i < |page| ==> IsCard(page[i])) ==> LocateCards(page) == page
    ensures (forall i :: 0 <= i < |page| ==> !IsCard(page[i])) ==> LocateCards(page) == []
  {
    if page != [] {
      LocateCardsExtremes(page[1..]);
    }
  }

  /** `a || b || c` on query results: the first result that is present, whatever the text of
      the element it holds. */
  function FirstSome(results: seq<Option<Node>>): (r: Option<Node>)
    ensures r.None? <==> forall k :: 0 <= k < |results| ==> results[k].None?
    ensures r.Some? ==>
      (exists k :: 0 <= k < |results| && results[k] == r && forall j :: 0 <= j < k ==> results[j].None?)
  {
    if results == [] then None
    else if results[0].Some? then results[0]
    else
      var r := FirstSome(results[1..]);
      assert forall k :: 1 <= k < |results| ==> results[k] == results[1..][k - 1];
      r
  }

  /** `card.querySelector(sel)` for each selector of a cascade, in cascade order. */
  function Queries(card: Element, cascade: seq<Selector>): (results: seq<Option<Node>>)
    ensures |results| == |cascade|
    ensures forall k :: 0 <= k < |cascade| ==> results[k] == QuerySelector(card, cascade[k])
  {
    seq(|cascade|, k requires 0 <= k < |cascade| => QuerySelector(card, cascade[k]))
  }

  /** A three-selector cascade is the chain `q(a) || q(b) || q(c)`. */
  lemma FirstSomeOfThree(card: Element, a: Selector, b: Selector, c: Selector)
    ensures FirstSome(Queries(card, [a, b, c])) ==
      if QuerySelector(card, a).Some? then QuerySelector(card, a)
      else if QuerySelector(card, b).Some? then QuerySelector(card, b)
      else QuerySelector(card, c)
  {
    var qa, qb, qc := QuerySelector(card, a), QuerySelector(card, b), QuerySelector(card, c);
    assert Queries(card, [a, b, c]) == [qa, qb, qc];
    assert [qa, qb, qc][1..] == [qb, qc] && [qb, qc][1..] == [qc] && [qc][1..] == [];
    assert FirstSome([qc]) == qc;
  }

  /** `el ? el.innerText.trim() : fallback` */
  function TextOr(el: Option<Node>, fallback: string): (r: string)
    ensures el.None? ==> r == fallback
    ensures el.Some? ==> |r| <= |el.value.innerText|
    ensures el.Some? ==> (r == [] <==> AllWhitespace(el.value.innerText))
    ensures el.Some? && r != [] ==> !IsWhitespace(r[0]) && !IsWhitespace(r[|r| - 1])
  {
    TrimBlank(if el.Some? then el.value.innerText else fallback);
    match el
    case Some(n) => Trim(n.innerText)
    case None => fallback
  }

  /** The record built for one card by the `cards.map` callback. */
  function ExtractRecord(card: Element): (r: EventRecord)
    ensures r.venue == Venue && r.city == City && r.status == StatusNew
  {
    var titleEl := FirstSome(Queries(card, TitleCascade));
    var dateEl := FirstSome(Queries(card, DateCascade));
    var imgEl := QuerySelector(card, Img);
    var linkEl := QuerySelector(card, Link);
    EventRecord(
      title := TextOr(titleEl, TitleNotFound),
      date := TextOr(dateEl, DateTBA),
      venue := Venue,
      imageUrl := if imgEl.Some? then imgEl.value.src else "",
      sourceUrl := if linkEl.Some? then linkEl.value.href else "",
      city := City,
      status := StatusNew)
  }

  /** The title cascade written out as the source's chain: the trimmed text of the first `h3`,
      else of the first `h2`, else of the first `.title`, else the sentinel. */
  lemma ExtractTitle(card: Element)
    ensures ExtractRecord(card).title ==
      if QuerySelector(card, Tag("h3")).Some? then Trim(QuerySelector(card, Tag("h3")).value.innerText)
      else if QuerySelector(card, Tag("h2")).Some? then Trim(QuerySelector(card, Tag("h2")).value.innerText)
      else if QuerySelector(card, Class("title")).Some? then Trim(QuerySelector(card, Class("title")).value.innerText)
      else TitleNotFound
  {
    FirstSomeOfThree(card, Tag("h3"), Tag("h2"), Class("title"));
  }

  /** The date cascade written out: the trimmed text of the first `time`, else of the first
      `.date`, else of the first `p`, else `Date TBA`. */
  lemma ExtractDate(card: Element)
    ensures ExtractRecord(card).date ==
      if QuerySelector(card, Tag("time")).Some? then Trim(QuerySelector(card, Tag("time")).value.innerText)
      else if QuerySelector(card, Class("date")).Some? then Trim(QuerySelector(card, Class("date")).value.innerText)
      else if QuerySelector(card, Tag("p")).Some? then Trim(QuerySelector(card, Tag("p")).value.innerText)
      else DateTBA
  {
    FirstSomeOfThree(card, Tag("time"), Class("date"), Tag("p"));
  }

  /** `imageUrl` is the `src` of the card's first `img` and `sourceUrl` the `href` of its first
      `a`, each the empty string when the card has no such element. */
  lemma ExtractImageAndLink(card: Element)
    ensures var ds := card.descendants; var r := ExtractRecord(card);
      ((forall j :: 0 <= j < |ds| ==> ds[j].tag != "img") ==> r.imageUrl == "") &&
      ((forall j :: 0 <= j < |ds| ==> ds[j].tag != "a") ==> r.sourceUrl == "")
    ensures var ds := card.descendants; var r := ExtractRecord(card);
      forall i :: 0 <= i < |ds| && ds[i].tag == "img" && (forall j :: 0 <= j < i ==> ds[j].tag != "img") ==>
        r.imageUrl == ds[i].src
    ensures var ds := card.descendants; var r := ExtractRecord(card);
      forall i :: 0 <= i < |ds| && ds[i].tag == "a" && (forall j :: 0 <= j < i ==> ds[j].tag != "a") ==>
        r.sourceUrl == ds[i].href
  {
    var ds := card.descendants;
    forall i | 0 <= i < |ds| && ds[i].tag == "img" && (forall j :: 0 <= j < i ==> ds[j].tag != "img")
      ensures ExtractRecord(card).imageUrl == ds[i].src
    {
      QuerySelectorFirst(card, Img, i);
    }
    forall i | 0 <= i < |ds| && ds[i].tag == "a" && (forall j :: 0 <= j < i ==> ds[j].tag != "a")
      ensures ExtractRecord(card).sourceUrl == ds[i].href
    {
      QuerySelectorFirst(card, Link, i);
    }
  }

  /** The title sentinel appears exactly when no descendant of the card is an `h3`, an `h2` or of
      class `title`, unless the chosen element's own text trims to "Title Not Found". */
  lemma TitleSentinelByAbsence(card: Element)
    ensures (forall i :: 0 <= i < |card.descendants| ==> !MatchesAny(card.descendants[i], TitleCascade))
      ==> ExtractRecord(card).title == TitleNotFound
    ensures (exists i :: 0 <= i < |card.descendants| && MatchesAny(card.descendants[i], TitleCascade))
      ==> exists i :: 0 <= i < |card.descendants| && MatchesAny(card.descendants[i], TitleCascade) &&
            ExtractRecord(card).title == Trim(card.descendants[i].innerText)
  {
    var ds := card.descendants;
    var el := FirstSome(Queries(card, TitleCascade));
    var results := Queries(card, TitleCascade);
    if el.None? {
      forall i, k | 0 <= i < |ds| && 0 <= k < |TitleCascade|
        ensures !Matches(ds[i], TitleCascade[k])
      {
        assert results[k].None?;
      }
    } else {
      var k :| 0 <= k < |results| && results[k] == el;
      assert QuerySelector(card, TitleCascade[k]) == el;
      var i :| 0 <= i < |ds| && ds[i] == el.value &&
        forall j :: 0 <= j < i ==> !Matches(ds[j], TitleCascade[k]);
      assert Matches(ds[i], TitleCascade[k]);
      assert MatchesAny(ds[i], TitleCascade);
    }
  }

  /** The cascade falls back on absence, not on empty text: an `h3` whose text is all whitespace
      wins over any `h2`, and the title is then the empty string, which is not the sentinel. */
  lemma BlankHeadingStillWins(card: Element, h3: Node)
    requires QuerySelector(card, Tag("h3")) == Some(h3) && AllWhitespace(h3.innerText)
    ensures ExtractRecord(card).title == "" != TitleNotFound
  {
    ExtractTitle(card);
    TrimBlank(h3.innerText);
  }

  /** `cards.map(...)`: one record per card, in card order. */
  function ExtractAll(cards: seq<Element>): (events: seq<EventRecord>)
    ensures |events| == |cards|
    ensures forall i :: 0 <= i < |cards| ==> events[i] == ExtractRecord(cards[i])
  {
    if cards == [] then [] else [ExtractRecord(cards[0])] + ExtractAll(cards[1..])
  }

  /** The value `page.evaluate` hands back: the records of the page's cards. */
  function ScrapePage(page: seq<Element>): (events: seq<EventRecord>)
    ensures |events| == |LocateCards(page)|
    ensures forall i :: 0 <= i < |events| ==>
      events[i].venue == Venue && events[i].city == City && events[i].status == StatusNew
  {
    ExtractAll(LocateCards(page))
  }

  /** A page holding one `article` card with a heading, a time, an image and a link. */
  function OneCardPage(title: string, date: string, image: string, link: string): seq<Element> {
    [Element(Node("article", {}, "", "", ""), [
      Node("h3", {}, title, "", ""),
      Node("time", {}, date, "", ""),
      Node("img", {}, "", image, ""),
      Node("a", {}, "link", "", link)])]
  }

  lemma OneCardQueries(card: Element, title: string, date: string, image: string, link: string)
    requires card == OneCardPage(title, date, image, link)[0]
    ensures QuerySelector(card, Tag("h3")) == Some(card.descendants[0])
    ensures QuerySelector(card, Tag("time")) == Some(card.descendants[1])
    ensures QuerySelector(card, Img) == Some(card.descendants[2])
    ensures QuerySelector(card, Link) == Some(card.descendants[3])
  {
    QuerySelectorFirst(card, Tag("h3"), 0);
    QuerySelectorFirst(card, Tag("time"), 1);
    QuerySelectorFirst(card, Img, 2);
    QuerySelectorFirst(card, Link, 3);
  }

  /** The one-card page yields exactly one record: the trimmed heading and time texts, the
      image's `src`, the link's `href`, and the fixed venue, city and status. */
  lemma OneCardPageScraped(title: string, date: string, image: string, link: string)
    ensures ScrapePage(OneCardPage(title, date, image, link)) ==
      [EventRecord(Trim(title), Trim(date), Venue, image, link, City, StatusNew)]
  {
    var card := OneCardPage(title, date, image, link)[0];
    assert LocateCards(OneCardPage(title, date, image, link)) == [card];
    OneCardQueries(card, title, date, image, link);
    ExtractTitle(card);
    ExtractDate(card);
  }
}
