/** The rendered page as an explicit value: elements, the simple selectors the scraper uses,
    and `querySelector`. Tag names are taken to be lower case, as HTML parsers report them. */
module Dom {
  import opened Wrappers

  /** A simple CSS selector: a type selector (`h3`) or a class selector (`.title`). */
  datatype Selector = Tag(name: string) | Class(name: string)

  /** One element as the scraper sees it: its tag, its class list, its rendered `innerText`,
      and its `src` and `href` properties, already resolved to absolute URLs by the browser
      (empty when the element has no such attribute). */
  datatype Node = Node(tag: string, classes: set<string>, innerText: string, src: string, href: string)

  /** An element together with the elements inside it, in document order. */
  datatype Element = Element(node: Node, descendants: seq<Node>)

  predicate Matches(n: Node, sel: Selector) {
    match sel
    case Tag(t) => n.tag == t
    case Class(c) => c in n.classes
  }

  /** A selector list such as `.a, b, .c` matches an element that any of its entries matches. */
  predicate MatchesAny(n: Node, sels: seq<Selector>) {
    exists k :: 0 <= k < |sels| && Matches(n, sels[k])
  }

  /** The position of the first node, in document order, that the selector matches. */
  function FirstMatch(nodes: seq<Node>, sel: Selector): (r: Option<nat>)
    ensures r.Some? ==> r.value < |nodes| && Matches(nodes[r.value], sel)
    ensures r.Some? ==> forall j :: 0 <= j < r.value ==> !Matches(nodes[j], sel)
    ensures r.None? ==> forall j :: 0 <= j < |nodes| ==> !Matches(nodes[j], sel)
  {
    if nodes == [] then None
    else if Matches(nodes[0], sel) then Some(0)
    else
      match FirstMatch(nodes[1..], sel)
      case None => None
      case Some(i) => Some(i + 1)
  }

  /** `element.querySelector(sel)`: the first descendant the selector matches, `None` standing
      for `null`. The element itself is not a candidate. */
  function QuerySelector(e: Element, sel: Selector): (r: Option<Node>)
    ensures r.Some? <==> exists i :: 0 <= i < |e.descendants| && Matches(e.descendants[i], sel)
    ensures r.Some? ==> Matches(r.value, sel)
    ensures r.Some? ==>
      (exists i :: 0 <= i < |e.descendants| && e.descendants[i] == r.value &&
         forall j :: 0 <= j < i ==> !Matches(e.descendants[j], sel))
  {
    match FirstMatch(e.descendants, sel)
    case None => None
    case Some(i) => Some(e.descendants[i])
  }

  /** A match anywhere in front of every other match is the one `querySelector` returns. */
  lemma QuerySelectorFirst(e: Element, sel: Selector, i: nat)
    requires i < |e.descendants| && Matches(e.descendants[i], sel)
    requires forall j :: 0 <= j < i ==> !Matches(e.descendants[j], sel)
    ensures QuerySelector(e, sel) == Some(e.descendants[i])
  {
    var r := FirstMatch(e.descendants, sel);
    assert r.Some? && r.value == i;
  }
}
