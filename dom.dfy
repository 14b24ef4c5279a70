/** The rendered page as `document.querySelector` sees it: its elements in document order. What
    a CSS selector matches is not modelled; each element carries the set of selectors it matches
    and the `innerText` the browser computed for it. */
module Dom {
  import opened Wrappers

  datatype Element = Element(matches: set<string>, innerText: string)

  /** The elements of the page in document (pre-order) order. */
  type Document = seq<Element>

  /** `document.querySelector(selector)`: the position of the first element in document order
      that matches, or None when no element does. */
  function QuerySelector(doc: Document, selector: string): (r: Option<nat>)
    ensures r.Some? ==> r.value < |doc|
  {
    if doc == [] then None
    else if selector in doc[0].matches then Some(0)
    else match QuerySelector(doc[1..], selector)
      case None => None
      case Some(i) => Some(i + 1)
  }

  /** The element found is the first match in document order, and nothing is found exactly when
      no element matches. */
  lemma {:induction false} QuerySelectorFirst(doc: Document, selector: string)
    ensures var r := QuerySelector(doc, selector);
      && (r.Some? ==> selector in doc[r.value].matches)
      && (r.Some? ==> forall j :: 0 <= j < r.value ==> selector !in doc[j].matches)
      && (r.None? <==> forall j :: 0 <= j < |doc| ==> selector !in doc[j].matches)
  {
    if doc != [] && selector !in doc[0].matches {
      QuerySelectorFirst(doc[1..], selector);
      assert forall j :: 0 < j < |doc| ==> doc[j] == doc[1..][j - 1];
    }
  }

  /** The `innerText` of the element `document.querySelector(selector)` returns. */
  function FirstMatchText(doc: Document, selector: string): Option<string>
  {
    match QuerySelector(doc, selector)
    case None => None
    case Some(i) => Some(doc[i].innerText)
  }
}
