/**
 * scraper/jobs_getter/elements_query/get_XPATH_text.py: an earlier copy
 * of the search objects and of `get_XPATH_values`. It has its own class
 * and its own loop, and behaves exactly as the copy in
 * scraper/jobs_to_csv/elements_query/XPATH_text_getter.py.
 */
module JobsGetterXpath {
  import opened Wrappers
  import opened PyValues
  import opened Dom
  import XpathTextGetter

  /** `XpathSearch`, and `XpathListSearch` when `listSearch` holds. */
  class XpathSearch {
    var value: Value
    const element: string
    const listSearch: bool

    /** `XpathSearch(element)` */
    constructor Single(element: string)
      ensures this.value == NA && this.element == element && !this.listSearch
    {
      this.value := NA;
      this.element := element;
      this.listSearch := false;
    }

    /** `XpathListSearch(element)` */
    constructor ListSearch(element: string)
      ensures this.value == NA && this.element == element && this.listSearch
    {
      this.value := NA;
      this.element := element;
      this.listSearch := true;
    }
  }

  /** `_get_all_texts(elements)` */
  method GetAllTexts(p: Page, elements: seq<Node>) returns (texts: seq<string>)
    ensures texts == Texts(p, elements)
  {
    texts := [];
    for i := 0 to |elements|
      invariant texts == Texts(p, elements[..i])
    {
      TextsStep(p, elements, i);
      texts := texts + [TextOf(p, elements[i])];
    }
    assert elements[..|elements|] == elements;
  }

  /** `get_XPATH_values(source_html, search)`, with `_get_text` inlined: the same result as the later copy. */
  method GetXpathValues(p: Page, scope: Node, search: XpathSearch) returns (r: Result<Value, PyError>)
    ensures r == XpathTextGetter.SearchResult(p, scope, search.element, search.listSearch)
  {
    if search.listSearch {
      var texts := GetAllTexts(p, FindElements(p, scope, ByXPath(search.element)));
      r := Success(StrList(texts));
    } else {
      match FindElement(p, scope, ByXPath(search.element))
      case Failure(e) => r := Failure(e);
      case Success(n) => r := Success(Str(TextOf(p, n)));
    }
  }
}
