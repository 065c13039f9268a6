/**
 * scraper/jobs_to_csv/elements_query/XPATH_text_getter.py: a search
 * object holds an XPath query and the value found for it (NA until
 * found). A list search collects the texts of every match; a single
 * search reads the first match and raises when there is none.
 */
module XpathTextGetter {
  import opened Wrappers
  import opened PyValues
  import opened Dom

  /**
   * `XpathSearch` and its subclass `XpathListSearch`; `listSearch` is
   * true for an instance of the subclass. Only `value` ever changes.
   */
  class XpathSearch {
    var value: Value
    const element: string
    const listSearch: bool

    /** `XpathSearch(element)` */
    constructor Single(element: string)
      ensures this.value == NA && this.element == element && !this.listSearch
    {
      this.value := NA;
      this.element := element;
      this.listSearch := false;
    }

    /** `XpathListSearch(element)` */
    constructor ListSearch(element: string)
      ensures this.value == NA && this.element == element && this.listSearch
    {
      this.value := NA;
      this.element := element;
      this.listSearch := true;
    }
  }

  /**
   * What `get_XPATH_values` gives for a query under `scope`: every
   * match's text for a list search (`[]` when nothing matches), the
   * first match's text for a single search, NoSuchElement when that
   * search finds nothing.
   */
  function SearchResult(p: Page, scope: Node, element: string, listSearch: bool): (r: Result<Value, PyError>)
    ensures listSearch ==> r == Success(StrList(Texts(p, FindElements(p, scope, ByXPath(element)))))
    ensures !listSearch ==> (r.Failure? <==> FindElements(p, scope, ByXPath(element)) == [])
    ensures !listSearch && r.Failure? ==> r.error == NoSuchElement
    ensures !listSearch && r.Success? ==> r.value == Str(TextOf(p, FindElements(p, scope, ByXPath(element))[0]))
  {
    if listSearch then Success(StrList(Texts(p, FindElements(p, scope, ByXPath(element)))))
    else
      match FindElement(p, scope, ByXPath(element))
      case Failure(e) => Failure(e)
      case Success(n) => Success(Str(TextOf(p, n)))
  }

  /** `_get_all_texts(elements)`: the text of each element, appended in order. */
  method GetAllTexts(p: Page, elements: seq<Node>) returns (texts: seq<string>)
    ensures texts == Texts(p, elements)
  {
    texts := [];
    var i := 0;
    while i < |elements|
      invariant 0 <= i <= |elements|
      invariant texts == Texts(p, elements[..i])
    {
      TextsStep(p, elements, i);
      texts := texts + [TextOf(p, elements[i])];
      i := i + 1;
    }
    assert elements[..i] == elements;
  }

  /** `_get_text(source, search)`: the first match's text, unchanged. */
  method GetText(p: Page, scope: Node, search: XpathSearch) returns (r: Result<string, PyError>)
    ensures r.Failure? <==> FindElements(p, scope, ByXPath(search.element)) == []
    ensures r.Failure? ==> r.error == NoSuchElement
    ensures r.Success? ==> r.value == TextOf(p, FindElements(p, scope, ByXPath(search.element))[0])
  {
    var n := FindElement(p, scope, ByXPath(search.element));
    if n.Failure? {
      return Failure(n.error);
    }
    r := Success(TextOf(p, n.value));
  }

  /** `get_XPATH_values(source, search)`: the list kind is checked first. */
  method GetXpathValues(p: Page, scope: Node, search: XpathSearch) returns (r: Result<Value, PyError>)
    ensures r == SearchResult(p, scope, search.element, search.listSearch)
  {
    if search.listSearch {
      var elements := FindElements(p, scope, ByXPath(search.element));
      var texts := GetAllTexts(p, elements);
      r := Success(StrList(texts));
    } else {
      var text := GetText(p, scope, search);
      if text.Failure? {
        return Failure(text.error);
      }
      r := Success(Str(text.value));
    }
  }

  /** The value a search holds after a lookup: the result, or what it held before when the lookup raised. */
  function Resolved(p: Page, scope: Node, element: string, listSearch: bool, prior: Value): Value
  {
    match SearchResult(p, scope, element, listSearch)
    case Success(v) => v
    case Failure(_) => prior
  }
}
