/**
 * scraper/helpers/get_XPATH_text.py: the oldest text getter. It takes
 * the query and the list flag as plain arguments and turns "nothing
 * useful found" into NA itself: an empty list of matches, and a single
 * text that is "N/A" or only whitespace.
 */
module HelpersXpathText {
  import opened Wrappers
  import opened PyValues
  import opened Text
  import opened Dom
  import XpathTextGetter

  /** The single-mode replacement: "N/A" and blank texts become NA. */
  function SingleText(t: string): (v: Value)
    ensures v == NA <==> t == "N/A" || IsBlank(t)
    ensures v != NA ==> v == Str(t)
  {
    StripSpec(t);
    if t == "N/A" || |Strip(t)| == 0 then NA else Str(t)
  }

  /**
   * `get_XPATH_text(source_html, element, return_list)`: the texts of
   * every match, or NA when nothing matches (list mode); the first
   * match's text after the NA replacement, or NoSuchElement (single mode).
   */
  function XpathText(p: Page, scope: Node, element: string, returnList: bool): (r: Result<Value, PyError>)
    ensures returnList ==> r.Success?
    ensures returnList && FindElements(p, scope, ByXPath(element)) == [] ==> r.value == NA
    ensures returnList && FindElements(p, scope, ByXPath(element)) != [] ==>
              r.value == StrList(Texts(p, FindElements(p, scope, ByXPath(element))))
    ensures !returnList ==> (r.Failure? <==> FindElements(p, scope, ByXPath(element)) == [])
    ensures !returnList && r.Failure? ==> r.error == NoSuchElement
  {
    if returnList then
      var texts := Texts(p, FindElements(p, scope, ByXPath(element)));
      if texts == [] then Success(NA) else Success(StrList(texts))
    else
      match FindElement(p, scope, ByXPath(element))
      case Failure(e) => Failure(e)
      case Success(n) => Success(SingleText(TextOf(p, n)))
  }

  method GetXpathText(p: Page, scope: Node, element: string, returnList: bool) returns (r: Result<Value, PyError>)
    ensures r == XpathText(p, scope, element, returnList)
  {
    if returnList {
      var elements := FindElements(p, scope, ByXPath(element));
      var texts := [];
      for i := 0 to |elements|
        invariant texts == Texts(p, elements[..i])
      {
        TextsStep(p, elements, i);
        texts := texts + [TextOf(p, elements[i])];
      }
      assert elements[..|elements|] == elements;
      if texts == [] {
        return Success(NA);
      }
      return Success(StrList(texts));
    }
    var n := FindElement(p, scope, ByXPath(element));
    if n.Failure? {
      return Failure(n.error);
    }
    var text := TextOf(p, n.value);
    r := Success(if text == "N/A" || |Strip(text)| == 0 then NA else Str(text));
  }

  /** What the NA replacement does to a value the later getters return. */
  function CollapseNA(v: Value): Value
  {
    match v
    case StrList(ts) => if ts == [] then NA else v
    case Str(t) => SingleText(t)
    case _ => v
  }

  /**
   * This getter is the later `get_XPATH_values` followed by the NA
   * replacement: the same error when the single match is missing, the
   * replaced value otherwise.
   */
  lemma CollapsedSearch(p: Page, scope: Node, element: string, returnList: bool)
    ensures XpathText(p, scope, element, returnList) ==
              match XpathTextGetter.SearchResult(p, scope, element, returnList)
              case Failure(e) => Failure(e)
              case Success(v) => Success(CollapseNA(v))
  {
  }
}
