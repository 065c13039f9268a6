/**
 * The part of a rendered page the scraper reads, as a value: which nodes
 * each query finds under each node, in document order, and the visible
 * text of each node. Selenium's `find_elements` and `find_element` and
 * an element's `.text` are read off it; the page does not change while
 * a record is read.
 */
module Dom {
  import opened Wrappers
  import opened PyValues

  /** An element of the page. */
  type Node = nat

  /** The two ways the scraper queries a page (Selenium's `By.ID` and `By.XPATH`). */
  datatype Locator = ById(id: string) | ByXPath(xpath: string)

  /**
   * `found[(scope, q)]`: the nodes query `q` matches under `scope`, in
   * document order (a missing entry: none); `text[n]`: the text of `n`
   * (a missing entry: the empty text).
   */
  datatype Page = Page(found: map<(Node, Locator), seq<Node>>, text: map<Node, string>)

  /** `scope.find_elements(q)`: every match, in document order; never raises. */
  function FindElements(p: Page, scope: Node, q: Locator): seq<Node>
  {
    if (scope, q) in p.found then p.found[(scope, q)] else []
  }

  /** `scope.find_element(q)`: the first match, or NoSuchElementException. */
  function FindElement(p: Page, scope: Node, q: Locator): (r: Result<Node, PyError>)
    ensures r.Success? <==> FindElements(p, scope, q) != []
    ensures r.Success? ==> r.value == FindElements(p, scope, q)[0]
    ensures r.Failure? ==> r.error == NoSuchElement
  {
    var all := FindElements(p, scope, q);
    if all == [] then Failure(NoSuchElement) else Success(all[0])
  }

  /** `element.text` */
  function TextOf(p: Page, n: Node): string
  {
    if n in p.text then p.text[n] else ""
  }

  /** The texts of `ns`, in order. */
  function Texts(p: Page, ns: seq<Node>): (ts: seq<string>)
    ensures |ts| == |ns|
    ensures forall i :: 0 <= i < |ns| ==> ts[i] == TextOf(p, ns[i])
  {
    if ns == [] then [] else [TextOf(p, ns[0])] + Texts(p, ns[1..])
  }

  lemma TextsStep(p: Page, ns: seq<Node>, i: nat)
    requires i < |ns|
    ensures Texts(p, ns[..i + 1]) == Texts(p, ns[..i]) + [TextOf(p, ns[i])]
  {
  }

  /** `find_element` in a `try` whose `except NoSuchElementException` takes the other branch. */
  function Anchor(p: Page, scope: Node, q: Locator): (r: Option<Node>)
    ensures r.Some? <==> FindElement(p, scope, q).Success?
    ensures r.Some? ==> r.value == FindElement(p, scope, q).value
  {
    match FindElement(p, scope, q)
    case Success(n) => Some(n)
    case Failure(_) => None
  }
}
