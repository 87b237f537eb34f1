/**
 * The browser page, with the browser taken away. An element is what the
 * driver reports about it; a query stands for `find_elements` with one CSS
 * or XPath selector. A query that raises is modelled as one that finds
 * nothing, which is what every caller does with the exception.
 */
module Page {
  import opened Wrappers

  /**
   * `Live`: the element's `href` attribute (`''` when absent, as
   * `get_attribute('href') or ''` gives), its visible text before
   * `strip()`, and its `data-rid` attribute. `Stale`: reading the element
   * raises, so every loop skips it.
   */
  datatype Element = Live(href: string, text: string, rid: Option<string>) | Stale

  /** `find_elements(By.CSS_SELECTOR or By.XPATH, selector)` on one page or element. */
  type Query = string -> seq<Element>

  /**
   * The detail view of one opened result: the elements each selector finds,
   * the page title, the first match of the phone patterns over the body text
   * (the regex scan itself is not modelled) and the website-pattern matches
   * in pattern order.
   */
  datatype Detail = Detail(find: Query, title: string, bodyPhone: Option<string>, bodyWebsites: seq<string>)

  /** How one attempt to locate the Auto button went: found clickable after `elapsedMs`, or not. */
  datatype Attempt = Found(elapsedMs: nat) | Missing

  /**
   * One place's search page: whether the search box appears, how each Auto
   * selector fares, whether stepping from the located button to its parent
   * link and clicking it succeed (when either raises, the place's handler
   * skips the listing), the listing's rows, the elements inside each row,
   * and what clicking an element opens (`None` when both the click and the
   * script click raise, or when processing the item raises before
   * extraction).
   */
  datatype SearchPage = SearchPage(
    searchBox: bool,
    attempt: string -> Attempt,
    autoClicked: bool,
    results: Query,
    inner: Element -> Query,
    click: Element -> Option<Detail>)
}
