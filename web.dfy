/**
 * The outside world as fetch_messages.py sees it, made deterministic:
 * a finite map from URL to page stands for `requests.get`, a page is what
 * BeautifulSoup would extract from its HTML, and `markdownify` is an
 * arbitrary text-to-text function supplied from outside.
 */
module Web {

  datatype Option<T> = None | Some(value: T)

  /**
   * A page as the scraper uses it: its raw HTML text, the `href` values of
   * its anchors that carry one (in document order), and, for the archive
   * index, the `href` of the first anchor of each `cell_period` table cell
   * (`""` when that cell has no anchor or an empty `href`).
   */
  datatype Page = Page(html: string, hrefs: seq<string>, periodHrefs: seq<string>)

  /**
   * Everything the run reads from outside: the reachable pages (a URL
   * missing from `pages` is a failed fetch) and the markdown converter.
   */
  datatype Env = Env(pages: map<string, Page>, markdown: string -> string)

  /** `get_html`: the page text on success, `None` on any failure. */
  function GetHtml(env: Env, url: string): Option<string> {
    if url in env.pages then Some(env.pages[url].html) else None
  }

  /** The fixed text cached and emitted for a minutes page that could not be retrieved. */
  const Placeholder: string := "Failed to retrieve meeting minutes."

  /**
   * The content of a minutes page as first computed for the cache: the
   * markdown of the page, or the placeholder when the fetch failed or gave
   * an empty page (`not html` holds for `""` as for `None`).
   */
  function FetchContent(env: Env, url: string): string {
    var html := GetHtml(env, url);
    if html.None? || html.value == "" then Placeholder else env.markdown(html.value)
  }
}
