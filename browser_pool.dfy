/** The shared browser as the scrapers see it: a source of pages that must
    each be closed, and what a page shows once it has navigated. */
module BrowserPool {

  import opened Wrappers
  import opened Entries

  /** One `td` cell: its text content and the `href` of the first link inside it, if any. */
  datatype Cell = Cell(text: string, href: Option<string>)

  /** A rendered page: its HTML text, and the cells of every `table tbody tr`
      row in document order (what cheerio or the DOM would select). */
  datatype Document = Document(html: string, rows: seq<seq<Cell>>)

  /** The outcome of navigating to a URL and reading the rendered page. */
  datatype PageLoad = Loaded(doc: Document) | LoadFailed(error: Thrown)

  /** The process-wide browser; it counts the pages it opened and the pages
      that were closed, so a scrape can promise to leave none open. */
  class Browser {
    var pagesOpened: nat
    var pagesClosed: nat

    constructor ()
      ensures pagesOpened == 0 && pagesClosed == 0
    {
      pagesOpened, pagesClosed := 0, 0;
    }

    /** `getPage()`. */
    method NewPage() returns (page: Page)
      modifies this
      ensures fresh(page) && page.browser == this && page.isOpen
      ensures pagesOpened == old(pagesOpened) + 1 && pagesClosed == old(pagesClosed)
    {
      page := new Page(this);
      pagesOpened := pagesOpened + 1;
    }
  }

  class Page {
    const browser: Browser
    var isOpen: bool

    constructor (b: Browser)
      ensures browser == b && isOpen
    {
      browser := b;
      isOpen := true;
    }

    /** `page.close()`; closing a closed page changes nothing. */
    method Close()
      modifies this, browser
      ensures !isOpen
      ensures browser.pagesOpened == old(browser.pagesOpened)
      ensures browser.pagesClosed == old(browser.pagesClosed) + (if old(isOpen) then 1 else 0)
    {
      if isOpen {
        isOpen := false;
        browser.pagesClosed := browser.pagesClosed + 1;
      }
    }
  }
}
