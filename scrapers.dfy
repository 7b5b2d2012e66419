/** Choosing a scraper for a court and running it. */
module Scrapers {

  import opened JsString
  import opened Entries
  import opened BrowserPool
  import opened AiParser
  import Generic
  import DelhiHC

  datatype ScraperKind = DelhiHighCourt | GenericTable

  /** The marker of the Delhi High Court's display board in a URL. */
  const DelhiMarker: string := "delhihighcourt"

  lemma LowerDelhiMarker()
    ensures Lower(DelhiMarker) == DelhiMarker
  {
    assert Lower(DelhiMarker)[0] == 'd';
  }

  /** `getScraperForCourt`: the Delhi scraper for a URL that mentions the
      marker in any letter case, the generic one for every other court. Only
      the URL is consulted. */
  function GetScraperForCourt(court: CourtInfo): (kind: ScraperKind)
    ensures kind == DelhiHighCourt <==> ContainsIgnoringCase(court.displayBoardUrl, DelhiMarker)
  {
    LowerDelhiMarker();
    LowerContains(court.displayBoardUrl, DelhiMarker);
    if Contains(Lower(court.displayBoardUrl), DelhiMarker) then DelhiHighCourt else GenericTable
  }

  /** Only the URL decides: two courts with the same URL get the same scraper. */
  lemma SelectionDependsOnlyOnUrl(a: CourtInfo, b: CourtInfo)
    requires a.displayBoardUrl == b.displayBoardUrl
    ensures GetScraperForCourt(a) == GetScraperForCourt(b)
  {
  }

  /** What `scrapeCourt` resolves with. */
  function ScrapeCourtResult(court: CourtInfo, apiKey: string, web: string -> PageLoad, gemini: string -> GeminiReply): ScraperResult
  {
    match GetScraperForCourt(court)
    case DelhiHighCourt => DelhiHC.ScrapeResultOf(web(court.displayBoardUrl))
    case GenericTable => Generic.ScrapeResultOf(apiKey, web(court.displayBoardUrl), gemini)
  }

  /** A failed scrape never carries entries, and always carries a message. */
  lemma ScrapeCourtFailureShape(court: CourtInfo, apiKey: string, web: string -> PageLoad, gemini: string -> GeminiReply)
    ensures var r := ScrapeCourtResult(court, apiKey, web, gemini);
      !r.success ==> r.entries == [] && r.error.Some?
  {
  }

  /** Every entry of a successful scrape has a court number, whichever path produced it. */
  lemma ScrapeCourtEntriesHaveCourtNumber(court: CourtInfo, apiKey: string, web: string -> PageLoad, gemini: string -> GeminiReply, e: DisplayBoardEntry)
    requires e in ScrapeCourtResult(court, apiKey, web, gemini).entries
    ensures e.courtNumber != ""
  {
    var load := web(court.displayBoardUrl);
    if GetScraperForCourt(court) == DelhiHighCourt {
      DelhiHC.DelhiEntriesWellFormed(load.doc.rows, e);
    } else {
      var ai := ParseDisplayBoardHtml(apiKey, load.doc.html, gemini);
      Generic.LoadedPageUsesAiOrFallback(apiKey, load.doc, gemini);
      if ai.Extracted? {
        ValidateRecordsWellFormed(gemini(StripNonEssentialHtml(load.doc.html)).records, e);
      } else {
        Generic.FallbackEntriesWellFormed(load.doc.rows, e);
      }
    }
  }

  /** `scrapeCourt`: the selected scraper's result, passed on unchanged. */
  method ScrapeCourt(browser: Browser, court: CourtInfo, apiKey: string, web: string -> PageLoad, gemini: string -> GeminiReply)
    returns (result: ScraperResult)
    modifies browser
    ensures result == ScrapeCourtResult(court, apiKey, web, gemini)
    ensures browser.pagesOpened == old(browser.pagesOpened) + 1
    ensures browser.pagesClosed == old(browser.pagesClosed) + 1
  {
    if GetScraperForCourt(court) == DelhiHighCourt {
      result := DelhiHC.Scrape(browser, court, web);
    } else {
      result := Generic.Scrape(browser, court, apiKey, web, gemini);
    }
  }
}
