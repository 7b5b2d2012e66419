/** The shapes the scrapers exchange: the display-board entry and update
    payload of the socket layer, a court's identity and the result of one
    scrape. */
module Entries {

  import opened Wrappers

  /** One row of a display board; every field but the court number may be null.
      `status` is a free string: the extraction model's own status is passed on. */
  datatype DisplayBoardEntry = DisplayBoardEntry(
    courtNumber: string,
    itemNumber: Option<string>,
    caseNumber: Option<string>,
    caseTitle: Option<string>,
    judgeName: Option<string>,
    status: Option<string>)

  /** What is broadcast to the subscribers of one court. */
  datatype DisplayUpdatePayload = DisplayUpdatePayload(
    courtId: string,
    courtName: string,
    entries: seq<DisplayBoardEntry>,
    timestamp: string)

  /** A court id as it arrives in a job: a number, or its text. */
  datatype CourtId = NumericId(number: int) | TextId(text: string)

  datatype CourtInfo = CourtInfo(id: CourtId, courtName: string, displayBoardUrl: string)

  datatype ScraperResult = ScraperResult(success: bool, entries: seq<DisplayBoardEntry>, error: Option<string>)

  /** A thrown JavaScript value: an `Error` with its message, or anything else. */
  datatype Thrown = ErrorValue(message: string) | NonErrorValue

  const InProgress: string := "IN_PROGRESS"
  const Waiting: string := "WAITING"

  /** `error instanceof Error ? error.message : 'Unknown error'`. */
  function MessageOf(e: Thrown): string
  {
    if e.ErrorValue? then e.message else "Unknown error"
  }

  /** The result a scraper returns from its `catch` block. */
  function FailedResult(e: Thrown): (r: ScraperResult)
    ensures !r.success && r.entries == [] && r.error == Some(MessageOf(e))
  {
    ScraperResult(false, [], Some(MessageOf(e)))
  }

  /** JavaScript truthiness of a nullable string: neither null nor empty. */
  predicate Truthy(s: Option<string>)
  {
    s.Some? && s.value != ""
  }

  /** `x || null`: an empty or missing string becomes null. */
  function OrNull(s: Option<string>): (r: Option<string>)
    ensures r.Some? <==> Truthy(s)
    ensures r.Some? ==> r == s
  {
    if Truthy(s) then s else None
  }
}
