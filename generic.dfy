/** The generic table scraper: AI extraction when a key is configured, the
    rigid column parser otherwise or when extraction fails. */
module Generic {

  import opened Wrappers
  import opened JsString
  import opened Seqs
  import opened Entries
  import opened Base
  import opened BrowserPool
  import opened AiParser

  /** The header-row test on a trimmed court cell: blank, or mentioning
      "court" (after lower-casing). */
  predicate IsHeaderCell(court: string)
  {
    court == "" || Contains(Lower(court), "court")
  }

  lemma LowerCourt()
    ensures Lower("court") == "court"
  {
    assert Lower("court")[0] == 'c';
  }

  /** The header test is a case-insensitive search for "court". */
  lemma IsHeaderCellIgnoresCase(court: string)
    ensures IsHeaderCell(court) <==> court == "" || ContainsIgnoringCase(court, "court")
  {
    LowerCourt();
    LowerContains(court, "court");
  }

  /** The entry the rigid parser pushes for one row, if it keeps the row:
      positional columns court, item, case number, title and an optional judge. */
  function ParseRow(cells: seq<Cell>): (r: Option<DisplayBoardEntry>)
    ensures r.Some? <==> |cells| >= 4 && !IsHeaderCell(Trim(cells[0].text))
    ensures r.Some? ==> r.value.courtNumber != ""
    ensures r.Some? && HasDigit(cells[0].text) ==> forall i :: 0 <= i < |r.value.courtNumber| ==> IsDigit(r.value.courtNumber[i])
    ensures r.Some? ==> (r.value.status == Some(InProgress) <==> r.value.itemNumber.Some?)
    ensures r.Some? ==> (r.value.status == Some(InProgress) || r.value.status == Some(Waiting))
  {
    if |cells| < 4 then None
    else
      TrimHasDigit(cells[0].text);
      RowEntry(
        Trim(cells[0].text),
        CleanText(Some(cells[1].text)),
        CleanText(Some(cells[2].text)),
        CleanText(Some(cells[3].text)),
        if |cells| > 4 then CleanText(Some(cells[4].text)) else None)
  }

  /** A row of four or more cells is parsed by `RowEntry` on its trimmed court cell and cleaned fields. */
  lemma ParseRowIsRowEntry(cells: seq<Cell>)
    requires |cells| >= 4
    ensures ParseRow(cells) == RowEntry(Trim(cells[0].text), CleanText(Some(cells[1].text)),
      CleanText(Some(cells[2].text)), CleanText(Some(cells[3].text)),
      if |cells| > 4 then CleanText(Some(cells[4].text)) else None)
  {
  }

  /** The entry pushed for a trimmed court cell and the cleaned fields, unless
      the court cell is a header; the status follows the item number. */
  function RowEntry(court: string, item: Option<string>, caseNumber: Option<string>,
                    caseTitle: Option<string>, judge: Option<string>): Option<DisplayBoardEntry>
  {
    if IsHeaderCell(court) then None
    else Some(DisplayBoardEntry(ExtractNumber(court), item, caseNumber, caseTitle, judge,
                                Some(if item.Some? then InProgress else Waiting)))
  }

  /** What `fallbackParse` returns for the rows of a page. */
  function FallbackEntries(rows: seq<seq<Cell>>): seq<DisplayBoardEntry>
  {
    FilterMap(ParseRow, rows)
  }

  /** `fallbackParse`: one pass over the rows, pushing an entry for every data row. */
  method FallbackParse(rows: seq<seq<Cell>>) returns (entries: seq<DisplayBoardEntry>)
    ensures entries == FallbackEntries(rows)
  {
    entries := [];
    for i := 0 to |rows|
      invariant entries == FallbackEntries(rows[..i])
    {
      assert rows[..i + 1][..i] == rows[..i];
      var cells := rows[i];
      if |cells| >= 4 {
        var courtNumber := Trim(cells[0].text);
        if courtNumber == "" || Contains(Lower(courtNumber), "court") {
          continue;
        }
        var item := CleanText(Some(cells[1].text));
        entries := entries + [DisplayBoardEntry(
          ExtractNumber(courtNumber),
          item,
          CleanText(Some(cells[2].text)),
          CleanText(Some(cells[3].text)),
          if |cells| > 4 then CleanText(Some(cells[4].text)) else None,
          Some(if CleanText(Some(cells[1].text)).Some? then InProgress else Waiting))];
      }
    }
    assert rows[..|rows|] == rows;
  }

  /** A row the parser skips (short, blank or a header) contributes nothing. */
  lemma FallbackSkipsRow(before: seq<seq<Cell>>, row: seq<Cell>, after: seq<seq<Cell>>)
    requires |row| < 4 || Trim(row[0].text) == "" || ContainsIgnoringCase(Trim(row[0].text), "court")
    ensures FallbackEntries(before + [row] + after) == FallbackEntries(before + after)
  {
    if |row| >= 4 {
      IsHeaderCellIgnoresCase(Trim(row[0].text));
    }
    FilterMapSkips(ParseRow, before, row, after);
  }

  /** Every other row yields exactly one entry, in row order. */
  lemma FallbackKeepsRow(before: seq<seq<Cell>>, row: seq<Cell>, after: seq<seq<Cell>>)
    requires |row| >= 4 && Trim(row[0].text) != "" && !ContainsIgnoringCase(Trim(row[0].text), "court")
    ensures ParseRow(row).Some?
    ensures FallbackEntries(before + [row] + after)
         == FallbackEntries(before) + [ParseRow(row).value] + FallbackEntries(after)
  {
    IsHeaderCellIgnoresCase(Trim(row[0].text));
    FilterMapKeeps(ParseRow, before, row, after);
  }

  /** The fields of a kept row: court number from cell 0, cleaned cells 1-3,
      the judge from cell 4 only when a fifth cell exists. */
  lemma ParseRowColumns(cells: seq<Cell>)
    requires ParseRow(cells).Some?
    ensures var e := ParseRow(cells).value;
      && e.courtNumber == ExtractNumber(Trim(cells[0].text))
      && e.itemNumber == CleanText(Some(cells[1].text))
      && e.caseNumber == CleanText(Some(cells[2].text))
      && e.caseTitle == CleanText(Some(cells[3].text))
      && e.judgeName == (if |cells| == 4 then None else CleanText(Some(cells[4].text)))
  {
  }

  /** Every entry of the rigid parser has a court number and a status
      decided by its item number. */
  lemma FallbackEntriesWellFormed(rows: seq<seq<Cell>>, e: DisplayBoardEntry)
    requires e in FallbackEntries(rows)
    ensures e.courtNumber != ""
    ensures e.status == (if e.itemNumber.Some? then Some(InProgress) else Some(Waiting))
  {
    FilterMapFrom(ParseRow, rows, e);
  }

  /** The result of the generic `scrape` for what the page loaded, the
      configured key and the model. */
  function ScrapeResultOf(apiKey: string, load: PageLoad, gemini: string -> GeminiReply): (r: ScraperResult)
    ensures !r.success ==> r.entries == [] && r.error.Some?
  {
    match load
    case LoadFailed(error) => FailedResult(error)
    case Loaded(doc) =>
      var entries :=
        if apiKey != "" then
          match ParseDisplayBoardHtml(apiKey, doc.html, gemini)
          case Extracted(aiEntries) => aiEntries
          case ExtractionFailed(_) => FallbackEntries(doc.rows)
        else FallbackEntries(doc.rows);
      ScraperResult(true, entries, None)
  }

  /** A loaded page always succeeds: with the AI's entries when extraction
      succeeds, and otherwise (no key, or any failure) with the rigid parse of
      the same page. */
  lemma LoadedPageUsesAiOrFallback(apiKey: string, doc: Document, gemini: string -> GeminiReply)
    ensures var r := ScrapeResultOf(apiKey, Loaded(doc), gemini);
      var ai := ParseDisplayBoardHtml(apiKey, doc.html, gemini);
      && r.success && r.error.None?
      && (ai.Extracted? ==> r.entries == ai.entries)
      && (ai.ExtractionFailed? ==> r.entries == FallbackEntries(doc.rows))
  {
  }

  /** Without a key the model's answer is irrelevant. */
  lemma NoKeyIgnoresModel(load: PageLoad, gemini1: string -> GeminiReply, gemini2: string -> GeminiReply)
    ensures ScrapeResultOf("", load, gemini1) == ScrapeResultOf("", load, gemini2)
  {
  }

  /** A navigation or content failure gives a failed result with its message. */
  lemma LoadFailureFails(apiKey: string, error: Thrown, gemini: string -> GeminiReply)
    ensures ScrapeResultOf(apiKey, LoadFailed(error), gemini) == ScraperResult(false, [], Some(MessageOf(error)))
  {
  }

  /** `GenericTableScraper.scrape`: one page is opened and closed on every path. */
  method Scrape(browser: Browser, court: CourtInfo, apiKey: string, web: string -> PageLoad, gemini: string -> GeminiReply)
    returns (result: ScraperResult)
    modifies browser
    ensures result == ScrapeResultOf(apiKey, web(court.displayBoardUrl), gemini)
    ensures browser.pagesOpened == old(browser.pagesOpened) + 1
    ensures browser.pagesClosed == old(browser.pagesClosed) + 1
  {
    var page := browser.NewPage();
    match web(court.displayBoardUrl) {
      case LoadFailed(error) =>
        result := FailedResult(error);
      case Loaded(doc) =>
        var entries: seq<DisplayBoardEntry>;
        if apiKey != "" {
          var ai := ParseDisplayBoardHtml(apiKey, doc.html, gemini);
          if ai.Extracted? {
            entries := ai.entries;
          } else {
            entries := FallbackParse(doc.rows);
          }
        } else {
          entries := FallbackParse(doc.rows);
        }
        result := ScraperResult(true, entries, None);
    }
    page.Close();
  }
}
