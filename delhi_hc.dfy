/** The Delhi High Court scraper: a six-column table (court, item, judge,
    case number, title, video-conference link) read in the page and then
    cleaned. */
module DelhiHC {

  import opened Wrappers
  import opened JsString
  import opened Seqs
  import opened Entries
  import opened Base
  import opened BrowserPool
  import Generic

  /** The object the in-page script builds for one row. */
  datatype RawRow = RawRow(
    courtNumber: string,
    itemNumber: Option<string>,
    judgeName: Option<string>,
    caseNumber: Option<string>,
    caseTitle: Option<string>,
    vcLink: Option<string>,
    status: Option<string>)

  /** `cell?.textContent?.trim() || null`. */
  function TrimmedOrNull(cell: Cell): Option<string>
  {
    var t := Trim(cell.text);
    if t == "" then None else Some(t)
  }

  /** The in-page mapping of one row; rows with fewer than four cells map to null. */
  function ReadRow(cells: seq<Cell>): Option<RawRow>
  {
    if |cells| < 4 then None
    else
      Some(RawRow(
        Trim(cells[0].text),
        TrimmedOrNull(cells[1]),
        TrimmedOrNull(cells[2]),
        TrimmedOrNull(cells[3]),
        if |cells| > 4 then TrimmedOrNull(cells[4]) else None,
        if |cells| > 5 then OrNull(cells[5].href) else None,
        None))
  }

  /** The cleaning filter: a court number that is present and not a header. */
  predicate KeepRow(raw: RawRow)
  {
    raw.courtNumber != "" && !Contains(Lower(raw.courtNumber), "court")
  }

  /** The cleaning map; the link and the in-page status are not carried over. */
  function CleanRow(raw: RawRow): DisplayBoardEntry
  {
    DisplayBoardEntry(
      ExtractNumber(raw.courtNumber),
      CleanText(raw.itemNumber),
      CleanText(raw.caseNumber),
      CleanText(raw.caseTitle),
      CleanText(raw.judgeName),
      Some(if Truthy(raw.itemNumber) && CleanText(raw.itemNumber).Some? then InProgress else Waiting))
  }

  function KeepAndClean(raw: RawRow): Option<DisplayBoardEntry>
  {
    if KeepRow(raw) then Some(CleanRow(raw)) else None
  }

  /** What `page.evaluate` returns: the mapped rows without the nulls. */
  function ReadRows(rows: seq<seq<Cell>>): seq<RawRow>
  {
    FilterMap(ReadRow, rows)
  }

  /** The entries of the Delhi scraper for the rows of the page. */
  function DelhiEntries(rows: seq<seq<Cell>>): (r: seq<DisplayBoardEntry>)
    ensures |r| <= |rows|
    ensures forall e :: e in r ==> exists raw :: raw in ReadRows(rows) && KeepRow(raw) && e == CleanRow(raw)
  {
    var r := FilterMap(KeepAndClean, ReadRows(rows));
    assert forall e :: e in r ==> exists raw :: raw in ReadRows(rows) && KeepRow(raw) && e == CleanRow(raw) by {
      forall e | e in r ensures exists raw :: raw in ReadRows(rows) && KeepRow(raw) && e == CleanRow(raw) {
        FilterMapFrom(KeepAndClean, ReadRows(rows), e);
      }
    }
    r
  }

  /** The Delhi layout in the generic parser's column order: court, item,
      case number, title (an empty cell when absent), judge. */
  function AsGenericRow(cells: seq<Cell>): seq<Cell>
  {
    if |cells| < 4 then cells
    else [cells[0], cells[1], cells[3], if |cells| > 4 then cells[4] else Cell("", None), cells[2]]
  }

  function AsGenericRows(rows: seq<seq<Cell>>): (r: seq<seq<Cell>>)
    ensures |r| == |rows|
  {
    seq(|rows|, i requires 0 <= i < |rows| => AsGenericRow(rows[i]))
  }

  /** The entry, if any, that one row contributes. */
  function DelhiRowEntry(cells: seq<Cell>): Option<DisplayBoardEntry>
  {
    match ReadRow(cells)
    case None => None
    case Some(raw) => KeepAndClean(raw)
  }

  /** Mapping, dropping nulls, filtering and mapping again is one pass that
      takes each row's contribution in order. */
  lemma {:induction false} DelhiEntriesByRow(rows: seq<seq<Cell>>)
    ensures DelhiEntries(rows) == FilterMap(DelhiRowEntry, rows)
    decreases |rows|
  {
    if rows != [] {
      var init := rows[..|rows| - 1];
      var last := rows[|rows| - 1];
      DelhiEntriesByRow(init);
      var tail := OptionToSeq(ReadRow(last));
      assert ReadRows(rows) == ReadRows(init) + tail;
      FilterMapConcat(KeepAndClean, ReadRows(init), tail);
      if ReadRow(last).Some? {
        FilterMapSingle(KeepAndClean, ReadRow(last).value);
      }
    }
  }

  /** On one row the Delhi scraper is the generic rigid parser applied to the
      reordered columns: same filter, same cleaning, same status rule. */
  lemma DelhiRowIsGenericRow(cells: seq<Cell>)
    ensures DelhiRowEntry(cells) == Generic.ParseRow(AsGenericRow(cells))
  {
    if |cells| >= 4 {
      DelhiRowEntryIsRowEntry(cells);
      ReorderedRowIsRowEntry(cells);
    }
  }

  /** The cleaned field of a cell, as the generic parser computes it. */
  function CleanCell(c: Cell): Option<string>
  {
    CleanText(Some(c.text))
  }

  /** The entry the Delhi scraper takes from a row of four or more cells. */
  lemma DelhiRowEntryIsRowEntry(cells: seq<Cell>)
    requires |cells| >= 4
    ensures DelhiRowEntry(cells) == Generic.RowEntry(Trim(cells[0].text), CleanCell(cells[1]), CleanCell(cells[3]),
      if |cells| > 4 then CleanCell(cells[4]) else None, CleanCell(cells[2]))
  {
    var raw := ReadRow(cells).value;
    KeepAndCleanIsRowEntry(raw);
    CleanTrimmedCell(cells[1]);
    CleanTrimmedCell(cells[2]);
    CleanTrimmedCell(cells[3]);
    if |cells| > 4 {
      CleanTrimmedCell(cells[4]);
    }
  }

  /** The entry the generic parser takes from the reordered row. */
  lemma ReorderedRowIsRowEntry(cells: seq<Cell>)
    requires |cells| >= 4
    ensures Generic.ParseRow(AsGenericRow(cells)) == Generic.RowEntry(Trim(cells[0].text), CleanCell(cells[1]),
      CleanCell(cells[3]), if |cells| > 4 then CleanCell(cells[4]) else None, CleanCell(cells[2]))
  {
    var g := AsGenericRow(cells);
    assert g[0] == cells[0] && g[1] == cells[1] && g[2] == cells[3] && g[4] == cells[2];
    assert CleanCell(g[3]) == if |cells| > 4 then CleanCell(cells[4]) else None;
    Generic.ParseRowIsRowEntry(g);
  }

  /** The Delhi cleaning step builds the same entry as the generic parser from
      the same court text and cleaned fields. */
  lemma KeepAndCleanIsRowEntry(raw: RawRow)
    ensures KeepAndClean(raw) == Generic.RowEntry(raw.courtNumber, CleanText(raw.itemNumber),
      CleanText(raw.caseNumber), CleanText(raw.caseTitle), CleanText(raw.judgeName))
  {
  }

  /** Cleaning the page script's trimmed-or-null cell is cleaning its text. */
  lemma CleanTrimmedCell(c: Cell)
    ensures CleanText(TrimmedOrNull(c)) == CleanCell(c)
  {
    CleanTextOfTrimmedOrNull(c.text);
  }

  /** Rows are handled one by one: the entries of two blocks of rows concatenate. */
  lemma {:induction false} DelhiEntriesConcat(a: seq<seq<Cell>>, b: seq<seq<Cell>>)
    ensures DelhiEntries(a + b) == DelhiEntries(a) + DelhiEntries(b)
  {
    FilterMapConcat(ReadRow, a, b);
    FilterMapConcat(KeepAndClean, ReadRows(a), ReadRows(b));
  }

  /** The whole Delhi parse is the generic rigid parse of the reordered rows:
      short and header rows dropped, row order kept, cell-5 links and the
      in-page status gone. */
  lemma DelhiIsGenericReordered(rows: seq<seq<Cell>>)
    ensures DelhiEntries(rows) == Generic.FallbackEntries(AsGenericRows(rows))
  {
    DelhiEntriesByRow(rows);
    var g := AsGenericRows(rows);
    forall i | 0 <= i < |rows| ensures DelhiRowEntry(rows[i]) == Generic.ParseRow(g[i]) {
      DelhiRowIsGenericRow(rows[i]);
    }
    FilterMapPointwise(DelhiRowEntry, rows, Generic.ParseRow, g);
  }

  /** Neither the link nor the in-page status reaches the entry. */
  lemma KeepAndCleanIgnoresLinkAndStatus(raw: RawRow, link: Option<string>, status: Option<string>)
    ensures KeepAndClean(raw.(vcLink := link, status := status)) == KeepAndClean(raw)
  {
  }

  lemma DelhiRowIgnoresLink(cells: seq<Cell>, j: nat, href: Option<string>)
    requires j < |cells|
    ensures DelhiRowEntry(cells[j := cells[j].(href := href)]) == DelhiRowEntry(cells)
  {
    var cells' := cells[j := cells[j].(href := href)];
    assert |cells'| == |cells|;
    assert forall k :: 0 <= k < |cells| ==> cells'[k].text == cells[k].text;
    SameTextsSameEntry(cells', cells);
  }

  /** A row's entry depends on its cells' texts only. */
  lemma SameTextsSameEntry(a: seq<Cell>, b: seq<Cell>)
    requires |a| == |b|
    requires forall k :: 0 <= k < |a| ==> a[k].text == b[k].text
    ensures DelhiRowEntry(a) == DelhiRowEntry(b)
  {
    if |a| >= 4 {
      DelhiRowEntryIsRowEntry(a);
      DelhiRowEntryIsRowEntry(b);
      assert a[0].text == b[0].text && a[1].text == b[1].text;
      assert a[2].text == b[2].text && a[3].text == b[3].text;
      assert |a| > 4 ==> a[4].text == b[4].text;
    }
  }

  /** A short row, a blank first cell or one naming "court" in any case contributes nothing. */
  lemma DelhiSkipsRow(before: seq<seq<Cell>>, row: seq<Cell>, after: seq<seq<Cell>>)
    requires |row| < 4 || Trim(row[0].text) == "" || ContainsIgnoringCase(Trim(row[0].text), "court")
    ensures DelhiEntries(before + [row] + after) == DelhiEntries(before + after)
  {
    DelhiEntriesByRow(before + [row] + after);
    DelhiEntriesByRow(before + after);
    if |row| >= 4 {
      DelhiRowEntryIsRowEntry(row);
      Generic.IsHeaderCellIgnoresCase(Trim(row[0].text));
    }
    FilterMapSkips(DelhiRowEntry, before, row, after);
  }

  /** Every other row contributes exactly its cleaned entry, in row order. */
  lemma DelhiKeepsRow(before: seq<seq<Cell>>, row: seq<Cell>, after: seq<seq<Cell>>)
    requires |row| >= 4 && Trim(row[0].text) != "" && !ContainsIgnoringCase(Trim(row[0].text), "court")
    ensures DelhiRowEntry(row).Some?
    ensures DelhiEntries(before + [row] + after)
      == DelhiEntries(before) + [DelhiRowEntry(row).value] + DelhiEntries(after)
  {
    DelhiRowEntryIsRowEntry(row);
    Generic.IsHeaderCellIgnoresCase(Trim(row[0].text));
    DelhiEntriesByRow(before + [row] + after);
    DelhiEntriesByRow(before);
    DelhiEntriesByRow(after);
    FilterMapKeeps(DelhiRowEntry, before, row, after);
  }

  /** The link of any cell never reaches an entry. */
  lemma DelhiIgnoresLinks(rows: seq<seq<Cell>>, i: nat, j: nat, href: Option<string>)
    requires i < |rows| && j < |rows[i]|
    ensures DelhiEntries(rows[i := rows[i][j := rows[i][j].(href := href)]]) == DelhiEntries(rows)
  {
    var rows' := rows[i := rows[i][j := rows[i][j].(href := href)]];
    DelhiEntriesByRow(rows);
    DelhiEntriesByRow(rows');
    DelhiRowIgnoresLink(rows[i], j, href);
    FilterMapPointwise(DelhiRowEntry, rows', DelhiRowEntry, rows);
  }

  /** Every entry has a court number and a status decided by its item number. */
  lemma DelhiEntriesWellFormed(rows: seq<seq<Cell>>, e: DisplayBoardEntry)
    requires e in DelhiEntries(rows)
    ensures e.courtNumber != ""
    ensures e.status == (if e.itemNumber.Some? then Some(InProgress) else Some(Waiting))
  {
    DelhiIsGenericReordered(rows);
    Generic.FallbackEntriesWellFormed(AsGenericRows(rows), e);
  }

  /** The message of Puppeteer's timeout when no `table tbody tr` appears. */
  const SelectorTimeoutMessage: string := "Waiting for selector `table tbody tr` failed: Waiting failed: 15000ms exceeded"

  /** The result of the Delhi `scrape` for what the page loaded. */
  function ScrapeResultOf(load: PageLoad): (r: ScraperResult)
    ensures !r.success ==> r.entries == [] && r.error.Some?
    ensures r.success <==> load.Loaded? && load.doc.rows != []
    ensures r.success ==> r.entries == DelhiEntries(load.doc.rows) && r.error.None?
    ensures load.LoadFailed? ==> r == FailedResult(load.error)
    ensures load.Loaded? && load.doc.rows == [] ==> r == FailedResult(ErrorValue(SelectorTimeoutMessage))
  {
    match load
    case LoadFailed(error) => FailedResult(error)
    case Loaded(doc) =>
      if doc.rows == [] then FailedResult(ErrorValue(SelectorTimeoutMessage))
      else ScraperResult(true, DelhiEntries(doc.rows), None)
  }

  /** `DelhiHCScraper.scrape`: one page is opened and closed on every path. */
  method Scrape(browser: Browser, court: CourtInfo, web: string -> PageLoad) returns (result: ScraperResult)
    modifies browser
    ensures result == ScrapeResultOf(web(court.displayBoardUrl))
    ensures browser.pagesOpened == old(browser.pagesOpened) + 1
    ensures browser.pagesClosed == old(browser.pagesClosed) + 1
  {
    var page := browser.NewPage();
    match web(court.displayBoardUrl) {
      case LoadFailed(error) =>
        result := FailedResult(error);
      case Loaded(doc) =>
        if doc.rows == [] {
          result := FailedResult(ErrorValue(SelectorTimeoutMessage));
        } else {
          var entries := FilterMap(KeepAndClean, ReadRows(doc.rows));
          result := ScraperResult(true, entries, None);
        }
    }
    page.Close();
  }
}
