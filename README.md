# caseflow-scraper core, modelled in Dafny

caseflow-scraper reads court display-board web pages ("which case is court
room 3 hearing now?"). For each court it picks a scraper from the court's
URL:

- the Delhi High Court scraper, which reads a fixed six-column table;
- the generic table scraper, which first asks a Gemini model to extract the
  rows from the page's HTML and falls back to a positional table parser when
  there is no API key or the model call fails.

Both scrapers normalise every row into a `DisplayBoardEntry`. They always
close the page `getPage()` returned, and they turn any failure after the
page is opened into `{ success: false, entries: [], error }`.

A queue worker handles one court per job:

1. It runs the scrape, and throws when the scrape failed.
2. It upserts every entry into a display-board cache keyed by
   `(courtId, courtNumber)`.
3. It promotes today's SCHEDULED hearings to IN_PROGRESS. A hearing is
   promoted when its court room and item number match an entry; "today" is
   the calendar day in India Standard Time, UTC+5:30.
4. It broadcasts the entries to the court's subscribers and returns the
   counts.

The model's modules follow the source files:

| module | file | models |
|---|---|---|
| `Wrappers`, `Seqs` | — | `Option`, and a `FilterMap` (filter-then-map) combinator with its laws |
| `JsString` | — | the JavaScript built-ins the core relies on: `trim` and `\s`, `replace(/\D/g, '')`, `toLowerCase`, `includes`, `parseInt(s, 10)`, `String(n)` |
| `Entries` | `src/socket/server.ts`, `src/scrapers/base.ts` | the entry, payload, court and result shapes; truthiness; `x \|\| null` |
| `Base` | `src/scrapers/base.ts` | `cleanText`, `extractNumber` |
| `BrowserPool` | `src/browser/pool.ts` | a page as a resource that must be closed |
| `AiParser` | `src/scrapers/ai-parser.ts` | HTML stripping and validation of the model's records |
| `Generic` | `src/scrapers/generic.ts` | the AI-or-fallback scrape and the rigid fallback parser |
| `DelhiHC` | `src/scrapers/delhi-hc.ts` | the Delhi High Court row mapping and scrape |
| `Scrapers` | `src/scrapers/index.ts` | scraper selection and `scrapeCourt` |
| `Processor` | `src/jobs/processor.ts` | the IST day window, hearing promotion, the cache upsert and the job handler |

The outside world enters the model as parameters:

- `web: string -> PageLoad` is what navigating to a URL yields. That is
  either a `Document` (the page's HTML plus the cells of every
  `table tbody tr` row) or the thrown error.
- `gemini: string -> GeminiReply` is the model's parsed JSON answer for the
  stripped HTML, or the thrown error.
- `apiKey: string` is the configured Gemini key.
- `nowMs: int` and `timestamp: string` are the clock.

The hearing table and the cache are a `Processor.Store` object. The hearing
table is an `array<Hearing>`, and a row's position is its primary key. The
cache is a `map<CacheKey, CacheRow>`.

Where the code and the design description of the system differ, the model
follows the code:

- The generic fallback parser reads the rows of every table body on the
  page, not only the first table's.
- Entries from the AI path keep the model's own `status` when it is truthy.
  Their optional fields pass through `x || null` only, so `"NA"`, `"-"` and
  `"*"` are not nulled there.
- A court number without digits falls back to the original text. On the AI
  path that text is not trimmed.
- Scraper selection looks for `delhihighcourt` anywhere in the lower-cased
  URL, not in the host alone. It is a single conditional, not a table of
  strategies.
- `getPage()` is called before the `try` in both scrapers. A failure to
  open a page therefore escapes as an exception instead of becoming a
  failed result (see "Left out").
- The reconciliation does not isolate a failing store call per entry. In
  the model the store does not fail.

## Model

| member | source | states |
|---|---|---|
| `Base.CleanText` | src/scrapers/base.ts:24-29 | The result is null exactly for a missing or empty text and for texts that trim to `NA`, `-`, `*` or `""`; otherwise it is the trimmed text, non-empty and trimmed |
| `Base.CleanTextIdempotent` | src/scrapers/base.ts:24-29 | Cleaning a cleaned value changes nothing |
| `Base.CleanTextOfBlank` | src/scrapers/base.ts:24-29 | A text of white space only cleans to null |
| `Base.CleanTextKeepsLowerCaseNa` | src/scrapers/base.ts:26-27 | The placeholder list is matched case-sensitively: `" na "` cleans to `"na"`, not null |
| `Base.CleanTextOfTrimmedOrNull` | src/scrapers/delhi-hc.ts:28-47 | Cleaning `text.trim() \|\| null` (what the Delhi page script yields) gives the same as cleaning the raw text |
| `Base.ExtractNumber` | src/scrapers/base.ts:31-33 | A text with a digit becomes its non-empty digits only; a text without digits is returned unchanged; only `""` gives `""` |
| `Base.ExtractNumberIdempotent` | src/scrapers/base.ts:31-33 | Extracting the number of an extracted number changes nothing |
| `JsString.Trim` | src/scrapers/base.ts:26 | `trim()`: the result is a contiguous slice of the input with no leading or trailing whitespace, and only whitespace is cut off |
| `JsString.TrimIdempotent` | src/scrapers/base.ts:26 | Trimming twice equals trimming once |
| `JsString.TrimEmpty` | src/scrapers/ai-parser.ts:110 | A text trims to `""` exactly when it is all whitespace |
| `JsString.TrimHasDigit` | src/scrapers/generic.ts:71-79 | Trimming keeps every digit, so a text has a digit iff its trimmed form does |
| `JsString.Digits` | src/scrapers/base.ts:32 | `replace(/\D/g, '')`: the result holds only digits, is no longer than the input, and is empty iff the input has no digit |
| `JsString.DigitsOfDigits` | src/scrapers/base.ts:32 | Removing non-digits is idempotent |
| `JsString.DigitsConcat` | src/scrapers/base.ts:32 | Removing non-digits distributes over concatenation |
| `JsString.LowerContains` | src/scrapers/index.ts:8-10 | For a lower-case pattern, `s.toLowerCase().includes(p)` holds iff `p` occurs in `s` ignoring ASCII case |
| `JsString.ContainsOccurs` | src/scrapers/generic.ts:74 | `includes` holds iff the pattern occurs at some position |
| `JsString.ParseIntOfIntToString` | src/jobs/processor.ts:131 | `parseInt(String(n), 10) == n` for every integer `n` |
| `Entries.FailedResult` | src/scrapers/generic.ts:47-54 | A caught error is a failed result with no entries and the error's message, or `Unknown error` for a non-`Error` value |
| `Entries.OrNull` | src/scrapers/ai-parser.ts:113-116 | `x \|\| null` is null exactly for a missing or empty string and is `x` otherwise |
| `Seqs.FilterMapConcat` | src/scrapers/ai-parser.ts:109-118 | Filter-then-map distributes over concatenation |
| `Seqs.FilterMapFrom` | src/scrapers/ai-parser.ts:109-118 | Every output element comes from an input element that was accepted |
| `BrowserPool.Browser.NewPage` | src/browser/pool.ts:25-36 | `getPage()` yields a fresh open page of this browser and counts one more page opened |
| `BrowserPool.Page.Close` | src/scrapers/generic.ts:55-57 | `page.close()` leaves the page closed and counts it closed once |
| `AiParser.IndexOf` | src/scrapers/ai-parser.ts:69-72 | Finds the first occurrence of a pattern at or after a position, optionally ignoring ASCII case, or reports that there is none |
| `AiParser.RemoveBlocks` | src/scrapers/ai-parser.ts:69-72 | Removing lazily matched `open…close` blocks never lengthens the text |
| `AiParser.RemoveBlocksWithoutOpener` | src/scrapers/ai-parser.ts:69-72 | A text without the opening tag is left unchanged |
| `AiParser.CollapseWhitespace` | src/scrapers/ai-parser.ts:73 | `replace(/\s{2,}/g, ' ')`: never lengthens, keeps emptiness and the whitespace-ness of the first character, and leaves no two adjacent whitespace characters |
| `AiParser.CollapseKeepsNonWhitespace` | src/scrapers/ai-parser.ts:73 | Collapsing keeps every non-whitespace character, in order |
| `AiParser.CollapseConcat` | src/scrapers/ai-parser.ts:73 | A text that ends in a non-whitespace character collapses independently of what follows it, since no run crosses that boundary |
| `AiParser.CollapseRun` | src/scrapers/ai-parser.ts:73 | A maximal run of two or more whitespace characters, anywhere in the text, becomes one space and a lone whitespace character stays, so words and attributes stay separated; the text on either side collapses on its own |
| `AiParser.CollapseWithoutRuns` | src/scrapers/ai-parser.ts:73 | A text with no two adjacent whitespace characters is left unchanged |
| `AiParser.CollapseWhitespaceIdempotent` | src/scrapers/ai-parser.ts:73 | Collapsing twice is collapsing once |
| `AiParser.TrimKeepsNonWhitespace` | src/scrapers/ai-parser.ts:74 | Trimming keeps every non-whitespace character, in order |
| `AiParser.TrimKeepsNoDoubleWhitespace` | src/scrapers/ai-parser.ts:73-74 | Trimming keeps "no two adjacent whitespace characters" |
| `AiParser.StripNonEssentialHtml` | src/scrapers/ai-parser.ts:67-75 | The stripped HTML is the collapse-then-trim of what the four block removals leave: no longer than the input, trimmed, with no run of two whitespace characters, and with exactly the non-whitespace characters the removals left, in order |
| `AiParser.StripTagFreeText` | src/scrapers/ai-parser.ts:67-75 | A text without `<` is only collapsed and trimmed, so every non-whitespace character of the page is sent |
| `AiParser.ValidateRecord` | src/scrapers/ai-parser.ts:110-118 | A record is kept iff its court number is truthy and not blank. The kept court number is non-empty, the digits if there are any, else the original text. A truthy status is kept and a falsy one becomes `WAITING` |
| `AiParser.ValidateRecordOptionalFields` | src/scrapers/ai-parser.ts:113-117 | Each optional field of a kept record is the model's field passed through `x \|\| null` |
| `AiParser.ValidateRecordsDropsBlankCourt` | src/scrapers/ai-parser.ts:110 | A record with a missing or blank court number contributes nothing, wherever it stands |
| `AiParser.ValidateRecordsKeepsCourt` | src/scrapers/ai-parser.ts:110-118 | A record with a court number contributes exactly its validated entry, in place |
| `AiParser.ValidateRecordsOneBlank` | src/scrapers/ai-parser.ts:109-118 | Among otherwise valid records, a single blank one shortens the output by exactly one |
| `AiParser.ValidateRecordsWellFormed` | src/scrapers/ai-parser.ts:110-118 | Every validated entry has a non-empty court number and a truthy status |
| `AiParser.ParseDisplayBoardHtml` | src/scrapers/ai-parser.ts:81-123 | Without a key it fails with `GEMINI_API_KEY is not configured`. With a key it succeeds iff the model answers, and the entries are the validated records of the model's answer for the stripped HTML |
| `AiParser.MissingKeyIgnoresModel` | src/scrapers/ai-parser.ts:82-84 | Without a key the model is never consulted |
| `Generic.IsHeaderCellIgnoresCase` | src/scrapers/generic.ts:74 | The header test holds iff the cell is empty or contains `court` in any ASCII letter case |
| `Generic.ParseRow` | src/scrapers/generic.ts:69-86 | A row gives an entry iff it has at least four cells and its trimmed first cell is neither empty nor a header. The court number is non-empty, and digits only when the cell has a digit. The status is IN_PROGRESS iff there is an item number, else WAITING |
| `Generic.ParseRowColumns` | src/scrapers/generic.ts:79-83 | The court number is the extracted number of the trimmed cell 0; item, case and title are the cleaned cells 1 to 3, and the judge is the cleaned cell 4 only when a fifth cell exists |
| `Generic.FallbackParse` | src/scrapers/generic.ts:64-91 | The `.each` loop pushes exactly the parsed entries of the non-skipped rows, in row order |
| `Generic.FallbackSkipsRow` | src/scrapers/generic.ts:70-76 | A short row, an empty first cell or one containing `court` in any case contributes nothing |
| `Generic.FallbackKeepsRow` | src/scrapers/generic.ts:70-85 | Any other row contributes exactly one entry, in place |
| `Generic.FallbackEntriesWellFormed` | src/scrapers/generic.ts:78-85 | Every fallback entry has a court number, and its status is IN_PROGRESS exactly when it has an item number |
| `Generic.ScrapeResultOf` | src/scrapers/generic.ts:13-54 | A failed generic scrape has no entries and an error message |
| `Generic.LoadedPageUsesAiOrFallback` | src/scrapers/generic.ts:27-46 | For a loaded page the scrape succeeds. It uses the AI entries when there is a key and extraction succeeded, and otherwise the fallback entries of the same page |
| `Generic.NoKeyIgnoresModel` | src/scrapers/generic.ts:36-39 | Without a key the result does not depend on the model |
| `Generic.LoadFailureFails` | src/scrapers/generic.ts:47-54 | A failed navigation gives `{ success: false, entries: [], error: message }` |
| `Generic.Scrape` | src/scrapers/generic.ts:10-58 | The scrape returns the result above for the page at the court's URL, and opens and closes exactly one page |
| `DelhiHC.DelhiEntries` | src/scrapers/delhi-hc.ts:21-49 | Every Delhi entry is the cleaned form of a read row that passes the filter, and there are never more entries than rows |
| `DelhiHC.DelhiEntriesByRow` | src/scrapers/delhi-hc.ts:21-49 | The page mapping, the null filter, the court filter and the cleaning compose into one filter-then-map over the rows |
| `DelhiHC.DelhiRowIsGenericRow` | src/scrapers/delhi-hc.ts:25-49 | A Delhi row gives the same entry as the generic parser on the row reordered to court, item, case, title, judge |
| `DelhiHC.KeepAndCleanIsRowEntry` | src/scrapers/delhi-hc.ts:40-49 | The Delhi filter and cleaning build the same entry as the generic parser's row step on the same court text and cleaned fields |
| `DelhiHC.SameTextsSameEntry` | src/scrapers/delhi-hc.ts:21-49 | A row's entry depends on its cells' texts only |
| `DelhiHC.DelhiIsGenericReordered` | src/scrapers/delhi-hc.ts:21-49 | The Delhi entries are the generic fallback entries of the reordered rows |
| `DelhiHC.DelhiEntriesConcat` | src/scrapers/delhi-hc.ts:21-49 | Rows are processed independently: the entries of two blocks of rows concatenate |
| `DelhiHC.KeepAndCleanIgnoresLinkAndStatus` | src/scrapers/delhi-hc.ts:33-49 | Neither the video-link field nor the in-page status reaches the entry; the status is recomputed from the item number |
| `DelhiHC.DelhiSkipsRow` | src/scrapers/delhi-hc.ts:25-41 | A row with fewer than four cells, an empty trimmed first cell or one containing `court` in any case contributes nothing |
| `DelhiHC.DelhiKeepsRow` | src/scrapers/delhi-hc.ts:25-49 | Any other row contributes exactly its cleaned entry, in row order |
| `DelhiHC.DelhiRowIgnoresLink` | src/scrapers/delhi-hc.ts:33-49 | Changing a link in a row's cell leaves the row's entry unchanged |
| `DelhiHC.DelhiIgnoresLinks` | src/scrapers/delhi-hc.ts:33-49 | Changing any link on the page does not change the Delhi entries |
| `DelhiHC.DelhiEntriesWellFormed` | src/scrapers/delhi-hc.ts:40-49 | Every Delhi entry has a court number, and its status is IN_PROGRESS exactly when it has an item number |
| `DelhiHC.ScrapeResultOf` | src/scrapers/delhi-hc.ts:13-64 | The scrape succeeds iff the page loaded with at least one row, and then its entries are the Delhi entries of that page. A navigation failure gives the failed result with that error's message; a page without rows gives the failed result with the selector-timeout message. Every failure has no entries and an error |
| `DelhiHC.Scrape` | src/scrapers/delhi-hc.ts:7-68 | The scrape returns the result above, and opens and closes exactly one page |
| `Scrapers.GetScraperForCourt` | src/scrapers/index.ts:7-16 | The Delhi scraper is chosen iff the URL contains `delhihighcourt` in any ASCII letter case; otherwise the generic one |
| `Scrapers.SelectionDependsOnlyOnUrl` | src/scrapers/index.ts:7-16 | Two courts with the same display-board URL get the same scraper, whatever their id and name |
| `Scrapers.ScrapeCourtFailureShape` | src/scrapers/index.ts:18-31 | Whichever scraper runs, a failure carries no entries and an error |
| `Scrapers.ScrapeCourtEntriesHaveCourtNumber` | src/scrapers/index.ts:18-31 | Every entry of any scrape, from any of the three parsing paths, has a non-empty court number |
| `Scrapers.ScrapeCourt` | src/scrapers/index.ts:18-31 | `scrapeCourt` returns the selected scraper's result unchanged, and opens and closes one page |
| `Processor.TodayRangeIST` | src/jobs/processor.ts:17-31 | The window is 86 400 000 ms long, contains the current instant, and starts at an IST midnight |
| `Processor.SameWindowIffSameIstDay` | src/jobs/processor.ts:17-31 | Two instants get the same window exactly when they fall on the same IST calendar day |
| `Processor.WindowOfInstantInWindow` | src/jobs/processor.ts:17-31 | Any instant inside a window computes that same window |
| `Processor.LateEveningWindowHoldsEarlyMorning` | src/jobs/processor.ts:17-31 | At 23:59 IST the window still holds 00:30 IST of the same day, although the two lie on different UTC days |
| `Processor.PromoteAllAt` | src/jobs/processor.ts:47-75 | After the loop, a hearing is IN_PROGRESS with all else unchanged iff some entry's filter selected it (court id, room, item, date in window, SCHEDULED, item number truthy). Every other hearing is unchanged |
| `Processor.PromoteAllEvolved` | src/jobs/processor.ts:63-68 | The loop only ever changes SCHEDULED hearings, and only their status |
| `Processor.UnusableEntryChangesNothing` | src/jobs/processor.ts:49 | An entry whose item number is null or `""` matches nothing and changes nothing |
| `Processor.PromotedCountStep` | src/jobs/processor.ts:63-69 | Each entry adds to the count exactly the hearings it moves from SCHEDULED to IN_PROGRESS |
| `Processor.TotalIsPromotedCount` | src/jobs/processor.ts:45-77 | The returned total equals the number of hearings changed from SCHEDULED to IN_PROGRESS |
| `Processor.PromoteAllIdempotent` | src/jobs/processor.ts:52-68 | Running the reconciliation again on its own output changes nothing |
| `Processor.SecondRunCountsZero` | src/jobs/processor.ts:52-77 | An immediate second run returns 0 |
| `Processor.DuplicateEntryCountsNothing` | src/jobs/processor.ts:52-69 | Repeating an entry adds nothing to the total: no hearing is counted twice |
| `Processor.ScheduledHearingIsPromoted` | src/jobs/processor.ts:47-77 | Court 10, entry room 3 item 7, one matching hearing today: it becomes IN_PROGRESS and the count is 1 |
| `Processor.LastWith` | src/jobs/processor.ts:96-122 | The last entry for a court room exists iff some entry has that room; it is an entry with that room and no later entry has that room |
| `Processor.UpsertAllAt` | src/jobs/processor.ts:96-122 | After the upserts, a cache key of this court holds the row of the last entry for its room when there is one. Every other key keeps its row, and no key is lost |
| `Processor.LaterEntryOverwrites` | src/jobs/processor.ts:96-122 | An entry whose room appears again later leaves no trace in the cache |
| `Processor.LastWithSuffix` | src/jobs/processor.ts:96-122 | The later block of entries decides which entry is last for a room |
| `Processor.UpsertAllIdempotent` | src/jobs/processor.ts:96-122 | Upserting the same entries again leaves the cache as it is |
| `Processor.NumericCourtId` | src/jobs/processor.ts:41 | A numeric id is itself, and a text id is `parseInt(id, 10)`, with NaN as none |
| `Processor.CourtIdTextNamesSameCourt` | src/jobs/processor.ts:131 | The broadcast id `String(court.id)` of a numeric court parses back to the same court |
| `Processor.FailureMessage` | src/jobs/processor.ts:91-93 | `result.error \|\| 'Scrape failed'` |
| `Processor.Store.constructor` | src/jobs/processor.ts:52-69 | A store holding the given hearings and an empty cache |
| `Processor.Store.FindMatching` | src/jobs/processor.ts:52-61 | `findMany` returns exactly the rows the filter selects, each once |
| `Processor.Store.UpdateMany` | src/jobs/processor.ts:63-68 | `updateMany` sets the listed rows to IN_PROGRESS and changes no other row or field |
| `Processor.Store.ReconcileEntry` | src/jobs/processor.ts:52-69 | One entry's find-and-update promotes exactly its matches and reports their number |
| `Processor.Store.UpdateHearingStatuses` | src/jobs/processor.ts:37-78 | A court id that does not parse returns 0 and changes nothing. Otherwise the table becomes the promotion of today's matches, and the total is the number of hearings moved from SCHEDULED to IN_PROGRESS |
| `Processor.Store.UpsertEntries` | src/jobs/processor.ts:96-122 | The cache becomes the in-order upsert of every entry under `(courtId, courtNumber)` |
| `Processor.Store.ProcessJob` | src/jobs/processor.ts:83-146 | A failed scrape throws `error \|\| 'Scrape failed'` before any upsert, hearing update or broadcast. Otherwise the cache is upserted and the hearings reconciled, and the payload is broadcast with `String(court.id)`. The result is `entriesCount = entries.length` and `hearingsUpdated` = the hearings promoted. One page is opened and closed |

## Left out

- Browser process lifecycle (`getBrowser`, launch options, viewport, user agent, shutdown hooks): process-wide resource management. A page is only an object that counts as opened and closed.
- `Generic.Scrape`, `DelhiHC.Scrape`: `getPage()` sits outside each scraper's `try`, so a failure to open a page escapes as an exception. The model's page opening always succeeds. A page whose `setViewport` or `setUserAgent` set-up fails inside `getPage()` is never returned and so never closed; the model does not capture that leak.
- Navigation options (`networkidle0`, the 30 s and 15 s timeouts): a navigation or wait either yields a document or a thrown error through `web`.
- `DelhiHC.ScrapeResultOf`: `waitForSelector` fails exactly when the page has no `table tbody tr` row. Its message is a constant written in Puppeteer's style, not Puppeteer's exact text.
- cheerio and DOM querying (`$('table tbody tr')`, `querySelectorAll`, `textContent`, `getAttribute`): a page arrives with its rows already extracted as cells of text and first-link `href`.
- Gemini: the client, the model name, the prompt, the response schema, and `JSON.parse` are foreign code or data. They become the `gemini` oracle, which returns raw records or a thrown error.
- `AiParser.StripNonEssentialHtml`: the output is not claimed free of `<script`, `<style`, `<head` or `<!--`. Removing one lazily matched block can bring a new opener together.
- `JsString.Lower`: `toLowerCase` is modelled for ASCII letters only. Every pattern the core compares against (`court`, `delhihighcourt`, `<script`, …) is ASCII.
- JavaScript numbers: court ids are unbounded integers, so float ids, `Infinity` and precision loss are not modelled. Dates are integer milliseconds, without the `Date` range limit.
- `Processor.Store.ProcessJob`: a court id that parses to NaN with at least one entry lets the store refuse the first upsert, which is modelled as `StoreRejected` without a message. With no entries the job completes.
- `Processor.Store.ProcessJob`: the cache's `lastUpdated` and the day window use one clock reading `nowMs`, although the source reads the clock separately for each upsert, for the window and for the broadcast timestamp. A newly created row's `lastUpdated` is the same `nowMs`; the store's default for it is not part of this model.
- Prisma returns hearing ids from `findMany`, and `updateMany` filters on them; the model uses row positions as those ids. The database schema, the `case` relation and store errors are not part of this model.
- Socket.IO rooms and `emitDisplayUpdate`: transport. The broadcast is the returned payload.
- The BullMQ worker registration, its concurrency, its event listeners and the job id: queue concerns. Concurrent jobs are not modelled.
- The scheduler, the configuration, the entry point, Redis and all logging calls.
