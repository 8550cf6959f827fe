# ethical_shopping: the evidence-retrieval pipeline, in Dafny

`ethical_shopping` answers "what are the key impacts of this company?" from the company's own
published reports. Its HTTP entry point, `runner`, takes a company name from the request. If the
company's collection in the document store is non-empty, it replies with the stored summaries.
Otherwise it does four things in turn:

- searches for report links;
- downloads the reports under a byte budget (`process_file_links`, with sizes from `checksize`);
- asks a generative model about each report in two rounds (`pdf_answerer`): first which pages are
  relevant, parsed by `numbers_split`; then the question against those pages, cut out by
  `split_pdf` (or against the whole document when none of the named pages exists, because the page
  import reads an empty selection as "all pages");
- writes one document per link to the store (`firebase_cache`) and replies with the summaries
  joined by blank lines.

This project models that logic as pure functions over immutable data and proves what it
guarantees. The network, the generative model and the search are oracles: functions given as
parameters (`Budget.Web`, `Answerer.Model`, the `search` argument of `Runner.Runner`). A PDF is
abstracted to its sequence of pages (`PdfPages.Pdf`). The rest follows the code, with the same
branches, constants and error conditions, with one exception. `Runner.Runner` is built on the
corrected link processing `Budget.ProcessFileLinksAligned`, not on the loop as written. The loop as
written is `Budget.ProcessFileLinks`, and its consequences on a failed download are proved
separately (see "Findings").

Modules, one per concern, in dependency order:

| module | file | models |
|---|---|---|
| `Wrappers` | wrappers.dfy | `Option` |
| `Seqs` | seqs.dfy | small generic sequence identities used by the proofs |
| `PageRefs` | page_refs.dfy | `numbers_split`: `re.split(r'\D+')`, `int()`, the 0 filter, the shift to zero-based; an independent one-pass scanner |
| `PdfPages` | pdf_pages.dfy | the page filter and page selection of `split_pdf` |
| `Answerer` | answerer.dfy | the two-round control flow of `pdf_answerer` |
| `Budget` | budget.dfy | `checksize` and the budget loop of `process_file_links`; a corrected loop that keeps the lists aligned |
| `Ids` | ids.dfy | the order in which a collection lists its document ids |
| `Cache` | cache.dfy | `firebase_cache`, read mode and write mode |
| `Runner` | runner.dfy | `runner`: company lookup, hit/miss dispatch, the joined reply |

Four consequences of the code are worth stating up front:

- The page list is in reply order, with repetitions kept. It is neither sorted nor deduplicated.
- Only `requests` exceptions are caught in the download loop. Any other failure escapes.
- The overflow branch of the budget (a 100,000-byte penalty) can never be taken. The loop only
  looks at a link while the total is below 3,000,000. It only gets past the size check with a size
  below 7,000,000. So the sum always stays below 10,000,000. `Budget.Loop` proves the total is
  exactly the sum of the admitted sizes.
- A link is recorded before its download. A failed download therefore misaligns the three result
  lists; see "Findings".

## Model

| member | source | states |
|---|---|---|
| PageRefs.Pieces | ethical_shopping/runner.py:340 | `re.split(r'\D+', s)`: never empty; `PiecesBound` gives at most one piece per character plus one. Which pieces, and where the text is cut, are stated by `PiecesShape`, `PiecesCount`, `PiecesContents`, `PiecesAreDigitRuns`, `PiecesOfRun` and `PiecesAfterSeparator`. |
| PageRefs.PiecesBound | ethical_shopping/runner.py:340 | The split has at most one piece more than the text has characters. |
| PageRefs.PiecesShape | ethical_shopping/runner.py:340 | Only the first and last pieces of the split can be empty, each exactly when the text starts or ends with a non-digit. There is a single piece exactly when the text is all digits. |
| PageRefs.PiecesCount | ethical_shopping/runner.py:340 | There is one more piece than there are maximal runs of non-digits. |
| PageRefs.PiecesContents | ethical_shopping/runner.py:340 | Concatenated, the pieces are exactly the digits of the text, in order: only separators are dropped. |
| PageRefs.PiecesAreDigitRuns | ethical_shopping/runner.py:340-341 | Every piece consists of digits only, so `isdigit` rejects only the empty pieces. |
| PageRefs.PiecesOfRun | ethical_shopping/runner.py:340 | A text of digits only is not split. |
| PageRefs.PiecesAfterSeparator | ethical_shopping/runner.py:340 | After a text ending in a separator, the split continues with the pieces of the rest; a separator run spanning the join counts once. |
| PageRefs.ConvertAppend | ethical_shopping/runner.py:341-342 | Parsing and filtering work piece by piece: converting joined piece lists joins the results. |
| PageRefs.NumbersSplit | ethical_shopping/runner.py:323-343 | `numbers_split`: at most one page per piece of the split. Which pages come out, and in what order, are stated by `NumbersSplitFromRuns`, `NumbersSplitRun`, `NumbersSplitAppend`, `NumbersSplitNoDigits` and the scanner equivalence `NumbersSplitByScan`. |
| PageRefs.NumbersSplitAppend | ethical_shopping/runner.py:340-342 | The pages of two texts joined by a non-digit are the pages of the first followed by those of the second: order kept, nothing merged or deduplicated. |
| PageRefs.NumbersSplitSeparatorSuffix | ethical_shopping/runner.py:340-342 | A trailing non-digit never changes the result. |
| PageRefs.NumbersSplitRun | ethical_shopping/runner.py:341-342 | One run of digits (leading zeros allowed) gives its value minus one, or nothing when it reads 0, as "0" and "00" do. |
| PageRefs.NumbersSplitNoDigits | ethical_shopping/runner.py:340-342 | A text without digits gives no page. |
| PageRefs.NumbersSplitFromRuns | ethical_shopping/runner.py:340-342 | Every result plus one is the non-zero value of a non-empty digit run of the text. |
| PageRefs.CommasExample | ethical_shopping/runner.py:329-330 | `'1, 2, 3, 4'` gives `[0, 1, 2, 3]`. |
| PageRefs.LettersExample | ethical_shopping/runner.py:331-332 | `'a1b2c3'` gives `[0, 1, 2]`. |
| PageRefs.NoNumbersExample | ethical_shopping/runner.py:333-334 | `'no numbers here'` gives `[]`. |
| PageRefs.RunsExample | ethical_shopping/runner.py:335-336 | `'abc123def456'` gives `[122, 455]`. |
| PageRefs.DecimalsExample | ethical_shopping/runner.py:337-338 | `'10.5 and 11.0'` gives `[9, 4, 10]`: the fraction `0` is dropped. |
| PageRefs.ZeroExample | ethical_shopping/runner.py:340-342 | The reply `"0"`, which the first prompt asks for when no page answers, gives no page. |
| PageRefs.ScanPageRefs | ethical_shopping/runner.py:340-342 | A single left-to-right scan that accumulates digit values and emits on each separator computes exactly the split-parse-filter result. |
| PageRefs.NumbersSplitByScan | ethical_shopping/runner.py:340-342 | The same equivalence for the scanner written as a function over the text. |
| PdfPages.KeepInRange | ethical_shopping/runner.py:360 | Every kept index is a page of the document, and the result is never longer than the request. |
| PdfPages.KeepInRangeCounts | ethical_shopping/runner.py:360 | Each in-range index occurs in the result exactly as often as in the request; out-of-range values never occur. |
| PdfPages.KeepInRangeAppend | ethical_shopping/runner.py:360 | The filter works element by element, so it keeps the caller's order. |
| PdfPages.KeepInRangeSingle | ethical_shopping/runner.py:360 | One index is kept exactly when `0 <= page < len_pdf`. |
| PdfPages.KeepInRangeAllValid | ethical_shopping/runner.py:360 | A request naming only existing pages passes through unchanged. |
| PdfPages.KeepInRangeNoneValid | ethical_shopping/runner.py:360 | A request naming no page of the document is filtered to nothing. |
| PdfPages.KeepInRangeIdempotent | ethical_shopping/runner.py:360 | Filtering twice is filtering once. |
| PdfPages.SplitPdf | ethical_shopping/runner.py:358-367 | The returned list is the filtered request. When it is non-empty, the new document has one page per returned index: the source page at that index, in that order. When it is empty, `import_pages` receives no selection and copies every page, so the new document is the source. |
| Answerer.PdfAnswerer | ethical_shopping/runner.py:414-440 | The first call is always the page-locating prompt on the whole document. It is the only call exactly when the parsed reply is empty, and then the result is `([], '')`. Otherwise there is a second call even if no named page exists. Its document holds exactly the filtered pages, or the whole document when the filtered list is empty. The pages returned are the filtered list (all within the document), and the summary is that call's reply. |
| Answerer.ZeroReplyAnswersNothing | ethical_shopping/runner.py:414-440 | When the model replies "0" to the first round, the result is empty after a single call. |
| Answerer.MissingPagesAskWholeDocument | ethical_shopping/runner.py:422-440 | A reply naming only pages the document lacks still leads to a second call. That call is made on the whole document, no page is returned, and its reply is the summary. |
| Answerer.AnswerPagesAreLocatedPages | ethical_shopping/runner.py:422-425 | When every page the model names exists, the returned pages are the named pages, in reply order, with repetitions. |
| Budget.CheckSize | ethical_shopping/runner.py:227-232 | The probed Content-Length, or 100,000,000 when the probe fails in any way, which is at or above the 7,000,000-byte per-file limit. |
| Budget.FailedProbeSkipped | ethical_shopping/runner.py:268-270 | A link whose size cannot be probed is skipped, with the total and the lists unchanged. |
| Budget.Visit | ethical_shopping/runner.py:268-285 | The decision table. Size at least 7,000,000: nothing changes. Otherwise, if the total plus the size reaches 10,000,000: the total grows by 100,000 and nothing else changes. In every other case the total grows by the size and the link is recorded; its summary and page list are recorded only when it downloads. |
| Budget.LoopStep | ethical_shopping/runner.py:263-267 | The loop stops at the end or once the total reaches 3,000,000; otherwise it visits the next candidate. |
| Budget.Loop | ethical_shopping/runner.py:263-287 | From any state, the loop only appends. The added links are candidates in candidate order. The total grows by exactly their probed sizes, so the penalty is never charged. The summaries and page lists grow by the answers of the added links that downloaded. A total below 10,000,000 stays below it. |
| Budget.ProcessFileLinks | ethical_shopping/runner.py:256-289 | The recorded links are an in-order subsequence of the candidates. The total is the sum of their probed sizes and stays below 10,000,000. The summaries and page lists are those of the recorded links that downloaded, in order. |
| Budget.LoopAppend | ethical_shopping/runner.py:263-267 | Running over `p + q` is running over `p` and then over `q` from where it stopped. |
| Budget.LoopStops | ethical_shopping/runner.py:266-267 | Once the total reaches 3,000,000, later candidates change nothing. |
| Budget.ProcessFileLinksStopsOnlyAtThreshold | ethical_shopping/runner.py:263-267 | A run that ended at or above the stop threshold is unaffected by any further candidates. |
| Budget.SizeSumNeverDecreases | ethical_shopping/runner.py:262-275 | With non-negative probe results, the running total never decreases. |
| Budget.ResultListsAlign | ethical_shopping/runner.py:276-285 | There are as many summaries as page lists, one per recorded link that downloaded, never more than the links. The counts match the links exactly when every recorded link downloaded. |
| Budget.AllDownloadedAligned | ethical_shopping/runner.py:283-285 | When every recorded link downloaded, the i-th summary and page list are the i-th link's answer. |
| Budget.OnlyDownloadsAnswer | ethical_shopping/runner.py:277-287 | A failed download contributes no summary and no page list. |
| Budget.FailedDownloadShiftsSummaries | ethical_shopping/runner.py:276-285 | As written: for a small link that fails to download followed by a small one that downloads, both are recorded but the only summary, paired with the first link, is the second link's answer. |
| Budget.ProcessFileLinksAligned | ethical_shopping/runner.py:262-289 | Corrected: the same budget decisions and total, below 10,000,000. The links are those of the original that downloaded. The three lists have one entry per link, and the i-th summary and page list are the i-th link's answer. |
| Ids.BelowTotal | ethical_shopping/runner.py:308-310 | Any two ids are comparable in the listing order. |
| Ids.BelowAntisymmetric | ethical_shopping/runner.py:308-310 | Ids that are each listed no later than the other are equal. |
| Ids.BelowTransitive | ethical_shopping/runner.py:308-310 | The listing order is transitive. |
| Ids.SortedIds | ethical_shopping/runner.py:307-311 | The listing of a set of ids holds each id exactly once, in strictly ascending order. |
| Ids.AscendingIsSortedIds | ethical_shopping/runner.py:307-311 | The listing is the only strictly ascending sequence of those ids. |
| Cache.ReadCache | ethical_shopping/runner.py:304-312 | Read mode lists every document of the company's collection once, by ascending id. Each document is paired with its contents. A company without a collection lists nothing. |
| Cache.Put | ethical_shopping/runner.py:316-318 | `set` creates or overwrites one document and touches no other collection. |
| Cache.WriteCache | ethical_shopping/runner.py:313-320 | Write mode: a completed write had a summary and a page list for every link and returns one document per link. `WriteCompletes`, `WriteEffect`, `WriteKeepsOthers`, `WriteStopsAtShortList` and `ReadAfterWrite` state the converse, the documents, the store afterwards and the `IndexError` case. |
| Cache.WriteCompletes | ethical_shopping/runner.py:313-320 | Write mode completes exactly when there is a summary and a page list for every link. It then returns, per link in order, `{summary: summaries[i], pages: pages[i]}`. |
| Cache.WriteEffect | ethical_shopping/runner.py:315-319 | After a complete write, the collection holds the old ids plus the links. Unwritten ids keep their documents, and a link written twice holds its last document. |
| Cache.WriteKeepsOthers | ethical_shopping/runner.py:315-318 | A write, complete or not, leaves every other company's collection unchanged. |
| Cache.WriteStopsAtShortList | ethical_shopping/runner.py:315-317 | A short summary or page list raises `IndexError`, after the links before that position were written. |
| Budget.NothingDownloaded | ethical_shopping/runner.py:277-287 | When no recorded link downloads, there are no summaries and no page lists. |
| Cache.WriteTwoWithOne | ethical_shopping/runner.py:315-318 | Two links with one summary and one page list: the first link is written, then `IndexError`. |
| Cache.ReadAfterWrite | ethical_shopping/runner.py:304-320 | Reading back a complete write into an empty collection returns the written links and documents. This holds when the links are distinct and already in listing order. |
| Runner.CompanyOf | ethical_shopping/runner.py:464-470 | The company from the JSON body if it names one, else from the query arguments, else the empty string. |
| Runner.Join | ethical_shopping/runner.py:481 | `sep.join`: the length is the total of the parts plus one separator between each pair. The result starts with the first part, followed by the separator when there is more than one part. |
| Runner.JoinSingle | ethical_shopping/runner.py:481 | Joining a single part gives that part, with no separator. |
| Runner.JoinAppend | ethical_shopping/runner.py:481 | Joining two non-empty lists end to end gives the join of the first, one separator, then the join of the second. With `JoinSingle`, this fixes every part and its position in the reply. |
| Runner.SummaryList | ethical_shopping/runner.py:475 | The summary field of each document, in order. |
| Runner.Runner | ethical_shopping/runner.py:464-482 | Corrected: the miss path uses the corrected link processing. No company: a `None` result, the store untouched, no search. A non-empty cached collection: the stored summaries in listing order joined by a blank line, with no search and no write. Otherwise: a search, and a reply made of the new summaries joined the same way. Other companies' collections never change. |
| Runner.MissWrites | ethical_shopping/runner.py:476-481 | Corrected: on a miss, the corrected write completes and the reply is the joined summaries. |
| Runner.MissThenHit | ethical_shopping/runner.py:471-481 | Corrected: after a miss that recorded a report, the next request for the same company is a hit. It makes no search, leaves the store as it is, and replies with the stored summaries. |
| Runner.MissThenHitSameReply | ethical_shopping/runner.py:473-481 | Corrected: if the recorded links were distinct and already in listing order, that hit replies exactly what the miss replied. |
| Runner.EmptyMissIsNotCached | ethical_shopping/runner.py:474-480 | Corrected: a miss on which the corrected link processing records no report stores nothing and replies with the empty string, so the next request searches again. |
| Runner.AsWrittenMissStoresWrongSummary | ethical_shopping/runner.py:478-479 | As written: after a failed download followed by a successful one, the write stores the second report's answer under the first link. It then raises `IndexError`, so the request gets no reply. |
| Runner.AsWrittenFailedMissCrashes | ethical_shopping/runner.py:276-317 | As written: if links were recorded on a miss but none of them downloaded, the write raises `IndexError` on the first document and stores nothing, so the request gets no reply. |

## Left out

- Network, files and external services are oracles, not models. This covers the HEAD request, `requests.get`, the temporary directory and its files, `pypdfium2` (a document is its sequence of pages, each an opaque string; of the library's behaviour only the page import's reading of an empty selection as "all pages" is modelled), Vertex AI, the custom search, and the Firestore client transport.
- Budget.CheckSize: every way the probe can fail is one `None`. That includes a missing header, a non-numeric header and a network error. The header's value is taken as an unbounded integer.
- Exceptions other than `requests` exceptions are not modelled, for example a malformed PDF, a blocked model reply or a store failure. The source lets them escape and fail the request; `Budget.AnswerFor` is total.
- The logging `print` of a failed download, and the JSON serialisation of the reply: the reply is modelled by the value of its `result` field.
- `find_documents`, `find_urls`, `fetch_access_token`, `read_pdf`, `process_file`, `add_suffix_to_filepath` and `generalize_url` are I/O or unused by the pipeline. The search's arguments, such as `num_results=3`, belong to the oracle. `ethical_shopping/example.py` is a client with no logic of its own.
- PageRefs.NumbersSplit: a digit run longer than 4,300 digits makes `int()` raise `ValueError` under CPython's default limit on integer string conversion. That error escapes `pdf_answerer` and `process_file_links`. The model reads every run, whatever its length.
- Non-ASCII digits: `\D` and `isdigit` also accept other Unicode digits, but only `'0'`-`'9'` count here.
- Request bodies that are JSON but not an object, and non-string company values. `Runner.Request` carries the body as an optional string map. The truthiness tests on the body and the arguments are implied by the membership tests, since a map holding the key is non-empty.
- The listing order of a collection is modelled as ascending code-point order of the document id, with a proper prefix first. Firestore's special handling of numeric ids and of `/` in ids is left out.
- Budget.SizeSumNeverDecreases: assumes probe results are non-negative. `int()` accepts a negative Content-Length, and with one the total can decrease.
- Runner.MissThenHitSameReply: the reply matches only for links that are distinct and already in listing order. Otherwise the store lists them in id order, or once, which changes the joined reply.
- Runner.Runner: uses the corrected link processing (`Budget.ProcessFileLinksAligned`). As written, a miss on which an admitted download fails ends in `IndexError` after a partial or empty write, with no reply (see "Findings"; `Runner.AsWrittenMissStoresWrongSummary` and `Runner.AsWrittenFailedMissCrashes`).
- Runner.EmptyMissIsNotCached: covers only a miss on which the corrected processing records nothing. As written, when links are recorded but every download fails, the request ends in `IndexError` instead of an empty reply (`Runner.AsWrittenFailedMissCrashes`).
- Runner.MissWrites, Runner.MissThenHit: state the corrected behaviour. As written, a miss on which a recorded link fails to download does not complete its write, so neither promise holds for it.
- Concurrent requests for the same company are not modelled; the model is one request at a time.

## Findings

| source | as written | input that shows it | evidently intended | confidence | as-written member | corrected member |
|---|---|---|---|---|---|---|
| ethical_shopping/runner.py:276-285, 315-317 | The link is appended to `links` before `requests.get`. A `RequestException` skips appending the summary and the page list but keeps the link. The write then pairs each later summary with an earlier link, and raises `IndexError` when the shorter lists run out. | Two candidates `a` and `b`, each with a Content-Length below 1,000,000. `a`'s download raises a `RequestException`; `b`'s succeeds. Then `links == [a, b]` and `summaries == [answer(b)]`. The store holds `answer(b)` under `a`, and the request fails with `IndexError`. | Record a link only with its answer, so the i-th summary belongs to the i-th link and the write completes. | not executed | Budget.FailedDownloadShiftsSummaries, Runner.AsWrittenMissStoresWrongSummary, Runner.AsWrittenFailedMissCrashes | Budget.ProcessFileLinksAligned, Runner.Runner |
