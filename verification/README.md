# Google results-page scraper: a Dafny model of its crawl core

The scraper `free_google_scraper/google_serp.py` fetches result pages of a
search engine for a list of search terms, turns each result element into a
record (search term, absolute rank, title, destination URL, page number) and
appends the records to a CSV file page by page. This project models its
deterministic core with the browser abstracted away:

- **Extraction** (`scrape_search_element`, module `Extractor`): an element is
  either `Readable` (optional title text, optional link whose `href` comes
  already split into a path and an ordered list of query parameters) or
  `Unreadable` (one of the reads, or the parsing of the `href`, raised; the
  source catches that and turns it into `None`). Google's redirect wrapper `/url?q=<target>` is unwrapped to the
  first `q` value. Anything else keeps the raw `href`. An empty `href` is never
  parsed, so it stays `""`. With no link there is no URL.
- **Page batch** (`perform_search` lines 87-93, module `Fetcher`): page `p`
  has start offset `(p-1)*10`. The element at position `i` gets rank
  `offset+1+i`. Records that come out as `None` are dropped but still use up
  their rank.
- **Retry loop** (`perform_search`, module `Fetcher`): the outcome of each
  attempt (`Fail`, or `Ok` with the page's elements) comes from an abstract
  function of the attempt number. The model returns the batch, the URL
  navigated to on each attempt and the backoff sleeps taken.
- **Scheduler** (the loops of `main`, module `Scheduler`): terms in order,
  pages `1..PAGES_PER_TERM` within each term. The result is a trace of
  `NewTab`, `Fetch(term, page)`, `Write(batch)`, `Delay` and `CloseTab`
  events, plus the running total of records. The fetcher is a parameter.
  Module `Orchestrator` plugs the retry loop in as that fetcher.

`MAX_RETRIES` and `PAGES_PER_TERM` are parameters. The source does not
validate them. Python's `range` over a non-positive bound is empty, so a
non-positive value means no attempts, or no pages.

Details of the code the model keeps:
- The URL carries `&hl=en-US` between the term and `start`.
- The fetcher returns only a list, not a success flag.
- No configuration is validated.
- Ranks only continue across pages when every page holds at most ten
  elements. `Fetcher.ConsecutivePagesDisjoint` proves the ten-element case.
  `Fetcher.OverfullPageRanksCollide` shows an eleven-element page giving a
  rank that the next page reuses.

## Model

| member | source | states |
|---|---|---|
| Extractor.FirstValue | free_google_scraper/google_serp.py:40-41 | a value is found iff some parameter is named `q`, and it is the value of the first such parameter |
| Extractor.ResolveUrl | free_google_scraper/google_serp.py:35-41 | no link gives no URL. An empty href, a path other than `/url`, or no `q` parameter keeps the raw href. Otherwise the URL is the value of the first `q` parameter |
| Extractor.ScrapeElement | free_google_scraper/google_serp.py:22-52 | `None` exactly when reading or parsing the element raised. Otherwise the record carries the given term, rank and page, the element's title, and the resolved URL |
| Extractor.UnwrapRedirect | free_google_scraper/google_serp.py:39-41 | wrapping a non-empty destination free of `&`, `;`, `#`, `%`, `+`, tab, carriage return and line feed as `/url?q=<target>&sa=X` and resolving gives the destination back. An empty destination leaves no `q` value, so the raw href `/url?q=&sa=X` is kept |
| Extractor.DirectLinkUnchanged | free_google_scraper/google_serp.py:39-40 | a link whose path is not `/url` resolves to its raw href |
| Extractor.EmptyHrefKept | free_google_scraper/google_serp.py:36-39 | an empty href resolves to `""` whatever its path and parameters |
| Extractor.RedirectExample | free_google_scraper/google_serp.py:40-41 | `/url?q=https://example.com&sa=X` resolves to `https://example.com` |
| Extractor.MissingTitleStillEmitted | free_google_scraper/google_serp.py:31-32 | an element without a title sub-element still yields a record, with no title |
| Decimal.DecimalRoundTrip | free_google_scraper/google_serp.py:69 | the decimal rendering of the start offset in the URL reads back as the same integer, negative values included |
| Decimal.DecimalInjective | free_google_scraper/google_serp.py:69 | distinct offsets render differently |
| Ranges.RangeValues | free_google_scraper/google_serp.py:64 | `range(start, stop)` visits `start, start+1, ...` in order, `stop - start` values in all, and none when `stop <= start` |
| Fetcher.StartIndex | free_google_scraper/google_serp.py:62 | the offset is a multiple of ten, zero exactly for page 1, and never negative from page 1 on |
| Fetcher.NextPageOffset | free_google_scraper/google_serp.py:62 | consecutive pages' offsets are ten apart |
| Fetcher.SearchUrlDistinguishesOffsets | free_google_scraper/google_serp.py:69 | two search URLs for one term are equal only when their offsets are equal |
| Fetcher.PagesRequestDistinctUrls | free_google_scraper/google_serp.py:62-69 | distinct pages of one term are requested at distinct URLs |
| Fetcher.Collect | free_google_scraper/google_serp.py:88-93 | as many records as readable elements. Ranks lie in `[first, first+k)` and strictly increase. Each record is what extraction makes of the element its rank points at |
| Fetcher.CollectKeepsReadable | free_google_scraper/google_serp.py:91-93 | every readable element contributes the record of its own rank: only `None` results are dropped |
| Fetcher.AllReadableRanksContiguous | free_google_scraper/google_serp.py:89-91 | when all k elements are readable, the ranks are exactly `first .. first+k-1` in element order |
| Fetcher.ConsecutivePagesDisjoint | free_google_scraper/google_serp.py:62-91 | if page p has at most ten elements, every rank on page p is below every rank on page p+1 |
| Fetcher.OverfullPageRanksCollide | free_google_scraper/google_serp.py:62-91 | eleven elements on page 1 give ranks 1..11, and page 2 starts again at rank 11 |
| Fetcher.Attempts | free_google_scraper/google_serp.py:64-103 | at most the remaining attempts are made, all to the page's URL. Every attempt but the last failed. The loop stops early only on success. Backoffs are `2^(i+1)`, one between each pair of consecutive attempts |
| Fetcher.AttemptsBatch | free_google_scraper/google_serp.py:87-101 | the batch returned is the last attempt's page batch if that attempt succeeded, and empty otherwise |
| Fetcher.PerformSearch | free_google_scraper/google_serp.py:54-103 | at most `MAX_RETRIES` requests, all to the page's search URL. Every returned record carries the term and page and ranks after the page's offset |
| Fetcher.FirstSuccessReturnsAtOnce | free_google_scraper/google_serp.py:64-96 | if attempt k is the first success, its page batch is returned after exactly k+1 requests, with sleeps 2, 4, ..., 2^k and nothing later |
| Fetcher.ExhaustionYieldsEmptyBatch | free_google_scraper/google_serp.py:98-103 | if every allowed attempt fails: empty batch, all allowed attempts made, sleeps 2, ..., 2^(n-1), and no sleep after the last failure |
| Fetcher.NoRetriesNoRequest | free_google_scraper/google_serp.py:64-103 | with `MAX_RETRIES = 0` nothing is requested, nothing is slept and the batch is empty |
| Fetcher.BackoffTraceExample | free_google_scraper/google_serp.py:98-102 | three failing attempts sleep `[2, 4]` |
| Scheduler.NonEmptyKeepsRecords | free_google_scraper/google_serp.py:136-138 | skipping empty batches loses no record and leaves no empty batch |
| Scheduler.TermPagesFetches | free_google_scraper/google_serp.py:131-134 | a term requests its pages in increasing page order |
| Scheduler.TermPagesWrites | free_google_scraper/google_serp.py:136-139 | a term writes exactly its non-empty batches, in the order received |
| Scheduler.TermPagesTotal | free_google_scraper/google_serp.py:136-138 | the running total grows by exactly the number of records a term writes |
| Scheduler.TermPagesDelays | free_google_scraper/google_serp.py:141-143 | a term with pages `page..P` has `P - page` delays |
| Scheduler.TermPagesEndWithoutDelay | free_google_scraper/google_serp.py:141-143 | the events of a term's pages never end in a delay: the last page gets none |
| Scheduler.TermPagesStayInTab | free_google_scraper/google_serp.py:128-145 | a term's pages open no tab and keep that term's tab open |
| Scheduler.TermsFetches | free_google_scraper/google_serp.py:127-134 | the requests of the remaining terms follow term-major order |
| Scheduler.TermsWrites | free_google_scraper/google_serp.py:132-139 | the remaining terms write exactly the non-empty responses, in request order |
| Scheduler.TermsTotal | free_google_scraper/google_serp.py:136-138 | the final total is the running total plus the records written |
| Scheduler.TermsDelays | free_google_scraper/google_serp.py:141-143 | each term contributes P-1 delays |
| Scheduler.TermsTabs | free_google_scraper/google_serp.py:127-145 | tabs are opened for exactly the terms, in order, and the tab discipline ends closed |
| Scheduler.ExpectedFetchesAt | free_google_scraper/google_serp.py:127-131 | in term-major order, request k is page `k % P + 1` of term `k / P` |
| Scheduler.CrawlRequestOrder | free_google_scraper/google_serp.py:127-134 | a run makes `|terms| * P` requests, and request k is page `k % P + 1` of term `k / P` |
| Scheduler.CrawlOrderExample | free_google_scraper/google_serp.py:127-134 | terms `["a","b"]` with two pages give (a,1), (a,2), (b,1), (b,2) |
| Scheduler.CrawlTabDiscipline | free_google_scraper/google_serp.py:127-145 | one tab per term, in term order. Every request is made in its own term's open tab. Tabs never overlap, and all are closed at the end |
| Scheduler.CrawlDelays | free_google_scraper/google_serp.py:141-143 | a run has `|terms| * (P-1)` pacing delays, or none when P is not positive |
| Scheduler.CrawlWrites | free_google_scraper/google_serp.py:132-139 | the writes are exactly the non-empty responses, in order, none empty. The final total is the number of records written, which equals the number returned |
| Scheduler.ResponsesAt | free_google_scraper/google_serp.py:127-134 | response n of a run is the fetcher's answer to request n, which asks for page `n % P + 1` of term `n / P` |
| Scheduler.WrittenBatchWasReceived | free_google_scraper/google_serp.py:136-137 | every written batch is one of the batches received |
| Scheduler.CrawlAfterFetch | free_google_scraper/google_serp.py:131-145 | the request preceded by k others is page `k % P + 1` of term `k / P`. Right after it come the write (and flush) of its response when that is not empty, then a pacing delay, or the close of the term's tab when it was the term's last page |
| Orchestrator.ResponseRecordsBelong | free_google_scraper/google_serp.py:89-93 | every record of response n carries term `terms[n / P]` and page `n % P + 1`, and its rank lies after that page's start offset |
| Orchestrator.WrittenRecordsBelongToRequests | free_google_scraper/google_serp.py:127-139 | every record the run writes belongs to a configured term and a page 1..P, and ranks after that page's offset |

## Left out

- Browser driver calls (`goto`, `wait_for_selector`, `query_selector(_all)`, `inner_text`, `get_attribute`, `click`): they are foreign asynchronous I/O. Their effect appears as the `Element` and `Attempt` values, and as the `Driver` function from (request number, attempt number) to outcome. The request number is a modelling device that lets repeated requests get different answers.
- `stealth_async` (line 129): an opaque hook with no effect on the records. It is folded into `NewTab`.
- Consent-dialog dismissal (lines 73-78): every failure is swallowed and it cannot change the result, so it is a no-op.
- The random pause inside an attempt (line 84) is not represented. It happens on every attempt that gets past the wait for results at line 81, including one whose element query then raises, and it has no effect on the result. The inter-page pause (line 143) is an opaque `Delay` event. The durations are random floats and are not modelled.
- `urlparse`/`parse_qs` internals (percent-decoding, dropping blank values such as `q=`): library behaviour. The parsed path and parameter list are inputs of `Link`.
- Extractor.UnwrapRedirect: stated only for destinations without `&`, `;`, `#`, `%`, `+`, tab, carriage return or line feed. For those, URL splitting (which removes tab, CR and LF anywhere), query splitting and percent-decoding would change the value, which is `urlparse`/`parse_qs` behaviour outside the model.
- Which exceptions reading an element or parsing its `href` can raise (for instance `urlparse` rejecting an href such as `http://[::1` as an invalid IPv6 URL): `Unreadable` stands for any of them.
- Percent-encoding of the search term in the URL: the source interpolates the term raw, and the model concatenates it raw.
- CSV output (file open, UTF-8 BOM, header row, `writerows`, `flush`): file I/O. `Write(batch)` stands for one `writerows` followed by one `flush`. The header row written once at start-up is not in the trace.
- A failure to launch the browser, create the context or open a tab aborts the whole run in the source. The model assumes these succeed.
- `asyncio` scheduling, `print` logging and the `time.time()` duration summary: concurrency plumbing, console output and float timing.
- Configuration validation: the source performs none, and none is invented.
