/**
 `main` with the browser replaced by the answers it gives: the scheduler's
 page requests are served by the retrying fetcher.
 */
module Orchestrator {

  import opened Extractor
  import opened Fetcher
  import opened Scheduler
  import Ranges

  /** The driver's answer to attempt `a` of the `k`-th page request of the run. */
  type Driver = (nat, nat) -> Attempt

  /** Page requests served by `perform_search` against the driver. */
  function Searcher(driver: Driver, maxRetries: int): PageSource
  {
    (k: nat, term: string, page: int) => PerformSearch((a: nat) => driver(k, a), maxRetries, term, page).batch
  }

  /** The run of `main` over the configured terms, pages per term and retry bound. */
  function Main(terms: seq<string>, pagesPerTerm: int, maxRetries: int, driver: Driver): Run
  {
    Crawl(terms, pagesPerTerm, Searcher(driver, maxRetries))
  }

  /** True iff a record belongs to one of the terms and pages 1..`pages`, ranked after the page's offset. */
  predicate Belongs(rec: Record, terms: seq<string>, pages: nat)
  {
    && rec.searchTerm in terms
    && 1 <= rec.pageNumber <= pages
    && StartIndex(rec.pageNumber) < rec.rank
  }

  /** True iff a record carries the given term and page and ranks after the page's start offset. */
  predicate BelongsTo(rec: Record, term: string, page: int)
  {
    rec.searchTerm == term && rec.pageNumber == page && StartIndex(page) < rec.rank
  }

  /**
   Every record the searcher returns for request `n` of the run carries that
   request's term `terms[n / P]` and page `n % P + 1`, and ranks after the
   page's start offset.
   */
  lemma ResponseRecordsBelong(terms: seq<string>, pages: nat, maxRetries: int, driver: Driver, n: nat)
    requires n < |Responses(terms, pages, 0, Searcher(driver, maxRetries))|
    ensures 0 < pages && n / pages < |terms|
    ensures AllBelongTo(Responses(terms, pages, 0, Searcher(driver, maxRetries))[n], terms[n / pages], n % pages + 1)
  {
    SearcherLabels(driver, maxRetries);
    LabelledResponse(terms, pages, Searcher(driver, maxRetries), n);
  }

  /** True iff every record of a batch carries the given term and page and ranks after the page's offset. */
  predicate AllBelongTo(batch: seq<Record>, term: string, page: int)
  {
    forall i :: 0 <= i < |batch| ==> BelongsTo(batch[i], term, page)
  }

  /** True iff every batch a page source returns carries the term and page it was asked for. */
  ghost predicate Labelled(fetch: PageSource)
  {
    forall k: nat, term: string, page: int {:trigger AllBelongTo(fetch(k, term, page), term, page)} ::
      AllBelongTo(fetch(k, term, page), term, page)
  }

  /** The records of a labelled source's `n`-th response belong to request `n`. */
  lemma LabelledResponse(terms: seq<string>, pages: nat, fetch: PageSource, n: nat)
    requires Labelled(fetch)
    requires n < |Responses(terms, pages, 0, fetch)|
    ensures 0 < pages && n / pages < |terms|
    ensures AllBelongTo(Responses(terms, pages, 0, fetch)[n], terms[n / pages], n % pages + 1)
  {
    ResponsesAt(terms, pages, 0, fetch, n);
    var batch := fetch(n, terms[n / pages], n % pages + 1);
    assert Responses(terms, pages, 0, fetch)[n] == batch;
    assert AllBelongTo(batch, terms[n / pages], n % pages + 1);
  }

  /** The searcher labels every record with the request's term and page. */
  lemma SearcherLabels(driver: Driver, maxRetries: int)
    ensures Labelled(Searcher(driver, maxRetries))
  {
    var fetch := Searcher(driver, maxRetries);
    forall k: nat, term: string, page: int
      ensures AllBelongTo(fetch(k, term, page), term, page)
    {
      forall i | 0 <= i < |fetch(k, term, page)|
        ensures BelongsTo(fetch(k, term, page)[i], term, page)
      {
        SearcherRecords(driver, maxRetries, k, term, page, fetch(k, term, page), i);
      }
    }
  }

  /** The searcher's records for a request carry its term and page and rank after the page's offset. */
  lemma SearcherRecords(driver: Driver, maxRetries: int, k: nat, term: string, page: int,
                        batch: seq<Record>, i: nat)
    requires batch == Searcher(driver, maxRetries)(k, term, page) && i < |batch|
    ensures BelongsTo(batch[i], term, page)
  {
    var r := PerformSearch((a: nat) => driver(k, a), maxRetries, term, page);
    assert batch == r.batch;
  }

  /**
   Every record written by the run belongs to one of the configured terms
   and to one of the pages 1..P, and its rank lies after that page's start
   offset.
   */
  lemma WrittenRecordsBelongToRequests(terms: seq<string>, pagesPerTerm: int, maxRetries: int, driver: Driver,
                                       w: nat, i: nat)
    requires w < |Writes(Main(terms, pagesPerTerm, maxRetries, driver).events)|
    requires i < |Writes(Main(terms, pagesPerTerm, maxRetries, driver).events)[w]|
    ensures Belongs(Writes(Main(terms, pagesPerTerm, maxRetries, driver).events)[w][i], terms, Ranges.Count(pagesPerTerm))
  {
    SearcherLabels(driver, maxRetries);
    LabelledWrites(terms, pagesPerTerm, Searcher(driver, maxRetries), w, i);
  }

  /** The records a run over a labelled source writes belong to its terms and pages. */
  lemma LabelledWrites(terms: seq<string>, pagesPerTerm: int, fetch: PageSource, w: nat, i: nat)
    requires Labelled(fetch)
    requires w < |Writes(Crawl(terms, pagesPerTerm, fetch).events)|
    requires i < |Writes(Crawl(terms, pagesPerTerm, fetch).events)[w]|
    ensures Belongs(Writes(Crawl(terms, pagesPerTerm, fetch).events)[w][i], terms, Ranges.Count(pagesPerTerm))
  {
    var pages := Ranges.Count(pagesPerTerm);
    var responses := Responses(terms, pages, 0, fetch);
    var batch := Writes(Crawl(terms, pagesPerTerm, fetch).events)[w];
    WrittenIsResponse(terms, pagesPerTerm, fetch, w);
    var n :| 0 <= n < |responses| && responses[n] == batch;
    LabelledResponse(terms, pages, fetch, n);
    RequestRecordBelongs(responses, terms, pages, n, i);
  }

  /** Every written batch is one of the responses. */
  lemma WrittenIsResponse(terms: seq<string>, pagesPerTerm: int, fetch: PageSource, w: nat)
    requires w < |Writes(Crawl(terms, pagesPerTerm, fetch).events)|
    ensures exists n :: 0 <= n < |Responses(terms, Ranges.Count(pagesPerTerm), 0, fetch)|
                        && Responses(terms, Ranges.Count(pagesPerTerm), 0, fetch)[n]
                           == Writes(Crawl(terms, pagesPerTerm, fetch).events)[w]
  {
    var responses := Responses(terms, Ranges.Count(pagesPerTerm), 0, fetch);
    var writes := Writes(Crawl(terms, pagesPerTerm, fetch).events);
    CrawlWrites(terms, pagesPerTerm, fetch);
    WrittenBatchWasReceived(responses, writes[w]);
  }

  /** A record of response `n`, labelled with request `n`'s term and page, belongs to the run's terms and pages. */
  lemma RequestRecordBelongs(responses: seq<seq<Record>>, terms: seq<string>, pages: nat, n: nat, i: nat)
    requires 0 < pages && n / pages < |terms| && n < |responses| && i < |responses[n]|
    requires AllBelongTo(responses[n], terms[n / pages], n % pages + 1)
    ensures Belongs(responses[n][i], terms, pages)
  {
    assert BelongsTo(responses[n][i], terms[n / pages], n % pages + 1);
  }
}
