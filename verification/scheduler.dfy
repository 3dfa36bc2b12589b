/**
 The term-by-page loop of `main`: terms in their configured order, pages
 1..P within each term, one browser tab per term, a pacing delay between the
 pages of a term, and each non-empty batch written out as soon as it arrives
 while a running total of records is kept.
 */
module Scheduler {

  import opened Extractor
  import opened Arith
  import Ranges

  /**
   What the loop does, in order: open a tab for a term, request a page,
   write (and flush) a batch, pause for a randomized pacing delay, close the
   term's tab.
   */
  datatype Event =
    | NewTab(term: string)
    | Fetch(term: string, page: int)
    | Write(batch: seq<Record>)
    | Delay
    | CloseTab(term: string)

  /** The events of a run together with the running total of records written. */
  datatype Run = Run(events: seq<Event>, total: nat)

  /**
   The batch returned for a page request: the 0-based index of the request
   within the run, the term and the page number. The index lets the driver
   answer repeated requests differently.
   */
  type PageSource = (nat, string, int) -> seq<Record>

  /** The write (and flush) of a batch, skipped when the batch is empty. */
  function Written(batch: seq<Record>): seq<Event>
  {
    if |batch| > 0 then [Write(batch)] else []
  }

  /**
   The events of one page: its request, a write when the batch is not empty,
   and a delay unless it is the term's last page.
   */
  function PageSteps(term: string, page: int, pages: nat, batch: seq<Record>): seq<Event>
  {
    [Fetch(term, page)] + Written(batch) + (if page < pages then [Delay] else [])
  }

  /**
   The pages `page`..`pages` of one term, whose page 1 is request number
   `base`; each batch's length is added to the running total.
   */
  function TermPages(term: string, page: nat, pages: nat, base: nat, fetch: PageSource, total: nat): Run
    requires 1 <= page <= pages + 1
    decreases pages + 1 - page
  {
    if page > pages then Run([], total)
    else
      var batch := fetch(base + page - 1, term, page);
      var rest := TermPages(term, page + 1, pages, base, fetch, total + |batch|);
      Run(PageSteps(term, page, pages, batch) + rest.events, rest.total)
  }

  /** The events of one term: its pages inside a tab opened and closed for it. */
  function TabBlock(term: string, inner: seq<Event>): seq<Event>
  {
    [NewTab(term)] + inner + [CloseTab(term)]
  }

  /** The remaining terms, each in a tab of its own; the first is request number `base`. */
  function Terms(terms: seq<string>, pages: nat, base: nat, fetch: PageSource, total: nat): Run
    decreases |terms|
  {
    if |terms| == 0 then Run([], total)
    else
      var tab := TermPages(terms[0], 1, pages, base, fetch, total);
      var rest := Terms(terms[1..], pages, base + pages, fetch, tab.total);
      Run(TabBlock(terms[0], tab.events) + rest.events, rest.total)
  }

  /** The whole loop of `main`, starting from a total of zero. */
  function Crawl(terms: seq<string>, pagesPerTerm: int, fetch: PageSource): Run
  {
    Terms(terms, Ranges.Count(pagesPerTerm), 0, fetch, 0)
  }

  // ---------------------------------------------------------------------
  // Observations of a trace

  /** The page requests of a trace, in order. */
  function Fetches(events: seq<Event>): seq<Event>
  {
    if |events| == 0 then []
    else (if events[0].Fetch? then [events[0]] else []) + Fetches(events[1..])
  }

  /** The batches written by a trace, in order. */
  function Writes(events: seq<Event>): seq<seq<Record>>
  {
    if |events| == 0 then []
    else (if events[0].Write? then [events[0].batch] else []) + Writes(events[1..])
  }

  /** The number of pacing delays in a trace. */
  function Delays(events: seq<Event>): nat
  {
    if |events| == 0 then 0 else (if events[0].Delay? then 1 else 0) + Delays(events[1..])
  }

  /** The terms tabs are opened for, in order. */
  function Opened(events: seq<Event>): seq<string>
  {
    if |events| == 0 then []
    else (if events[0].NewTab? then [events[0].term] else []) + Opened(events[1..])
  }

  lemma {:induction false} FetchesConcat(a: seq<Event>, b: seq<Event>)
    ensures Fetches(a + b) == Fetches(a) + Fetches(b)
    decreases |a|
  {
    if |a| > 0 {
      assert (a + b)[1..] == a[1..] + b;
      FetchesConcat(a[1..], b);
    } else {
      assert a + b == b;
    }
  }

  lemma {:induction false} WritesConcat(a: seq<Event>, b: seq<Event>)
    ensures Writes(a + b) == Writes(a) + Writes(b)
    decreases |a|
  {
    if |a| > 0 {
      assert (a + b)[1..] == a[1..] + b;
      WritesConcat(a[1..], b);
    } else {
      assert a + b == b;
    }
  }

  lemma {:induction false} DelaysConcat(a: seq<Event>, b: seq<Event>)
    ensures Delays(a + b) == Delays(a) + Delays(b)
    decreases |a|
  {
    if |a| > 0 {
      assert (a + b)[1..] == a[1..] + b;
      DelaysConcat(a[1..], b);
    } else {
      assert a + b == b;
    }
  }

  lemma {:induction false} OpenedConcat(a: seq<Event>, b: seq<Event>)
    ensures Opened(a + b) == Opened(a) + Opened(b)
    decreases |a|
  {
    if |a| > 0 {
      assert (a + b)[1..] == a[1..] + b;
      OpenedConcat(a[1..], b);
    } else {
      assert a + b == b;
    }
  }

  /** The number of records in a list of batches. */
  function TotalLength(batches: seq<seq<Record>>): nat
  {
    if |batches| == 0 then 0 else |batches[0]| + TotalLength(batches[1..])
  }

  /** The non-empty batches of a list, in order. */
  function NonEmpty(batches: seq<seq<Record>>): seq<seq<Record>>
  {
    if |batches| == 0 then []
    else (if |batches[0]| > 0 then [batches[0]] else []) + NonEmpty(batches[1..])
  }

  lemma {:induction false} TotalLengthConcat(a: seq<seq<Record>>, b: seq<seq<Record>>)
    ensures TotalLength(a + b) == TotalLength(a) + TotalLength(b)
    decreases |a|
  {
    if |a| > 0 {
      assert (a + b)[1..] == a[1..] + b;
      TotalLengthConcat(a[1..], b);
    } else {
      assert a + b == b;
    }
  }

  lemma {:induction false} NonEmptyConcat(a: seq<seq<Record>>, b: seq<seq<Record>>)
    ensures NonEmpty(a + b) == NonEmpty(a) + NonEmpty(b)
    decreases |a|
  {
    if |a| > 0 {
      assert (a + b)[1..] == a[1..] + b;
      NonEmptyConcat(a[1..], b);
    } else {
      assert a + b == b;
    }
  }

  /** Dropping empty batches loses no record and leaves no empty batch. */
  lemma {:induction false} NonEmptyKeepsRecords(batches: seq<seq<Record>>)
    ensures TotalLength(NonEmpty(batches)) == TotalLength(batches)
    ensures forall i :: 0 <= i < |NonEmpty(batches)| ==> |NonEmpty(batches)[i]| > 0
    decreases |batches|
  {
    if |batches| > 0 {
      var head := if |batches[0]| > 0 then [batches[0]] else [];
      NonEmptyKeepsRecords(batches[1..]);
      TotalLengthConcat(head, NonEmpty(batches[1..]));
    }
  }

  // ---------------------------------------------------------------------
  // Tab discipline

  /** The state of the tab: none open, one open for a term, or the discipline broken. */
  datatype Tab = Closed | Open(term: string) | Broken

  /**
   One event of the tab discipline: a tab is opened only when none is open
   and closed only by its own term; a request is made only in the tab of its
   term; writes and delays happen only while a tab is open.
   */
  function Step(s: Tab, e: Event): Tab
  {
    match e
    case NewTab(t) => if s.Closed? then Open(t) else Broken
    case CloseTab(t) => if s == Open(t) then Closed else Broken
    case Fetch(t, _) => if s == Open(t) then s else Broken
    case Write(_) => if s.Open? then s else Broken
    case Delay => if s.Open? then s else Broken
  }

  /** The tab state after a whole trace. */
  function Replay(s: Tab, events: seq<Event>): Tab
    decreases |events|
  {
    if |events| == 0 then s else Replay(Step(s, events[0]), events[1..])
  }

  lemma {:induction false} ReplayConcat(s: Tab, a: seq<Event>, b: seq<Event>)
    ensures Replay(s, a + b) == Replay(Replay(s, a), b)
    decreases |a|
  {
    if |a| > 0 {
      assert (a + b)[1..] == a[1..] + b;
      ReplayConcat(Step(s, a[0]), a[1..], b);
    } else {
      assert a + b == b;
    }
  }

  /** Once broken, the discipline stays broken. */
  lemma {:induction false} BrokenStaysBroken(events: seq<Event>)
    ensures Replay(Broken, events) == Broken
    decreases |events|
  {
    if |events| > 0 {
      BrokenStaysBroken(events[1..]);
    }
  }

  // ---------------------------------------------------------------------
  // Reference orders

  /** The requests for pages `page`..`pages` of one term, in page order. */
  function TermFetches(term: string, page: nat, pages: nat): (r: seq<Event>)
    requires 1 <= page <= pages + 1
    ensures |r| == pages + 1 - page
  {
    seq(pages + 1 - page, j => Fetch(term, page + j))
  }

  /** The batches a term's pages return, from page `page` on; page 1 is request number `base`. */
  function TermResponses(term: string, page: nat, pages: nat, base: nat, fetch: PageSource): seq<seq<Record>>
    requires 1 <= page <= pages + 1
  {
    seq(pages + 1 - page, j requires 0 <= j => fetch(base + page - 1 + j, term, page + j))
  }

  /** Term-major request order: every page of a term before the next term. */
  function ExpectedFetches(terms: seq<string>, pages: nat): (r: seq<Event>)
    ensures |r| == |terms| * pages
  {
    if |terms| == 0 then []
    else TermFetches(terms[0], 1, pages) + ExpectedFetches(terms[1..], pages)
  }

  /** The batches the fetcher returns for the requests of a run, in request order. */
  function Responses(terms: seq<string>, pages: nat, base: nat, fetch: PageSource): (r: seq<seq<Record>>)
    ensures |r| == |terms| * pages
  {
    if |terms| == 0 then []
    else TermResponses(terms[0], 1, pages, base, fetch) + Responses(terms[1..], pages, base + pages, fetch)
  }

  lemma TermFetchesUnfold(term: string, page: nat, pages: nat)
    requires 1 <= page <= pages
    ensures TermFetches(term, page, pages) == [Fetch(term, page)] + TermFetches(term, page + 1, pages)
  {
  }

  lemma TermResponsesUnfold(term: string, page: nat, pages: nat, base: nat, fetch: PageSource)
    requires 1 <= page <= pages
    ensures TermResponses(term, page, pages, base, fetch)
            == [fetch(base + page - 1, term, page)] + TermResponses(term, page + 1, pages, base, fetch)
  {
  }

  // ---------------------------------------------------------------------
  // One page

  lemma PageStepsObserved(term: string, page: int, pages: nat, batch: seq<Record>)
    ensures Fetches(PageSteps(term, page, pages, batch)) == [Fetch(term, page)]
    ensures Writes(PageSteps(term, page, pages, batch)) == NonEmpty([batch])
    ensures TotalLength(Writes(PageSteps(term, page, pages, batch))) == |batch|
    ensures Delays(PageSteps(term, page, pages, batch)) == if page < pages then 1 else 0
    ensures Opened(PageSteps(term, page, pages, batch)) == []
    ensures Replay(Open(term), PageSteps(term, page, pages, batch)) == Open(term)
  {
    var written := Written(batch);
    var pause: seq<Event> := if page < pages then [Delay] else [];
    var front := [Fetch(term, page)] + written;
    FetchesConcat(front, pause);
    FetchesConcat([Fetch(term, page)], written);
    WritesConcat(front, pause);
    WritesConcat([Fetch(term, page)], written);
    DelaysConcat(front, pause);
    DelaysConcat([Fetch(term, page)], written);
    OpenedConcat(front, pause);
    OpenedConcat([Fetch(term, page)], written);
    ReplayConcat(Open(term), front, pause);
    ReplayConcat(Open(term), [Fetch(term, page)], written);
    if |batch| > 0 {
      assert NonEmpty([batch]) == [batch];
    } else {
      assert NonEmpty([batch]) == [];
    }
  }

  // ---------------------------------------------------------------------
  // One term

  /** A term requests its pages `page`..`pages` in increasing order. */
  lemma {:induction false} TermPagesFetches(term: string, page: nat, pages: nat, base: nat, fetch: PageSource, total: nat)
    requires 1 <= page <= pages + 1
    ensures Fetches(TermPages(term, page, pages, base, fetch, total).events) == TermFetches(term, page, pages)
    decreases pages + 1 - page
  {
    if page <= pages {
      var batch := fetch(base + page - 1, term, page);
      var rest := TermPages(term, page + 1, pages, base, fetch, total + |batch|);
      TermPagesFetches(term, page + 1, pages, base, fetch, total + |batch|);
      FetchesConcat(PageSteps(term, page, pages, batch), rest.events);
      PageStepsObserved(term, page, pages, batch);
      TermFetchesUnfold(term, page, pages);
    }
  }

  /** A term writes exactly its non-empty batches, in the order received. */
  lemma {:induction false} TermPagesWrites(term: string, page: nat, pages: nat, base: nat, fetch: PageSource, total: nat)
    requires 1 <= page <= pages + 1
    ensures Writes(TermPages(term, page, pages, base, fetch, total).events)
            == NonEmpty(TermResponses(term, page, pages, base, fetch))
    decreases pages + 1 - page
  {
    if page <= pages {
      var batch := fetch(base + page - 1, term, page);
      var rest := TermPages(term, page + 1, pages, base, fetch, total + |batch|);
      TermPagesWrites(term, page + 1, pages, base, fetch, total + |batch|);
      WritesConcat(PageSteps(term, page, pages, batch), rest.events);
      PageStepsObserved(term, page, pages, batch);
      TermResponsesUnfold(term, page, pages, base, fetch);
      NonEmptyConcat([batch], TermResponses(term, page + 1, pages, base, fetch));
    } else {
      assert TermResponses(term, page, pages, base, fetch) == [];
    }
  }

  /** The running total grows by exactly the number of records a term writes. */
  lemma {:induction false} TermPagesTotal(term: string, page: nat, pages: nat, base: nat, fetch: PageSource, total: nat)
    requires 1 <= page <= pages + 1
    ensures var r := TermPages(term, page, pages, base, fetch, total);
            r.total == total + TotalLength(Writes(r.events))
    decreases pages + 1 - page
  {
    if page <= pages {
      var batch := fetch(base + page - 1, term, page);
      var rest := TermPages(term, page + 1, pages, base, fetch, total + |batch|);
      TermPagesTotal(term, page + 1, pages, base, fetch, total + |batch|);
      WritesConcat(PageSteps(term, page, pages, batch), rest.events);
      PageStepsObserved(term, page, pages, batch);
      TotalLengthConcat(Writes(PageSteps(term, page, pages, batch)), Writes(rest.events));
    }
  }

  /** A delay follows every page of a term except its last. */
  lemma {:induction false} TermPagesDelays(term: string, page: nat, pages: nat, base: nat, fetch: PageSource, total: nat)
    requires 1 <= page <= pages + 1
    ensures Delays(TermPages(term, page, pages, base, fetch, total).events)
            == if page <= pages then pages - page else 0
    decreases pages + 1 - page
  {
    if page <= pages {
      var batch := fetch(base + page - 1, term, page);
      var rest := TermPages(term, page + 1, pages, base, fetch, total + |batch|);
      TermPagesDelays(term, page + 1, pages, base, fetch, total + |batch|);
      DelaysConcat(PageSteps(term, page, pages, batch), rest.events);
      PageStepsObserved(term, page, pages, batch);
    }
  }

  /** A term's last page is not followed by a delay: its events never end in one. */
  lemma {:induction false} TermPagesEndWithoutDelay(term: string, page: nat, pages: nat, base: nat, fetch: PageSource, total: nat)
    requires 1 <= page <= pages
    ensures var events := TermPages(term, page, pages, base, fetch, total).events;
            |events| > 0 && !events[|events| - 1].Delay?
    decreases pages + 1 - page
  {
    var batch := fetch(base + page - 1, term, page);
    var steps := PageSteps(term, page, pages, batch);
    var rest := TermPages(term, page + 1, pages, base, fetch, total + |batch|);
    if page < pages {
      TermPagesEndWithoutDelay(term, page + 1, pages, base, fetch, total + |batch|);
      assert (steps + rest.events)[|steps + rest.events| - 1] == rest.events[|rest.events| - 1];
    } else {
      assert rest.events == [];
      assert steps + rest.events == steps;
    }
  }

  /** The pages of a term open no tab and keep that term's tab open. */
  lemma {:induction false} TermPagesStayInTab(term: string, page: nat, pages: nat, base: nat, fetch: PageSource, total: nat)
    requires 1 <= page <= pages + 1
    ensures Opened(TermPages(term, page, pages, base, fetch, total).events) == []
    ensures Replay(Open(term), TermPages(term, page, pages, base, fetch, total).events) == Open(term)
    decreases pages + 1 - page
  {
    if page <= pages {
      var batch := fetch(base + page - 1, term, page);
      var rest := TermPages(term, page + 1, pages, base, fetch, total + |batch|);
      TermPagesStayInTab(term, page + 1, pages, base, fetch, total + |batch|);
      OpenedConcat(PageSteps(term, page, pages, batch), rest.events);
      ReplayConcat(Open(term), PageSteps(term, page, pages, batch), rest.events);
      PageStepsObserved(term, page, pages, batch);
    }
  }

  /** What a term's tab block shows of its inner events. */
  lemma TabBlockObserved(term: string, inner: seq<Event>)
    ensures Fetches(TabBlock(term, inner)) == Fetches(inner)
    ensures Writes(TabBlock(term, inner)) == Writes(inner)
    ensures Delays(TabBlock(term, inner)) == Delays(inner)
    ensures Opened(TabBlock(term, inner)) == [term] + Opened(inner)
    ensures Replay(Open(term), inner) == Open(term) ==> Replay(Closed, TabBlock(term, inner)) == Closed
  {
    var front := [NewTab(term)] + inner;
    FetchesConcat(front, [CloseTab(term)]);
    FetchesConcat([NewTab(term)], inner);
    WritesConcat(front, [CloseTab(term)]);
    WritesConcat([NewTab(term)], inner);
    DelaysConcat(front, [CloseTab(term)]);
    DelaysConcat([NewTab(term)], inner);
    OpenedConcat(front, [CloseTab(term)]);
    OpenedConcat([NewTab(term)], inner);
    ReplayConcat(Closed, front, [CloseTab(term)]);
    ReplayConcat(Closed, [NewTab(term)], inner);
  }

  // ---------------------------------------------------------------------
  // The whole run

  /** Requests are issued in term-major order. */
  lemma {:induction false} TermsFetches(terms: seq<string>, pages: nat, base: nat, fetch: PageSource, total: nat)
    ensures Fetches(Terms(terms, pages, base, fetch, total).events) == ExpectedFetches(terms, pages)
    decreases |terms|
  {
    if |terms| > 0 {
      var tab := TermPages(terms[0], 1, pages, base, fetch, total);
      var rest := Terms(terms[1..], pages, base + pages, fetch, tab.total);
      TermPagesFetches(terms[0], 1, pages, base, fetch, total);
      TermsFetches(terms[1..], pages, base + pages, fetch, tab.total);
      FetchesConcat(TabBlock(terms[0], tab.events), rest.events);
      TabBlockObserved(terms[0], tab.events);
    }
  }

  /** The run writes exactly the non-empty responses, in request order. */
  lemma {:induction false} TermsWrites(terms: seq<string>, pages: nat, base: nat, fetch: PageSource, total: nat)
    ensures Writes(Terms(terms, pages, base, fetch, total).events) == NonEmpty(Responses(terms, pages, base, fetch))
    decreases |terms|
  {
    if |terms| > 0 {
      var tab := TermPages(terms[0], 1, pages, base, fetch, total);
      var rest := Terms(terms[1..], pages, base + pages, fetch, tab.total);
      TermPagesWrites(terms[0], 1, pages, base, fetch, total);
      TermsWrites(terms[1..], pages, base + pages, fetch, tab.total);
      WritesConcat(TabBlock(terms[0], tab.events), rest.events);
      TabBlockObserved(terms[0], tab.events);
      NonEmptyConcat(TermResponses(terms[0], 1, pages, base, fetch), Responses(terms[1..], pages, base + pages, fetch));
    }
  }

  /** The final total is the number of records the whole run writes. */
  lemma {:induction false} TermsTotal(terms: seq<string>, pages: nat, base: nat, fetch: PageSource, total: nat)
    ensures var r := Terms(terms, pages, base, fetch, total);
            r.total == total + TotalLength(Writes(r.events))
    decreases |terms|
  {
    if |terms| > 0 {
      var tab := TermPages(terms[0], 1, pages, base, fetch, total);
      var rest := Terms(terms[1..], pages, base + pages, fetch, tab.total);
      TermPagesTotal(terms[0], 1, pages, base, fetch, total);
      TermsTotal(terms[1..], pages, base + pages, fetch, tab.total);
      WritesConcat(TabBlock(terms[0], tab.events), rest.events);
      TabBlockObserved(terms[0], tab.events);
      TotalLengthConcat(Writes(tab.events), Writes(rest.events));
    }
  }

  /** Each term contributes one delay fewer than its number of pages. */
  lemma {:induction false} TermsDelays(terms: seq<string>, pages: nat, base: nat, fetch: PageSource, total: nat)
    ensures Delays(Terms(terms, pages, base, fetch, total).events)
            == |terms| * (if pages == 0 then 0 else pages - 1)
    decreases |terms|
  {
    if |terms| > 0 {
      var tab := TermPages(terms[0], 1, pages, base, fetch, total);
      var rest := Terms(terms[1..], pages, base + pages, fetch, tab.total);
      TermPagesDelays(terms[0], 1, pages, base, fetch, total);
      TermsDelays(terms[1..], pages, base + pages, fetch, tab.total);
      DelaysConcat(TabBlock(terms[0], tab.events), rest.events);
      TabBlockObserved(terms[0], tab.events);
      MulSucc(|terms[1..]|, if pages == 0 then 0 else pages - 1);
    }
  }

  /**
   Each term gets exactly one tab, in the order of the terms; every request
   happens inside the tab of its own term and every tab is closed again.
   */
  lemma {:induction false} TermsTabs(terms: seq<string>, pages: nat, base: nat, fetch: PageSource, total: nat)
    ensures Opened(Terms(terms, pages, base, fetch, total).events) == terms
    ensures Replay(Closed, Terms(terms, pages, base, fetch, total).events) == Closed
    decreases |terms|
  {
    if |terms| > 0 {
      var tab := TermPages(terms[0], 1, pages, base, fetch, total);
      var rest := Terms(terms[1..], pages, base + pages, fetch, tab.total);
      TermPagesStayInTab(terms[0], 1, pages, base, fetch, total);
      TermsTabs(terms[1..], pages, base + pages, fetch, tab.total);
      OpenedConcat(TabBlock(terms[0], tab.events), rest.events);
      ReplayConcat(Closed, TabBlock(terms[0], tab.events), rest.events);
      TabBlockObserved(terms[0], tab.events);
    }
  }

  // ---------------------------------------------------------------------
  // Properties of `main`'s loop

  /** The `k`-th request (0-based) of a run is page `k % P + 1` of term number `k / P`. */
  lemma {:induction false} ExpectedFetchesAt(terms: seq<string>, pages: nat, k: nat)
    requires 0 < pages && k < |terms| * pages
    ensures k / pages < |terms|
    ensures ExpectedFetches(terms, pages)[k] == Fetch(terms[k / pages], k % pages + 1)
    decreases |terms|
  {
    var e := ExpectedFetches(terms, pages);
    assert |terms| > 0;
    var first := TermFetches(terms[0], 1, pages);
    var rest := ExpectedFetches(terms[1..], pages);
    assert e == first + rest;
    if k < pages {
      DivSmall(k, pages);
      assert e[k] == first[k];
    } else {
      DivStep(k, pages);
      assert k - pages < |rest|;
      ExpectedFetchesAt(terms[1..], pages, k - pages);
      assert e[k] == rest[k - pages];
      assert terms[1..][(k - pages) / pages] == terms[(k - pages) / pages + 1];
    }
  }

  /**
   Requests are issued term-major: all pages of a term, in increasing page
   order, before any page of the next term.
   */
  lemma CrawlRequestOrder(terms: seq<string>, pagesPerTerm: int, fetch: PageSource)
    ensures var fetches := Fetches(Crawl(terms, pagesPerTerm, fetch).events);
            && |fetches| == |terms| * Ranges.Count(pagesPerTerm)
            && forall k :: 0 <= k < |fetches| ==>
                 && k / Ranges.Count(pagesPerTerm) < |terms|
                 && fetches[k] == Fetch(terms[k / Ranges.Count(pagesPerTerm)], k % Ranges.Count(pagesPerTerm) + 1)
  {
    var pages := Ranges.Count(pagesPerTerm);
    TermsFetches(terms, pages, 0, fetch, 0);
    forall k | 0 <= k < |terms| * pages
      ensures k / pages < |terms| && ExpectedFetches(terms, pages)[k] == Fetch(terms[k / pages], k % pages + 1)
    {
      ExpectedFetchesAt(terms, pages, k);
    }
  }

  /** Terms `["a", "b"]` with two pages each are requested as (a,1), (a,2), (b,1), (b,2). */
  lemma CrawlOrderExample(fetch: PageSource)
    ensures Fetches(Crawl(["a", "b"], 2, fetch).events)
            == [Fetch("a", 1), Fetch("a", 2), Fetch("b", 1), Fetch("b", 2)]
  {
    CrawlRequestOrder(["a", "b"], 2, fetch);
  }

  /**
   Each term gets exactly one tab, the tabs follow the order of the terms,
   every request is made in the open tab of its own term, and every tab is
   closed before the next opens and by the end of the run.
   */
  lemma CrawlTabDiscipline(terms: seq<string>, pagesPerTerm: int, fetch: PageSource)
    ensures Opened(Crawl(terms, pagesPerTerm, fetch).events) == terms
    ensures Replay(Closed, Crawl(terms, pagesPerTerm, fetch).events) == Closed
  {
    TermsTabs(terms, Ranges.Count(pagesPerTerm), 0, fetch, 0);
  }

  /** A pacing delay follows every page but the last of each term: P - 1 per term. */
  lemma CrawlDelays(terms: seq<string>, pagesPerTerm: int, fetch: PageSource)
    ensures Delays(Crawl(terms, pagesPerTerm, fetch).events)
            == if pagesPerTerm <= 0 then 0 else |terms| * (pagesPerTerm - 1)
  {
    TermsDelays(terms, Ranges.Count(pagesPerTerm), 0, fetch, 0);
  }

  /**
   The run writes exactly the non-empty batches, in the order they were
   received; no empty batch is written; the final total is the number of
   records written, which is the number of records returned.
   */
  lemma CrawlWrites(terms: seq<string>, pagesPerTerm: int, fetch: PageSource)
    ensures var r := Crawl(terms, pagesPerTerm, fetch);
            var responses := Responses(terms, Ranges.Count(pagesPerTerm), 0, fetch);
            && Writes(r.events) == NonEmpty(responses)
            && (forall i :: 0 <= i < |Writes(r.events)| ==> |Writes(r.events)[i]| > 0)
            && r.total == TotalLength(Writes(r.events)) == TotalLength(responses)
  {
    var pages := Ranges.Count(pagesPerTerm);
    TermsWrites(terms, pages, 0, fetch, 0);
    TermsTotal(terms, pages, 0, fetch, 0);
    NonEmptyKeepsRecords(Responses(terms, pages, 0, fetch));
  }

  /** A written batch is one of the batches received. */
  lemma {:induction false} WrittenBatchWasReceived(batches: seq<seq<Record>>, b: seq<Record>)
    requires b in NonEmpty(batches)
    ensures b in batches
    decreases |batches|
  {
    if |batches| > 0 {
      var head := if |batches[0]| > 0 then [batches[0]] else [];
      if b !in head {
        assert NonEmpty(batches) == head + NonEmpty(batches[1..]);
        WrittenBatchWasReceived(batches[1..], b);
      }
    }
  }

  /**
   The `n`-th response (0-based) of a run is the fetcher's answer to request
   `base + n`, which is page `n % P + 1` of term number `n / P`.
   */
  lemma {:induction false} ResponsesAt(terms: seq<string>, pages: nat, base: nat, fetch: PageSource, n: nat)
    requires n < |Responses(terms, pages, base, fetch)|
    ensures 0 < pages && n / pages < |terms|
    ensures Responses(terms, pages, base, fetch)[n] == fetch(base + n, terms[n / pages], n % pages + 1)
    decreases |terms|
  {
    var first := TermResponses(terms[0], 1, pages, base, fetch);
    var rest := Responses(terms[1..], pages, base + pages, fetch);
    assert Responses(terms, pages, base, fetch) == first + rest;
    if n < pages {
      DivSmall(n, pages);
      assert first[n] == fetch(base + n, terms[0], n + 1);
    } else {
      DivStep(n, pages);
      assert n - pages < |rest|;
      ResponsesAt(terms[1..], pages, base + pages, fetch, n - pages);
      assert terms[1..][(n - pages) / pages] == terms[(n - pages) / pages + 1];
    }
  }

  // ---------------------------------------------------------------------
  // What follows each request in the trace

  /** True iff the events from position `i` on begin with `s`. */
  predicate StartsAt(events: seq<Event>, i: nat, s: seq<Event>)
  {
    i + |s| <= |events| && events[i..i + |s|] == s
  }

  /**
   The events that follow the request for page `page` of `term` out of
   `pages`: the write of its batch when that is not empty, then a pacing
   delay, or the close of the term's tab after its last page.
   */
  function Trailer(term: string, page: int, pages: nat, batch: seq<Record>): seq<Event>
  {
    Written(batch) + (if page < pages then [Delay] else [CloseTab(term)])
  }

  lemma StartsAtShift(a: seq<Event>, b: seq<Event>, i: nat, s: seq<Event>)
    requires StartsAt(b, i, s)
    ensures StartsAt(a + b, |a| + i, s)
  {
    assert (a + b)[|a| + i..|a| + i + |s|] == b[i..i + |s|];
  }

  lemma StartsAtExtend(a: seq<Event>, b: seq<Event>, i: nat, s: seq<Event>)
    requires StartsAt(a, i, s)
    ensures StartsAt(a + b, i, s)
  {
    assert (a + b)[i..i + |s|] == a[i..i + |s|];
  }

  /** The requests before a position in the second part of a trace. */
  lemma FetchesBefore(a: seq<Event>, b: seq<Event>, i: nat)
    requires |a| <= i <= |a| + |b|
    ensures |Fetches((a + b)[..i])| == |Fetches(a)| + |Fetches(b[..i - |a|])|
  {
    assert (a + b)[..i] == a + b[..i - |a|];
    FetchesConcat(a, b[..i - |a|]);
  }

  /** The request at position `i` is the one preceded by `|Fetches(events[..i])|` others. */
  lemma FetchAt(events: seq<Event>, i: nat)
    requires i < |events| && events[i].Fetch?
    ensures |Fetches(events[..i])| < |Fetches(events)|
    ensures Fetches(events)[|Fetches(events[..i])|] == events[i]
  {
    assert events == events[..i] + ([events[i]] + events[i + 1..]);
    FetchesConcat(events[..i], [events[i]] + events[i + 1..]);
    FetchesConcat([events[i]], events[i + 1..]);
    assert Fetches([events[i]]) == [events[i]];
  }

  /** Only the first event of a page's steps is a request. */
  lemma PageStepsFetchFirst(term: string, page: int, pages: nat, batch: seq<Record>, i: nat)
    requires i < |PageSteps(term, page, pages, batch)|
    requires PageSteps(term, page, pages, batch)[i].Fetch?
    ensures i == 0
  {
  }

  /** A page's request is followed by its write and, unless it is the last page, a delay. */
  lemma PageStepsAfterFetch(term: string, page: int, pages: nat, batch: seq<Record>, rest: seq<Event>)
    ensures page < pages ==> StartsAt(PageSteps(term, page, pages, batch) + rest, 1, Written(batch) + [Delay])
    ensures page >= pages ==> (PageSteps(term, page, pages, batch) + rest)[1..] == Written(batch) + rest
  {
    var tail := Written(batch) + (if page < pages then [Delay] else []);
    assert PageSteps(term, page, pages, batch) + rest == [Fetch(term, page)] + (tail + rest);
    assert (PageSteps(term, page, pages, batch) + rest)[1..] == tail + rest;
    if page < pages {
      assert (tail + rest)[..|Written(batch) + [Delay]|] == Written(batch) + [Delay];
    }
  }

  /**
   True iff the request at position `i` of a term's pages `page`.. is
   followed at once by the write of its batch when that is not empty, then by
   a delay unless it is the term's last page, after whose write the term's
   pages end.
   */
  predicate PageFollowed(events: seq<Event>, i: nat, term: string, page: nat, pages: nat, base: nat,
                         fetch: PageSource)
    requires i < |events| && 1 <= page
  {
    var q := page + |Fetches(events[..i])|;
    var batch := fetch(base + q - 1, term, q);
    && q <= pages
    && (q < pages ==> StartsAt(events, i + 1, Written(batch) + [Delay]))
    && (q == pages ==> events[i + 1..] == Written(batch))
  }

  lemma PageFollowedHead(term: string, page: nat, pages: nat, base: nat, fetch: PageSource, rest: seq<Event>)
    requires 1 <= page <= pages
    requires page == pages ==> rest == []
    ensures PageFollowed(PageSteps(term, page, pages, fetch(base + page - 1, term, page)) + rest, 0,
                         term, page, pages, base, fetch)
  {
    var batch := fetch(base + page - 1, term, page);
    var events := PageSteps(term, page, pages, batch) + rest;
    assert events[..0] == [];
    PageStepsAfterFetch(term, page, pages, batch, rest);
  }

  lemma PageFollowedShift(steps: seq<Event>, rest: seq<Event>, i: nat, term: string, page: nat, pages: nat,
                          base: nat, fetch: PageSource)
    requires 1 <= page && |Fetches(steps)| == 1 && |steps| <= i < |steps| + |rest|
    requires PageFollowed(rest, i - |steps|, term, page + 1, pages, base, fetch)
    ensures PageFollowed(steps + rest, i, term, page, pages, base, fetch)
  {
    var j := i - |steps|;
    FetchesBefore(steps, rest, i);
    var q := page + 1 + |Fetches(rest[..j])|;
    var batch := fetch(base + q - 1, term, q);
    if q < pages {
      StartsAtShift(steps, rest, j + 1, Written(batch) + [Delay]);
    } else {
      assert (steps + rest)[i + 1..] == rest[j + 1..];
    }
  }

  /** Within a term's pages, every request is followed as the loop body prescribes. */
  lemma {:induction false} TermPagesAfterFetch(term: string, page: nat, pages: nat, base: nat, fetch: PageSource,
                                               total: nat, i: nat)
    requires 1 <= page <= pages + 1
    requires i < |TermPages(term, page, pages, base, fetch, total).events|
    requires TermPages(term, page, pages, base, fetch, total).events[i].Fetch?
    ensures PageFollowed(TermPages(term, page, pages, base, fetch, total).events, i, term, page, pages, base, fetch)
    decreases pages + 1 - page
  {
    var batch := fetch(base + page - 1, term, page);
    var steps := PageSteps(term, page, pages, batch);
    var rest := TermPages(term, page + 1, pages, base, fetch, total + |batch|);
    assert TermPages(term, page, pages, base, fetch, total).events == steps + rest.events;
    if i < |steps| {
      PageStepsFetchFirst(term, page, pages, batch, i);
      PageFollowedHead(term, page, pages, base, fetch, rest.events);
    } else {
      TermPagesAfterFetch(term, page + 1, pages, base, fetch, total + |batch|, i - |steps|);
      PageStepsObserved(term, page, pages, batch);
      PageFollowedShift(steps, rest.events, i, term, page, pages, base, fetch);
    }
  }

  /**
   True iff the request at position `i` of a term's tab block is followed at
   once by its trailer.
   */
  predicate BlockFollowed(block: seq<Event>, i: nat, term: string, pages: nat, base: nat, fetch: PageSource)
    requires i < |block|
  {
    var j := |Fetches(block[..i])|;
    && j < pages
    && StartsAt(block, i + 1, Trailer(term, j + 1, pages, fetch(base + j, term, j + 1)))
  }

  lemma BlockFollowedFrom(term: string, inner: seq<Event>, i: nat, pages: nat, base: nat, fetch: PageSource)
    requires 1 <= i <= |inner|
    requires PageFollowed(inner, i - 1, term, 1, pages, base, fetch)
    ensures BlockFollowed(TabBlock(term, inner), i, term, pages, base, fetch)
  {
    BlockPrefix(term, inner, i);
    var j := |Fetches(inner[..i - 1])|;
    var batch := fetch(base + j, term, j + 1);
    if j + 1 < pages {
      StartsAtShift([NewTab(term)], inner, i, Written(batch) + [Delay]);
      StartsAtExtend([NewTab(term)] + inner, [CloseTab(term)], i + 1, Written(batch) + [Delay]);
    } else {
      BlockLastPage(term, inner, i, Written(batch));
    }
  }

  /** The requests before position `i` of a tab block are those before position `i - 1` of its inner events. */
  lemma BlockPrefix(term: string, inner: seq<Event>, i: nat)
    requires 1 <= i <= |inner|
    ensures |Fetches(TabBlock(term, inner)[..i])| == |Fetches(inner[..i - 1])|
  {
    assert TabBlock(term, inner)[..i] == [NewTab(term)] + inner[..i - 1];
    FetchesConcat([NewTab(term)], inner[..i - 1]);
    assert Fetches([NewTab(term)]) == [];
  }

  /** What ends a tab's inner events is followed by the tab's close. */
  lemma BlockLastPage(term: string, inner: seq<Event>, i: nat, w: seq<Event>)
    requires 1 <= i <= |inner| && inner[i..] == w
    ensures StartsAt(TabBlock(term, inner), i + 1, w + [CloseTab(term)])
  {
    assert TabBlock(term, inner)[i + 1..] == inner[i..] + [CloseTab(term)];
  }

  /** Within a term's tab, every request is followed at once by its trailer. */
  lemma TabBlockAfterFetch(term: string, pages: nat, base: nat, fetch: PageSource, total: nat, i: nat)
    requires i < |TabBlock(term, TermPages(term, 1, pages, base, fetch, total).events)|
    requires TabBlock(term, TermPages(term, 1, pages, base, fetch, total).events)[i].Fetch?
    ensures BlockFollowed(TabBlock(term, TermPages(term, 1, pages, base, fetch, total).events), i,
                          term, pages, base, fetch)
  {
    var inner := TermPages(term, 1, pages, base, fetch, total).events;
    var block := TabBlock(term, inner);
    assert block == [NewTab(term)] + inner + [CloseTab(term)];
    assert 1 <= i <= |inner|;
    assert block[i] == inner[i - 1];
    TermPagesAfterFetch(term, 1, pages, base, fetch, total, i - 1);
    BlockFollowedFrom(term, inner, i, pages, base, fetch);
  }

  /**
   True iff the request at position `i` of the remaining terms' events,
   preceded by `k` others, is followed at once by the trailer of page
   `k % P + 1` of term `k / P` with the `k`-th of the given responses.
   */
  predicate RunFollowed(events: seq<Event>, i: nat, terms: seq<string>, pages: nat, responses: seq<seq<Record>>)
    requires i < |events|
  {
    Followed(events, i, |Fetches(events[..i])|, terms, pages, responses)
  }

  /** As RunFollowed, for a request preceded by `k` others. */
  predicate Followed(events: seq<Event>, i: nat, k: nat, terms: seq<string>, pages: nat, responses: seq<seq<Record>>)
  {
    && 0 < pages && k / pages < |terms| && k < |responses|
    && StartsAt(events, i + 1, Trailer(terms[k / pages], k % pages + 1, pages, responses[k]))
  }

  /** A request in the first term's tab block is followed by the trailer of its response. */
  lemma FollowedInFirstTerm(events: seq<Event>, block: seq<Event>, rest: seq<Event>, i: nat, terms: seq<string>,
                            pages: nat, base: nat, fetch: PageSource, responses: seq<seq<Record>>,
                            later: seq<seq<Record>>)
    requires 0 < |terms| && i < |block|
    requires events == block + rest && responses == TermResponses(terms[0], 1, pages, base, fetch) + later
    requires BlockFollowed(block, i, terms[0], pages, base, fetch)
    ensures RunFollowed(events, i, terms, pages, responses)
  {
    var k := |Fetches(block[..i])|;
    assert events[..i] == block[..i];
    DivSmall(k, pages);
    assert responses[k] == fetch(base + k, terms[0], k + 1);
    StartsAtExtend(block, rest, i + 1, Trailer(terms[0], k + 1, pages, fetch(base + k, terms[0], k + 1)));
  }

  /** A request after the first term's tab block keeps the trailer it has among the later terms. */
  lemma FollowedInLaterTerm(block: seq<Event>, rest: seq<Event>, i: nat, terms: seq<string>, pages: nat,
                            first: seq<seq<Record>>, later: seq<seq<Record>>)
    requires 0 < |terms| && |Fetches(block)| == pages && |first| == pages && |block| <= i < |block| + |rest|
    requires RunFollowed(rest, i - |block|, terms[1..], pages, later)
    ensures RunFollowed(block + rest, i, terms, pages, first + later)
  {
    FetchesBefore(block, rest, i);
    FollowedShift(block, rest, i, |Fetches(rest[..i - |block|])|, terms, pages, first, later);
  }

  /** Request `k` among the later terms, at position `i - |block|` of their events, is request `P + k` of all. */
  lemma FollowedShift(block: seq<Event>, rest: seq<Event>, i: nat, k: nat, terms: seq<string>, pages: nat,
                      first: seq<seq<Record>>, later: seq<seq<Record>>)
    requires 0 < |terms| && |first| == pages && |block| <= i
    requires Followed(rest, i - |block|, k, terms[1..], pages, later)
    ensures Followed(block + rest, i, pages + k, terms, pages, first + later)
  {
    var s := Trailer(terms[1..][k / pages], k % pages + 1, pages, later[k]);
    StartsAtShift(block, rest, i - |block| + 1, s);
    DivStep(pages + k, pages);
    assert terms[1..][k / pages] == terms[(pages + k) / pages];
    assert (first + later)[pages + k] == later[k];
  }

  /** Every request of the remaining terms is followed at once by its trailer. */
  lemma {:induction false} TermsAfterFetch(terms: seq<string>, pages: nat, base: nat, fetch: PageSource,
                                           total: nat, i: nat)
    requires i < |Terms(terms, pages, base, fetch, total).events|
    requires Terms(terms, pages, base, fetch, total).events[i].Fetch?
    ensures RunFollowed(Terms(terms, pages, base, fetch, total).events, i, terms, pages,
                        Responses(terms, pages, base, fetch))
    decreases |terms|
  {
    var tab := TermPages(terms[0], 1, pages, base, fetch, total);
    var block := TabBlock(terms[0], tab.events);
    var rest := Terms(terms[1..], pages, base + pages, fetch, tab.total);
    var first := TermResponses(terms[0], 1, pages, base, fetch);
    var later := Responses(terms[1..], pages, base + pages, fetch);
    var events := Terms(terms, pages, base, fetch, total).events;
    var responses := Responses(terms, pages, base, fetch);
    assert events == block + rest.events;
    assert responses == first + later;
    if i < |block| {
      TabBlockAfterFetch(terms[0], pages, base, fetch, total, i);
      FollowedInFirstTerm(events, block, rest.events, i, terms, pages, base, fetch, responses, later);
    } else {
      TermsAfterFetch(terms[1..], pages, base + pages, fetch, tab.total, i - |block|);
      TabBlockObserved(terms[0], tab.events);
      TermPagesFetches(terms[0], 1, pages, base, fetch, total);
      FollowedInLaterTerm(block, rest.events, i, terms, pages, first, later);
    }
  }

  /** In term-major order, the request preceded by `k` others is page `k % P + 1` of term `k / P`. */
  lemma RequestAt(events: seq<Event>, i: nat, terms: seq<string>, pages: nat)
    requires i < |events| && events[i].Fetch?
    requires Fetches(events) == ExpectedFetches(terms, pages)
    ensures var k := |Fetches(events[..i])|;
            && 0 < pages && k < |terms| * pages && k / pages < |terms|
            && events[i] == Fetch(terms[k / pages], k % pages + 1)
  {
    FetchAt(events, i);
    ExpectedFetchesAt(terms, pages, |Fetches(events[..i])|);
  }

  /** A request followed by its trailer, in a trace whose requests are term-major, is the page its position names. */
  lemma FollowedRequest(events: seq<Event>, i: nat, terms: seq<string>, pages: nat, responses: seq<seq<Record>>)
    requires i < |events| && events[i].Fetch?
    requires RunFollowed(events, i, terms, pages, responses)
    requires Fetches(events) == ExpectedFetches(terms, pages)
    ensures var k := |Fetches(events[..i])|;
            && 0 < pages && k < |terms| * pages && k / pages < |terms| && k < |responses|
            && events[i] == Fetch(terms[k / pages], k % pages + 1)
            && StartsAt(events, i + 1, Trailer(terms[k / pages], k % pages + 1, pages, responses[k]))
  {
    RequestAt(events, i, terms, pages);
  }

  /**
   Every request of a run is followed at once by the write (and flush) of
   its batch, when that batch is not empty, and then by a pacing delay, or by
   the close of the term's tab after the term's last page. The request
   preceded by `k` others is page `k % P + 1` of term number `k / P`, and the
   batch written after it is the `k`-th response.
   */
  lemma CrawlAfterFetch(terms: seq<string>, pagesPerTerm: int, fetch: PageSource, i: nat)
    requires i < |Crawl(terms, pagesPerTerm, fetch).events|
    requires Crawl(terms, pagesPerTerm, fetch).events[i].Fetch?
    ensures var events := Crawl(terms, pagesPerTerm, fetch).events;
            var pages := Ranges.Count(pagesPerTerm);
            var k := |Fetches(events[..i])|;
            && 0 < pages && k < |terms| * pages && k / pages < |terms|
            && events[i] == Fetch(terms[k / pages], k % pages + 1)
            && StartsAt(events, i + 1, Trailer(terms[k / pages], k % pages + 1, pages,
                                                 Responses(terms, pages, 0, fetch)[k]))
  {
    var events := Crawl(terms, pagesPerTerm, fetch).events;
    var pages := Ranges.Count(pagesPerTerm);
    TermsAfterFetch(terms, pages, 0, fetch, 0, i);
    TermsFetches(terms, pages, 0, fetch, 0);
    FollowedRequest(events, i, terms, pages, Responses(terms, pages, 0, fetch));
  }
}
