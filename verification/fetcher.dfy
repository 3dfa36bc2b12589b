/**
 `perform_search`: one page request, retried a bounded number of times with
 exponential backoff, whose successful attempt turns the page's result
 elements into a batch of records carrying absolute ranks.
 */
module Fetcher {

  import opened Options
  import opened Extractor
  import Decimal
  import Ranges

  /** Results the search engine shows per page; page offsets step by this. */
  const ResultsPerPage := 10

  /** The `start` offset of a 1-based page number. */
  function StartIndex(pageNumber: int): (s: int)
    ensures pageNumber >= 1 ==> s >= 0
    ensures s == 0 <==> pageNumber == 1
    ensures s % ResultsPerPage == 0
  {
    (pageNumber - 1) * ResultsPerPage
  }

  /** Consecutive pages are one page of results apart. */
  lemma NextPageOffset(pageNumber: int)
    ensures StartIndex(pageNumber + 1) == StartIndex(pageNumber) + ResultsPerPage
  {
  }

  const SearchEndpoint := "https://www.google.com/search?q="
  const LocaleAndOffset := "&hl=en-US&start="

  /** The search URL navigated to for a term and a start offset. */
  function SearchUrl(term: string, startIndex: int): string
  {
    SearchEndpoint + term + LocaleAndOffset + Decimal.DecimalString(startIndex)
  }

  /** Two requests for the same term go to the same URL only when their offsets agree. */
  lemma SearchUrlDistinguishesOffsets(term: string, s1: int, s2: int)
    requires SearchUrl(term, s1) == SearchUrl(term, s2)
    ensures s1 == s2
  {
    var p := SearchEndpoint + term + LocaleAndOffset;
    var d1 := Decimal.DecimalString(s1);
    var d2 := Decimal.DecimalString(s2);
    assert (p + d1)[|p|..] == d1;
    assert (p + d2)[|p|..] == d2;
    Decimal.DecimalInjective(s1, s2);
  }

  /** The pages of one term are requested at pairwise distinct URLs. */
  lemma PagesRequestDistinctUrls(term: string, p1: int, p2: int)
    requires p1 != p2
    ensures SearchUrl(term, StartIndex(p1)) != SearchUrl(term, StartIndex(p2))
  {
    if SearchUrl(term, StartIndex(p1)) == SearchUrl(term, StartIndex(p2)) {
      SearchUrlDistinguishesOffsets(term, StartIndex(p1), StartIndex(p2));
    }
  }

  /** The number of elements that extraction does not reject. */
  function CountReadable(elements: seq<Element>): (n: nat)
    ensures n <= |elements|
  {
    if |elements| == 0 then 0
    else (if elements[0].Readable? then 1 else 0) + CountReadable(elements[1..])
  }

  /**
   The enumeration loop of `perform_search`: the element at position `i` is
   scraped with rank `firstRank + i`, and the records that are not `None` are
   kept in element order.
   */
  function Collect(elements: seq<Element>, firstRank: int, term: string, pageNumber: int): (r: seq<Record>)
    ensures |r| == CountReadable(elements)
    ensures forall i :: 0 <= i < |r| ==> firstRank <= r[i].rank < firstRank + |elements|
    ensures forall i, j :: 0 <= i < j < |r| ==> r[i].rank < r[j].rank
    ensures forall i :: 0 <= i < |r| ==> Scraped(elements, firstRank, term, pageNumber, r[i])
    decreases |elements|
  {
    if |elements| == 0 then []
    else
      var rest := Collect(elements[1..], firstRank + 1, term, pageNumber);
      assert forall x :: Scraped(elements[1..], firstRank + 1, term, pageNumber, x) ==>
                         Scraped(elements, firstRank, term, pageNumber, x);
      match ScrapeElement(elements[0], firstRank, term, pageNumber)
      case None => rest
      case Some(record) =>
        assert Scraped(elements, firstRank, term, pageNumber, record);
        [record] + rest
  }

  /**
   True iff `record` is what extraction makes of the element its rank points
   at, when the first element carries `firstRank`.
   */
  predicate Scraped(elements: seq<Element>, firstRank: int, term: string, pageNumber: int, record: Record)
  {
    && firstRank <= record.rank < firstRank + |elements|
    && ScrapeElement(elements[record.rank - firstRank], record.rank, term, pageNumber) == Some(record)
  }

  /** Every readable element contributes the record of its rank: nothing but `None` is dropped. */
  lemma {:induction false} CollectKeepsReadable(elements: seq<Element>, firstRank: int, term: string, pageNumber: int, i: int)
    requires 0 <= i < |elements| && elements[i].Readable?
    ensures exists j :: 0 <= j < |Collect(elements, firstRank, term, pageNumber)|
                        && Collect(elements, firstRank, term, pageNumber)[j].rank == firstRank + i
    decreases |elements|
  {
    var r := Collect(elements, firstRank, term, pageNumber);
    if i == 0 {
      assert r[0].rank == firstRank;
    } else {
      var rest := Collect(elements[1..], firstRank + 1, term, pageNumber);
      assert elements[1..][i - 1] == elements[i];
      CollectKeepsReadable(elements[1..], firstRank + 1, term, pageNumber, i - 1);
      var j :| 0 <= j < |rest| && rest[j].rank == firstRank + i;
      if elements[0].Readable? {
        assert r[j + 1] == rest[j];
      } else {
        assert r == rest;
      }
    }
  }

  /** The batch of one results page: ranks continue from the page's start offset. */
  function PageBatch(elements: seq<Element>, term: string, pageNumber: int): seq<Record>
  {
    Collect(elements, StartIndex(pageNumber) + 1, term, pageNumber)
  }

  /** When every element is readable, the ranks are exactly `start+1 .. start+k` in order. */
  lemma {:induction false} AllReadableRanksContiguous(elements: seq<Element>, firstRank: int, term: string, pageNumber: int)
    requires forall i :: 0 <= i < |elements| ==> elements[i].Readable?
    ensures |Collect(elements, firstRank, term, pageNumber)| == |elements|
    ensures forall i :: 0 <= i < |elements| ==> Collect(elements, firstRank, term, pageNumber)[i].rank == firstRank + i
    decreases |elements|
  {
    if |elements| > 0 {
      AllReadableRanksContiguous(elements[1..], firstRank + 1, term, pageNumber);
    }
  }

  /**
   Ranks of consecutive pages of a term do not overlap as long as a page has
   at most ten result elements.
   */
  lemma ConsecutivePagesDisjoint(e1: seq<Element>, e2: seq<Element>, term: string, p: int, i: int, j: int)
    requires |e1| <= ResultsPerPage
    requires 0 <= i < |PageBatch(e1, term, p)| && 0 <= j < |PageBatch(e2, term, p + 1)|
    ensures PageBatch(e1, term, p)[i].rank < PageBatch(e2, term, p + 1)[j].rank
  {
  }

  /**
   With eleven result elements on page 1, page 1's last record and page 2's
   first record share rank 11: the ranking assumes at most ten per page.
   */
  lemma OverfullPageRanksCollide(title: string)
    ensures var e := Readable(Some(title), None);
            var b1 := PageBatch(seq(11, _ => e), "t", 1);
            var b2 := PageBatch([e], "t", 2);
            |b1| == 11 && |b2| == 1 && b1[10].rank == b2[0].rank == 11
  {
    var e := Readable(Some(title), None);
    AllReadableRanksContiguous(seq(11, _ => e), 1, "t", 1);
    AllReadableRanksContiguous([e], 11, "t", 2);
  }

  /** What one attempt of steps 1-5 yields: a failure (timeout or driver error) or the page's result elements. */
  datatype Attempt = Fail | Ok(elements: seq<Element>)

  /**
   What a call of `perform_search` produces: the returned batch, the URL
   navigated to on each attempt, and the backoff sleeps taken, in order.
   */
  datatype Outcome = Outcome(batch: seq<Record>, requested: seq<string>, backoffs: seq<nat>)

  function Pow2(n: nat): (r: nat)
    ensures r >= 1
  {
    if n == 0 then 1 else 2 * Pow2(n - 1)
  }

  /** The sleep after failed attempt `i` (0-based) when another attempt follows. */
  function Backoff(i: nat): nat
  {
    Pow2(i + 1)
  }

  /** The sleeps after failed attempts `from`, ..., `from + n - 1`, each followed by another attempt. */
  function BackoffSchedule(from: nat, n: nat): (s: seq<nat>)
    ensures |s| == n
  {
    seq<nat>(n, i requires 0 <= i => Backoff(from + i))
  }

  lemma BackoffScheduleCons(from: nat, n: nat)
    ensures BackoffSchedule(from, n + 1) == [Backoff(from)] + BackoffSchedule(from + 1, n)
  {
  }

  /**
   The retry loop from attempt `attempt` on: the outcome of each attempt is
   read from `outcome`. An attempt that succeeds returns its page's batch;
   one that fails sleeps for the backoff and tries again, except after the
   last allowed attempt, where the loop gives up with an empty batch.
   The contract pins the attempts down: every attempt but the last failed,
   the loop stops early only on success, and exactly one backoff separates
   consecutive attempts. `AttemptsBatch` states what is returned.
   */
  function Attempts(outcome: nat -> Attempt, attempt: nat, budget: nat, term: string, pageNumber: int): (r: Outcome)
    requires attempt <= budget
    ensures attempt + |r.requested| <= budget
    ensures attempt < budget ==> |r.requested| >= 1
    ensures forall i :: 0 <= i < |r.requested| ==> r.requested[i] == SearchUrl(term, StartIndex(pageNumber))
    ensures forall j :: attempt <= j < attempt + |r.requested| - 1 ==> outcome(j).Fail?
    ensures attempt + |r.requested| < budget ==> |r.requested| >= 1 && outcome(attempt + |r.requested| - 1).Ok?
    ensures r.backoffs == BackoffSchedule(attempt, if |r.requested| == 0 then 0 else |r.requested| - 1)
    decreases budget - attempt
  {
    if attempt == budget then Outcome([], [], [])
    else
      var url := SearchUrl(term, StartIndex(pageNumber));
      match outcome(attempt)
      case Ok(elements) => Outcome(PageBatch(elements, term, pageNumber), [url], [])
      case Fail =>
        if attempt == budget - 1 then Outcome([], [url], [])
        else
          var rest := Attempts(outcome, attempt + 1, budget, term, pageNumber);
          BackoffScheduleCons(attempt, |rest.requested| - 1);
          Outcome(rest.batch, [url] + rest.requested, [Backoff(attempt)] + rest.backoffs)
  }

  /** The batch returned is the last attempt's page batch when that attempt succeeded, and empty otherwise. */
  lemma {:induction false} AttemptsBatch(outcome: nat -> Attempt, attempt: nat, budget: nat, term: string, pageNumber: int)
    requires attempt <= budget
    ensures var r := Attempts(outcome, attempt, budget, term, pageNumber);
            r.batch == if |r.requested| > 0 && outcome(attempt + |r.requested| - 1).Ok?
                       then PageBatch(outcome(attempt + |r.requested| - 1).elements, term, pageNumber)
                       else []
    decreases budget - attempt
  {
    if attempt < budget - 1 && outcome(attempt).Fail? {
      AttemptsBatch(outcome, attempt + 1, budget, term, pageNumber);
    }
  }

  /**
   `perform_search` for one page of a term, with `maxRetries` attempts
   allowed: at most that many requests, all to the page's search URL, and
   every record returned belongs to the term and page and ranks after the
   page's start offset.
   */
  function PerformSearch(outcome: nat -> Attempt, maxRetries: int, term: string, pageNumber: int): (r: Outcome)
    ensures |r.requested| <= Ranges.Count(maxRetries)
    ensures forall i :: 0 <= i < |r.requested| ==> r.requested[i] == SearchUrl(term, StartIndex(pageNumber))
    ensures forall i :: 0 <= i < |r.batch| ==>
              && r.batch[i].searchTerm == term
              && r.batch[i].pageNumber == pageNumber
              && StartIndex(pageNumber) < r.batch[i].rank
  {
    AttemptsBatch(outcome, 0, Ranges.Count(maxRetries), term, pageNumber);
    Attempts(outcome, 0, Ranges.Count(maxRetries), term, pageNumber)
  }

  /**
   The first successful attempt returns its batch at once: no later attempt
   is made, and the sleeps before it are 2, 4, ..., 2^k.
   */
  lemma FirstSuccessReturnsAtOnce(outcome: nat -> Attempt, maxRetries: int, term: string, pageNumber: int, k: nat)
    requires k < Ranges.Count(maxRetries)
    requires outcome(k).Ok?
    requires forall j :: 0 <= j < k ==> outcome(j).Fail?
    ensures PerformSearch(outcome, maxRetries, term, pageNumber)
            == Outcome(PageBatch(outcome(k).elements, term, pageNumber),
                       seq(k + 1, _ => SearchUrl(term, StartIndex(pageNumber))),
                       BackoffSchedule(0, k))
  {
    var r := PerformSearch(outcome, maxRetries, term, pageNumber);
    AttemptsBatch(outcome, 0, Ranges.Count(maxRetries), term, pageNumber);
    assert |r.requested| == k + 1;
  }

  /**
   When every allowed attempt fails the result is an empty batch, not an
   error, after all allowed attempts and with no sleep after the last one.
   */
  lemma ExhaustionYieldsEmptyBatch(outcome: nat -> Attempt, maxRetries: int, term: string, pageNumber: int)
    requires forall j :: 0 <= j < Ranges.Count(maxRetries) ==> outcome(j).Fail?
    ensures var r := PerformSearch(outcome, maxRetries, term, pageNumber);
            && r.batch == []
            && |r.requested| == Ranges.Count(maxRetries)
            && r.backoffs == BackoffSchedule(0, if maxRetries <= 0 then 0 else maxRetries - 1)
  {
    AttemptsBatch(outcome, 0, Ranges.Count(maxRetries), term, pageNumber);
  }

  /** With no attempts allowed nothing is requested and the batch is empty. */
  lemma NoRetriesNoRequest(outcome: nat -> Attempt, term: string, pageNumber: int)
    ensures PerformSearch(outcome, 0, term, pageNumber) == Outcome([], [], [])
  {
  }

  /** Three failing attempts sleep 2 and then 4 time units. */
  lemma BackoffTraceExample(term: string)
    ensures PerformSearch(_ => Fail, 3, term, 1).backoffs == [2, 4]
  {
    var r := PerformSearch(_ => Fail, 3, term, 1);
    ExhaustionYieldsEmptyBatch(_ => Fail, 3, term, 1);
    assert Backoff(0) == 2 && Backoff(1) == 4;
  }
}
