/** `fetch_all_jobs`: walking the listing API page by page. The HTTP request, its status
    check and JSON decoding are one abstract page oracle from offset to outcome. */
module Fetch {
  import opened Listing

  /** Listings per request (`limit=100` in the request, `len(jobs) < 100` in the loop). */
  const PageSize: nat := 100

  /** What a request at one offset yields: a failure (a status other than 200 or a
      request error), or the page's `data` array (empty when the key is missing). */
  datatype PageResult = Failed | Page(jobs: seq<Job>)

  type Pages = nat -> PageResult

  /** The loop ends after request `i` (offset `100 i`): the request failed, the page was
      empty or short, or the offset reached `maxPages * 100`. */
  predicate Stops(pages: Pages, maxPages: int, i: nat)
  {
    var p := pages(PageSize * i);
    p.Failed? || p.jobs == [] || |p.jobs| < PageSize || PageSize * i >= maxPages * PageSize
  }

  /** The number of requests made when request `i` is the next one. */
  function RequestsFrom(pages: Pages, maxPages: int, i: nat): (n: nat)
    ensures i < n
    decreases maxPages - i
  {
    if Stops(pages, maxPages, i) then i + 1 else RequestsFrom(pages, maxPages, i + 1)
  }

  /** The number of requests `fetch_all_jobs(max_pages)` makes. */
  function Requests(pages: Pages, maxPages: int): (n: nat)
    ensures 1 <= n
  {
    RequestsFrom(pages, maxPages, 0)
  }

  /** What request `i` contributes to the result. */
  function Received(pages: Pages, i: nat): seq<Job>
  {
    match pages(PageSize * i)
    case Failed => []
    case Page(jobs) => jobs
  }

  /** The listings of the first `n` requests, in request order. */
  function ReceivedUpTo(pages: Pages, n: nat): seq<Job>
  {
    if n == 0 then [] else ReceivedUpTo(pages, n - 1) + Received(pages, n - 1)
  }

  /** What `fetch_all_jobs(max_pages)` returns. */
  function Fetched(pages: Pages, maxPages: int): seq<Job>
  {
    ReceivedUpTo(pages, Requests(pages, maxPages))
  }

  /** `fetch_all_jobs`: requests offsets 0, 100, 200, ... and accumulates the pages. Also
      returns the offsets requested, in order. */
  method FetchAllJobs(pages: Pages, maxPages: int) returns (allJobs: seq<Job>, offsets: seq<nat>)
    ensures |offsets| == Requests(pages, maxPages)
    ensures forall i :: 0 <= i < |offsets| ==> offsets[i] == PageSize * i
    ensures allJobs == Fetched(pages, maxPages)
  {
    allJobs := [];
    offsets := [];
    var offset: nat := 0;
    while true
      invariant offset == PageSize * |offsets|
      invariant forall i :: 0 <= i < |offsets| ==> offsets[i] == PageSize * i
      invariant allJobs == ReceivedUpTo(pages, |offsets|)
      invariant RequestsFrom(pages, maxPages, |offsets|) == Requests(pages, maxPages)
      decreases maxPages * PageSize - offset
    {
      var result := pages(offset);
      offsets := offsets + [offset];
      if result.Failed? {
        break;
      }
      var jobs := result.jobs;
      if jobs == [] {
        break;
      }
      allJobs := allJobs + jobs;
      if |jobs| < PageSize || offset >= maxPages * PageSize {
        break;
      }
      offset := offset + PageSize;
    }
  }

  /** The largest number of requests: `max_pages + 1`, and one when `max_pages` is not positive. */
  function MaxRequests(maxPages: int): nat
  {
    if maxPages < 0 then 1 else maxPages + 1
  }

  lemma {:induction false} RequestsFromFacts(pages: Pages, maxPages: int, i: nat)
    requires forall k :: 0 <= k < i ==> !Stops(pages, maxPages, k)
    ensures i < RequestsFrom(pages, maxPages, i) <= MaxRequests(maxPages)
    ensures Stops(pages, maxPages, RequestsFrom(pages, maxPages, i) - 1)
    ensures forall k :: 0 <= k < RequestsFrom(pages, maxPages, i) - 1 ==> !Stops(pages, maxPages, k)
    decreases maxPages - i
  {
    if !Stops(pages, maxPages, i) {
      RequestsFromFacts(pages, maxPages, i + 1);
    } else if i > 0 {
      assert !Stops(pages, maxPages, i - 1);
    }
  }

  /** The loop makes at least one and at most `max_pages + 1` requests; every request
      but the last continued (it returned a full page below the offset bound) and the
      last one met a stop condition. */
  lemma RequestBounds(pages: Pages, maxPages: int)
    ensures 1 <= Requests(pages, maxPages) <= MaxRequests(maxPages)
    ensures Stops(pages, maxPages, Requests(pages, maxPages) - 1)
    ensures forall k :: 0 <= k < Requests(pages, maxPages) - 1 ==> !Stops(pages, maxPages, k)
  {
    RequestsFromFacts(pages, maxPages, 0);
  }

  /** Each request that did not end the loop brought at least a full page, so at least
      100 listings per continuing request are returned. */
  lemma {:induction false} ReceivedLowerBound(pages: Pages, maxPages: int, n: nat)
    requires forall k :: 0 <= k < n ==> !Stops(pages, maxPages, k)
    ensures |ReceivedUpTo(pages, n)| >= PageSize * n
  {
    if n > 0 {
      ReceivedLowerBound(pages, maxPages, n - 1);
      assert !Stops(pages, maxPages, n - 1);
    }
  }

  lemma FetchedLowerBound(pages: Pages, maxPages: int)
    ensures |Fetched(pages, maxPages)| >= PageSize * (Requests(pages, maxPages) - 1)
  {
    RequestBounds(pages, maxPages);
    var n := Requests(pages, maxPages);
    ReceivedLowerBound(pages, maxPages, n - 1);
  }

  /** A failure keeps what was received before it: the result is the pages before the
      failed request, in order. */
  lemma {:induction false} FailureKeepsPartialResult(pages: Pages, maxPages: int)
    requires pages(PageSize * (Requests(pages, maxPages) - 1)).Failed?
    ensures Fetched(pages, maxPages) == ReceivedUpTo(pages, Requests(pages, maxPages) - 1)
  {
  }

  /** With every page full, the loop runs to the bound: `max_pages + 1` requests, one more
      than the page count its name suggests. */
  lemma FullPagesReachBound(pages: Pages, maxPages: nat)
    requires forall i: nat :: pages(i).Page? && |pages(i).jobs| >= PageSize
    ensures Requests(pages, maxPages) == maxPages + 1
    ensures |Fetched(pages, maxPages)| >= PageSize * maxPages
  {
    RequestBounds(pages, maxPages);
    FetchedLowerBound(pages, maxPages);
  }
}
