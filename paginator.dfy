/**
  The paginated harvest of one stock's fund-flow history
  (`get_fundflow_history`, scripts/download_sina_fundflow_test.py:33-87).

  The HTTP round trip (request, status check, GBK decoding, JSON parsing) is
  replaced by a script of page outcomes: the answer to page `p` is `script[p - 1]`.
  A remote history is finite, so every page past the end of the script answers
  with no records.
*/
module Paginator {

  /** One raw record of the API: field name to its textual value. */
  type RawRecord = map<string, string>

  /** PAGE_SIZE: the `num` parameter of every request. */
  const PageSize: nat := 50

  /** What one page request yields: a failure anywhere in the request, status check,
      decoding or JSON step, or the list of records in the body. A null or empty
      JSON body is `Page([])`. */
  datatype PageOutcome = Failed | Page(body: seq<RawRecord>)

  /** The varying query parameters of one request: `page`, `num` and `daima`. */
  datatype Request = Request(page: nat, num: nat, symbol: string)

  /** Why the harvest ended. */
  datatype StopReason =
    | Exhausted      // a page without records: nothing appended
    | PartialPage    // a non-empty page shorter than the page size: appended, then stop
    | RequestFailed  // the request raised: stop, keep what was gathered

  /** The records gathered from some page on, the last page requested and why it stopped. */
  datatype Harvest = Harvest(records: seq<RawRecord>, lastPage: nat, stop: StopReason)

  /** The server's answer to the 1-based page `page`. */
  function Respond(script: seq<PageOutcome>, page: nat): PageOutcome
    requires page >= 1
  {
    if page <= |script| then script[page - 1] else Page([])
  }

  /** The records a page contributes when it is appended; a failed request contributes none. */
  function BodyOf(o: PageOutcome): seq<RawRecord>
  {
    if o.Page? then o.body else []
  }

  /** A page after which the loop asks for the next one: non-empty and not shorter than `size`. */
  predicate IsFull(o: PageOutcome, size: nat)
  {
    o.Page? && o.body != [] && |o.body| >= size
  }

  /** The outcome `o` of the last page requested ends the loop with reason `stop`. */
  predicate EndsWith(o: PageOutcome, size: nat, stop: StopReason)
  {
    match o
    case Failed => stop == RequestFailed
    case Page(body) =>
      if body == [] then stop == Exhausted
      else |body| < size && stop == PartialPage
  }

  /** The loop of lines 44-79 started at page `page`, as a function of the script. */
  function HarvestFrom(script: seq<PageOutcome>, size: nat, page: nat): (h: Harvest)
    requires page >= 1
    ensures page <= h.lastPage
    ensures h.lastPage <= page || page <= |script|
    decreases |script| + 1 - page
  {
    match Respond(script, page)
    case Failed => Harvest([], page, RequestFailed)
    case Page(body) =>
      if body == [] then Harvest([], page, Exhausted)
      else if |body| < size then Harvest(body, page, PartialPage)
      else
        var rest := HarvestFrom(script, size, page + 1);
        Harvest(body + rest.records, rest.lastPage, rest.stop)
  }

  /** The whole harvest, starting at page 1. */
  function History(script: seq<PageOutcome>, size: nat): Harvest
  {
    HarvestFrom(script, size, 1)
  }

  /** The bodies of pages `from` up to, not including, `to`, concatenated in page order. */
  function Bodies(script: seq<PageOutcome>, from: nat, to: nat): seq<RawRecord>
    requires 1 <= from <= to
    decreases (to as int) - (from as int)
  {
    if from == to then [] else BodyOf(Respond(script, from)) + Bodies(script, from + 1, to)
  }

  /** `code_api` (line 37): the stock code with every '.' deleted. */
  function StripDots(s: string): (r: string)
    ensures forall i :: 0 <= i < |r| ==> r[i] != '.'
    ensures |r| <= |s|
  {
    if s == [] then [] else (if s[0] == '.' then [] else [s[0]]) + StripDots(s[1..])
  }

  /** Only the dots go: every other character is kept as often as it occurs. */
  lemma {:induction false} StripDotsCounts(s: string)
    ensures multiset(StripDots(s)) == multiset(s)['.' := 0]
    decreases |s|
  {
    if s != [] {
      assert s == [s[0]] + s[1..];
      StripDotsCounts(s[1..]);
    }
  }

  /** Deleting dots works piecewise, so the kept characters stay in their order. */
  lemma {:induction false} StripDotsAppend(a: string, b: string)
    ensures StripDots(a + b) == StripDots(a) + StripDots(b)
    decreases |a|
  {
    if a == [] {
      assert a + b == b;
    } else {
      var head := if a[0] == '.' then [] else [a[0]];
      assert (a + b)[0] == a[0];
      assert (a + b)[1..] == a[1..] + b;
      assert StripDots(a + b) == head + StripDots(a[1..] + b);
      StripDotsAppend(a[1..], b);
      assert StripDots(a) == head + StripDots(a[1..]);
    }
  }

  /** A code without dots is its own API symbol, so stripping twice changes nothing. */
  lemma {:induction false} StripDotsKeepsDotless(s: string)
    requires forall i :: 0 <= i < |s| ==> s[i] != '.'
    ensures StripDots(s) == s
    decreases |s|
  {
    if s != [] {
      StripDotsKeepsDotless(s[1..]);
    }
  }

  /**
    The shape of every harvest: each page before the last one requested was full,
    the records are the bodies of those pages followed by the last page's body in
    request order, and the last page is what ended the loop.
  */
  lemma {:induction false} HarvestShape(script: seq<PageOutcome>, size: nat, page: nat)
    requires page >= 1
    ensures var h := HarvestFrom(script, size, page);
      && (forall q :: page <= q < h.lastPage ==> IsFull(Respond(script, q), size))
      && h.records == Bodies(script, page, h.lastPage) + BodyOf(Respond(script, h.lastPage))
      && EndsWith(Respond(script, h.lastPage), size, h.stop)
    decreases |script| + 1 - page
  {
    var h := HarvestFrom(script, size, page);
    var o := Respond(script, page);
    if IsFull(o, size) {
      HarvestShape(script, size, page + 1);
      var rest := HarvestFrom(script, size, page + 1);
      assert h.records == o.body + rest.records;
      assert Bodies(script, page, h.lastPage) == o.body + Bodies(script, page + 1, h.lastPage);
    }
  }

  /** The last page requested is the first page at or after `page` that is not full. */
  lemma FirstNonFullEnds(script: seq<PageOutcome>, size: nat, page: nat, n: nat)
    requires 1 <= page <= n
    requires forall q :: page <= q < n ==> IsFull(Respond(script, q), size)
    requires !IsFull(Respond(script, n), size)
    ensures HarvestFrom(script, size, page).lastPage == n
  {
    HarvestShape(script, size, page);
    var h := HarvestFrom(script, size, page);
    assert !IsFull(Respond(script, h.lastPage), size);
  }

  /** `k` pages of exactly `size` records contribute `k * size` records. */
  lemma {:induction false} BodiesLength(script: seq<PageOutcome>, size: nat, from: nat, to: nat)
    requires 1 <= from <= to
    requires forall q :: from <= q < to ==> Respond(script, q).Page? && |Respond(script, q).body| == size
    ensures |Bodies(script, from, to)| == (to - from) * size
    decreases (to as int) - (from as int)
  {
    if from < to {
      BodiesLength(script, size, from + 1, to);
      assert (to - from) * size == size + (to - (from + 1)) * size;
    }
  }

  /** An empty or null first page ends the harvest after one request with no records. */
  lemma EmptyFirstPage(script: seq<PageOutcome>, size: nat)
    requires Respond(script, 1) == Page([])
    ensures History(script, size) == Harvest([], 1, Exhausted)
  {
  }

  /**
    `k` full pages of exactly `size` records and then a page of `0 < L < size`
    records give exactly `k * size + L` records, the pages' bodies in request order,
    after `k + 1` requests.
  */
  lemma FullPagesThenPartial(script: seq<PageOutcome>, size: nat, k: nat)
    requires k < |script|
    requires forall i :: 0 <= i < k ==> script[i].Page? && script[i].body != [] && |script[i].body| == size
    requires script[k].Page? && 0 < |script[k].body| < size
    ensures var h := History(script, size);
      && h.records == Bodies(script, 1, k + 1) + script[k].body
      && |h.records| == k * size + |script[k].body|
      && h.lastPage == k + 1
      && h.stop == PartialPage
  {
    forall q | 1 <= q < k + 1
      ensures IsFull(Respond(script, q), size)
    {
      assert Respond(script, q) == script[q - 1];
    }
    FirstNonFullEnds(script, size, 1, k + 1);
    HarvestShape(script, size, 1);
    forall q | 1 <= q < k + 1
      ensures Respond(script, q).Page? && |Respond(script, q).body| == size
    {
      assert Respond(script, q) == script[q - 1];
    }
    BodiesLength(script, size, 1, k + 1);
  }

  /**
    A failure on page `k + 1`, after `k` full pages, ends the harvest there with no
    retry and keeps the records of the earlier pages unchanged.
  */
  lemma FailureKeepsEarlierPages(script: seq<PageOutcome>, size: nat, k: nat)
    requires k < |script|
    requires forall i :: 0 <= i < k ==> IsFull(script[i], size)
    requires script[k] == Failed
    ensures History(script, size) == Harvest(Bodies(script, 1, k + 1), k + 1, RequestFailed)
  {
    forall q | 1 <= q < k + 1
      ensures IsFull(Respond(script, q), size)
    {
      assert Respond(script, q) == script[q - 1];
    }
    FirstNonFullEnds(script, size, 1, k + 1);
    HarvestShape(script, size, 1);
  }

  /** After a full page the harvest goes on with the next page: its body, then the rest. */
  lemma FullPageStep(script: seq<PageOutcome>, size: nat, page: nat)
    requires page >= 1
    requires IsFull(Respond(script, page), size)
    ensures HarvestFrom(script, size, page).records
      == Respond(script, page).body + HarvestFrom(script, size, page + 1).records
    ensures HarvestFrom(script, size, page).lastPage == HarvestFrom(script, size, page + 1).lastPage
    ensures HarvestFrom(script, size, page).stop == HarvestFrom(script, size, page + 1).stop
  {
  }

  /**
    The loop of lines 35-79: request page after page of `PageSize` records for the
    dot-stripped code, append every non-empty page, and stop on an empty page, a
    short page or a failed request. Returns the records, the requests issued in
    order, the API symbol and why the loop stopped.
  */
  method FetchHistory(stockCode: string, script: seq<PageOutcome>)
    returns (records: seq<RawRecord>, requests: seq<Request>, codeApi: string, stop: StopReason)
    ensures codeApi == StripDots(stockCode)
    ensures records == History(script, PageSize).records
    ensures stop == History(script, PageSize).stop
    ensures |requests| == History(script, PageSize).lastPage
    ensures forall i :: 0 <= i < |requests| ==> requests[i] == Request(i + 1, PageSize, codeApi)
  {
    var allData: seq<RawRecord> := [];
    var page: nat := 1;
    codeApi := StripDots(stockCode);
    requests := [];
    while true
      invariant page >= 1
      invariant |requests| == page - 1
      invariant forall i :: 0 <= i < |requests| ==> requests[i] == Request(i + 1, PageSize, codeApi)
      invariant History(script, PageSize).records == allData + HarvestFrom(script, PageSize, page).records
      invariant History(script, PageSize).lastPage == HarvestFrom(script, PageSize, page).lastPage
      invariant History(script, PageSize).stop == HarvestFrom(script, PageSize, page).stop
      decreases |script| + 1 - page
    {
      requests := requests + [Request(page, PageSize, codeApi)];
      var outcome := Respond(script, page);
      if outcome.Failed? {
        stop := RequestFailed;
        break;
      }
      var data := outcome.body;
      if data == [] {
        stop := Exhausted;
        break;
      }
      allData := allData + data;
      if |data| < PageSize {
        stop := PartialPage;
        break;
      }
      FullPageStep(script, PageSize, page);
      page := page + 1;
    }
    records := allData;
  }
}
