/**
 * The run of the monitor (`main`): walk the listing page by page, dispatch a recheck for
 * every source the status flag selects, then wait for every dispatched recheck.
 */
module Monitor {
  import opened Wrappers
  import opened Types
  import opened Status
  import opened Listing
  import opened Dispatch

  /** The sources of one page that the flag selects, in page order. */
  function Filter(flag: string, s: seq<Source>): (r: seq<Source>)
    ensures |r| <= |s|
    ensures forall i :: 0 <= i < |r| ==> ShouldCheck(flag, r[i].availabilityStatus)
  {
    if s == [] then []
    else
      var last := s[|s| - 1];
      Filter(flag, s[..|s| - 1]) + (if ShouldCheck(flag, last.availabilityStatus) then [last] else [])
  }

  /**
   * Within a page, a selected source is kept as often as it is listed and an unselected
   * one is skipped.
   */
  lemma {:induction false} FilterExactlyOnce(flag: string, s: seq<Source>)
    ensures forall x :: multiset(Filter(flag, s))[x] ==
              if ShouldCheck(flag, x.availabilityStatus) then multiset(s)[x] else 0
  {
    if s != [] {
      var prefix, last := s[..|s| - 1], s[|s| - 1];
      FilterExactlyOnce(flag, prefix);
      assert s == prefix + [last];
    }
  }

  /** Every source listed on the given pages, in order. */
  function Records(pages: seq<SourceResponse>): seq<Source> {
    if pages == [] then [] else Records(pages[..|pages| - 1]) + pages[|pages| - 1].data
  }

  /** The sources the flag selects on the given pages, in dispatch order. */
  function Selected(flag: string, pages: seq<SourceResponse>): (r: seq<Source>)
    ensures |r| <= |Records(pages)|
    ensures forall i :: 0 <= i < |r| ==> ShouldCheck(flag, r[i].availabilityStatus)
  {
    if pages == [] then []
    else Selected(flag, pages[..|pages| - 1]) + Filter(flag, pages[|pages| - 1].data)
  }

  /** The goroutine arguments built from sources, one per source, in order. */
  function Requests(s: seq<Source>, skipEmpty: bool): (r: seq<DispatchRequest>)
    ensures |r| == |s|
    ensures forall i :: 0 <= i < |s| ==> r[i] == DispatchRequest(s[i].id, s[i].tenant, s[i].orgId, skipEmpty)
  {
    seq(|s|, i requires 0 <= i < |s| => DispatchRequest(s[i].id, s[i].tenant, s[i].orgId, skipEmpty))
  }

  /** Building requests distributes over concatenation. */
  lemma {:induction false} RequestsAppend(a: seq<Source>, b: seq<Source>, skipEmpty: bool)
    ensures Requests(a + b, skipEmpty) == Requests(a, skipEmpty) + Requests(b, skipEmpty)
  {
  }

  /**
   * Sequence concatenation is associative. A solver hint: the dispatch step calls it for
   * its one instance rather than leaving the solver to find it among the heap facts.
   */
  lemma AppendAssociates<T>(a: seq<T>, b: seq<T>, c: seq<T>)
    ensures (a + b) + c == a + (b + c)
  {
  }

  /** One more source of a page adds its request exactly when the flag selects it. */
  lemma RequestsOfFilterStep(flag: string, data: seq<Source>, i: nat, skipEmpty: bool)
    requires i < |data|
    ensures Requests(Filter(flag, data[..i + 1]), skipEmpty) ==
            Requests(Filter(flag, data[..i]), skipEmpty) +
            (if ShouldCheck(flag, data[i].availabilityStatus)
             then [DispatchRequest(data[i].id, data[i].tenant, data[i].orgId, skipEmpty)] else [])
  {
    var s := data[i];
    var done := Filter(flag, data[..i]);
    var step := if ShouldCheck(flag, s.availabilityStatus) then [s] else [];
    assert data[..i + 1][..i] == data[..i];
    assert Filter(flag, data[..i + 1]) == done + step;
    RequestsAppend(done, step, skipEmpty);
  }

  /** Processing one more page dispatches that page's selection after the earlier ones. */
  lemma RequestsOfSelectedStep(flag: string, visited: seq<SourceResponse>, page: SourceResponse,
                               skipEmpty: bool, base: seq<DispatchRequest>, n: nat)
    requires n == |page.data|
    requires base == Requests(Selected(flag, visited), skipEmpty)
    ensures base + Requests(Filter(flag, page.data[..n]), skipEmpty) ==
            Requests(Selected(flag, visited + [page]), skipEmpty)
  {
    assert page.data[..n] == page.data;
    assert (visited + [page])[..|visited|] == visited;
    RequestsAppend(Selected(flag, visited), Filter(flag, page.data), skipEmpty);
  }

  /**
   * Each source the flag selects on the visited pages is dispatched exactly as often as it
   * is listed, and a source it does not select is never dispatched.
   */
  lemma {:induction false} SelectedExactlyOnce(flag: string, pages: seq<SourceResponse>)
    ensures forall x :: multiset(Selected(flag, pages))[x] ==
              if ShouldCheck(flag, x.availabilityStatus) then multiset(Records(pages))[x] else 0
  {
    if pages != [] {
      SelectedExactlyOnce(flag, pages[..|pages| - 1]);
      FilterExactlyOnce(flag, pages[|pages| - 1].data);
    }
  }

  /** The flag "all" keeps every source of a page. */
  lemma {:induction false} FilterAll(s: seq<Source>)
    ensures Filter(AllStatus, s) == s
  {
    if s != [] {
      var prefix, last := s[..|s| - 1], s[|s| - 1];
      FilterAll(prefix);
      assert ShouldCheck(AllStatus, last.availabilityStatus);
      assert Filter(AllStatus, s) == Filter(AllStatus, prefix) + [last];
      assert s == prefix + [last];
    }
  }

  /** With the flag "all", every source on every visited page is dispatched, in listing order. */
  lemma {:induction false} AllSelectsEverything(pages: seq<SourceResponse>)
    ensures Selected(AllStatus, pages) == Records(pages)
  {
    if pages != [] {
      AllSelectsEverything(pages[..|pages| - 1]);
      FilterAll(pages[|pages| - 1].data);
    }
  }

  /**
   * Lines 60-67 of `main` for the source at index `i` of a page: a selected source is
   * counted, and when all slots are held the send on `choke` blocks until some running
   * worker finishes; then the source is dispatched. An unselected source is only logged as
   * skipped. Either way the dispatches so far are the page's selection up to and including
   * this source.
   */
  method ConsiderSource(d: Dispatcher, data: seq<Source>, i: nat, status: string, skipEmpty: bool,
                        replies: DispatchRequest -> RecheckOutcome, count: int, ghost base: seq<DispatchRequest>)
    returns (count': int)
    requires i < |data|
    requires d.Valid()
    requires d.dispatched == base + Requests(Filter(status, data[..i]), skipEmpty)
    requires count == |d.dispatched|
    requires RepliedFrom(d.completed, 0, replies)
    modifies d
    ensures d.Valid()
    ensures d.dispatched == base + Requests(Filter(status, data[..i + 1]), skipEmpty)
    ensures count' == |d.dispatched|
    ensures RepliedFrom(d.completed, 0, replies)
  {
    var s := data[i];
    ghost var added := Requests(Filter(status, data[..i]), skipEmpty);
    RequestsOfFilterStep(status, data, i, skipEmpty);
    count' := count;
    if ShouldCheck(status, s.availabilityStatus) {
      count' := count' + 1;
      if d.inFlight == d.capacity {
        var r :| r in d.running;
        RepliedAppend(d.completed, 0, Completion(r, replies(r)), replies);
        d.Complete(r, replies(r));
      }
      var req := DispatchRequest(s.id, s.tenant, s.orgId, skipEmpty);
      d.Dispatch(req);
      AppendAssociates(base, added, [req]);
    } else {
      assert added + [] == added;
    }
  }

  /**
   * The inner loop of `main` over one page: every selected source is counted and handed to
   * a new worker, in page order, after the selections of the earlier pages; the others are
   * skipped.
   */
  method ProcessPage(d: Dispatcher, page: SourceResponse, status: string, skipEmpty: bool,
                     replies: DispatchRequest -> RecheckOutcome, count: int, ghost visited: seq<SourceResponse>)
    returns (count': int)
    requires d.Valid()
    requires d.dispatched == Requests(Selected(status, visited), skipEmpty)
    requires count == |d.dispatched|
    requires RepliedFrom(d.completed, 0, replies)
    modifies d
    ensures d.Valid()
    ensures d.dispatched == Requests(Selected(status, visited + [page]), skipEmpty)
    ensures count' == |d.dispatched|
    ensures RepliedFrom(d.completed, 0, replies)
  {
    count' := count;
    ghost var base := d.dispatched;
    var i := 0;
    assert base + Requests(Filter(status, page.data[..0]), skipEmpty) == base by {
      assert page.data[..0] == [];
    }
    while i < |page.data|
      invariant 0 <= i <= |page.data|
      invariant d.Valid()
      invariant d.dispatched == base + Requests(Filter(status, page.data[..i]), skipEmpty)
      invariant count' == |d.dispatched|
      invariant RepliedFrom(d.completed, 0, replies)
    {
      count' := ConsiderSource(d, page.data, i, status, skipEmpty, replies, count', base);
      i := i + 1;
    }
    RequestsOfSelectedStep(status, visited, page, skipEmpty, base, i);
  }

  /** The pages processed so far, followed by the next one, are a prefix one page longer. */
  lemma PrefixGrows(pages: seq<SourceResponse>, k: nat)
    requires k < |pages|
    ensures pages[..k] + [pages[k]] == pages[..k + 1]
  {
  }

  /**
   * Why a run stops before its barrier: no pre-shared key, or a fatal listing failure,
   * with the rechecks already dispatched when it happened.
   */
  datatype RunError = MissingPsk | ListingFailed(err: FetchError, dispatched: seq<DispatchRequest>)

  /**
   * What a completed run did: the `count` it logs, the rechecks it dispatched (in order)
   * and the completions the barrier waited for (in completion order).
   */
  datatype Summary = Summary(count: int, dispatched: seq<DispatchRequest>, completed: seq<Completion>)

  /**
   * The page loop of `main` (lines 55-80): fetch the first page at limit 100, offset 0;
   * process every page; stop after the page whose `Limit + Offset` exceeds `Count`, and
   * otherwise fetch the page one limit further on. A failed fetch ends the loop with its
   * error. Either way the dispatched requests are exactly the selected sources of the
   * pages processed, in order: none when the first fetch fails.
   */
  method Enumerate(d: Dispatcher, server: Window -> ListingReply, replies: DispatchRequest -> RecheckOutcome,
                   status: string, skipEmpty: bool, ghost fuel: nat)
    returns (failure: Option<FetchError>, count: int)
    requires d.Valid() && d.dispatched == []
    requires WalkFrom(server, FirstWindow, fuel).end != OutOfFuel
    requires RepliedFrom(d.completed, 0, replies)
    modifies d
    ensures d.Valid()
    ensures RepliedFrom(d.completed, 0, replies)
    ensures failure.Some? <==> WalkFrom(server, FirstWindow, fuel).end.Fatal?
    ensures failure.Some? ==> failure.value == WalkFrom(server, FirstWindow, fuel).end.err
    ensures d.dispatched == Requests(Selected(status, WalkFrom(server, FirstWindow, fuel).pages), skipEmpty)
    ensures count == |d.dispatched|
  {
    ghost var total := WalkFrom(server, FirstWindow, fuel);
    count := 0;
    var listed := Fetch(server, FirstWindow);
    WalkBegins(server, fuel, total);
    if listed.Failure? {
      return Some(listed.error), count;
    }
    var sources := listed.value;
    ghost var visited: seq<SourceResponse> := [];
    while true
      invariant |visited| < |total.pages|
      invariant visited == total.pages[..|visited|]
      invariant sources == total.pages[|visited|]
      invariant d.Valid()
      invariant count == |d.dispatched|
      invariant d.dispatched == Requests(Selected(status, visited), skipEmpty)
      invariant RepliedFrom(d.completed, 0, replies)
      decreases |total.pages| - |visited|
    {
      count := ProcessPage(d, sources, status, skipEmpty, replies, count, visited);
      ghost var k := |visited|;
      PrefixGrows(total.pages, k);
      visited := visited + [sources];
      if IsLastPage(sources) {
        WalkEndsAt(server, fuel, total, k);
        return None, count;
      }
      WalkGoesOn(server, fuel, total, k);
      listed := Fetch(server, NextWindow(sources));
      if listed.Failure? {
        return Some(listed.error), count;
      }
      sources := listed.value;
    }
  }

  /**
   * `main` after configuration: `server` answers the listing requests and `replies` the
   * rechecks; `fuel` bounds the number of listing requests the run needs (see
   * BoundedListingTerminates). Without a pre-shared key the run stops at once; a failed
   * listing stops it with that error and the rechecks dispatched before it, none when the
   * first listing fails; otherwise it dispatches exactly the selected sources of the
   * visited pages and returns only after every dispatched recheck completed, each with
   * the reply `replies` gives to its request.
   */
  method Run(server: Window -> ListingReply, replies: DispatchRequest -> RecheckOutcome,
             psk: string, status: string, skipEmpty: bool, ghost fuel: nat)
    returns (result: Result<Summary, RunError>)
    requires psk != "" ==> WalkFrom(server, FirstWindow, fuel).end != OutOfFuel
    ensures psk == "" ==> result == Failure(MissingPsk)
    ensures psk != "" && WalkFrom(server, FirstWindow, fuel).end.Fatal? ==>
              result == Failure(ListingFailed(WalkFrom(server, FirstWindow, fuel).end.err,
                                              Requests(Selected(status, WalkFrom(server, FirstWindow, fuel).pages), skipEmpty)))
    ensures psk != "" && Fetch(server, FirstWindow).Failure? ==>
              result == Failure(ListingFailed(Fetch(server, FirstWindow).error, []))
    ensures psk != "" && WalkFrom(server, FirstWindow, fuel).end.Finished? ==>
              && result.Success?
              && result.value.dispatched == Requests(Selected(status, WalkFrom(server, FirstWindow, fuel).pages), skipEmpty)
              && result.value.count == |result.value.dispatched|
              && multiset(CompletedRequests(result.value.completed)) == multiset(result.value.dispatched)
              && RepliedFrom(result.value.completed, 0, replies)
  {
    if psk == "" {
      return Failure(MissingPsk);
    }
    var d := new Dispatcher();
    var failure, count := Enumerate(d, server, replies, status, skipEmpty, fuel);
    WalkBegins(server, fuel, WalkFrom(server, FirstWindow, fuel));
    if failure.Some? {
      return Failure(ListingFailed(failure.value, d.dispatched));
    }
    d.Wait(replies);
    result := Success(Summary(count, d.dispatched, d.completed));
  }
}
