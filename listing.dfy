/**
 * The page fetcher (listInternalSources) and the pagination walk the main loop performs.
 * The remote listing is an abstract total function from the requested window to the
 * reply; JSON decoding is folded into the reply as an optional decoded body.
 */
module Listing {
  import opened Wrappers
  import opened Types
  import opened Headers

  /** The `limit`/`offset` query of one listing request. */
  datatype Window = Window(limit: int64, offset: int64)

  /** The first request of every run: limit 100, offset 0. */
  const FirstWindow: Window := Window(100, 0)

  /** What the HTTP call and the JSON decoding produce. */
  datatype ListingReply =
    | TransportFailed
    | Reply(statusCode: int, body: Option<SourceResponse>)

  /** Why a listing request is fatal: no response, a status other than 200, or an undecodable body. */
  datatype FetchError = TransportError | BadStatus(code: int) | Unparsable

  /**
   * listInternalSources after the request is sent: any transport error, any status other
   * than 200 and any body that does not decode is fatal to the run.
   */
  function ListInternalSources(reply: ListingReply): (r: Result<SourceResponse, FetchError>)
    ensures r.Success? <==> reply.Reply? && ListingStatusOk(reply.statusCode) && reply.body.Some?
    ensures r.Success? ==> r.value == reply.body.value
    ensures reply.Reply? && !ListingStatusOk(reply.statusCode) ==> r == Failure(BadStatus(reply.statusCode))
  {
    match reply
    case TransportFailed => Failure(TransportError)
    case Reply(code, body) =>
      if !ListingStatusOk(code) then Failure(BadStatus(code))
      else if body.None? then Failure(Unparsable)
      else Success(body.value)
  }

  /**
   * The loop stops after the page whose `Limit + Offset` (int64 arithmetic) exceeds `Count`;
   * when the sum does not overflow, that is the comparison of the exact sum.
   */
  predicate IsLastPage(p: SourceResponse)
    ensures Int64Min <= p.meta.limit as int + p.meta.offset as int < Int64Bound ==>
              (IsLastPage(p) <==> p.meta.limit as int + p.meta.offset as int > p.meta.count as int)
  {
    Add64(p.meta.limit, p.meta.offset) > p.meta.count
  }

  /**
   * The next request keeps the page's limit and advances its offset by that limit, exactly
   * unless the int64 addition overflows.
   */
  function NextWindow(p: SourceResponse): (w: Window)
    ensures w.limit == p.meta.limit
    ensures Int64Min <= p.meta.offset as int + p.meta.limit as int < Int64Bound ==>
              w.offset as int == p.meta.offset as int + p.meta.limit as int
  {
    Window(p.meta.limit, Add64(p.meta.offset, p.meta.limit))
  }

  /** How the page loop ends: after a last page, on a fatal listing failure, or cut off. */
  datatype WalkEnd = Finished | Fatal(err: FetchError) | OutOfFuel

  /**
   * The requests a run sends and the pages it processes. `OutOfFuel` only means the walk
   * was cut off after `fuel` requests; a run that never ends has it for every fuel.
   */
  datatype Walk = Walk(windows: seq<Window>, pages: seq<SourceResponse>, end: WalkEnd)

  /** A walk that first requested `w` and processed `p`, then went on as `rest`. */
  function Prepend(w: Window, p: SourceResponse, rest: Walk): Walk {
    Walk([w] + rest.windows, [p] + rest.pages, rest.end)
  }

  /** The listing request for window `w`, answered by `server` and checked. */
  function Fetch(server: Window -> ListingReply, w: Window): Result<SourceResponse, FetchError> {
    ListInternalSources(server(w))
  }

  /**
   * The walk that starts by requesting window `w`, cut off after `fuel` requests: it sends
   * at most `fuel` requests and processes at most one page per request.
   */
  function WalkFrom(server: Window -> ListingReply, w: Window, fuel: nat): (r: Walk)
    ensures |r.pages| <= |r.windows| <= fuel
    decreases fuel
  {
    if fuel == 0 then Walk([], [], OutOfFuel)
    else match Fetch(server, w)
      case Failure(e) => Walk([w], [], Fatal(e))
      case Success(p) =>
        if IsLastPage(p) then Walk([w], [p], Finished)
        else Prepend(w, p, WalkFrom(server, NextWindow(p), fuel - 1))
  }

  /**
   * Every walk sends its requests in order, starting with `w`, and processes exactly the
   * decoded replies to them; a fatal walk ends on the request whose reply failed.
   */
  lemma {:induction false} WalkRequests(server: Window -> ListingReply, w: Window, fuel: nat)
    ensures var r := WalkFrom(server, w, fuel);
      && |r.windows| == |r.pages| + (if r.end.Fatal? then 1 else 0)
      && (fuel > 0 <==> |r.windows| > 0)
      && (|r.windows| > 0 ==> r.windows[0] == w)
      && (forall i :: 0 <= i < |r.pages| ==> Fetch(server, r.windows[i]) == Success(r.pages[i]))
      && (r.end.Fatal? ==> Fetch(server, r.windows[|r.windows| - 1]) == Failure(r.end.err))
    decreases fuel
  {
    if fuel > 0 {
      match Fetch(server, w)
      case Failure(_) =>
      case Success(p) =>
        if !IsLastPage(p) {
          var next := NextWindow(p);
          WalkRequests(server, next, fuel - 1);
          var rest := WalkFrom(server, next, fuel - 1);
          var r := Prepend(w, p, rest);
          assert WalkFrom(server, w, fuel) == r;
          forall i | 0 <= i < |r.pages|
            ensures Fetch(server, r.windows[i]) == Success(r.pages[i])
          {
            if i > 0 {
              assert r.windows[i] == rest.windows[i - 1] && r.pages[i] == rest.pages[i - 1];
            }
          }
          if r.end.Fatal? {
            assert r.windows[|r.windows| - 1] == rest.windows[|rest.windows| - 1];
          }
        }
    }
  }

  /**
   * Each request after the first keeps the previous page's limit and advances the offset
   * by it.
   */
  lemma {:induction false} WalkSteps(server: Window -> ListingReply, w: Window, fuel: nat)
    ensures var r := WalkFrom(server, w, fuel);
      && |r.windows| <= |r.pages| + 1
      && forall i :: 0 < i < |r.windows| ==> r.windows[i] == NextWindow(r.pages[i - 1])
    decreases fuel
  {
    if fuel > 0 {
      match Fetch(server, w)
      case Failure(_) =>
      case Success(p) =>
        if !IsLastPage(p) {
          var next := NextWindow(p);
          WalkSteps(server, next, fuel - 1);
          WalkRequests(server, next, fuel - 1);
          var rest := WalkFrom(server, next, fuel - 1);
          var r := Prepend(w, p, rest);
          assert WalkFrom(server, w, fuel) == r;
          forall i | 0 < i < |r.windows|
            ensures r.windows[i] == NextWindow(r.pages[i - 1])
          {
            if i == 1 {
              assert r.windows[1] == rest.windows[0];
            } else {
              assert r.windows[i] == rest.windows[i - 1];
              assert r.pages[i - 1] == rest.pages[i - 2];
            }
          }
        }
    }
  }

  /**
   * The loop goes on past every page but the last: a finished walk ends on a page whose
   * `Limit + Offset` exceeds `Count`, and that page is still processed.
   */
  lemma {:induction false} WalkStops(server: Window -> ListingReply, w: Window, fuel: nat)
    ensures var r := WalkFrom(server, w, fuel);
      && (forall i :: 0 <= i < |r.pages| - 1 ==> !IsLastPage(r.pages[i]))
      && (r.end.Finished? ==> |r.pages| > 0 && IsLastPage(r.pages[|r.pages| - 1]))
      && (!r.end.Finished? ==> |r.pages| == 0 || !IsLastPage(r.pages[|r.pages| - 1]))
    decreases fuel
  {
    if fuel > 0 {
      match Fetch(server, w)
      case Failure(_) =>
      case Success(p) =>
        if !IsLastPage(p) {
          var next := NextWindow(p);
          WalkStops(server, next, fuel - 1);
          var rest := WalkFrom(server, next, fuel - 1);
          var r := Prepend(w, p, rest);
          assert WalkFrom(server, w, fuel) == r;
          assert forall i :: 0 < i < |r.pages| ==> r.pages[i] == rest.pages[i - 1];
        }
    }
  }

  /**
   * The first request of the main loop: a failure ends the walk with its error before any
   * page is processed, and a decoded page is the walk's first page.
   */
  lemma WalkBegins(server: Window -> ListingReply, fuel: nat, total: Walk)
    requires total == WalkFrom(server, FirstWindow, fuel) && total.end != OutOfFuel
    ensures Fetch(server, FirstWindow).Failure? ==>
              total.end == Fatal(Fetch(server, FirstWindow).error) && total.pages == []
    ensures Fetch(server, FirstWindow).Success? ==>
              |total.pages| > 0 && total.pages[0] == Fetch(server, FirstWindow).value
  {
  }

  /**
   * The main loop after processing page `k` of the walk, when that page is a last page:
   * it was the walk's final page and the walk finished.
   */
  lemma WalkEndsAt(server: Window -> ListingReply, fuel: nat, total: Walk, k: nat)
    requires total == WalkFrom(server, FirstWindow, fuel)
    requires k < |total.pages| && IsLastPage(total.pages[k])
    ensures k == |total.pages| - 1 && total.end == Finished
    ensures total.pages[..k + 1] == total.pages
  {
    WalkStops(server, FirstWindow, fuel);
  }

  /**
   * The main loop after processing page `k` of the walk, when that page is not a last page:
   * the next request is the walk's next one; its failure ends the walk with that error,
   * page `k` being the last one processed, and its decoded page is the walk's next page.
   */
  lemma WalkGoesOn(server: Window -> ListingReply, fuel: nat, total: Walk, k: nat)
    requires total == WalkFrom(server, FirstWindow, fuel) && total.end != OutOfFuel
    requires k < |total.pages| && !IsLastPage(total.pages[k])
    ensures k + 1 < |total.windows| && total.windows[k + 1] == NextWindow(total.pages[k])
    ensures Fetch(server, NextWindow(total.pages[k])).Failure? ==>
              total.end == Fatal(Fetch(server, NextWindow(total.pages[k])).error) && total.pages[..k + 1] == total.pages
    ensures Fetch(server, NextWindow(total.pages[k])).Success? ==>
              k + 1 < |total.pages| && total.pages[k + 1] == Fetch(server, NextWindow(total.pages[k])).value
  {
    WalkRequests(server, FirstWindow, fuel);
    WalkSteps(server, FirstWindow, fuel);
    WalkStops(server, FirstWindow, fuel);
  }

  /**
   * A listing whose every page reports the same count `c` and limit `l` and echoes the
   * requested offset.
   */
  ghost predicate ConstantMeta(server: Window -> ListingReply, c: int64, l: int64) {
    forall w ::
      Fetch(server, w).Success? &&
      Fetch(server, w).value.meta == Meta(c, l, w.offset)
  }

  /** The arithmetic of one step of a constant listing, at the page with offset k*l. */
  lemma ConstantStep(c: int, l: int, k: nat)
    requires 0 <= c && 0 < l && k <= c / l
    ensures k * l <= c
    ensures k * l + l == (k + 1) * l
    ensures (k + 1) * l > c <==> k == c / l
  {
    var q := c / l;
    assert c == q * l + c % l;
  }

  /**
   * From the request at offset k*l, a constant listing ends after the page at offset
   * (c / l) * l, with every page one limit further than the one before.
   */
  lemma {:induction false} ConstantMetaWalkFrom(server: Window -> ListingReply, c: int64, l: int64, w: Window, k: nat, fuel: nat)
    requires ConstantMeta(server, c, l)
    requires 0 <= c as int && 0 < l as int && c as int + l as int < Int64Bound
    requires k <= c as int / l as int && w.offset as int == k * l as int
    requires fuel > c as int / l as int - k
    ensures var r := WalkFrom(server, w, fuel);
      && r.end == Finished
      && |r.pages| == c as int / l as int - k + 1
      && r.pages[0].meta.offset == w.offset
      && forall i :: 0 < i < |r.pages| ==> r.pages[i].meta.offset as int == r.pages[i - 1].meta.offset as int + l as int
    decreases c as int / l as int - k
  {
    var ci, li := c as int, l as int;
    var p := Fetch(server, w).value;
    assert p.meta == Meta(c, l, w.offset);
    ConstantStep(ci, li, k);
    assert Add64(l, w.offset) as int == (k + 1) * li;
    if k < ci / li {
      assert !IsLastPage(p);
      var next := NextWindow(p);
      assert next.offset as int == (k + 1) * li;
      ConstantMetaWalkFrom(server, c, l, next, k + 1, fuel - 1);
      var rest := WalkFrom(server, next, fuel - 1);
      var r := Prepend(w, p, rest);
      assert WalkFrom(server, w, fuel) == r;
      assert r.pages == [p] + rest.pages;
      assert rest.pages[0].meta.offset as int == p.meta.offset as int + li;
    } else {
      assert IsLastPage(p);
      assert WalkFrom(server, w, fuel) == Walk([w], [p], Finished);
    }
  }

  /** Offsets that start at 0 and grow by l from page to page are the multiples of l. */
  lemma {:induction false} OffsetsAreMultiples(pages: seq<SourceResponse>, l: int, n: nat)
    requires |pages| > 0 && pages[0].meta.offset == 0
    requires forall i :: 0 < i < |pages| ==> pages[i].meta.offset as int == pages[i - 1].meta.offset as int + l
    requires n < |pages|
    ensures pages[n].meta.offset as int == n * l
  {
    if n > 0 {
      OffsetsAreMultiples(pages, l, n - 1);
    }
  }

  /**
   * With a fixed count c and limit l > 0, a run from the first request fetches exactly
   * c / l + 1 pages (integer division, so one page even when c == 0 and an extra one
   * when l divides c), requested at offsets 0, l, 2l, ...
   */
  lemma ConstantMetaPageCount(server: Window -> ListingReply, c: int64, l: int64, fuel: nat)
    requires ConstantMeta(server, c, l)
    requires 0 <= c as int && 0 < l as int && c as int + l as int < Int64Bound
    requires fuel > c as int / l as int
    ensures var r := WalkFrom(server, FirstWindow, fuel);
      && r.end == Finished
      && |r.pages| == c as int / l as int + 1
      && |r.windows| == |r.pages|
      && forall i :: 0 <= i < |r.windows| ==> r.windows[i].offset as int == i * l as int
  {
    var r := WalkFrom(server, FirstWindow, fuel);
    ConstantMetaWalkFrom(server, c, l, FirstWindow, 0, fuel);
    WalkRequests(server, FirstWindow, fuel);
    forall i | 0 <= i < |r.windows|
      ensures r.windows[i].offset as int == i * l as int
    {
      OffsetsAreMultiples(r.pages, l as int, i);
      assert Fetch(server, r.windows[i]).value.meta.offset == r.windows[i].offset;
    }
  }

  /**
   * A listing that echoes the requested offset, reports a positive limit and a count of at
   * most `bound`, and whose limits cannot overflow past `bound`.
   */
  ghost predicate BoundedListing(server: Window -> ListingReply, bound: int) {
    forall w :: Fetch(server, w).Success? ==>
      var m := Fetch(server, w).value.meta;
      m.offset == w.offset && 0 < m.limit as int && m.count as int <= bound && m.limit as int + bound < Int64Bound
  }

  /** Against a bounded listing, the walk from any offset in [0, bound] ends within the fuel. */
  lemma {:induction false} BoundedWalkEnds(server: Window -> ListingReply, bound: int, w: Window, fuel: nat)
    requires BoundedListing(server, bound)
    requires 0 <= w.offset as int <= bound
    requires fuel > bound - w.offset as int
    ensures WalkFrom(server, w, fuel).end != OutOfFuel
    decreases fuel
  {
    match Fetch(server, w)
    case Failure(_) =>
    case Success(p) =>
      if !IsLastPage(p) {
        assert p.meta.offset == w.offset;
        var next := NextWindow(p);
        assert next.offset as int == w.offset as int + p.meta.limit as int;
        BoundedWalkEnds(server, bound, next, fuel - 1);
      }
  }

  /** The main loop terminates against any bounded listing: it needs at most bound + 1 pages. */
  lemma BoundedListingTerminates(server: Window -> ListingReply, bound: nat)
    requires BoundedListing(server, bound)
    ensures WalkFrom(server, FirstWindow, bound + 1).end != OutOfFuel
  {
    BoundedWalkEnds(server, bound, FirstWindow, bound + 1);
  }

  /**
   * A listing that reports limit 0 and echoes an offset no larger than its count never lets
   * the loop stop: every request is answered with a page that is not the last one.
   */
  lemma {:induction false} ZeroLimitNeverEnds(server: Window -> ListingReply, c: int64, w: Window, fuel: nat)
    requires ConstantMeta(server, c, 0)
    requires 0 <= w.offset <= c
    ensures WalkFrom(server, w, fuel).end == OutOfFuel
    decreases fuel
  {
    if fuel > 0 {
      var p := Fetch(server, w).value;
      assert !IsLastPage(p);
      ZeroLimitNeverEnds(server, c, NextWindow(p), fuel - 1);
    }
  }
}
