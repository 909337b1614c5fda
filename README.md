# sources-monitor-go, modelled in Dafny

sources-monitor-go is a one-shot job. It lists every source known to the Sources API, page by page. For each source whose availability status matches the `-status` flag, it sends a POST `check_availability` recheck from a goroutine. At most three rechecks run at once, and the program waits for all of them before it exits.

This project models that core and proves properties of it:

- `types.dfy` (module `Types`): the listing page shape (`SourceResponse`, `Meta`, `Source`) and Go's wrapping `int64` addition.
- `status.dfy` (module `Status`): `availabilityStatusMatches` and the `"all"` sentinel that guards every dispatch.
- `headers.dfy` (module `Headers`): the header maps of the listing and recheck calls, and the status codes each call accepts.
- `listing.dfy` (module `Listing`): `listInternalSources` and the pagination walk.
  - The remote API is a total function `server` from the requested window (limit, offset) to the reply.
  - `WalkFrom` is the reference definition of the requests the page loop sends and the pages it processes.
  - Lemmas about `WalkFrom` cover the order of requests, the stop rule, the page count for a constant listing, termination, and non-termination when the limit is 0.
- `dispatch.dfy` (module `Dispatch`): the `wg` WaitGroup and the `choke` channel, as the class `Dispatcher`.
  - Its invariant `Valid` keeps the concurrency bound (at most 3 slots held).
  - It also keeps the bookkeeping: every dispatched request is running or completed, exactly once.
  - The module also holds the as-written end of a `checkAvailability` goroutine (see Findings).
- `monitor.dfy` (module `Monitor`): the main loop.
  - `Enumerate` is the page loop; `ProcessPage` and `ConsiderSource` are its inner loop.
  - `Run` is the whole of `main` after configuration. It ends with `wg.Wait()`.
  - `Enumerate` is proved against `WalkFrom` and the specification functions `Filter` / `Selected` / `Requests`.
- `wrappers.dfy` (module `Wrappers`): `Option` and `Result`.

The goroutines run on one fixed sequential schedule. The main loop makes a running worker finish only when all three slots are held, which is where Go's send on `choke` would block. The barrier then finishes the remaining workers. The outcome of each recheck comes from a parameter `replies`.

## Model

| member | source | states |
|---|---|---|
| Status.AvailabilityStatusMatches | main.go:162-168 | For target "unavailable", the result is true exactly for the statuses "unavailable", "" and "in_progress". For any other target, it is true exactly when the statuses are equal. |
| Status.ShouldCheck | main.go:60 | The flag "all" selects every source whatever its status. Any other flag selects exactly the statuses the matcher accepts. |
| Status.MatchesTestTable | main_test.go:22-30 | The nine rows of the repository's truth table hold for the matcher. |
| Headers.AddValue | main.go:101 | `Header.Add` appends one value under the name and leaves every other header as it was. |
| Headers.ListingHeaders | main.go:93-102 | The listing call always carries account number "sources_monitor" and the psk. It carries the skip-empty header, with the value "true", exactly when the flag is on. It carries nothing else. |
| Headers.RecheckHeaders | main.go:127-141 | The psk is always set. The account number is set exactly when the tenant is non-empty, the org id exactly when orgId is non-empty, and skip-empty="true" exactly when the flag is on. No other header is set. |
| Listing.ListInternalSources | main.go:104-117 | A page is returned exactly when the call answered 200 and the body decoded, and it is that body. A transport error, any other status or an undecodable body is a fatal error. |
| Types.Add64 | main.go:73-79 | Go's int64 `+`: the exact sum when it fits in int64, and otherwise the sum shifted by 2^64 back into range. |
| Types.Add64Wraps | main.go:73 | Go's int64 `Limit + Offset` and `Offset + Limit` equal the two's-complement wrap-around of the exact sum. |
| Listing.IsLastPage | main.go:73 | When `Limit + Offset` does not overflow, a page is the last one exactly when that exact sum exceeds `Count`. |
| Listing.NextWindow | main.go:79 | The next request keeps the page's `Limit`. When `Offset + Limit` does not overflow, it asks for exactly that offset. |
| Listing.WalkFrom | main.go:55-80 | The page loop cut off after `fuel` requests sends at most `fuel` requests and processes at most one page per request. |
| Listing.WalkRequests | main.go:55-79 | The walk's first request is the window it starts from. Every processed page is the decoded reply to its own request. A fatal walk ends on the request whose reply failed. |
| Listing.WalkSteps | main.go:79 | Every request after the first keeps the previous page's `Limit` and asks for offset `Offset + Limit`. |
| Listing.WalkStops | main.go:73-76 | The loop goes on past every page but the last. A finished walk ends on a page with `Limit + Offset > Count`, and that page is still processed. |
| Listing.WalkBegins | main.go:55 | The first request is limit 100, offset 0. Its failure ends the walk with that error before any page is processed; otherwise its page is the walk's first page. |
| Listing.WalkEndsAt | main.go:73-76 | A processed page with `Limit + Offset > Count` is the walk's final page, and the walk finished. |
| Listing.WalkGoesOn | main.go:78-79 | After any other page, the next request is the walk's next request. Its failure ends the walk with that error, and the pages processed so far are all of the walk's pages; otherwise its page is the walk's next page. |
| Listing.ConstantMetaWalkFrom | main.go:73-79 | A constant listing (every request succeeds with a page that reports count c ≥ 0 and limit l > 0 and echoes the requested offset, with c + l < 2^63 so that no sum overflows), walked from offset k·l with k ≤ c / l, ends after c / l − k + 1 pages. Each page's offset is one limit past the previous one. |
| Listing.ConstantMetaPageCount | main.go:55-79 | Such a constant listing (count c ≥ 0, limit l > 0, offset echoed, c + l < 2^63) makes a run fetch exactly c / l + 1 pages, at offsets 0, l, 2l, … |
| Listing.BoundedWalkEnds | main.go:56-80 | Against a listing that echoes the requested offset and reports a positive limit and a count of at most `bound`, with every limit + bound < 2^63, the walk from any offset in [0, bound] ends within bound − offset + 1 requests. |
| Listing.BoundedListingTerminates | main.go:56-80 | Against such a listing (offset echoed, limit > 0, count ≤ bound, limit + bound < 2^63), the page loop terminates within bound + 1 requests. |
| Listing.ZeroLimitNeverEnds | main.go:73-79 | A listing whose every request succeeds with a page that reports limit 0, a fixed count and the requested offset never lets the loop stop from an offset in [0, count]. |
| Dispatch.DispatchAccounted | main.go:63-67 | A dispatch adds its request both to the dispatched requests and to the running workers. The account stays balanced. |
| Dispatch.CompleteAccounted | main.go:153-156 | A completion moves its request from the running workers to the completed ones. The account stays balanced. |
| Dispatch.Dispatcher.constructor | main.go:31-33 | The WaitGroup starts at 0 and the channel starts empty. Nothing has been dispatched. |
| Dispatch.Dispatcher.Dispatch | main.go:63-67 | Requires a free slot. The counter and the slots held each rise by one, the request is dispatched and running, and the invariant (at most 3 slots, full account) is kept. |
| Dispatch.Dispatcher.Complete | main.go:151-156 | On every outcome, a transport failure included, a running worker records its completion, releases one slot and lowers the counter once. The invariant is kept. |
| Dispatch.Dispatcher.Wait | main.go:84 | Returns with the counter at 0 and no slot held. The completions are exactly the dispatches, as a multiset. Earlier completions are kept. Each worker that finishes during the wait got the reply `replies` gives to its request; if every earlier completion did too, all completions did. |
| Dispatch.WorkerEndAsWritten | main.go:144-156 | As written, a worker crashes exactly when the POST had no response. Otherwise it returns, and it succeeded exactly on 202. |
| Dispatch.RecheckTimeoutCrashesRun | main.go:144-151 | A recheck that fails in transport (a timeout, say) crashes the run. Every recheck that got a response returns normally. |
| Monitor.Filter | main.go:59-71 | A page's selection is never longer than the page, and every source in it satisfies the flag. |
| Monitor.Selected | main.go:56-80 | The selection across the visited pages is never longer than their records, and every source in it satisfies the flag. |
| Monitor.FilterExactlyOnce | main.go:59-71 | Within a page, each selected source is kept as often as it is listed, and each unselected one is dropped. |
| Monitor.SelectedExactlyOnce | main.go:56-80 | Across the visited pages, each selected source is dispatched as often as it is listed, and no unselected source is dispatched. |
| Monitor.FilterAll | main.go:60 | The flag "all" keeps every source of a page. |
| Monitor.AllSelectsEverything | main.go:56-80 | With the flag "all", every source on every visited page is dispatched, in listing order. |
| Monitor.Requests | main.go:67 | One request per source, in order: the source's ID, Tenant and OrgId and the skip-empty setting. |
| Monitor.RequestsAppend | main.go:67 | The goroutine arguments of two runs of sources are the arguments of each run, one after the other. |
| Monitor.ConsiderSource | main.go:60-70 | After one more source of a page, the dispatches are the page's selection up to and including it, after the earlier pages' selection. The count equals the number of dispatches. A worker finished to free a slot gets the reply to its own request. |
| Monitor.ProcessPage | main.go:59-71 | After a page, the dispatches are the selection of every visited page, in order, and the count equals them. Every completion so far carries the reply to its own request. |
| Monitor.Enumerate | main.go:53-80 | The loop fails exactly when the walk hits a fatal listing failure, and fails with that error. On both paths the dispatches are exactly the selected sources of the pages processed, in order; none when the first listing fails. The count always equals the number of dispatches. Every completion carries the reply to its own request. |
| Monitor.Run | main.go:38-106 | A missing psk stops the run. A fatal listing failure stops it with that error and the rechecks dispatched before it, which are none when the first listing fails. Otherwise `count` is the number of selected sources of the visited pages, those are exactly the dispatches, and after the barrier the completions are exactly the dispatches, each with the outcome `replies` gives to its request. |

## Left out

- HTTP transport, URL building, `io.ReadAll` and `json.Unmarshal` are not modelled. The listing is an abstract function from the requested window to a reply. The reply holds the status code and, when the body decodes, the decoded page. The recheck is an abstract function `replies` from the request to its outcome.
- Environment variables, flag parsing and all logging are not modelled. The psk, the status flag and the skip-empty setting are parameters of `Run`; they are not read from the environment.
- `log.Fatalf` does not exit the process in the model. It becomes an error result (`RunError`).
- Real goroutine scheduling and real blocking on the channel and the WaitGroup are left out, and so is the 10-second client timeout. The model fixes one sequential schedule: a worker finishes only when all slots are held, or at the barrier. Other interleavings, where workers finish earlier and in other orders, are not covered.
- Dispatch.Dispatcher.Dispatch: `wg.Add(1)` and the send on `choke` happen in one sequential step. The order between them, which only matters under real concurrency, is not captured.
- Monitor.Enumerate and Monitor.Run take a ghost `fuel` and require that the walk does not run out of it. The loop itself has no bound; Listing.BoundedListingTerminates gives such a fuel for any bounded listing with positive limits.
- The skip-empty header on the listing call is stored under its canonical MIME name `X-Rh-Sources-Skip-Empty-Sources`, which is how `Header.Add` files it. The canonicalisation itself is not modelled.
- Listing.ConstantMetaPageCount states the count the code fetches, c / l + 1 pages (integer division). It is not ceil(c / l). The two differ whenever l divides c; for example, c = 100 and l = 100 give two pages, and the second is empty.
- Headers.ListingHeaders and Headers.RecheckHeaders are not passed to `server` or `replies`. The model takes each reply as given, so nothing ties a reply to the headers its request carried.
- The crash described under Findings is modelled as a value (`WorkerEndAsWritten`) and is not carried into `Run`. `Run` uses the corrected worker, which releases its slot on every outcome.

## Findings

| source | as written | input that shows it | evidently intended | confidence | as-written member | corrected member |
|---|---|---|---|---|---|---|
| main.go:144-151 | After a failed POST, `defer resp.Body.Close()` dereferences `resp` even when `httpClient.Do` returned an error and a nil response. The goroutine panics before `<-choke` and `wg.Done()`, and the unrecovered panic ends the whole process. | A recheck that times out, which gives `TransportFailure`: `WorkerEndAsWritten(TransportFailure) == Crashed`. | A failed recheck is only logged. The worker still releases its slot and lowers the counter, so the barrier sees every dispatch completed. | not executed | Dispatch.WorkerEndAsWritten, Dispatch.RecheckTimeoutCrashesRun | Dispatch.Dispatcher.Complete |
