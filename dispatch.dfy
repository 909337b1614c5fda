/**
 * The bounded dispatcher: the WaitGroup `wg` (outstanding work) and the `choke` channel of
 * capacity 3 (concurrency slots), modelled sequentially. A blocking send on `choke`
 * becomes the precondition that a slot is free; the caller makes a running worker
 * finish first when all slots are held.
 */
module Dispatch {
  import opened Headers

  /** The capacity of the `choke` channel. */
  const ChokeCapacity: nat := 3

  /** The arguments of one checkAvailability goroutine. */
  datatype DispatchRequest = DispatchRequest(id: string, tenant: string, orgId: string, skipEmpty: bool)

  /** What the recheck POST produced: a transport error, or a response with its status code. */
  datatype RecheckOutcome = TransportFailure | Response(statusCode: int)

  /** A recheck succeeds only when the API answers 202 Accepted. */
  predicate RecheckSucceeded(outcome: RecheckOutcome) {
    outcome.Response? && RecheckStatusOk(outcome.statusCode)
  }

  /** One finished worker and what its recheck produced. */
  datatype Completion = Completion(request: DispatchRequest, outcome: RecheckOutcome)

  /** The requests of some completions, in the same order. */
  function CompletedRequests(cs: seq<Completion>): (r: seq<DispatchRequest>)
    ensures |r| == |cs|
    ensures forall i :: 0 <= i < |cs| ==> r[i] == cs[i].request
  {
    seq(|cs|, i requires 0 <= i < |cs| => cs[i].request)
  }

  /**
   * The multiset of a sequence's requests, built one request at a time. It equals the
   * built-in `multiset(s)` (BagIsMultiset); the dispatcher's invariant uses this form
   * because it unfolds one append at a time, where the built-in one makes every caller
   * of Dispatch and Complete far costlier to verify.
   */
  function Bag(s: seq<DispatchRequest>): (b: multiset<DispatchRequest>)
    ensures |b| == |s|
  {
    if s == [] then multiset{} else Bag(s[..|s| - 1]) + multiset{s[|s| - 1]}
  }

  /** Bag agrees with the built-in multiset of a sequence. */
  lemma {:induction false} BagIsMultiset(s: seq<DispatchRequest>)
    ensures Bag(s) == multiset(s)
  {
    if s != [] {
      BagIsMultiset(s[..|s| - 1]);
      assert s == s[..|s| - 1] + [s[|s| - 1]];
    }
  }

  /** Every dispatched request is either running or finished, exactly once. */
  ghost predicate Accounted(dispatched: seq<DispatchRequest>, running: multiset<DispatchRequest>,
                            finished: seq<DispatchRequest>) {
    Bag(dispatched) == running + Bag(finished)
  }

  /** A dispatch adds its request to both sides of the account. */
  lemma DispatchAccounted(dispatched: seq<DispatchRequest>, running: multiset<DispatchRequest>,
                          completed: seq<Completion>, req: DispatchRequest)
    requires Accounted(dispatched, running, CompletedRequests(completed))
    ensures Accounted(dispatched + [req], running + multiset{req}, CompletedRequests(completed))
    ensures |running + multiset{req}| == |running| + 1
  {
    assert (dispatched + [req])[..|dispatched|] == dispatched;
  }

  /** Appending one request adds it once to the bag. */
  lemma BagAppend(s: seq<DispatchRequest>, x: DispatchRequest)
    ensures Bag(s + [x]) == Bag(s) + multiset{x}
  {
    assert (s + [x])[..|s|] == s;
  }

  /** One more completion contributes its request at the end. */
  lemma CompletedRequestsAppend(cs: seq<Completion>, c: Completion)
    ensures CompletedRequests(cs + [c]) == CompletedRequests(cs) + [c.request]
  {
  }

  /**
   * Taking out one occurrence of a member and putting it back is the identity. A solver
   * hint for Complete and CompleteAccounted, which state it for this one instance.
   */
  lemma RemoveOne(m: multiset<DispatchRequest>, x: DispatchRequest)
    requires x in m
    ensures m == (m - multiset{x}) + multiset{x}
    ensures |m - multiset{x}| == |m| - 1
  {
  }

  /** A completion moves its request from the running workers to the finished ones. */
  lemma CompleteAccounted(dispatched: seq<DispatchRequest>, running: multiset<DispatchRequest>,
                          completed: seq<Completion>, c: Completion)
    requires Accounted(dispatched, running, CompletedRequests(completed))
    requires c.request in running
    ensures Accounted(dispatched, running - multiset{c.request}, CompletedRequests(completed + [c]))
  {
    CompletedRequestsAppend(completed, c);
    BagAppend(CompletedRequests(completed), c.request);
    RemoveOne(running, c.request);
  }

  /** From position `k` on, every completion's outcome is the reply to its own request. */
  ghost predicate RepliedFrom(cs: seq<Completion>, k: nat, replies: DispatchRequest -> RecheckOutcome) {
    forall i :: k <= i < |cs| ==> cs[i].outcome == replies(cs[i].request)
  }

  /** A completion that got the reply to its request extends the run of replied completions. */
  lemma RepliedAppend(cs: seq<Completion>, k: nat, c: Completion, replies: DispatchRequest -> RecheckOutcome)
    requires RepliedFrom(cs, k, replies) && c.outcome == replies(c.request)
    ensures RepliedFrom(cs + [c], k, replies)
  {
  }

  /** How a checkAvailability goroutine ends. */
  datatype WorkerEnd = Crashed | Returned(succeeded: bool)

  /**
   * checkAvailability as written: `defer resp.Body.Close()` runs after the failure is logged
   * and dereferences the response, which is nil after a transport error (a timeout, say).
   * The goroutine panics before it gives back its slot or calls `wg.Done()`, and an
   * unrecovered panic ends the whole process.
   */
  function WorkerEndAsWritten(outcome: RecheckOutcome): (e: WorkerEnd)
    ensures e.Crashed? <==> outcome.TransportFailure?
    ensures e.Returned? ==> (e.succeeded <==> RecheckSucceeded(outcome))
  {
    match outcome
    case TransportFailure => Crashed
    case Response(code) => Returned(RecheckStatusOk(code))
  }

  /** A recheck that times out crashes the run instead of failing that one call. */
  lemma RecheckTimeoutCrashesRun()
    ensures WorkerEndAsWritten(TransportFailure) == Crashed
    ensures forall code :: WorkerEndAsWritten(Response(code)).Returned?
  {
  }

  class Dispatcher {
    /** `cap(choke)` */
    const capacity: nat := ChokeCapacity
    /** The WaitGroup counter. */
    var outstanding: nat
    /** `len(choke)`: slots currently held. */
    var inFlight: nat
    /** Every request handed to a goroutine, in dispatch order. */
    var dispatched: seq<DispatchRequest>
    /** The goroutines started and not yet finished. */
    var running: multiset<DispatchRequest>
    /** The goroutines that finished, in completion order. */
    var completed: seq<Completion>

    /**
     * The concurrency bound and the bookkeeping: no more than `capacity` slots are held,
     * each running worker holds one slot and one unit of the WaitGroup, and every
     * dispatched request is either running or completed, exactly once.
     */
    ghost predicate Valid()
      reads this
    {
      && inFlight <= capacity
      && outstanding == inFlight
      && |running| == inFlight
      && Accounted(dispatched, running, CompletedRequests(completed))
    }

    constructor ()
      ensures Valid()
      ensures outstanding == 0 && inFlight == 0
      ensures dispatched == [] && running == multiset{} && completed == []
    {
      outstanding := 0;
      inFlight := 0;
      dispatched := [];
      running := multiset{};
      completed := [];
    }

    /**
     * `wg.Add(1)`, then `choke <- struct{}{}`, then `go checkAvailability(...)`: the counter
     * goes up before a slot is taken and before the worker starts.
     */
    method Dispatch(req: DispatchRequest)
      requires Valid()
      requires inFlight < capacity
      modifies this
      ensures Valid()
      ensures outstanding == old(outstanding) + 1
      ensures inFlight == old(inFlight) + 1
      ensures dispatched == old(dispatched) + [req]
      ensures running == old(running) + multiset{req}
      ensures completed == old(completed)
    {
      DispatchAccounted(dispatched, running, completed, req);
      outstanding := outstanding + 1;
      inFlight := inFlight + 1;
      dispatched := dispatched + [req];
      running := running + multiset{req};
    }

    /**
     * The end of a checkAvailability goroutine whose POST produced `outcome`: the outcome is
     * recorded, one slot is released (`<-choke`) and the counter goes down once
     * (`wg.Done()`), on every outcome, a transport failure included.
     */
    method Complete(req: DispatchRequest, outcome: RecheckOutcome)
      requires Valid()
      requires req in running
      modifies this
      ensures Valid()
      ensures outstanding == old(outstanding) - 1
      ensures inFlight == old(inFlight) - 1
      ensures running == old(running) - multiset{req}
      ensures completed == old(completed) + [Completion(req, outcome)]
      ensures dispatched == old(dispatched)
    {
      var c := Completion(req, outcome);
      CompleteAccounted(dispatched, running, completed, c);
      RemoveOne(running, req);
      completed := completed + [c];
      running := running - multiset{req};
      inFlight := inFlight - 1;
      outstanding := outstanding - 1;
    }

    /**
     * `wg.Wait()`: returns once every running worker has finished. Afterwards nothing is
     * outstanding, no slot is held, and the completions are exactly the dispatches; each
     * worker finished here got the reply `replies` gives to its request.
     */
    method Wait(replies: DispatchRequest -> RecheckOutcome)
      requires Valid()
      modifies this
      ensures Valid()
      ensures outstanding == 0 && inFlight == 0 && running == multiset{}
      ensures dispatched == old(dispatched)
      ensures multiset(CompletedRequests(completed)) == multiset(dispatched)
      ensures |completed| == |dispatched|
      ensures |old(completed)| <= |completed| && completed[..|old(completed)|] == old(completed)
      ensures RepliedFrom(completed, |old(completed)|, replies)
      ensures RepliedFrom(old(completed), 0, replies) ==> RepliedFrom(completed, 0, replies)
    {
      ghost var start := |completed|;
      ghost var before := RepliedFrom(completed, 0, replies);
      while outstanding > 0
        invariant Valid()
        invariant dispatched == old(dispatched)
        invariant |old(completed)| <= |completed| && completed[..|old(completed)|] == old(completed)
        invariant RepliedFrom(completed, start, replies)
        invariant before ==> RepliedFrom(completed, 0, replies)
        decreases outstanding
      {
        var req :| req in running;
        RepliedAppend(completed, start, Completion(req, replies(req)), replies);
        if before {
          RepliedAppend(completed, 0, Completion(req, replies(req)), replies);
        }
        Complete(req, replies(req));
      }
      BagIsMultiset(dispatched);
      BagIsMultiset(CompletedRequests(completed));
    }
  }
}
