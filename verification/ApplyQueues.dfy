/**
 The coalescing request queue of the reconciliation worker, with its deadline scan.

 The queue is a set of requests in which two requests with the same attacher id are equal, so it
 is a map from id to request. Times are milliseconds of the steady clock.
 */
module ApplyQueues {

  const RESTART_DELAY := 5000
  const MAX_RETRY_COUNT := 5

  datatype ApplyRequest = ApplyRequest(id: nat, retryCount: int, isImmediate: bool, requestTime: int)

  type Queue = map<nat, ApplyRequest>

  /** A request as an API caller or an interface change creates it. */
  function NewRequest(id: nat, now: int): ApplyRequest {
    ApplyRequest(id, 0, true, now)
  }

  /** The request that a failed pass puts back; it keeps its original request time. */
  function Retry(request: ApplyRequest): ApplyRequest {
    request.(isImmediate := false, retryCount := request.retryCount + 1)
  }

  /** `kDefaultDelay` is 500 ms per retry. */
  function Deadline(request: ApplyRequest): int {
    request.requestTime + 500 * request.retryCount
  }

  predicate IsDue(request: ApplyRequest, now: int) {
    request.isImmediate || Deadline(request) <= now
  }

  ghost predicate ValidQueue(queue: Queue) {
    forall id :: id in queue ==> queue[id].id == id
  }

  /** The critical section of `append_apply_request`. */
  function Append(queue: Queue, request: ApplyRequest): Queue {
    if request.id in queue && request.requestTime < queue[request.id].requestTime then queue
    else queue[request.id := request]
  }

  /**
   Coalescing: an append leaves exactly one request for its id, the newer of the two, and the
   queued request time of every id never goes back. A retry therefore never displaces a request
   that was created strictly after its own.
   */
  lemma AppendKeepsNewest(queue: Queue, request: ApplyRequest)
    requires ValidQueue(queue)
    ensures var after := Append(queue, request);
            && ValidQueue(after)
            && after.Keys == queue.Keys + {request.id}
            && (forall id :: id in queue ==> queue[id].requestTime <= after[id].requestTime)
            && request.requestTime <= after[request.id].requestTime
            && (forall id :: id in queue && id != request.id ==> after[id] == queue[id])
            && (after[request.id] == request
                || (request.id in queue && after[request.id] == queue[request.id]
                    && request.requestTime < queue[request.id].requestTime))
  {
  }

  // ---------------------------------------------------------------- the scan

  /** What one scan at `now` hands to the worker. */
  function DueRequests(queue: Queue, now: int): Queue {
    map id | id in queue && IsDue(queue[id], now) :: queue[id]
  }

  /** What it leaves behind. */
  function NotDue(queue: Queue, now: int): Queue {
    map id | id in queue && !IsDue(queue[id], now) :: queue[id]
  }

  ghost predicate Lists(order: seq<nat>, queue: Queue) {
    && (forall i :: 0 <= i < |order| ==> order[i] in queue)
    && (forall id :: id in queue ==> id in order)
    && (forall i, j :: 0 <= i < j < |order| ==> order[i] != order[j])
  }

  datatype Verdict = RunNow | SleepUntil(time: int)

  lemma NothingDue(queue: Queue, now: int)
    requires DueRequests(queue, now) == map[]
    ensures NotDue(queue, now) == queue
    ensures forall id :: id in queue ==> now < Deadline(queue[id])
  {
    forall id | id in queue
      ensures !IsDue(queue[id], now)
    {
      assert IsDue(queue[id], now) ==> id in DueRequests(queue, now);
    }
  }

  class WorkerQueue {
    var requests: Queue
    var restartRequested: bool
    var restartTime: int

    constructor ()
      ensures requests == map[] && !restartRequested
    {
      requests, restartRequested, restartTime := map[], false, 0;
    }

    /** `append_apply_request`. */
    method AppendRequest(request: ApplyRequest) returns (changed: bool)
      modifies this`requests
      ensures requests == Append(old(requests), request)
      ensures old(ValidQueue(requests)) ==> ValidQueue(requests)
      ensures changed
         <==> (request.id in old(requests) ==> old(requests)[request.id].requestTime <= request.requestTime)
    {
      changed := false;
      if request.id !in requests {
        requests := requests[request.id := request];
        changed := true;
      } else if requests[request.id].requestTime <= request.requestTime {
        requests := requests - {request.id};
        requests := requests[request.id := request];
        changed := true;
      }
    }

    /**
     One round of the worker's loop under the lock, entered when the wait predicate holds; `order`
     is the order in which the unordered set happens to list its requests. Due requests and a due
     restart are taken out exactly; otherwise the worker sleeps until the earliest deadline, which
     is a real time in the future.
     */
    method Scan(now: int, order: seq<nat>) returns (ready: Queue, restart: bool, verdict: Verdict)
      requires requests != map[] || restartRequested
      requires Lists(order, requests)
      modifies this
      ensures ready == DueRequests(old(requests), now)
      ensures requests == NotDue(old(requests), now)
      ensures restart == (old(restartRequested) && old(restartTime) <= now)
      ensures restartRequested == (old(restartRequested) && !restart)
      ensures restartTime == old(restartTime)
      ensures verdict.RunNow? <==> ready != map[] || restart
      ensures verdict.SleepUntil? ==>
                && now < verdict.time
                && (forall id :: id in requests ==>
                      verdict.time <= requests[id].requestTime + 500 * requests[id].retryCount)
                && (restartRequested ==> verdict.time <= restartTime)
                && (|| (restartRequested && verdict.time == restartTime)
                    || exists id :: id in requests
                                    && verdict.time == requests[id].requestTime + 500 * requests[id].retryCount)
    {
      restart := false;
      if restartRequested && restartTime <= now {
        restartRequested := false;
        restart := true;
      }
      ready := TakeDue(now, order);
      if ready != map[] || restart {
        verdict := RunNow;
        return;
      }
      NothingDue(old(requests), now);
      var wakeAt := EarliestWake(order);
      verdict := SleepUntil(wakeAt);
    }

    /** The erase-while-iterating loop of the scan. */
    method TakeDue(now: int, order: seq<nat>) returns (ready: Queue)
      requires Lists(order, requests)
      modifies this`requests
      ensures ready == DueRequests(old(requests), now)
      ensures requests == NotDue(old(requests), now)
    {
      ready := map[];
      ghost var visited: set<nat> := {};
      var i := 0;
      while i < |order|
        invariant 0 <= i <= |order|
        invariant forall j :: 0 <= j < |order| ==> (order[j] in visited <==> j < i)
        invariant visited <= old(requests).Keys
        invariant forall id :: id in ready <==> id in visited && IsDue(old(requests)[id], now)
        invariant forall id :: id in requests <==> id in old(requests) && id !in ready
        invariant forall id :: id in ready ==> ready[id] == old(requests)[id]
        invariant forall id :: id in requests ==> requests[id] == old(requests)[id]
      {
        var id := order[i];
        if requests[id].isImmediate || requests[id].requestTime + 500 * requests[id].retryCount <= now {
          ready := ready[id := requests[id]];
          requests := requests - {id};
        }
        visited, i := visited + {id}, i + 1;
      }
      assert visited == old(requests).Keys;
    }

    /** The worker's next wake-up time, when something is waiting. */
    method EarliestWake(order: seq<nat>) returns (wakeAt: int)
      requires requests != map[] || restartRequested
      requires Lists(order, requests)
      ensures forall id :: id in requests ==> wakeAt <= requests[id].requestTime + 500 * requests[id].retryCount
      ensures restartRequested ==> wakeAt <= restartTime
      ensures || (restartRequested && wakeAt == restartTime)
              || exists id :: id in requests && wakeAt == requests[id].requestTime + 500 * requests[id].retryCount
    {
      assert |order| == 0 ==> requests == map[];
      wakeAt := 0;
      var i := 0;
      while i < |order|
        invariant 0 <= i <= |order|
        invariant 0 < i ==> exists j :: 0 <= j < i && wakeAt == Deadline(requests[order[j]])
        invariant forall j :: 0 <= j < i ==> wakeAt <= Deadline(requests[order[j]])
      {
        if i == 0 || Deadline(requests[order[i]]) < wakeAt {
          wakeAt := Deadline(requests[order[i]]);
        }
        i := i + 1;
      }
      if restartRequested && (|order| == 0 || restartTime < wakeAt) {
        wakeAt := restartTime;
      }
    }
  }

  /** The scan splits the queue: nothing is lost, duplicated or altered, and the parts differ by dueness. */
  lemma ScanSplitsQueue(queue: Queue, now: int)
    ensures var ready, rest := DueRequests(queue, now), NotDue(queue, now);
            && ready.Keys !! rest.Keys
            && ready + rest == queue
            && (forall id :: id in queue ==>
                  (id in ready <==>
                     queue[id].isImmediate || queue[id].requestTime + 500 * queue[id].retryCount <= now))
  {
  }
}
