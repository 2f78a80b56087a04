/**
 Bounded retry as conservation: every request handed to the queue from outside is worth six
 passes, a pass spends at least one of them, and nothing else creates any. Coalescing over runs:
 while an attacher's request stays queued, its request time never goes back.
 */
module RetryBudget {
  import opened ApplyQueues
  import opened Reconciler
  import opened ReconcilerStructure

  const PASSES_PER_REQUEST := MAX_RETRY_COUNT + 1

  /** Passes a request can still cause. */
  function Remaining(r: ApplyRequest): int {
    PASSES_PER_REQUEST - r.retryCount
  }

  function RemainingIn(queue: Queue, id: nat): int {
    if id in queue then Remaining(queue[id]) else 0
  }

  function RemainingNow(w: Worker, id: nat): int {
    if Current(w).Some? && Current(w).value.id == id then Remaining(Current(w).value) else 0
  }

  /** Passes still owed to attacher `id` by the queue, the batch and the pass in progress. */
  function LoadAt(s: State, id: nat): int {
    RemainingIn(s.queue, id) + RemainingIn(s.ready, id) + RemainingNow(s.worker, id)
  }

  function Load(s: State, n: nat): int {
    if n == 0 then 0 else Load(s, n - 1) + LoadAt(s, n - 1)
  }

  /** Passes run and owed, against what the requests from outside are worth. */
  function Balance(s: State): int {
    s.tally.passes + Load(s, |s.attachers|) - PASSES_PER_REQUEST * s.tally.submitted
  }

  ghost predicate BudgetInv(s: State) {
    Balance(s) <= 0
  }

  // ---------------------------------------------------------------- sums

  lemma {:induction false} LoadSame(s: State, next: State, n: nat)
    requires forall id: nat :: id < n ==> LoadAt(next, id) == LoadAt(s, id)
    ensures Load(next, n) == Load(s, n)
  {
    if n > 0 {
      LoadSame(s, next, n - 1);
    }
  }

  lemma {:induction false} LoadShifts(s: State, next: State, n: nat, at: nat, delta: int)
    requires at < n
    requires forall id: nat :: id < n && id != at ==> LoadAt(next, id) == LoadAt(s, id)
    requires LoadAt(next, at) <= LoadAt(s, at) + delta
    ensures Load(next, n) <= Load(s, n) + delta
  {
    if n - 1 == at {
      LoadSame(s, next, n - 1);
    } else {
      LoadShifts(s, next, n - 1, at, delta);
    }
  }

  lemma {:induction false} LoadNonnegative(s: State, n: nat)
    requires Structure(s)
    ensures 0 <= Load(s, n)
  {
    if n > 0 {
      LoadNonnegative(s, n - 1);
    }
  }

  // ---------------------------------------------------------------- steps

  /** An append from outside adds at most one full budget, to its own attacher. */
  lemma AppendAddsBudget(queue: Queue, r: ApplyRequest, id: nat)
    requires ValidQueue(queue)
    requires forall i :: i in queue ==> queue[i].retryCount <= MAX_RETRY_COUNT
    requires 0 <= r.retryCount <= PASSES_PER_REQUEST
    ensures id != r.id ==> RemainingIn(Append(queue, r), id) == RemainingIn(queue, id)
    ensures RemainingIn(Append(queue, r), r.id) <= RemainingIn(queue, r.id) + Remaining(r)
  {
    assert PASSES_PER_REQUEST == 6;
  }

  lemma BudgetApi(s: State, e: ApiEvent)
    requires Structure(s) && ApiEnabled(s, e)
    ensures Balance(ApiStep(s, e)) <= Balance(s)
  {
    var next := ApiStep(s, e);
    if e.Submit? {
      var r := s.callers[e.caller].request;
      forall id: nat
        ensures id != r.id ==> LoadAt(next, id) == LoadAt(s, id)
        ensures LoadAt(next, r.id) <= LoadAt(s, r.id) + PASSES_PER_REQUEST
      {
        AppendAddsBudget(s.queue, r, id);
      }
      LoadShifts(s, next, |s.attachers|, r.id, PASSES_PER_REQUEST);
    } else {
      assert next.queue == s.queue && next.ready == s.ready && next.worker == s.worker;
      LoadSame(s, next, |s.attachers|);
      if e.CreateAttacher? {
        assert LoadAt(next, |s.attachers|) == 0;
      }
    }
  }

  lemma BudgetMonitor(s: State, e: MonitorEvent)
    requires Structure(s) && MonitorEnabled(s, e)
    ensures Balance(MonitorStep(s, e)) <= Balance(s)
  {
    var next := MonitorStep(s, e);
    if e.SubmitChange? {
      var r := s.control.monitor.change;
      forall id: nat
        ensures id != r.id ==> LoadAt(next, id) == LoadAt(s, id)
        ensures LoadAt(next, r.id) <= LoadAt(s, r.id) + PASSES_PER_REQUEST
      {
        AppendAddsBudget(s.queue, r, id);
      }
      LoadShifts(s, next, |s.attachers|, r.id, PASSES_PER_REQUEST);
    } else {
      LoadSame(s, next, |s.attachers|);
    }
  }

  /** Scanning, picking, reading and visiting interfaces neither create nor spend passes. */
  lemma WorkKeepsLoad(s: State, e: WorkEvent, id: nat)
    requires Structure(s) && WorkEnabled(s, e) && !e.FinishPass?
    ensures LoadAt(WorkStep(s, e), id) == LoadAt(s, id)
  {
    if e.BeginNic? || e.EndNic? {
      NicKeepsRequest(s, e);
    }
  }

  lemma NicKeepsRequest(s: State, e: WorkEvent)
    requires WorkEnabled(s, e) && (e.BeginNic? || e.EndNic?)
    ensures var next := WorkStep(s, e);
            next.queue == s.queue && next.ready == s.ready && Current(next.worker) == Current(s.worker)
  {
  }

  /** A finished pass spends at least one, also when its retry goes back to the queue. */
  lemma PassSpendsBudget(s: State, id: nat)
    requires Structure(s) && WorkEnabled(s, FinishPass)
    ensures var own := s.worker.pass.request.id;
            && (id != own ==> LoadAt(WorkStep(s, FinishPass), id) == LoadAt(s, id))
            && LoadAt(WorkStep(s, FinishPass), own) <= LoadAt(s, own) - 1
  {
    var r := s.worker.pass.request;
    AppendAddsBudget(s.queue, Retry(r), id);
  }

  lemma BudgetWork(s: State, e: WorkEvent)
    requires Structure(s) && WorkEnabled(s, e)
    ensures Balance(WorkStep(s, e)) <= Balance(s)
  {
    var next := WorkStep(s, e);
    if e.FinishPass? {
      forall id: nat
        ensures id != s.worker.pass.request.id ==> LoadAt(next, id) == LoadAt(s, id)
        ensures LoadAt(next, s.worker.pass.request.id) <= LoadAt(s, s.worker.pass.request.id) - 1
      {
        PassSpendsBudget(s, id);
      }
      LoadShifts(s, next, |s.attachers|, s.worker.pass.request.id, -1);
    } else {
      forall id: nat
        ensures LoadAt(next, id) == LoadAt(s, id)
      {
        WorkKeepsLoad(s, e, id);
      }
      LoadSame(s, next, |s.attachers|);
    }
  }

  lemma BudgetStep(s: State, e: Event)
    requires Structure(s) && Enabled(s, e)
    ensures Balance(Step(s, e)) <= Balance(s)
  {
    match e
    case Api(a) => BudgetApi(s, a);
    case Mon(m) => BudgetMonitor(s, m);
    case Work(w) => BudgetWork(s, w);
    case _ => LoadSame(s, Step(s, e), |s.attachers|);
  }

  // ---------------------------------------------------------------- draining

  /** The step hands a request to the queue from outside. */
  predicate Submits(e: Event) {
    (e.Api? && e.api.Submit?) || (e.Mon? && e.mon.SubmitChange?)
  }

  lemma SubmittedStays(s: State, e: Event)
    requires Enabled(s, e) && !Submits(e)
    ensures Step(s, e).tally.submitted == s.tally.submitted
  {
  }

  /**
   While nothing is submitted, no more passes finish than were owed at the beginning, and each lowers
   what is owed.
   */
  lemma {:induction false} QueueDrains(s: State, events: seq<Event>)
    requires Structure(s) && IsRun(s, events)
    requires forall i :: 0 <= i < |events| ==> !Submits(events[i])
    ensures var end := Final(s, events);
            end.tally.passes - s.tally.passes + Load(end, |end.attachers|) <= Load(s, |s.attachers|)
    decreases |events|
  {
    if events != [] {
      BudgetStep(s, events[0]);
      SubmittedStays(s, events[0]);
      StructureStep(s, events[0]);
      QueueDrains(Step(s, events[0]), events[1..]);
    }
  }

  lemma {:induction false} LoadAtLeast(s: State, n: nat, id: nat)
    requires Structure(s) && id < n
    ensures LoadAt(s, id) <= Load(s, n)
  {
    LoadNonnegative(s, n - 1);
    if id < n - 1 {
      LoadAtLeast(s, n - 1, id);
    }
  }

  lemma {:induction false} LoadOfNothing(s: State, n: nat)
    requires s.queue == map[] && s.ready == map[] && Current(s.worker).None?
    ensures Load(s, n) == 0
  {
    if n > 0 {
      LoadOfNothing(s, n - 1);
    }
  }

  lemma WaitingIsOwed(s: State, id: nat)
    requires Structure(s)
    requires id in s.queue || id in s.ready || (Current(s.worker).Some? && Current(s.worker).value.id == id)
    ensures id < |s.attachers| && 0 < LoadAt(s, id)
  {
  }

  /** Nothing is owed if and only if nothing is queued, taken or being worked on. */
  lemma DrainedIff(s: State)
    requires Structure(s)
    ensures Load(s, |s.attachers|) == 0 <==> s.queue == map[] && s.ready == map[] && Current(s.worker).None?
  {
    if s.queue == map[] && s.ready == map[] && Current(s.worker).None? {
      LoadOfNothing(s, |s.attachers|);
    } else {
      var id := if s.queue != map[] then AnyKey(s.queue)
                else if s.ready != map[] then AnyKey(s.ready)
                else Current(s.worker).value.id;
      WaitingIsOwed(s, id);
      LoadAtLeast(s, |s.attachers|, id);
    }
  }

  ghost function AnyKey(queue: Queue): (id: nat)
    requires queue != map[]
    ensures id in queue
  {
    var id :| id in queue;
    id
  }

  // ---------------------------------------------------------------- coalescing over runs

  /** No state of the run has the queue without a request for `id`. */
  ghost predicate StaysQueued(s: State, events: seq<Event>, id: nat)
    requires IsRun(s, events)
    decreases |events|
  {
    id in s.queue && (events == [] || StaysQueued(Step(s, events[0]), events[1..], id))
  }

  lemma QueuedTimeWork(s: State, e: WorkEvent, id: nat)
    requires Structure(s) && WorkEnabled(s, e) && id in s.queue && id in WorkStep(s, e).queue
    ensures s.queue[id].requestTime <= WorkStep(s, e).queue[id].requestTime
  {
    assert e.ScanQueue? || e.FinishPass? || WorkStep(s, e).queue == s.queue;
  }

  lemma QueuedTimeStep(s: State, e: Event, id: nat)
    requires Structure(s) && Enabled(s, e) && id in s.queue && id in Step(s, e).queue
    ensures s.queue[id].requestTime <= Step(s, e).queue[id].requestTime
  {
    match e
    case Api(a) => assert Step(s, e) == ApiStep(s, a);
    case Mon(m) => assert Step(s, e) == MonitorStep(s, m);
    case Work(w) => QueuedTimeWork(s, w, id);
    case _ => assert Step(s, e).queue == s.queue;
  }

  lemma {:induction false} QueuedTimeNeverGoesBack(s: State, events: seq<Event>, id: nat)
    requires Structure(s) && IsRun(s, events) && StaysQueued(s, events, id)
    ensures id in Final(s, events).queue
    ensures s.queue[id].requestTime <= Final(s, events).queue[id].requestTime
    decreases |events|
  {
    if events != [] {
      StructureStep(s, events[0]);
      QueuedTimeStep(s, events[0], id);
      QueuedTimeNeverGoesBack(Step(s, events[0]), events[1..], id);
    }
  }
}
