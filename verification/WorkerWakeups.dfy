/**
 The reconciliation system with the worker's condition variable. An append or a restart request
 changes the worker's data under the lock and notifies after releasing it; the worker waits without
 a limit while it has nothing to do, and until the earliest deadline otherwise. It never sleeps past
 work: whatever it has not been told about yet, somebody is about to tell it.
 */
module WorkerWakeups {
  import opened Basics
  import opened ApplyQueues
  import R = Reconciler
  import T = ReconcilerTheorems

  /** `Waiting` is the wait for any work, `Sleeping` the one until the earliest deadline. */
  datatype Rest = Awake | Waiting | Sleeping(until: int)

  /** `notifiers` counts the threads between their critical section and their `notify_one`. */
  datatype System = System(base: R.State, rest: Rest, notifiers: nat)

  datatype Event =
    | Base(step: R.Event)
    | FallAsleep(until: int)
    | Notify
    | WakeUp

  // ---------------------------------------------------------------- steps

  /** `changed` in `append_apply_request`. */
  predicate Changes(queue: Queue, request: ApplyRequest) {
    request.id in queue ==> queue[request.id].requestTime <= request.requestTime
  }

  /** The step of another thread leaves its lock with a `notify_one` to come. */
  ghost predicate Announces(s: R.State, e: R.Event)
    requires R.Enabled(s, e)
  {
    match e
    case Api(Submit(t)) => Changes(s.queue, s.callers[t].request)
    case Mon(SubmitChange) => Changes(s.queue, s.control.monitor.change)
    case Mon(ReportFailure) => true
    case _ => false
  }

  predicate HasWork(s: R.State) {
    s.queue != map[] || s.control.restartAt.Some?
  }

  predicate SomethingDue(s: R.State) {
    DueRequests(s.queue, s.now) != map[] || R.RestartDue(s.control, s.now)
  }

  /** `time` is no later than anything the worker has to wake up for. */
  ghost predicate CoversDeadlines(s: R.State, time: int) {
    && (forall id :: id in s.queue ==> time <= Deadline(s.queue[id]))
    && (s.control.restartAt.Some? ==> time <= s.control.restartAt.value)
  }

  /** And it is one of these times. */
  ghost predicate IsDeadline(s: R.State, time: int) {
    || (exists id :: id in s.queue && time == Deadline(s.queue[id]))
    || s.control.restartAt == Some(time)
  }

  ghost predicate Enabled(k: System, e: Event) {
    match e
    case Base(step) => R.Enabled(k.base, step) && (step == R.Work(R.ScanQueue) ==> k.rest.Awake?)
    case FallAsleep(until) =>
      && k.rest.Awake? && k.base.worker.Scanning? && !SomethingDue(k.base)
      && (HasWork(k.base) ==> CoversDeadlines(k.base, until) && IsDeadline(k.base, until))
    case Notify => k.notifiers > 0
    case WakeUp => true
  }

  /** A wake-up without a notification is a timeout or spurious; either way the worker looks again. */
  ghost function Step(k: System, e: Event): System
    requires Enabled(k, e)
  {
    match e
    case Base(step) =>
      k.(base := R.Step(k.base, step), notifiers := k.notifiers + if Announces(k.base, step) then 1 else 0)
    case FallAsleep(until) => k.(rest := if HasWork(k.base) then Sleeping(until) else Waiting)
    case Notify => k.(notifiers := k.notifiers - 1, rest := Awake)
    case WakeUp => k.(rest := Awake)
  }

  ghost predicate Init(k: System) {
    R.Init(k.base) && k.rest == Awake && k.notifiers == 0
  }

  ghost predicate IsRun(k: System, events: seq<Event>)
    decreases |events|
  {
    events == [] || (Enabled(k, events[0]) && IsRun(Step(k, events[0]), events[1..]))
  }

  ghost function Final(k: System, events: seq<Event>): System
    requires IsRun(k, events)
    decreases |events|
  {
    if events == [] then k else Final(Step(k, events[0]), events[1..])
  }

  // ---------------------------------------------------------------- invariant

  ghost predicate Inv(k: System) {
    && (!k.rest.Awake? ==> k.base.worker.Scanning?)
    && (k.rest.Waiting? ==> k.notifiers > 0 || !HasWork(k.base))
    && (k.rest.Sleeping? ==> k.notifiers > 0 || CoversDeadlines(k.base, k.rest.until))
  }

  /** A step that announces nothing, while the worker rests, leaves its queue and restart flag alone. */
  lemma SilentStep(s: R.State, e: R.Event)
    requires R.Enabled(s, e) && s.worker.Scanning? && e != R.Work(R.ScanQueue) && !Announces(s, e)
    ensures R.Step(s, e).queue == s.queue && R.Step(s, e).control.restartAt == s.control.restartAt
  {
    match e
    case Api(_) =>
    case Mon(_) =>
    case _ =>
  }

  lemma RestingWorker(s: R.State, e: R.Event)
    requires R.Enabled(s, e) && s.worker.Scanning? && e != R.Work(R.ScanQueue)
    ensures R.Step(s, e).worker.Scanning?
  {
  }

  lemma InvStep(k: System, e: Event)
    requires Inv(k) && Enabled(k, e)
    ensures Inv(Step(k, e))
  {
    if e.Base? && !k.rest.Awake? {
      RestingWorker(k.base, e.step);
      if !Announces(k.base, e.step) {
        SilentStep(k.base, e.step);
      }
    }
  }

  /** Forgetting rest and notifications, a run is a run of the reconciliation system. */
  lemma {:induction false} RunOfBase(k: System, events: seq<Event>) returns (base: seq<R.Event>)
    requires Inv(k) && IsRun(k, events)
    ensures Inv(Final(k, events))
    ensures R.IsRun(k.base, base) && R.Final(k.base, base) == Final(k, events).base
    decreases |events|
  {
    if events == [] {
      base := [];
    } else {
      InvStep(k, events[0]);
      base := RunOfBase(Step(k, events[0]), events[1..]);
      if events[0].Base? {
        assert ([events[0].step] + base)[1..] == base;
        base := [events[0].step] + base;
      }
    }
  }

  // ---------------------------------------------------------------- results about every run

  /**
   No lost wake-up. A worker that waits has nothing to do or is about to be notified, and one that
   sleeps does so no longer than to every queued deadline and the restart time or is about to be
   notified. So when something is due, a resting worker is about to be notified or its time is up.
   */
  lemma NoWakeupLost(k: System, events: seq<Event>)
    requires Init(k) && IsRun(k, events)
    ensures var end := Final(k, events);
            && (end.rest.Waiting? ==> end.notifiers > 0 || !HasWork(end.base))
            && (end.rest.Sleeping? ==> end.notifiers > 0 || CoversDeadlines(end.base, end.rest.until))
            && (!end.rest.Awake? && SomethingDue(end.base) ==>
                  end.notifiers > 0 || (end.rest.Sleeping? && end.rest.until <= end.base.now))
            && T.SystemInv(end.base)
  {
    var base := RunOfBase(k, events);
    T.SystemInit(k.base);
    T.SystemRun(k.base, base);
    var end := Final(k, events);
    if DueRequests(end.base.queue, end.base.now) != map[] {
      DueIsQueued(end.base);
    }
  }

  /** A due request is past its deadline: immediate ones were stamped in the past. */
  lemma DueIsQueued(s: R.State)
    requires T.SystemInv(s) && DueRequests(s.queue, s.now) != map[]
    ensures exists id :: id in s.queue && Deadline(s.queue[id]) <= s.now
  {
    var id :| id in DueRequests(s.queue, s.now);
    assert id in s.queue && IsDue(s.queue[id], s.now);
  }
}
