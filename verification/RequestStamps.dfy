/**
 Where requests come from. Over every run, whatever request is queued, taken or being worked on, or on
 its way to the queue, carries as its time the clock of the event that created it, however often it
 has been retried since.
 */
module RequestStamps {
  import opened ApplyQueues
  import opened Reconciler
  import opened ReconcilerStructure

  /** The event makes a request for attacher `id`: a caller's stamp after its publication, or the monitor's. */
  ghost predicate Creates(s: State, e: Event, id: nat) {
    || (e.Api? && e.api.Stamp? && e.api.caller in s.callers && s.callers[e.api.caller] == MustStamp(id))
    || (e == Mon(StampChange) && s.control.monitor.Notifying? && s.control.monitor.next == id)
  }

  /** A request for `id` with this time is somewhere in the system. */
  ghost predicate Carries(s: State, id: nat, time: int) {
    || HeldByCaller(s, id, time)
    || (s.control.monitor.Stamped? && IsFor(s.control.monitor.change, id, time))
    || (id in s.queue && s.queue[id].requestTime == time)
    || (id in s.ready && s.ready[id].requestTime == time)
    || (Current(s.worker).Some? && IsFor(Current(s.worker).value, id, time))
  }

  predicate IsFor(r: ApplyRequest, id: nat, time: int) {
    r.id == id && r.requestTime == time
  }

  ghost predicate HeldByCaller(s: State, id: nat, time: int) {
    exists t :: t in s.callers && s.callers[t].MustAppend? && IsFor(s.callers[t].request, id, time)
  }

  lemma CarriedApi(s: State, e: ApiEvent, id: nat, time: int)
    requires Structure(s) && ApiEnabled(s, e) && Carries(ApiStep(s, e), id, time)
    ensures Carries(s, id, time) || (Creates(s, Api(e), id) && time == s.now)
  {
    var next := ApiStep(s, e);
    if HeldByCaller(next, id, time) {
      var t :| t in next.callers && next.callers[t].MustAppend? && IsFor(next.callers[t].request, id, time);
      assert e == Stamp(t) || (t in s.callers && s.callers[t] == next.callers[t]);
    } else if e.Submit? {
      assert IsFor(s.callers[e.caller].request, id, time) || Carries(s, id, time);
    }
  }

  lemma CarriedMonitor(s: State, e: MonitorEvent, id: nat, time: int)
    requires Structure(s) && MonitorEnabled(s, e) && Carries(MonitorStep(s, e), id, time)
    ensures Carries(s, id, time) || (Creates(s, Mon(e), id) && time == s.now)
  {
    assert HeldByCaller(MonitorStep(s, e), id, time) ==> HeldByCaller(s, id, time);
  }

  lemma CarriedWork(s: State, e: WorkEvent, id: nat, time: int)
    requires Structure(s) && WorkEnabled(s, e) && Carries(WorkStep(s, e), id, time)
    ensures Carries(s, id, time)
  {
    var next := WorkStep(s, e);
    assert HeldByCaller(next, id, time) ==> HeldByCaller(s, id, time);
    if e.BeginNic? || e.EndNic? {
      assert Current(next.worker) == Current(s.worker);
    }
  }

  lemma CarriedStep(s: State, e: Event, id: nat, time: int)
    requires Structure(s) && Enabled(s, e) && Carries(Step(s, e), id, time)
    ensures Carries(s, id, time) || (Creates(s, e, id) && time == s.now)
  {
    match e
    case Api(a) => CarriedApi(s, a, id, time);
    case Mon(m) => CarriedMonitor(s, m, id, time);
    case Work(w) => CarriedWork(s, w, id, time);
    case _ => assert HeldByCaller(Step(s, e), id, time) ==> HeldByCaller(s, id, time);
  }

  lemma {:induction false} StructureAt(s: State, events: seq<Event>, n: nat)
    requires Init(s) && IsRun(s, events) && n <= |events|
    ensures Structure(At(s, events, n))
    decreases n
  {
    if n == 0 {
      StructureInit(s);
    } else {
      StructureAt(s, events, n - 1);
      AtStep(s, events, n - 1);
      StructureStep(At(s, events, n - 1), events[n - 1]);
    }
  }

  lemma {:induction false} TracesBack(s: State, events: seq<Event>, n: nat, id: nat, time: int) returns (i: nat)
    requires Init(s) && IsRun(s, events) && n <= |events| && Carries(At(s, events, n), id, time)
    ensures i < n && Creates(At(s, events, i), events[i], id) && At(s, events, i).now == time
    decreases n
  {
    var m := n - 1;
    assert n > 0;
    StructureAt(s, events, m);
    AtStep(s, events, m);
    CarriedStep(At(s, events, m), events[m], id, time);
    if Carries(At(s, events, m), id, time) {
      i := TracesBack(s, events, m, id, time);
    } else {
      i := m;
    }
  }

  /** Over every run: each request has the time of an event of the run that created it. */
  lemma RequestHasItsTime(s: State, events: seq<Event>, id: nat, time: int) returns (i: nat)
    requires Init(s) && IsRun(s, events) && Carries(Final(s, events), id, time)
    ensures i < |events| && Creates(At(s, events, i), events[i], id) && At(s, events, i).now == time
  {
    AtEnd(s, events);
    i := TracesBack(s, events, |events|, id, time);
  }
}
