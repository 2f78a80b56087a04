/**
 No lost update: under every interleaving, a policy or an interface snapshot that the last pass of
 an attacher has not read is carried by a queued request, the worker's batch, or a notifier that
 is about to enqueue one. And whenever no publication is outstanding, the published policy has the
 effect of the live one.
 */
module NoLostUpdate {
  import opened Policies
  import opened Reconciler
  import opened ReconcilerStructure
  import opened RestartProtocol

  ghost predicate Publishing(s: State, id: nat) {
    exists t :: t in s.callers && s.callers[t] == MustPublish(id)
  }

  predicate Announces(c: Caller, id: nat) {
    (c.MustStamp? && c.id == id) || (c.MustAppend? && c.request.id == id)
  }

  /** Some caller has published for `id` and not yet queued its request. */
  ghost predicate Announcing(s: State, id: nat) {
    exists t :: t in s.callers && Announces(s.callers[t], id)
  }

  /** A request for `id` is queued, in the worker's batch, or picked with its reads still to come. */
  predicate Waiting(s: State, id: nat) {
    id in s.queue || id in s.ready || (s.worker.PolicyRead? && s.worker.request.id == id)
  }

  /** The monitor thread will still enqueue a request for `id`. */
  predicate Notified(s: State, id: nat) {
    match s.control.monitor
    case Reloaded => true
    case Counting => true
    case Notifying(next, count) => next <= id < count
    case Stamped(next, count, _) => next <= id < count
    case _ => false
  }

  ghost predicate PolicyCarried(s: State, id: nat) {
    Announcing(s, id) || Waiting(s, id)
  }

  predicate SnapshotCarried(s: State, id: nat) {
    Notified(s, id) || Waiting(s, id) || (s.worker.SnapshotRead? && s.worker.request.id == id)
  }

  ghost predicate PublicationInv(s: State) {
    forall id: nat :: id < |s.attachers| && !Publishing(s, id) ==>
                        SameEffect(s.attachers[id].published, ToPolicy(s.attachers[id].live))
  }

  ghost predicate UpdateInv(s: State, id: nat)
    requires HasAttacher(s, id)
  {
    var a := s.attachers[id];
    && (a.readVersion < a.version ==> PolicyCarried(s, id))
    && (a.readSnapshot < s.snapshotVersion ==> SnapshotCarried(s, id))
    && (a.outcome.NeverRun? ==> a.readVersion == 0)
    && (a.outcome.InPass? ==> !s.worker.PolicyRead? && Current(s.worker).Some? && Current(s.worker).value.id == id)
    && (a.outcome.Retrying? ==> Waiting(s, id))
  }

  ghost predicate Updates(s: State) {
    forall id: nat :: id < |s.attachers| ==> UpdateInv(s, id)
  }

  // ---------------------------------------------------------------- publication

  lemma PublicationStep(s: State, e: Event)
    requires PublicationInv(s) && Enabled(s, e)
    ensures PublicationInv(Step(s, e))
  {
    match e
    case Api(a) => PublicationApi(s, a);
    case Work(w) => PublicationWork(s, w);
    case _ => PublicationFrame(s, Step(s, e));
  }

  lemma PublicationWork(s: State, e: WorkEvent)
    requires PublicationInv(s) && WorkEnabled(s, e)
    ensures PublicationInv(WorkStep(s, e))
  {
    PublicationFrame(s, WorkStep(s, e));
  }

  lemma PublicationFrame(s: State, next: State)
    requires PublicationInv(s)
    requires next.callers == s.callers && |next.attachers| == |s.attachers|
    requires forall i :: 0 <= i < |s.attachers| ==>
               next.attachers[i].live == s.attachers[i].live && next.attachers[i].published == s.attachers[i].published
    ensures PublicationInv(next)
  {
    forall id: nat | id < |next.attachers| && !Publishing(next, id)
      ensures !Publishing(s, id)
    {
    }
  }

  lemma PublishingStays(s: State, e: ApiEvent, id: nat)
    requires ApiEnabled(s, e) && Publishing(s, id)
    ensures Publishing(ApiStep(s, e), id) || (e.Publish? && s.callers[e.caller].id == id)
  {
    var t :| t in s.callers && s.callers[t] == MustPublish(id);
    assert e.Publish? || ApiStep(s, e).callers[t] == MustPublish(id);
    assert e.Publish? && e.caller != t ==> ApiStep(s, e).callers[t] == MustPublish(id);
  }

  lemma PublicationApi(s: State, e: ApiEvent)
    requires PublicationInv(s) && ApiEnabled(s, e)
    ensures PublicationInv(ApiStep(s, e))
  {
    var next := ApiStep(s, e);
    if e.EditPolicy? {
      FlagsExactlyEffectiveEdits(s.attachers[e.id].live, e.edit);
      assert Flags(s.attachers[e.id].live, e.edit) ==> next.callers[e.caller] == MustPublish(e.id);
    }
    forall id: nat | Publishing(s, id)
      ensures Publishing(next, id) || (e.Publish? && s.callers[e.caller].id == id)
    {
      PublishingStays(s, e, id);
    }
  }

  // ---------------------------------------------------------------- updates

  lemma AnnouncingStays(s: State, e: ApiEvent, id: nat)
    requires ApiEnabled(s, e) && Announcing(s, id)
    ensures Announcing(ApiStep(s, e), id) || id in ApiStep(s, e).queue
  {
    var next := ApiStep(s, e);
    var t :| t in s.callers && Announces(s.callers[t], id);
    assert id in next.queue || (t in next.callers && Announces(next.callers[t], id));
  }

  lemma UpdatesApi(s: State, e: ApiEvent)
    requires Structure(s) && Updates(s) && ApiEnabled(s, e)
    ensures Updates(ApiStep(s, e))
  {
    var next := ApiStep(s, e);
    forall id: nat | id < |next.attachers|
      ensures UpdateInv(next, id)
    {
      if id < |s.attachers| {
        assert UpdateInv(s, id);
        if Announcing(s, id) {
          AnnouncingStays(s, e, id);
        }
        if e.Publish? && s.callers[e.caller].id == id {
          assert Announces(next.callers[e.caller], id);
        }
      }
    }
  }

  lemma UpdatesMonitor(s: State, e: MonitorEvent)
    requires Structure(s) && Updates(s) && RestartInv(s.control, s.worker) && MonitorEnabled(s, e)
    ensures Updates(MonitorStep(s, e))
  {
    var next := MonitorStep(s, e);
    forall id: nat | id < |next.attachers|
      ensures UpdateInv(next, id)
    {
      assert UpdateInv(s, id);
      assert Announcing(s, id) ==> Announcing(next, id);
    }
  }

  lemma UpdatesQueue(s: State, e: WorkEvent)
    requires Structure(s) && Updates(s) && WorkEnabled(s, e) && (e.ScanQueue? || e.NextRound? || e.Pick?)
    ensures Updates(WorkStep(s, e))
  {
    var next := WorkStep(s, e);
    forall id: nat | id < |next.attachers|
      ensures UpdateInv(next, id)
    {
      assert UpdateInv(s, id);
      assert Announcing(s, id) ==> Announcing(next, id);
    }
  }

  lemma UpdatesReads(s: State, e: WorkEvent)
    requires Structure(s) && Updates(s) && WorkEnabled(s, e)
    requires e.ReadPolicy? || e.ReadSnapshot?
    ensures Updates(WorkStep(s, e))
  {
    var next := WorkStep(s, e);
    forall id: nat | id < |next.attachers|
      ensures UpdateInv(next, id)
    {
      assert UpdateInv(s, id);
      assert Announcing(s, id) ==> Announcing(next, id);
    }
  }

  /** A failed pass is queued again, or its request has been superseded by a queued one. */
  lemma UpdatesFinish(s: State)
    requires Structure(s) && Updates(s) && WorkEnabled(s, FinishPass)
    ensures Updates(WorkStep(s, FinishPass))
  {
    var next := WorkStep(s, FinishPass);
    forall id: nat | id < |next.attachers|
      ensures UpdateInv(next, id)
    {
      assert UpdateInv(s, id);
      assert Announcing(s, id) ==> Announcing(next, id);
    }
  }

  /** Inside the loop over interfaces nothing moves that a pending update depends on. */
  lemma UpdatesNic(s: State, e: WorkEvent)
    requires Structure(s) && Updates(s) && WorkEnabled(s, e) && (e.BeginNic? || e.EndNic?)
    ensures Updates(WorkStep(s, e))
  {
    var next := WorkStep(s, e);
    assert Current(next.worker) == Current(s.worker);
    forall id: nat | id < |next.attachers|
      ensures UpdateInv(next, id)
    {
      assert UpdateInv(s, id);
      assert Announcing(s, id) ==> Announcing(next, id);
    }
  }

  lemma UpdatesStep(s: State, e: Event)
    requires Structure(s) && Updates(s) && RestartInv(s.control, s.worker) && Enabled(s, e)
    ensures Updates(Step(s, e))
  {
    match e
    case Api(a) => UpdatesApi(s, a);
    case Mon(m) => UpdatesMonitor(s, m);
    case Work(w) =>
      if w.ScanQueue? || w.NextRound? || w.Pick? {
        UpdatesQueue(s, w);
      } else if w.BeginNic? || w.EndNic? {
        UpdatesNic(s, w);
      } else if w.FinishPass? {
        UpdatesFinish(s);
      } else {
        UpdatesReads(s, w);
      }
    case _ => UpdatesOther(s, e);
  }

  lemma UpdatesOther(s: State, e: Event)
    requires Structure(s) && Updates(s) && RestartInv(s.control, s.worker) && Enabled(s, e)
    requires e.Tick? || e.LinkGone? || e.Start?
    ensures Updates(Step(s, e))
  {
    var next := Step(s, e);
    forall id: nat | id < |next.attachers|
      ensures UpdateInv(next, id)
    {
      assert UpdateInv(s, id);
      assert Announcing(s, id) ==> Announcing(next, id);
    }
  }
}
