/** What every reachable state of the reconciliation system keeps about its own data. */
module ReconcilerStructure {
  import opened Basics
  import opened Policies
  import opened TrafficControl
  import opened ApplyQueues
  import opened Reconciler

  /** Retry counts stay in 0..5, and only a request that never failed is immediate. */
  ghost predicate ValidRequest(s: State, r: ApplyRequest) {
    && HasAttacher(s, r.id)
    && 0 <= r.retryCount <= MAX_RETRY_COUNT
    && (r.isImmediate <==> r.retryCount == 0)
    && r.requestTime <= s.now
  }

  /** A request the worker holds: retry k is never taken before its k * 500 ms have passed. */
  ghost predicate ValidTaken(s: State, r: ApplyRequest) {
    ValidRequest(s, r) && Deadline(r) <= s.now
  }

  ghost predicate ValidCaller(s: State, c: Caller) {
    match c
    case MustPublish(id) => HasAttacher(s, id)
    case MustStamp(id) => HasAttacher(s, id)
    case MustAppend(r) => ValidRequest(s, r) && r.retryCount == 0
  }

  ghost predicate ValidMonitor(s: State) {
    match s.control.monitor
    case Notifying(next, count) => next <= count <= |s.attachers|
    case Stamped(next, count, r) =>
      next < count <= |s.attachers| && r.id == next && ValidRequest(s, r) && r.retryCount == 0
    case _ => true
  }

  /** The request the worker is working on. */
  function Current(w: Worker): Option<ApplyRequest> {
    match w
    case PolicyRead(r) => Some(r)
    case SnapshotRead(r, _, _) => Some(r)
    case Passing(p) => Some(p.request)
    case Hooked(p, _, _, _) => Some(p.request)
    case Detaching(p, _, _, _) => Some(p.request)
    case _ => None
  }

  predicate HasPass(w: Worker) {
    w.Passing? || w.Hooked? || w.Detaching?
  }

  /** Interfaces the pass has neither finished nor still in `todo`. */
  function InFlight(w: Worker): set<string> {
    match w
    case Hooked(_, nic, _, _) => {nic}
    case Detaching(_, nic, _, _) => {nic}
    case _ => {}
  }

  ghost predicate ValidPass(s: State, p: Pass) {
    && HasAttacher(s, p.request.id)
    && var a := s.attachers[p.request.id];
    && a.readVersion == p.version && a.readSnapshot == p.snapshotVersion
    && (p.version == a.version ==> p.policy == a.published)
    && (p.snapshotVersion == s.snapshotVersion ==> p.snapshot == s.snapshot)
    && p.todo <= p.snapshot.Keys
  }

  ghost predicate ValidWorker(s: State) {
    && (Current(s.worker).Some? ==>
          && ValidTaken(s, Current(s.worker).value)
          && (!s.worker.PolicyRead? ==> s.attachers[Current(s.worker).value.id].outcome == InPass))
    && (s.worker.SnapshotRead? ==>
          var a := s.attachers[s.worker.request.id];
          && a.readVersion == s.worker.version
          && (s.worker.version == a.version ==> s.worker.policy == a.published))
    && (HasPass(s.worker) ==> ValidPass(s, s.worker.pass))
    && InFlight(s.worker) <= (if HasPass(s.worker) then s.worker.pass.snapshot.Keys - s.worker.pass.todo else {})
  }

  ghost predicate ValidAttachment(s: State, a: Attachment) {
    && a.readVersion <= a.version
    && a.readSnapshot <= s.snapshotVersion
    && (a.version == 0 ==> a.published == INITIAL_POLICY)
  }

  ghost predicate Structure(s: State) {
    && ValidTc(s.tc) && ValidSnapshot(s.snapshot)
    && ValidQueue(s.queue) && ValidQueue(s.ready)
    && (forall id :: id in s.queue ==> ValidRequest(s, s.queue[id]))
    && (forall id :: id in s.ready ==> ValidTaken(s, s.ready[id]))
    && (forall t :: t in s.callers ==> ValidCaller(s, s.callers[t]))
    && (forall i :: 0 <= i < |s.attachers| ==> ValidAttachment(s, s.attachers[i]))
    && ValidMonitor(s)
    && ValidWorker(s)
    && (s.worker.Scanning? ==> s.ready == map[])
  }

  lemma StructureInit(s: State)
    requires Init(s)
    ensures Structure(s)
  {
  }

  lemma StructureEdit(s: State, e: ApiEvent)
    requires Structure(s) && ApiEnabled(s, e) && e.EditPolicy?
    ensures Structure(ApiStep(s, e))
  {
  }

  lemma StructurePublish(s: State, e: ApiEvent)
    requires Structure(s) && ApiEnabled(s, e) && e.Publish?
    ensures Structure(ApiStep(s, e))
  {
  }

  lemma StructureApi(s: State, e: ApiEvent)
    requires Structure(s) && ApiEnabled(s, e) && !(e.EditPolicy? || e.Publish?)
    ensures Structure(ApiStep(s, e))
  {
  }

  lemma StructureMonitor(s: State, e: MonitorEvent)
    requires Structure(s) && MonitorEnabled(s, e)
    ensures Structure(MonitorStep(s, e))
  {
  }

  lemma StructureStart(s: State, e: StartEvent)
    requires Structure(s) && StartEnabled(s.control, s.worker, e)
    ensures Structure(Step(s, Start(e)))
  {
  }

  lemma StructureQueue(s: State, e: WorkEvent)
    requires Structure(s) && WorkEnabled(s, e) && (e.ScanQueue? || e.NextRound? || e.Pick?)
    ensures Structure(WorkStep(s, e))
  {
  }

  lemma StructureReadPolicy(s: State)
    requires Structure(s) && WorkEnabled(s, ReadPolicy)
    ensures Structure(WorkStep(s, ReadPolicy))
  {
  }

  lemma StructureReadSnapshot(s: State)
    requires Structure(s) && WorkEnabled(s, ReadSnapshot)
    ensures Structure(WorkStep(s, ReadSnapshot))
  {
  }

  /** A pass that moves on within its interfaces, whatever it did to the table. */
  lemma StructurePassMoves(s: State, tc: Tc, worker: Worker)
    requires Structure(s) && HasPass(s.worker) && HasPass(worker) && ValidTc(tc)
    requires worker.pass.todo <= s.worker.pass.todo
    requires worker.pass == s.worker.pass.(todo := worker.pass.todo, ok := worker.pass.ok)
    requires InFlight(worker) <= worker.pass.snapshot.Keys - worker.pass.todo
    ensures Structure(s.(tc := tc, worker := worker))
  {
  }

  lemma StructureNic(s: State, e: WorkEvent)
    requires Structure(s) && WorkEnabled(s, e) && (e.BeginNic? || e.EndNic?)
    ensures Structure(WorkStep(s, e))
  {
    var next := WorkStep(s, e);
    StructurePassMoves(s, next.tc, next.worker);
  }

  lemma StructureFinish(s: State)
    requires Structure(s) && WorkEnabled(s, FinishPass)
    ensures Structure(WorkStep(s, FinishPass))
  {
  }

  lemma StructureStep(s: State, e: Event)
    requires Structure(s) && Enabled(s, e)
    ensures Structure(Step(s, e))
  {
    match e
    case Tick(_) =>
    case LinkGone(_) =>
    case Api(a) =>
      if a.EditPolicy? {
        StructureEdit(s, a);
      } else if a.Publish? {
        StructurePublish(s, a);
      } else {
        StructureApi(s, a);
      }
    case Mon(m) => StructureMonitor(s, m);
    case Start(st) => StructureStart(s, st);
    case Work(w) =>
      match w {
        case ReadPolicy => StructureReadPolicy(s);
        case ReadSnapshot => StructureReadSnapshot(s);
        case BeginNic(_, _) => StructureNic(s, w);
        case EndNic(_, _) => StructureNic(s, w);
        case FinishPass => StructureFinish(s);
        case _ => StructureQueue(s, w);
      }
  }
}
