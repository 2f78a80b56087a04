/**
 The whole reconciliation system as an interleaving of atomic steps: API callers that edit and
 publish attachment policies, the interface monitor thread that reloads the snapshot and notifies,
 and the worker that restarts the monitor, drains the request queue and drives the kernel's TC
 table. One step is one lock-protected block, or one lookup of an interface with the kernel calls
 that rely on it; after the second lookup of `attach_filter` these are a query and an attach.

 The system starts after a successful initial monitor start and runs until shutdown is requested.
 */
module Reconciler {
  import opened Basics
  import opened Policies
  import opened TrafficControl
  import opened ApplyQueues

  /** How the most recent pass of an attacher went. */
  datatype Outcome = NeverRun | InPass | Succeeded | Retrying | GaveUp

  /**
   One attacher. `version` counts its publications; `readVersion` and `readSnapshot` are the
   versions its most recent pass read, or those of its creation; `leftovers` are the interfaces on
   which its program already sat in its slot when it was created.
   */
  datatype Attachment = Attachment(
    spec: AttachSpec,
    prog: nat,
    live: Live,
    published: Policy,
    version: nat,
    leftovers: set<string>,
    readVersion: nat,
    readSnapshot: nat,
    outcome: Outcome)

  /** An API call between its critical sections. */
  datatype Caller = MustPublish(id: nat) | MustStamp(id: nat) | MustAppend(request: ApplyRequest)

  datatype Status = Stopped | Stopping | Starting | Running | Failed

  /** The monitor thread. `Reloaded` to `Stamped` is one change notification. */
  datatype Monitor =
    | NoThread
    | Looping
    | Reloaded
    | Counting
    | Notifying(next: nat, count: nat)
    | Stamped(next: nat, count: nat, change: ApplyRequest)
    | LoopFailed
    | Unreported
    | Exited

  /** A pass after both of its reads: `todo` are the interfaces still to visit. */
  datatype Pass = Pass(
    request: ApplyRequest,
    policy: Policy,
    version: nat,
    snapshot: Snapshot,
    snapshotVersion: nat,
    todo: set<string>,
    ok: bool)

  /**
   `Hooked` and `Detaching` stand between the two halves of a filter operation; they remember the
   ifindex that the first lookup found, and `seen`, the version of the snapshot it looked in.
   */
  datatype Worker =
    | Scanning
    | CallingStart
    | Joining
    | Opening
    | Launching
    | StartFailed
    | Draining
    | PolicyRead(request: ApplyRequest)
    | SnapshotRead(request: ApplyRequest, policy: Policy, version: nat)
    | Passing(pass: Pass)
    | Hooked(pass: Pass, nic: string, ifindex: int, seen: nat)
    | Detaching(pass: Pass, nic: string, ifindex: int, seen: nat)

  /** The monitor's lifecycle and the manager's restart flag, with its due time. */
  datatype Control = Control(status: Status, monitor: Monitor, restartAt: Option<int>)

  /** Requests handed to the queue from outside, and finished passes. */
  datatype Tally = Tally(submitted: nat, passes: nat)

  /** `dropped` are the interfaces that the kernel has lost since the snapshot was published. */
  datatype State = State(
    now: int,
    attachers: seq<Attachment>,
    callers: map<nat, Caller>,
    snapshot: Snapshot,
    snapshotVersion: nat,
    dropped: set<int>,
    control: Control,
    queue: Queue,
    ready: Queue,
    worker: Worker,
    tc: Tc,
    tally: Tally)

  /** Steps of API callers. */
  datatype ApiEvent =
    | CreateAttacher(spec: AttachSpec, prog: nat)
    | EditPolicy(caller: nat, id: nat, edit: Edit)
    | Publish(caller: nat)
    | Stamp(caller: nat)
    | Submit(caller: nat)

  /** Steps of the monitor thread. */
  datatype MonitorEvent =
    | Refresh(snapshot: Snapshot)
    | CheckHandler
    | CountAttachers
    | StampChange
    | SubmitChange
    | ChangeDone
    | LoopFails
    | MarkFailed
    | ReportFailure

  /** Steps of the worker while it restarts the monitor. */
  datatype StartEvent =
    | EnterStart
    | JoinOldThread
    | OpenMonitor(isOpen: bool)
    | LaunchThread(launched: bool)
    | RequestAgain

  /** Steps of the worker on the queue and in a pass. */
  datatype WorkEvent =
    | ScanQueue
    | NextRound
    | Pick(id: nat)
    | ReadPolicy
    | ReadSnapshot
    | BeginNic(nic: string, ok: bool)
    | EndNic(queryOk: bool, writeOk: bool)
    | FinishPass

  datatype Event =
    | Tick(elapsed: nat)
    | LinkGone(ifindex: int)
    | Api(api: ApiEvent)
    | Mon(mon: MonitorEvent)
    | Start(start: StartEvent)
    | Work(work: WorkEvent)

  ghost predicate Init(s: State) {
    && s.attachers == [] && s.callers == map[] && s.queue == map[] && s.ready == map[]
    && ValidSnapshot(s.snapshot) && ValidTc(s.tc)
    && s.control == Control(Running, Looping, None) && s.worker == Scanning
    && s.tally == Tally(0, 0)
  }

  predicate HasAttacher(s: State, id: nat) {
    id < |s.attachers|
  }

  /** Interfaces of the snapshot on which `prog` sits in `spec`. */
  function Attached(tc: Tc, snapshot: Snapshot, spec: AttachSpec, prog: nat): set<string> {
    set nic | nic in snapshot && CellAt(tc, snapshot[nic], spec).filter == Some(prog)
  }

  /** Attachers are never removed, and keep their slot and program. */
  predicate KeepsSlots(before: seq<Attachment>, after: seq<Attachment>) {
    && |before| <= |after|
    && forall i :: 0 <= i < |before| ==> after[i].spec == before[i].spec && after[i].prog == before[i].prog
  }

  // ---------------------------------------------------------------- API callers

  ghost predicate ApiEnabled(s: State, e: ApiEvent) {
    match e
    case CreateAttacher(_, prog) => prog != 0
    case EditPolicy(t, id, _) => t !in s.callers && HasAttacher(s, id)
    case Publish(t) => t in s.callers && s.callers[t].MustPublish? && HasAttacher(s, s.callers[t].id)
    case Stamp(t) => t in s.callers && s.callers[t].MustStamp?
    case Submit(t) => t in s.callers && s.callers[t].MustAppend?
  }

  ghost function ApiStep(s: State, e: ApiEvent): (next: State)
    requires ApiEnabled(s, e)
    ensures KeepsSlots(s.attachers, next.attachers)
    ensures next == s.(attachers := next.attachers, callers := next.callers, queue := next.queue, tally := next.tally)
  {
    match e
    case CreateAttacher(spec, prog) =>
      var leftovers := Attached(s.tc, s.snapshot, spec, prog);
      s.(attachers := s.attachers + [Attachment(spec, prog, INITIAL_LIVE, INITIAL_POLICY, 0, leftovers,
                                                0, s.snapshotVersion, NeverRun)])
    case EditPolicy(t, id, edit) =>
      var a := s.attachers[id];
      s.(attachers := s.attachers[id := a.(live := Mutate(a.live, edit))],
         callers := if Flags(a.live, edit) then s.callers[t := MustPublish(id)] else s.callers)
    case Publish(t) =>
      var id := s.callers[t].id;
      var a := s.attachers[id];
      s.(attachers := s.attachers[id := a.(published := ToPolicy(a.live), version := a.version + 1)],
         callers := s.callers[t := MustStamp(id)])
    case Stamp(t) => s.(callers := s.callers[t := MustAppend(NewRequest(s.callers[t].id, s.now))])
    case Submit(t) =>
      s.(queue := Append(s.queue, s.callers[t].request), callers := s.callers - {t},
         tally := s.tally.(submitted := s.tally.submitted + 1))
  }

  // ---------------------------------------------------------------- monitor thread

  ghost predicate MonitorEnabled(s: State, e: MonitorEvent) {
    match e
    case Refresh(snapshot) => s.control.monitor.Looping? && ValidSnapshot(snapshot)
    case CheckHandler => s.control.monitor.Reloaded?
    case CountAttachers => s.control.monitor.Counting?
    case StampChange => s.control.monitor.Notifying? && s.control.monitor.next < s.control.monitor.count
    case SubmitChange => s.control.monitor.Stamped?
    case ChangeDone => s.control.monitor.Notifying? && s.control.monitor.next >= s.control.monitor.count
    case LoopFails => s.control.monitor.Looping?
    case MarkFailed => s.control.monitor.LoopFailed?
    case ReportFailure => s.control.monitor.Unreported?
  }

  /** What the step does to the monitor and the restart flag. */
  function MonitorControl(c: Control, e: MonitorEvent, now: int, attachers: nat): Control {
    match e
    case Refresh(_) => c.(monitor := Reloaded)
    case CheckHandler => c.(monitor := if c.status.Running? then Counting else Looping)
    case CountAttachers => c.(monitor := Notifying(0, attachers))
    case StampChange =>
      if !c.monitor.Notifying? then c
      else c.(monitor := Stamped(c.monitor.next, c.monitor.count, NewRequest(c.monitor.next, now)))
    case SubmitChange =>
      if !c.monitor.Stamped? then c else c.(monitor := Notifying(c.monitor.next + 1, c.monitor.count))
    case ChangeDone => c.(monitor := Looping)
    case LoopFails => c.(monitor := LoopFailed)
    case MarkFailed => if c.status.Running? then Control(Failed, Unreported, c.restartAt) else c.(monitor := Exited)
    case ReportFailure => c.(monitor := Exited, restartAt := Some(now + RESTART_DELAY))
  }

  ghost function MonitorStep(s: State, e: MonitorEvent): (next: State)
    requires MonitorEnabled(s, e)
    ensures next == s.(control := next.control, snapshot := next.snapshot, snapshotVersion := next.snapshotVersion,
                       dropped := next.dropped, queue := next.queue, tally := next.tally)
  {
    var control := MonitorControl(s.control, e, s.now, |s.attachers|);
    match e
    case Refresh(snapshot) =>
      s.(control := control, snapshot := snapshot, snapshotVersion := s.snapshotVersion + 1, dropped := {})
    case SubmitChange =>
      s.(control := control, queue := Append(s.queue, s.control.monitor.change),
         tally := s.tally.(submitted := s.tally.submitted + 1))
    case _ => s.(control := control)
  }

  // ---------------------------------------------------------------- restarting the monitor

  predicate StartEnabled(c: Control, w: Worker, e: StartEvent) {
    match e
    case EnterStart => w.CallingStart?
    case JoinOldThread => w.Joining? && (c.monitor.Exited? || c.monitor.NoThread?)
    case OpenMonitor(_) => w.Opening?
    case LaunchThread(_) => w.Launching?
    case RequestAgain => w.StartFailed?
  }

  function StartStep(c: Control, w: Worker, now: int, e: StartEvent): (Control, Worker) {
    match e
    case EnterStart =>
      if c.status.Failed? then (c.(status := Stopping), Joining)
      else if c.status.Stopped? then (c.(status := Starting), Opening)
      else (c, StartFailed)
    case JoinOldThread => (c.(status := Stopped, monitor := NoThread), CallingStart)
    case OpenMonitor(isOpen) =>
      if isOpen then (c.(status := Running), Launching) else (c.(status := Stopped), StartFailed)
    case LaunchThread(launched) =>
      if launched then (c.(monitor := Looping), Draining) else (c.(status := Stopped), StartFailed)
    case RequestAgain => (c.(restartAt := Some(now + RESTART_DELAY)), Draining)
  }

  // ---------------------------------------------------------------- queue and passes

  predicate RestartDue(c: Control, now: int) {
    c.restartAt.Some? && c.restartAt.value <= now
  }

  ghost predicate WorkEnabled(s: State, e: WorkEvent) {
    match e
    case ScanQueue => s.worker.Scanning? && (DueRequests(s.queue, s.now) != map[] || RestartDue(s.control, s.now))
    case NextRound => s.worker.Draining? && s.ready == map[]
    case Pick(id) => s.worker.Draining? && id in s.ready
    case ReadPolicy => s.worker.PolicyRead? && HasAttacher(s, s.worker.request.id)
    case ReadSnapshot => s.worker.SnapshotRead? && HasAttacher(s, s.worker.request.id)
    case BeginNic(nic, _) => s.worker.Passing? && nic in s.worker.pass.todo && HasAttacher(s, s.worker.pass.request.id)
    case EndNic(_, _) => (s.worker.Hooked? || s.worker.Detaching?) && HasAttacher(s, s.worker.pass.request.id)
    case FinishPass => s.worker.Passing? && s.worker.pass.todo == {} && HasAttacher(s, s.worker.pass.request.id)
  }

  ghost function WorkStep(s: State, e: WorkEvent): (next: State)
    requires WorkEnabled(s, e)
    ensures KeepsSlots(s.attachers, next.attachers)
    ensures next == s.(attachers := next.attachers, control := next.control, queue := next.queue, ready := next.ready,
                       worker := next.worker, tc := next.tc, tally := next.tally)
  {
    match e
    case ScanQueue =>
      s.(ready := DueRequests(s.queue, s.now), queue := NotDue(s.queue, s.now),
         control := if RestartDue(s.control, s.now) then s.control.(restartAt := None) else s.control,
         worker := if RestartDue(s.control, s.now) then CallingStart else Draining)
    case NextRound => s.(worker := Scanning)
    case Pick(id) => s.(worker := PolicyRead(s.ready[id]), ready := s.ready - {id})
    case ReadPolicy =>
      var r := s.worker.request;
      var a := s.attachers[r.id];
      s.(worker := SnapshotRead(r, a.published, a.version),
         attachers := s.attachers[r.id := a.(readVersion := a.version, outcome := InPass)])
    case ReadSnapshot =>
      var r := s.worker.request;
      s.(worker := Passing(Pass(r, s.worker.policy, s.worker.version,
                                s.snapshot, s.snapshotVersion, s.snapshot.Keys, true)),
         attachers := s.attachers[r.id := s.attachers[r.id].(readSnapshot := s.snapshotVersion)])
    case BeginNic(nic, ok) =>
      var a := s.attachers[s.worker.pass.request.id];
      var (tc, worker) := NicBegun(s.tc, s.snapshot, s.snapshotVersion, a, s.worker.pass, nic, ok);
      s.(tc := tc, worker := worker)
    case EndNic(queryOk, writeOk) =>
      var (tc, pass) := NicEnded(s.tc, s.snapshot, s.attachers[s.worker.pass.request.id], s.worker, queryOk, writeOk);
      s.(tc := tc, worker := Passing(pass))
    case FinishPass =>
      var r := s.worker.pass.request;
      var outcome := PassVerdict(s.worker.pass);
      s.(worker := Draining,
         tally := s.tally.(passes := s.tally.passes + 1),
         attachers := s.attachers[r.id := s.attachers[r.id].(outcome := outcome)],
         queue := if outcome.Retrying? then Append(s.queue, Retry(r)) else s.queue)
  }

  /** First half of `attach_filter` or `detach_filter`, reading the snapshot of this moment. */
  function NicBegun(tc: Tc, snapshot: Snapshot, seen: nat, a: Attachment, pass: Pass, nic: string, ok: bool)
    : (Tc, Worker)
  {
    var rest := pass.(todo := pass.todo - {nic});
    if Wants(pass.policy, nic) then
      var (hooked, ifindex) := EnsureHook(tc, snapshot, nic, ok);
      (hooked, if ifindex.None? then Passing(rest.(ok := false)) else Hooked(rest, nic, ifindex.value, seen))
    else
      (tc,
       match QueryFilter(tc, snapshot, nic, a.spec, a.prog, ok)
       case QueryError => Passing(rest.(ok := false))
       case OurProgram => Detaching(rest, nic, IfIndex(snapshot, nic), seen)
       case OtherProgram => Passing(rest)
       case NotFound => Passing(rest)
       case NoHook => Passing(rest))
  }

  /** Second half, reading the snapshot again. */
  function NicEnded(tc: Tc, snapshot: Snapshot, a: Attachment, worker: Worker, queryOk: bool, writeOk: bool): (Tc, Pass)
    requires worker.Hooked? || worker.Detaching?
  {
    var (after, done) :=
      if worker.Hooked?
      then FinishAttach(tc, snapshot, worker.nic, worker.ifindex, a.spec, a.prog, queryOk, writeOk)
      else FinishDetach(tc, snapshot, worker.nic, a.spec, writeOk);
    (after, worker.pass.(ok := worker.pass.ok && done))
  }

  /** The end of `apply_targets_policy_per_attacher`: done, queued again, or given up. */
  function PassVerdict(pass: Pass): Outcome {
    if pass.ok then Succeeded
    else if pass.request.retryCount + 1 > MAX_RETRY_COUNT then GaveUp
    else Retrying
  }

  // ---------------------------------------------------------------- the system

  /** The kernel loses an interface, with its hook and filters. */
  function DropLink(tc: Tc, ifindex: int): Tc {
    Tc(tc.hooks - {ifindex}, map key | key in tc.filters && key.0 != ifindex :: tc.filters[key])
  }

  ghost predicate Enabled(s: State, e: Event) {
    match e
    case Tick(_) => true
    case LinkGone(_) => true
    case Api(a) => ApiEnabled(s, a)
    case Mon(m) => MonitorEnabled(s, m)
    case Start(st) => StartEnabled(s.control, s.worker, st)
    case Work(w) => WorkEnabled(s, w)
  }

  ghost function Step(s: State, e: Event): State
    requires Enabled(s, e)
  {
    match e
    case Tick(elapsed) => s.(now := s.now + elapsed)
    case LinkGone(ifindex) => s.(tc := DropLink(s.tc, ifindex), dropped := s.dropped + {ifindex})
    case Api(a) => ApiStep(s, a)
    case Mon(m) => MonitorStep(s, m)
    case Start(st) =>
      var (control, worker) := StartStep(s.control, s.worker, s.now, st);
      s.(control := control, worker := worker)
    case Work(w) => WorkStep(s, w)
  }

  // ---------------------------------------------------------------- runs

  ghost predicate IsRun(s: State, events: seq<Event>)
    decreases |events|
  {
    events == [] || (Enabled(s, events[0]) && IsRun(Step(s, events[0]), events[1..]))
  }

  ghost function Final(s: State, events: seq<Event>): State
    requires IsRun(s, events)
    decreases |events|
  {
    if events == [] then s else Final(Step(s, events[0]), events[1..])
  }

  /** The state of the run before its event `i`. */
  ghost function At(s: State, events: seq<Event>, i: nat): State
    requires IsRun(s, events) && i <= |events|
    decreases i
  {
    if i == 0 then s else At(Step(s, events[0]), events[1..], i - 1)
  }

  lemma {:induction false} AtStep(s: State, events: seq<Event>, i: nat)
    requires IsRun(s, events) && i < |events|
    ensures Enabled(At(s, events, i), events[i]) && At(s, events, i + 1) == Step(At(s, events, i), events[i])
    decreases i
  {
    if i > 0 {
      AtStep(Step(s, events[0]), events[1..], i - 1);
    }
  }

  lemma {:induction false} AtEnd(s: State, events: seq<Event>)
    requires IsRun(s, events)
    ensures At(s, events, |events|) == Final(s, events)
    decreases |events|
  {
    if events != [] {
      AtEnd(Step(s, events[0]), events[1..]);
    }
  }

  lemma {:induction false} RunExtends(s: State, events: seq<Event>, e: Event)
    requires IsRun(s, events) && Enabled(Final(s, events), e)
    ensures IsRun(s, events + [e]) && Final(s, events + [e]) == Step(Final(s, events), e)
    decreases |events|
  {
    if events == [] {
      assert [e][1..] == [];
      assert events + [e] == [e];
    } else {
      RunExtends(Step(s, events[0]), events[1..], e);
      assert (events + [e])[1..] == events[1..] + [e];
    }
  }
}
