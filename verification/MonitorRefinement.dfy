/**
 The reconciliation system with the interface monitor in full detail. Every run of it maps to a run
 of `Reconciler`, which therefore loses nothing by its coarser monitor: what is proved there about
 every run holds here.
 */
module MonitorRefinement {
  import opened Basics
  import opened ApplyQueues
  import M = InterfaceMonitor
  import R = Reconciler
  import P = RestartProtocol
  import T = ReconcilerTheorems

  /**
   The monitor, and everything that is not the monitor. The manager's own worker knows nothing of
   the inside of `start_monitor`: it stands at `CallingStart` for the whole call. Its `control` keeps
   the restart flag and, in `monitor`, how far the notification of a refresh has come.
   */
  datatype System = System(monitor: M.State, manager: R.State)

  datatype Event = OfMonitor(detail: M.Event) | OfManager(step: R.Event)

  // ---------------------------------------------------------------- the detailed system

  function RawStatus(status: M.Status): R.Status {
    match status
    case Stopped => R.Stopped
    case Stopping => R.Stopping
    case Starting => R.Starting
    case Running => R.Running
    case Failed => R.Failed
  }

  /** The manager's state as its own steps see it: they read the monitor's status. */
  function Seen(k: System): R.State {
    k.manager.(control := k.manager.control.(status := RawStatus(k.monitor.status)))
  }

  predicate IsNotification(e: R.MonitorEvent) {
    e.Refresh? || e.CheckHandler? || e.CountAttachers? || e.StampChange? || e.SubmitChange? || e.ChangeDone?
  }

  /**
   Steps that are not inside the monitor's lifecycle. A refresh is published and notified by the
   refreshing thread.
   */
  ghost predicate ManagerEnabled(k: System, e: R.Event) {
    && R.Enabled(Seen(k), e)
    && (e.Mon? ==> IsNotification(e.mon) && k.monitor.thread.Refreshing?)
    && (e.Start? ==> e.start.RequestAgain?)
  }

  /** Before shutdown nobody calls `stop_monitor`, and `start_monitor` is called by a worker that took a restart. */
  predicate MonitorEnabled(k: System, e: M.Event) {
    && M.Enabled(k.monitor, e)
    && !e.Tick? && e != M.OfCall(M.StopCall)
    && (e == M.OfCall(M.StartCall) ==> k.manager.worker.CallingStart?)
    && (e == M.OfThread(M.RefreshDone) ==> k.manager.control.monitor.Looping?)
  }

  ghost predicate Enabled(k: System, e: Event) {
    match e
    case OfMonitor(detail) => MonitorEnabled(k, detail)
    case OfManager(step) => ManagerEnabled(k, step)
  }

  predicate Returns(before: M.Call, after: M.Call) {
    !before.Idle? && after.Idle?
  }

  /** What a step of the monitor means to the manager: a call of its worker returns, a failure is reported. */
  function AfterDetail(k: System, e: M.Event): R.State
    requires M.Enabled(k.monitor, e)
  {
    var worker := if !Returns(k.monitor.call, M.Step(k.monitor, e).call) then k.manager.worker
                  else if e == M.OfCall(M.Spawn(true)) then R.Draining
                  else R.StartFailed;
    var restartAt := if e == M.OfThread(M.Callback) && k.monitor.device.handlers
                     then Some(k.manager.now + RESTART_DELAY) else k.manager.control.restartAt;
    k.manager.(worker := worker, control := k.manager.control.(restartAt := restartAt))
  }

  ghost function Step(k: System, e: Event): System
    requires Enabled(k, e)
  {
    match e
    case OfMonitor(detail) => System(M.Step(k.monitor, detail), AfterDetail(k, detail))
    case OfManager(step) =>
      System(if step.Tick? then M.Step(k.monitor, M.Tick(step.elapsed)) else k.monitor, R.Step(Seen(k), step))
  }

  ghost predicate IsRun(k: System, events: seq<Event>)
    decreases |events|
  {
    events == [] || (Enabled(k, events[0]) && IsRun(Step(k, events[0]), events[1..]))
  }

  ghost function Final(k: System, events: seq<Event>): System
    requires IsRun(k, events)
    decreases |events|
  {
    if events == [] then k else Final(Step(k, events[0]), events[1..])
  }

  /** The manager starts where the monitor, after any history of its own, has just been started. */
  ghost predicate Init(k: System, history: seq<M.Event>, unborn: M.State) {
    && M.Init(unborn) && M.IsRun(unborn, history) && k.monitor == M.Final(unborn, history)
    && k.monitor.call.Idle? && k.monitor.status.Running? && k.monitor.thread.AtTop?
    && R.Init(k.manager)
  }

  // ---------------------------------------------------------------- abstraction

  predicate Closing(c: M.Call) {
    c.ClosingNetlink? || c.ClosingWake? || c.ClearingHandlers?
  }

  /** Cleaning up after a thread that could not be created is still part of launching it. */
  function StatusOf(m: M.State): R.Status {
    if Closing(m.call) && !m.call.restart then R.Running else RawStatus(m.status)
  }

  /** A thread that a restart has joined is gone, abstractly, when its cleanup is. */
  function ThreadOf(m: M.State, notification: R.Monitor): R.Monitor {
    if Closing(m.call) && m.call.restart then R.Exited
    else
      match m.thread
      case NoThread => R.NoThread
      case LeftLoop(_) => R.LoopFailed
      case Reporting => R.Unreported
      case Exited => R.Exited
      case Refreshing => notification
      case _ => R.Looping
  }

  function WorkerOf(c: M.Call, own: R.Worker): R.Worker {
    match c
    case Idle => own
    case Accepting => R.CallingStart
    case Signalling(_) => R.Joining
    case JoiningThread(_) => R.Joining
    case Spawning => R.Launching
    case ClosingNetlink(restart) => if restart then R.Joining else R.Launching
    case ClosingWake(restart) => if restart then R.Joining else R.Launching
    case ClearingHandlers(restart) => if restart then R.Joining else R.Launching
    case _ => R.Opening
  }

  function ControlOf(m: M.State, own: R.Control): R.Control {
    R.Control(StatusOf(m), ThreadOf(m, own.monitor), own.restartAt)
  }

  function Abstract(k: System): R.State {
    k.manager.(control := ControlOf(k.monitor, k.manager.control), worker := WorkerOf(k.monitor.call, k.manager.worker))
  }

  /** The monitor, and where its lifecycle calls can stand when the manager alone makes them. */
  predicate MonitorInv(m: M.State) {
    && M.Lifecycle(m) && M.Reports(m)
    && (m.call.Accepting? ==> m.status.Stopped?)
    && (m.thread.LeftLoop? ==> m.thread.failed)
    && (m.call.Signalling? || m.call.JoiningThread? ==> m.call.restart && (m.thread.Reporting? || m.thread.Exited?))
  }

  predicate ManagerInv(m: M.State, control: R.Control, worker: R.Worker) {
    && !worker.Joining? && !worker.Opening? && !worker.Launching?
    && (!m.call.Idle? ==> worker.CallingStart?)
    && !control.monitor.NoThread? && !control.monitor.LoopFailed?
    && !control.monitor.Unreported? && !control.monitor.Exited?
    && (!m.thread.Refreshing? ==> control.monitor.Looping?)
  }

  predicate Inv(k: System) {
    && MonitorInv(k.monitor)
    && ManagerInv(k.monitor, k.manager.control, k.manager.worker)
    && P.RestartInv(Abstract(k).control, Abstract(k).worker)
  }

  // ---------------------------------------------------------------- steps of the monitor

  /** The step of the coarse lifecycle that a detailed step completes, if any. */
  function Matching(m: M.State, e: M.Event): Option<R.Event> {
    match e
    case OfThread(t) =>
      (match t
       case PollFails => Some(R.Mon(R.LoopFails))
       case Netlink(_) => if m.thread.WakeDone? && m.thread.error then Some(R.Mon(R.LoopFails)) else None
       case Leave => Some(R.Mon(R.MarkFailed))
       case Callback => Some(R.Mon(R.ReportFailure))
       case _ => None)
    case OfCall(c) =>
      (match c
       case StartCall => if m.status.Failed? then Some(R.Start(R.EnterStart)) else None
       case Accept => Some(R.Start(R.EnterStart))
       case MakeEventfd(ok) => if ok then None else Some(R.Start(R.OpenMonitor(false)))
       case OpenNetlink(ok) => if ok then None else Some(R.Start(R.OpenMonitor(false)))
       case StoreRunning => Some(R.Start(R.OpenMonitor(true)))
       case Spawn(ok) => if ok then Some(R.Start(R.LaunchThread(true))) else None
       case ClearHandlers =>
         if !m.call.ClearingHandlers? then None
         else Some(R.Start(if m.call.restart then R.JoinOldThread else R.LaunchThread(false)))
       case _ => None)
    case _ => None
  }

  predicate IsCleanup(e: M.CallEvent) {
    e.Signal? || e.Join? || e.CloseNetlink? || e.CloseWake? || e.ClearHandlers?
  }

  /** The abstract control and worker after a step of a lifecycle call. */
  function StartedOn(c: R.Control, w: R.Worker, now: int, step: Option<R.Event>): (R.Control, R.Worker) {
    if step.None? then (c, w)
    else if step.value.Start? then R.StartStep(c, w, now, step.value.start)
    else if step.value.Mon? then (R.MonitorControl(c, step.value.mon, now, 0), w)
    else (c, w)
  }

  predicate CoarseEnabled(c: R.Control, w: R.Worker, step: Option<R.Event>) {
    step.Some? ==>
      match step.value
      case Start(e) => R.StartEnabled(c, w, e)
      case Mon(LoopFails) => c.monitor.Looping?
      case Mon(MarkFailed) => c.monitor.LoopFailed?
      case Mon(ReportFailure) => c.monitor.Unreported?
      case _ => false
  }

  /** Simulation of one step of the monitor, as far as the monitor and the worker are concerned. */
  ghost predicate Simulates(k: System, e: M.Event)
    requires M.Enabled(k.monitor, e)
  {
    var now, next, manager := Abstract(k), M.Step(k.monitor, e), AfterDetail(k, e);
    && CoarseEnabled(now.control, now.worker, Matching(k.monitor, e))
    && StartedOn(now.control, now.worker, now.now, Matching(k.monitor, e))
       == (ControlOf(next, manager.control), WorkerOf(next.call, manager.worker))
    && MonitorInv(next) && ManagerInv(next, manager.control, manager.worker)
  }

  lemma CleanupSimulates(k: System, e: M.CallEvent)
    requires Inv(k) && MonitorEnabled(k, M.OfCall(e)) && IsCleanup(e)
    ensures Simulates(k, M.OfCall(e))
  {
    M.LifecycleCall(k.monitor, e);
  }

  /** Entering the call, and its last step. */
  predicate IsEdge(e: M.CallEvent) {
    e.StartCall? || e.Accept? || e.Spawn?
  }

  lemma EdgeSimulates(k: System, e: M.CallEvent)
    requires Inv(k) && MonitorEnabled(k, M.OfCall(e)) && IsEdge(e)
    ensures Simulates(k, M.OfCall(e))
  {
    M.LifecycleCall(k.monitor, e);
  }

  lemma OpeningSimulates(k: System, e: M.CallEvent)
    requires Inv(k) && MonitorEnabled(k, M.OfCall(e)) && !IsCleanup(e) && !IsEdge(e)
    ensures Simulates(k, M.OfCall(e))
  {
    M.LifecycleCall(k.monitor, e);
  }

  lemma LoopSimulates(k: System, e: M.ThreadEvent)
    requires Inv(k) && MonitorEnabled(k, M.OfThread(e)) && !e.Leave? && !e.Callback? && !e.SeeStop?
    ensures Simulates(k, M.OfThread(e))
  {
    M.LifecycleThread(k.monitor, e);
  }

  lemma ExitSimulates(k: System, e: M.ThreadEvent)
    requires Inv(k) && MonitorEnabled(k, M.OfThread(e)) && (e.Leave? || e.Callback? || e.SeeStop?)
    ensures Simulates(k, M.OfThread(e))
  {
    M.LifecycleThread(k.monitor, e);
  }

  lemma DetailSimulates(k: System, e: M.Event)
    requires Inv(k) && MonitorEnabled(k, e)
    ensures Simulates(k, e)
  {
    match e
    case OfCall(c) =>
      if IsCleanup(c) {
        CleanupSimulates(k, c);
      } else if IsEdge(c) {
        EdgeSimulates(k, c);
      } else {
        OpeningSimulates(k, c);
      }
    case OfThread(t) =>
      if t.Leave? || t.Callback? || t.SeeStop? {
        ExitSimulates(k, t);
      } else {
        LoopSimulates(k, t);
      }
    case _ =>
  }

  // ---------------------------------------------------------------- steps of the system

  /** The coarse steps that a step of the detailed system takes: one or none. */
  function Matched(k: System, e: Event): seq<R.Event> {
    match e
    case OfManager(step) => [step]
    case OfMonitor(detail) => if Matching(k.monitor, detail).Some? then [Matching(k.monitor, detail).value] else []
  }

  /** A coarse lifecycle step changes nothing but the control and the worker. */
  lemma CoarseStep(s: R.State, e: R.Event)
    requires CoarseEnabled(s.control, s.worker, Some(e))
    ensures R.Enabled(s, e)
    ensures var (c, w) := StartedOn(s.control, s.worker, s.now, Some(e));
            R.Step(s, e) == s.(control := c, worker := w)
  {
  }

  lemma MonitorRefines(k: System, e: M.Event)
    requires Inv(k) && MonitorEnabled(k, e)
    ensures var es := Matched(k, OfMonitor(e));
            R.IsRun(Abstract(k), es) && R.Final(Abstract(k), es) == Abstract(Step(k, OfMonitor(e)))
    ensures Inv(Step(k, OfMonitor(e)))
  {
    DetailSimulates(k, e);
    var step := Matching(k.monitor, e);
    var next := Step(k, OfMonitor(e));
    if step.Some? {
      CoarseStep(Abstract(k), step.value);
      P.RestartStep(Abstract(k), step.value);
      assert R.Step(Abstract(k), step.value) == Abstract(next);
      SingleStep(Abstract(k), step.value);
    } else {
      assert Abstract(next) == Abstract(k);
    }
  }

  lemma SingleStep(s: R.State, e: R.Event)
    requires R.Enabled(s, e)
    ensures R.IsRun(s, [e]) && R.Final(s, [e]) == R.Step(s, e)
  {
    assert [e][1..] == [];
    assert R.IsRun(R.Step(s, e), [e][1..]);
  }

  /** Steps of API callers do not look at the monitor or the worker. */
  lemma ApiFrame(s: R.State, e: R.ApiEvent, c: R.Control, w: R.Worker)
    requires R.ApiEnabled(s, e)
    ensures R.ApiEnabled(s.(control := c, worker := w), e)
    ensures R.ApiStep(s.(control := c, worker := w), e) == R.ApiStep(s, e).(control := c, worker := w)
    ensures R.ApiStep(s, e).control == s.control && R.ApiStep(s, e).worker == s.worker
  {
  }

  /** Steps of the worker on its queue look only at the restart flag. */
  lemma WorkFrame(s: R.State, e: R.WorkEvent, c: R.Control)
    requires R.WorkEnabled(s, e) && c.restartAt == s.control.restartAt
    ensures R.WorkEnabled(s.(control := c), e)
    ensures var next := R.WorkStep(s, e);
            && R.WorkStep(s.(control := c), e) == next.(control := c.(restartAt := next.control.restartAt))
            && next.control == s.control.(restartAt := next.control.restartAt)
            && !next.worker.Joining? && !next.worker.Opening? && !next.worker.Launching?
  {
  }

  lemma ManagerSimulates(k: System, e: R.Event)
    requires Inv(k) && ManagerEnabled(k, e)
    ensures R.Enabled(Abstract(k), e) && R.Step(Abstract(k), e) == Abstract(Step(k, OfManager(e)))
    ensures var next := Step(k, OfManager(e));
            MonitorInv(next.monitor) && ManagerInv(next.monitor, next.manager.control, next.manager.worker)
  {
    match e
    case Api(api) => ApiFrame(Seen(k), api, Abstract(k).control, Abstract(k).worker);
    case Work(work) => WorkRefines(k, work);
    case Mon(mon) => NotificationRefines(k, mon);
    case Start(_) => assert k.monitor.call.Idle?;
    case _ =>
  }

  lemma ManagerRefines(k: System, e: R.Event)
    requires Inv(k) && ManagerEnabled(k, e)
    ensures R.Enabled(Abstract(k), e) && R.Step(Abstract(k), e) == Abstract(Step(k, OfManager(e)))
    ensures Inv(Step(k, OfManager(e)))
  {
    ManagerSimulates(k, e);
    P.RestartStep(Abstract(k), e);
  }

  lemma WorkRefines(k: System, e: R.WorkEvent)
    requires Inv(k) && ManagerEnabled(k, R.Work(e))
    ensures R.WorkEnabled(Abstract(k), e) && R.WorkStep(Abstract(k), e) == Abstract(Step(k, OfManager(R.Work(e))))
    ensures ManagerInv(k.monitor, R.WorkStep(Seen(k), e).control, R.WorkStep(Seen(k), e).worker)
  {
    assert k.monitor.call.Idle?;
    WorkFrame(Seen(k), e, Abstract(k).control);
  }

  /** The thread that notifies is in its loop, so what the manager sees is the abstract monitor. */
  lemma NotificationRefines(k: System, e: R.MonitorEvent)
    requires Inv(k) && ManagerEnabled(k, R.Mon(e))
    ensures R.MonitorEnabled(Abstract(k), e)
    ensures R.MonitorStep(Abstract(k), e) == Abstract(Step(k, OfManager(R.Mon(e))))
    ensures ManagerInv(k.monitor, R.MonitorStep(Seen(k), e).control, k.manager.worker)
  {
  }

  lemma SystemRefines(k: System, e: Event)
    requires Inv(k) && Enabled(k, e)
    ensures R.IsRun(Abstract(k), Matched(k, e)) && R.Final(Abstract(k), Matched(k, e)) == Abstract(Step(k, e))
    ensures Inv(Step(k, e))
  {
    match e
    case OfMonitor(detail) => MonitorRefines(k, detail);
    case OfManager(step) =>
      ManagerRefines(k, step);
      SingleStep(Abstract(k), step);
  }

  // ---------------------------------------------------------------- runs

  /** Every run of the detailed system is a run of the coarse one. */
  lemma {:induction false} RunRefines(k: System, events: seq<Event>) returns (coarse: seq<R.Event>)
    requires Inv(k) && IsRun(k, events)
    ensures Inv(Final(k, events))
    ensures R.IsRun(Abstract(k), coarse) && R.Final(Abstract(k), coarse) == Abstract(Final(k, events))
    decreases |events|
  {
    if events == [] {
      coarse := [];
    } else {
      SystemRefines(k, events[0]);
      var first := Matched(k, events[0]);
      coarse := RunRefines(Step(k, events[0]), events[1..]);
      if first != [] {
        assert ([first[0]] + coarse)[1..] == coarse;
        assert first == [first[0]];
        coarse := [first[0]] + coarse;
      }
    }
  }

  lemma InitRefines(k: System, history: seq<M.Event>, unborn: M.State)
    requires Init(k, history, unborn)
    ensures Inv(k) && R.Init(Abstract(k))
  {
    M.InvRun(unborn, history);
    assert Abstract(k) == k.manager;
    P.RestartInit(k.manager);
  }

  /** So every reachable state of the detailed system satisfies all invariants of the reconciliation system. */
  lemma DetailedSystemInv(k: System, history: seq<M.Event>, unborn: M.State, events: seq<Event>)
    requires Init(k, history, unborn) && IsRun(k, events)
    ensures T.SystemInv(Abstract(Final(k, events)))
    ensures Inv(Final(k, events))
  {
    InitRefines(k, history, unborn);
    var coarse := RunRefines(k, events);
    T.SystemInit(Abstract(k));
    T.SystemRun(Abstract(k), coarse);
  }

  /**
   The restart protocol on the monitor's real status: outside of a lifecycle call the monitor runs,
   or exactly one restart is requested, in the worker's hands, or about to be reported.
   */
  lemma DetailedRestartOwed(k: System, history: seq<M.Event>, unborn: M.State, events: seq<Event>)
    requires Init(k, history, unborn) && IsRun(k, events) && Final(k, events).monitor.call.Idle?
    ensures var end := Final(k, events);
            var requested, held, coming :=
              end.manager.control.restartAt.Some?,
              end.manager.worker.CallingStart? || end.manager.worker.StartFailed?,
              end.monitor.thread.Reporting?;
            && (end.monitor.status.Running? <==> !requested && !held && !coming)
            && !(requested && held) && !(requested && coming) && !(held && coming)
  {
    DetailedSystemInv(k, history, unborn, events);
  }
}
