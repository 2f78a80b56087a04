/**
 The monitor-restart protocol: no restart is lost, none is duplicated, and the worker never tries
 to start a monitor that is already running.
 */
module RestartProtocol {
  import opened Reconciler

  /** The monitor thread is inside its loop or in a notification from it. */
  predicate Alive(m: Monitor) {
    !m.NoThread? && !m.Unreported? && !m.Exited?
  }

  /** The worker is inside a restart and has not yet stored the running status. */
  predicate Restarting(w: Worker) {
    w.CallingStart? || w.Joining? || w.Opening? || w.StartFailed?
  }

  function One(b: bool): nat {
    if b then 1 else 0
  }

  /** The places where a restart can be owed: requested, in the worker's hands, or about to be requested. */
  function Owed(c: Control, w: Worker): nat {
    One(c.restartAt.Some?) + One(Restarting(w)) + One(c.monitor.Unreported?)
  }

  /**
   Exactly one restart is owed while the monitor is not running and none while it is; a running
   status has a live thread behind it, except for the moment before the thread is created.
   */
  predicate RestartInv(c: Control, w: Worker) {
    && Owed(c, w) == One(!c.status.Running?)
    && (Alive(c.monitor) <==> c.status.Running? && !w.Launching?)
    && (c.monitor.Unreported? ==> c.status.Failed?)
    && (w.Joining? <==> c.status.Stopping?)
    && (w.Opening? <==> c.status.Starting?)
    && (w.Launching? ==> c.status.Running?)
    && (w.StartFailed? ==> c.status.Stopped?)
  }

  lemma RestartInit(s: State)
    requires Init(s)
    ensures RestartInv(s.control, s.worker)
  {
  }

  lemma RestartMonitor(s: State, e: MonitorEvent)
    requires RestartInv(s.control, s.worker) && MonitorEnabled(s, e)
    ensures RestartInv(MonitorControl(s.control, e, s.now, |s.attachers|), s.worker)
  {
  }

  lemma RestartStart(c: Control, w: Worker, now: int, e: StartEvent)
    requires RestartInv(c, w) && StartEnabled(c, w, e)
    ensures RestartInv(StartStep(c, w, now, e).0, StartStep(c, w, now, e).1)
  {
  }

  lemma RestartWork(s: State, e: WorkEvent)
    requires RestartInv(s.control, s.worker) && WorkEnabled(s, e)
    ensures RestartInv(WorkStep(s, e).control, WorkStep(s, e).worker)
  {
  }

  lemma RestartStep(s: State, e: Event)
    requires RestartInv(s.control, s.worker) && Enabled(s, e)
    ensures RestartInv(Step(s, e).control, Step(s, e).worker)
  {
    match e
    case Mon(m) => RestartMonitor(s, m);
    case Start(st) => RestartStart(s.control, s.worker, s.now, st);
    case Work(w) => RestartWork(s, w);
    case _ =>
  }

  lemma {:induction false} RestartRun(s: State, events: seq<Event>)
    requires RestartInv(s.control, s.worker) && IsRun(s, events)
    ensures RestartInv(Final(s, events).control, Final(s, events).worker)
    decreases |events|
  {
    if events != [] {
      RestartStep(s, events[0]);
      RestartRun(Step(s, events[0]), events[1..]);
    }
  }

  /**
   In every reachable state: a monitor that is not running has its restart requested, in the
   worker's hands, or about to be requested by the failing thread, and in exactly one of these; a
   request never coexists with a running monitor; and the worker enters `start_monitor` only in a
   state that it accepts.
   */
  lemma NoRestartLostOrDuplicated(s: State, events: seq<Event>)
    requires Init(s) && IsRun(s, events)
    ensures var c, w := Final(s, events).control, Final(s, events).worker;
            && (!c.status.Running? <==> c.restartAt.Some? || Restarting(w) || c.monitor.Unreported?)
            && (c.restartAt.Some? ==> !Restarting(w) && !c.monitor.Unreported?)
            && (Restarting(w) ==> !c.monitor.Unreported?)
            && (w.CallingStart? ==> StartStep(c, w, Final(s, events).now, EnterStart).1 != StartFailed)
            && (c.status.Running? ==> Alive(c.monitor) || w.Launching?)
  {
    RestartInit(s);
    RestartRun(s, events);
  }

  lemma RestartDelayStep(s: State, e: Event)
    requires RestartInv(s.control, s.worker) && Enabled(s, e) && s.control.restartAt.Some?
    ensures s.now <= Step(s, e).now
    ensures Step(s, e).control.restartAt == s.control.restartAt || s.control.restartAt.value <= s.now
  {
    assert !s.control.monitor.Unreported? && !s.worker.StartFailed?;
  }

  lemma {:induction false} ClockRun(s: State, events: seq<Event>)
    requires IsRun(s, events)
    ensures s.now <= Final(s, events).now
    decreases |events|
  {
    if events != [] {
      ClockStep(s, events[0]);
      ClockRun(Step(s, events[0]), events[1..]);
    }
  }

  lemma ClockStep(s: State, e: Event)
    requires Enabled(s, e)
    ensures s.now <= Step(s, e).now
  {
  }

  /**
   A requested restart keeps its time: in no run is it taken, moved or dropped before the time it was
   requested for, five seconds after the request.
   */
  lemma {:induction false} RestartWaits(s: State, events: seq<Event>)
    requires RestartInv(s.control, s.worker) && IsRun(s, events) && s.control.restartAt.Some?
    ensures || Final(s, events).control.restartAt == s.control.restartAt
            || s.control.restartAt.value <= Final(s, events).now
    decreases |events|
  {
    if events != [] {
      var next := Step(s, events[0]);
      RestartDelayStep(s, events[0]);
      RestartStep(s, events[0]);
      if next.control.restartAt == s.control.restartAt {
        RestartWaits(next, events[1..]);
      } else {
        ClockRun(next, events[1..]);
      }
    }
  }

  /** Whoever requests a restart requests it for five seconds later. */
  lemma RequestedForLater(s: State, e: Event)
    requires Enabled(s, e) && s.control.restartAt.None? && Step(s, e).control.restartAt.Some?
    ensures e == Mon(ReportFailure) || e == Start(RequestAgain)
    ensures Step(s, e).control.restartAt.value == s.now + 5000
  {
    if e.Work? {
      WorkNeverRequests(s, e.work);
    }
  }

  lemma WorkNeverRequests(s: State, e: WorkEvent)
    requires WorkEnabled(s, e) && s.control.restartAt.None?
    ensures WorkStep(s, e).control.restartAt.None?
  {
  }

  /** A restart whose calls succeed, after the failed thread has reported, ends with a running monitor in its loop. */
  lemma RestartSucceeds(c: Control, now: int)
    requires c.status.Failed? && c.monitor.Exited? && RestartInv(c, CallingStart)
    ensures var (c1, w1) := StartStep(c, CallingStart, now, EnterStart);
            var (c2, w2) := StartStep(c1, w1, now, JoinOldThread);
            var (c3, w3) := StartStep(c2, w2, now, EnterStart);
            var (c4, w4) := StartStep(c3, w3, now, OpenMonitor(true));
            && StartEnabled(c, CallingStart, EnterStart) && StartEnabled(c1, w1, JoinOldThread)
            && StartEnabled(c2, w2, EnterStart) && StartEnabled(c3, w3, OpenMonitor(true))
            && StartEnabled(c4, w4, LaunchThread(true))
            && StartStep(c4, w4, now, LaunchThread(true)) == (c.(status := Running, monitor := Looping), Draining)
  {
  }
}
