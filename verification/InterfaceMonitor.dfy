/**
 The interface monitor in detail: the five-state lifecycle with its descriptors, handlers and
 thread, the dirty-flag/eventfd handshake between requesters and the monitor loop, and the
 debounce before a refresh. One caller at a time runs `start_monitor` or `stop_monitor`; any
 number of threads run `request_refresh`.
 */
module InterfaceMonitor {
  import opened Basics

  datatype Status = Stopped | Stopping | Starting | Running | Failed

  /** The monitor thread; `Polled` to `Refreshing` is one round of its loop. */
  datatype Thread =
    | NoThread
    | AtTop
    | Polled(wake: bool, error: bool, input: bool)
    | Draining(error: bool, input: bool)
    | Drained(error: bool, input: bool)
    | WakeDone(error: bool, input: bool)
    | NetlinkDone
    | Refreshing
    | LeftLoop(failed: bool)
    | Reporting
    | Exited

  /** Where `start_monitor` or `stop_monitor` stands. `restart` marks a stop on behalf of a start. */
  datatype Call =
    | Idle
    | Accepting
    | MakingEventfd
    | OpeningNetlink
    | InstallingHandlers
    | MarkingDirty
    | FirstWake
    | StoringRunning
    | Spawning
    | Signalling(restart: bool)
    | JoiningThread(restart: bool)
    | ClosingNetlink(restart: bool)
    | ClosingWake(restart: bool)
    | ClearingHandlers(restart: bool)

  /** A `request_refresh` call past its status check. */
  datatype Requester = MustStore | MustWrite

  /** Descriptors and handlers; an open eventfd carries its counter. */
  datatype Device = Device(wake: Option<nat>, netlink: bool, handlers: bool)

  /**
   Refresh marks. `stores` counts the stores to `dirty`, `taken` those an exchange has consumed, and
   `covered` those of the latter that a refresh attempt came after or that ended with their loop.
   */
  datatype Marks = Marks(dirty: bool, stores: nat, taken: nat, covered: nat)

  /** The loop's locals. */
  datatype Timer = Timer(pending: bool, deadline: int)

  /** Failure callbacks of the current thread, and whether a stop came before its failure. */
  datatype Report = Report(failures: nat, stoppedFirst: bool)

  datatype State = State(
    now: int,
    debounce: nat,
    status: Status,
    device: Device,
    marks: Marks,
    thread: Thread,
    stopRequested: bool,
    timer: Timer,
    call: Call,
    requesters: map<nat, Requester>,
    report: Report)

  datatype CallEvent =
    | StartCall
    | StopCall
    | Accept
    | MakeEventfd(ok: bool)
    | OpenNetlink(ok: bool)
    | InstallHandlers
    | MarkDirty
    | WriteFirst
    | StoreRunning
    | Spawn(ok: bool)
    | Signal
    | Join
    | CloseNetlink
    | CloseWake
    | ClearHandlers

  datatype ThreadEvent =
    | SeeStop
    | PollReturns(error: bool, input: bool)
    | PollFails
    | AfterPoll
    | ReadWake
    | Exchange
    | Netlink(changed: bool)
    | MaybeRefresh
    | RefreshDone
    | Leave
    | Callback

  datatype Event =
    | Tick(elapsed: nat)
    | Request(requester: nat)
    | StoreMark(requester: nat)
    | WriteMark(requester: nat)
    | OfCall(call: CallEvent)
    | OfThread(thread: ThreadEvent)

  ghost predicate Init(s: State) {
    && s.status == Stopped && s.device == Device(None, false, false)
    && s.marks == Marks(false, 0, 0, 0)
    && s.thread == NoThread && !s.stopRequested && !s.timer.pending
    && s.call == Idle && s.requesters == map[] && s.report == Report(0, false)
  }

  // ---------------------------------------------------------------- shared pieces

  function Woken(d: Device): Device {
    if d.wake.None? then d else d.(wake := Some(d.wake.value + 1))
  }

  function Marked(m: Marks): Marks {
    m.(dirty := true, stores := m.stores + 1)
  }

  /** A change puts the refresh off to the debounce from now. */
  function Accepted(now: int, debounce: nat): Timer {
    Timer(true, now + debounce)
  }

  predicate InLoop(t: Thread) {
    t.AtTop? || t.Polled? || t.Draining? || t.Drained? || t.WakeDone? || t.NetlinkDone? || t.Refreshing?
  }

  /** The thread has not yet come to its failure compare-exchange. */
  predicate BeforeVerdict(t: Thread) {
    InLoop(t) || t.LeftLoop?
  }

  // ---------------------------------------------------------------- start_monitor and stop_monitor

  predicate CallEnabled(s: State, e: CallEvent) {
    match e
    case StartCall => s.call.Idle?
    case StopCall => s.call.Idle?
    case Accept => s.call.Accepting?
    case MakeEventfd(_) => s.call.MakingEventfd?
    case OpenNetlink(_) => s.call.OpeningNetlink?
    case InstallHandlers => s.call.InstallingHandlers?
    case MarkDirty => s.call.MarkingDirty?
    case WriteFirst => s.call.FirstWake?
    case StoreRunning => s.call.StoringRunning?
    case Spawn(_) => s.call.Spawning?
    case Signal => s.call.Signalling?
    case Join => s.call.JoiningThread? && (s.thread.Exited? || s.thread.NoThread?)
    case CloseNetlink => s.call.ClosingNetlink?
    case CloseWake => s.call.ClosingWake?
    case ClearHandlers => s.call.ClearingHandlers?
  }

  /** `stop_monitor` past its early return: the status goes to stopping before anything else. */
  function BeginStop(s: State, restart: bool): State {
    s.(status := Stopping,
       report := s.report.(stoppedFirst := s.report.stoppedFirst || BeforeVerdict(s.thread)),
       call := if s.thread.NoThread? then ClosingNetlink(restart) else Signalling(restart))
  }

  function CallStep(s: State, e: CallEvent): State
    requires CallEnabled(s, e)
  {
    match e
    case StartCall => if s.status.Failed? then BeginStop(s, true) else s.(call := Accepting)
    case StopCall => if s.status.Stopped? && s.thread.NoThread? then s else BeginStop(s, false)
    case Accept => if s.status.Stopped? then s.(status := Starting, call := MakingEventfd) else s.(call := Idle)
    case MakeEventfd(ok) =>
      if ok then s.(device := s.device.(wake := Some(0)), call := OpeningNetlink)
      else s.(device := s.device.(wake := None), status := Stopped, call := Idle)
    case OpenNetlink(ok) =>
      if ok then s.(device := s.device.(netlink := true), call := InstallingHandlers)
      else s.(device := s.device.(wake := None), status := Stopped, call := Idle)
    case InstallHandlers => s.(device := s.device.(handlers := true), call := MarkingDirty)
    case MarkDirty => s.(marks := Marked(s.marks), call := FirstWake)
    case WriteFirst => s.(device := Woken(s.device), call := StoringRunning)
    case StoreRunning => s.(status := Running, call := Spawning)
    case Spawn(ok) =>
      if ok then s.(thread := AtTop, stopRequested := false, timer := s.timer.(pending := false),
                    marks := s.marks.(covered := s.marks.taken), report := Report(0, false), call := Idle)
      else BeginStop(s, false)
    case Signal =>
      s.(stopRequested := true, device := if s.thread.Exited? then s.device else Woken(s.device),
         call := JoiningThread(s.call.restart))
    case Join => s.(thread := NoThread, call := ClosingNetlink(s.call.restart))
    case CloseNetlink => s.(device := s.device.(netlink := false), call := ClosingWake(s.call.restart))
    case CloseWake => s.(device := s.device.(wake := None), call := ClearingHandlers(s.call.restart))
    case ClearHandlers =>
      s.(device := s.device.(handlers := false), status := Stopped, call := if s.call.restart then Accepting else Idle)
  }

  // ---------------------------------------------------------------- monitor_loop

  predicate ThreadEnabled(s: State, e: ThreadEvent) {
    match e
    case SeeStop => (s.thread.AtTop? || s.thread.Polled?) && s.stopRequested
    case PollReturns(_, _) => s.thread.AtTop? && !s.stopRequested
    case PollFails => s.thread.AtTop? && !s.stopRequested
    case AfterPoll => s.thread.Polled? && !s.stopRequested
    case ReadWake => s.thread.Draining?
    case Exchange => s.thread.Drained?
    case Netlink(_) => s.thread.WakeDone?
    case MaybeRefresh => s.thread.NetlinkDone?
    case RefreshDone => s.thread.Refreshing?
    case Leave => s.thread.LeftLoop?
    case Callback => s.thread.Reporting?
  }

  function ThreadStep(s: State, e: ThreadEvent): State
    requires ThreadEnabled(s, e)
  {
    match e
    case SeeStop => s.(thread := LeftLoop(false))
    case PollReturns(error, input) =>
      s.(thread := Polled(s.device.wake.Some? && s.device.wake.value > 0, error, input))
    case PollFails => s.(thread := LeftLoop(true))
    case AfterPoll =>
      s.(thread := if s.thread.wake then Draining(s.thread.error, s.thread.input)
                   else WakeDone(s.thread.error, s.thread.input))
    case ReadWake =>
      if s.device.wake.None? || s.device.wake.value == 0
      then s.(thread := Drained(s.thread.error, s.thread.input))
      else s.(device := s.device.(wake := Some(0)),
              thread := if s.status.Running? then s.thread else Drained(s.thread.error, s.thread.input))
    case Exchange =>
      var next := s.(thread := WakeDone(s.thread.error, s.thread.input));
      if s.marks.dirty
      then next.(marks := s.marks.(dirty := false, taken := s.marks.stores), timer := Accepted(s.now, s.debounce))
      else next
    case Netlink(changed) =>
      if s.thread.error then s.(thread := LeftLoop(true))
      else if s.thread.input && changed
      then s.(thread := NetlinkDone, timer := Accepted(s.now, s.debounce))
      else s.(thread := NetlinkDone)
    case MaybeRefresh =>
      if s.timer.pending && s.now >= s.timer.deadline
      then s.(thread := Refreshing, marks := s.marks.(covered := s.marks.taken), timer := s.timer.(pending := false))
      else s.(thread := AtTop)
    case RefreshDone => s.(thread := AtTop)
    case Leave =>
      if s.thread.failed && s.status.Running? then s.(status := Failed, thread := Reporting)
      else s.(thread := Exited)
    case Callback =>
      s.(thread := Exited, report := s.report.(failures := s.report.failures + (if s.device.handlers then 1 else 0)))
  }

  // ---------------------------------------------------------------- the system

  predicate Enabled(s: State, e: Event) {
    match e
    case Tick(_) => true
    case Request(r) => r !in s.requesters
    case StoreMark(r) => r in s.requesters && s.requesters[r].MustStore?
    case WriteMark(r) => r in s.requesters && s.requesters[r].MustWrite?
    case OfCall(c) => CallEnabled(s, c)
    case OfThread(t) => ThreadEnabled(s, t)
  }

  /** A request while the monitor is not running refreshes on the spot and leaves no mark. */
  function Step(s: State, e: Event): State
    requires Enabled(s, e)
  {
    match e
    case Tick(elapsed) => s.(now := s.now + elapsed)
    case Request(r) => if s.status.Running? then s.(requesters := s.requesters[r := MustStore]) else s
    case StoreMark(r) => s.(marks := Marked(s.marks), requesters := s.requesters[r := MustWrite])
    case WriteMark(r) => s.(device := Woken(s.device), requesters := s.requesters - {r})
    case OfCall(c) => CallStep(s, c)
    case OfThread(t) => ThreadStep(s, t)
  }

  predicate IsRun(s: State, events: seq<Event>)
    decreases |events|
  {
    events == [] || (Enabled(s, events[0]) && IsRun(Step(s, events[0]), events[1..]))
  }

  function Final(s: State, events: seq<Event>): State
    requires IsRun(s, events)
    decreases |events|
  {
    if events == [] then s else Final(Step(s, events[0]), events[1..])
  }

  // ---------------------------------------------------------------- lifecycle invariant

  const CLOSED := Device(None, false, false)

  predicate AllOpen(d: Device) {
    d.wake.Some? && d.netlink && d.handlers
  }

  /** The thread found its failure and the status says so, or will. */
  predicate RunningThread(s: State) {
    s.status.Running? && AllOpen(s.device) && !s.stopRequested && (InLoop(s.thread) || s.thread == LeftLoop(true))
  }

  predicate FailedThread(s: State) {
    s.status.Failed? && AllOpen(s.device) && !s.stopRequested && (s.thread.Reporting? || s.thread.Exited?)
  }

  predicate Resting(s: State) {
    || (s.status.Stopped? && s.device == CLOSED && s.thread.NoThread?)
    || RunningThread(s)
    || FailedThread(s)
  }

  /** What is open at each point of a lifecycle call. */
  predicate Lifecycle(s: State) {
    match s.call
    case Idle => Resting(s)
    case Accepting => Resting(s)
    case MakingEventfd => s.status.Starting? && s.thread.NoThread? && s.device == CLOSED
    case OpeningNetlink =>
      && s.status.Starting? && s.thread.NoThread?
      && s.device.wake.Some? && !s.device.netlink && !s.device.handlers
    case InstallingHandlers =>
      && s.status.Starting? && s.thread.NoThread?
      && s.device.wake.Some? && s.device.netlink && !s.device.handlers
    case MarkingDirty => s.status.Starting? && s.thread.NoThread? && AllOpen(s.device)
    case FirstWake => s.status.Starting? && s.thread.NoThread? && AllOpen(s.device)
    case StoringRunning => s.status.Starting? && s.thread.NoThread? && AllOpen(s.device)
    case Spawning => s.status.Running? && s.thread.NoThread? && AllOpen(s.device)
    case Signalling(_) => s.status.Stopping? && !s.thread.NoThread? && AllOpen(s.device) && !s.stopRequested
    case JoiningThread(_) => s.status.Stopping? && !s.thread.NoThread? && AllOpen(s.device) && s.stopRequested
    case ClosingNetlink(_) => s.status.Stopping? && s.thread.NoThread?
    case ClosingWake(_) => s.status.Stopping? && s.thread.NoThread? && !s.device.netlink
    case ClearingHandlers(_) => s.status.Stopping? && s.thread.NoThread? && !s.device.netlink && s.device.wake.None?
  }

  /** Failure callbacks: at most one per thread, none if a stop came first, and never into a cleared handler. */
  predicate Reports(s: State) {
    && s.report.failures <= 1
    && (BeforeVerdict(s.thread) || s.thread.Reporting? ==> s.report.failures == 0)
    && (s.report.stoppedFirst ==> s.report.failures == 0 && !s.thread.Reporting?)
    && (s.report.stoppedFirst && !s.thread.NoThread? ==> s.status.Stopping?)
    && (s.status.Failed? && s.thread.Exited? ==> s.report.failures == 1)
  }

  // ---------------------------------------------------------------- refresh marks

  ghost predicate SomeoneWrites(s: State) {
    exists r :: r in s.requesters && s.requesters[r] == MustWrite
  }

  predicate WakeCounted(s: State) {
    s.device.wake.Some? && s.device.wake.value > 0
  }

  /** A start has left its mark, and its wake-up is written or about to be. */
  predicate StartMarked(s: State) {
    && (s.call.FirstWake? || s.call.StoringRunning? || s.call.Spawning? ==> s.marks.dirty)
    && (s.call.StoringRunning? || s.call.Spawning? ==> WakeCounted(s))
  }

  ghost predicate MarksKept(s: State) {
    && s.marks.covered <= s.marks.taken <= s.marks.stores
    && (s.marks.taken < s.marks.stores ==> s.marks.dirty)
    && (InLoop(s.thread) && s.marks.covered < s.marks.taken ==> s.timer.pending)
    && (InLoop(s.thread) && s.marks.dirty ==>
          WakeCounted(s) || SomeoneWrites(s) || s.thread.Draining? || s.thread.Drained?)
    && (s.thread.Polled? && s.thread.wake ==> WakeCounted(s))
    && StartMarked(s)
  }

  ghost predicate Inv(s: State) {
    Lifecycle(s) && Reports(s) && MarksKept(s)
  }

  lemma LifecycleCall(s: State, e: CallEvent)
    requires Lifecycle(s) && Reports(s) && CallEnabled(s, e)
    ensures Lifecycle(CallStep(s, e)) && Reports(CallStep(s, e))
  {
  }

  /** The steps of a start that leave the first mark and its wake-up, up to the new thread. */
  predicate FirstMark(e: CallEvent) {
    e.MarkDirty? || e.WriteFirst? || e.StoreRunning? || e.Spawn?
  }

  lemma MarksStarting(s: State, e: CallEvent)
    requires Inv(s) && CallEnabled(s, e) && FirstMark(e)
    ensures MarksKept(CallStep(s, e))
  {
    assert SomeoneWrites(s) ==> SomeoneWrites(CallStep(s, e));
  }

  lemma MarksOtherCall(s: State, e: CallEvent)
    requires Inv(s) && CallEnabled(s, e) && !FirstMark(e)
    ensures MarksKept(CallStep(s, e))
  {
    assert SomeoneWrites(s) ==> SomeoneWrites(CallStep(s, e));
  }

  lemma MarksCall(s: State, e: CallEvent)
    requires Inv(s) && CallEnabled(s, e)
    ensures MarksKept(CallStep(s, e))
  {
    if FirstMark(e) {
      MarksStarting(s, e);
    } else {
      MarksOtherCall(s, e);
    }
  }

  lemma LifecycleThread(s: State, e: ThreadEvent)
    requires Lifecycle(s) && Reports(s) && ThreadEnabled(s, e)
    ensures Lifecycle(ThreadStep(s, e)) && Reports(ThreadStep(s, e))
  {
  }

  /** The drain comes before the exchange, so a wake-up is given up only where the mark is about to be seen. */
  lemma MarksWake(s: State, e: ThreadEvent)
    requires Lifecycle(s) && MarksKept(s) && ThreadEnabled(s, e) && (e.ReadWake? || e.Exchange?)
    ensures MarksKept(ThreadStep(s, e))
  {
    assert SomeoneWrites(s) ==> SomeoneWrites(ThreadStep(s, e));
  }

  lemma MarksRound(s: State, e: ThreadEvent)
    requires Lifecycle(s) && MarksKept(s) && ThreadEnabled(s, e) && (e.Netlink? || e.MaybeRefresh? || e.RefreshDone?)
    ensures MarksKept(ThreadStep(s, e))
  {
    assert SomeoneWrites(s) ==> SomeoneWrites(ThreadStep(s, e));
  }

  lemma MarksElsewhere(s: State, e: ThreadEvent)
    requires Lifecycle(s) && MarksKept(s) && ThreadEnabled(s, e)
    requires !e.ReadWake? && !e.Exchange? && !e.Netlink? && !e.MaybeRefresh? && !e.RefreshDone?
    ensures MarksKept(ThreadStep(s, e))
  {
    assert SomeoneWrites(s) ==> SomeoneWrites(ThreadStep(s, e));
  }

  lemma MarksThread(s: State, e: ThreadEvent)
    requires Lifecycle(s) && MarksKept(s) && ThreadEnabled(s, e)
    ensures MarksKept(ThreadStep(s, e))
  {
    match e
    case ReadWake => MarksWake(s, e);
    case Exchange => MarksWake(s, e);
    case Netlink(_) => MarksRound(s, e);
    case MaybeRefresh => MarksRound(s, e);
    case RefreshDone => MarksRound(s, e);
    case _ => MarksElsewhere(s, e);
  }

  lemma InvRequest(s: State, e: Event)
    requires Inv(s) && Enabled(s, e) && !e.OfCall? && !e.OfThread?
    ensures Inv(Step(s, e))
  {
    var next := Step(s, e);
    if e.StoreMark? {
      assert next.requesters[e.requester] == MustWrite;
    } else if !e.WriteMark? && SomeoneWrites(s) {
      var r :| r in s.requesters && s.requesters[r] == MustWrite;
      assert next.requesters[r] == MustWrite;
    }
  }

  lemma {:induction false} InvRun(s: State, events: seq<Event>)
    requires Inv(s) && IsRun(s, events)
    ensures Inv(Final(s, events))
    decreases |events|
  {
    if events != [] {
      var e := events[0];
      match e {
        case OfCall(c) =>
          LifecycleCall(s, c);
          MarksCall(s, c);
        case OfThread(t) =>
          LifecycleThread(s, t);
          MarksThread(s, t);
        case _ => InvRequest(s, e);
      }
      InvRun(Step(s, e), events[1..]);
    }
  }

  // ---------------------------------------------------------------- results about every run

  /**
   A stopped monitor with no lifecycle call in progress holds nothing: both descriptors are closed,
   no thread is joinable and both handlers are empty. A thread that exists always has all of them.
   */
  lemma StoppedHoldsNothing(s: State, events: seq<Event>)
    requires Init(s) && IsRun(s, events)
    ensures var end := Final(s, events);
            && (end.status.Stopped? && end.call.Idle? ==>
                  end.device == Device(None, false, false) && end.thread.NoThread?)
            && (!end.thread.NoThread? ==> end.device.wake.Some? && end.device.netlink && end.device.handlers)
            && (end.call.Idle? ==> end.status.Stopped? || end.status.Running? || end.status.Failed?)
  {
    InvRun(s, events);
  }

  /**
   The failure callback runs at most once per thread, and not at all when a stop had reached the
   stopping status before the thread came to its verdict. A failed monitor at rest has reported.
   */
  lemma FailureReportedOnce(s: State, events: seq<Event>)
    requires Init(s) && IsRun(s, events)
    ensures var end := Final(s, events);
            && end.report.failures <= 1
            && (end.report.stoppedFirst ==> end.report.failures == 0)
            && (end.status.Failed? && end.thread.Exited? ==> end.report.failures == 1)
            && (InLoop(end.thread) ==> end.report.failures == 0)
  {
    InvRun(s, events);
  }

  /**
   No lost refresh mark: while the loop runs, every stored mark is still visible in the dirty flag
   or has been taken; a refresh is pending as long as some taken mark has not been followed by a
   refresh attempt; and a visible mark has a wake-up behind it, so the loop will not sleep on it.
   */
  lemma NoRefreshMarkLost(s: State, events: seq<Event>)
    requires Init(s) && IsRun(s, events) && InLoop(Final(s, events).thread)
    ensures var end := Final(s, events);
            && (end.marks.taken < end.marks.stores ==> end.marks.dirty)
            && (end.marks.covered < end.marks.taken ==> end.timer.pending)
            && (end.marks.dirty ==>
                  WakeCounted(end) || SomeoneWrites(end) || end.thread.Draining? || end.thread.Drained?)
  {
    InvRun(s, events);
  }

  // ---------------------------------------------------------------- changes and refreshes in the history of a run

  /** The state of the run before its event `i`. */
  function At(s: State, events: seq<Event>, i: nat): State
    requires IsRun(s, events) && i <= |events|
    decreases i
  {
    if i == 0 then s else At(Step(s, events[0]), events[1..], i - 1)
  }

  lemma {:induction false} AtStep(s: State, events: seq<Event>, i: nat)
    requires IsRun(s, events) && i < |events|
    ensures Enabled(At(s, events, i), events[i]) && At(s, events, i + 1) == Step(At(s, events, i), events[i])
    decreases i
  {
    if i > 0 {
      AtStep(Step(s, events[0]), events[1..], i - 1);
    }
  }

  lemma {:induction false} AtEnd(s: State, events: seq<Event>)
    requires IsRun(s, events)
    ensures At(s, events, |events|) == Final(s, events)
    decreases |events|
  {
    if events != [] {
      AtEnd(Step(s, events[0]), events[1..]);
    }
  }

  /** The loop learns of a change: it takes a visible mark, or draining the socket reports one. */
  predicate Learns(s: State, e: Event) {
    || (e == OfThread(Exchange) && s.marks.dirty)
    || (e == OfThread(Netlink(true)) && s.thread.WakeDone? && !s.thread.error && s.thread.input)
  }

  /** The loop begins a refresh, at the end of a round. */
  predicate Refreshes(s: State, e: Event) {
    e == OfThread(MaybeRefresh) && Enabled(s, e) && Step(s, e).thread.Refreshing?
  }

  predicate NewLoop(e: Event) {
    e == OfCall(Spawn(true))
  }

  /**
   What each step of the loop does about refreshing: learning of a change puts a refresh off to the
   debounce from now; a round that ends with a refresh pending and its time come refreshes, and no
   other does; and otherwise what is pending, and until when, stays.
   */
  lemma RefreshSchedule(s: State, e: Event)
    requires Enabled(s, e)
    ensures Learns(s, e) ==> Step(s, e).timer.pending && Step(s, e).timer.deadline == s.now + s.debounce
    ensures e == OfThread(MaybeRefresh) ==> (Refreshes(s, e) <==> s.timer.pending && s.timer.deadline <= s.now)
    ensures Refreshes(s, e) || NewLoop(e) ==> !Step(s, e).timer.pending
    ensures !Learns(s, e) && !Refreshes(s, e) && !NewLoop(e) ==> Step(s, e).timer == s.timer
    ensures Step(s, e).debounce == s.debounce && s.now <= Step(s, e).now
  {
  }

  lemma {:induction false} ClockAt(s: State, events: seq<Event>, i: nat, n: nat)
    requires IsRun(s, events) && i <= n <= |events|
    ensures At(s, events, i).now <= At(s, events, n).now && At(s, events, n).debounce == s.debounce
    decreases n
  {
    if n > 0 {
      AtStep(s, events, n - 1);
      RefreshSchedule(At(s, events, n - 1), events[n - 1]);
      ClockAt(s, events, if i < n then i else n - 1, n - 1);
    }
  }

  /** The last change that the loop learned of is that of event `i`, and no refresh has begun since. */
  predicate LastLearnt(s: State, events: seq<Event>, n: nat, i: nat)
    requires IsRun(s, events)
  {
    && i < n <= |events| && Learns(At(s, events, i), events[i])
    && forall j :: i < j < n ==>
                     && !Learns(At(s, events, j), events[j]) && !Refreshes(At(s, events, j), events[j])
                     && !NewLoop(events[j])
  }

  lemma {:induction false} PendingAt(s: State, events: seq<Event>, n: nat) returns (i: nat)
    requires Init(s) && IsRun(s, events) && n <= |events| && At(s, events, n).timer.pending
    ensures LastLearnt(s, events, n, i) && At(s, events, n).timer.deadline == At(s, events, i).now + s.debounce
    decreases n
  {
    assert n > 0;
    var m := n - 1;
    AtStep(s, events, m);
    RefreshSchedule(At(s, events, m), events[m]);
    ClockAt(s, events, m, m);
    if Learns(At(s, events, m), events[m]) {
      i := m;
    } else {
      i := PendingAt(s, events, m);
    }
  }

  /** Event `i` learned of a change, and until event `n` neither a refresh nor a new loop began. */
  predicate Unanswered(s: State, events: seq<Event>, n: nat, i: nat)
    requires IsRun(s, events)
  {
    && i < n <= |events| && Learns(At(s, events, i), events[i])
    && forall j :: i < j < n ==> !Refreshes(At(s, events, j), events[j]) && !NewLoop(events[j])
  }

  lemma {:induction false} UnansweredAt(s: State, events: seq<Event>, n: nat, i: nat)
    requires IsRun(s, events) && Unanswered(s, events, n, i)
    ensures At(s, events, n).timer.pending
    decreases n
  {
    var m := n - 1;
    AtStep(s, events, m);
    RefreshSchedule(At(s, events, m), events[m]);
    if i < m {
      UnansweredAt(s, events, m, i);
    }
  }

  /**
   Over every run: a refresh is pending if and only if the loop has learned of a change, from a mark
   or from the socket, and neither a refresh nor a new loop has begun since.
   */
  lemma PendingIff(s: State, events: seq<Event>)
    requires Init(s) && IsRun(s, events)
    ensures Final(s, events).timer.pending <==> exists i: nat :: Unanswered(s, events, |events|, i)
  {
    AtEnd(s, events);
    if Final(s, events).timer.pending {
      var i := PendingAt(s, events, |events|);
      assert Unanswered(s, events, |events|, i);
    }
    if i: nat :| Unanswered(s, events, |events|, i) {
      UnansweredAt(s, events, |events|, i);
    }
  }

  /**
   Over every run: a refresh begins only after a change that no refresh has answered, and no earlier
   than the debounce after every change that the loop has ever learned of.
   */
  lemma RefreshesAreDebounced(s: State, events: seq<Event>, e: Event)
    requires Init(s) && IsRun(s, events) && Enabled(Final(s, events), e) && Refreshes(Final(s, events), e)
    ensures exists i: nat :: Unanswered(s, events, |events|, i)
    ensures forall i :: 0 <= i < |events| && Learns(At(s, events, i), events[i]) ==>
              At(s, events, i).now + s.debounce <= Final(s, events).now
  {
    AtEnd(s, events);
    RefreshSchedule(Final(s, events), e);
    PendingIff(s, events);
    var last := PendingAt(s, events, |events|);
    forall i | 0 <= i < |events| && Learns(At(s, events, i), events[i])
      ensures At(s, events, i).now + s.debounce <= Final(s, events).now
    {
      ClockAt(s, events, i, last);
    }
  }

  // ---------------------------------------------------------------- what happens when nothing fails

  lemma {:induction false} RunExtends(s: State, events: seq<Event>, e: Event) returns (longer: seq<Event>)
    requires IsRun(s, events) && Enabled(Final(s, events), e)
    ensures longer == events + [e] && IsRun(s, longer) && Final(s, longer) == Step(Final(s, events), e)
    decreases |events|
  {
    longer := events + [e];
    if events == [] {
      assert longer == [e] && [e][1..] == [];
    } else {
      var rest := RunExtends(Step(s, events[0]), events[1..], e);
      assert longer[1..] == rest;
    }
  }

  lemma StartOpens(s: State) returns (events: seq<Event>)
    requires Lifecycle(s) && s.call.Idle? && s.status.Stopped?
    ensures IsRun(s, events)
    ensures Final(s, events) == s.(status := Starting, device := Device(Some(0), true, true), call := MarkingDirty)
  {
    events := [];
    events := RunExtends(s, events, OfCall(StartCall));
    events := RunExtends(s, events, OfCall(Accept));
    events := RunExtends(s, events, OfCall(MakeEventfd(true)));
    events := RunExtends(s, events, OfCall(OpenNetlink(true)));
    events := RunExtends(s, events, OfCall(InstallHandlers));
  }

  /** A start whose calls succeed ends with a running loop, everything open, a first mark and its wake-up. */
  lemma StartSucceeds(s: State) returns (events: seq<Event>)
    requires Lifecycle(s) && s.call.Idle? && s.status.Stopped?
    ensures IsRun(s, events)
    ensures var end := Final(s, events);
            && end.status.Running? && end.thread.AtTop? && end.call.Idle? && !end.stopRequested
            && end.device == Device(Some(1), true, true) && end.marks.dirty
  {
    events := StartOpens(s);
    events := RunExtends(s, events, OfCall(MarkDirty));
    events := RunExtends(s, events, OfCall(WriteFirst));
    events := RunExtends(s, events, OfCall(StoreRunning));
    events := RunExtends(s, events, OfCall(Spawn(true)));
  }

  /** A stop signals the thread and wakes it out of its poll, unless it is gone already. */
  lemma StopWakesThread(s: State)
    requires Lifecycle(s) && s.call.Signalling?
    ensures var next := CallStep(s, Signal);
            next.stopRequested && (!s.thread.Exited? ==> next.device.wake.Some? && next.device.wake.value > 0)
  {
  }

  /** A mark whose wake-up is written is taken in one round, and the refresh is scheduled. */
  lemma MarkIsTaken(s: State, input: bool) returns (events: seq<Event>)
    requires s.thread.AtTop? && !s.stopRequested && s.status.Running? && WakeCounted(s) && s.marks.dirty
    ensures IsRun(s, events)
    ensures Final(s, events) == s.(thread := WakeDone(false, input), device := s.device.(wake := Some(0)),
                                   marks := s.marks.(dirty := false, taken := s.marks.stores),
                                   timer := Timer(true, s.now + s.debounce))
  {
    events := [];
    events := RunExtends(s, events, OfThread(PollReturns(false, input)));
    events := RunExtends(s, events, OfThread(AfterPoll));
    events := RunExtends(s, events, OfThread(ReadWake));
    events := RunExtends(s, events, OfThread(ReadWake));
    events := RunExtends(s, events, OfThread(Exchange));
  }

  /** And when the debounce is over, the loop refreshes. */
  lemma MarkLeadsToRefresh(s: State) returns (events: seq<Event>)
    requires s.thread.AtTop? && !s.stopRequested && s.status.Running? && WakeCounted(s) && s.marks.dirty
    ensures IsRun(s, events)
    ensures var end := Final(s, events);
            && end.thread.Refreshing? && end.now == s.now + s.debounce
            && end.marks.covered == end.marks.stores == s.marks.stores
  {
    events := MarkIsTaken(s, false);
    events := RunExtends(s, events, OfThread(Netlink(false)));
    events := RunExtends(s, events, Tick(s.debounce));
    events := RunExtends(s, events, OfThread(MaybeRefresh));
  }
}
