/**
 Concrete runs of the reconciliation system: the inputs on which it does not do what one might
 expect. The exact conditions are stated for all runs in `ReconcilerTheorems` and `ForeignFilters`.
 */
module ExampleRuns {
  import opened Basics
  import opened Policies
  import opened TrafficControl
  import opened ApplyQueues
  import opened Reconciler
  import opened Convergence
  import opened ReconcilerTheorems

  const SLOT := AttachSpec(1, 1, true)

  /** A system that has just been started. */
  function Started(snapshot: Snapshot, tc: Tc): State {
    State(0, [], map[], snapshot, 0, {}, Control(Running, Looping, None), map[], map[], Scanning, tc, Tally(0, 0))
  }

  lemma Extended(s: State, events: seq<Event>, e: Event) returns (longer: seq<Event>)
    requires IsRun(s, events) && Enabled(Final(s, events), e)
    ensures IsRun(s, longer) && Final(s, longer) == Step(Final(s, events), e)
  {
    RunExtends(s, events, e);
    longer := events + [e];
  }

  /** What an API call has published for the only attacher. */
  function WithTarget(s: State, nic: string): State
    requires |s.attachers| == 1
  {
    var live := Mutate(s.attachers[0].live, AddTarget(nic));
    s.(attachers := [s.attachers[0].(live := live, published := ToPolicy(live), version := s.attachers[0].version + 1)])
  }

  function WithRequest(s: State): State {
    s.(queue := Append(s.queue, NewRequest(0, s.now)), tally := s.tally.(submitted := s.tally.submitted + 1))
  }

  lemma PublishTarget(s: State, events: seq<Event>, nic: string) returns (longer: seq<Event>)
    requires IsRun(s, events) && Final(s, events).callers == map[] && |Final(s, events).attachers| == 1
    requires Flags(Final(s, events).attachers[0].live, AddTarget(nic))
    ensures IsRun(s, longer)
    ensures Final(s, longer) == WithTarget(Final(s, events), nic).(callers := map[0 := MustStamp(0)])
  {
    longer := Extended(s, events, Api(EditPolicy(0, 0, AddTarget(nic))));
    assert Final(s, longer).callers == map[0 := MustPublish(0)];
    longer := Extended(s, longer, Api(Publish(0)));
  }

  lemma SubmitRequest(s: State, events: seq<Event>) returns (longer: seq<Event>)
    requires IsRun(s, events) && Final(s, events).callers == map[0 := MustStamp(0)]
    ensures IsRun(s, longer) && Final(s, longer) == WithRequest(Final(s, events)).(callers := map[])
  {
    longer := Extended(s, events, Api(Stamp(0)));
    assert Final(s, longer).callers == map[0 := MustAppend(NewRequest(0, Final(s, events).now))];
    longer := Extended(s, longer, Api(Submit(0)));
  }

  lemma AddTargetCall(s: State, events: seq<Event>, nic: string) returns (longer: seq<Event>)
    requires IsRun(s, events) && Final(s, events).callers == map[] && |Final(s, events).attachers| == 1
    requires Flags(Final(s, events).attachers[0].live, AddTarget(nic))
    ensures IsRun(s, longer) && Final(s, longer) == WithRequest(WithTarget(Final(s, events), nic))
  {
    longer := PublishTarget(s, events, nic);
    longer := SubmitRequest(s, longer);
  }

  function Created(s: State): State {
    var leftovers := Attached(s.tc, s.snapshot, SLOT, 7);
    s.(attachers := [Attachment(SLOT, 7, INITIAL_LIVE, INITIAL_POLICY, 0, leftovers, 0, 0, NeverRun)])
  }

  lemma CreateCall(snapshot: Snapshot, tc: Tc) returns (events: seq<Event>)
    ensures IsRun(Started(snapshot, tc), events)
    ensures Final(Started(snapshot, tc), events) == Created(Started(snapshot, tc))
  {
    events := Extended(Started(snapshot, tc), [], Api(CreateAttacher(SLOT, 7)));
  }

  /** The worker takes the request and reads policy and snapshot. */
  lemma PassBegins(s: State, events: seq<Event>) returns (longer: seq<Event>)
    requires IsRun(s, events)
    requires var now := Final(s, events);
             && now.queue == map[0 := NewRequest(0, now.now)] && now.ready == map[] && now.worker == Scanning
             && now.control.restartAt.None? && |now.attachers| == 1
    ensures IsRun(s, longer)
    ensures var before, end := Final(s, events), Final(s, longer);
            var a := before.attachers[0];
            var read := a.(readVersion := a.version, readSnapshot := before.snapshotVersion, outcome := InPass);
            end == before.(queue := map[], attachers := [read],
                           worker := Passing(Pass(NewRequest(0, before.now), a.published, a.version, before.snapshot,
                                                  before.snapshotVersion, before.snapshot.Keys, true)))
  {
    var before := Final(s, events);
    assert 0 in DueRequests(before.queue, before.now);
    assert DueRequests(before.queue, before.now) == map[0 := NewRequest(0, before.now)];
    assert NotDue(before.queue, before.now) == map[];
    longer := Extended(s, events, Work(ScanQueue));
    longer := Extended(s, longer, Work(Pick(0)));
    assert Final(s, longer).ready == map[];
    longer := Extended(s, longer, Work(ReadPolicy));
    longer := Extended(s, longer, Work(ReadSnapshot));
  }

  /** An attacher of program 7 is created and asked for `nic`, and its pass begins. */
  lemma FirstPass(snapshot: Snapshot, tc: Tc, nic: string) returns (events: seq<Event>)
    ensures IsRun(Started(snapshot, tc), events)
    ensures var end := Final(Started(snapshot, tc), events);
            && |end.attachers| == 1 && end.attachers[0].spec == SLOT && end.attachers[0].prog == 7
            && end.attachers[0].live == Live(AttachSelective, {nic})
            && end.attachers[0].version == end.attachers[0].readVersion == 1
            && end.worker == Passing(Pass(NewRequest(0, 0), Policy({nic}, false), 1, snapshot, 0, snapshot.Keys, true))
            && end == Started(snapshot, tc).(attachers := end.attachers, worker := end.worker, tally := end.tally)
  {
    events := CreateCall(snapshot, tc);
    events := AddTargetCall(Started(snapshot, tc), events, nic);
    assert Final(Started(snapshot, tc), events).queue == map[0 := NewRequest(0, 0)];
    events := PassBegins(Started(snapshot, tc), events);
  }

  // ---------------------------------------------------------------- leftover filters

  /** A run that ends quiescent and not converged: the program was in the slot before the attacher was created. */
  lemma LeftoverFilterStays() returns (s: State, events: seq<Event>)
    ensures Init(s) && IsRun(s, events)
    ensures var end := Final(s, events);
            && Quiescent(end) && DistinctSlots(end) && HasAttacher(end, 0)
            && !Converged(end, end.attachers[0], ToPolicy(end.attachers[0].live))
  {
    var snapshot: Snapshot, tc := map["eth0" := 2], Tc({2}, map[(2, SLOT) := 7]);
    s := Started(snapshot, tc);
    events := CreateCall(snapshot, tc);
    var end := Final(s, events);
    assert Present(end, "eth0") && Holds(end.tc, end.attachers[0], end.snapshot["eth0"]);
    assert !Wants(ToPolicy(end.attachers[0].live), "eth0");
  }

  // ---------------------------------------------------------------- foreign filters

  /** The pass over `eth0`, on ifindex 2, comes to the first half of its operation. */
  lemma OperationBegins(tc: Tc, target: string) returns (events: seq<Event>)
    requires 2 in tc.hooks
    ensures IsRun(Started(map["eth0" := 2], tc), events)
    ensures var end := Final(Started(map["eth0" := 2], tc), events);
            && |end.attachers| == 1 && end.attachers[0].spec == SLOT && end.attachers[0].prog == 7
            && end.attachers[0].live == Live(AttachSelective, {target})
            && end.control == Control(Running, Looping, None) && end.tc == tc
            && var pass := Pass(NewRequest(0, 0), Policy({target}, false), 1, map["eth0" := 2], 0, {}, true);
            && (target == "eth0" ==> end.worker == Hooked(pass, "eth0", 2, 0))
            && (target != "eth0" && CellAt(tc, 2, SLOT).filter == Some(7) ==>
                  end.worker == Detaching(pass, "eth0", 2, 0))
  {
    var s := Started(map["eth0" := 2], tc);
    events := FirstPass(map["eth0" := 2], tc, target);
    assert tc.hooks + {2} == tc.hooks;
    assert s.snapshot.Keys - {"eth0"} == {};
    events := Extended(s, events, Work(BeginNic("eth0", true)));
  }

  /** A reload comes before the second half, whose calls succeed, and the pass ends. */
  lemma OvertakenPass(s: State, events: seq<Event>, snapshot: Snapshot) returns (longer: seq<Event>)
    requires IsRun(s, events) && ValidSnapshot(snapshot)
    requires var now := Final(s, events);
             && |now.attachers| == 1 && now.control.monitor.Looping? && (now.worker.Hooked? || now.worker.Detaching?)
             && now.worker.pass.todo == {} && now.worker.pass.request.id == 0
    ensures IsRun(s, longer)
    ensures var before, end := Final(s, events), Final(s, longer);
            var (tc, pass) := NicEnded(before.tc, snapshot, before.attachers[0], before.worker, true, true);
            && end.tc == tc && end.snapshot == snapshot
            && end.attachers == [before.attachers[0].(outcome := PassVerdict(pass))]
  {
    longer := Extended(s, events, Mon(Refresh(snapshot)));
    longer := Extended(s, longer, Work(EndNic(true, true)));
    longer := Extended(s, longer, Work(FinishPass));
  }

  /**
   Program 7 has a filter left on ifindex 2, where `eth0` is, and program 99 uses the same slot on
   ifindex 3. The reload that moves `eth0` there between query and detach costs 99 its filter,
   although no attacher wants that interface, and the pass counts as successful.
   */
  lemma MovedDetachTakesForeignFilter() returns (s: State, events: seq<Event>)
    ensures Init(s) && IsRun(s, events)
    ensures var end := Final(s, events);
            && (3, SLOT) in s.tc.filters && s.tc.filters[(3, SLOT)] == 99 && (3, SLOT) !in end.tc.filters
            && |end.attachers| == 1 && end.attachers[0].prog == 7 && end.attachers[0].outcome == Succeeded
            && end.snapshot == map["eth0" := 3] && end.attachers[0].live == Live(AttachSelective, {"eth1"})
  {
    s := Started(map["eth0" := 2], Tc({2, 3}, map[(2, SLOT) := 7, (3, SLOT) := 99]));
    events := OperationBegins(s.tc, "eth1");
    events := OvertakenPass(s, events, map["eth0" := 3]);
  }

  /**
   Program 99 sits in the slot on ifindex 2, where the wanted `eth0` is, and 98 on ifindex 3. A
   reload between hook and query moves `eth0` to ifindex 3 and gives ifindex 2 to `eth1`. The query
   finds 98, so the attach replaces, and it replaces 99 on the unwanted `eth1`.
   */
  lemma MovedAttachTakesForeignFilter() returns (s: State, events: seq<Event>)
    ensures Init(s) && IsRun(s, events)
    ensures var end := Final(s, events);
            && s.tc.filters == map[(2, SLOT) := 99, (3, SLOT) := 98]
            && end.tc.filters == map[(2, SLOT) := 7, (3, SLOT) := 98]
            && |end.attachers| == 1 && end.attachers[0].prog == 7 && end.attachers[0].outcome == Succeeded
            && end.snapshot == map["eth0" := 3, "eth1" := 2] && end.attachers[0].live == Live(AttachSelective, {"eth0"})
  {
    s := Started(map["eth0" := 2], Tc({2, 3}, map[(2, SLOT) := 99, (3, SLOT) := 98]));
    events := OperationBegins(s.tc, "eth0");
    ReplacesWhereItWas(s.tc);
    events := OvertakenPass(s, events, map["eth0" := 3, "eth1" := 2]);
  }

  lemma ReplacesWhereItWas(tc: Tc)
    requires tc == Tc({2, 3}, map[(2, SLOT) := 99, (3, SLOT) := 98])
    ensures FinishAttach(tc, map["eth0" := 3, "eth1" := 2], "eth0", 2, SLOT, 7, true, true)
         == (Tc({2, 3}, map[(2, SLOT) := 7, (3, SLOT) := 98]), true)
  {
    assert tc.filters[(2, SLOT) := 7] == map[(2, SLOT) := 7, (3, SLOT) := 98];
  }

  // ---------------------------------------------------------------- same-time retries

  /**
   While a pass runs, a second call queues a fresh, immediate request in the same clock tick. The
   pass fails, and its retry displaces that request: the new target now waits half a second.
   */
  lemma SameTimeRetryDelaysFresh() returns (s: State, before: seq<Event>, events: seq<Event>)
    ensures Init(s) && IsRun(s, before) && IsRun(s, events)
    ensures Enabled(Final(s, before), Work(FinishPass)) && events == before + [Work(FinishPass)]
    ensures var mid, end := Final(s, before), Final(s, events);
            && mid.queue == map[0 := NewRequest(0, 0)] && IsDue(mid.queue[0], mid.now)
            && end.queue == map[0 := Retry(NewRequest(0, 0))] && !IsDue(end.queue[0], end.now)
            && Deadline(end.queue[0]) == end.now + 500
            && |end.attachers| == 1 && end.attachers[0].readVersion < end.attachers[0].version
  {
    s, before := FailedPass();
    RunExtends(s, before, Work(FinishPass));
    events := before + [Work(FinishPass)];
  }

  lemma FailedPass() returns (s: State, events: seq<Event>)
    ensures Init(s) && IsRun(s, events)
    ensures var end := Final(s, events);
            && end.now == 0 && end.queue == map[0 := NewRequest(0, 0)] && end.worker.Passing?
            && |end.attachers| == 1 && end.attachers[0].readVersion < end.attachers[0].version
            && end.worker.pass.request == NewRequest(0, 0) && end.worker.pass.todo == {} && !end.worker.pass.ok
  {
    var snapshot: Snapshot, tc := map["eth0" := 2], Tc({}, map[]);
    s := Started(snapshot, tc);
    events := FirstPass(snapshot, tc, "eth0");
    events := AddTargetCall(s, events, "eth1");
    assert Final(s, events).queue == map[0 := NewRequest(0, 0)];
    assert snapshot.Keys - {"eth0"} == {};
    events := Extended(s, events, Work(BeginNic("eth0", false)));
  }
}
