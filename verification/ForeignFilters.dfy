/**
 What reconciliation does to filters of other programs. A filter operation looks its interface up
 twice; a reload between the two lookups can make it write to another interface than it asked
 about. Here: exactly which step changes which filter, and that on an interface nobody wants it takes
 such a reload. `ExampleRuns` has a run for either operation in which a foreign filter is lost.
 */
module ForeignFilters {
  import opened Basics
  import opened Policies
  import opened TrafficControl
  import opened Reconciler
  import opened ReconcilerStructure

  predicate MidOperation(w: Worker) {
    w.Hooked? || w.Detaching?
  }

  /** The attacher whose pass is running. */
  function Actor(s: State): Attachment
    requires HasPass(s.worker) && HasAttacher(s, s.worker.pass.request.id)
  {
    s.attachers[s.worker.pass.request.id]
  }

  // ---------------------------------------------------------------- between the two halves

  /**
   Between its halves an operation knows the ifindex that its first lookup found, which the second
   one finds again unless a reload came in between; and an operation that is about to detach has
   seen its own program there, so that no other program sits there.
   */
  ghost predicate OperationInv(s: State) {
    MidOperation(s.worker) ==>
      var w := s.worker;
      && HasAttacher(s, w.pass.request.id)
      && 0 < w.ifindex && w.seen <= s.snapshotVersion
      && (w.seen == s.snapshotVersion ==> w.ifindex == IfIndex(s.snapshot, w.nic))
      && (w.Hooked? <==> Wants(w.pass.policy, w.nic))
      && (w.Detaching? ==> !Foreign(s.tc, w.ifindex, Actor(s).spec, Actor(s).prog))
  }

  lemma OperationWork(s: State, e: WorkEvent)
    requires Structure(s) && OperationInv(s) && WorkEnabled(s, e)
    ensures OperationInv(WorkStep(s, e))
  {
    if e.BeginNic? {
      assert WorkStep(s, e).attachers == s.attachers;
    } else {
      assert !MidOperation(WorkStep(s, e).worker);
    }
  }

  lemma OperationApi(s: State, e: ApiEvent)
    requires Structure(s) && OperationInv(s) && ApiEnabled(s, e)
    ensures OperationInv(ApiStep(s, e))
  {
  }

  lemma OperationMonitor(s: State, e: MonitorEvent)
    requires Structure(s) && OperationInv(s) && MonitorEnabled(s, e)
    ensures OperationInv(MonitorStep(s, e))
  {
  }

  lemma OperationStep(s: State, e: Event)
    requires Structure(s) && OperationInv(s) && Enabled(s, e)
    ensures OperationInv(Step(s, e))
  {
    match e
    case Api(a) => OperationApi(s, a);
    case Work(w) => OperationWork(s, w);
    case Mon(m) => OperationMonitor(s, m);
    case _ =>
  }

  lemma {:induction false} OperationRun(s: State, events: seq<Event>)
    requires Structure(s) && OperationInv(s) && IsRun(s, events)
    ensures Structure(Final(s, events)) && OperationInv(Final(s, events))
    decreases |events|
  {
    if events != [] {
      StructureStep(s, events[0]);
      OperationStep(s, events[0]);
      OperationRun(Step(s, events[0]), events[1..]);
    }
  }

  // ---------------------------------------------------------------- which step changes which filter

  /** The step ends an attach whose second lookup found another program and whose replacing write went through. */
  ghost predicate Replaces(s: State, e: Event, ifindex: int, spec: AttachSpec) {
    && e == Work(EndNic(true, true)) && s.worker.Hooked? && HasAttacher(s, s.worker.pass.request.id)
    && ifindex == s.worker.ifindex && spec == Actor(s).spec
    && 0 < IfIndex(s.snapshot, s.worker.nic)
    && Foreign(s.tc, IfIndex(s.snapshot, s.worker.nic), spec, Actor(s).prog)
  }

  /** The step ends a detach, on the interface that its second lookup finds. */
  ghost predicate Removes(s: State, e: Event, ifindex: int, spec: AttachSpec) {
    && (e == Work(EndNic(true, true)) || e == Work(EndNic(false, true)))
    && s.worker.Detaching? && HasAttacher(s, s.worker.pass.request.id)
    && 0 < ifindex == IfIndex(s.snapshot, s.worker.nic) && spec == Actor(s).spec
  }

  ghost predicate Lost(s: State, e: Event, ifindex: int, spec: AttachSpec)
    requires Enabled(s, e)
  {
    CellAt(Step(s, e).tc, ifindex, spec).filter != CellAt(s.tc, ifindex, spec).filter
  }

  /** A program other than that of the running pass sits in the slot. */
  ghost predicate ForeignToActor(s: State, ifindex: int, spec: AttachSpec) {
    && CellAt(s.tc, ifindex, spec).filter.Some?
    && (HasPass(s.worker) ==> HasAttacher(s, s.worker.pass.request.id) && Foreign(s.tc, ifindex, spec, Actor(s).prog))
  }

  lemma OnlyEndNicWrites(s: State, e: Event)
    requires Enabled(s, e) && !e.LinkGone? && !(e.Work? && e.work.EndNic?)
    ensures Step(s, e).tc.filters == s.tc.filters
  {
  }

  /** The two writes of the second half, and what they cost the filter at (`ifindex`, `spec`). */
  lemma EndNicWrites(tc: Tc, snapshot: Snapshot, a: Attachment, worker: Worker, queryOk: bool, writeOk: bool,
                     ifindex: int, spec: AttachSpec)
    requires ValidTc(tc) && MidOperation(worker) && CellAt(tc, ifindex, spec).filter.Some?
    ensures var after := NicEnded(tc, snapshot, a, worker, queryOk, writeOk).0;
            var target := IfIndex(snapshot, worker.nic);
            CellAt(after, ifindex, spec).filter != CellAt(tc, ifindex, spec).filter
            <==> writeOk && spec == a.spec && 0 < target
                 && (if worker.Hooked?
                     then queryOk && ifindex == worker.ifindex
                          && Foreign(tc, ifindex, spec, a.prog) && Foreign(tc, target, spec, a.prog)
                     else ifindex == target)
  {
    assert ifindex in tc.hooks;
  }

  /**
   Over every run: the filter of another program is lost if and only if its interface goes away, or
   an attach replaces it on the interface that a wanted name meant at the first lookup, or a detach
   removes it from the interface that an unwanted name means at the second. The latter takes a reload
   in between, and so does the former unless the name still means that interface.
   */
  lemma ForeignFilterLostIff(s: State, events: seq<Event>, e: Event, ifindex: int, spec: AttachSpec)
    requires Init(s) && IsRun(s, events) && Enabled(Final(s, events), e)
    requires ForeignToActor(Final(s, events), ifindex, spec)
    ensures var end := Final(s, events);
            && (Lost(end, e, ifindex, spec) <==>
                  e == LinkGone(ifindex) || Replaces(end, e, ifindex, spec) || Removes(end, e, ifindex, spec))
            && (Replaces(end, e, ifindex, spec) ==>
                  && Wants(end.worker.pass.policy, end.worker.nic)
                  && (end.worker.seen == end.snapshotVersion ==> IfIndex(end.snapshot, end.worker.nic) == ifindex))
            && (Removes(end, e, ifindex, spec) ==>
                  && !Wants(end.worker.pass.policy, end.worker.nic)
                  && end.worker.seen < end.snapshotVersion && end.worker.ifindex != ifindex)
  {
    StructureInit(s);
    OperationRun(s, events);
    var end := Final(s, events);
    if e.Work? && e.work.EndNic? {
      EndNicWrites(end.tc, end.snapshot, Actor(end), end.worker, e.work.queryOk, e.work.writeOk, ifindex, spec);
    } else if e.LinkGone? {
      assert Lost(end, e, ifindex, spec) <==> e.ifindex == ifindex;
    } else {
      OnlyEndNicWrites(end, e);
    }
  }

  // ---------------------------------------------------------------- foreign filters on unwanted interfaces

  /** No name that the snapshot has for the interface is wanted by the running pass. */
  ghost predicate Unwanted(s: State, ifindex: int) {
    HasPass(s.worker) ==> forall nic :: IfIndex(s.snapshot, nic) == ifindex ==> !Wants(s.worker.pass.policy, nic)
  }

  /** A reload has come between the two halves of the running operation. */
  predicate Overtaken(s: State) {
    MidOperation(s.worker) && s.worker.seen < s.snapshotVersion
  }

  /**
   Over every run: on an interface that the running pass does not want, another program loses its
   filter if and only if the interface goes away, or an operation writes there after a reload has
   changed the interface that its name means: an attach to the one it meant, a detach from the one it
   means now.
   */
  lemma UnwantedForeignLostIff(s: State, events: seq<Event>, e: Event, ifindex: int, spec: AttachSpec)
    requires Init(s) && IsRun(s, events) && Enabled(Final(s, events), e)
    requires ForeignToActor(Final(s, events), ifindex, spec) && Unwanted(Final(s, events), ifindex)
    ensures var end := Final(s, events);
            && (Lost(end, e, ifindex, spec) <==>
                  e == LinkGone(ifindex) || Replaces(end, e, ifindex, spec) || Removes(end, e, ifindex, spec))
            && (Replaces(end, e, ifindex, spec) || Removes(end, e, ifindex, spec) ==>
                  Overtaken(end) && end.worker.ifindex != IfIndex(end.snapshot, end.worker.nic))
  {
    StructureInit(s);
    OperationRun(s, events);
    ForeignFilterLostIff(s, events, e, ifindex, spec);
  }

  /**
   Through all of the run no pass of the program is running, no operation is overtaken by a reload,
   and the interface stays, unwanted.
   */
  ghost predicate UnwantedAlong(s: State, events: seq<Event>, ifindex: int, prog: nat)
    requires IsRun(s, events)
    decreases |events|
  {
    events != [] ==>
      && (HasPass(s.worker) && HasAttacher(s, s.worker.pass.request.id) ==> Actor(s).prog != prog)
      && Unwanted(s, ifindex) && !Overtaken(s) && events[0] != LinkGone(ifindex)
      && UnwantedAlong(Step(s, events[0]), events[1..], ifindex, prog)
  }

  /** Over every run: a filter that is there at the beginning of such a stretch is there at its end. */
  lemma {:induction false} UnwantedForeignStays(s: State, past: seq<Event>, events: seq<Event>,
                                                ifindex: int, spec: AttachSpec, prog: nat)
    requires Init(s) && IsRun(s, past) && IsRun(Final(s, past), events)
    requires CellAt(Final(s, past).tc, ifindex, spec).filter == Some(prog)
    requires UnwantedAlong(Final(s, past), events, ifindex, prog)
    ensures CellAt(Final(Final(s, past), events).tc, ifindex, spec).filter == Some(prog)
    decreases |events|
  {
    if events != [] {
      var e := events[0];
      StructureInit(s);
      OperationRun(s, past);
      UnwantedForeignLostIff(s, past, e, ifindex, spec);
      RunExtends(s, past, e);
      UnwantedForeignStays(s, past + [e], events[1..], ifindex, spec, prog);
    }
  }
}
