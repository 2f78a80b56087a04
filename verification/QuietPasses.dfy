/**
 Passes during which nothing is reloaded and no interface is lost, with whatever else happens in
 between: such a pass fails exactly if a kernel call that it really makes fails, and if none does it
 is precisely the declarative update of the table it began with.
 */
module QuietPasses {
  import opened Basics
  import opened Policies
  import opened TrafficControl
  import opened Reconciler
  import opened ReconcilerStructure
  import opened ForeignFilters

  /** What the policy makes of one cell. */
  function Target(cell: Cell, wanted: bool, prog: nat): Cell {
    if wanted then Cell(true, Some(prog)) else if cell.filter == Some(prog) then cell.(filter := None) else cell
  }

  /** How far the running pass has brought the cell of `nic` from what it was before the pass. */
  ghost predicate CellSoFar(before: Cell, now: Cell, nic: string, worker: Worker, prog: nat)
    requires HasPass(worker)
  {
    var wanted := Wants(worker.pass.policy, nic);
    if nic in InFlight(worker) then now == (if worker.Hooked? then before.(hooked := true) else before)
                                    && (worker.Hooked? <==> wanted) && (worker.Detaching? ==> now.filter == Some(prog))
    else if nic in worker.pass.todo then now == before
    else
      && (worker.pass.ok ==> now == Target(before, wanted, prog))
      && (!wanted ==> now == before || now == Target(before, false, prog))
  }

  /** What `tc` has for the running pass on an interface of the snapshot. */
  function OwnCell(s: State, tc: Tc, nic: string): Cell
    requires nic in s.snapshot && HasPass(s.worker) && HasAttacher(s, s.worker.pass.request.id)
  {
    CellAt(tc, s.snapshot[nic], Actor(s).spec)
  }

  ghost predicate NicSoFar(before: Tc, s: State, nic: string)
    requires nic in s.snapshot && HasPass(s.worker) && HasAttacher(s, s.worker.pass.request.id)
  {
    CellSoFar(OwnCell(s, before, nic), OwnCell(s, s.tc, nic), nic, s.worker, Actor(s).prog)
  }

  /** The running pass reads the current snapshot and has so far made this of the table it began with. */
  ghost predicate PassSoFar(before: Tc, s: State) {
    && HasPass(s.worker) && HasAttacher(s, s.worker.pass.request.id)
    && s.worker.pass.snapshotVersion == s.snapshotVersion && s.worker.pass.snapshot == s.snapshot
    && SameElsewhere(before, s.tc, Actor(s).spec)
    && (forall ifindex: int :: ifindex !in s.snapshot.Values ==>
                                 CellAt(s.tc, ifindex, Actor(s).spec) == CellAt(before, ifindex, Actor(s).spec))
    && (forall nic :: nic in s.snapshot ==> NicSoFar(before, s, nic))
    && (MidOperation(s.worker) ==> s.worker.nic in s.snapshot && s.worker.ifindex == s.snapshot[s.worker.nic])
  }

  /** Neither a reload nor a lost interface, and the pass goes on. */
  predicate Quiet(e: Event) {
    !(e.Mon? && e.mon.Refresh?) && !e.LinkGone? && e != Work(FinishPass)
  }

  predicate QuietRun(events: seq<Event>) {
    forall i :: 0 <= i < |events| ==> Quiet(events[i])
  }

  /** Cells of other interfaces are the same. */
  ghost predicate SameBut(before: Tc, after: Tc, ifindex: int, spec: AttachSpec) {
    forall other: int :: other != ifindex ==> CellAt(after, other, spec) == CellAt(before, other, spec)
  }

  lemma BeginCell(tc: Tc, snapshot: Snapshot, seen: nat, a: Attachment, pass: Pass, nic: string, ok: bool)
    requires ValidTc(tc) && ValidSnapshot(snapshot) && nic in snapshot
    ensures var (after, worker) := NicBegun(tc, snapshot, seen, a, pass, nic, ok);
            var cell := CellAt(tc, snapshot[nic], a.spec);
            && SameElsewhere(tc, after, a.spec)
            && SameBut(tc, after, snapshot[nic], a.spec)
            && HasPass(worker) && worker.pass == pass.(todo := pass.todo - {nic}, ok := worker.pass.ok)
            && (worker.pass.ok ==> pass.ok)
            && InFlight(worker) == (if MidOperation(worker) then {nic} else {})
            && (MidOperation(worker) ==> worker.nic == nic && worker.ifindex == snapshot[nic])
            && CellAt(after, snapshot[nic], a.spec) == (if worker.Hooked? then cell.(hooked := true) else cell)
            && (MidOperation(worker) ==> (worker.Hooked? <==> Wants(pass.policy, nic)))
            && (worker.Detaching? ==> cell.filter == Some(a.prog))
            && (worker.Passing? && worker.pass.ok ==> cell == Target(cell, Wants(pass.policy, nic), a.prog))
  {
  }

  /** The second half leaves the cell or brings it to its target, and does the latter if all is well. */
  predicate Settles(before: Cell, after: Cell, worker: Worker, ok: bool, prog: nat) {
    (after == before && !ok) || after == Target(before, worker.Hooked?, prog)
  }

  lemma EndCell(tc: Tc, snapshot: Snapshot, a: Attachment, worker: Worker, queryOk: bool, writeOk: bool)
    requires ValidTc(tc) && ValidSnapshot(snapshot) && MidOperation(worker)
    requires worker.nic in snapshot && worker.ifindex == snapshot[worker.nic]
    requires if worker.Hooked? then CellAt(tc, worker.ifindex, a.spec).hooked
             else CellAt(tc, worker.ifindex, a.spec).filter == Some(a.prog)
    ensures var (after, pass) := NicEnded(tc, snapshot, a, worker, queryOk, writeOk);
            var cell := CellAt(tc, worker.ifindex, a.spec);
            && SameElsewhere(tc, after, a.spec)
            && SameBut(tc, after, worker.ifindex, a.spec)
            && pass == worker.pass.(ok := pass.ok) && (pass.ok ==> worker.pass.ok)
            && Settles(cell, CellAt(after, worker.ifindex, a.spec), worker, pass.ok, a.prog)
  {
  }

  lemma SoFarBegin(before: Tc, s: State, nic: string, ok: bool)
    requires Structure(s) && PassSoFar(before, s) && WorkEnabled(s, BeginNic(nic, ok))
    ensures PassSoFar(before, WorkStep(s, BeginNic(nic, ok)))
  {
    BeginCell(s.tc, s.snapshot, s.snapshotVersion, Actor(s), s.worker.pass, nic, ok);
    var next := WorkStep(s, BeginNic(nic, ok));
    forall other | other in s.snapshot
      ensures NicSoFar(before, next, other)
    {
      assert NicSoFar(before, s, other);
    }
  }

  lemma SoFarEnd(before: Tc, s: State, queryOk: bool, writeOk: bool)
    requires Structure(s) && PassSoFar(before, s) && WorkEnabled(s, EndNic(queryOk, writeOk))
    ensures PassSoFar(before, WorkStep(s, EndNic(queryOk, writeOk)))
  {
    assert NicSoFar(before, s, s.worker.nic);
    EndCell(s.tc, s.snapshot, Actor(s), s.worker, queryOk, writeOk);
    var (after, pass) := NicEnded(s.tc, s.snapshot, Actor(s), s.worker, queryOk, writeOk);
    SoFarSettled(before, s, after, pass);
  }

  lemma SoFarSettled(before: Tc, s: State, after: Tc, pass: Pass)
    requires PassSoFar(before, s) && MidOperation(s.worker) && ValidSnapshot(s.snapshot)
    requires s.worker.nic !in s.worker.pass.todo
    requires SameElsewhere(s.tc, after, Actor(s).spec)
    requires SameBut(s.tc, after, s.worker.ifindex, Actor(s).spec)
    requires pass == s.worker.pass.(ok := pass.ok) && (pass.ok ==> s.worker.pass.ok)
    requires Settles(OwnCell(s, s.tc, s.worker.nic), OwnCell(s, after, s.worker.nic), s.worker, pass.ok, Actor(s).prog)
    ensures PassSoFar(before, s.(tc := after, worker := Passing(pass)))
  {
    var next := s.(tc := after, worker := Passing(pass));
    forall other | other in s.snapshot
      ensures NicSoFar(before, next, other)
    {
      assert NicSoFar(before, s, other);
    }
  }

  /** Steps that leave the pass, the snapshot and the table alone. */
  lemma SoFarElsewhere(before: Tc, s: State, next: State)
    requires PassSoFar(before, s)
    requires next.tc == s.tc && next.worker == s.worker
    requires next.snapshot == s.snapshot && next.snapshotVersion == s.snapshotVersion
    requires KeepsSlots(s.attachers, next.attachers)
    ensures PassSoFar(before, next)
  {
    forall nic | nic in next.snapshot
      ensures NicSoFar(before, next, nic)
    {
      assert NicSoFar(before, s, nic);
    }
  }

  lemma SoFarApi(before: Tc, s: State, e: ApiEvent)
    requires PassSoFar(before, s) && ApiEnabled(s, e)
    ensures PassSoFar(before, ApiStep(s, e))
  {
    SoFarElsewhere(before, s, ApiStep(s, e));
  }

  lemma SoFarStep(before: Tc, s: State, e: Event)
    requires Structure(s) && PassSoFar(before, s) && Enabled(s, e) && Quiet(e)
    ensures PassSoFar(before, Step(s, e))
  {
    match e
    case Api(a) => SoFarApi(before, s, a);
    case Work(w) =>
      if w.BeginNic? {
        SoFarBegin(before, s, w.nic, w.ok);
      } else {
        assert w.EndNic?;
        SoFarEnd(before, s, w.queryOk, w.writeOk);
      }
    case Mon(m) => SoFarElsewhere(before, s, MonitorStep(s, m));
    case Tick(_) => SoFarElsewhere(before, s, Step(s, e));
    case _ => assert false;
  }

  lemma {:induction false} SoFarRun(before: Tc, s: State, events: seq<Event>)
    requires Structure(s) && PassSoFar(before, s) && IsRun(s, events) && QuietRun(events)
    ensures Structure(Final(s, events)) && PassSoFar(before, Final(s, events))
    decreases |events|
  {
    if events != [] {
      StructureStep(s, events[0]);
      SoFarStep(before, s, events[0]);
      SoFarRun(before, Step(s, events[0]), events[1..]);
    }
  }

  lemma SoFarDeclared(before: Tc, s: State)
    requires PassSoFar(before, s) && WorkEnabled(s, FinishPass) && s.worker.pass.ok
    ensures Declared(before, s.tc, s.snapshot, s.worker.pass.policy, Actor(s).spec, Actor(s).prog)
  {
    forall nic | nic in s.snapshot
      ensures OwnCell(s, s.tc, nic) == Target(OwnCell(s, before, nic), Wants(s.worker.pass.policy, nic), Actor(s).prog)
    {
      assert NicSoFar(before, s, nic);
    }
  }

  lemma PassStarts(s: State)
    requires Structure(s) && WorkEnabled(s, ReadSnapshot)
    ensures var start := WorkStep(s, ReadSnapshot);
            Structure(start) && PassSoFar(s.tc, start) && start.worker.pass.ok
  {
    StructureReadSnapshot(s);
  }

  /** Where the policy does not want it and another program sits, the table is as it was. */
  ghost predicate ForeignSpared(before: Tc, after: Tc, snapshot: Snapshot, policy: Policy,
                                spec: AttachSpec, prog: nat)
  {
    forall nic :: nic in snapshot && !Wants(policy, nic) && Foreign(before, snapshot[nic], spec, prog) ==>
                    CellAt(after, snapshot[nic], spec) == CellAt(before, snapshot[nic], spec)
  }

  /**
   Over every run: take a reachable state in which the worker reads the snapshot for a pass, and any
   continuation in which no reload is published and no interface is lost until that pass has visited
   everything, with whatever else happens in between. If no call failed, the table is the declarative
   update of the one the pass began with; and if some did, filters of other programs on interfaces it
   does not want are still untouched.
   */
  lemma PassWithoutReloadIsDeclared(s: State, past: seq<Event>, events: seq<Event>)
    requires Init(s) && IsRun(s, past) && WorkEnabled(Final(s, past), ReadSnapshot)
    requires IsRun(WorkStep(Final(s, past), ReadSnapshot), events) && QuietRun(events)
    requires WorkEnabled(Final(WorkStep(Final(s, past), ReadSnapshot), events), FinishPass)
    ensures var begin, end := Final(s, past), Final(WorkStep(Final(s, past), ReadSnapshot), events);
            var p, a := end.worker.pass, Actor(end);
            && p.snapshot == begin.snapshot == end.snapshot
            && (p.ok ==> Declared(begin.tc, end.tc, begin.snapshot, p.policy, a.spec, a.prog))
            && ForeignSpared(begin.tc, end.tc, begin.snapshot, p.policy, a.spec, a.prog)
  {
    StructureInit(s);
    OperationRun(s, past);
    var begin := Final(s, past);
    var start := WorkStep(begin, ReadSnapshot);
    PassStarts(begin);
    SoFarRun(begin.tc, start, events);
    var end := Final(start, events);
    SnapshotStays(start, events);
    if end.worker.pass.ok {
      SoFarDeclared(begin.tc, end);
    }
    SoFarSpares(begin.tc, end);
  }

  lemma SoFarSpares(before: Tc, s: State)
    requires PassSoFar(before, s) && WorkEnabled(s, FinishPass)
    ensures ForeignSpared(before, s.tc, s.snapshot, s.worker.pass.policy, Actor(s).spec, Actor(s).prog)
  {
    forall nic | nic in s.snapshot && !Wants(s.worker.pass.policy, nic)
                 && Foreign(before, s.snapshot[nic], Actor(s).spec, Actor(s).prog)
      ensures OwnCell(s, s.tc, nic) == OwnCell(s, before, nic)
    {
      assert NicSoFar(before, s, nic);
    }
  }

  lemma {:induction false} SnapshotStays(s: State, events: seq<Event>)
    requires IsRun(s, events) && QuietRun(events)
    ensures Final(s, events).snapshot == s.snapshot
    decreases |events|
  {
    if events != [] {
      SnapshotStep(s, events[0]);
      SnapshotStays(Step(s, events[0]), events[1..]);
    }
  }

  lemma SnapshotStep(s: State, e: Event)
    requires Enabled(s, e) && Quiet(e)
    ensures Step(s, e).snapshot == s.snapshot
  {
  }

  // ---------------------------------------------------------------- success

  /** The kernel calls that the step really makes succeed. */
  ghost predicate CallsSucceed(s: State, e: Event) {
    match e
    case Work(BeginNic(_, ok)) => ok
    case Work(EndNic(queryOk, writeOk)) =>
      && (s.worker.Hooked? && HasAttacher(s, s.worker.pass.request.id) ==>
            queryOk && (CellAt(s.tc, s.worker.ifindex, Actor(s).spec).filter == Some(Actor(s).prog) || writeOk))
      && (s.worker.Detaching? ==> writeOk)
    case _ => true
  }

  lemma OkBegin(before: Tc, s: State, nic: string, ok: bool)
    requires Structure(s) && PassSoFar(before, s) && WorkEnabled(s, BeginNic(nic, ok))
    ensures HasPass(WorkStep(s, BeginNic(nic, ok)).worker)
    ensures WorkStep(s, BeginNic(nic, ok)).worker.pass.ok <==> s.worker.pass.ok && ok
  {
    assert IfIndex(s.snapshot, nic) == s.snapshot[nic];
  }

  lemma OkEnd(before: Tc, s: State, queryOk: bool, writeOk: bool)
    requires Structure(s) && PassSoFar(before, s) && WorkEnabled(s, EndNic(queryOk, writeOk))
    ensures WorkStep(s, EndNic(queryOk, writeOk)).worker.pass.ok
       <==> s.worker.pass.ok && CallsSucceed(s, Work(EndNic(queryOk, writeOk)))
  {
    assert NicSoFar(before, s, s.worker.nic);
    EndReports(s.tc, s.snapshot, Actor(s), s.worker, queryOk, writeOk);
  }

  lemma EndReports(tc: Tc, snapshot: Snapshot, a: Attachment, worker: Worker, queryOk: bool, writeOk: bool)
    requires ValidTc(tc) && MidOperation(worker) && 0 < worker.ifindex == IfIndex(snapshot, worker.nic)
    requires worker.ifindex in tc.hooks
    ensures NicEnded(tc, snapshot, a, worker, queryOk, writeOk).1.ok
       <==> worker.pass.ok
            && if worker.Hooked? then queryOk && (CellAt(tc, worker.ifindex, a.spec).filter == Some(a.prog) || writeOk)
               else writeOk
  {
  }

  lemma OkStep(before: Tc, s: State, e: Event)
    requires Structure(s) && PassSoFar(before, s) && Enabled(s, e) && Quiet(e)
    ensures HasPass(Step(s, e).worker)
    ensures Step(s, e).worker.pass.ok <==> s.worker.pass.ok && CallsSucceed(s, e)
  {
    match e
    case Work(BeginNic(nic, ok)) => OkBegin(before, s, nic, ok);
    case Work(EndNic(queryOk, writeOk)) => OkEnd(before, s, queryOk, writeOk);
    case Work(_) => assert false;
    case Start(_) => assert false;
    case _ =>
  }

  lemma {:induction false} OkRun(before: Tc, s: State, events: seq<Event>)
    requires Structure(s) && PassSoFar(before, s) && IsRun(s, events) && QuietRun(events)
    ensures HasPass(Final(s, events).worker)
    ensures Final(s, events).worker.pass.ok
       <==> s.worker.pass.ok && forall i :: 0 <= i < |events| ==> CallsSucceed(At(s, events, i), events[i])
    decreases |events|
  {
    if events != [] {
      var e, rest := events[0], events[1..];
      StructureStep(s, e);
      SoFarStep(before, s, e);
      OkStep(before, s, e);
      OkRun(before, Step(s, e), rest);
      assert At(s, events, 0) == s;
      assert forall i :: 0 <= i < |rest| ==>
                           At(s, events, i + 1) == At(Step(s, e), rest, i) && events[i + 1] == rest[i];
    }
  }

  /**
   Over every run: such a pass comes to its end without a failure if and only if every kernel call
   that it really made succeeded, and then it counts as succeeded and queues nothing.
   */
  lemma QuietPassSucceedsIff(s: State, past: seq<Event>, events: seq<Event>)
    requires Init(s) && IsRun(s, past) && WorkEnabled(Final(s, past), ReadSnapshot)
    requires IsRun(WorkStep(Final(s, past), ReadSnapshot), events) && QuietRun(events)
    requires WorkEnabled(Final(WorkStep(Final(s, past), ReadSnapshot), events), FinishPass)
    ensures var start := WorkStep(Final(s, past), ReadSnapshot);
            var end := Final(start, events);
            var next := WorkStep(end, FinishPass);
            && (next.attachers[end.worker.pass.request.id].outcome.Succeeded?
                <==> forall i :: 0 <= i < |events| ==> CallsSucceed(At(start, events, i), events[i]))
            && (next.attachers[end.worker.pass.request.id].outcome.Succeeded? ==> next.queue == end.queue)
  {
    StructureInit(s);
    OperationRun(s, past);
    PassStarts(Final(s, past));
    OkRun(Final(s, past).tc, WorkStep(Final(s, past), ReadSnapshot), events);
    FinishReports(Final(WorkStep(Final(s, past), ReadSnapshot), events));
  }

  lemma FinishReports(s: State)
    requires WorkEnabled(s, FinishPass)
    ensures var next := WorkStep(s, FinishPass);
            && (next.attachers[s.worker.pass.request.id].outcome.Succeeded? <==> s.worker.pass.ok)
            && (s.worker.pass.ok ==> next.queue == s.queue)
  {
  }

  /** In particular it succeeds if all calls do, on whatever table it began with. */
  lemma CleanPassSucceeds(s: State, past: seq<Event>, events: seq<Event>)
    requires Init(s) && IsRun(s, past) && WorkEnabled(Final(s, past), ReadSnapshot)
    requires IsRun(WorkStep(Final(s, past), ReadSnapshot), events) && QuietRun(events)
    requires WorkEnabled(Final(WorkStep(Final(s, past), ReadSnapshot), events), FinishPass)
    requires forall i :: 0 <= i < |events| ==>
               && (events[i].Work? && events[i].work.BeginNic? ==> events[i].work.ok)
               && (events[i].Work? && events[i].work.EndNic? ==> events[i] == Work(EndNic(true, true)))
    ensures var end := Final(WorkStep(Final(s, past), ReadSnapshot), events);
            && end.worker.pass.ok
            && WorkStep(end, FinishPass).attachers[end.worker.pass.request.id].outcome == Succeeded
  {
    QuietPassSucceedsIff(s, past, events);
  }
}
