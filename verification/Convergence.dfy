/**
 Quiescent convergence: once nothing is in flight, the TC table of every interface in the current
 snapshot agrees with the live policy of every attacher, unless that attacher's last pass gave up
 on exactly this policy and this snapshot.
 */
module Convergence {
  import opened Basics
  import opened Policies
  import opened TrafficControl
  import opened Reconciler
  import opened ReconcilerStructure

  /** The code does not arbitrate between attachers that share a slot. */
  ghost predicate DistinctSlots(s: State) {
    forall i, j :: 0 <= i < j < |s.attachers| ==> s.attachers[i].spec != s.attachers[j].spec
  }

  predicate Holds(tc: Tc, a: Attachment, ifindex: int) {
    CellAt(tc, ifindex, a.spec).filter == Some(a.prog)
  }

  /** An interface of the snapshot that the kernel has not lost since. */
  predicate Present(s: State, nic: string) {
    nic in s.snapshot && s.snapshot[nic] !in s.dropped
  }

  ghost predicate Converged(s: State, a: Attachment, policy: Policy) {
    forall nic :: Present(s, nic) ==> (Holds(s.tc, a, s.snapshot[nic]) <==> Wants(policy, nic))
  }

  /** The pass read what is published now. */
  ghost predicate UpToDate(s: State, p: Pass) {
    && HasAttacher(s, p.request.id)
    && p.version == s.attachers[p.request.id].version
    && p.snapshotVersion == s.snapshotVersion
  }

  /** A pass that is up to date and has not failed yet has settled every interface it is done with. */
  ghost predicate PassInv(s: State) {
    HasPass(s.worker) && UpToDate(s, s.worker.pass) ==>
      var p := s.worker.pass;
      var a := s.attachers[p.request.id];
      && (p.ok ==> forall nic :: Present(s, nic) && nic !in p.todo && nic !in InFlight(s.worker) ==>
                                   (Holds(s.tc, a, s.snapshot[nic]) <==> Wants(p.policy, nic)))
      && (s.worker.Hooked? ==>
            Wants(p.policy, s.worker.nic) && s.worker.nic in s.snapshot && s.worker.ifindex == s.snapshot[s.worker.nic])
      && (s.worker.Detaching? ==> !Wants(p.policy, s.worker.nic))
  }

  ghost predicate AttachmentInv(s: State, a: Attachment) {
    && (a.outcome.Succeeded? && a.readVersion == a.version && a.readSnapshot == s.snapshotVersion
        ==> Converged(s, a, a.published))
    && (a.outcome.NeverRun? && a.readSnapshot == s.snapshotVersion
        ==> forall nic :: Present(s, nic) ==> (Holds(s.tc, a, s.snapshot[nic]) <==> nic in a.leftovers))
  }

  ghost predicate ConvergenceInv(s: State) {
    DistinctSlots(s) ==>
      && PassInv(s)
      && forall i :: 0 <= i < |s.attachers| ==> AttachmentInv(s, s.attachers[i])
  }

  // ---------------------------------------------------------------- what one interface's calls change

  /** Filters outside `spec` stay, and so do those of `spec` outside `ifindex`. */
  ghost predicate ChangesOnly(before: Tc, after: Tc, ifindex: int, spec: AttachSpec) {
    forall other: int, otherSpec :: other != ifindex || otherSpec != spec ==>
                                      CellAt(after, other, otherSpec).filter == CellAt(before, other, otherSpec).filter
  }

  lemma BegunKeepsFilters(tc: Tc, snapshot: Snapshot, seen: nat, a: Attachment, pass: Pass, nic: string, ok: bool)
    requires ValidTc(tc) && ValidSnapshot(snapshot)
    ensures var (after, worker) := NicBegun(tc, snapshot, seen, a, pass, nic, ok);
            && after.filters == tc.filters
            && HasPass(worker) && worker.pass.todo == pass.todo - {nic}
            && worker.pass == pass.(todo := worker.pass.todo, ok := worker.pass.ok)
            && (worker.pass.ok ==> pass.ok)
            && (worker.Hooked? ==> Wants(pass.policy, nic) && nic in snapshot && worker.ifindex == snapshot[nic])
            && (worker.Detaching? ==> !Wants(pass.policy, nic))
            && InFlight(worker) <= {nic}
            && (nic in snapshot && nic !in InFlight(worker) && worker.pass.ok ==>
                  (Holds(tc, a, snapshot[nic]) <==> Wants(pass.policy, nic)))
  {
  }

  lemma EndedSettlesNic(tc: Tc, snapshot: Snapshot, a: Attachment, worker: Worker, queryOk: bool, writeOk: bool)
    requires ValidTc(tc) && ValidSnapshot(snapshot) && (worker.Hooked? || worker.Detaching?)
    ensures var (after, pass) := NicEnded(tc, snapshot, a, worker, queryOk, writeOk);
            var target := if worker.Hooked? then worker.ifindex else IfIndex(snapshot, worker.nic);
            && ChangesOnly(tc, after, target, a.spec)
            && pass == worker.pass.(ok := pass.ok)
            && (pass.ok ==> worker.pass.ok)
            && (pass.ok && target == IfIndex(snapshot, worker.nic) ==> (Holds(after, a, target) <==> worker.Hooked?))
  {
  }

  /** The two halves, each with the snapshot of its moment, are the operation of a pass on that interface. */
  lemma NicStepsAreApplyNic(tc: Tc, view: View, seen: nat, a: Attachment, pass: Pass, nic: string, calls: Calls)
    ensures var firstOk := if Wants(pass.policy, nic) then calls.hookOk else calls.queryOk;
            var (tc1, worker) := NicBegun(tc, view.first, seen, a, pass, nic, firstOk);
            var (tc2, after) := if worker.Hooked? || worker.Detaching?
                                then NicEnded(tc1, view.second, a, worker, calls.queryOk, calls.writeOk)
                                else (tc1, worker.pass);
            var (whole, done) := ApplyNic(tc, view, pass.policy, a.spec, a.prog, nic, calls);
            tc2 == whole && after.ok == (pass.ok && done)
  {
  }

  /**
   The second half of an attach is a query and a write in one step. An interface that the kernel loses
   between them might as well be lost after them, the write having failed if it was its own; and a
   reload between them touches neither.
   */
  lemma LostBetweenQueryAndWrite(tc: Tc, snapshot: Snapshot, nic: string, ifindex: int, spec: AttachSpec, prog: nat,
                                 writeOk: bool, gone: int)
    requires ValidTc(tc)
    ensures var answer := QueryFilter(tc, snapshot, nic, spec, prog, true);
            answer != OurProgram && answer != QueryError ==>
              var (between, done) := TcAttach(DropLink(tc, gone), ifindex, spec, prog, answer == OtherProgram, writeOk);
              var written := writeOk && gone != ifindex;
              var (joined, same) := FinishAttach(tc, snapshot, nic, ifindex, spec, prog, true, written);
              between == DropLink(joined, gone) && done == same
  {
    var answer := QueryFilter(tc, snapshot, nic, spec, prog, true);
    if answer != OurProgram && answer != QueryError {
      var between := TcAttach(DropLink(tc, gone), ifindex, spec, prog, answer == OtherProgram, writeOk).0;
      var joined := FinishAttach(tc, snapshot, nic, ifindex, spec, prog, true, writeOk && gone != ifindex).0;
      assert between.filters == DropLink(joined, gone).filters;
    }
  }

  // ---------------------------------------------------------------- steps

  lemma DistinctStays(s: State, e: Event)
    requires Enabled(s, e) && DistinctSlots(Step(s, e))
    ensures DistinctSlots(s)
  {
    assert KeepsSlots(s.attachers, Step(s, e).attachers);
  }

  /** Steps that leave the table and the snapshot alone. */
  lemma ConvergenceSameTable(s: State, next: State)
    requires ConvergenceInv(s) && DistinctSlots(s)
    requires next.tc == s.tc && next.snapshot == s.snapshot && next.snapshotVersion == s.snapshotVersion
    requires next.dropped == s.dropped
    requires next.worker == s.worker || !HasPass(next.worker)
    requires |s.attachers| <= |next.attachers|
    requires forall i :: 0 <= i < |s.attachers| ==>
               var a, b := s.attachers[i], next.attachers[i];
               b.spec == a.spec && b.prog == a.prog && b.leftovers == a.leftovers && b.version >= a.version
               && b.readVersion == a.readVersion && b.readSnapshot == a.readSnapshot && b.outcome == a.outcome
               && (b.version == a.version ==> b.published == a.published) && a.readVersion <= a.version
    requires forall i :: |s.attachers| <= i < |next.attachers| ==> AttachmentInv(next, next.attachers[i])
    requires HasPass(s.worker) ==>
               && HasAttacher(s, s.worker.pass.request.id)
               && s.worker.pass.version <= s.attachers[s.worker.pass.request.id].version
    ensures ConvergenceInv(next)
  {
    forall i | 0 <= i < |next.attachers|
      ensures AttachmentInv(next, next.attachers[i])
    {
      if i < |s.attachers| {
        assert AttachmentInv(s, s.attachers[i]);
      }
    }
  }

  lemma ConvergenceApi(s: State, e: ApiEvent)
    requires Structure(s) && ConvergenceInv(s) && ApiEnabled(s, e)
    ensures ConvergenceInv(ApiStep(s, e))
  {
    var next := ApiStep(s, e);
    if DistinctSlots(next) {
      DistinctStays(s, Api(e));
      assert forall i :: 0 <= i < |s.attachers| ==> ValidAttachment(s, s.attachers[i]);
      ConvergenceSameTable(s, next);
    }
  }

  lemma ConvergenceMonitor(s: State, e: MonitorEvent)
    requires Structure(s) && ConvergenceInv(s) && MonitorEnabled(s, e)
    ensures ConvergenceInv(MonitorStep(s, e))
  {
    var next := MonitorStep(s, e);
    if DistinctSlots(next) {
      assert forall i :: 0 <= i < |s.attachers| ==> ValidAttachment(s, s.attachers[i]);
      if e.Refresh? {
        assert forall i :: 0 <= i < |s.attachers| ==> AttachmentInv(s, s.attachers[i]);
      } else {
        ConvergenceSameTable(s, next);
      }
    }
  }

  lemma ConvergenceQueue(s: State, e: WorkEvent)
    requires Structure(s) && ConvergenceInv(s) && WorkEnabled(s, e) && (e.ScanQueue? || e.NextRound? || e.Pick?)
    ensures ConvergenceInv(WorkStep(s, e))
  {
    var next := WorkStep(s, e);
    if DistinctSlots(next) {
      assert forall i :: 0 <= i < |s.attachers| ==> ValidAttachment(s, s.attachers[i]);
      ConvergenceSameTable(s, next);
    }
  }

  lemma ConvergenceReads(s: State, e: WorkEvent)
    requires Structure(s) && ConvergenceInv(s) && WorkEnabled(s, e) && (e.ReadPolicy? || e.ReadSnapshot?)
    ensures ConvergenceInv(WorkStep(s, e))
  {
    var next := WorkStep(s, e);
    if DistinctSlots(next) {
      DistinctStays(s, Work(e));
      forall i | 0 <= i < |next.attachers|
        ensures AttachmentInv(next, next.attachers[i])
      {
        assert AttachmentInv(s, s.attachers[i]);
      }
    }
  }

  lemma ConvergenceBegin(s: State, nic: string, ok: bool)
    requires Structure(s) && ConvergenceInv(s) && WorkEnabled(s, BeginNic(nic, ok))
    ensures ConvergenceInv(WorkStep(s, BeginNic(nic, ok)))
  {
    var next := WorkStep(s, BeginNic(nic, ok));
    var a := s.attachers[s.worker.pass.request.id];
    BegunKeepsFilters(s.tc, s.snapshot, s.snapshotVersion, a, s.worker.pass, nic, ok);
    PassMovesOn(s, next.tc, next.worker, nic);
  }

  lemma PassMovesOn(s: State, tc: Tc, worker: Worker, nic: string)
    requires Structure(s) && ConvergenceInv(s)
    requires s.worker.Passing? && HasPass(worker) && tc.filters == s.tc.filters
    requires worker.pass.todo == s.worker.pass.todo - {nic} && nic in s.worker.pass.todo
    requires worker.pass == s.worker.pass.(todo := worker.pass.todo, ok := worker.pass.ok)
    requires worker.pass.ok ==> s.worker.pass.ok
    requires worker.Hooked? ==> Wants(worker.pass.policy, worker.nic) && worker.nic in s.snapshot
                                && worker.ifindex == s.snapshot[worker.nic]
    requires worker.Detaching? ==> !Wants(worker.pass.policy, worker.nic)
    requires InFlight(worker) <= {nic}
    requires nic in s.snapshot && nic !in InFlight(worker) && worker.pass.ok ==>
               (Holds(s.tc, s.attachers[worker.pass.request.id], s.snapshot[nic]) <==> Wants(worker.pass.policy, nic))
    ensures ConvergenceInv(s.(tc := tc, worker := worker))
  {
    var next := s.(tc := tc, worker := worker);
    if DistinctSlots(next) {
      assert DistinctSlots(s);
      assert forall ifindex: int, spec :: CellAt(tc, ifindex, spec).filter == CellAt(s.tc, ifindex, spec).filter;
      forall i | 0 <= i < |next.attachers|
        ensures AttachmentInv(next, next.attachers[i])
      {
        assert AttachmentInv(s, s.attachers[i]);
      }
    }
  }

  lemma ConvergenceEnd(s: State, queryOk: bool, writeOk: bool)
    requires Structure(s) && ConvergenceInv(s) && WorkEnabled(s, EndNic(queryOk, writeOk))
    ensures ConvergenceInv(WorkStep(s, EndNic(queryOk, writeOk)))
  {
    var next := WorkStep(s, EndNic(queryOk, writeOk));
    EndedSettlesNic(s.tc, s.snapshot, s.attachers[s.worker.pass.request.id], s.worker, queryOk, writeOk);
    var target := if s.worker.Hooked? then s.worker.ifindex else IfIndex(s.snapshot, s.worker.nic);
    PassSettles(s, next.tc, next.worker.pass, target);
  }

  lemma PassSettles(s: State, tc: Tc, pass: Pass, target: int)
    requires Structure(s) && ConvergenceInv(s) && (s.worker.Hooked? || s.worker.Detaching?)
    requires target == if s.worker.Hooked? then s.worker.ifindex else IfIndex(s.snapshot, s.worker.nic)
    requires ChangesOnly(s.tc, tc, target, s.attachers[s.worker.pass.request.id].spec)
    requires pass == s.worker.pass.(ok := pass.ok) && (pass.ok ==> s.worker.pass.ok)
    requires pass.ok && target == IfIndex(s.snapshot, s.worker.nic) ==>
               (Holds(tc, s.attachers[pass.request.id], target) <==> s.worker.Hooked?)
    ensures ConvergenceInv(s.(tc := tc, worker := Passing(pass)))
  {
    var next := s.(tc := tc, worker := Passing(pass));
    var id := pass.request.id;
    var a := s.attachers[id];
    if DistinctSlots(next) {
      assert DistinctSlots(s);
      forall i | 0 <= i < |next.attachers|
        ensures AttachmentInv(next, next.attachers[i])
      {
        assert AttachmentInv(s, s.attachers[i]);
        if i != id {
          assert s.attachers[i].spec != a.spec;
          OtherSlotUntouched(s, next, s.attachers[i]);
        }
      }
      if UpToDate(next, pass) {
        assert UpToDate(s, s.worker.pass);
        forall nic | pass.ok && Present(s, nic) && nic !in pass.todo
          ensures Holds(tc, a, s.snapshot[nic]) <==> Wants(pass.policy, nic)
        {
          if nic != s.worker.nic {
            assert s.snapshot[nic] != target;
            assert CellAt(tc, s.snapshot[nic], a.spec).filter == CellAt(s.tc, s.snapshot[nic], a.spec).filter;
          }
        }
      }
    }
  }

  lemma OtherSlotUntouched(s: State, next: State, a: Attachment)
    requires AttachmentInv(s, a)
    requires next.snapshot == s.snapshot && next.snapshotVersion == s.snapshotVersion && next.dropped == s.dropped
    requires forall ifindex: int :: CellAt(next.tc, ifindex, a.spec).filter == CellAt(s.tc, ifindex, a.spec).filter
    ensures AttachmentInv(next, a)
  {
  }

  lemma ConvergenceFinish(s: State)
    requires Structure(s) && ConvergenceInv(s) && WorkEnabled(s, FinishPass)
    ensures ConvergenceInv(WorkStep(s, FinishPass))
  {
    var next := WorkStep(s, FinishPass);
    if DistinctSlots(next) {
      DistinctStays(s, Work(FinishPass));
      forall i | 0 <= i < |next.attachers|
        ensures AttachmentInv(next, next.attachers[i])
      {
        assert AttachmentInv(s, s.attachers[i]);
      }
    }
  }

  lemma ConvergenceLinkGone(s: State, ifindex: int)
    requires Structure(s) && ConvergenceInv(s) && Enabled(s, LinkGone(ifindex))
    ensures ConvergenceInv(Step(s, LinkGone(ifindex)))
  {
    var next := Step(s, LinkGone(ifindex));
    assert forall other: int, spec :: other != ifindex ==> CellAt(next.tc, other, spec) == CellAt(s.tc, other, spec);
    assert forall other: int, spec :: CellAt(next.tc, other, spec).filter.Some? ==>
                                        CellAt(next.tc, other, spec).filter == CellAt(s.tc, other, spec).filter;
    if DistinctSlots(next) {
      assert DistinctSlots(s);
      forall i | 0 <= i < |next.attachers|
        ensures AttachmentInv(next, next.attachers[i])
      {
        assert AttachmentInv(s, s.attachers[i]);
      }
    }
  }

  lemma ConvergenceStep(s: State, e: Event)
    requires Structure(s) && ConvergenceInv(s) && Enabled(s, e)
    ensures ConvergenceInv(Step(s, e))
  {
    match e
    case LinkGone(ifindex) => ConvergenceLinkGone(s, ifindex);
    case Api(a) => ConvergenceApi(s, a);
    case Mon(m) => ConvergenceMonitor(s, m);
    case Work(w) =>
      match w {
        case ReadPolicy => ConvergenceReads(s, w);
        case ReadSnapshot => ConvergenceReads(s, w);
        case BeginNic(nic, ok) => ConvergenceBegin(s, nic, ok);
        case EndNic(queryOk, writeOk) => ConvergenceEnd(s, queryOk, writeOk);
        case FinishPass => ConvergenceFinish(s);
        case _ => ConvergenceQueue(s, w);
      }
    case _ =>
      if DistinctSlots(Step(s, e)) {
        DistinctStays(s, e);
        assert forall i :: 0 <= i < |s.attachers| ==> ValidAttachment(s, s.attachers[i]);
        ConvergenceSameTable(s, Step(s, e));
      }
  }
}
