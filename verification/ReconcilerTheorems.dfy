/** The results about every run of the reconciliation system. */
module ReconcilerTheorems {
  import opened Basics
  import opened Policies
  import opened ApplyQueues
  import opened Reconciler
  import opened ReconcilerStructure
  import opened RestartProtocol
  import opened NoLostUpdate
  import opened Convergence
  import opened RetryBudget
  import opened CallerIntent
  import opened RequestStamps

  ghost predicate SystemInv(s: State) {
    && Structure(s)
    && RestartInv(s.control, s.worker)
    && PublicationInv(s)
    && Updates(s)
    && ConvergenceInv(s)
    && BudgetInv(s)
  }

  lemma SystemInit(s: State)
    requires Init(s)
    ensures SystemInv(s)
  {
    StructureInit(s);
    RestartInit(s);
  }

  lemma SystemStep(s: State, e: Event)
    requires SystemInv(s) && Enabled(s, e)
    ensures SystemInv(Step(s, e))
  {
    StructureStep(s, e);
    RestartStep(s, e);
    PublicationStep(s, e);
    UpdatesStep(s, e);
    ConvergenceStep(s, e);
    BudgetStep(s, e);
  }

  lemma {:induction false} SystemRun(s: State, events: seq<Event>)
    requires SystemInv(s) && IsRun(s, events)
    ensures SystemInv(Final(s, events))
    decreases |events|
  {
    if events != [] {
      SystemStep(s, events[0]);
      SystemRun(Step(s, events[0]), events[1..]);
    }
  }

  /**
   No lost update: for whatever was published since the last pass of an attacher read, or since its
   creation if none has, a request that will make the worker read it is queued, in the batch, or
   about to be queued.
   */
  lemma NoUpdateIsLost(s: State, events: seq<Event>, id: nat)
    requires Init(s) && IsRun(s, events) && HasAttacher(Final(s, events), id)
    ensures var end := Final(s, events);
            var a := end.attachers[id];
            && (a.readVersion < a.version ==> PolicyCarried(end, id))
            && (a.readSnapshot < end.snapshotVersion ==> SnapshotCarried(end, id))
  {
    SystemInit(s);
    SystemRun(s, events);
    assert UpdateInv(Final(s, events), id);
  }

  /**
   Publication: when no caller is between an edit and its publication, passes see the effect of the
   live mode and targets, although edits in attach-all mode are never published.
   */
  lemma PublishedMatchesLive(s: State, events: seq<Event>, id: nat)
    requires Init(s) && IsRun(s, events) && HasAttacher(Final(s, events), id)
    requires !Publishing(Final(s, events), id)
    ensures SameEffect(Final(s, events).attachers[id].published, ToPolicy(Final(s, events).attachers[id].live))
  {
    SystemInit(s);
    SystemRun(s, events);
  }

  /** No API call, no notification, no request and no pass is under way. */
  ghost predicate Quiescent(s: State) {
    && s.callers == map[]
    && !s.control.monitor.Reloaded? && !s.control.monitor.Counting?
    && !s.control.monitor.Notifying? && !s.control.monitor.Stamped?
    && s.queue == map[] && s.ready == map[]
    && Current(s.worker).None?
  }

  /**
   Quiescent convergence. In every quiescent reachable state each attacher has its program on exactly
   those interfaces of the current snapshot, as far as they are still there, on which its callers have
   asked for it, or its last pass gave up after reading exactly that policy and that snapshot.
   Creating an attacher queues no request, so one that no pass has touched yet, and that wants no
   interface, has its program on exactly those on which it sat before.
   */
  lemma QuiescentConvergence(s: State, events: seq<Event>, id: nat)
    requires Init(s) && IsRun(s, events)
    requires Quiescent(Final(s, events)) && DistinctSlots(Final(s, events))
    requires HasAttacher(Final(s, events), id)
    ensures var end := Final(s, events);
            var a := end.attachers[id];
            && a.readVersion == a.version && a.readSnapshot == end.snapshotVersion
            && (a.outcome.Succeeded? ==>
                  && Converged(end, a, ToPolicy(a.live))
                  && forall nic :: Present(end, nic) ==>
                                     (Holds(end.tc, a, end.snapshot[nic]) <==> Asked(events, id, nic)))
            && (a.outcome.NeverRun? ==>
                  forall nic :: Present(end, nic) ==>
                                  && !Asked(events, id, nic)
                                  && (Holds(end.tc, a, end.snapshot[nic]) <==> nic in a.leftovers))
            && (a.outcome.Succeeded? || a.outcome.NeverRun? || a.outcome.GaveUp?)
  {
    SystemInit(s);
    SystemRun(s, events);
    var end := Final(s, events);
    var a := end.attachers[id];
    assert UpdateInv(end, id) && ValidAttachment(end, a) && AttachmentInv(end, a);
    assert SameEffect(a.published, ToPolicy(a.live)) by {
      assert !Publishing(end, id);
    }
    forall nic: string
      ensures Asked(events, id, nic) <==> Wants(ToPolicy(a.live), nic)
    {
      LiveIsWhatCallersAsked(s, events, id, nic);
    }
    if a.outcome.NeverRun? {
      assert a.published == INITIAL_POLICY;
      assert forall nic :: !Wants(a.published, nic);
    } else if a.outcome.Succeeded? {
      forall nic | Present(end, nic)
        ensures Holds(end.tc, a, end.snapshot[nic]) <==> Wants(ToPolicy(a.live), nic)
      {
        assert Wants(a.published, nic) <==> Wants(ToPolicy(a.live), nic);
      }
    }
  }

  /**
   Finitely many outside requests cause at most six passes each; what is left is bounded the same
   way, and nothing is left exactly when nothing is queued, taken or being worked on.
   */
  lemma PassesAreBounded(s: State, events: seq<Event>)
    requires Init(s) && IsRun(s, events)
    ensures var end := Final(s, events);
            && 0 <= Load(end, |end.attachers|)
            && end.tally.passes + Load(end, |end.attachers|) <= 6 * end.tally.submitted
            && (Load(end, |end.attachers|) == 0 <==>
                  end.queue == map[] && end.ready == map[] && Current(end.worker).None?)
  {
    SystemInit(s);
    SystemRun(s, events);
    LoadNonnegative(Final(s, events), |Final(s, events).attachers|);
    DrainedIff(Final(s, events));
  }

  /**
   Over every run: a request that the worker has taken was created by some event of the run, and if it
   is retry k, the clock has advanced by at least k * 500 ms since.
   */
  lemma RetriesRunOnTime(s: State, events: seq<Event>, id: nat) returns (i: nat)
    requires Init(s) && IsRun(s, events) && id in Final(s, events).ready
    ensures i < |events| && Creates(At(s, events, i), events[i], id)
    ensures var end := Final(s, events);
            At(s, events, i).now + 500 * end.ready[id].retryCount <= end.now
  {
    SystemInit(s);
    SystemRun(s, events);
    var end := Final(s, events);
    assert ValidTaken(end, end.ready[id]);
    i := RequestHasItsTime(s, events, id, end.ready[id].requestTime);
  }

  /** Retry counts stay in 0..5, and only requests that never failed are immediate. */
  lemma RetryCountsInRange(s: State, events: seq<Event>)
    requires Init(s) && IsRun(s, events)
    ensures var end := Final(s, events);
            && (forall id :: id in end.queue ==> 0 <= end.queue[id].retryCount <= 5
                                                 && (end.queue[id].isImmediate <==> end.queue[id].retryCount == 0))
            && (forall id :: id in end.ready ==> 0 <= end.ready[id].retryCount <= 5
                                                 && (end.ready[id].isImmediate <==> end.ready[id].retryCount == 0))
  {
    SystemInit(s);
    SystemRun(s, events);
    var end := Final(s, events);
    assert forall id :: id in end.ready ==> ValidTaken(end, end.ready[id]);
    assert forall id :: id in end.queue ==> ValidRequest(end, end.queue[id]);
  }

  /**
   One scan. A worker that looks at its queue finds work if and only if some request is immediate or
   its 500 ms per retry have passed, or the restart time has come; it takes exactly these requests,
   unchanged, and the restart exactly if its time has come, and leaves the rest.
   */
  lemma ScanTakesWhatIsDue(s: State)
    requires Structure(s) && s.worker.Scanning?
    ensures WorkEnabled(s, ScanQueue)
       <==> || (exists id :: id in s.queue && (s.queue[id].isImmediate
                                               || s.queue[id].requestTime + 500 * s.queue[id].retryCount <= s.now))
            || (s.control.restartAt.Some? && s.control.restartAt.value <= s.now)
    ensures WorkEnabled(s, ScanQueue) ==>
              var next := WorkStep(s, ScanQueue);
              var due := s.control.restartAt.Some? && s.control.restartAt.value <= s.now;
              && (forall id :: id in next.ready <==>
                    id in s.queue && (s.queue[id].isImmediate
                                      || s.queue[id].requestTime + 500 * s.queue[id].retryCount <= s.now))
              && (forall id :: id in next.ready ==> next.ready[id] == s.queue[id])
              && (forall id :: id in next.queue <==> id in s.queue && id !in next.ready)
              && (forall id :: id in next.queue ==> next.queue[id] == s.queue[id])
              && next.control.restartAt == (if due then None else s.control.restartAt)
              && next.worker == (if due then CallingStart else Draining)
  {
    if id :| id in s.queue && IsDue(s.queue[id], s.now) {
      assert id in DueRequests(s.queue, s.now);
    }
  }

  /** A taken request gets its pass: over the policy published and the snapshot current when it reads them. */
  lemma TakenRequestGetsItsPass(s: State, id: nat)
    requires Structure(s) && s.worker.Draining? && id in s.ready
    ensures IsRun(s, [Work(Pick(id)), Work(ReadPolicy), Work(ReadSnapshot)])
    ensures var end := Final(s, [Work(Pick(id)), Work(ReadPolicy), Work(ReadSnapshot)]);
            && end.ready == s.ready - {id} && end.tc == s.tc && HasAttacher(s, id)
            && end.worker == Passing(Pass(s.ready[id], s.attachers[id].published, s.attachers[id].version,
                                          s.snapshot, s.snapshotVersion, s.snapshot.Keys, true))
  {
    var events := [Work(Pick(id)), Work(ReadPolicy), Work(ReadSnapshot)];
    assert ValidTaken(s, s.ready[id]);
    var s1 := Step(s, events[0]);
    var s2 := Step(s1, events[1]);
    var s3 := Step(s2, events[2]);
    assert events[1..] == [Work(ReadPolicy), Work(ReadSnapshot)] && events[1..][1..] == [Work(ReadSnapshot)];
    assert [Work(ReadSnapshot)][1..] == [];
    assert IsRun(s2, [Work(ReadSnapshot)]) && Final(s2, [Work(ReadSnapshot)]) == s3;
  }

  /**
   The end of a call or of one notification: its request, stamped when it was created, is queued as an
   immediate first attempt, in the place of whatever was queued for the same attacher and not stamped
   later; nothing else in the queue changes.
   */
  lemma SubmissionTakesEffect(s: State, events: seq<Event>, e: Event) returns (r: ApplyRequest)
    requires Init(s) && IsRun(s, events) && Enabled(Final(s, events), e)
    requires (e.Api? && e.api.Submit?) || e == Mon(SubmitChange)
    ensures var end, next := Final(s, events), Step(Final(s, events), e);
            && (e.Api? ==> end.callers[e.api.caller] == MustAppend(r))
            && (e.Mon? ==> end.control.monitor.Stamped? && end.control.monitor.change == r)
            && r.isImmediate && r.retryCount == 0
            && next.queue == if r.id in end.queue && r.requestTime < end.queue[r.id].requestTime then end.queue
                             else end.queue[r.id := r]
  {
    SystemInit(s);
    SystemRun(s, events);
    var end := Final(s, events);
    r := if e.Api? then end.callers[e.api.caller].request else end.control.monitor.change;
    assert ValidRequest(end, r);
  }

  /**
   The end of a pass: success queues nothing; a failure is queued again as the next retry of the same
   request, five times, unless a request stamped later is waiting; and the sixth failure gives up.
   */
  lemma PassEnds(s: State)
    requires WorkEnabled(s, FinishPass)
    ensures var r, next := s.worker.pass.request, WorkStep(s, FinishPass);
            && next.attachers[r.id].outcome
               == (if s.worker.pass.ok then Succeeded else if r.retryCount < 5 then Retrying else GaveUp)
            && (s.worker.pass.ok || r.retryCount >= 5 ==> next.queue == s.queue)
            && (!s.worker.pass.ok && r.retryCount < 5 ==>
                  next.queue == if r.id in s.queue && r.requestTime < s.queue[r.id].requestTime then s.queue
                                else s.queue[r.id := ApplyRequest(r.id, r.retryCount + 1, false, r.requestTime)])
  {
  }

  /**
   Coalescing over every run: when a pass ends, a queued request gives way if and only if the pass
   failed with retries left, the request is for the same attacher, and its stamp is not later than
   that of the failed one. What takes its place is the retry, which is not immediate. So a request
   stamped strictly later is never displaced, and one stamped in the same tick is.
   */
  lemma RetryDisplacesQueuedIff(s: State, events: seq<Event>, id: nat)
    requires Init(s) && IsRun(s, events)
    requires WorkEnabled(Final(s, events), FinishPass) && id in Final(s, events).queue
    ensures var end, next := Final(s, events), WorkStep(Final(s, events), FinishPass);
            var failed, queued := end.worker.pass.request, end.queue[id];
            && id in next.queue
            && (next.queue[id] != queued <==>
                  && !end.worker.pass.ok && failed.retryCount < 5 && failed.id == id
                  && queued.requestTime <= failed.requestTime && queued != Retry(failed))
            && (next.queue[id] != queued ==> next.queue[id] == Retry(failed) && !next.queue[id].isImmediate)
  {
    SystemInit(s);
    SystemRun(s, events);
  }
}
