/**
 What the callers of an attacher have asked for, read off the history of their edits: a name is a
 target if it was added and neither removed nor cleared since, and the mode is the one set last. Over
 every run, with any number of callers at a time, this is what the attacher has as its live policy.
 */
module CallerIntent {
  import opened Policies
  import opened Reconciler

  /** The event is the critical section of this edit of attacher `id`. */
  predicate IsEdit(e: Event, id: nat, edit: Edit) {
    e.Api? && e.api.EditPolicy? && e.api.id == id && e.api.edit == edit
  }

  /** Among the first `n` events, `nic` was added last at `k`. */
  predicate AddedAt(events: seq<Event>, n: nat, id: nat, nic: string, k: nat) {
    && k < n <= |events| && IsEdit(events[k], id, AddTarget(nic))
    && forall j :: k < j < n ==> !IsEdit(events[j], id, RemoveTarget(nic)) && !IsEdit(events[j], id, ClearTargets)
  }

  /** Among the first `n` events, attach-all mode was set last at `k`. */
  predicate SetAllAt(events: seq<Event>, n: nat, id: nat, k: nat) {
    && k < n <= |events| && IsEdit(events[k], id, SetMode(AttachAll))
    && forall j :: k < j < n ==> !IsEdit(events[j], id, SetMode(AttachSelective))
  }

  ghost predicate Targeted(events: seq<Event>, n: nat, id: nat, nic: string) {
    exists k: nat :: AddedAt(events, n, id, nic, k)
  }

  ghost predicate AllMode(events: seq<Event>, n: nat, id: nat) {
    exists k: nat :: SetAllAt(events, n, id, k)
  }

  /** The callers want the program on `nic`. */
  ghost predicate Asked(events: seq<Event>, id: nat, nic: string) {
    AllMode(events, |events|, id) || Targeted(events, |events|, id, nic)
  }

  // ---------------------------------------------------------------- one more event

  lemma TargetedGrows(events: seq<Event>, n: nat, id: nat, nic: string)
    requires n < |events|
    ensures Targeted(events, n + 1, id, nic)
       <==> || IsEdit(events[n], id, AddTarget(nic))
            || (Targeted(events, n, id, nic)
                && !IsEdit(events[n], id, RemoveTarget(nic)) && !IsEdit(events[n], id, ClearTargets))
  {
    var more := n + 1;
    if IsEdit(events[n], id, AddTarget(nic)) {
      assert AddedAt(events, more, id, nic, n);
    } else if k: nat :| AddedAt(events, n, id, nic, k) {
      assert AddedAt(events, more, id, nic, k)
        <==> !IsEdit(events[n], id, RemoveTarget(nic)) && !IsEdit(events[n], id, ClearTargets);
    }
    if k: nat :| AddedAt(events, more, id, nic, k) {
      assert k == n || AddedAt(events, n, id, nic, k);
    }
  }

  lemma AllModeGrows(events: seq<Event>, n: nat, id: nat)
    requires n < |events|
    ensures AllMode(events, n + 1, id)
       <==> || IsEdit(events[n], id, SetMode(AttachAll))
            || (AllMode(events, n, id) && !IsEdit(events[n], id, SetMode(AttachSelective)))
  {
    var more := n + 1;
    if IsEdit(events[n], id, SetMode(AttachAll)) {
      assert SetAllAt(events, more, id, n);
    } else if k: nat :| SetAllAt(events, n, id, k) {
      assert SetAllAt(events, more, id, k) <==> !IsEdit(events[n], id, SetMode(AttachSelective));
    }
    if k: nat :| SetAllAt(events, more, id, k) {
      assert k == n || SetAllAt(events, n, id, k);
    }
  }

  /** The live fields of attacher `id`; before it is created, those it will start with. */
  function LiveOf(s: State, id: nat): Live {
    if HasAttacher(s, id) then s.attachers[id].live else INITIAL_LIVE
  }

  lemma LiveWork(s: State, e: WorkEvent, id: nat)
    requires WorkEnabled(s, e)
    ensures LiveOf(WorkStep(s, e), id) == LiveOf(s, id)
  {
  }

  lemma LiveApi(s: State, e: ApiEvent, id: nat, nic: string)
    requires ApiEnabled(s, e)
    ensures var live, next := LiveOf(s, id), LiveOf(ApiStep(s, e), id);
            && (nic in next.targets <==>
                  || IsEdit(Api(e), id, AddTarget(nic))
                  || (nic in live.targets
                      && !IsEdit(Api(e), id, RemoveTarget(nic)) && !IsEdit(Api(e), id, ClearTargets)))
            && (next.mode.AttachAll? <==>
                  || IsEdit(Api(e), id, SetMode(AttachAll))
                  || (live.mode.AttachAll? && !IsEdit(Api(e), id, SetMode(AttachSelective))))
  {
  }

  lemma {:induction false} LiveAt(s: State, events: seq<Event>, n: nat, id: nat, nic: string)
    requires Init(s) && IsRun(s, events) && n <= |events|
    ensures nic in LiveOf(At(s, events, n), id).targets <==> Targeted(events, n, id, nic)
    ensures LiveOf(At(s, events, n), id).mode.AttachAll? <==> AllMode(events, n, id)
    decreases n
  {
    if n > 0 {
      var m := At(s, events, n - 1);
      LiveAt(s, events, n - 1, id, nic);
      AtStep(s, events, n - 1);
      TargetedGrows(events, n - 1, id, nic);
      AllModeGrows(events, n - 1, id);
      match events[n - 1]
      case Api(a) => LiveApi(m, a, id, nic);
      case Work(w) => LiveWork(m, w, id);
      case _ =>
    }
  }

  // ---------------------------------------------------------------- every run

  lemma TargetedSaid(events: seq<Event>, id: nat, nic: string)
    ensures Targeted(events, |events|, id, nic)
       <==> exists k :: 0 <= k < |events| && IsEdit(events[k], id, AddTarget(nic))
                        && forall j :: k < j < |events| ==> !IsEdit(events[j], id, RemoveTarget(nic))
                                                            && !IsEdit(events[j], id, ClearTargets)
  {
    if k: nat :| AddedAt(events, |events|, id, nic, k) {
      assert IsEdit(events[k], id, AddTarget(nic));
    }
    if k :| 0 <= k < |events| && IsEdit(events[k], id, AddTarget(nic))
            && forall j :: k < j < |events| ==> !IsEdit(events[j], id, RemoveTarget(nic))
                                                && !IsEdit(events[j], id, ClearTargets) {
      assert AddedAt(events, |events|, id, nic, k);
    }
  }

  lemma AllModeSaid(events: seq<Event>, id: nat)
    ensures AllMode(events, |events|, id)
       <==> exists k :: 0 <= k < |events| && IsEdit(events[k], id, SetMode(AttachAll))
                        && forall j :: k < j < |events| ==> !IsEdit(events[j], id, SetMode(AttachSelective))
  {
    if k: nat :| SetAllAt(events, |events|, id, k) {
      assert IsEdit(events[k], id, SetMode(AttachAll));
    }
    if k :| 0 <= k < |events| && IsEdit(events[k], id, SetMode(AttachAll))
            && forall j :: k < j < |events| ==> !IsEdit(events[j], id, SetMode(AttachSelective)) {
      assert SetAllAt(events, |events|, id, k);
    }
  }

  /**
   Over every run: a name is among the live targets if and only if it was added and neither removed
   nor cleared since, whatever was done to other names; and the mode is attach-all if and only if that
   was set and selective not since.
   */
  lemma LiveIsWhatCallersAsked(s: State, events: seq<Event>, id: nat, nic: string)
    requires Init(s) && IsRun(s, events) && HasAttacher(Final(s, events), id)
    ensures var live := Final(s, events).attachers[id].live;
            && (nic in live.targets <==>
                  exists k :: 0 <= k < |events| && IsEdit(events[k], id, AddTarget(nic))
                              && forall j :: k < j < |events| ==> !IsEdit(events[j], id, RemoveTarget(nic))
                                                                  && !IsEdit(events[j], id, ClearTargets))
            && (live.mode == AttachAll <==>
                  exists k :: 0 <= k < |events| && IsEdit(events[k], id, SetMode(AttachAll))
                              && forall j :: k < j < |events| ==> !IsEdit(events[j], id, SetMode(AttachSelective)))
            && (Asked(events, id, nic) <==> live.mode == AttachAll || nic in live.targets)
  {
    LiveAt(s, events, |events|, id, nic);
    AtEnd(s, events);
    TargetedSaid(events, id, nic);
    AllModeSaid(events, id);
  }
}
