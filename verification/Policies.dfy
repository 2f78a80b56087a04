/**
 The desired attachment policy of one attacher: the live mode and targets that API callers edit,
 and the immutable snapshot that the reconciliation worker reads.

 An edit and its publication are two separate critical sections, so other edits may fall between
 them. The functions here describe one critical section each; `Reconciler` interleaves them.
 */
module Policies {

  datatype Mode = AttachAll | AttachSelective

  /** The fields guarded by the attacher's mutex that callers edit. */
  datatype Live = Live(mode: Mode, targets: set<string>)

  /** The published snapshot. */
  datatype Policy = Policy(targets: set<string>, isAll: bool)

  datatype Edit =
    | AddTarget(nic: string)
    | RemoveTarget(nic: string)
    | ClearTargets
    | SetMode(mode: Mode)

  const INITIAL_LIVE := Live(AttachSelective, {})
  const INITIAL_POLICY := Policy({}, false)

  /** Whether a pass that reads policy `p` wants the program on `nic`. */
  predicate Wants(p: Policy, nic: string) {
    p.isAll || nic in p.targets
  }

  /** Two policies that no pass over any set of interfaces can tell apart. */
  ghost predicate SameEffect(p: Policy, q: Policy) {
    forall nic: string :: Wants(p, nic) <==> Wants(q, nic)
  }

  /** The snapshot that a publication builds from the live fields. */
  function ToPolicy(live: Live): Policy {
    Policy(live.targets, live.mode.AttachAll?)
  }

  /** The first critical section of an API call. */
  function Mutate(live: Live, edit: Edit): Live {
    match edit
    case AddTarget(nic) => live.(targets := live.targets + {nic})
    case RemoveTarget(nic) => live.(targets := live.targets - {nic})
    case ClearTargets => live.(targets := {})
    case SetMode(mode) => live.(mode := mode)
  }

  /** Whether the call goes on to publish and notify. */
  predicate Flags(live: Live, edit: Edit) {
    match edit
    case AddTarget(nic) => live.mode.AttachSelective? && nic !in live.targets
    case RemoveTarget(nic) => live.mode.AttachSelective? && nic in live.targets
    case ClearTargets => live.mode.AttachSelective? && live.targets != {}
    case SetMode(mode) => live.mode != mode
  }

  /** Names are unbounded strings, so no finite target list covers them all. */
  lemma {:induction false} LongerName(names: set<string>) returns (unused: string)
    ensures unused !in names
    ensures forall name :: name in names ==> |name| < |unused|
  {
    if names == {} {
      unused := "";
    } else {
      var name :| name in names;
      var shorter := LongerName(names - {name});
      unused := seq(|shorter| + |name| + 1, _ => 'x');
      forall other | other in names
        ensures |other| < |unused|
      {
        assert other == name || other in names - {name};
      }
    }
  }

  /**
   An edit publishes if and only if it changes which interfaces the policy wants. In particular
   target edits in attach-all mode are never published, and never need to be.
   */
  lemma FlagsExactlyEffectiveEdits(live: Live, edit: Edit)
    ensures Flags(live, edit) <==> !SameEffect(ToPolicy(live), ToPolicy(Mutate(live, edit)))
  {
    var before, after := ToPolicy(live), ToPolicy(Mutate(live, edit));
    if Flags(live, edit) {
      match edit
      case AddTarget(nic) => assert Wants(before, nic) != Wants(after, nic);
      case RemoveTarget(nic) => assert Wants(before, nic) != Wants(after, nic);
      case ClearTargets =>
        var nic :| nic in live.targets;
        assert Wants(before, nic) != Wants(after, nic);
      case SetMode(_) =>
        var nic := LongerName(live.targets);
        assert Wants(before, nic) != Wants(after, nic);
    }
  }

  /** One attacher's mutable state, as a single caller sees it. */
  class Attacher {
    var mode: Mode
    var targets: set<string>
    var snapshot: Policy

    function State(): Live
      reads this
    {
      Live(mode, targets)
    }

    /** No publication is outstanding: passes see what the live fields ask for. */
    ghost predicate Settled()
      reads this
    {
      SameEffect(snapshot, ToPolicy(State()))
    }

    constructor ()
      ensures State() == INITIAL_LIVE && snapshot == INITIAL_POLICY
      ensures Settled()
    {
      mode, targets, snapshot := AttachSelective, {}, INITIAL_POLICY;
    }

    /** `change_policy`: whatever was published before and whichever edit asked, nothing is outstanding afterwards. */
    method Publish()
      modifies this`snapshot
      ensures Settled()
      ensures forall nic :: Wants(snapshot, nic) <==> mode == AttachAll || nic in targets
      ensures snapshot == ToPolicy(State())
    {
      snapshot := Policy(targets, mode == AttachAll);
    }

    method Add(nic: string) returns (notify: bool)
      modifies this
      ensures targets == old(targets) + {nic} && mode == old(mode)
      ensures State() == Mutate(old(State()), AddTarget(nic))
      ensures notify == Flags(old(State()), AddTarget(nic))
      ensures snapshot == if notify then ToPolicy(State()) else old(snapshot)
      ensures old(Settled()) ==> Settled()
    {
      FlagsExactlyEffectiveEdits(State(), AddTarget(nic));
      var changed := false;
      if nic !in targets {
        targets := targets + {nic};
        changed := true;
      }
      notify := mode == AttachSelective && changed;
      if notify {
        Publish();
      }
    }

    method Remove(nic: string) returns (notify: bool)
      modifies this
      ensures targets == old(targets) - {nic} && mode == old(mode)
      ensures State() == Mutate(old(State()), RemoveTarget(nic))
      ensures notify == Flags(old(State()), RemoveTarget(nic))
      ensures snapshot == if notify then ToPolicy(State()) else old(snapshot)
      ensures old(Settled()) ==> Settled()
    {
      FlagsExactlyEffectiveEdits(State(), RemoveTarget(nic));
      var changed := false;
      if nic in targets {
        targets := targets - {nic};
        changed := true;
      }
      notify := mode == AttachSelective && changed;
      if notify {
        Publish();
      }
    }

    method Clear() returns (notify: bool)
      modifies this
      ensures targets == {} && mode == old(mode)
      ensures State() == Mutate(old(State()), ClearTargets)
      ensures notify == Flags(old(State()), ClearTargets)
      ensures snapshot == if notify then ToPolicy(State()) else old(snapshot)
      ensures old(Settled()) ==> Settled()
    {
      FlagsExactlyEffectiveEdits(State(), ClearTargets);
      var changed := false;
      if targets != {} {
        targets := {};
        changed := true;
      }
      notify := mode == AttachSelective && changed;
      if notify {
        Publish();
      }
    }

    method ChangeMode(newMode: Mode) returns (notify: bool)
      modifies this
      ensures targets == old(targets) && mode == newMode
      ensures State() == Mutate(old(State()), SetMode(newMode))
      ensures notify == Flags(old(State()), SetMode(newMode))
      ensures snapshot == if notify then ToPolicy(State()) else old(snapshot)
      ensures old(Settled()) ==> Settled()
    {
      var before := mode;
      mode := newMode;
      notify := before != newMode;
      if notify {
        Publish();
      }
    }
  }
}
