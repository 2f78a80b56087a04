/**
 The kernel's TC table and one reconciliation pass of one attacher over it.

 The table maps (ifindex, slot) to a program id and holds one clsact hook per ifindex. Every
 kernel call may fail; the caller supplies the outcome, so results hold for all failure patterns.
 */
module TrafficControl {
  import opened Basics
  import opened Policies

  /** Where an attacher's filter sits on an interface. */
  datatype AttachSpec = AttachSpec(priority: int, handle: int, isIngress: bool)

  type FilterKey = (int, AttachSpec)

  datatype Tc = Tc(hooks: set<int>, filters: map<FilterKey, nat>)

  /** A filter hangs below its interface's clsact hook. */
  ghost predicate ValidTc(tc: Tc) {
    forall key :: key in tc.filters ==> key.0 in tc.hooks
  }

  /** Interface names with the unsigned 32-bit ifindex that was read for them. */
  type Snapshot = map<string, nat>

  const INT_LIMIT := 0x8000_0000

  /** What the kernel guarantees of a snapshot: positive `int` ifindexes, one name each. */
  ghost predicate ValidSnapshot(snapshot: Snapshot) {
    && (forall nic :: nic in snapshot ==> 0 < snapshot[nic] < INT_LIMIT)
    && (forall a, b :: a in snapshot && b in snapshot && snapshot[a] == snapshot[b] ==> a == b)
  }

  /** `int ifindex = get_ifindex_by_ifname(nic)`: 0 when unknown, two's complement when too large. */
  function IfIndex(snapshot: Snapshot, nic: string): int {
    if nic !in snapshot then 0
    else if snapshot[nic] < INT_LIMIT then snapshot[nic]
    else snapshot[nic] - 2 * INT_LIMIT
  }

  /** A lookup finds the recorded ifindex of every interface of a kernel's snapshot, and nothing of any other. */
  lemma LookupFinds(snapshot: Snapshot, nic: string)
    requires ValidSnapshot(snapshot)
    ensures IfIndex(snapshot, nic) == if nic in snapshot then snapshot[nic] else 0
    ensures IfIndex(snapshot, nic) > 0 <==> nic in snapshot
  {
  }

  // ---------------------------------------------------------------- kernel calls

  /** Return codes 0, -ENOENT, -EINVAL and any other. */
  datatype QueryReply = Program(id: nat) | NoEntry | InvalidParent | OtherErrno

  function TcQuery(tc: Tc, ifindex: int, spec: AttachSpec, ok: bool): QueryReply {
    if !ok then OtherErrno
    else if ifindex !in tc.hooks then InvalidParent
    else if (ifindex, spec) !in tc.filters then NoEntry
    else Program(tc.filters[(ifindex, spec)])
  }

  /** Without the replace flag an occupied slot answers -EEXIST. */
  function TcAttach(tc: Tc, ifindex: int, spec: AttachSpec, prog: nat, replace: bool, ok: bool): (Tc, bool) {
    if !ok || ifindex !in tc.hooks || ((ifindex, spec) in tc.filters && !replace) then (tc, false)
    else (tc.(filters := tc.filters[(ifindex, spec) := prog]), true)
  }

  /** -ENOENT counts as success for the caller; a missing hook answers -EINVAL. */
  function TcDetach(tc: Tc, ifindex: int, spec: AttachSpec, ok: bool): (Tc, bool) {
    if !ok || ifindex !in tc.hooks then (tc, false)
    else (tc.(filters := tc.filters - {(ifindex, spec)}), true)
  }

  // ---------------------------------------------------------------- filter operations

  datatype FilterState = OurProgram | OtherProgram | NotFound | NoHook | QueryError

  function QueryFilter(tc: Tc, snapshot: Snapshot, nic: string, spec: AttachSpec, prog: nat, ok: bool): FilterState {
    if IfIndex(snapshot, nic) <= 0 then QueryError
    else
      match TcQuery(tc, IfIndex(snapshot, nic), spec, ok)
      case NoEntry => NotFound
      case InvalidParent => NoHook
      case OtherErrno => QueryError
      case Program(id) => if id == prog then OurProgram else OtherProgram
  }

  /** First half of `attach_filter`: look the interface up and make sure it has a clsact hook. */
  function EnsureHook(tc: Tc, snapshot: Snapshot, nic: string, ok: bool): (Tc, Option<int>) {
    var ifindex := IfIndex(snapshot, nic);
    if ifindex <= 0 || !ok then (tc, None)
    else (tc.(hooks := tc.hooks + {ifindex}), Some(ifindex))
  }

  /**
   Second half of `attach_filter`: the query looks the name up again, in the snapshot of that
   moment, while the attach still goes to the ifindex of the first half.
   */
  function FinishAttach(tc: Tc, snapshot: Snapshot, nic: string, ifindex: int, spec: AttachSpec, prog: nat,
                        queryOk: bool, writeOk: bool): (Tc, bool)
  {
    match QueryFilter(tc, snapshot, nic, spec, prog, queryOk)
    case OurProgram => (tc, true)
    case QueryError => (tc, false)
    case OtherProgram => TcAttach(tc, ifindex, spec, prog, true, writeOk)
    case NotFound => TcAttach(tc, ifindex, spec, prog, false, writeOk)
    case NoHook => TcAttach(tc, ifindex, spec, prog, false, writeOk)
  }

  /** Second half of `detach_filter`, after a query that answered `OurProgram`. */
  function FinishDetach(tc: Tc, snapshot: Snapshot, nic: string, spec: AttachSpec, writeOk: bool): (Tc, bool) {
    var ifindex := IfIndex(snapshot, nic);
    if ifindex <= 0 then (tc, false)
    else TcDetach(tc, ifindex, spec, writeOk)
  }

  /** Outcomes of the kernel calls made for one interface. */
  datatype Calls = Calls(hookOk: bool, queryOk: bool, writeOk: bool)

  /** The snapshots that the two name lookups of one filter operation find published. */
  datatype View = View(first: Snapshot, second: Snapshot)

  function AttachFilter(tc: Tc, view: View, nic: string, spec: AttachSpec, prog: nat, calls: Calls): (Tc, bool) {
    var (hooked, ifindex) := EnsureHook(tc, view.first, nic, calls.hookOk);
    if ifindex.None? then (hooked, false)
    else FinishAttach(hooked, view.second, nic, ifindex.value, spec, prog, calls.queryOk, calls.writeOk)
  }

  function DetachFilter(tc: Tc, view: View, nic: string, spec: AttachSpec, prog: nat, calls: Calls): (Tc, bool) {
    match QueryFilter(tc, view.first, nic, spec, prog, calls.queryOk)
    case QueryError => (tc, false)
    case OurProgram => FinishDetach(tc, view.second, nic, spec, calls.writeOk)
    case OtherProgram => (tc, true)
    case NotFound => (tc, true)
    case NoHook => (tc, true)
  }

  function ApplyNic(tc: Tc, view: View, policy: Policy, spec: AttachSpec, prog: nat, nic: string, calls: Calls)
    : (Tc, bool)
  {
    if Wants(policy, nic) then AttachFilter(tc, view, nic, spec, prog, calls)
    else DetachFilter(tc, view, nic, spec, prog, calls)
  }

  // ---------------------------------------------------------------- locality

  /** Everything a pass of `spec` can see or change at one ifindex. */
  datatype Cell = Cell(hooked: bool, filter: Option<nat>)

  function CellAt(tc: Tc, ifindex: int, spec: AttachSpec): Cell {
    Cell(ifindex in tc.hooks, if (ifindex, spec) in tc.filters then Some(tc.filters[(ifindex, spec)]) else None)
  }

  ghost predicate SameElsewhere(before: Tc, after: Tc, spec: AttachSpec) {
    && (forall key: FilterKey :: key.1 != spec ==> (key in after.filters <==> key in before.filters))
    && (forall key: FilterKey :: key.1 != spec && key in before.filters && key in after.filters
                                 ==> after.filters[key] == before.filters[key])
  }

  /**
   The operation on one cell, said directly: what becomes of the hook and the slot, and whether
   the interface counts as done.
   */
  function ApplyCell(cell: Cell, wanted: bool, prog: nat, calls: Calls): (Cell, bool) {
    if wanted then
      if !calls.hookOk then (cell, false)
      else if !calls.queryOk then (cell.(hooked := true), false)
      else if cell.filter == Some(prog) || calls.writeOk then (Cell(true, Some(prog)), true)
      else (cell.(hooked := true), false)
    else
      if !calls.queryOk then (cell, false)
      else if cell.filter != Some(prog) then (cell, true)
      else if calls.writeOk then (cell.(filter := None), true)
      else (cell, false)
  }

  /** Both lookups of `nic` find `ifindex`. */
  predicate Steady(view: View, nic: string, ifindex: int) {
    0 < ifindex && IfIndex(view.first, nic) == ifindex && IfIndex(view.second, nic) == ifindex
  }

  /** When both lookups agree, the call sequence refines that, and stays inside the interface's own cell. */
  lemma ApplyNicRefinesCell(tc: Tc, view: View, policy: Policy, spec: AttachSpec, prog: nat, nic: string, calls: Calls,
                            ifindex: int)
    requires ValidTc(tc) && Steady(view, nic, ifindex)
    ensures var (after, ok) := ApplyNic(tc, view, policy, spec, prog, nic, calls);
            && (forall other :: other != ifindex ==> CellAt(after, other, spec) == CellAt(tc, other, spec))
            && (CellAt(after, ifindex, spec), ok)
               == ApplyCell(CellAt(tc, ifindex, spec), Wants(policy, nic), prog, calls)
  {
  }

  /**
   When an operation counts as done, whatever its two lookups find: both find an interface that is
   there, and every kernel call it comes to make succeeds. An attach makes no write if its program is
   already where the query looked, and its write is refused if the slot is taken where it goes and the
   query saw nothing to replace. A detach makes no write unless the query saw its program, and its
   write is refused where there is no hook. A missing hook or another program is no failure.
   */
  lemma DoneIff(tc: Tc, view: View, policy: Policy, spec: AttachSpec, prog: nat, nic: string, calls: Calls)
    requires ValidTc(tc)
    ensures var (first, second) := (IfIndex(view.first, nic), IfIndex(view.second, nic));
            ApplyNic(tc, view, policy, spec, prog, nic, calls).1
            <==> if Wants(policy, nic)
                 then && 0 < first && calls.hookOk && 0 < second && calls.queryOk
                      && (|| ((second, spec) in tc.filters && tc.filters[(second, spec)] == prog)
                          || (calls.writeOk && ((first, spec) in tc.filters ==> (second, spec) in tc.filters)))
                 else && 0 < first && calls.queryOk
                      && ((first, spec) in tc.filters && tc.filters[(first, spec)] == prog ==>
                            0 < second && second in tc.hooks && calls.writeOk)
  {
  }

  /**
   With steady lookups an operation therefore fails if and only if a call that it really makes does:
   on any table, hooked or not, and whatever program sits in the slot.
   */
  lemma SteadyDoneIff(tc: Tc, view: View, policy: Policy, spec: AttachSpec, prog: nat, nic: string, calls: Calls,
                      ifindex: int)
    requires ValidTc(tc) && Steady(view, nic, ifindex)
    ensures var ours := (ifindex, spec) in tc.filters && tc.filters[(ifindex, spec)] == prog;
            ApplyNic(tc, view, policy, spec, prog, nic, calls).1
            <==> if Wants(policy, nic) then calls.hookOk && calls.queryOk && (ours || calls.writeOk)
                 else calls.queryOk && (ours ==> calls.writeOk)
  {
    DoneIff(tc, view, policy, spec, prog, nic, calls);
  }

  /**
   What the operation on `nic` cannot cost another program its filter on `ifindex` for: it does not
   look that interface up to attach, and its second lookup does not move onto it to detach.
   */
  predicate Spares(view: View, policy: Policy, nic: string, ifindex: int) {
    if Wants(policy, nic) then IfIndex(view.first, nic) != ifindex
    else IfIndex(view.second, nic) != ifindex || IfIndex(view.first, nic) == ifindex
  }

  /** Only looked-up cells change, and a spared foreign filter stays. */
  ghost predicate Contained(tc: Tc, after: Tc, view: View, policy: Policy, spec: AttachSpec, prog: nat, nic: string) {
    && ValidTc(after)
    && SameElsewhere(tc, after, spec)
    && (forall other: int :: other != IfIndex(view.first, nic) && other != IfIndex(view.second, nic) ==>
                               CellAt(after, other, spec) == CellAt(tc, other, spec))
    && (forall other: int :: Foreign(tc, other, spec, prog) && Spares(view, policy, nic, other) ==>
                               CellAt(after, other, spec).filter == CellAt(tc, other, spec).filter)
  }

  lemma AttachIsContained(tc: Tc, view: View, policy: Policy, spec: AttachSpec, prog: nat, nic: string, calls: Calls)
    requires ValidTc(tc) && Wants(policy, nic)
    ensures Contained(tc, AttachFilter(tc, view, nic, spec, prog, calls).0, view, policy, spec, prog, nic)
  {
    var (hooked, ifindex) := EnsureHook(tc, view.first, nic, calls.hookOk);
    if ifindex.Some? {
      FinishTouches(hooked, view.second, nic, ifindex.value, spec, prog, calls);
    }
  }

  lemma FinishTouches(tc: Tc, snapshot: Snapshot, nic: string, ifindex: int, spec: AttachSpec, prog: nat, calls: Calls)
    requires ValidTc(tc)
    ensures var after := FinishAttach(tc, snapshot, nic, ifindex, spec, prog, calls.queryOk, calls.writeOk).0;
            && ValidTc(after) && SameElsewhere(tc, after, spec)
            && forall other: int :: other != ifindex ==> CellAt(after, other, spec) == CellAt(tc, other, spec)
  {
    AttachTouches(tc, ifindex, spec, prog, true, calls.writeOk);
    AttachTouches(tc, ifindex, spec, prog, false, calls.writeOk);
  }

  lemma AttachTouches(tc: Tc, ifindex: int, spec: AttachSpec, prog: nat, replace: bool, ok: bool)
    requires ValidTc(tc)
    ensures var after := TcAttach(tc, ifindex, spec, prog, replace, ok).0;
            && ValidTc(after) && SameElsewhere(tc, after, spec)
            && forall other: int :: other != ifindex ==> CellAt(after, other, spec) == CellAt(tc, other, spec)
  {
  }

  lemma DetachIsContained(tc: Tc, view: View, policy: Policy, spec: AttachSpec, prog: nat, nic: string, calls: Calls)
    requires ValidTc(tc) && !Wants(policy, nic)
    ensures Contained(tc, DetachFilter(tc, view, nic, spec, prog, calls).0, view, policy, spec, prog, nic)
  {
  }

  /** The operation stays contained however its two lookups differ. */
  lemma ApplyNicIsContained(tc: Tc, view: View, policy: Policy, spec: AttachSpec, prog: nat, nic: string, calls: Calls)
    requires ValidTc(tc)
    ensures Contained(tc, ApplyNic(tc, view, policy, spec, prog, nic, calls).0, view, policy, spec, prog, nic)
  {
    if Wants(policy, nic) {
      AttachIsContained(tc, view, policy, spec, prog, nic, calls);
    } else {
      DetachIsContained(tc, view, policy, spec, prog, nic, calls);
    }
  }

  /** Another program sits in the slot. */
  predicate Foreign(tc: Tc, ifindex: int, spec: AttachSpec, prog: nat) {
    CellAt(tc, ifindex, spec).filter.Some? && CellAt(tc, ifindex, spec).filter.value != prog
  }

  // ---------------------------------------------------------------- a whole pass

  /** What the pass does to one interface of the snapshot, judged by the table before the pass. */
  function NicOutcome(before: Tc, snapshot: Snapshot, policy: Policy, spec: AttachSpec, prog: nat,
                      calls: map<string, Calls>, nic: string): (Cell, bool)
    requires nic in snapshot && nic in calls
  {
    ApplyCell(CellAt(before, snapshot[nic], spec), Wants(policy, nic), prog, calls[nic])
  }

  /**
   `after` is what a pass that has visited `visited` makes of `before`: each visited interface is
   in the state its own operation alone would have produced, and nothing else moved.
   */
  ghost predicate PartialOutcome(before: Tc, after: Tc, snapshot: Snapshot, policy: Policy, spec: AttachSpec, prog: nat,
                                 calls: map<string, Calls>, visited: set<string>)
    requires calls.Keys == snapshot.Keys
  {
    && SameElsewhere(before, after, spec)
    && (forall nic :: nic in snapshot ==>
                        CellAt(after, snapshot[nic], spec)
                        == if nic in visited then NicOutcome(before, snapshot, policy, spec, prog, calls, nic).0
                           else CellAt(before, snapshot[nic], spec))
    && (forall ifindex: int :: ifindex !in snapshot.Values ==>
                                 CellAt(after, ifindex, spec) == CellAt(before, ifindex, spec))
  }

  /** The operation on each of `nics` reports success. */
  ghost predicate AllDone(before: Tc, snapshot: Snapshot, policy: Policy, spec: AttachSpec, prog: nat,
                          calls: map<string, Calls>, nics: set<string>)
    requires nics <= snapshot.Keys == calls.Keys
  {
    forall nic :: nic in nics ==> NicOutcome(before, snapshot, policy, spec, prog, calls, nic).1
  }

  ghost predicate PassOutcome(before: Tc, after: Tc, snapshot: Snapshot, policy: Policy, spec: AttachSpec, prog: nat,
                              calls: map<string, Calls>)
    requires calls.Keys == snapshot.Keys
  {
    PartialOutcome(before, after, snapshot, policy, spec, prog, calls, snapshot.Keys)
  }

  lemma PartialOutcomeGrows(before: Tc, tc: Tc, next: Tc, snapshot: Snapshot, policy: Policy,
                            spec: AttachSpec, prog: nat, calls: map<string, Calls>, visited: set<string>, nic: string)
    requires ValidSnapshot(snapshot) && calls.Keys == snapshot.Keys
    requires PartialOutcome(before, tc, snapshot, policy, spec, prog, calls, visited)
    requires nic in snapshot && nic !in visited
    requires SameElsewhere(tc, next, spec)
    requires forall other: int :: other != snapshot[nic] ==> CellAt(next, other, spec) == CellAt(tc, other, spec)
    requires CellAt(next, snapshot[nic], spec)
          == ApplyCell(CellAt(tc, snapshot[nic], spec), Wants(policy, nic), prog, calls[nic]).0
    ensures PartialOutcome(before, next, snapshot, policy, spec, prog, calls, visited + {nic})
  {
  }

  ghost predicate Enumerates(order: seq<string>, snapshot: Snapshot) {
    && (forall i :: 0 <= i < |order| ==> order[i] in snapshot)
    && (forall nic :: nic in snapshot ==> nic in order)
    && (forall i, j :: 0 <= i < j < |order| ==> order[i] != order[j])
  }

  /** The body of the pass loop for one interface. */
  method VisitNic(before: Tc, view: View, policy: Policy, spec: AttachSpec, prog: nat, nic: string, calls: Calls)
    returns (tc: Tc, done: bool)
    requires ValidTc(before)
    ensures Contained(before, tc, view, policy, spec, prog, nic)
    ensures var ifindex := IfIndex(view.first, nic);
            Steady(view, nic, ifindex) ==>
              (CellAt(tc, ifindex, spec), done)
              == ApplyCell(CellAt(before, ifindex, spec), Wants(policy, nic), prog, calls)
    ensures var ifindex := IfIndex(view.first, nic);
            var ours := (ifindex, spec) in before.filters && before.filters[(ifindex, spec)] == prog;
            Steady(view, nic, ifindex) ==>
              (done <==> if Wants(policy, nic) then calls.hookOk && calls.queryOk && (ours || calls.writeOk)
                         else calls.queryOk && (ours ==> calls.writeOk))
  {
    ApplyNicIsContained(before, view, policy, spec, prog, nic, calls);
    if Steady(view, nic, IfIndex(view.first, nic)) {
      ApplyNicRefinesCell(before, view, policy, spec, prog, nic, calls, IfIndex(view.first, nic));
      SteadyDoneIff(before, view, policy, spec, prog, nic, calls, IfIndex(view.first, nic));
    }
    if Wants(policy, nic) {
      var (next, attached) := AttachFilter(before, view, nic, spec, prog, calls);
      tc, done := next, attached;
    } else {
      var (next, detached) := DetachFilter(before, view, nic, spec, prog, calls);
      tc, done := next, detached;
    }
  }

  /** Every lookup of the pass finds what the snapshot it iterates over says. */
  ghost predicate AllSteady(views: map<string, View>, snapshot: Snapshot)
    requires views.Keys == snapshot.Keys
  {
    forall nic :: nic in snapshot ==> Steady(views[nic], nic, snapshot[nic])
  }

  ghost predicate AllSpare(views: map<string, View>, policy: Policy, nics: set<string>, ifindex: int)
    requires nics <= views.Keys
  {
    forall nic :: nic in nics ==> Spares(views[nic], policy, nic, ifindex)
  }

  /** Foreign filters that the operations on `nics` spare are where they were. */
  ghost predicate SparedStay(before: Tc, after: Tc, views: map<string, View>, policy: Policy,
                             spec: AttachSpec, prog: nat, nics: set<string>)
    requires nics <= views.Keys
  {
    forall ifindex: int :: Foreign(before, ifindex, spec, prog) && AllSpare(views, policy, nics, ifindex) ==>
                             CellAt(after, ifindex, spec).filter == CellAt(before, ifindex, spec).filter
  }

  lemma SparedStayGrows(before: Tc, tc: Tc, next: Tc, views: map<string, View>, policy: Policy,
                        spec: AttachSpec, prog: nat, nics: set<string>, nic: string)
    requires nics <= views.Keys && nic in views
    requires SparedStay(before, tc, views, policy, spec, prog, nics)
    requires forall other: int :: Foreign(tc, other, spec, prog) && Spares(views[nic], policy, nic, other) ==>
               CellAt(next, other, spec).filter == CellAt(tc, other, spec).filter
    ensures SparedStay(before, next, views, policy, spec, prog, nics + {nic})
  {
    forall ifindex: int | Foreign(before, ifindex, spec, prog) && AllSpare(views, policy, nics + {nic}, ifindex)
      ensures CellAt(next, ifindex, spec).filter == CellAt(before, ifindex, spec).filter
    {
      assert AllSpare(views, policy, nics, ifindex);
      assert nic in nics + {nic};
      assert Foreign(tc, ifindex, spec, prog);
    }
  }

  /**
   `apply_targets_policy_per_attacher` in the order in which the unordered map happens to list the
   snapshot, while reloads may change what the lookups of each interface find.
   */
  method ApplyPolicy(before: Tc, snapshot: Snapshot, order: seq<string>, views: map<string, View>, policy: Policy,
                     spec: AttachSpec, prog: nat, calls: map<string, Calls>)
    returns (tc: Tc, success: bool)
    requires ValidTc(before) && ValidSnapshot(snapshot) && Enumerates(order, snapshot)
    requires calls.Keys == snapshot.Keys && views.Keys == snapshot.Keys
    ensures ValidTc(tc) && SameElsewhere(before, tc, spec)
    ensures SparedStay(before, tc, views, policy, spec, prog, snapshot.Keys)
    ensures AllSteady(views, snapshot) ==>
              && PassOutcome(before, tc, snapshot, policy, spec, prog, calls)
              && (success <==> AllDone(before, snapshot, policy, spec, prog, calls, snapshot.Keys))
    ensures AllSteady(views, snapshot) ==>
              (success <==> forall nic :: nic in snapshot ==>
                 var ours := (snapshot[nic], spec) in before.filters && before.filters[(snapshot[nic], spec)] == prog;
                 if Wants(policy, nic)
                 then calls[nic].hookOk && calls[nic].queryOk && (ours || calls[nic].writeOk)
                 else calls[nic].queryOk && (ours ==> calls[nic].writeOk))
  {
    tc, success := before, true;
    ghost var visited := {};
    var i := 0;
    while i < |order|
      invariant 0 <= i <= |order|
      invariant forall j :: 0 <= j < |order| ==> (order[j] in visited <==> j < i)
      invariant visited <= snapshot.Keys
      invariant ValidTc(tc) && SameElsewhere(before, tc, spec)
      invariant SparedStay(before, tc, views, policy, spec, prog, visited)
      invariant AllSteady(views, snapshot) ==>
                  && PartialOutcome(before, tc, snapshot, policy, spec, prog, calls, visited)
                  && (success <==> AllDone(before, snapshot, policy, spec, prog, calls, visited))
    {
      var nic := order[i];
      var next, done := VisitNic(tc, views[nic], policy, spec, prog, nic, calls[nic]);
      SparedStayGrows(before, tc, next, views, policy, spec, prog, visited, nic);
      if AllSteady(views, snapshot) {
        PartialOutcomeGrows(before, tc, next, snapshot, policy, spec, prog, calls, visited, nic);
      }
      if !done {
        success := false;
      }
      tc, visited, i := next, visited + {nic}, i + 1;
    }
    assert visited == snapshot.Keys;
    AllDoneIff(before, snapshot, policy, spec, prog, calls);
  }

  lemma AllDoneIff(before: Tc, snapshot: Snapshot, policy: Policy, spec: AttachSpec, prog: nat,
                   calls: map<string, Calls>)
    requires ValidTc(before) && ValidSnapshot(snapshot) && calls.Keys == snapshot.Keys
    ensures AllDone(before, snapshot, policy, spec, prog, calls, snapshot.Keys)
       <==> forall nic :: nic in snapshot ==>
              var ours := (snapshot[nic], spec) in before.filters && before.filters[(snapshot[nic], spec)] == prog;
              if Wants(policy, nic)
              then calls[nic].hookOk && calls[nic].queryOk && (ours || calls[nic].writeOk)
              else calls[nic].queryOk && (ours ==> calls[nic].writeOk)
  {
  }

  /** The table the policy asks for, said without reference to how a pass proceeds. */
  ghost predicate Declared(before: Tc, after: Tc, snapshot: Snapshot, policy: Policy, spec: AttachSpec, prog: nat) {
    && SameElsewhere(before, after, spec)
    && (forall nic :: nic in snapshot && Wants(policy, nic) ==>
                        CellAt(after, snapshot[nic], spec) == Cell(true, Some(prog)))
    && (forall nic :: nic in snapshot && !Wants(policy, nic) ==>
                        var cell := CellAt(before, snapshot[nic], spec);
                        CellAt(after, snapshot[nic], spec)
                        == if cell.filter == Some(prog) then cell.(filter := None) else cell)
    && (forall ifindex: int :: ifindex !in snapshot.Values ==>
                                 CellAt(after, ifindex, spec) == CellAt(before, ifindex, spec))
  }

  /** A successful pass with steady lookups is exactly the declarative update. */
  lemma SuccessfulPassIsDeclared(before: Tc, after: Tc, snapshot: Snapshot, policy: Policy, spec: AttachSpec, prog: nat,
                                 calls: map<string, Calls>)
    requires ValidTc(before) && ValidSnapshot(snapshot) && calls.Keys == snapshot.Keys
    requires PassOutcome(before, after, snapshot, policy, spec, prog, calls)
    requires AllDone(before, snapshot, policy, spec, prog, calls, snapshot.Keys)
    ensures Declared(before, after, snapshot, policy, spec, prog)
  {
    forall nic | nic in snapshot && Wants(policy, nic)
      ensures CellAt(after, snapshot[nic], spec) == Cell(true, Some(prog))
    {
      assert NicOutcome(before, snapshot, policy, spec, prog, calls, nic).1;
    }
    forall nic | nic in snapshot && !Wants(policy, nic)
      ensures var cell := CellAt(before, snapshot[nic], spec);
              CellAt(after, snapshot[nic], spec) == if cell.filter == Some(prog) then cell.(filter := None) else cell
    {
      assert NicOutcome(before, snapshot, policy, spec, prog, calls, nic).1;
    }
  }

  /** Cells and foreign slots together are the whole table. */
  lemma SameCellsSameTable(a: Tc, b: Tc, spec: AttachSpec)
    requires SameElsewhere(a, b, spec)
    requires forall ifindex :: CellAt(a, ifindex, spec) == CellAt(b, ifindex, spec)
    ensures a == b
  {
    forall ifindex: int
      ensures ifindex in a.hooks <==> ifindex in b.hooks
    {
      assert CellAt(a, ifindex, spec) == CellAt(b, ifindex, spec);
    }
    forall key: FilterKey
      ensures key in a.filters <==> key in b.filters
      ensures key in a.filters ==> a.filters[key] == b.filters[key]
    {
      assert CellAt(a, key.0, spec) == CellAt(b, key.0, spec);
      assert key == (key.0, key.1);
    }
    assert a.hooks == b.hooks;
    assert a.filters == b.filters;
  }

  /**
   The iteration order of the snapshot does not matter: two passes over the same table whose calls
   have the same outcomes leave the same table, also when some calls fail.
   */
  lemma PassOrderIrrelevant(before: Tc, a: Tc, b: Tc, snapshot: Snapshot, policy: Policy, spec: AttachSpec, prog: nat,
                            calls: map<string, Calls>)
    requires calls.Keys == snapshot.Keys
    requires PassOutcome(before, a, snapshot, policy, spec, prog, calls)
    requires PassOutcome(before, b, snapshot, policy, spec, prog, calls)
    ensures a == b
  {
    forall ifindex: int
      ensures CellAt(a, ifindex, spec) == CellAt(b, ifindex, spec)
    {
      if ifindex in snapshot.Values {
        var nic :| nic in snapshot && snapshot[nic] == ifindex;
      }
    }
    SameCellsSameTable(a, b, spec);
  }

  /** After a successful pass, running it again changes nothing, however its calls turn out. */
  lemma PassIdempotent(before: Tc, after: Tc, again: Tc, snapshot: Snapshot, policy: Policy,
                       spec: AttachSpec, prog: nat, calls: map<string, Calls>)
    requires ValidSnapshot(snapshot) && calls.Keys == snapshot.Keys
    requires Declared(before, after, snapshot, policy, spec, prog)
    requires PassOutcome(after, again, snapshot, policy, spec, prog, calls)
    ensures again == after
  {
    forall ifindex: int
      ensures CellAt(after, ifindex, spec) == CellAt(again, ifindex, spec)
    {
      if ifindex in snapshot.Values {
        var nic :| nic in snapshot && snapshot[nic] == ifindex;
        assert CellAt(again, ifindex, spec) == NicOutcome(after, snapshot, policy, spec, prog, calls, nic).0;
      }
    }
    SameCellsSameTable(after, again, spec);
  }
}
