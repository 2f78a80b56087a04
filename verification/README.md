# Verified model of libbpf-control-cpp

A Dafny model of the desired-state reconciliation system of libbpf-control-cpp, of the interface
monitor that feeds it, of the map wrappers, and of the packet parser of the TC example, with proofs
over every run or every input. `dafny verify dfyconfig.toml` checks all of it.

## What is modelled

**Reconciliation.** API callers edit an attacher's live policy and publish it in a second critical
section; the monitor thread reloads the interface snapshot and notifies; one worker drains a
coalescing request queue, runs passes over the kernel's TC table, retries, gives up, and restarts a
failed monitor. `Reconciler` is an interleaving of atomic steps, one per lock-protected block or per
snapshot lookup together with the kernel calls that rely on it. In particular `attach_filter` and
`detach_filter` are two steps each, because they look the ifindex up again in whatever snapshot is
published by then. The second step of `attach_filter` is a lookup, a query and an attach. Joining them
loses no behaviour: only the worker writes filters, a reload in between is seen by neither call, and
an interface lost in between might as well be lost afterwards (`LostBetweenQueryAndWrite`). Any number of callers and attachers, any interleaving and any pattern of failing
kernel calls is a run, and the kernel may lose an interface at any time. The invariants are in
`ReconcilerStructure`, `RestartProtocol`, `NoLostUpdate`, `Convergence` and `RetryBudget`; the
statements about all runs are in `ReconcilerTheorems`, those about filters of other programs in
`ForeignFilters`, and those about passes without a reload in `QuietPasses`. `CallerIntent` reads off
the history of a run what the callers of an attacher have asked for, and `RequestStamps` where each
request comes from. `WorkerWakeups` adds the condition variable on which the worker rests. `ExampleRuns`
has concrete runs for the findings below.

**Parts the steps are made of.** `Policies` (the attacher), `TrafficControl` (kernel table, filter
operations, a whole pass), `ApplyQueues` (queue, scan, wake-up time).

**Interface monitor.** `InterfaceMonitor` is the five-state lifecycle with descriptors, handlers and
thread, the dirty-flag/eventfd handshake and the debounce. `MonitorRefinement` is the reconciliation
system with this monitor in it, and maps each of its runs to a run of `Reconciler`. `Netlink` is the
header walk and the drain; `InterfaceReload` is the fold of the `getifaddrs` list.

**Map wrappers.** `MapWrappers` is the wrapper class with one specification function per operation;
`WrapperRuns` is many wrappers over one kernel and bpffs.

**Packet parser.** `PacketParser` is the bounded VLAN/IPv4 parser.

## Assumptions

These are the contracts of the environment, stated where they enter.

- A reloaded snapshot maps names to distinct ifindexes that are positive `int`s (`ValidSnapshot`);
  `if_nametoindex` and MAC answers do not change within one reload.
- Convergence is stated for attachers with pairwise distinct slots (`DistinctSlots`); the
  repository's README lists slot sharing as unresolved.
- Nobody else edits TC or bpffs, except that the kernel may lose an interface with its hook and
  filters. Convergence speaks of the interfaces it has not lost since the snapshot was published.
- One clsact hook per ifindex serves both directions. `bpf_tc_query` answers -EINVAL exactly when
  the hook is missing and -ENOENT exactly when the slot is empty, unless it fails otherwise.
- The clock is monotone; equal stamps occur.
- `inet_ntop` never writes the text N/A.
- A `close(2)` always releases its descriptor, and a new descriptor, map object or buffer is one not
  in use. Kernel layouts have 32-bit sizes.
- The host is little-endian for netlink headers. A moved-from string is empty.

## Findings

- "A newer request replaces an older one" has an exception the code makes for equal stamps: the
  comparison is `<=`, so a retry stamped in the same clock tick displaces a fresh request.
  `RetryDisplacesQueuedIff` gives the exact condition over every run, `SameTimeRetryDelaysFresh` a run.
- A filter operation looks its interface up twice, and a reload in between makes it write to another
  interface than it asked about. So filters of other programs on interfaces that the running pass does
  not want are left alone exactly as long as no interface is lost and no such reload comes:
  `detach_filter` asks about the interface the name meant first and detaches from the one it means
  then, and `attach_filter` asks about the one it means then and attaches to the one it meant first.
  `ForeignFilterLostIff` says exactly which step costs another program its filter,
  `UnwantedForeignLostIff` which one does on an unwanted interface, and `MovedDetachTakesForeignFilter`
  and `MovedAttachTakesForeignFilter` are runs in which it happens and the pass still counts as
  successful. A successful pass during which nothing is reloaded and no interface is lost is precisely
  the declarative update (`PassWithoutReloadIsDeclared`).
- The comment that the reload gives the same result for every entry order holds exactly for machines
  on which no resolving interface has two different triples of IPv4 address, netmask and broadcast
  address (`OrderIrrelevantIff`, `SwappedAddressesDiffer`).
- The error code of an NLMSG_ERROR message is read behind a guard that promises only the header. All
  reads stay inside the datagram exactly if each error message the walk reaches has four bytes behind
  its header (`WalkDatagram`), which for whole messages means that the last one is not a bare error
  header (`ErrorsInsideIff`); `BareErrorOverreads` and `BareErrorLeavesBuffer` are the inputs.
- The recorded layout of an open map equals the kernel's exactly if its sizes fit into 32 bits
  (`LayoutsAgree`, with the run in `OversizedLayoutDiffers`).
- A pin path is left without an owner exactly by closing, destroying or assigning over its owner, or
  by an unpin that cannot check whether the path exists (`OrphanedIff`, with the run in
  `ClosedOwnerLeavesPath`); from then on no wrapper removes it (`UnownedPathStays`).
- Creating an attacher queues no request, so an attacher that no pass has touched yet has its program
  on exactly those interfaces on which it sat in its slot before (`QuiescentConvergence`, with the run
  in `LeftoverFilterStays`).

## Model

| member | source | states |
|---|---|---|
| ReconcilerTheorems.QuiescentConvergence | src/bpf_tool/bpf_attach_manager.cpp:155-218 | in every quiescent reachable state, for any number of attachers with distinct slots, the last pass read the current policy and snapshot and either each interface that is still there holds the attacher's program iff its callers have asked for it there, by their last edits, or the pass gave up; with no pass yet, the program is on exactly the interfaces it was on at creation |
| CallerIntent.LiveIsWhatCallersAsked | src/bpf_tool/bpf_attacher.cpp:11-71 | over every run with any number of callers, a name is a live target iff it was added and neither removed nor cleared since, and the mode is attach-all iff that was set and selective not since |
| ExampleRuns.LeftoverFilterStays | include/bpf_tool/bpf_attach_manager.h:68-75 | a run that ends quiescent with a program left on an interface that does not want it |
| ReconcilerTheorems.NoUpdateIsLost | src/bpf_tool/bpf_attach_manager.cpp:125-172 | in every reachable state, a policy or snapshot published since the last pass read it (or since creation) is carried by a queued or taken request or by a notifier about to queue one |
| ReconcilerTheorems.PublishedMatchesLive | src/bpf_tool/bpf_attacher.cpp:11-90 | under every interleaving of edits, with no publication outstanding the published policy has the effect of the live one |
| ReconcilerTheorems.PassesAreBounded | src/bpf_tool/bpf_attach_manager.cpp:206-216 | finished passes plus passes still owed never exceed six per outside request, and none are owed iff nothing is queued, taken or being worked on |
| RetryBudget.QueueDrains | src/bpf_tool/bpf_attach_manager.cpp:206-216 | in any stretch without submissions no more passes finish than were owed at its beginning, each lowering what is owed |
| RetryBudget.DrainedIff | src/bpf_tool/bpf_attach_manager.cpp:49-93 | nothing owed iff queue, batch and current request are empty |
| ReconcilerTheorems.RetryDisplacesQueuedIff | src/bpf_tool/bpf_attach_manager.cpp:155-216 | over every run, the end of a pass displaces a queued request iff the pass failed with retries left, for the same attacher, and the queued stamp is not strictly later |
| ExampleRuns.SameTimeRetryDelaysFresh | src/bpf_tool/bpf_attach_manager.cpp:163-167 | a run in which an equal-stamp retry delays a fresh immediate request |
| WorkerWakeups.NoWakeupLost | src/bpf_tool/bpf_attach_manager.cpp:45-79 | over every run, a resting worker is about to be notified or rests no longer than to every deadline and the restart time, without limit only if there is no work |
| WorkerWakeups.RunOfBase | src/bpf_tool/bpf_attach_manager.cpp:142-172 | every run with rest and notifications is, without them, a run of the reconciliation system |
| ReconcilerTheorems.RetriesRunOnTime | src/bpf_tool/bpf_attach_manager.cpp:56-64 | over every run, a taken request was created by some event of the run, and retry k of it is taken only when the clock has advanced by k times 500 ms since |
| RequestStamps.RequestHasItsTime | include/bpf_tool/bpf_attach_manager.h:31-32 | over every run, each request, wherever it is and however often retried, carries the clock of the event that created it |
| ReconcilerTheorems.RetryCountsInRange | include/bpf_tool/bpf_attach_manager.h:21-51 | over every run, counts stay in 0..5, and a request is immediate iff its count is 0 |
| ReconcilerTheorems.SubmissionTakesEffect | src/bpf_tool/bpf_attach_manager.cpp:125-172 | over every run, a submission is queued as an immediate first attempt, in place of whatever was queued for its attacher and not stamped later |
| ReconcilerTheorems.ScanTakesWhatIsDue | src/bpf_tool/bpf_attach_manager.cpp:49-67 | the worker finds work iff a request is immediate or its delay over, or the restart time has come, and takes exactly that |
| ReconcilerTheorems.TakenRequestGetsItsPass | src/bpf_tool/bpf_attach_manager.cpp:174-186 | a taken request gets a pass over the policy published and the snapshot current when it reads them |
| ReconcilerTheorems.PassEnds | src/bpf_tool/bpf_attach_manager.cpp:206-217 | success queues nothing, a failure is queued again as the next retry five times, the sixth gives up |
| QuietPasses.QuietPassSucceedsIff | src/bpf_tool/bpf_attach_manager.cpp:174-217 | over every run, a pass during which nothing is reloaded or lost succeeds iff every kernel call that it really makes does |
| QuietPasses.CleanPassSucceeds | src/bpf_tool/bpf_attach_manager.cpp:174-251 | over every run, it succeeds if all calls do, whatever hooks and programs it finds |
| ReconcilerTheorems.SystemStep | src/bpf_tool/bpf_attach_manager.cpp:39-218 | every step of every thread keeps the conjunction of all system invariants |
| RestartProtocol.NoRestartLostOrDuplicated | src/bpf_tool/bpf_attach_manager.cpp:85-88 | in every reachable state a monitor is not running iff exactly one restart is requested, in the worker's hands or about to be requested; the worker never starts a running monitor |
| RestartProtocol.RestartWaits | src/bpf_tool/bpf_attach_manager.cpp:142-147 | over every run a requested restart is neither taken, moved nor dropped before its time |
| RestartProtocol.RequestedForLater | src/bpf_tool/bpf_attach_manager.cpp:137-149 | only a reported failure or a failed start requests one, for five seconds later |
| RestartProtocol.RestartSucceeds | src/bpf_tool/bpf_attach_manager.cpp:85-88 | a restart whose calls succeed ends with a running monitor in its loop |
| RestartProtocol.RestartMonitor | src/nic_check/interface_loader.cpp:429-433 | the monitor thread's steps, failure included, keep the count of owed restarts exact |
| RestartProtocol.RestartStart | src/bpf_tool/bpf_attach_manager.cpp:118-149 | every outcome of a start attempt keeps the count of owed restarts exact |
| NoLostUpdate.UpdatesMonitor | src/nic_check/interface_loader.cpp:436-483 | a published snapshot is never left without a notification before shutdown, although notifications are suppressed unless running |
| NoLostUpdate.UpdatesApi | src/bpf_tool/bpf_attacher.cpp:78-90 | publications stay carried by their caller until its request is queued |
| NoLostUpdate.UpdatesFinish | src/bpf_tool/bpf_attach_manager.cpp:206-217 | a failed pass leaves a queued request behind, its own or a newer one, or gives up |
| NoLostUpdate.UpdatesReads | src/bpf_tool/bpf_attach_manager.cpp:174-186 | the two separate reads of a pass each consume exactly the updates they see |
| Convergence.ConvergenceStep | src/bpf_tool/bpf_attach_manager.cpp:174-204 | every step keeps that an up-to-date pass has settled what it visited and that a succeeded, unsuperseded attacher is converged |
| Convergence.BegunKeepsFilters | src/bpf_tool/bpf_attach_manager.cpp:253-306 | the first half of a filter operation changes no filter, and when it is already done the interface is settled |
| Convergence.EndedSettlesNic | src/bpf_tool/bpf_attach_manager.cpp:273-328 | the second half touches one slot of one interface and, if it reports success on the interface it looked up, settles it |
| Convergence.NicStepsAreApplyNic | src/bpf_tool/bpf_attach_manager.cpp:253-329 | the two halves, each under the snapshot of its moment, are the whole operation |
| Convergence.LostBetweenQueryAndWrite | src/bpf_tool/bpf_attach_manager.cpp:273-289 | losing an interface between the query and the attach gives what losing it afterwards gives |
| ForeignFilters.ForeignFilterLostIff | src/bpf_tool/bpf_attach_manager.cpp:253-329 | over every run, a step costs another program its filter iff the interface goes away, an attach replaces it on the interface a wanted name meant at its first lookup, or a detach removes it from the one an unwanted name means at its second, after a reload |
| ForeignFilters.UnwantedForeignLostIff | src/bpf_tool/bpf_attach_manager.cpp:253-329 | over every run, on an interface the running pass does not want it takes a lost interface, or an attach or detach whose name a reload has moved between its lookups |
| ExampleRuns.MovedDetachTakesForeignFilter | src/bpf_tool/bpf_attach_manager.cpp:298-328 | a run in which that reload happens, the foreign filter is lost and the pass succeeds |
| ExampleRuns.MovedAttachTakesForeignFilter | src/bpf_tool/bpf_attach_manager.cpp:253-295 | a run in which a reload inside an attach makes it replace a foreign filter on an interface nobody wants |
| ForeignFilters.UnwantedForeignStays | src/bpf_tool/bpf_attach_manager.cpp:253-329 | over every run, a program's filter on an unwanted interface survives any stretch in which no pass of that program runs, no operation is overtaken by a reload and the interface stays |
| QuietPasses.PassWithoutReloadIsDeclared | src/bpf_tool/bpf_attach_manager.cpp:174-204 | over every run, a pass during which nothing is reloaded or lost makes precisely the declarative update if it succeeds, and touches no foreign filter on an unwanted interface if it fails |
| ForeignFilters.EndNicWrites | src/bpf_tool/bpf_attach_manager.cpp:273-328 | exactly which filter the second half of an operation changes, whatever its lookup finds |
| ForeignFilters.OperationStep | src/bpf_tool/bpf_attach_manager.cpp:253-316 | every step keeps that a detach in progress saw its own program and that the second lookup repeats the first unless a reload came between |
| RetryBudget.PassSpendsBudget | src/bpf_tool/bpf_attach_manager.cpp:206-216 | each finished pass strictly lowers the passes owed to its attacher, even when its retry is queued, and to no other |
| RetryBudget.WorkKeepsLoad | src/bpf_tool/bpf_attach_manager.cpp:49-93 | scanning, picking and visiting neither create nor drop owed passes |
| RetryBudget.AppendAddsBudget | src/bpf_tool/bpf_attach_manager.cpp:155-168 | an append adds at most its own request's remaining passes, to its own attacher |
| RetryBudget.QueuedTimeNeverGoesBack | src/bpf_tool/bpf_attach_manager.cpp:155-172 | over any run in which an attacher's request stays queued, its request time never decreases |
| Policies.FlagsExactlyEffectiveEdits | src/bpf_tool/bpf_attacher.cpp:11-71 | an edit publishes iff it changes the set of interfaces the policy wants |
| Policies.Attacher.constructor | src/bpf_tool/bpf_attacher.cpp:6-7 | starts selective, without targets, settled |
| Policies.Attacher.Publish | src/bpf_tool/bpf_attacher.cpp:78-86 | settles the attacher from any state: no publication is outstanding afterwards, whatever was published before |
| Policies.Attacher.Add | src/bpf_tool/bpf_attacher.cpp:11-25 | the name is added and no other touched, whether it notifies, the snapshot, and that a settled attacher stays settled |
| Policies.Attacher.Remove | src/bpf_tool/bpf_attacher.cpp:26-40 | the same for removal, missing targets included |
| Policies.Attacher.Clear | src/bpf_tool/bpf_attacher.cpp:41-55 | the same for clearing, the empty list included |
| Policies.Attacher.ChangeMode | src/bpf_tool/bpf_attacher.cpp:62-71 | the same for a mode change, the unchanged mode included |
| TrafficControl.ApplyPolicy | src/bpf_tool/bpf_attach_manager.cpp:185-204 | for every iteration order, failure pattern and sequence of reloads, other slots and spared foreign filters stay; with steady lookups each interface ends as its own operation on the initial table leaves it, nothing else moves, and the pass succeeds iff every call it makes does |
| TrafficControl.VisitNic | src/bpf_tool/bpf_attach_manager.cpp:188-203 | the loop body touches only the interfaces its two lookups find, and refines the one-cell operation when they agree; it then reports failure iff a call it makes fails |
| TrafficControl.ApplyNicRefinesCell | src/bpf_tool/bpf_attach_manager.cpp:220-329 | when both lookups agree, hook creation, query classification, replace flag and detach together refine a direct description of what happens to the hook and the slot |
| TrafficControl.LookupFinds | src/nic_check/interface_loader.cpp:612-623 | a lookup finds exactly the interfaces of the snapshot, through the cast to int |
| TrafficControl.DoneIff | src/bpf_tool/bpf_attach_manager.cpp:220-329 | whatever the two lookups find, exactly when an operation counts as done, in terms of the table and the calls; a missing hook or another program is no failure |
| TrafficControl.SteadyDoneIff | src/bpf_tool/bpf_attach_manager.cpp:220-329 | with steady lookups an operation fails iff a call that it really makes fails |
| TrafficControl.ApplyNicIsContained | src/bpf_tool/bpf_attach_manager.cpp:253-329 | however the lookups differ, only looked-up cells change, and a foreign filter is spared unless it is attached over or moved onto |
| TrafficControl.SuccessfulPassIsDeclared | src/bpf_tool/bpf_attach_manager.cpp:174-204 | a successful pass with steady lookups is the declarative update: our program on wanted interfaces, removed from unwanted ones, foreign programs there and all other slots untouched |
| TrafficControl.PassOrderIrrelevant | src/bpf_tool/bpf_attach_manager.cpp:188-204 | two iteration orders give the same table, also when calls fail |
| TrafficControl.PassIdempotent | src/bpf_tool/bpf_attach_manager.cpp:253-329 | after a successful pass a second one changes nothing, whatever its calls answer |
| ApplyQueues.AppendKeepsNewest | src/bpf_tool/bpf_attach_manager.cpp:155-168 | one request per id, the newer one, other ids untouched, no request time goes back |
| ApplyQueues.ScanSplitsQueue | src/bpf_tool/bpf_attach_manager.cpp:56-64 | the scan splits the queue exactly: taken iff immediate or 500 ms per retry have passed since the stamp |
| ApplyQueues.WorkerQueue.AppendRequest | src/bpf_tool/bpf_attach_manager.cpp:155-168 | the coalescing append, and exactly when it changes the queue |
| ApplyQueues.WorkerQueue.Scan | src/bpf_tool/bpf_attach_manager.cpp:49-79 | takes exactly the due requests and restart, or sleeps to the earliest deadline, which exists and lies in the future |
| ApplyQueues.WorkerQueue.TakeDue | src/bpf_tool/bpf_attach_manager.cpp:56-64 | the erase-while-iterating loop loses and duplicates nothing |
| ApplyQueues.WorkerQueue.EarliestWake | src/bpf_tool/bpf_attach_manager.cpp:69-75 | the minimum of all deadlines and the restart time, attained |
| InterfaceMonitor.StoppedHoldsNothing | src/nic_check/interface_loader.cpp:179-254 | over every start/stop/failure sequence a stopped monitor at rest has both descriptors closed, no thread and no handlers, and a thread always has all of them |
| InterfaceMonitor.FailureReportedOnce | src/nic_check/interface_loader.cpp:429-433 | the failure callback runs at most once per thread, exactly once when it failed, never when a stop came first |
| InterfaceMonitor.NoRefreshMarkLost | src/nic_check/interface_loader.cpp:260-288 | in the running loop every stored mark is visible or taken, a refresh is pending as long as a taken mark has not been followed by one, and a visible mark has a wake-up behind it |
| InterfaceMonitor.PendingIff | src/nic_check/interface_loader.cpp:399-426 | over every run, a refresh is pending iff the loop has learned of a change, from a mark or from the socket, and neither a refresh nor a new loop has begun since |
| InterfaceMonitor.RefreshSchedule | src/nic_check/interface_loader.cpp:399-426 | learning of a change puts the refresh off to the debounce from now; a round refreshes iff one is pending and its time has come |
| InterfaceMonitor.MarkLeadsToRefresh | src/nic_check/interface_loader.cpp:366-427 | a mark with its wake-up written is taken in one round and refreshed when the debounce is over |
| InterfaceMonitor.StartSucceeds | src/nic_check/interface_loader.cpp:179-228 | a start whose calls succeed ends with a running loop, everything open and a first mark with its wake-up |
| InterfaceMonitor.StopWakesThread | src/nic_check/interface_loader.cpp:230-254 | a stop wakes the thread out of its poll |
| InterfaceMonitor.RefreshesAreDebounced | src/nic_check/interface_loader.cpp:399-426 | over every run, a refresh begins only after an unanswered change and no earlier than the debounce after every change the loop has learned of |
| InterfaceMonitor.LifecycleCall | src/nic_check/interface_loader.cpp:179-254 | each step of start and stop keeps what is open at each point and the report count |
| InterfaceMonitor.LifecycleThread | src/nic_check/interface_loader.cpp:366-434 | each step of the loop keeps the same |
| InterfaceMonitor.MarksCall | src/nic_check/interface_loader.cpp:211-212 | start and stop keep the mark handshake |
| InterfaceMonitor.MarksThread | src/nic_check/interface_loader.cpp:273-279 | draining before exchanging keeps the mark handshake |
| InterfaceMonitor.InvRequest | src/nic_check/interface_loader.cpp:281-288 | requesters keep the mark handshake |
| MonitorRefinement.RunRefines | src/nic_check/interface_loader.cpp:179-473 | every run of the reconciliation system with the detailed monitor maps to a run of the coarse one that ends in the abstraction of its end |
| MonitorRefinement.SystemRefines | src/nic_check/interface_loader.cpp:179-434 | one step of it is one enabled step of the coarse system, or none |
| MonitorRefinement.InitRefines | src/bpf_tool/bpf_attach_manager.cpp:97-105 | a successful initial start, after any history of the monitor, is where the coarse system begins |
| MonitorRefinement.DetailedSystemInv | src/bpf_tool/bpf_attach_manager.cpp:39-218 | all invariants of the reconciliation system hold in every reachable state with the detailed monitor |
| MonitorRefinement.DetailedRestartOwed | src/bpf_tool/bpf_attach_manager.cpp:137-149 | there, outside of a lifecycle call, the monitor runs or exactly one restart is requested, held or about to be reported |
| Netlink.WalkDatagram | src/nic_check/interface_loader.cpp:340-360 | a change is seen iff the walk meets a message of type 16, 17, 20 or 21; the farthest byte read lies inside the datagram, or the buffer, iff every error message it meets has its four-byte code there |
| Netlink.WalkVisits | src/nic_check/interface_loader.cpp:340-343 | on any bytes, which headers the walk visits and where it goes on |
| Netlink.ReloadCalledFor | src/nic_check/interface_loader.cpp:314-351 | which receives call for a reload, with the four message types |
| Netlink.ErrorsInsideSaid | src/nic_check/interface_loader.cpp:352-354 | which bytes are read of error messages, by type and offset |
| Netlink.DrainNetlink | src/nic_check/interface_loader.cpp:290-364 | a change is reported iff a consumed receive overran, was truncated or contains such a message; what is consumed is exact, and so is whether all reads stayed inside |
| Netlink.WalkSeesEveryMessage | src/nic_check/interface_loader.cpp:341-343 | on whole messages with any padding the walk visits each message once, in order and in its place |
| Netlink.ChangeMeansLinkOrAddressEvent | src/nic_check/interface_loader.cpp:345-351 | such a datagram calls for a reload iff one of its messages is NEWLINK, DELLINK, NEWADDR or DELADDR |
| Netlink.ErrorsInsideIff | src/nic_check/interface_loader.cpp:352-354 | reading such a datagram stays inside it iff its last message is not an error message with nothing behind its header |
| Netlink.BareErrorOverreads | src/nic_check/interface_loader.cpp:352-354 | a datagram of sixteen bytes of which twenty are read |
| Netlink.BareErrorLeavesBuffer | src/nic_check/interface_loader.cpp:352-354 | a full buffer past whose end four bytes are read |
| InterfaceReload.ReloadSnapshot | src/nic_check/interface_loader.cpp:509-588 | which names are in the map, with what ifindex and MAC; that each has the address, netmask and broadcast texts of its first AF_INET entry that lacks none, or N/A if there is none; and what the two counters count |
| InterfaceReload.VisitEntry | src/nic_check/interface_loader.cpp:521-586 | the loop body, with its two counters |
| InterfaceReload.VisitedIsSnapshot | src/nic_check/interface_loader.cpp:531-585 | one more entry turns the snapshot of a list into the snapshot of the longer list |
| InterfaceReload.FamilyOrderIrrelevant | src/nic_check/interface_loader.cpp:511-517 | lists agreeing on resolving names and on each name's AF_INET entries give equal maps |
| InterfaceReload.OrderIrrelevantIff | src/nic_check/interface_loader.cpp:516-562 | all permutations give the same map iff no resolving interface has two different convertible triples |
| InterfaceReload.SwappedAddressesDiffer | src/nic_check/interface_loader.cpp:561-562 | a list whose permutation gives another map |
| PacketParser.ParseEtherTypeAndNext | tc_bpf/tc_mirroring.c:60-83 | three bounded rounds compute the tag skip, and the result is in bounds and no tag |
| PacketParser.TcMirroring | tc_bpf/tc_mirroring.c:123-162 | all reads in bounds; a report goes out iff the packet parses, monitoring is on and a slot is reserved |
| PacketParser.EncodeParseRoundTrip | tc_bpf/tc_mirroring.c:52-100 | parsing an encoded header stack returns the offset 14+4k and its addresses, type and protocol |
| PacketParser.AcceptedBytes | tc_bpf/tc_mirroring.c:52-156 | the accepted packets byte by byte, with their type fields, and the reported bytes |
| PacketParser.ParseAcceptsExactlyStacks | tc_bpf/tc_mirroring.c:60-100 | accepted iff the bytes start with an Ethernet header, at most three tags and a complete IPv4 header |
| PacketParser.AcceptedIsStack | tc_bpf/tc_mirroring.c:85-100 | an accepted packet decomposes into such a stack and a payload |
| MapWrappers.Wrapper.Moved | include/bpf_map_control/bpf_control_base.hpp:127-130 | the new wrapper has everything, the source is left empty |
| MapWrappers.Wrapper.Take | include/bpf_map_control/bpf_control_base.hpp:131-141 | the target closes what it had and takes everything; self-assignment changes nothing |
| MapWrappers.Wrapper.Pin | include/bpf_map_control/bpf_control_base.hpp:147-168 | success iff the wrapper has become an owner, and then the new path names its map; every refusal has its code and changes nothing |
| MapWrappers.Wrapper.Close | include/bpf_map_control/bpf_control_base.hpp:169-185 | always ends closed, unbuffered and without ownership, with bpffs unchanged and the buffer freed before the descriptor |
| MapWrappers.Wrapper.Unpin | include/bpf_map_control/bpf_control_base.hpp:186-217 | ownership comes back only when the path exists and could not be removed; every other branch's code and state |
| MapWrappers.Wrapper.Open | src/bpf_map_control/bpf_map_control.cpp:23-67 | adopting a pin checks its layout and closes what it refuses, a fresh open creates; state and code on every outcome |
| MapWrappers.Wrapper.Create | src/bpf_map_control/bpf_perf_buffer_control.cpp:46-68 | a fresh open succeeds iff a closed wrapper ends open, and then the kernel has the new descriptor with the requested layout; every size check and failure leaves the kernel alone |
| MapWrappers.Wrapper.CheckSizes | src/bpf_map_control/bpf_perf_buffer_control.cpp:47-52 | which sizes pass: powers of two, and a positive CPU count for a perf buffer |
| MapWrappers.SizeOkIff | src/bpf_map_control/bpf_ring_buffer_control.cpp:46-47 | the mask test on bits lets through exactly the powers of two |
| MapWrappers.RequestedSaid | src/bpf_map_control/bpf_map_control.cpp:55-61 | what a fresh open asks the kernel for, and that a perf map has one entry per CPU |
| MapWrappers.Wrapper.CreateBuffer | src/bpf_map_control/bpf_ring_buffer_control.cpp:66-83 | succeeds iff the map is open, the callbacks are set and the buffer is made, before the old one is freed; a failure to make it leaves the map open without one |
| WrapperRuns.DescriptorsConserved | include/bpf_map_control/bpf_control_base.hpp:127-144 | over every run each issued descriptor is held by exactly one live wrapper or was closed once, and no close or free was ever misplaced |
| WrapperRuns.BuffersLiveInsideDescriptors | src/bpf_map_control/bpf_ring_buffer_control.cpp:20-102 | over every run a buffer exists only while its descriptor is open, in one wrapper |
| WrapperRuns.OneBufferPerDescriptor | src/bpf_map_control/bpf_ring_buffer_control.cpp:99-102 | once its wrapper frees its buffer a descriptor carries none, so the close that follows is safe |
| WrapperRuns.PinsHaveOneOwner | include/bpf_map_control/bpf_control_base.hpp:147-217 | over every run an owner is open, its path exists and names its map, and owners have distinct paths |
| WrapperRuns.RemovedByHeirOfItsPin | include/bpf_map_control/bpf_control_base.hpp:127-217 | over every run a path is removed only by an unpin of the wrapper whose pin created it, or of its successor through moves, and is never redirected |
| WrapperRuns.OwnerTracesToPin | include/bpf_map_control/bpf_control_base.hpp:127-168 | over every run each owner goes back, through moves alone, to a pin that found its path free |
| WrapperRuns.UnownedPathStays | include/bpf_map_control/bpf_control_base.hpp:147-217 | over every run a path that no wrapper owns is never removed, redirected or owned again |
| WrapperRuns.PathRemovedOnlyByItsOwner | include/bpf_map_control/bpf_control_base.hpp:186-217 | one step: a path disappears only through an unpin by the holder of the ticket of its pin |
| WrapperRuns.OwnershipComesFromPinOrMove | include/bpf_map_control/bpf_control_base.hpp:127-168 | one step: ownership comes from one's own pin or from the wrapper moved from |
| WrapperRuns.OrphanedIff | include/bpf_map_control/bpf_control_base.hpp:127-217 | an owner's path is left without an owner iff the owner is closed, destroyed or assigned over, or its unpin cannot check the path |
| WrapperRuns.ClosedOwnerLeavesPath | include/bpf_map_control/bpf_control_base.hpp:169-185 | a run that leaves such a path |
| WrapperRuns.AddEmpty | include/bpf_map_control/bpf_control_base.hpp:143-143 | constructing a wrapper disturbs no other |
| WrapperRuns.UnpinOfOwner | include/bpf_map_control/bpf_control_base.hpp:192-217 | when an owner's unpin removes, keeps ownership, or orphans the path, each exactly |
| WrapperRuns.PinSucceedsIff | include/bpf_map_control/bpf_control_base.hpp:147-168 | a pin succeeds iff the wrapper is open and owns nothing, the path is free and both calls succeed, and changes nothing otherwise |
| WrapperRuns.PinUnpinRoundTrip | include/bpf_map_control/bpf_control_base.hpp:147-217 | unpin undoes pin |
| WrapperRuns.LayoutsAgree | src/bpf_map_control/bpf_map_control.cpp:53-67 | over every run the recorded layout of an open map is the kernel's iff its sizes fit into 32 bits; likewise ring sizes |
| WrapperRuns.OversizedLayoutDiffers | src/bpf_map_control/bpf_map_control.cpp:53-67 | a run that ends with a recorded layout the kernel does not have |
| WrapperRuns.MismatchedPinIsRefused | src/bpf_map_control/bpf_map_control.cpp:142-186 | a pinned object is adopted iff its type and sizes are those asked for, and otherwise the wrapper stays closed and the descriptor is released |
| WrapperRuns.MoveAssignIsCloseThenMove | include/bpf_map_control/bpf_control_base.hpp:131-141 | move assignment is a close followed by a move into the emptied wrapper |
| WrapperRuns.InvStep | include/bpf_map_control/bpf_control_base.hpp:127-217 | every operation of every wrapper keeps the shared invariant |

## Left out

- Shutdown of the manager and its liveness: the reconciliation system ends where a stop is requested.
- Liveness in general: results are invariants and bounds; that enabled steps eventually happen is not claimed.
- Attachers that share a slot, and external edits of TC or bpffs.
- `request_refresh` on the manager's own loader: the loader is private to it and nothing calls it there.
- Concurrent `start_monitor` and `stop_monitor` calls, which the API contract forbids.
- Wrong use of the eventfd (a failing write other than a full counter) and memory-ordering detail.
- Lookup, update, delete and clear of map entries, and polling: single kernel calls or easy loops.
- The program loader, the signal waiter, the runtime switch and the example's `main`: straight-line calls or easy state.
- Packet mirroring, ring-buffer reservation and map lookups of the example program: kernel helpers.
- Logging, error strings, the last-error field, and MAC and IP text formatting.
- The monitor thread, the API callers and the worker as one object with fields: their interleaving is a state machine over values; the classes cover what one thread does alone.
- Aliasing between wrappers: the class covers one or two wrappers with the kernel passed as a value, and runs over many wrappers are on values through the class's own specification functions.
- Poll timeouts and the `POLLERR` test before a drain: the drain results are about `drain_netlink` alone.
