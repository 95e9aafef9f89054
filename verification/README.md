# Serf's membership and gossip core, verified

This project models the per-node core of Serf, the gossip-based cluster membership
layer: the handlers that keep the member list, the Lamport clocks and the rings that
recognise duplicate queries and user events, the exchange of state between two nodes,
the snapshot log and its replay, the collection of query responses, and the event
coalescers. What the handlers do is given by functions on the state of a node; the
imperative parts (classes on maps, lists, arrays and files, with the loops of the
original) are proved to do the same; and the theorems speak about every run.

What is in which file:

- `Types`, `Membership`: the records, and each membership handler as a function.
- `MembershipInvariants`, `Lifecycle`: what every handler keeps, and what becomes of a
  member. `Handlers`: the node in place.
- `IntentConvergence`, `Stamps`, `Gossip`, `ClusterAgreement`, `PushPull`, `Masking`,
  `Settling`, `Exchange`: what holds between nodes.
- `Clock`, `QueryRing`, `EventRing`: the shared clock and the rings.
- `Framing`, `SnapshotLog`, `Snapshotter`, `Restart`, `LiveSet`: the snapshot.
- `QueryRegistry`, `QueryResponse`, `MemberCoalescer`, `UserCoalescer`: what is handed to the
  application.

## Assumptions

- A membership handler holds the members lock from start to end, so it is one step. The
  clock update it does before taking the lock is covered by letting any run contain
  clock updates anywhere. A leave intent also reads whether the node is running before it
  takes the lock; the model reads it inside.
- Merging a peer's state takes the lock once per artificial intent; the theorems about
  merging take it as uninterrupted. What every handler keeps holds in any case, since an
  artificial intent is a step like any other.
- Times are unbounded outside `Clock` and the snapshot, where they are 64 bits wide.
  Additions there wrap, as they do in a release build; `Clock.BoundedTimesNeverWrap` says
  when that makes no difference.
- Wall time, timeouts, decoded tags, filter verdicts and the fanout of a broadcast are
  parameters. One handler, one sweep of a list or one merge reads one wall time.
- The bytes of a node come from a codec outside the repository; it is any pair of
  functions that decodes what it encoded and refuses to encode into a buffer that is too
  short.
- Reading and writing files succeeds, and a compacted file takes the place of the old one
  at once. Channels to the application stay open, except in `QueryResponse` and in the two
  coalescers.
- Every member event reaches the snapshotter. The code drops one, for it or for the
  application, when a channel is full; `LiveSet` speaks of the events that get through.

## Where the code falls short of what one would expect

Each expectation is met exactly under a condition, and there is a case in which it is not.

- Intents about a member bring every node to the same end exactly if the newest of them
  decides: a join and a leave with the same time, or a leave at time zero, leave it to the
  order of arrival (`IntentConvergence.NodesAgreeIffDecisive`,
  `IntentConvergence.NodesDisagreeOnMember`).
- The state exchange makes such ties. A member that is leaving at the peer is sent as
  joining at that time, so a node takes it for joining and later drops the leave itself,
  which it would have taken exactly if all it had noted was older
  (`Masking.ExchangeMasksLeave`, `Masking.MaskedInOneExchange`). The two nodes then stay
  split over the member, however often they exchange their states (`Masking.SplitLasts`).
- Merging the same state again changes nothing, but it spawns another refutation exactly
  if the peer lists the running local node as left at a time that is not old here
  (`PushPull.MergeIsIdempotent`, `Masking.RefutedAgainAndAgain`), until one of them has run
  (`PushPull.RefutationSettlesTheMerge`).
- Exchanges come to rest exactly if each node is done with all the other sends
  (`Settling.AtRestIffNothingChanges`), which never happens while both hold a member as
  left: an artificial leave is one past the recorded time, so each merge outdoes the other
  node, and the member's time climbs without end (`Settling.SharedLeftMemberUnsettles`,
  `Settling.LeftMemberClimbs`, `Settling.BothHeardItGone`).
- A slot of the user-event ring is never given up, so content sent again at another time
  on the same slot is dropped although it is new
  (`EventRing.MeetsIdealUnlessOccupied`, `EventRing.SameContentOneRingLaterIsDropped`).
  Events from such a slot reach a peer with the slot's first time.
- A node drops an event of its own as old exactly if, between stamping and processing it,
  a time a whole ring later comes in or the minimum time is raised past the stamp
  (`EventRing.OwnEventIsRecentIffSpared`, `EventRing.OwnEventIsDroppedByLaterMinimum`).
- A node whose record takes more than 64 bytes is never written to the snapshot: the
  encoder hands it a slice of only the five bytes already there. The file replays to the
  memory exactly if there is no such node (`Snapshotter.Snapshot.Stream`); otherwise the
  node is forgotten at the next start (`Restart.LargeNodeIsForgotten`), and meanwhile every
  compaction fails and the log grows past its limit
  (`Snapshotter.LargeNodeLetsTheLogGrow`).
- The snapshotter's set and the live members part exactly when a live member is pruned or
  comes back with another address (`LiveSet.StaysInSyncIffCareful`,
  `LiveSet.PrunedMemberIsKept`). After a restart they agree exactly if each node from the
  file is live or was reported as left or failed (`LiveSet.SnapshotterHoldsLiveMembers`);
  one that never comes back stays (`LiveSet.LoadedNodeNeverSeenIsKept`).
- A pruning leave that erases a member is passed on a second time when it comes again,
  since erasing the member erases the note of its time, exactly unless an intent as new
  was buffered before (`Gossip.PruningLeaveIsRelayedTwice`).
- A query has its time for itself exactly if none is stamped before the clock has moved
  past the earlier ones; the comment that times and queries are one to one does not hold
  for queries issued at once. A reply reaches its query exactly if no other of the same
  time registers or expires meanwhile (`QueryRegistry.TimesDistinctIffOneByOne`,
  `QueryRegistry.RepliesReachTheirQueryIffUndisturbed`, `QueryRegistry.TwoAtOnceAreBothLost`).
- The nodes recorded as having responded are those whose responses were delivered exactly
  if no response was sent on a channel that its receiver had closed
  (`QueryResponse.EachNodeIsDeliveredOnce`,
  `QueryResponse.ClosedReceiverRecordsTheUndelivered`).

Two remarks. The comment on merging says that left members must come first; the outcome
does not depend on it (`PushPull.MergeOrderDoesNotMatter`). And the size limit of the log
takes the configured minimum as a parameter: below 27 bytes a compacted log without nodes
would exceed it (`Snapshotter.Snapshot.Compact`), which the 128 KiB of the program rule out.

## Model

| member | source | states |
|---|---|---|
| `Clock.Witnessed` | serf-core/src/types/clock.rs:155-172 | an undisturbed witness(t) leaves the clock beyond t, never moves it back, and never further than needed |
| `Clock.StepHonestIffNoWrap` | serf-core/src/types/clock.rs:146-172 | a load, compare-and-swap or fetch-add keeps its promise (clock not back, witness beyond its time, increment beyond every earlier value) if and only if its 64-bit addition does not overflow |
| `Clock.StepKeepsInv` | serf-core/src/types/clock.rs:146-172 | every atomic step of every thread keeps the clock beyond all completed witnesses and the issued times strictly increasing |
| `Clock.RunKeepsInv` | serf-core/src/types/clock.rs:146-172 | the same over every interleaving; the value at the end is not below the value at the start |
| `Clock.ConcurrentClockIsSafe` | serf-core/src/types/clock.rs:146-172 | for any number of threads and any schedule, with spurious swap failures: every completed witness(t) has left the clock beyond t, and no two increments returned the same time |
| `Clock.LostSwapMeansProgress` | serf-core/src/types/clock.rs:160-171 | a swap that fails other than spuriously lost against a thread that moved the clock forward, so some thread always gets on |
| `Clock.BoundedTimesNeverWrap` | serf-core/src/types/clock.rs:146-172 | a bound that can be checked beforehand: if the largest witnessed time plus the number of increments stays below 2^64 nothing overflows |
| `MembershipInvariants.StepKeepsIndex` | serf-core/src/serf/base.rs:1213-1660 | every handler keeps: failed and left lists without duplicates, listing exactly the members with that status with their leave times; a leave time is absent exactly for alive and leaving members |
| `MembershipInvariants.JoinKeepsIndex` | serf-core/src/serf/base.rs:1213-1341 | a memberlist join keeps that index, also when a failed or left member comes back |
| `MembershipInvariants.LeaveKeepsIndex` | serf-core/src/serf/base.rs:1382-1447 | a memberlist leave keeps it, whatever the member's status |
| `MembershipInvariants.JoinIntentKeepsIndex` | serf-core/src/serf/base.rs:1345-1380 | a join intent keeps it |
| `MembershipInvariants.LeaveIntentKeepsIndex` | serf-core/src/serf/base.rs:1449-1579 | a leave intent keeps it, with and without pruning, including the move from failed to left |
| `MembershipInvariants.DepartKeepsIndex` | serf-core/src/serf/base.rs:1527-1539 | moving a failed member to the left list keeps it |
| `MembershipInvariants.PruneKeepsIndex` | serf-core/src/serf/base.rs:1635-1660 | erasing a leaving or left member keeps it |
| `MembershipInvariants.ReapFailedKeepsIndex` | serf-core/src/serf/base.rs:521-553 | sweeping the failed list keeps it |
| `MembershipInvariants.ReapLeftKeepsIndex` | serf-core/src/serf/base.rs:521-553 | sweeping the left list keeps it |
| `MembershipInvariants.SweepTakesTheExpired` | serf-core/src/serf/base.rs:521-553 | the swap-remove loop, from any index: what stays and what goes make up the list as multisets, what goes is expired and what stays is not |
| `MembershipInvariants.EraseTakesIds` | serf-core/src/serf/base.rs:499-519 | erasing a list of members takes out exactly their ids, touches no other entry, and sends one reap event each in order |
| `MembershipInvariants.ReaperTakesExactlyTheExpired` | serf-core/src/serf/base.rs:521-553 | for either list and every per-member timeout function the reaper removes exactly the expired entries, keeps the others as a multiset, erases exactly those ids, reports each once and changes nothing else |
| `MembershipInvariants.DownMemberIsReapedOnceExpired` | serf-core/src/serf/base.rs:1389-1414 | a member that goes down, failed or left, is erased by a later sweep exactly when it has been away longer than its timeout |
| `MembershipInvariants.LiveCountNeverUnderflows` | serf-core/src/serf/base.rs:650 | members minus failed minus left is the number of alive and leaving members, so the subtraction never underflows |
| `MembershipInvariants.StepKeepsDominance` | serf-core/src/serf/base.rs:196-205 | every handler keeps the member clock strictly ahead of every recorded status time and buffered intent, and never moves it back |
| `MembershipInvariants.StepKeepsFaith` | serf-core/src/serf/base.rs:1272-1321 | every handler keeps the event stream faithful: read from the start by a consumer it never makes no sense, and it rebuilds every member's presence, node and tags |
| `MembershipInvariants.JoinKeepsFaith` | serf-core/src/serf/base.rs:1272-1321 | a memberlist join sends the event that stands for its change |
| `MembershipInvariants.LeaveKeepsFaith` | serf-core/src/serf/base.rs:1417-1443 | so does a failure or departure |
| `MembershipInvariants.UpdateKeepsFaith` | serf-core/src/serf/base.rs:1597-1626 | so does an update |
| `MembershipInvariants.LeaveIntentKeepsFaith` | serf-core/src/serf/base.rs:1507-1578 | so does a leave intent, forced departure and pruning included |
| `MembershipInvariants.PruneKeepsFaith` | serf-core/src/serf/base.rs:1635-1660 | so does pruning |
| `MembershipInvariants.ReapKeepsFaith` | serf-core/src/serf/base.rs:521-553 | so does the reaper |
| `MembershipInvariants.RunKeepsSound` | serf-core/src/serf/base.rs:1213-1660 | every run of handlers keeps index, clock dominance and faithful events together |
| `MembershipInvariants.EveryReachableStateIsSound` | serf-core/src/serf/base.rs:123-205 | every state any run reaches from startup, with or without a snapshot clock, has all three |
| `Lifecycle.ComesBackAlive` | serf-core/src/serf/base.rs:1254-1281 | a known member that joins, whatever its status, failed and left included, is alive, with the status time and versions it had, and is reported with its new node and tags |
| `Lifecycle.FirstJoin` | serf-core/src/serf/base.rs:1282-1321 | a new member is alive since zero or what the kept intent says, with the local node's versions |
| `Lifecycle.StaysAliveIff` | serf-core/src/serf/base.rs:1213-1660 | through any handler an alive member stays alive if and only if memberlist does not report it down and no newer leave about it is taken |
| `Lifecycle.GoesDownAs` | serf-core/src/serf/base.rs:1382-1447 | a leaving member that goes down has left and is reported departed, an alive one has failed and is reported lost; one that is down stays as it is |
| `Lifecycle.BackAndDownAgainHasFailed` | serf-core/src/serf/base.rs:1262-1444 | over every run: a member that came back and goes down again, with no leave taken in between, has failed and is reported lost |
| `Lifecycle.UpdatedAs` | serf-core/src/serf/base.rs:1596-1626 | an update replaces node, tags and versions, keeps status and both times, and is reported |
| `Lifecycle.UnusableNewsChangesNothing` | serf-core/src/serf/base.rs:1228-1240 | metadata that does not decode, and news of unknown members, change nothing |
| `Lifecycle.PrunedAs` | serf-core/src/serf/base.rs:1506-1578 | a pruned member is gone and reported as reaped; a failed one as departed before that |
| `Lifecycle.LeaveOfOddStatus` | serf-core/src/serf/base.rs:1506-1578 | a leave about a member without status is noted but not acted on; about one of unknown status it is taken as about an alive one |
| `Lifecycle.IntentIsForgottenOnceOld` | serf-core/src/serf/base.rs:1827-1873 | an intent kept for an unknown member is dropped by the sweep exactly when it is older than the limit |
| `Lifecycle.OldIntentsGo` | serf-core/src/serf/base.rs:1827-1829 | the sweep drops exactly the old intents and changes nothing else |
| `Lifecycle.NoLeaveTimeIsExpired` | serf-core/src/serf/base.rs:536-541 | an entry is expired exactly if it has been away longer than its timeout, or has no leave time |
| `Lifecycle.StartsAhead` | serf-core/src/serf/base.rs:193-205 | a new node knows nobody and its clock is the least past zero and past its snapshot's |
| `IntentConvergence.BeforeItAppears` | serf-core/src/serf/base.rs:1842-1873 | the early-intent buffer always holds a newest intent of those that arrived |
| `IntentConvergence.OnceItAppeared` | serf-core/src/serf/base.rs:1283-1311 | whenever the member appears among the intents, status and status time reflect a newest one |
| `IntentConvergence.DecisiveIntentsConverge` | serf-core/src/serf/base.rs:1345-1380 | any two orders and repetitions of a set of intents with a decisive newest one, around one memberlist join at any point, give the same status and time |
| `IntentConvergence.UndecidedIntentsDiverge` | serf-core/src/serf/base.rs:1449-1526 | for every set without a decisive newest intent there are two deliveries to what a node holds about a member that differ: a join and a leave tie, or a leave at time zero |
| `IntentConvergence.ConvergesIffDecisive` | serf-core/src/serf/base.rs:1345-1526 | so what a node holds about a member converges exactly for the decisive sets of intents; NodesAgreeIffDecisive says it of the handlers |
| `IntentConvergence.StepDelivers` | serf-core/src/serf/base.rs:1213-1526 | each handler does to what a node holds about another live member exactly what the register does, and steps about other members do nothing |
| `IntentConvergence.RunDelivers` | serf-core/src/serf/base.rs:1213-1526 | so does every run |
| `IntentConvergence.NodesAgreeOnMember` | serf-core/src/serf/base.rs:1283-1526 | two nodes that hear the same decisive intents about a member, in any order and among any other traffic, end with the same status and status time for it |
| `IntentConvergence.NodesDisagreeOnMember` | serf-core/src/serf/base.rs:1283-1526 | for every undecided set of intents, any node that knows nothing of the member has two runs of handlers that deliver the set around one memberlist join and end differently |
| `IntentConvergence.NodesAgreeIffDecisive` | serf-core/src/serf/base.rs:1283-1526 | of any such node: all runs of handlers that deliver a set of intents, in any order and among any other traffic, end with the same status and time if and only if the set is decisive |
| `Stamps.RunLeavesStampNewest` | serf-core/src/serf/base.rs:454-463 | a time read from the clock stays newer than all that is recorded about a member, until another intent about it at least as new arrives |
| `Stamps.LocalLeaveTakesEffect` | serf-core/src/serf/api.rs:443-452 | the leave a node stamps for itself takes effect, whatever happens between reading the clock and processing it |
| `Stamps.LeaveRightAway` | serf-core/src/serf/api.rs:443-452 | the same with nothing in between: the clock is one further, the local member leaving from that time |
| `Stamps.ForcedLeaveTakesEffect` | serf-core/src/serf/base.rs:454-463 | a forced leave of a known other member takes: an alive one starts leaving, a failed one has left and is off the failed list, a pruned one is nowhere any more |
| `Stamps.RefutationTakesEffect` | serf-core/src/serf/base.rs:1475-1487 | a refutation is strictly newer than the leave it refutes and, however much later it runs, leaves the local member not leaving |
| `Gossip.RelayedExactlyIfNew` | serf-core/src/serf/base.rs:1353-1358 | an intent is passed on exactly if it is newer than all that was noted for its member and is not refuted; it is then noted, and a refutation has a newer time |
| `Gossip.PruningLeaveIsRelayedTwice` | serf-core/src/serf/base.rs:1507-1578 | why pruning is kept apart: a pruning leave that erases a member is passed on again when it comes again, exactly unless an intent as new was buffered before |
| `Gossip.QuietStepsOnlyLearn` | serf-core/src/serf/base.rs:1213-1526 | the other steps of a node forget no time |
| `Gossip.GossipUsesUpWork` | serf-core/src/serf/delegate.rs:294-300 | every delivery, loss or refutation in a cluster of any size uses up work of a measure over what each node has still to learn; no other step adds any |
| `Gossip.FloodsDieOut` | serf-core/src/serf/base.rs:1471-1504 | in every run, of any length and order, the gossip steps are bounded by the work at the start: floods die out, and so do the floods of refutations they set off |
| `Gossip.StepKeepsRelayedOnce` | serf-core/src/serf/delegate.rs:198-219 | no step makes a node pass on the same time for the same member again |
| `Gossip.EachNodeRelaysOnce` | serf-core/src/serf/delegate.rs:198-219 | in every run each node passes on each member and time at most once |
| `ClusterAgreement.RunOfNode` | serf-core/src/serf/delegate.rs:198-300 | in a run of the cluster each node makes the run of handlers that its deliveries, refutations and own steps amount to |
| `ClusterAgreement.ClusterAgrees` | serf-core/src/serf/base.rs:1283-1526 | in every run of a cluster, with gossip, losses and refutations, all nodes that hear the same decisive intents about a member around its join end with the same status and status time for it |
| `PushPull.HandleTouchesOneMember` | serf-core/src/serf/base.rs:1345-1579 | an intent touches one member's entries, moves the clock as witnessing does, and changes the side lists exactly when it takes a failed member to left |
| `PushPull.HandleIsSlotAfter` | serf-core/src/serf/base.rs:1345-1579 | what it makes of that member depends on nothing but what is held about it |
| `PushPull.AnyOrderIsMerged` | serf-core/src/serf/delegate.rs:483-523 | any order of intents about different members gives, for each, what its own intent alone gives |
| `PushPull.MergeOrderDoesNotMatter` | serf-core/src/serf/delegate.rs:483-523 | merging a peer's state gives the same members, intents, clock and side lists whatever the order of iteration, left members first or not |
| `PushPull.MergeSettles` | serf-core/src/serf/delegate.rs:464-523 | after a merge the clock has reached the peer's and every artificial intent is noted or refuted |
| `PushPull.MergeRefutesIffListed` | serf-core/src/serf/base.rs:1473-1487 | a merge spawns a refutation if and only if the peer lists the running local node as left at a time newer than its status time; then exactly one, past that leave and within the clock |
| `PushPull.MergeIsIdempotent` | serf-core/src/serf/delegate.rs:464-523 | merging the same state again, in any order, changes nothing; and it spawns no refutation if and only if the peer does not list the running local node as left at a time that is not old |
| `PushPull.RefutationSettlesTheMerge` | serf-core/src/serf/base.rs:1473-1487 | once the refutation has run, the same state is refuted no more |
| `PushPull.MergeCatchesUp` | serf-core/src/serf/delegate.rs:386-412 | after the exchange the node has noted the peer's time for each member, a later one for those that left there, and a member failed here and left there has left, unless something newer was noted |
| `PushPull.MergeMovesClockNoFurther` | serf-core/src/serf/delegate.rs:464-468 | the clock after a merge is the least past its own, the peer's, and the times of the artificial intents |
| `PushPull.MergeBringsPeersView` | serf-core/src/serf/delegate.rs:483-523 | what a merge makes of each member is what one intent makes of it: a leave one past the peer's time if it has left there, else a join at the peer's time; what the peer does not know stays as it is |
| `Masking.ExchangeMasksLeave` | serf-core/src/serf/delegate.rs:511-523 | a member leaving at the peer at t: whatever is held about it here, the exchange does to it what a join at t does, and the leave at t is then dropped, neither noted nor passed on nor refuted; without the exchange it is taken or refuted exactly if all that was noted here is older |
| `Masking.MaskedMember` | serf-core/src/serf/delegate.rs:511-523 | in that case: a member not known here is expected to join instead of to leave, a live one is alive at t instead of leaving, a failed one stays failed instead of having left |
| `Masking.MaskedInOneExchange` | serf-core/src/serf/delegate.rs:511-523 | a reachable case: two nodes that heard of a member, one of them of its leave |
| `Masking.ExchangeSplits` | serf-core/src/serf/delegate.rs:386-523 | an exchange both ways, between a node that holds a member as alive and one that holds it as leaving since later, leaves them with the same time and different statuses |
| `Masking.SplitLasts` | serf-core/src/serf/delegate.rs:386-523 | however often they then merge each other's state, in either direction and any order, neither changes its entry, and the leave no longer reaches the first |
| `Masking.RefutedAgainAndAgain` | serf-core/src/serf/base.rs:1473-1487 | a reachable case of repeated refutation: a running node merges the state of one that takes it for gone |
| `Settling.AtRestIffNothingChanges` | serf-core/src/serf/delegate.rs:386-523 | merging in both directions changes nothing at all if and only if the clocks agree and each node has noted all the other sends |
| `Settling.RestLasts` | serf-core/src/serf/delegate.rs:464-523 | two nodes at rest stay as they are, clocks included, through any number of merges in either direction |
| `Settling.SharedLeftMemberUnsettles` | serf-core/src/serf/delegate.rs:490-503 | two nodes that both hold a member as left are never at rest |
| `Settling.LeftMemberClimbs` | serf-core/src/serf/delegate.rs:490-503 | merging in turn, each merge puts that member's time up by exactly one |
| `Settling.BothHeardItGone` | serf-core/src/serf/delegate.rs:490-503 | a reachable case: two nodes that heard of a member, its leave and its end |
| `Handlers.SerfCore.constructor` | serf-core/src/serf/base.rs:123-205 | a node starts sound, with its clock past one and past the snapshot's |
| `Handlers.SerfCore.WitnessTime` | serf-core/src/types/clock.rs:155-172 | the clock update, in place |
| `Handlers.SerfCore.HandleNodeJoin` | serf-core/src/serf/base.rs:1213-1341 | in place what NodeJoin says of the whole state; a known member, whatever its status, is alive again with the time and versions it had |
| `Handlers.SerfCore.HandleNodeLeave` | serf-core/src/serf/base.rs:1382-1447 | in place what NodeLeave says: leaving becomes left, alive becomes failed, anything else is left alone |
| `Handlers.SerfCore.HandleNodeUpdate` | serf-core/src/serf/base.rs:1583-1631 | in place what NodeUpdate says: node, tags and versions replaced, status kept |
| `Handlers.SerfCore.Upsert` | serf-core/src/serf/base.rs:1842-1873 | keeps the newer of two intents and says whether it is the new one |
| `Handlers.SerfCore.HandleNodeJoinIntent` | serf-core/src/serf/base.rs:1345-1380 | state and rebroadcast decision of a join intent |
| `Handlers.SerfCore.HandlePrune` | serf-core/src/serf/base.rs:1635-1660 | a member is erased, off the left list, and reported |
| `Handlers.SerfCore.HandleNodeLeaveIntent` | serf-core/src/serf/base.rs:1449-1579 | state, rebroadcast decision and refutation time of a leave intent |
| `Handlers.SerfCore.LeaveTransition` | serf-core/src/serf/base.rs:1506-1578 | the transition by current status, with pruning |
| `Handlers.SerfCore.ReapFailedMembers` | serf-core/src/serf/base.rs:521-553 | the while loop with swap-remove on the failed list ends in the state the sweep function gives |
| `Handlers.SerfCore.ReapLeftMembers` | serf-core/src/serf/base.rs:521-553 | the same on the left list |
| `Handlers.SerfCore.Reap` | serf-core/src/serf/base.rs:560-570 | one tick: failed, left and old intents, in that order |
| `Handlers.SerfCore.ReapRecentIntents` | serf-core/src/serf/base.rs:1827-1829 | drops exactly the intents older than the timeout |
| `Handlers.SerfCore.HasAliveMembers` | serf-core/src/serf/base.rs:346-359 | true if and only if some member other than the local one is alive |
| `Handlers.SerfCore.AnnounceJoin` | serf-core/src/serf/base.rs:381-387 | a join about the local node, witnessed and processed |
| `Handlers.SerfCore.Step` | serf-core/src/serf/base.rs:1213-1660 | whichever handler runs, it does in place what its function says and keeps the node sound |
| `Handlers.SerfCore.ForceLeave` | serf-core/src/serf/base.rs:454-468 | the forced leave takes: pruned is nowhere any more, otherwise leaving or left at the clock's time and not listed as failed; it is to be broadcast if and only if another member is alive |
| `Handlers.SerfCore.Leave` | serf-core/src/serf/api.rs:422-456 | refused with the right result unless running, otherwise one clock tick and the local member leaving at that time; it is to be announced if and only if another member is alive |
| `Handlers.SerfCore.FinishLeave` | serf-core/src/serf/api.rs:488-498 | ends as left unless shut down meanwhile |
| `Handlers.SerfCore.MergeMembers` | serf-core/src/serf/delegate.rs:464-523 | the two loops amount to merging all artificial intents in some order, each once, with the refutations spawned on the way, and keep the node sound |
| `Exchange.MergeRemoteState` | serf-core/src/serf/delegate.rs:464-548 | a whole exchange: members, user events and the three clocks each end as their own merge says, the query clock at the later of the two, and nothing of one reaches another |
| `QueryRing.ModWindow` | serf-core/src/serf/base.rs:1006-1021 | two different times on one slot are at least a ring apart |
| `QueryRing.RecordAgrees` | serf-core/src/serf/base.rs:1001-1049 | the ring answers as an unbounded set of seen queries would, goes on agreeing with it, and gives a slot up only to a strictly newer time |
| `QueryRing.RingRefinesSeenSet` | serf-core/src/serf/base.rs:1001-1049 | in every run, from any clock and for any size, a query is recorded exactly if it is not before the minimum time, not older than the ring, and never was recorded |
| `QueryRing.NoBufferRefusesAll` | serf-core/src/serf/base.rs:1006-1016 | a ring of size zero refuses every query before dividing by its size |
| `QueryRing.QueryCore.HandleQuery` | serf-core/src/serf/base.rs:972-1079 | the handler on its array does what the ring function says, rebroadcasts unless told not to, and delivers exactly the recorded queries that pass their filters |
| `QueryRegistry.StepKeepsInv` | serf-core/src/serf/base.rs:904-968 | every step of any number of queries under way keeps: what is registered under a time is an open collector of a query of that time, and a processed query is behind the clock |
| `QueryRegistry.ReplyReachesNoOther` | serf-core/src/serf/base.rs:1169-1187 | a reply reaches no collector but an open one of a query with its time and id, and none exactly if there is no such one registered |
| `QueryRegistry.StaysServedIff` | serf-core/src/serf/base.rs:904-968 | a query whose replies reach its own open collector stays so exactly if its timer does not go off and no other query of its time registers or expires |
| `QueryRegistry.RepliesReachTheirQueryIffUndisturbed` | serf-core/src/serf/base.rs:948-968 | over every run from its registration: a reply reaches the query's own open collector if and only if none of that happened meanwhile |
| `QueryRegistry.TimesDistinctIffOneByOne` | serf-core/src/serf/base.rs:904-932 | in every run the times of a node's queries are all different if and only if each is stamped after the clock has moved past the earlier ones |
| `QueryRegistry.DistinctTimesAreUndisturbed` | serf-core/src/serf/base.rs:948-968 | with different times no query is disturbed before its own timer goes off |
| `QueryRegistry.TwoAtOnceAreBothLost` | serf-core/src/serf/base.rs:904-968 | two queries stamped at once share a time: the second takes the place of the first, and the first one's timer closes the second |
| `EventRing.DeliveredExactlyIfUnoccupied` | serf-core/src/serf/base.rs:759-813 | a recent user event is delivered exactly if the same content was not delivered before at a time on the same slot |
| `EventRing.AcceptKeepsInv` | serf-core/src/serf/base.rs:759-813 | slots hold exactly the contents delivered on them, and no content twice on one slot |
| `EventRing.MeetsIdealUnlessOccupied` | serf-core/src/serf/base.rs:801-813 | delivery of a recent event if and only if it was never delivered holds exactly unless the same content was delivered at another time on that slot |
| `EventRing.SameContentOneRingLaterIsDropped` | serf-core/src/serf/base.rs:801-813 | it does fail: in a ring of any size content sent again one ring later is recent, new, and dropped |
| `EventRing.OwnEventIsRecentIffSpared` | serf-core/src/serf/api.rs:262-288 | whatever happens between stamping and processing, a node's own event is still recent if and only if each of those operations carries no time a ring past the stamp and raises no minimum past it; and it is delivered exactly if, besides, its slot has not got the content |
| `EventRing.OwnEventIsDroppedByLaterMinimum` | serf-core/src/serf/delegate.rs:525-534 | a join that ignores old events, completed in between, makes the node drop its own event |
| `EventRing.RunKeepsInv` | serf-core/src/serf/base.rs:750-837 | every run keeps this, and delivers nothing timed before the minimum time at its start |
| `EventRing.NothingIsDeliveredTwice` | serf-core/src/serf/base.rs:759-813 | in no run is the same content with the same time delivered twice, nor anything before the minimum time |
| `EventRing.IgnoredEventsStayIgnored` | serf-core/src/serf/delegate.rs:525-534 | after a join that ignores old events nothing timed before the peer's event clock is delivered, in the exchange or later |
| `EventRing.BeginsAtPeersTime` | serf-core/src/serf/delegate.rs:469-474 | the event clock comes to the peer's and no further, and the minimum time is raised to it exactly if old events are to be ignored |
| `EventRing.MergeMovesClockNoFurther` | serf-core/src/serf/delegate.rs:469-548 | the event clock after a merge is the least past its own, the peer's, and the times of the events |
| `EventRing.MergeMeetsPeersClock` | serf-core/src/serf/delegate.rs:469-548 | of a peer's own message, it is the later of the two clocks |
| `EventRing.SlotsHoldTheExchanged` | serf-core/src/serf/delegate.rs:386-412 | the slots a node sends hold exactly the events exchanged, each with the time of its slot |
| `EventRing.MergeOrderDoesNotMatter` | serf-core/src/serf/delegate.rs:536-548 | merging a peer's events gives the same ring whatever their order |
| `EventRing.MergeIsIdempotent` | serf-core/src/serf/delegate.rs:525-548 | merging them again, in any order, changes and delivers nothing |
| `EventRing.EventCore.HandleUserEvent` | serf-core/src/serf/base.rs:750-837 | the handler on its array does what the ring function says |
| `EventRing.EventCore.MergeEvents` | serf-core/src/serf/delegate.rs:525-548 | the event part of the state exchange is that of merging the events slot by slot |
| `Framing.RoundTrip` | serf-core/src/snapshot.rs:265-331 | any list of self-delimiting records reads back as written |
| `Framing.CutReadsIffAtBoundary` | serf-core/src/snapshot.rs:265-331 | a file cut anywhere reads without error if and only if it is cut between two records, and then gives the records before |
| `SnapshotLog.LittleEndianRoundTrip` | serf-core/src/snapshot.rs:160-187 | the fixed-width numbers read back as written |
| `SnapshotLog.LittleEndianByte` | serf-core/src/snapshot.rs:160-187 | byte i of a number is its i-th digit to base 256, the least significant first |
| `SnapshotLog.BytesOfEachKind` | serf-core/src/snapshot.rs:188-214 | the bytes of each kind of record, and that a node record beyond 64 bytes has none |
| `SnapshotLog.UnknownKindIsAnError` | serf-core/src/snapshot.rs:128-144 | any other first byte is an error that names it |
| `SnapshotLog.ParseInvertsEncode` | serf-core/src/snapshot.rs:160-214 | one turn of the replay loop reads back the record written, whatever follows it |
| `SnapshotLog.TornRecordIsBroken` | serf-core/src/snapshot.rs:265-308 | a record cut short is an error, never another record |
| `SnapshotLog.SnapshotsAreSelfDelimiting` | serf-core/src/snapshot.rs:128-214 | so snapshot records delimit themselves |
| `SnapshotLog.ReplayOfWritten` | serf-core/src/snapshot.rs:265-331 | a written log replays without error to what its records say |
| `SnapshotLog.ReplayAcrossLeave` | serf-core/src/snapshot.rs:316-328 | a leave for good makes all before it as if it had not been, clocks included; a node that rejoins passes over it |
| `SnapshotLog.ReplaySkipsTheRest` | serf-core/src/snapshot.rs:315-330 | coordinates and comments are passed over |
| `SnapshotLog.CutLogReplaysIffAtBoundary` | serf-core/src/snapshot.rs:265-331 | a snapshot cut anywhere replays without error if and only if it is cut between two records, and then to what the records before say |
| `SnapshotLog.OpenAndReplay` | serf-core/src/snapshot.rs:254-331 | the loop over bytes gives the replay of the parsed file, or its first error |
| `SnapshotLog.ResumedFinishesReplay` | serf-core/src/snapshot.rs:265-331 | stopping the loop after any records and going on from the memory reached gives the same |
| `Snapshotter.Snapshot.Compact` | serf-core/src/snapshot.rs:776-884 | rewrites the log so that it replays to the memory; succeeds exactly if every live node can be written, and otherwise leaves the log alone; the new log is within its limit exactly unless no node is left and the minimum is below three clock records |
| `Snapshotter.Snapshot.WriteNodes` | serf-core/src/snapshot.rs:810-815 | writes a record for each live node in any order, or finds one that cannot be written |
| `Snapshotter.MaxSize` | serf-core/src/snapshot.rs:768-773 | the limit is the larger of 256 bytes per live node and the configured minimum |
| `Snapshotter.Snapshot.AppendLine` | serf-core/src/snapshot.rs:730-765 | one record more, compacted exactly if too large: offset is the file's size, the log replays to the memory, and after success it is within its limit |
| `Snapshotter.Snapshot.TryAppend` | serf-core/src/snapshot.rs:715-728 | the same with the attempt to recover by compacting |
| `Snapshotter.Snapshot.ProcessMemberEvent` | serf-core/src/snapshot.rs:682-702 | live nodes and member clock follow a member event, in memory and on disk |
| `Snapshotter.Snapshot.ProcessUserEvent` | serf-core/src/snapshot.rs:659-668 | the event clock follows a user event, in memory and on disk |
| `Snapshotter.Snapshot.ProcessQueryEvent` | serf-core/src/snapshot.rs:671-679 | the query clock follows a query, in memory and on disk |
| `Snapshotter.Snapshot.UpdateClock` | serf-core/src/snapshot.rs:706-713 | the member clock follows the time last seen, in memory and on disk |
| `Snapshotter.Snapshot.HandleLeave` | serf-core/src/snapshot.rs:562-579 | a leave forgets the live nodes unless the node means to rejoin, in memory and on disk |
| `Snapshotter.Snapshot.Ingest` | serf-core/src/snapshot.rs:588-609 | the main loop, on any inputs: memory as the inputs say and the log replaying to it after each |
| `Snapshotter.Snapshot.ClearOut` | serf-core/src/snapshot.rs:622-639 | the drain at shutdown, the same |
| `Snapshotter.Snapshot.Stream` | serf-core/src/snapshot.rs:582-656 | a whole life on any inputs: the file replays to the memory, to exactly it if and only if every live node's record fits the inline buffer; after a leave for good to no node and to clocks not ahead of it; and if all nodes fit, at the start and of those that join, the log stays within its limit |
| `Snapshotter.LargeNodeLetsTheLogGrow` | serf-core/src/snapshot.rs:715-765 | with one live node too large to be written every compaction fails: the log passes any size |
| `Restart.NothingIsRecordedAfterLeave` | serf-core/src/snapshot.rs:400-406 | whatever follows a leave, the live nodes are those at the leave when rejoining, and none otherwise |
| `Restart.LeaveForGood` | serf-core/src/snapshot.rs:562-639 | once a leave is handled without rejoin the file replays to no live node, whatever events, ticks, drains or compactions follow; with rejoin to those at the leave |
| `Restart.Reopen` | serf-core/src/serf/base.rs:126-147 | the file of the last process always opens, and the new one starts with its memory, within its limit if the last was, and with minimum times one past its clocks |
| `Restart.LargeNodeIsForgotten` | serf-core/src/snapshot.rs:162-178 | a node too large to be written is live while the process runs and unknown to the next |
| `Restart.LifeCovers` | serf-core/src/snapshot.rs:588-713 | all that the snapshotter saw or read in its life, up to a leave and with the last reading of the clock, is covered by its clocks: user and query times are reached, and the member clock is at most one behind what was read |
| `Restart.LifeIsFounded` | serf-core/src/snapshot.rs:588-713 | the clocks show nothing else: each is as it was at the start, or is a user or query time seen, or one less than a reading of the member clock |
| `Restart.LateLeaveCounts` | serf-core/src/snapshot.rs:611-613 | a leave waiting when the main loop ends counts: nothing queued is recorded, and the live nodes are kept or forgotten as for any leave |
| `Restart.RecordedTimesAreNeverAcceptedAgain` | serf-core/src/serf/base.rs:126-147 | rings set up from the clocks of a life accept no user event or query at a time that life saw, in any run |
| `Restart.NewerTimesAreAccepted` | serf-core/src/serf/base.rs:126-147 | but a first event or query is taken exactly if its time is past the recorded clock and there is a ring |
| `Restart.RestartTakesNothingTwice` | serf-core/src/serf/base.rs:126-147 | through the file: the snapshotter lives on any inputs and stops, not having left for good, a new process opens its file, and in any run its rings take no user event or query at a time the old process saw, and its member clock starts past every reading of the old one |
| `Restart.RestartedNodeIsAhead` | serf-core/src/serf/base.rs:193-205 | a restarted node's clock is past all it had recorded by the last reading, so its stamps are new |
| `LiveSet.SnapshotterFolds` | serf-core/src/snapshot.rs:682-702 | the snapshotter's live nodes are the fold of the member events handed to it, whatever else is in between |
| `LiveSet.LoadedNodesLinger` | serf-core/src/snapshot.rs:682-702 | a node loaded from the file stays until an event reports it as left or failed; otherwise what was loaded makes no difference |
| `LiveSet.StaysInSyncIffCareful` | serf-core/src/snapshot.rs:682-702 | whatever nodes the file held: a handler keeps the snapshotter's live nodes equal to the alive and leaving members if and only if it does not prune such a member or give it another address |
| `LiveSet.PrunedMemberIsKept` | serf-core/src/snapshot.rs:699-701 | the smallest failing run: a node joins and is pruned, no member is left, and the snapshotter still holds it |
| `LiveSet.SnapshotterHoldsLiveMembers` | serf-core/src/snapshot.rs:682-702 | in every run without such steps, of a new or a restarted node, the snapshotter holds the nodes of the alive and leaving members and the loaded nodes no event has taken out; exactly the former if and only if each loaded node is live or was reported as left or failed |
| `LiveSet.LoadedNodeNeverSeenIsKept` | serf-core/src/snapshot.rs:438-470 | the smallest failing case: a node from the file that never comes back is named by no event and stays |
| `QueryResponse.StepKeepsInv` | serf-core/src/serf/query.rs:252-302 | every step of every responder, of the receiver and of closing keeps: each node sent at most once, and recorded if sent |
| `QueryResponse.AckKeepsInv` | serf-core/src/serf/query.rs:348-368 | so does sending an ack, on a full or closed channel too |
| `QueryResponse.ReplyKeepsInv` | serf-core/src/serf/query.rs:314-333 | so does sending a response |
| `QueryResponse.CheckPassesIff` | serf-core/src/serf/query.rs:252-302 | a responder goes on to send exactly if the query is open, the deadline not passed and its node not recorded |
| `QueryResponse.ReplyIsDeliveredIff` | serf-core/src/serf/query.rs:314-333 | a response is delivered and recorded exactly if query and channel are open, the channel has room and the node is not recorded; otherwise nothing is sent, and unless the channel is closed nothing is recorded |
| `QueryResponse.AckIsDeliveredIff` | serf-core/src/serf/query.rs:348-368 | the same for an ack, where acks were asked for |
| `QueryResponse.CloseCloses` | serf-core/src/serf/query.rs:224-237 | closing closes the query and both channels and sends and records nothing |
| `QueryResponse.AtMostNodesWait` | serf-core/src/serf/query.rs:165-200 | in every run the channels are as large as the number of nodes and never hold more |
| `QueryResponse.EveryResponseGetsThrough` | serf-core/src/serf/query.rs:252-368 | in every run in which nothing is closed and no more nodes respond than there are members, every ack and response that is sent gets through |
| `QueryResponse.StaysExactIffSent` | serf-core/src/serf/query.rs:314-368 | a step keeps what is recorded equal to what was sent if and only if it is not a send on a channel closed by its receiver, of a node not yet recorded, while the query is open |
| `QueryResponse.RunIsExactIffSent` | serf-core/src/serf/query.rs:314-368 | over every run: equal at the end if and only if equal at the start and no step of the run is such a send, since a node recorded unsent is turned away ever after |
| `QueryResponse.EachNodeIsDeliveredOnce` | serf-core/src/serf/query.rs:252-368 | in every interleaving each node's ack and response is delivered at most once; the recorded sets are what was delivered if and only if no step recorded on a channel closed by its receiver, as in every run in which no receiver closes |
| `QueryResponse.NothingAfterClose` | serf-core/src/serf/query.rs:224-237 | nothing is delivered after close, not even by a responder that had passed its check before |
| `QueryResponse.ClosedReceiverRecordsTheUndelivered` | serf-core/src/serf/query.rs:314-333 | such a run: with the receiver closed a response is recorded that nobody gets, and the next one from that node is turned away |
| `MemberCoalescer.EveryRunTracks` | serf-core/src/coalesce/member.rs:56-112 | at every point of every run: what was emitted, what is pending and what was received belong together for each node |
| `MemberCoalescer.EmitsTheSummariesWithoutRepeats` | serf-core/src/coalesce/member.rs:56-112 | in every run, what is emitted for a node is the last event about it before each flush, in order, with the member as received last, less those of the same type as the one before that are no update |
| `MemberCoalescer.EveryUpdateIsPassedOn` | serf-core/src/coalesce/member.rs:82-84 | an update is passed on by the next flush whatever went before |
| `MemberCoalescer.FlushKeepsTheMeaning` | serf-core/src/coalesce/member.rs:75-112 | in every run ending in a flush the last type emitted for a node is the last received, and no type is emitted twice in a row unless it is an update |
| `MemberCoalescer.Coalescer.Coalesce` | serf-core/src/coalesce/member.rs:56-72 | the latest event of each named member is kept |
| `MemberCoalescer.Coalescer.Flush` | serf-core/src/coalesce/member.rs:75-112 | one batch per type; together they hold exactly the pending members not already reported, each once; the pending ones are cleared; if the output channel closes half way, what is out is of those batches and something is missing |
| `MemberCoalescer.Coalescer.GroupByType` | serf-core/src/coalesce/member.rs:79-103 | the draining loop, in any order, sorts exactly those members by type |
| `MemberCoalescer.Coalescer.Send` | serf-core/src/coalesce/member.rs:105-111 | the sending loop, in any order, hands out every group exactly once, or as many as the channel takes before it closes |
| `UserCoalescer.NewestAreTheMaximal` | serf-core/src/coalesce/user.rs:70-80 | the events kept of a name are exactly those no event of it is newer than |
| `UserCoalescer.FlushHoldsExactlyTheNewest` | serf-core/src/coalesce/user.rs:70-97 | a flush is to emit an event exactly if it came and none of its name is newer |
| `UserCoalescer.NamesAreListedOnce` | serf-core/src/coalesce/user.rs:59-68 | no name is listed twice |
| `UserCoalescer.NamesAreInOrderOfArrival` | serf-core/src/coalesce/user.rs:59-68 | the names are in the order of their first arrivals |
| `UserCoalescer.EventsAreInOrderOfArrival` | serf-core/src/coalesce/user.rs:70-82 | the events of a name are in the order of arrival, each as often as it came |
| `UserCoalescer.Coalescer.Coalesce` | serf-core/src/coalesce/user.rs:52-82 | after each event, every name holds its newest events since the last flush in order of arrival |
| `UserCoalescer.Coalescer.Flush` | serf-core/src/coalesce/user.rs:84-97 | emits, name by name in order of first arrival, exactly the newest events of each, and starts afresh; if the output channel closes half way, exactly the first of those it had room for |

## Left out

- Gossip.FloodsDieOut: runs with pruning leaves, the reaper, or joins announced anew are not bounded, because each of these makes old messages new again or adds new ones.
- IntentConvergence.NodesAgreeOnMember: members that fail, leave or are pruned meanwhile are excluded, because failed and left are not ordered by intent times.
- Handlers.SerfCore.Leave: ends before the broadcast; the signal to the snapshotter (there an input), waiting for the broadcast, leaving memberlist and the propagation delay are not modelled.
- Handlers.SerfCore.HandlePrune: the wait for a leaving member, during which the lock is held, is not modelled.
- QueryRing.QueryCore.HandleQuery: filters, acknowledgements and relaying are reduced to the filters' verdict.
- Snapshotter.Snapshot.Stream: flushing, syncing, the tee to the application's channel and the flush timeout are not modelled.
- The coalescing loop with its timers, the reconnector, the queue checker and the conflict vote: they depend on timers and randomness.
- Memberlist, transports, the async runtime, metrics and the test-only message dropper: foreign code.
- The wire codecs of messages, tags, filters and keys: they rest on helpers outside the repository.
- The size limits on user events and queries, and the failures they raise: thin checks before anything is stamped.
- Network coordinates: floating point with randomness.
- Keyring handling, options and error types: thin code with little state of its own.
