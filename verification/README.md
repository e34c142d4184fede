# Verified models of the toolkit's stateful cores

Four parts of the toolkit carry state through long runs and promise something about every such run.
They are modelled here and the promises are proved.

* **Cluster membership** (`memberlist/state.go`, `memberlist.go`, `suspicion.go`, `util.go`). `Protocol` has one
  member as a value and its handlers as functions; every handler holds the node lock, so each is one step.
  `Memberlist` and `SuspicionTimer.Suspicion` are the same member as mutable objects, proved against those
  functions. `Effects` says in full what each message does to a member. `NodeRuns`, `Lifetimes`, `Standing` and
  `Confirmations` reason about all runs of one member, `Probing` about its calls of `probe` and `Leave`, `Cluster` and
  `Provenance` about all runs of all members over a network that may lose, repeat and reorder.
* **Gossip** (`memberlist/queue.go`, `util.go`, `net.go`, `security.go`). `GossipQueue` is the transmit-limited
  queue as a value and what one call hands out, `QueueAccounts` its accounts over whole runs, `QueueBounds` what holds
  even when they go wrong, `Replacement` and `Retransmission` which broadcasts are queued after a submission and after
  handing out, `QueueObject` the object proved against it. `Packet` and `Wire` are the packet formats and their round
  trips, `Admission` which packets get through, `PacketBudget` the byte budgets.
* **Unit of work** (`unitofwork/`). `DependencyGraph` and `KahnOrder` hold the theory of the topological sort,
  `ReleaseOrder` the order it comes to, `Dependency` the manager, `Operations` merging, `Schedule` the ordering of operations, `Tracking` the bookkeeping
  invariant, `UnitOfWork` the object.
* **Median cut** (`imgutils/helper.go`). `MedianCut` splits windows of one array in place, with the heap of `MaxHeap`;
  `CutResults` says what every run of it achieves.

`Base` and `Sorting` are shared helpers. `dafny verify dfyconfig.toml` checks the project.

## Assumptions

* Cluster: members have distinct names, start fresh and are not restarted; a 32-bit incarnation counter does not wrap
  (`RefuteBeatsIff` says what happens at the limit); a configured version array is either empty or has its six
  entries; the address and version facts the cluster proof needs are derived from this, not assumed.
* One handler call is one step. Between the check and the act of a suspicion's callback, and between the two atomic
  additions of a refutation, anything may happen: both gaps are modelled.
* Clock readings of different steps differ (`IsTimed`). A timer is created at the instant of its entry's stamp.
* What other goroutines handle while `probe` or `Leave` has dropped the lock is a parameter: any finite number of
  messages, a timeout's verdict and the rows of a received table among them. One goroutine calls `probe`, so its calls
  do not overlap; between them the member may do anything.
* The ratio of logarithms in the suspicion timeout is any monotone function that is 0 at 0 and 1 at k; arithmetic on
  it is over the reals, then truncated to milliseconds as in the code.
* The queue: cluster size, hence the transmit limit, is fixed along a run; which broadcast invalidates which is any relation. The
  B-tree is an ordered sequence searched and updated by the same comparison.
* Cipher and compression are any functions with the right lengths that undo themselves; other installed keys refuse
  what the right key sealed. A delegate returns no more bytes than it was offered.
* Unit of work: ids do not change while tracked; a type's printed name identifies it. The snapshot manager's verdict
  on an entity, and which operation the database rejects, are parameters. Traversal order of a map is arbitrary.
* Median cut: the library sort is known by what it promises, not by how it arranges ties; the library heap is modelled
  slot by slot.

## Where code and expectation part

* `queueBroadcast` and `GetBroadcasts` reset the id generator as soon as the tree is empty, even when an item is about
  to go back in, so an id can be given out twice. That alone does no harm (`EmptyingIsHarmless`); the accounts go wrong
  exactly when an item goes in that the tree takes for one it holds: `SubmitAccountsIff`, `GiveAccountsIff`, and over
  whole runs `RunAccountsIff`. `RestartLosesABroadcast` (four submissions) and `TickLosesABroadcast` (two submissions
  and two gossip ticks) each lose a broadcast that was never finished.
  Even then no submission is handed out beyond the limit, queued or finished twice, or finished while queued:
  `QueueBounds.RunAccounts`.
* A call of `probe` that resets the list counts the reset as one of its checks, so from the end of the list it may pick
  nobody although somebody is eligible: `QuietPicksNobodyIff`, `MissesAtTheEnd`. Rounds still cover everybody:
  `RoundProbesEveryone`.
* The splitting loop of the median cut looks at the last slot of its heap where the front would be meant, so it may stop
  while a block of several colours is left. Of five reds, 0, 100, 110, 111 and 112 in 8 bits, with `NumColor` 4, the
  last three share one of only three entries: `RowStopsEarly`, `RedsStopEarly`.
* A suspicion's callback drops the lock between check and act. `TimeoutBuriesTheSuspectedIff` says exactly when its
  verdict still hits an unbroken suspicion, `ReapedInTheGap` gives a run in which it does not.
* An alive message that carries a new address may lower an entry in SWIM's override order: `AliveOverridesIff`,
  `MovedPeerIsLowered`.
* A deadline may move later if the minimum exceeds the maximum: `DeadlinesNeverMoveLaterIff`, `DeadlineMovesLater`.
* Leave builds its farewell outside the lock, and a member that is leaving still refutes suspicions, so the farewell may
  come too late to have any effect: `FarewellTakesEffectIff`, `RefutedInBetween`.
* The piggy-back budget forgets the lead message's own length slot: `PiggyBackFitsIff`, `PiggyBackOverrun`. A checksum
  header is charged to no budget, so a gossip packet may exceed the buffer by its five bytes: `GossipPacketFits`,
  `PacketFitsIff`, `GossipFitsIff`, `GossipOverrun`.
* `GetDeletionOrder` counts dependencies forwards but follows them backwards, so it refuses every set with a
  dependency inside it, circular or not: `GetDeletionOrder`, `DeletionRefusesAcyclic`.
* `Create` of a second object with the type and id of one already registered as new (say 0, before the database assigns
  ids) succeeds and registers nothing: `Create`.
* Where two operations of one kind stand for the same identity, sorting keeps the later one in both places:
  `SortByEntityDependency`. A unit of work never queues such a pair.
* Cancelling an insert against a later delete never happens: `RemoveInvalidOperations`. Entities of one type are sorted
  by a text that is the same for every id, so their order is arbitrary: `SortEntitiesByID`.

## Model

| member | source | states |
|---|---|---|
| `SuspicionTimer.CountIsDistinctConfirmers` | memberlist/suspicion.go:103-130 | after any sequence of `Confirm` calls the count is the number of distinct confirmers other than the originator, capped at k |
| `SuspicionTimer.HistoryHeard` | memberlist/suspicion.go:50-75 | after any sequence of calls the recorded peers are the originator and, until k is reached, all distinct confirmers |
| `SuspicionTimer.RawBounds` | memberlist/suspicion.go:86-97 | the overall timeout stays between min and max, whatever the count, and is min at k confirmations |
| `SuspicionTimer.TimeoutAntitone` | memberlist/suspicion.go:86-97 | more confirmations never lengthen the overall timeout |
| `SuspicionTimer.DeadlinesNeverMoveLaterIff` | memberlist/suspicion.go:50-97 | the scheduled deadline never moves later as the count grows if and only if k < 1 or min <= max |
| `SuspicionTimer.ScheduledOnLine` | memberlist/suspicion.go:86-97 | with the line written out: after n of k confirmations the wait is the maximum less its share of the way to the minimum, cut by less than a millisecond, and not below the minimum |
| `SuspicionTimer.DeadlineMovesEarlier` | memberlist/suspicion.go:86-97 | confirmations that move the line by a millisecond above the minimum move the deadline strictly earlier |
| `SuspicionTimer.DeadlineMovesLater` | memberlist/suspicion.go:86-97 | one confirmation awaited, minimum 2ms, maximum 1ms: confirming moves the deadline from 1ms to 2ms |
| `SuspicionTimer.ScheduledBounds` | memberlist/suspicion.go:50-97 | the deadline lies within min and max of the start, and at min once k have confirmed |
| `SuspicionTimer.Suspicion.constructor` | memberlist/suspicion.go:50-80 | armed at max, or at min when no confirmation is awaited; the originator counts as heard |
| `SuspicionTimer.Suspicion.Confirm` | memberlist/suspicion.go:103-130 | accepts exactly new peers below k; where minimum <= maximum the new deadline is on the written-out line of its confirmation, so it moves only earlier and stays in bounds; the timeout function is started now if and only if the new deadline has passed, and at most once in the timer's life |
| `SuspicionTimer.Suspicion.Expire` | memberlist/suspicion.go:62-75 | the timeout function runs at the deadline, once, and not before min |
| `Protocol.RandomOffset` | memberlist/util.go:55-60 | a position within the list, 0 for the empty list |
| `NodeRuns.AliveKeepsWell` | memberlist/state.go:988-1204 | list, table and timers still agree after an alive message: no duplicates, same names, a timer exactly for each suspect, none for oneself |
| `NodeRuns.SuspectKeepsWell` | memberlist/state.go:1208-1301 | that agreement survives an accusation |
| `NodeRuns.DeadKeepsWell` | memberlist/state.go:1305-1362 | that agreement survives a death notice |
| `NodeRuns.ReapKeepsWell` | memberlist/state.go:592-613 | that agreement survives reaping and any shuffle |
| `NodeRuns.StepKeepsWell` | memberlist/state.go:592-613 | every step of a member keeps list, table and timers in agreement |
| `NodeRuns.RefuteBeatsIff` | memberlist/state.go:960-975 | a refutation outdoes the accusation and every incarnation drawn before if and only if neither has reached the largest 32-bit number |
| `NodeRuns.RefuteBeatsDespiteRaces` | memberlist/state.go:855-862 | it still does when other goroutines draw incarnations between the two atomic additions |
| `NodeRuns.AliveOverridesIff` | memberlist/state.go:1005-1047 | an alive message about a peer respects the override order if and only if it does not carry a new address without a newer incarnation past the gate |
| `NodeRuns.MovedPeerIsLowered` | memberlist/state.go:1084-1098 | a member that left at incarnation 5 and comes back from elsewhere at incarnation 3 is recorded Alive at 3 |
| `NodeRuns.StepEvolves` | memberlist/state.go:1119-1128 | one step drops only a Dead or Left entry, moves a peer's entry only upwards in the override order unless it readdresses it, and puts its own stamp on any change of status or of a suspect's entry |
| `Effects.AccusationIsIgnored` | memberlist/state.go:1213-1237 | an accusation that is stale, heard already, beyond the awaited number or about somebody gone changes nothing |
| `Effects.AccusationConfirms` | memberlist/state.go:1227-1232 | a new accuser of a suspect raises the count by one, is remembered, and the accusation is passed on; nothing else changes |
| `Effects.AccusationBegins` | memberlist/state.go:1239-1296 | the first accusation of an Alive peer: the whole entry, the message passed on, and a timer that awaits `SuspicionMult` - 2 further accusers if at least `SuspicionMult` members are listed, else none |
| `Effects.RefuteDraws` | memberlist/state.go:960-984 | the number a refutation draws, in terms of counter, accusation and the draws in between |
| `Effects.AccusationOfSelf` | memberlist/state.go:1239-1244 | an accusation of oneself is refuted: own entry, counter and message |
| `Effects.NoticeIsIgnored` | memberlist/state.go:1310-1318 | a stale death notice, or one about a stranger, changes nothing |
| `Effects.NoticeOfTheGone` | memberlist/state.go:1320-1326 | a notice about somebody Dead or Left only clears a timer |
| `Effects.NoticeTakesEffect` | memberlist/state.go:1337-1356 | any other notice: the whole entry (its incarnation, Left exactly if the peer sent it itself), the timer gone, the notice passed on, nothing else changed |
| `Effects.NoticeOfSelf` | memberlist/state.go:1328-1335 | a member that has not left refutes |
| `Effects.StoppedIffNotPassed` | memberlist/state.go:993-1117 | in terms of versions, delegate, address and reclaim time: exactly which alive messages are stopped |
| `Effects.StoppedChangesNothing` | memberlist/state.go:993-1117 | those leave everything as it was |
| `Effects.NewsIsRecorded` | memberlist/state.go:1130-1185 | any other that is newer, from a new address, or announced by oneself: the entry carries its address, metadata, incarnation and the versions given, is Alive, keeps its stamp if it was Alive, and the message is passed on |
| `Effects.OldNewsIsIgnored` | memberlist/state.go:1119-1128 | older news of a peer changes nothing |
| `Effects.NewcomerIsListed` | memberlist/state.go:1040-1082 | news of incarnation 0 lists a newcomer that is not yet Alive |
| `Effects.NewsOfSelf` | memberlist/state.go:1137-1161 | news of oneself is ignored, or clears the timer, or is refuted, and exactly when |
| `Effects.NewcomerTakesAPlace` | memberlist/state.go:1070-1082 | a newcomer goes to the drawn place, whoever stood there to the end, everybody else stays |
| `Effects.AnnouncementIsRecorded` | memberlist/memberlist.go:376-482 | an announcement that is let through puts the new address, metadata and incarnation on the own record and is passed on |
| `Effects.RowIsAMessage` | memberlist/state.go:1412-1438 | a row of a received table is handled as the message its status stands for, a Dead row as an accusation of one's own |
| `Effects.RowsInTurn` | memberlist/state.go:1412-1438 | rows are handled one after the other, the first one first |
| `Effects.ResetForgets` | memberlist/state.go:592-613 | a reset forgets exactly those that have been Dead or Left for longer than the configured time |
| `Effects.Sayings` | memberlist/state.go:1274-1293 | what the timeout callback, the probe, push/pull and a farewell say |
| `Confirmations.TimerCountsAccusers` | memberlist/state.go:1227-1296 | in every run, while a suspicion lasts, its count is the number of distinct senders, other than the one that began it, of the accusations received since that were not stale, capped at the awaited number; below the cap exactly those are remembered |
| `Confirmations.AccusersAre` | memberlist/state.go:1213-1232 | who those senders are, over the events of the run |
| `Confirmations.SomebodyBegins` | memberlist/state.go:1239-1296 | a suspicion begins only with an accusation that is not stale |
| `Lifetimes.RunKeepsWell` | memberlist/state.go:1251-1296 | in every state of every run, timers are exactly those of the suspects |
| `Lifetimes.RunOverrides` | memberlist/state.go:1119-1184 | along every run, while a peer is neither reaped nor readdressed, (incarnation, Alive < Suspect < Dead/Left) never decreases and strictly increases with every change |
| `Lifetimes.RevivalNeedsNewerIncarnation` | memberlist/state.go:1119-1128 | a Dead or Left peer is Alive or Suspect again only under a newer incarnation |
| `Lifetimes.SuspectSinceBegan` | memberlist/state.go:1274-1283 | if the stamp of a suspicion is still there, the entry did not change at all since the suspicion began |
| `Lifetimes.TimeoutBuriesTheSuspectedIff` | memberlist/state.go:1274-1296 | a timeout that takes effect buries a peer suspected without a break since that timer began, if and only if the peer was neither reaped nor readdressed between check and act |
| `Lifetimes.ReapedInTheGap` | memberlist/state.go:1274-1296 | a run from creation on in which the peer was reaped in the gap, came back Alive, and is buried by the stale verdict |
| `Standing.RunKeepsStanding` | memberlist/state.go:993-999 | under any message sequence a member that does not leave keeps listing itself Alive with an incarnation at most its counter; once left and Left or Dead it never revives; once reaped it never returns |
| `Standing.CreationGivesStanding` | memberlist/memberlist.go:376-404 | creation puts a member in that good standing, if its callbacks admit it |
| `Standing.LeaveEndsInLeft` | memberlist/memberlist.go:561-589 | Leave, when nothing comes in between, records the member as Left |
| `Standing.FarewellTakesEffectIff` | memberlist/memberlist.go:569-589 | otherwise the farewell takes effect if and only if the own incarnation has not grown past the one that was read |
| `Standing.RefutedInBetween` | memberlist/state.go:1239-1246 | a suspicion handled between reading and applying leaves a member that has called Leave recorded Alive |
| `Standing.OwnTableIsIgnored` | memberlist/state.go:1412-1438 | merging a snapshot of one's own table changes no entry, no list position, no counter and no set of timers |
| `Standing.MergeNeverBuries` | memberlist/state.go:1412-1438 | no received table turns a listed member that is not Dead into a Dead one, nor drops it |
| `Standing.InsertKeepsAhead` | memberlist/state.go:1070-1082 | a newcomer swapped in at any offset pushes nobody behind the probe index |
| `Standing.RoundConsidersEveryone` | memberlist/state.go:253-295 | between two resets every member listed at the start of a round is considered before the wrap, whoever joins meanwhile |
| `Cluster.CounterBoundsEverything` | memberlist/state.go:855-862 | in every cluster run no message and no entry about X carries an incarnation above X's own counter |
| `Cluster.LeftOnlyByLeaving` | memberlist/state.go:1349-1355 | in every cluster run X is recorded as Left, or a dead message from X about X exists, only if X called Leave; nobody holds a timer for itself |
| `Cluster.RefutationBeatsEveryAccusation` | memberlist/state.go:960-984 | in every cluster run a refutation's incarnation is above that of every message and every entry about the member in existence |
| `Cluster.NewerAliveIsAccepted` | memberlist/state.go:1119-1185 | in every cluster run a peer that has not recorded that incarnation accepts it: its entry carries the message's address, metadata and versions, the member is Alive there, its timer is gone, and the message is passed on |
| `Provenance.OnlyTheMemberSpeaksForItself` | memberlist/state.go:1163-1185 | in every cluster run whatever anybody records about x repeats an announcement of x: address, metadata, versions and, where Alive, incarnation together; an accusation moves the incarnation and keeps the rest. Every alive message about x that is passed on was said by x |
| `Provenance.RunKeepsBacked` | memberlist/state.go:988-1362 | the inductive invariant behind that, for entries and for messages under way |
| `Cluster.OldAccusationsAreSpent` | memberlist/state.go:1119-1128 | in every cluster run, once a peer has recorded a refutation and while it does not reap the entry, nothing said about the member before the refutation changes that peer at all, whenever and however often it arrives |
| `Cluster.RunKeepsOk` | memberlist/state.go:1208-1256 | the invariant behind these: every claim anywhere is backed by its subject's own account |
| `Probing.CallEvents` | memberlist/state.go:253-295 | a call of `probe` only considers, resets and rewinds; every other event during it is the receipt of a given letter |
| `Probing.ResetRanOut` | memberlist/state.go:266-273 | a reset comes only after the end of a list that is not empty was reached, with only mail between |
| `Probing.ConsideredIsTarget` | memberlist/state.go:275-295 | a member looked at is eligible (another member, neither Dead nor Left) if and only if it is the target and ends the call |
| `Probing.TargetIsAnother` | memberlist/state.go:275-295 | whoever a call picks is next in the list, another member, and then Alive or Suspect |
| `Probing.GivesUpAfter` | memberlist/state.go:260-264 | nobody is picked only after at least as many looks and rewinds as members are listed |
| `Probing.QuietPicksFirst` | memberlist/state.go:253-295 | with nothing handled meanwhile the first eligible member from the index on is picked, if there is one |
| `Probing.QuietPicksNobodyIff` | memberlist/state.go:253-295 | with nothing handled meanwhile nobody is picked if and only if nobody is eligible from the index on, nor among those of the reshuffled list that the checks still allow |
| `Probing.MissesAtTheEnd` | memberlist/state.go:260-273 | two members, the index at the end: the call picks nobody although the other one is Alive |
| `Probing.RoundProbesEveryone` | memberlist/state.go:253-295 | in every run whose resets are made by calls of `probe`, whatever else happens, everyone listed when a round begins is picked by a call before the next reset, or looked at while oneself, Dead or Left |
| `Probing.RoundIsShort` | memberlist/state.go:253-295 | a round lasts no more calls than members are listed by then |
| `Memberlist.MoveDeadNodes` | memberlist/util.go:101-120 | permutes the array in place; exactly the expired Dead or Left nodes lie at or past the returned index |
| `Memberlist.ShuffleNodes` | memberlist/util.go:79-84 | whatever the random draws, the result is a permutation |
| `Memberlist.Survivors` | memberlist/state.go:592-613 | only expired nodes leave list and map, and list and map still share their objects |
| `Memberlist.Memberlist.constructor` | memberlist/memberlist.go:117-250 | a fresh member with nothing listed |
| `Memberlist.Memberlist.NextIncarnation` | memberlist/state.go:855-857 | the counter goes up by one, modulo 32 bits |
| `Memberlist.Memberlist.SkipIncarnation` | memberlist/state.go:860-862 | the counter goes up by the offset, modulo 32 bits |
| `Memberlist.Memberlist.Refute` | memberlist/state.go:960-984 | the object does what the protocol's refutation does; list, map and objects stay linked |
| `Memberlist.Memberlist.AliveNode` | memberlist/state.go:988-1204 | the object does what the protocol function does, hence what `Effects` says of news; `nodes` stays duplicate-free, shares its objects with `nodeMap`, and `numNodes` is its length |
| `Memberlist.Memberlist.SuspectNode` | memberlist/state.go:1208-1301 | the same for an accusation, timers and confirmations included |
| `Memberlist.Memberlist.DeadNode` | memberlist/state.go:1305-1362 | the same for a death notice |
| `Memberlist.Memberlist.MergeState` | memberlist/state.go:1412-1438 | the same for a received table, row by row |
| `Memberlist.Memberlist.ResetNodes` | memberlist/state.go:592-613 | reaps and shuffles: a reset step of the protocol, links kept |
| `Memberlist.Memberlist.CheckTimeout` | memberlist/state.go:1274-1290 | the verdict, if any, of the checking half of a timeout callback |
| `Memberlist.Memberlist.BeginSuspicion` | memberlist/state.go:1246-1297 | the entry is marked Suspect and its timer made at the same instant, with the given minimum |
| `Memberlist.Memberlist.TimeoutCallback` | memberlist/state.go:1274-1290 | a peer is found overdue by its own timeout no sooner than the minimum after its suspicion began |
| `Memberlist.Memberlist.SetAlive` | memberlist/memberlist.go:376-404 | an incarnation is drawn and announced at the configured address, whether or not the member is listed already; let through, address, metadata and incarnation are on the own record |
| `Memberlist.Memberlist.UpdateNode` | memberlist/memberlist.go:442-482 | an incarnation is drawn and announced at the recorded address; let through, the new metadata is on the own record |
| `Memberlist.Memberlist.DeadlineBounds` | memberlist/state.go:1268-1297 | the deadline of every timer a member holds lies between its minimum and the configured multiple of it |
| `Memberlist.Memberlist.Leave` | memberlist/memberlist.go:561-589 | only the first call acts: the flag, then, if and only if the member lists itself at that moment, the farewell with the incarnation recorded there and the farewell applied; all other events are the given letters, in order |
| `Memberlist.Memberlist.Probe` | memberlist/state.go:253-295 | ends whatever finite mail is handled between its turns and before its resets; its path is turn by turn the given mail and then a decision: give up after as many checks as members, reset and rewind an exhausted list, skip oneself, Dead or Left, or end with the next member as target |
| `GossipQueue.InsertSorts` | memberlist/queue.go:264-269 | insertion keeps the tree strictly ordered and adds the item, displacing only one that compares equal |
| `GossipQueue.DeleteSorts` | memberlist/queue.go:249-261 | deletion of a queued item keeps the order and removes exactly that item |
| `GossipQueue.EmptiedUnderIff` | memberlist/queue.go:249-261 | on any queue in order, the generator restarts under waiting items if and only if the whole queue fits the call and some item has transmissions left |
| `GossipQueue.DrainedIffAllFits` | memberlist/queue.go:306-373 | on any queue in order, everything goes out in one call if and only if all of it fits, an empty last message needing one byte more |
| `GossipQueue.PruneKeepsTheFront` | memberlist/queue.go:415-429 | what survives pruning is the front of the queue |
| `GossipQueue.RangeIsTheFittingTier` | memberlist/queue.go:306-331 | the scanned range holds exactly the items of the tier that fit |
| `GossipQueue.ScanFinds` | memberlist/queue.go:306-345 | the scan finds the least fitting item of the tier, largest then newest first, if there is one |
| `GossipQueue.GetBroadcastsFits` | memberlist/queue.go:291-380 | on any queue in order, bytes with overhead stay within the limit, no item is sent twice, the items sent are in queue order, and no item left behind would still fit unless it is empty and no byte is free |
| `GossipQueue.RunOrders` | memberlist/queue.go:185-429 | every run whatever, restarts and wraps of the generator included, leaves the queue in order |
| `GossipQueue.RunPacks` | memberlist/queue.go:291-380 | so the packing guarantee holds for the next call after every run |
| `QueueAccounts.SubmitAccountsIff` | memberlist/queue.go:185-245 | submitting keeps the accounts if and only if no item that stays is unsent, as long as the new one and has the id given out next |
| `QueueAccounts.GiveAccountsIff` | memberlist/queue.go:291-380 | handing out keeps the accounts if and only if no item left behind has the length, the id and the new transmit count of one that goes back in |
| `QueueAccounts.EmptyingIsHarmless` | memberlist/queue.go:249-261 | a call that empties the tree, restarting the generator, keeps the accounts |
| `QueueAccounts.PruneOk` | memberlist/queue.go:415-429 | pruning keeps the accounts |
| `QueueAccounts.ResetOk` | memberlist/queue.go:399-412 | resetting keeps the accounts, leaves every submission finished, and the rest as in a new queue |
| `QueueAccounts.RunAccountsIff` | memberlist/queue.go:185-429 | over every run the accounts are right throughout if and only if no step puts in what the tree takes for something it holds |
| `QueueBounds.RunAccounts` | memberlist/queue.go:185-429 | in every run, clashes included, a submission is handed out at most max(1, transmit limit) times, queued at most once, finished at most once and not both; without clashes it is queued or finished, and the name map and the named tree items coincide |
| `QueueBounds.RunSound` | memberlist/queue.go:185-429 | the invariant behind it: tags are unique over the tree and the name map, and nothing in either was finished |
| `QueueAccounts.SteadyNeverClashes` | memberlist/queue.go:185-269 | in particular in every run whose generator neither wraps nor restarts while an item is on its way in |
| `QueueAccounts.RestartLosesABroadcast` | memberlist/queue.go:185-261 | a run of four submissions after which one is neither queued nor finished and the name map lists an item that is gone |
| `QueueAccounts.TickLosesABroadcast` | memberlist/queue.go:291-380 | two submissions and two gossip ticks after which the first is neither queued nor finished, sent once out of four times |
| `Replacement.VictimsAreReplaced` | memberlist/queue.go:203-240 | what a submission displaces, without the name index: a named broadcast its namesake, a unique one nothing, any other the plain ones it invalidates |
| `Replacement.SubmissionReplaces` | memberlist/queue.go:185-245 | under right accounts and without a clash: an old item stays if and only if it is not replaced, and exactly one item is new, unsent, with that message and the next id |
| `Replacement.ReplacedAreFinished` | memberlist/queue.go:203-240 | exactly the replaced submissions are told that they are finished, once |
| `Replacement.QueuedWasSubmitted` | memberlist/queue.go:185-429 | in every run, clashes included, whatever is queued was submitted under its tag |
| `Replacement.NothingOutdated` | memberlist/queue.go:185-429 | in every run, clashes included, nothing queued is replaced by something submitted after it |
| `Replacement.LaterReplacesNothing` | memberlist/queue.go:185-429 | so no two queued items have one name, and no plain one is invalidated by a later plain one |
| `Replacement.QueuedAreApart` | memberlist/queue.go:185-429 | in every run two queued items are two submissions |
| `Retransmission.HandingOut` | memberlist/queue.go:291-380 | after a call exactly this is queued: what was not sent, and what was sent and has transmissions left, with one more counted |
| `Retransmission.HandingOutCounts` | memberlist/queue.go:347-373 | what is sent is handed out once more, and finished if and only if that was the last time allowed |
| `Retransmission.SentWereQueued` | memberlist/queue.go:306-345 | only queued items are sent |
| `QueueObject.TransmitLimitedQueue.constructor` | memberlist/queue.go:173-182 | an empty queue |
| `QueueObject.TransmitLimitedQueue.QueueBroadcast` | memberlist/queue.go:185-245 | the object does what the queue function does, hence what `Replacement` says of a submission |
| `QueueObject.TransmitLimitedQueue.RemoveItem` | memberlist/queue.go:249-261 | the same for removing one item, generator reset included |
| `QueueObject.TransmitLimitedQueue.PutItem` | memberlist/queue.go:264-269 | the same for adding one item |
| `QueueObject.TransmitLimitedQueue.Search` | memberlist/queue.go:315-345 | finds what the range scan finds |
| `QueueObject.TransmitLimitedQueue.Fill` | memberlist/queue.go:306-373 | the tier loop terminates in the drained packing state |
| `QueueObject.TransmitLimitedQueue.GetBroadcasts` | memberlist/queue.go:291-380 | the object does what the queue function does, hence what `Retransmission` says of handing out, and returns the messages sent, in order |
| `QueueObject.TransmitLimitedQueue.Prune` | memberlist/queue.go:415-429 | the same for pruning |
| `QueueObject.TransmitLimitedQueue.Reset` | memberlist/queue.go:399-412 | the same for resetting |
| `Packet.MakeCompoundMessage` | memberlist/util.go:157-180 | writes the compound format: type, count, lengths, bodies |
| `Packet.DecodeCompoundMessage` | memberlist/util.go:183-217 | decodes what the format says, errors included |
| `Packet.SplitIsLongestPrefix` | memberlist/util.go:199-217 | on any bytes the parts are whole, consecutive, of the announced sizes, and as many as fit |
| `Packet.TruncatedCompound` | memberlist/util.go:183-217 | a compound cut anywhere in its bodies yields the longest whole prefix, and parts plus truncated make up the announced count |
| `Packet.TooManyMessages` | memberlist/util.go:157-180 | with more than 255 messages some are lost |
| `Packet.CompoundRoundTripIff` | memberlist/util.go:157-217 | decoding gives back the messages if and only if there are at most 255 of at most 65535 bytes |
| `Wire.PadLength` | memberlist/security.go:37-43 | between one byte and a whole block, to a multiple of the block |
| `Wire.Pkcs7Encode` | memberlist/security.go:37-43 | pads what follows the ignored prefix, in the buffer (section 6.3 of RFC 5652) |
| `Wire.PaddingRoundTrip` | memberlist/security.go:37-54 | unpadding undoes padding |
| `Wire.EncryptPayload` | memberlist/security.go:86-138 | appends version, nonce and sealed text to the buffer |
| `Wire.DecryptPayload` | memberlist/security.go:169-199 | tries the keys in turn; too short, unknown version and no key are errors |
| `Wire.EncryptedLengthIsExact` | memberlist/security.go:57-81 | what is written has exactly the announced length, never more than the budgeted overhead |
| `Wire.DecryptUndoesEncrypt` | memberlist/security.go:86-199 | decryption undoes encryption in both versions, with any set of installed keys |
| `Wire.RawSendMsgPacket` | memberlist/net.go:834-894 | compresses if shorter, checksums if the peer takes it, encrypts if configured |
| `Wire.HandleCommand` | memberlist/net.go:414-472 | delivers what the nested compound and compressed messages contain, in order, or says that they are nested deeper than it may look |
| `Wire.DeeperAgrees` | memberlist/net.go:529-546 | looking deeper never changes an answer, so an answer is what unbounded recursion delivers |
| `Wire.AnsweredIffEnds` | memberlist/net.go:414-428 | some depth gives an answer if and only if the code's own recursion through compounds and compressed messages ends |
| `Wire.IngestPacket` | memberlist/net.go:377-411 | opens, verifies, then delivers what `Admission` says of the packet: what no key opens is refused where encryption is insisted on, what does not match its checksum everywhere |
| `Admission.DecryptedIff` | memberlist/security.go:169-199 | decryption gives a text if and only if the packet is a version of at most 1, twelve nonce bytes and a sealed text that some key opens, no earlier key does, and unpadding what it opens gives the text |
| `Admission.NotDecrypted` | memberlist/security.go:169-199 | each error, exactly when |
| `Admission.OpenedIff` | memberlist/net.go:382-397 | what a receiver takes for the content, in those terms |
| `Admission.VerifiedIff` | memberlist/net.go:399-411 | a content that starts with the checksum type passes if and only if the checksum matches |
| `Admission.AdmittedIsHandled` | memberlist/net.go:377-411 | what is admitted goes to the handlers |
| `Admission.HandledWasAdmitted` | memberlist/net.go:377-411 | and nothing else does |
| `Admission.DeliveredIff` | memberlist/net.go:377-472 | over all packets: something is delivered if and only if a content is admitted that yields it |
| `Admission.DeliveredWasOpened` | memberlist/net.go:382-397 | with keys and encryption insisted on, whatever is delivered came in a packet that some installed key opened |
| `Admission.UnopenedIsRefused` | memberlist/net.go:386-394 | so nothing is delivered from a packet no key opens |
| `Admission.WrongChecksumIsRefused` | memberlist/net.go:399-411 | nothing is delivered from a content whose checksum does not match |
| `Admission.BareMessage` | memberlist/net.go:414-472 | by number: a bare message of types 0 to 5, 8, 11 and 14 is delivered, any other goes nowhere |
| `Admission.Wrapped` | memberlist/net.go:529-546 | a wrapper that cannot be undone delivers nothing, a compressed message what it compresses |
| `Admission.CompoundInTurn` | memberlist/net.go:529-546 | the parts of a compound are delivered in their order |
| `Admission.DecodedParts` | memberlist/util.go:183-217 | any bytes: either error, exactly when, or whole consecutive parts of the announced lengths, and how many are missing |
| `Admission.CompoundLayout` | memberlist/util.go:157-180 | the compound byte by byte |
| `Admission.SealedLayout` | memberlist/security.go:86-138 | the sealed packet: version, nonce, sealed text |
| `Admission.SealedSize` | memberlist/security.go:57-81 | its size in numbers, and the budgeted overheads |
| `Admission.ChecksumGoesInFront` | memberlist/net.go:866-873 | the checksum header byte by byte |
| `Admission.CompressedIfShorter` | memberlist/net.go:839-850 | compression is used exactly where it is on and shortens |
| `Wire.PacketRoundTrip` | memberlist/net.go:377-426 | whatever combination of compression, checksum and encryption is on, and also for plaintext to a receiver with keys that does not insist on them, the joined messages are dispatched to their handlers in order |
| `PacketBudget.GetBroadcasts` | memberlist/memberlist.go:726-753 | the queue's messages, then framed user messages for the room left |
| `PacketBudget.CollectedFits` | memberlist/memberlist.go:726-753 | with a delegate that honours its limit the total with overhead stays within the limit |
| `PacketBudget.DelegateIsAsked` | memberlist/memberlist.go:726-753 | with the byte count written out: the delegate is asked if and only if room is left for more than a message's overhead, for that room; its messages go behind the queue's with type 8 in front |
| `PacketBudget.GossipBudgets` | memberlist/state.go:640-646 | the gossip budget in numbers |
| `PacketBudget.CompoundSize` | memberlist/util.go:157-180 | a compound's size is its header plus every message with its length slot |
| `PacketBudget.WireSize` | memberlist/net.go:834-894 | for every sender, a packet grows by at most the checksum header and the encryption overhead |
| `PacketBudget.PacketFitsIff` | memberlist/net.go:834-894 | for every sender, a packet fits the buffer if and only if its content, compressed if that helps, and its checksum header fit what sealing leaves |
| `PacketBudget.GossipPacketFits` | memberlist/state.go:640-664 | a gossip packet filled from any queue in order and an honest delegate fits the UDP buffer, up to the checksum header; a sender with keys that sends plain has the encryption overhead to spare |
| `PacketBudget.GossipPacketFitsAfterEveryRun` | memberlist/state.go:640-664 | so it does after every run of the queue |
| `PacketBudget.GossipFitsIff` | memberlist/state.go:651-664 | when collected messages fit, checksum or not: a single one by its own bytes, several with the header and a length slot each |
| `PacketBudget.GossipOverrun` | memberlist/net.go:866-873 | two queued broadcasts whose gossip packet is five bytes too long for a peer that takes checksums |
| `PacketBudget.PiggyBackFitsIff` | memberlist/net.go:807-830 | a plain packet with passengers fits the buffer if and only if they leave two bytes of their budget unused |
| `PacketBudget.PiggyBackBound` | memberlist/net.go:807-830 | for every sender and any queue in order it exceeds the buffer by at most two bytes and the checksum header |
| `PacketBudget.PiggyBackBoundAfterEveryRun` | memberlist/net.go:807-830 | so it does after every run of the queue |
| `PacketBudget.PiggyBackOverrun` | memberlist/net.go:807-830 | and two broadcasts handed out by a queue make it do so, with and without a checksum |
| `DependencyGraph.StuckSetHasCycle` | unitofwork/dependency.go:125-128 | types that all wait for each other contain a cycle |
| `DependencyGraph.RespectfulMeansAcyclic` | unitofwork/dependency.go:103-128 | an order with every dependency first leaves no room for a cycle |
| `KahnOrder.ArrangedOnce` | unitofwork/dependency.go:194-206 | sorting by weight, then name, has only one outcome |
| `KahnOrder.DoneIffAcyclic` | unitofwork/dependency.go:125-128 | when the queue runs dry everything is out if and only if nothing is circular |
| `KahnOrder.DoneIffNoEdge` | unitofwork/dependency.go:125-128 | in reverse, if and only if no type depends on another of the set |
| `KahnOrder.ReverseOrder` | unitofwork/dependency.go:103-123 | in reverse, when it succeeds, the order is that of the weights alone |
| `ReleaseOrder.LexLessIff` | unitofwork/dependency.go:194-206 | type names are compared as in a dictionary: at the first place where they differ, a prefix first |
| `ReleaseOrder.LighterFirst` | unitofwork/dependency.go:194-206 | smaller weight first, 0 where none is registered, then by name |
| `ReleaseOrder.TypesInReleaseOrder` | unitofwork/dependency.go:89-123 | types come out by the place of the last of their dependencies, those without any first, and by weight and name among those released together |
| `Dependency.DependencyManager.constructor` | unitofwork/dependency.go:18-23 | no edges, no weights |
| `Dependency.DependencyManager.RegisterDependency` | unitofwork/dependency.go:27-42 | adds exactly that edge; no duplicates and no self-dependency ever |
| `Dependency.DependencyManager.RegisterEntityWeight` | unitofwork/dependency.go:45-47 | changes exactly that weight |
| `Dependency.DependencyManager.CalculateInDegree` | unitofwork/dependency.go:149-171 | each type's count is the number of its dependencies within the set |
| `Dependency.DependencyManager.GetNeighbors` | unitofwork/dependency.go:174-191 | each dependent, or in reverse each dependency, once |
| `Dependency.DependencyManager.SortByWeight` | unitofwork/dependency.go:194-206 | the same types, lighter first and by name among equals |
| `Dependency.DependencyManager.SortTypes` | unitofwork/dependency.go:89-123 | the queue loop terminates with an order that depends on graph, weights and the set of types alone, not on map traversal |
| `Dependency.DependencyManager.TopologicalSort` | unitofwork/dependency.go:71-146 | exact failure condition, permutation, groups in type order, dependencies first when forward |
| `Dependency.DependencyManager.GetInsertionOrder` | unitofwork/dependency.go:50-52 | fails if and only if the edges among the types present contain a cycle; otherwise a permutation in which every entity of a dependency type precedes every entity of a dependent type |
| `Dependency.DependencyManager.GetDeletionOrder` | unitofwork/dependency.go:55-68 | fails if and only if some edge lies inside the set; otherwise a permutation, grouped by type in reverse weight order |
| `Dependency.DeletionRefusesAcyclic` | unitofwork/dependency.go:55-68 | so it refuses the simplest acyclic pair |
| `Dependency.SortEntitiesByID` | unitofwork/dependency.go:217-223 | permutes; the compared text is the same for every id, so no order is promised |
| `Dependency.Reverse` | unitofwork/dependency.go:61-65 | the swaps reverse the sequence |
| `Operations.MergeDecides` | unitofwork/operation.go:137-150 | what has been gathered merges with a single operation exactly when kind and type agree, and then writes one entity more |
| `Operations.MergeMeans` | unitofwork/operation.go:439-461 | operations merge if and only if kind and type agree and no bulk goes into a single one; then all is written in order, else nothing changes |
| `Operations.MergeOperations` | unitofwork/unitofwork.go:467-507 | the two loops over indices do what the list function does: each operation in turn takes in what it can of those behind it |
| `Operations.SinglesMerge` | unitofwork/unitofwork.go:467-507 | for single operations that makes one operation per kind and type, each writing all that its operations wrote, in their order |
| `Operations.MergedInOrder` | unitofwork/unitofwork.go:467-507 | merged operations come in the order in which their kinds and types first came |
| `Operations.MergingPreservesWrites` | unitofwork/unitofwork.go:467-507 | merging, whatever the operations, bulk ones included, changes neither what is written nor how often |
| `Schedule.KeysSeparate` | unitofwork/unitofwork.go:564-571 | the textual keys tell entities apart exactly as type and id do |
| `Schedule.LatestIsLast` | unitofwork/unitofwork.go:564-571 | of the operations on one identity the last one counts |
| `Schedule.SortByEntityDependency` | unitofwork/unitofwork.go:555-597 | exact failure condition; otherwise the same operations, each replaced by the last one with its identity, inserts with every dependency first; the order of the types is given: as released for inserts, from the heaviest down for deletes |
| `Schedule.SortOperations` | unitofwork/unitofwork.go:510-552 | exact failure condition; otherwise those operations in three phases, each in its order: inserts as released, updates as they were queued, deletes from the heaviest type down; just the given ones when no two of a kind share an identity |
| `Schedule.OfKindAppends` | unitofwork/unitofwork.go:516-528 | each phase takes the queued operations of its kind, in their order |
| `Schedule.PhasedMeans` | unitofwork/unitofwork.go:544-551 | in words: nothing but deletes after a delete, no insert after an update |
| `Schedule.WritesWellOrdered` | unitofwork/unitofwork.go:510-552 | the order of operations carries over to every entity inside bulk operations |
| `Schedule.WritesPermute` | unitofwork/unitofwork.go:544-551 | reordering operations does not change what they write |
| `Tracking.CreateKeeps` | unitofwork/unitofwork.go:144-191 | registering a new entity keeps the bookkeeping consistent: the three tables disjoint by type and id, one operation of the matching kind per tracked identity |
| `Tracking.UpdateKeeps` | unitofwork/unitofwork.go:194-248 | the same for a dirty entity |
| `Tracking.DeleteNewKeeps` | unitofwork/unitofwork.go:267-275 | the same for deleting what was only created |
| `Tracking.DeleteKeeps` | unitofwork/unitofwork.go:277-295 | the same for any other delete, repeated ones included |
| `Tracking.AddLists` | unitofwork/unitofwork.go:176-178 | registering puts an entity at the end of its type's list and touches no other list |
| `Tracking.RemoveLists` | unitofwork/unitofwork.go:617-633 | taking one out leaves the others in their order, and no other list changes |
| `Tracking.WithoutAppends` | unitofwork/unitofwork.go:635-645 | removing an identity's operations decides on each operation alone and keeps the order |
| `Tracking.WithoutOne` | unitofwork/unitofwork.go:635-645 | it removes exactly the single operations with that type and id |
| `UnitOfWork.ContainsEntity` | unitofwork/unitofwork.go:601-615 | true exactly if an entity of that type and id is listed |
| `UnitOfWork.RemoveFromEntityList` | unitofwork/unitofwork.go:617-633 | drops one entity of that id, if listed, and reports it |
| `UnitOfWork.RemoveOperationByEntity` | unitofwork/unitofwork.go:635-645 | leaves out exactly the operations for that identity |
| `UnitOfWork.GetEntityCountByType` | unitofwork/unitofwork.go:668-674 | the total length of the lists, whatever the traversal order |
| `UnitOfWork.RemoveInvalidOperations` | unitofwork/unitofwork.go:423-464 | removes nothing |
| `UnitOfWork.UnitOfWork.constructor` | unitofwork/unitofwork.go:80-97 | nothing tracked, nothing queued |
| `UnitOfWork.UnitOfWork.CheckMemoryLimit` | unitofwork/unitofwork.go:651-666 | refuses exactly when a positive limit is reached by all tracked entities together |
| `UnitOfWork.UnitOfWork.Create` | unitofwork/unitofwork.go:144-191 | keeps the invariant; the exact outcome in every case, and exactly one insert queued when something is registered |
| `UnitOfWork.UnitOfWork.Update` | unitofwork/unitofwork.go:194-248 | keeps the invariant; the exact outcome in every case, and exactly one update queued when something is registered |
| `UnitOfWork.UnitOfWork.Delete` | unitofwork/unitofwork.go:251-296 | keeps the invariant; a new entity is forgotten, any other leaves the dirty table and has exactly one delete queued |
| `UnitOfWork.UnitOfWork.OptimizeOperations` | unitofwork/unitofwork.go:408-420 | the same writes; with merging one operation per kind and type, in the order these first came, without it the operations themselves |
| `UnitOfWork.UnitOfWork.Plan` | unitofwork/unitofwork.go:379-387 | fails if and only if the inserts are circular or a delete depends on another; otherwise each tracked identity is written exactly once, inserts (dependencies first), then updates, then deletes, in the phases `SortOperations` gives |
| `UnitOfWork.UnitOfWork.CarryOut` | unitofwork/unitofwork.go:379-405 | carries such a plan out whole, or up to the first operation the database rejects |
| `UnitOfWork.TrackedIsWritten` | unitofwork/unitofwork.go:379-405 | what is inserted, updated and deleted are exactly the new, dirty and removed identities |
| `UnitOfWork.UnitOfWork.Commit` | unitofwork/unitofwork.go:303-353 | on success such a plan was carried out whole, no operation of it rejected, and everything is cleared; on failure nothing is forgotten, and what was carried out is the part of such a plan before the rejected operation |
| `UnitOfWork.UnitOfWork.Rollback` | unitofwork/unitofwork.go:356-376 | clears, once, unless committed |
| `MedianCut.LongestSideIndex` | imgutils/helper.go:47-58 | the first index of a longest side |
| `MedianCut.Shrink` | imgutils/helper.go:65-76 | the smallest box around the window |
| `MedianCut.SortWindow` | imgutils/helper.go:179-182 | sorts the window by the channel, permuting it and leaving the rest alone |
| `MedianCut.SomeBlockHasExtent` | imgutils/helper.go:172-176 | pigeonhole: with more distinct colours than blocks some block has a positive side |
| `MedianCut.PoppedHasExtent` | imgutils/helper.go:172-176 | so the block popped has one |
| `MedianCut.ExtentNeedsTwo` | imgutils/helper.go:183-185 | and therefore at least two points, so neither half is empty |
| `MaxHeap.PushHeaps` | imgutils/helper.go:93-116 | pushing keeps the heap order and adds exactly the element |
| `MaxHeap.PopHeaps` | imgutils/helper.go:93-124 | popping takes out an element of the largest key and keeps the heap order |
| `MaxHeap.PushFront` | imgutils/helper.go:93-116 | a pushed element comes to the front only if it outdoes the one there |
| `MaxHeap.PopFront` | imgutils/helper.go:93-124 | which element follows the front, ties included |
| `MedianCut.Split` | imgutils/helper.go:173-187 | the halves at the median tile what the block covered, each with its smallest box, separated along the first longest side; the points are only permuted, and every earlier block's box stays tight |
| `MedianCut.Blocks` | imgutils/helper.go:160-190 | with more distinct colours than `NumColor` the loop never meets an empty half; its heaps, from the one block of all points on, each partition the points and follow by halving a block with the longest side; it ends with `NumColor` blocks or a single-point block in the last slot |
| `CutResults.CutsKeepApart` | imgutils/helper.go:172-190 | after any number of turns the boxes of any two blocks are separated along some channel |
| `CutResults.RowStopsEarly` | imgutils/helper.go:126-172 | five colours in a row, the first two no closer than the last three span, end in three blocks, the last three colours together, whatever more is allowed |
| `CutResults.RedsStopEarly` | imgutils/helper.go:126-172 | five reds with five keys that get three entries of four |
| `MedianCut.Mean` | imgutils/helper.go:195-206 | the truncated mean of the window, inside its box, hence a 16-bit level |
| `MedianCut.SumAppends` | imgutils/helper.go:195-206 | the sums behind the mean add up over parts |
| `MedianCut.MedianCut` | imgutils/helper.go:160-210 | the palette of such a run: for each block of its last heap, in the order the heap gives them out, the mean of the block, inside its box; one shorter than `NumColor` has a part of a single point; none when `NumColor` is 0 |
| `MedianCut.KeysUndercount` | imgutils/helper.go:218-243 | 8-bit keys never outnumber distinct points, which is what makes the call safe |
| `MedianCut.KeySeparates` | imgutils/helper.go:218-243 | two colours count as one exactly when they agree in the upper eight bits of every channel |
| `MedianCut.Quantize` | imgutils/helper.go:212-243 | never more than `NumColor` colours: one per key when the keys fit, otherwise the palette of a full run of the median cut on the pixels |

## Left out

- Sockets, DNS, TCP streams, tickers, logging, metrics and callbacks: plumbing.
- Real cryptography, LZW, msgpack and floating-point logarithms: kept abstract under the assumptions above.
- Weight messages, the awareness score, hand-off queues, the key ring and `verifyProtocol`: clamps and list facts.
- Restarts of a member under the same name, and wrapped counters, in the cluster-wide results.
- Masking of port and address formats: an address is one string, compared as a whole.
- Wire.HandleCommand: looks at most a given number of wrappers deep and says so when that is not enough, because nothing bounds the code's recursion through compressed messages; where that recursion ends some depth gives its answer (`AnsweredIffEnds`, `DeeperAgrees`), and the round trip needs two.
- Wire.IngestPacket: the same bound, passed on; the allow list of source addresses is not modelled.
- Memberlist.Memberlist.Leave: waiting for the broadcast to go out, and its timeout, are not modelled.
- Memberlist.Memberlist.Probe: which member is probed is modelled, not the probe itself.
- Dependency.SortEntitiesByID: does not promise an order, because the compared text is a constant.
- Schedule.SortByEntityDependency: an operation has at least one entity; the code drops one that has none, and nothing builds such an operation.
- UnitOfWork.UnitOfWork.Commit: sequential; the code drops its lock while executing, and another goroutine's calls in that window are not modelled. What a rejected operation wrote before failing is the database's affair.
- The snapshot manager: its keys do not separate entities, so its verdict is an arbitrary boolean.
- `HasDependency`, `RemoveDependency`, `GetAllEntityTypes`, `GetStats`: simple queries and filters.
- MedianCut.MedianCut: `NumColor` is not negative; drawing into the destination image and clipping are not modelled, the pixels of the clipped rectangle are the input.
- Case folding, reflection, configuration, caches, code generation, pagination and query builders: thin or structural.
