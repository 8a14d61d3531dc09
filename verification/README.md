# Distributed elevator: model and proofs

A Dafny model of the distributed elevator in `Annen_heis/new_heis` and of the
single-elevator and assignment code beside it, with proofs of what the system
promises. `dafny verify dfyconfig.toml` checks the whole project.

## What is modelled

**The replicated request table** (`Versions`, `Requests`, `Merge`, `MergeOrder`,
`Replicas`, `Replication`, `Convergence`, `SyncWindow`, `Gossip`, `Unsettled`, `Settling`,
`SettlingExactly`, `DivergentRun`). Calls
live in a last-writer-wins table of cells with Lamport versions and a boot rule.
`RequestTable` and `Clock` are objects as in the source; `MergeRequests` is its loop. `Replication`
is the protocol as a state machine: nodes start and restart with later boot ids, write,
send snapshots, and receive any snapshot ever sent, in any order, any number of times
or never. Everything is proved over all its runs.

**The controller** (`Peers`, `PeerTimes`, `Assigner`, `AssignmentRule`, `ControllerModel`,
`Controller*`, `ButtonRules`, `StuckRules`, `LoneCar`, `StarvedRun`, `ReversalRun`).
`Controller` is an object with the source's fields, whose
handlers are proved against functions of the state before; the theorems are about these
functions and runs of them, up to the exact condition under which a car without peers
serves all its calls (`ControllerLiveness.ServesAllExactly`). The hardware is a `Device`
that remembers what it was last told.

**A fleet of controllers** (`Fleet`, `FleetRuns`, `FleetSettling`): any number of
controllers that boot, handle any events and exchange snapshots. For every run of a fleet
there is one run of the replication protocol that passes through its tables, clocks and
packets in order (`Fleet.FleetRefines`), so that what the protocol guarantees over runs
holds of the controllers: no version goes back, old packets cannot undo a write, and once
nothing is written any more gossip makes all agree about every call whose newest entry is
still held. Two that merge each other's snapshots agree without any condition
(`Fleet.ExchangeAgrees`), which three need not.

**The single-elevator machine** (`ScanElevator`, `ScanRules`, `ScanLiveness`): the event functions
of `elevator/fsm.go` with the door timer as the root `main.go` starts it, and their
closed-loop liveness, for any number of floors.

**The travel-time estimate** (`HallCost`) of `hallassigner/hallassigner.go`.

**The simulation-based assigner** (`SimElevator`, `Simulation`, `SimRules`, `SimProgress`,
`SimRuns`, `InitialCalls`, `LoneElevator`, `SimEnds`, `HallRequestAssigner`):
`optimalHallRequests` on
arrays updated in place, the inputs on which it terminates, and the partition it
returns. A turn of its loop may take any elevator of least time, as the sort is not
stable.

Numbers of floors, nodes and elevators are unbounded throughout.

## Where the code does not do what is expected of it

The model follows the code. Where a promise fails, lemmas give a run or an input on which
it does, or the exact condition under which it holds, or both.

- *Packets "converge by version order"* (`Annen_heis/new_heis/README.md:42`). The boot
  rule makes "newer" run in circles (`Versions.CycleExample`), and wherever snapshots
  carry the three entries of such a circle, nodes that absorb the same entries can
  disagree (`DivergentRun.SandwichDiverges`; `DivergentRun.Diverges` is a run that does).
  Order cannot matter exactly under the conditions of `MergeOrder.OrderFreeExactly` and
  `MergeOrder.HereditaryExactly`. Nodes agree about a call exactly when both have absorbed
  the newest entry of what either has (`Convergence.AgreeExactly`), and gossip brings that
  about (`Settling.GossipSettles`, `FleetSettling.FleetSettles`), exactly if the newest
  entry is still held by somebody when writing ends (`SettlingExactly.SettlesExactlyWhere`).
  What the startup sync window has to achieve is `CaughtUp`, a guard on the writer's clock
  (`Convergence.MonotoneExactly`, `Convergence.SyncCatchesUpExactly`,
  `Convergence.CaughtUpConverges`). It does so if it brings, for every earlier write of the
  node, a snapshot of some node that had absorbed it; nodes that always sync so have no
  circles at all (`SyncWindow.SyncedWritesInOrder`). Cab cells never have any.
- *Seeding "above the highest observed counter"* (`Annen_heis/new_heis/README.md:59`)
  never changes the clock, which observing has already raised
  (`Replication.SeedChangesNothing`).
- *A snapshot rebuilds a table* only if no cell has a version that is not newer than the
  zero version (`Merge.RoundTrip`); in runs of controllers none has, as every cell comes
  from a write (`FleetRuns.SnapshotRebuilds`).
- *Later boots have greater boot ids* only from the epoch on: for two times before it
  the order is reversed (`Text.BootIdOrder`).
- *"Already-known active requests continue to be served"*
  (`Annen_heis/new_heis/README.md:76`). `plan` opens for any call at the car's floor,
  but the opening may announce none of them; the car then closes and opens again for
  ever. A run of five events leads there (`StarvedRun.StarvedIsReachable`). A car without
  peers serves all its calls exactly if it does not come to stop, for some call, at a floor
  where the opposite hall call is lit too and it is called further on; otherwise it ends
  there for ever (`ControllerLiveness.ServesAllExactly`). Whether it is held up where it is
  says `ControllerStops.StarvedExactly`. Openings clear something exactly as
  `ControllerStops.PlanOpeningClearsExactly` says; stops at a floor sensor always do
  (`ControllerStops.StopClears`).
- *The door "closes immediately" once the doorway is free*
  (`Annen_heis/new_heis/README.md:66`) exactly under the condition of
  `ControllerDoors.ClosesAtOnceExactly`; `StarvedRun.FreedDoorStaysOpen` is a run in which
  it does not.
- *At a reversal floor* (`Annen_heis/new_heis/README.md:68`) the second interval depends on
  what the first leaves: there is one exactly if no other car has taken over the call, none
  of lower id has its door open there, and nothing has come ahead of the car
  (`ControllerDoors.ReversalServesBoth`, `ControllerDoors.ReversalExactly`). A peer that
  times out meanwhile may leave the car its calls, and then the second call is never
  served: `ReversalRun.SecondCallGetsNoInterval` is a run of three events in which it is
  not.
- *A car that is `stuck`* does not recover by itself: a sensor makes it count as moving, with
  its motor off, until something makes it plan (`StuckRules.StuckStands`,
  `StuckRules.MotorStartsByPlan`). And whatever makes a moving car plan puts off that it is
  taken to be stuck (`StuckRules.WatchExactly`).
- *The simulation ends* if some id is not the empty string, which the assigner takes for
  "unassigned". With that as the only id it ends exactly on the inputs that
  `SimEnds.EndsExactly` says; `SimEnds.BlankNeverEnds` is one on which it does not.

## Model

| member | source | states |
|---|---|---|
| `Text.BootIdOrder` | Annen_heis/new_heis/internal/model/types.go:199-201 | of two process starts with any 64-bit nanosecond times and any process numbers, the later has the greater boot id exactly when its time is not before the epoch |
| `Text.PaddedOrder` | Annen_heis/new_heis/internal/model/types.go:199-201 | numbers that fit a zero-padded width are ordered by their text, whatever follows, exactly when the greater is not negative |
| `Text.DigitsOrder` | Annen_heis/new_heis/internal/model/types.go:199-201 | fixed-width decimals are ordered, and equal, as the numbers they spell |
| `Versions.NewerTotal` | Annen_heis/new_heis/internal/model/types.go:99-110 | any two versions compare, oppositely when swapped, and as equal only if they are |
| `Versions.ChainExactly` | Annen_heis/new_heis/internal/model/types.go:99-110 | "newer" has no cycles on a set of versions exactly when no writer went back across boots around another writer's version |
| `Versions.NewerTransitive` | Annen_heis/new_heis/internal/model/types.go:99-110 | three versions with no such sandwich among them are ordered transitively |
| `Versions.LexExactly` | Annen_heis/new_heis/internal/model/types.go:99-110 | `CompareVersion` is the plain order on (counter, writer, boot) on a set exactly when a later boot never uses a smaller counter |
| `Versions.OneWriterIsChain` | Annen_heis/new_heis/internal/model/types.go:99-102 | one writer's versions, over all its boots, are always ordered |
| `Versions.BootMonotoneIsChain` | Annen_heis/new_heis/internal/model/types.go:99-110 | boots that agree with counters are enough for an order |
| `Versions.CycleExample` | Annen_heis/new_heis/internal/model/types.go:99-110 | three versions on which "newer" runs in a circle |
| `Requests.CompareKeyTotal` | Annen_heis/new_heis/internal/model/types.go:218-229 | any two keys compare, and only equal keys compare as equal |
| `Requests.KeysInOrder` | Annen_heis/new_heis/internal/model/types.go:218-229 | cab calls are listed before hall calls, then by owner, floor by floor upwards, and the down call of a floor before its up call |
| `Requests.SnapshotUnique` | Annen_heis/new_heis/internal/model/types.go:158-170 | whatever order the map is walked in, a table has one listing |
| `Requests.RequestTable.Entries` | Annen_heis/new_heis/internal/model/types.go:140-142 | every cell, in strict key order, and nothing else |
| `Requests.RequestTable.ActiveEntries` | Annen_heis/new_heis/internal/model/types.go:144-146 | every active cell, in strict key order, and nothing else |
| `Requests.RequestTable.EntriesOf` | Annen_heis/new_heis/internal/model/types.go:158-170 | the listing both of these return |
| `Requests.RequestTable.MaxCounter` | Annen_heis/new_heis/internal/model/types.go:148-156 | the greatest counter in the table, 0 when there is none |
| `Requests.RequestTable.Set` | Annen_heis/new_heis/internal/model/types.go:136-138 | one cell is replaced, all others stay |
| `Requests.Clock.Next` | Annen_heis/new_heis/internal/model/types.go:182-185 | a 64-bit increment that wraps, and the version with the new counter |
| `Requests.Clock.Observe` | Annen_heis/new_heis/internal/model/types.go:187-191 | the clock never falls behind an observed counter |
| `Requests.Clock.Seed` | Annen_heis/new_heis/internal/model/types.go:193-197 | the clock is raised to the given counter, never lowered |
| `Merge.MergeRequests` | Annen_heis/new_heis/internal/cluster/merge.go:5-15 | table, clock and flag after the loop, as folds over the entries in the order they came |
| `Merge.ObserveAllMax` | Annen_heis/new_heis/internal/cluster/merge.go:7-8 | the clock ends at the greatest of its old value and the received counters, writer and boot unchanged |
| `Merge.SnapshotClock` | Annen_heis/new_heis/internal/cluster/merge.go:5-15 | after receiving a table's snapshot the clock is the greater of its old value and the table's largest counter |
| `Merge.MergeAtKey` | Annen_heis/new_heis/internal/cluster/merge.go:9-12 | a key listed once holds the newer of the old and the received cell |
| `Merge.MergeElsewhere` | Annen_heis/new_heis/internal/cluster/merge.go:9-12 | a key that is not listed is left alone |
| `Merge.NoWinNoChange` | Annen_heis/new_heis/internal/cluster/merge.go:6-14 | a merge that reports no change changes nothing, for any list of entries |
| `Merge.FlagExact` | Annen_heis/new_heis/internal/cluster/merge.go:6-14 | on entries with distinct keys the flag is true exactly when the table changed, for any versions |
| `Merge.MergeIsJoin` | Annen_heis/new_heis/internal/cluster/merge.go:5-15 | receiving the snapshot of another table is the key-by-key join with it |
| `Merge.RoundTrip` | Annen_heis/new_heis/internal/model/types.go:140-142 | merging a table's snapshot into an empty table rebuilds it exactly when every version is newer than that of a missing cell, with that condition spelt out on counter, writer and boot |
| `Merge.JoinIdempotent` | Annen_heis/new_heis/internal/cluster/merge.go:5-15 | joining a table with itself changes nothing, for any versions |
| `Merge.JoinCommutesExactly` | Annen_heis/new_heis/internal/cluster/merge.go:5-15 | two tables join to the same table either way exactly when no version stands for two cells of a key and no cell that only one has is older than a missing one |
| `Merge.JoinAssociative` | Annen_heis/new_heis/internal/cluster/merge.go:5-15 | tables over writes without version cycles join to the same table in any grouping |
| `MergeOrder.MergeAppend` | Annen_heis/new_heis/internal/cluster/merge.go:5-15 | receiving two lists one after the other is receiving their concatenation |
| `MergeOrder.NewestPrevails` | Annen_heis/new_heis/internal/cluster/merge.go:9-12 | an entry newer than all others for its key is what the table ends up with once received, in any order |
| `MergeOrder.TopStays` | Annen_heis/new_heis/internal/cluster/merge.go:9-12 | a cell that nothing received is newer than stays |
| `MergeOrder.OrderFreeExactly` | Annen_heis/new_heis/README.md:42 | for a set of entries, order and repetition of reception cannot matter exactly when each key has an entry newer than all its others |
| `MergeOrder.HereditaryExactly` | Annen_heis/new_heis/README.md:42 | they cannot matter for any part of a set of writes exactly when a version names one cell of a key and no key has a sandwich |
| `Replicas.LocalWriteBeatsExactly` | Annen_heis/new_heis/internal/model/types.go:182-185 | a local write is newer than a version the node has observed exactly as long as the counter does not wrap, an earlier boot of the same node apart |
| `Replication.WriteBeatsSeen` | Annen_heis/new_heis/internal/controller/controller.go:379-384 | in every state of a run, a local write is newer than every entry the node has absorbed and than the cell it replaces |
| `Replication.SeedChangesNothing` | Annen_heis/new_heis/internal/controller/controller.go:74-76 | the clock is never behind the table, so seeding it from the table is no change |
| `Replication.StepKeepsInv` | Annen_heis/new_heis/internal/controller/controller.go:379-384 | each start, write, send, delivery and seeding keeps the invariant of the cluster |
| `Replication.RunInv` | Annen_heis/new_heis/internal/controller/controller.go:379-384 | after any sequence of starts, restarts, writes, sends and deliveries (late, repeated, reordered or never): every table is the merge of what its node absorbed, clocks are at least every absorbed counter, every write belongs to a present or past boot of its writer, cab cells only to their owner, and no version is used twice |
| `Convergence.FreshVersions` | Annen_heis/new_heis/internal/controller/controller.go:379-384 | no write of a run repeats the version of an earlier write |
| `Convergence.AgreeExactly` | Annen_heis/new_heis/README.md:42 | in every run, two nodes hold the same cell of a key exactly when both have absorbed the newest entry of what either has, whatever else one of them has absorbed |
| `Convergence.ConvergesExactly` | Annen_heis/new_heis/README.md:42 | their tables are equal exactly when that is so of every key, if each key has a newest entry |
| `Convergence.CabWriters` | Annen_heis/new_heis/internal/controller/controller.go:101 | in every run a cab cell carries only versions written by its owner |
| `Convergence.CabCellsAgreeExactly` | Annen_heis/new_heis/README.md:46 | a cab call always has a newest entry, restarts included, and two nodes agree on it exactly when both have absorbed that |
| `Convergence.MonotoneExactly` | Annen_heis/new_heis/README.md:59 | in every run, later boots used no smaller counters than earlier ones exactly when every write was made by a node whose clock had caught up with its earlier boots |
| `Convergence.SyncCatchesUpExactly` | Annen_heis/new_heis/cmd/elevator/main.go:98-113 | a restarted node is caught up exactly when it has absorbed, for each write of its earlier boots, a version at most one counter behind it |
| `SyncWindow.SyncedIsCaughtUp` | Annen_heis/new_heis/cmd/elevator/main.go:98-113 | a restarted node is caught up if since its start it has received, for every write of its earlier boots, a snapshot of some node that had absorbed that write, as long as all wrote in order so far |
| `SyncWindow.SyncedWritesInOrder` | Annen_heis/new_heis/README.md:59 | if every node has synced in that sense whenever it writes, then throughout the run no later boot uses a smaller counter, no key has a sandwich, and any part of the writes builds the same table in any order |
| `Convergence.CaughtUpConverges` | Annen_heis/new_heis/README.md:42 | if nodes are caught up whenever they write, every key has a newest entry, so that two nodes hold equal tables exactly when both have absorbed it for each key |
| `Gossip.Settles` | Annen_heis/new_heis/README.md:42 | tables that change only by received snapshots, of tables held since or late ones, agree about a key once everybody has received one of everybody else, if the newest entry of what was held at the start and what arrived late was held by somebody |
| `Settling.GossipSettles` | Annen_heis/new_heis/README.md:42 | in every run: when nothing is written any more, all nodes agree about a call once each has received a snapshot that every other has sent since, whatever older packets arrive besides, if the newest entry for it, of all that was held at the last write or arrived late, was held by some node |
| `Settling.CabCallsSettle` | Annen_heis/new_heis/README.md:46 | about a cab call they agree if no late snapshot brings a newer version of it than all that were held, and so on no condition if none is late |
| `Settling.NewestIsNotLate` | Annen_heis/new_heis/README.md:42 | that the newest entry is held follows if the versions around have no sandwich and no late packet beats all that is held |
| `Unsettled.SettlesExactly` | Annen_heis/new_heis/README.md:42 | for any tables of two nodes or more and any packets still under way: however gossip goes on, all agree about a key once each has heard of each, exactly if the newest of all entries around is held by somebody or there are none |
| `SettlingExactly.SettlesExactlyWhere` | Annen_heis/new_heis/README.md:42 | for every cluster a run can reach, with two nodes or more: however the run goes on without starts and writes, all nodes agree about a call once each has received a snapshot that every other has sent since, exactly if, of all entries for it that are held or were ever sent, the newest is held, or there are none |
| `Convergence.NeverGoesBack` | Annen_heis/new_heis/internal/cluster/merge.go:9-12 | within one boot the version a node holds for a key never goes back, if the writes to the key have no sandwich |
| `Convergence.ReplayCannotUndo` | Annen_heis/new_heis/internal/cluster/merge.go:9-12 | receiving anything absorbed before again, in any order, cannot undo a write just made |
| `Convergence.ReplayHasNoEffect` | Annen_heis/new_heis/internal/cluster/merge.go:5-15 | and has no effect at all on table or clock where each absorbed key has a newest entry |
| `DivergentRun.Diverges` | Annen_heis/new_heis/README.md:42 | a run of twenty events after which two nodes have absorbed the same entries and disagree about a call |
| `DivergentRun.SandwichDiverges` | Annen_heis/new_heis/README.md:42 | from any cluster a run can reach, once snapshots carrying the three entries of a sandwich have been sent, two new nodes can absorb exactly the same entries and end with different cells |
| `Peers.ObserveExact` | Annen_heis/new_heis/internal/cluster/tracker.go:25-33 | the flag is raised exactly when the states shown change, and a tracked peer never falls back to an earlier boot |
| `PeerTimes.HeartbeatRefreshes` | Annen_heis/new_heis/internal/cluster/tracker.go:25-44 | a snapshot that is not from an earlier boot refreshes its peer, changed or not, so that it survives an expiry exactly up to the timeout after it; one that is changes nothing |
| `PeerTimes.StepPeers` | Annen_heis/new_heis/internal/controller/controller.go:82-162 | only snapshots of others and ticks change the peers, the one by observing and the other by expiring |
| `PeerTimes.TrackedExactly` | Annen_heis/new_heis/README.md:53-57 | in every run in order of time, a tick leaves a peer tracked exactly if the last snapshot of it that was not from an earlier boot is no older than the timeout, and with the state of that snapshot |
| `Peers.PeerTracker.Observe` | Annen_heis/new_heis/internal/cluster/tracker.go:25-33 | a state from an earlier boot is dropped, any other is stored with its time; the flag says whether it was news |
| `Peers.PeerTracker.Expire` | Annen_heis/new_heis/internal/cluster/tracker.go:35-44 | exactly the peers not heard of within the timeout go, and the flag says whether any did |
| `Peers.PeerTracker.LiveStates` | Annen_heis/new_heis/internal/cluster/tracker.go:50-60 | exactly the own state and those of the peers, ordered by id |
| `Assigner.Assign` | Annen_heis/new_heis/internal/assigner/assigner.go:10-34 | each active hall call, and nothing else, goes to the elevator first by cost and then by id, whatever the order of the states |
| `Assigner.BestId` | Annen_heis/new_heis/internal/assigner/assigner.go:25-30 | the pass over the states finds that elevator |
| `Assigner.StuckGetsNothing` | Annen_heis/new_heis/internal/assigner/assigner.go:36-57 | a stuck elevator gets no call while another that is not stuck is within 2498 floors of it |
| `AssignmentRule.TakesExactly` | Annen_heis/new_heis/internal/assigner/assigner.go:36-57 | of any live cars, the call goes to the one that comes first by distance and manner together, and by id between equals, manners counted in quarters of a floor: the door open there before all, then idle or coming in the call's direction 0, coming against it 1, door open elsewhere 2, leaving 3, leaving and against it 4, stuck 10000 |
| `AssignmentRule.OwnExactly` | Annen_heis/new_heis/internal/assigner/assigner.go:10-34 | a controller takes an active hall call for its own exactly if its car comes before those of all peers it tracks |
| `AssignmentRule.AtEqualDistance` | Annen_heis/new_heis/internal/assigner/assigner.go:36-57 | at equal distance the manner decides, in that order, and the id between equal manners |
| `AssignmentRule.NearerTakes` | Annen_heis/new_heis/internal/assigner/assigner.go:36-57 | a car in order that is nearer by a floor takes the call whatever the two do, but when it leaves with the call against it, the other is ready exactly one floor further, and has the lower id |
| `AssignmentRule.OutOfOrderTakes` | Annen_heis/new_heis/internal/assigner/assigner.go:36-57 | how much farther a car in order must be for a stuck one to take the call |
| `Controllers.Controller.constructor` | Annen_heis/new_heis/internal/controller/controller.go:37-68 | defaults filled in, nothing requested, every button lamp in agreement; with the motor at rest the invariant holds |
| `Controllers.Controller.EnableButtons` | Annen_heis/new_heis/internal/controller/controller.go:70-72 | the buttons count from now on, and nothing else changes |
| `Controllers.Controller.SeedClockFromObserved` | Annen_heis/new_heis/internal/controller/controller.go:74-76 | the clock is not lowered, and untouched where it is not behind the table |
| `Controllers.Controller.GetSnapshot` | Annen_heis/new_heis/internal/controller/controller.go:78-80 | the car's state and the whole table in key order |
| `Controllers.Controller.ApplyRemote` | Annen_heis/new_heis/internal/controller/controller.go:82-92 | the state after a received snapshot; invariant and lamps kept |
| `Controllers.Controller.HandleButton` | Annen_heis/new_heis/internal/controller/controller.go:94-109 | the state after a button press; a hall-up press that counts leaves the up call of that floor active, or the door open there for it, hall-down the down call, cab the own cab call, and the lamps of the floor agree; invariant and lamps kept |
| `ButtonRules.HallUpPressed` | Annen_heis/new_heis/internal/controller/controller.go:94-109 | a hall-up press counts on a ready controller with a peer at every floor but the top: the up call of that floor and no other becomes active, or the car opens its door for it at once |
| `ButtonRules.HallDownPressed` | Annen_heis/new_heis/internal/controller/controller.go:94-109 | a hall-down press at every floor but the bottom, for the down call |
| `ButtonRules.CabPressed` | Annen_heis/new_heis/internal/controller/controller.go:94-109 | a cab press at every floor, with peers or without, for the own cab call |
| `ButtonRules.PressIgnored` | Annen_heis/new_heis/internal/controller/controller.go:95-107 | all other presses change nothing |
| `Controllers.Controller.LampsSay` | Annen_heis/new_heis/internal/controller/controller.go:386-398 | the lamp of every button there is is lit exactly while its own call is active: hall-up for the up call, hall-down for the down call, cab for the node's own |
| `Controllers.Controller.HandleFloor` | Annen_heis/new_heis/internal/controller/controller.go:111-129 | the state after a floor sensor; invariant and lamps kept |
| `Controllers.Controller.HandleObstruction` | Annen_heis/new_heis/internal/controller/controller.go:131-137 | the state after the obstruction switch; invariant and lamps kept |
| `Controllers.Controller.HandleTick` | Annen_heis/new_heis/internal/controller/controller.go:139-162 | the state after a tick; invariant and lamps kept |
| `Controllers.Controller.DoorStep` | Annen_heis/new_heis/internal/controller/controller.go:164-184 | whether it acts, what it then does, and that otherwise nothing changes |
| `Controllers.Controller.Plan` | Annen_heis/new_heis/internal/controller/controller.go:186-213 | the state after planning, with every lamp in agreement |
| `Controllers.Controller.Open` | Annen_heis/new_heis/internal/controller/controller.go:215-226 | the state after an opening: the call to announce is picked on the assignment of the already open car |
| `Controllers.Controller.DecideDoor` | Annen_heis/new_heis/internal/controller/controller.go:228-241 | the call a closing door still has to announce |
| `Controllers.Controller.DecideDoorDir` | Annen_heis/new_heis/internal/controller/controller.go:243-281 | the direction an opening announces |
| `Controllers.Controller.DecideStop` | Annen_heis/new_heis/internal/controller/controller.go:283-295 | whether to stop |
| `Controllers.Controller.DecideDirection` | Annen_heis/new_heis/internal/controller/controller.go:297-336 | where to go: the loop finds what the recursive search does |
| `Controllers.Controller.AnyFrom` | Annen_heis/new_heis/internal/controller/controller.go:350-357 | the walk finds a floor to serve exactly when there is one beyond, and ends at once outside the shaft |
| `Controllers.Controller.GetAssignments` | Annen_heis/new_heis/internal/controller/controller.go:368-370 | the assignment of the active hall calls among the own car and the tracked peers |
| `Controllers.Controller.ClearFloor` | Annen_heis/new_heis/internal/controller/controller.go:372-377 | the own cab call and the announced hall call of the floor, each written only if active |
| `Controllers.Controller.Set` | Annen_heis/new_heis/internal/controller/controller.go:379-384 | a cell is written, with the clock's next version, only when its state changes |
| `Controllers.Controller.Sync` | Annen_heis/new_heis/internal/controller/controller.go:386-398 | floor indicator, door lamp and every existing button lamp agree with the state |
| `Controllers.Controller.Drive` | Annen_heis/new_heis/cmd/elevator/main.go:79-95 | the event loop: after any sequence of events the object is where the model says, with the invariant and every lamp in agreement |
| `ControllerSafety.StepKeeps` | Annen_heis/new_heis/internal/controller/controller.go:82-226 | every event keeps: door, deadline and behaviour agree; the motor is as the car says, runs only while moving, and only the way the car travels; lamp and indicator agree; identity and boot stay |
| `ControllerSafety.RunInv` | Annen_heis/new_heis/internal/controller/controller.go:82-226 | so after every event of every event sequence from the start |
| `ControllerRules.DefaultsSaid` | Annen_heis/new_heis/internal/controller/controller.go:38-49 | what the configuration leaves at zero is four floors, three seconds for the door, one for a peer and five for a moving car |
| `ControllerRules.StartsIdle` | Annen_heis/new_heis/internal/controller/controller.go:51-67 | idle at the start floor, door closed, no direction, no calls, no peers, buttons not counting |
| `ControllerRules.ReadyExactly` | Annen_heis/new_heis/internal/controller/controller.go:70-72 | in every run the buttons count exactly from when they have been enabled |
| `ControllerRules.PicksExactly` | Annen_heis/new_heis/internal/controller/controller.go:243-281 | which call an opening announces: an own one only; that of its direction if there is one and the other only with nothing ahead; without a direction the only one, or of both that of the side with calls, the upper first |
| `ControllerRules.RunSilent` | Annen_heis/new_heis/internal/controller/controller.go:164-184 | in every run a direction is announced only while the door is open |
| `StuckRules.TickStuckExactly` | Annen_heis/new_heis/internal/controller/controller.go:139-152 | a tick takes a moving car to be stuck exactly if the watch has run for more than the timeout and no peer times out at this very tick; it stops the motor and changes nothing else |
| `StuckRules.WatchExactly` | Annen_heis/new_heis/internal/controller/controller.go:111-213 | the watch is set back exactly by a sensor of the shaft and by every event at which the car sets out, be it again the way it goes |
| `StuckRules.StuckStands` | Annen_heis/new_heis/internal/controller/controller.go:111-129 | a stuck car stands still and clears nothing until a sensor of the shaft reports; there it opens for a call of its own, or counts as moving again with its motor off |
| `StuckRules.MotorStartsByPlan` | Annen_heis/new_heis/internal/controller/controller.go:111-162 | and then its motor starts again only at a press that counts, at news, or when a peer times out |
| `ControllerStops.KeepsCallHere` | Annen_heis/new_heis/internal/assigner/assigner.go:36-57 | a hall call at the car's floor that was its own is still its own when the door has opened |
| `ControllerStops.GainsNoCallAhead` | Annen_heis/new_heis/internal/assigner/assigner.go:36-57 | a hall call ahead of a moving car does not become its own by the opening |
| `ControllerStops.NothingAheadStays` | Annen_heis/new_heis/internal/controller/controller.go:342-357 | nothing to serve ahead of a moving car stays nothing ahead when its door opens |
| `ControllerStops.StopClears` | Annen_heis/new_heis/internal/controller/controller.go:111-129 | every stop at a floor sensor opens the door and clears an active call |
| `ControllerStops.PlanOpeningClearsExactly` | Annen_heis/new_heis/internal/controller/controller.go:186-196 | an opening by `plan` clears something exactly when there is a cab call at the floor or the car does not face on past it |
| `ControllerStops.StarvedForever` | Annen_heis/new_heis/README.md:76 | a lone car that stands idle or with its door open, held up at a floor with calls, stays so for ever: through any sequence of ticks and obstructions it clears nothing and does not leave |
| `ControllerStops.StarvedExactly` | Annen_heis/new_heis/README.md:76 | a lone car, whatever its state, clears none of its calls under every sequence of ticks and obstructions exactly when it is under way, or has no call at its floor, or is held up there: none is a cab call, it faces on past the floor, and an open door turns for none of them |
| `StarvedRun.StarvedIsReachable` | Annen_heis/new_heis/README.md:76 | such a state is reached from the start in five events |
| `StarvedRun.FreedDoorStaysOpen` | Annen_heis/new_heis/README.md:66 | a run of six events at whose end a doorway freed past the deadline leaves the door open |
| `LoneCar.StarvedIsDoomed` | Annen_heis/new_heis/README.md:76 | a starved car satisfies the condition under which it cannot serve all |
| `LoneCar.CabCallsNeverDoom` | Annen_heis/new_heis/README.md:76-77 | a lone car with cab calls only does not |
| `LoneCar.HeadsFor` | Annen_heis/new_heis/internal/controller/controller.go:297-336 | a lone car heads for a call whenever there is one elsewhere, and on in its direction if there is one that way |
| `ControllerLiveness.Proceeding` | Annen_heis/new_heis/internal/controller/controller.go:111-213 | each sensor of the next floor, tick past the deadline or tick while idle brings a lone car nearer to rest, and does not change whether it will be held up |
| `ControllerLiveness.CanProceed` | Annen_heis/new_heis/internal/controller/controller.go:111-184 | until then there always is such an event, and a moving car has a next floor in the shaft |
| `ControllerLiveness.LastPeerGone` | Annen_heis/new_heis/README.md:74 | when its last peer times out, a car that is not stuck has its doorway free and moves only towards a call |
| `ControllerLiveness.StaysOnCourse` | Annen_heis/new_heis/internal/controller/controller.go:94-162 | and it stays so through ticks in time, the sensors of the floors it comes to, and any presses |
| `ControllerLiveness.ServesAllExactly` | Annen_heis/new_heis/README.md:76 | a lone car left alone comes to rest within (calls + 1)(floors + 2) such events: idle with all its calls served exactly if it is not doomed by how its calls lie, and otherwise starved; doomed is one that stands where a hall call against its direction is lit and it is called further on, or that meets, on its way to the last call ahead or on the way back, a floor with a call to stop for, the opposite hall call, and a call beyond |
| `ControllerDoors.StopAtTurn` | Annen_heis/new_heis/README.md:68 | where a car turns with both hall calls of the floor its own, the stop clears the call of its direction and leaves the other, with the door open for one interval |
| `ControllerDoors.ReversalServesBoth` | Annen_heis/new_heis/README.md:68 | from there, whatever happens as long as no snapshot clears the other call and no other floor's sensor reports, the door stays open with that call waiting; the first tick or freed doorway past the deadline extends it exactly when no live peer of lower id has its door open there and nothing lies ahead; extended, the other call is cleared and one full interval set |
| `ControllerDoors.QuietTurnServesBoth` | Annen_heis/new_heis/README.md:68 | if meanwhile all snapshots are without news, only a timed-out peer can change that nothing lies ahead |
| `ControllerDoors.ReversalExactly` | Annen_heis/new_heis/internal/controller/controller.go:164-184 | through any events at all an open door keeps its deadline and direction until the first at which it acts, and then is extended exactly if the other hall call of its floor is active, no live peer of lower id stands there with its door open, and nothing lies ahead of the car |
| `ControllerDoors.OwnHereExactly` | Annen_heis/new_heis/internal/assigner/assigner.go:36-57 | the active hall calls of its floor are an open car's own exactly if no live peer of lower id stands there with its door open |
| `ReversalRun.SecondCallGetsNoInterval` | Annen_heis/new_heis/README.md:68 | a run of three events with the program's durations in which the second call gets no interval and is never served, as the peer that was to serve the calls ahead times out |
| `ControllerDoors.ClosesAtOnceExactly` | Annen_heis/new_heis/README.md:66 | a doorway freed after the deadline lets the door close at once exactly when no opposite call is to be announced and the closed car has no call at the floor |
| `ControllerIntervals.IntervalEndsExactly` | Annen_heis/new_heis/README.md:64-66 | in every run the interval of an open door ends exactly at the first tick or freed doorway that finds the deadline passed and the doorway free |
| `ControllerIntervals.OpeningAnnounces` | Annen_heis/new_heis/internal/controller/controller.go:215-226 | whatever opens the door, or opens it again, clears the call it announces |
| `ControllerIntervals.SecondExtensionNeedsCall` | Annen_heis/new_heis/internal/controller/controller.go:164-184 | in every run, while the door stays open from a state in which the call it announces is cleared, it is extended a second time only if a hall call of the floor has become active since |
| `ControllerIntervals.OneExtensionPerOpening` | Annen_heis/new_heis/internal/controller/controller.go:164-184 | so between an opening and the next closing or opening: without new calls, there is one extension at most |
| `ControllerEffects.StepWrites` | Annen_heis/new_heis/internal/controller/controller.go:372-384 | beyond the merge, every event changes the table only by writes the replication protocol allows the node: its own cab calls and hall calls, each with the next version, three at most |
| `ControllerEffects.StepClearsProperly` | Annen_heis/new_heis/internal/controller/controller.go:215-226 | every call an event clears, it clears with the car at its floor, door open and motor stopped, and the call is its own cab call or a hall call assigned to it |
| `ControllerEffects.ExtensionClears` | Annen_heis/new_heis/internal/controller/controller.go:169-174 | every extension of an open door clears an active hall call of that floor |
| `ControllerEffects.OnlyPressesActivate` | Annen_heis/new_heis/README.md:72-78 | a call becomes active by its own valid button or by a snapshot and in no other way; a hall button counts only while there is a peer |
| `ControllerEffects.PressCounts` | Annen_heis/new_heis/internal/controller/controller.go:94-109 | a press that counts is not lost: its call is active afterwards, or cleared at once by the car opening for it at the floor |
| `ControllerEffects.DeadlineRule` | Annen_heis/new_heis/internal/controller/controller.go:164-184 | a deadline is always set one full interval ahead, and one that is set is dropped or replaced only by a tick or a freed doorway that finds it passed |
| `ControllerEffects.DoorHeld` | Annen_heis/new_heis/README.md:64-65 | in every run, a door that closes or is extended had been open ever since some event a full interval earlier, and its doorway is free |
| `ControllerRouting.SearchFinds` | Annen_heis/new_heis/internal/controller/controller.go:315-323 | from any floor, the search finds the nearest other floor to serve, the lower of two, among those at most one shaft and a floor away, or that there is none |
| `ControllerRouting.NextDirServes` | Annen_heis/new_heis/internal/controller/controller.go:297-336 | the car stays exactly when no other floor in that reach can be served, otherwise goes towards one, keeps its direction while there is one that way, and from rest makes for the nearest |
| `ControllerRouting.AllInReach` | Annen_heis/new_heis/internal/controller/controller.go:315-323 | from a floor in the shaft or next to it, every floor is in that reach |
| `ControllerRouting.OnlyLiveAssigned` | Annen_heis/new_heis/README.md:56-57 | exactly the active hall calls are assigned, and only to the own car or to a peer heard of within the timeout |
| `ControllerRouting.ExactlyOneTakes` | Annen_heis/new_heis/README.md:70 | when nodes hold the same table and know each other's state, every active hall call is taken by exactly one of them, the first by cost and id |
| `Fleet.FleetRefines` | Annen_heis/new_heis/cmd/elevator/main.go:48-96 | whatever a fleet of controllers does (start, restart, handle any events, send and receive snapshots, seed clocks), there is one run of the replication protocol that passes through the fleet's tables, clocks and packets in order, with at most four events, of stated kinds, for each thing that happens |
| `Fleet.TablesAreSound` | Annen_heis/new_heis/internal/controller/controller.go:379-384 | after any such run every cell of every table comes from a write, a cab cell from its owner's; no clock is behind its table; one version stands for one cell of one key in all of the fleet |
| `Fleet.ExchangeAgrees` | Annen_heis/new_heis/internal/cluster/merge.go:5-15 | any two controllers of a fleet hold equal tables after merging each other's snapshots, on no condition; what they then plan and write is not part of it |
| `FleetRuns.FleetNeverGoesBack` | Annen_heis/new_heis/internal/cluster/merge.go:9-12 | as long as a controller does not restart, the version it holds for a key never goes back, if the writes to the key have no sandwich |
| `FleetRuns.FleetReplayCannotUndo` | Annen_heis/new_heis/internal/controller/controller.go:379-384 | a cell a controller has just written stays as written, whatever of all it has received since it started it receives again, in any order |
| `FleetRuns.SnapshotRebuilds` | Annen_heis/new_heis/internal/model/types.go:140-142 | in a fleet, merging a controller's snapshot into an empty table rebuilds its table |
| `FleetSettling.FleetSettles` | Annen_heis/new_heis/README.md:42 | when no controller starts or writes any more, all agree about a call once each has received a snapshot that every other has sent since, if the newest entry for it, of all that was held at that moment or arrived late, was held by some controller |
| `FleetSettling.FleetCallsSettle` | Annen_heis/new_heis/README.md:42-46 | so about every cab call and every call without a sandwich, if no late snapshot brings a newer version of it than all that were held |
| `ScanElevator.RequestsAbove` | elevator/requests.go:6-15 | true exactly when a floor above has a request |
| `ScanElevator.RequestsBelow` | elevator/requests.go:18-27 | true exactly when a floor below has a request |
| `ScanElevator.ClearAtCurrentFloor` | elevator/requests.go:101-121 | what is left of the floor's row, every other row untouched |
| `ScanRules.ArrivalServes` | elevator/requests.go:82-121 | a moving car stops for a cab call, for a call of its direction, and with nothing ahead; it then clears the cab call and the call of its direction, and the one against it exactly if nothing is ahead and its direction's own call was not set; nothing else changes |
| `ScanRules.CallAgainstSurvives` | elevator/requests.go:101-121 | a call against the direction survives every stop on the way to a call ahead |
| `ScanRules.ChoosesInOrder` | elevator/requests.go:41-79 | with a direction: on while there are calls ahead, then the calls of the floor in the other direction, then back, then rest |
| `ScanRules.ChoosesFromRest` | elevator/requests.go:41-79 | without one: the calls of the floor, then those above, then those below |
| `ScanRules.TimeoutServes` | elevator/fsm.go:51-80 | what the timer does call by call, in the direction then chosen |
| `ScanRules.PressServes` | elevator/fsm.go:84-116 | what a press does call by call: it sets its own call, and a door that opens or stays open for it serves the floor |
| `ScanElevator.OnInitBetweenFloors` | elevator/fsm.go:23-27 | the car heads down as moving, and the motor runs that way |
| `ScanElevator.OnFloorArrival` | elevator/fsm.go:31-47 | the state after an arrival, whether the timer is restarted, and hardware in agreement |
| `ScanElevator.OnDoorTimeout` | elevator/fsm.go:51-80 | the state after the timer, whether it is restarted, and hardware in agreement |
| `ScanElevator.OnRequestButtonPress` | elevator/fsm.go:84-116 | the state after a press, whether the timer is started, and hardware in agreement |
| `ScanLiveness.EventRuns` | elevator/fsm.go:31-116 | every event keeps: idle only with no requests, moving only with a request strictly ahead, no call the direction serves left at an open door, and the door timer running exactly while the door is open |
| `ScanLiveness.RunStaysRunning` | main.go:200-239 | so in every run of arrivals, timer events, presses and obstructions with the timer started and stopped as the caller does: it can fire exactly while the door is open, and timer and buttons never meet a state they cannot handle |
| `ScanLiveness.NextFloorExists` | elevator/requests.go:41-79 | a moving car always has a floor ahead of it in the shaft |
| `ScanLiveness.StopServes` | elevator/fsm.go:36-43 | every stop of a car that knows its floor clears at least one call |
| `ScanLiveness.ReopenServes` | elevator/fsm.go:64-69 | every re-opening clears at least one call |
| `ScanLiveness.ServesEverything` | elevator/fsm.go:31-80 | left alone with a free doorway the car ends, after at most (calls + 1)(floors + 2) arrivals and firings of the running timer, idle with every call cleared, and stops nowhere before |
| `ScanLiveness.ClearedAtDoor` | elevator/requests.go:101-121 | a call is cleared only at the car's floor with the door open |
| `HallCost.Cost` | hallassigner/hallassigner.go:93-145 | for every shaft, car and call in it the loop ends with the closed form: door penalty, a turning step, and twice the distance round the shaft, or the cut-off value |
| `HallCost.Onward` | hallassigner/hallassigner.go:118-138 | a turn of the loop that is not the last brings the car one step along |
| `HallCost.CutOffOutOfReach` | hallassigner/hallassigner.go:140-142 | up to 24 floors the cut-off is never taken and the estimate is at most 4 n + 1 |
| `HallCost.EstimateSays` | hallassigner/hallassigner.go:93-145 | the estimate way by way: floors to go, to the end of the shaft and back, two units a step, a step for each turn, one for an open door, cut off beyond 100 |
| `SimElevator.ClearReqsAtFloor` | Annen_heis/new_heis/Project-resources-master 2/cost_fns/hall_request_assigner/elevator_algorithm.d:65-114 | which calls are reported cleared, and the row that is left |
| `SimElevator.NothingCleared` | Annen_heis/new_heis/Project-resources-master 2/cost_fns/hall_request_assigner/elevator_algorithm.d:27-114 | a stop that clears nothing is at a floor without calls or has calls ahead |
| `Simulation.MoveIsSound` | Annen_heis/new_heis/Project-resources-master 2/cost_fns/hall_request_assigner/optimal_hall_requests.d:184-234 | no move leaves the shaft |
| `Simulation.MoveTakesTime` | Annen_heis/new_heis/Project-resources-master 2/cost_fns/hall_request_assigner/optimal_hall_requests.d:184-234 | how long each kind of move takes, and that one without duration has nothing to do |
| `SimRules.MovingMoves` | Annen_heis/new_heis/Project-resources-master 2/cost_fns/hall_request_assigner/optimal_hall_requests.d:184-210 | where a moving elevator stops, which calls it takes there, and how long that or passing on takes, call by call |
| `SimRules.StandingMoves` | Annen_heis/new_heis/Project-resources-master 2/cost_fns/hall_request_assigner/optimal_hall_requests.d:184-230 | where one that stands heads for, and what it takes if it stays, decided on the direction it had |
| `SimRules.ShortcutExactly` | Annen_heis/new_heis/Project-resources-master 2/cost_fns/hall_request_assigner/optimal_hall_requests.d:236-253 | the simulation ends early exactly if no elevator has a cab call, no floor has both calls active, and an elevator is at every floor with a call that nobody has |
| `SimRules.OfferedToFirst` | Annen_heis/new_heis/Project-resources-master 2/cost_fns/hall_request_assigner/optimal_hall_requests.d:256-269 | a call that nobody has goes to the first elevator at its floor without cab calls |
| `Simulation.MoveKeeps` | Annen_heis/new_heis/Project-resources-master 2/cost_fns/hall_request_assigner/optimal_hall_requests.d:189-197 | a move keeps every call and every assignment already made |
| `Simulation.ImmediateKeeps` | Annen_heis/new_heis/Project-resources-master 2/cost_fns/hall_request_assigner/optimal_hall_requests.d:256-269 | so does the shortcut |
| `SimProgress.TakingHall` | Annen_heis/new_heis/Project-resources-master 2/cost_fns/hall_request_assigner/optimal_hall_requests.d:189-193 | a named elevator's move takes exactly the calls it clears off the unassigned ones, the elevator without a name none |
| `SimProgress.IdleMoveRanksLower` | Annen_heis/new_heis/Project-resources-master 2/cost_fns/hall_request_assigner/optimal_hall_requests.d:184-234 | a move that takes no call brings its elevator nearer to one |
| `SimProgress.NamedMoveLowers` | Annen_heis/new_heis/Project-resources-master 2/cost_fns/hall_request_assigner/optimal_hall_requests.d:184-234 | a named elevator's move lowers the outstanding calls, or keeps them and lowers the sum of ranks |
| `SimProgress.BlankMoveLowers` | Annen_heis/new_heis/Project-resources-master 2/cost_fns/hall_request_assigner/optimal_hall_requests.d:47-70 | the move of an elevator without a name lowers the lexicographic measure in the last place, its lag in simulated time |
| `SimProgress.MoveLowers` | Annen_heis/new_heis/Project-resources-master 2/cost_fns/hall_request_assigner/optimal_hall_requests.d:47-70 | every move of an elevator of least time, made while a call is unassigned, lowers the measure |
| `SimRuns.StartHolds` | Annen_heis/new_heis/Project-resources-master 2/cost_fns/hall_request_assigner/optimal_hall_requests.d:36-45 | the initial moves give the table of the buttons and, with a named elevator, the loop's invariant |
| `InitialCalls.StartCalls` | Annen_heis/new_heis/Project-resources-master 2/cost_fns/hall_request_assigner/optimal_hall_requests.d:160-173 | after the initial moves an active call at a floor where elevators stand belongs to the one with the greatest id there, whoever was before it, and every other call to nobody |
| `InitialCalls.StartTimes` | Annen_heis/new_heis/Project-resources-master 2/cost_fns/hall_request_assigner/optimal_hall_requests.d:148-182 | the elevators are in the order of their ids a microsecond apart; a moving one is then half a floor further, and one that stands later by the door interval for each active call of its floor, and half of it for an open door |
| `SimEnds.EndStep` | Annen_heis/new_heis/Project-resources-master 2/cost_fns/hall_request_assigner/optimal_hall_requests.d:47-70 | every move the loop makes keeps the invariant and all assignments and lowers the measure, for named elevators and for one without a name alone |
| `SimEnds.TurnGoesDown` | Annen_heis/new_heis/Project-resources-master 2/cost_fns/hall_request_assigner/optimal_hall_requests.d:47-70 | so does every turn, for any order among equal times |
| `LoneElevator.LoneMove` | Annen_heis/new_heis/Project-resources-master 2/cost_fns/hall_request_assigner/optimal_hall_requests.d:184-234 | a lone elevator without a name keeps, with each move the loop makes, whether it gets done, and if it does comes nearer |
| `LoneElevator.LoneTurn` | Annen_heis/new_heis/Project-resources-master 2/cost_fns/hall_request_assigner/optimal_hall_requests.d:47-70 | its turns are determined: it moves, and the table stays |
| `SimEnds.BlankNeverEnds` | Annen_heis/new_heis/Project-resources-master 2/cost_fns/hall_request_assigner/optimal_hall_requests.d:120-122 | with "" as the only id there is an input allowed by the contract on which the loop runs for ever |
| `SimEnds.EndsExactly` | Annen_heis/new_heis/Project-resources-master 2/cost_fns/hall_request_assigner/optimal_hall_requests.d:47-70 | for each input allowed by the contract, the loop ends, whatever the order among equal times, exactly when some id is not empty or the only elevator gets done without a name: no hall call, or one, which it is not bound to reach with cab calls left behind; only an elevator without a name among others needs positive durations |
| `SimEnds.IdsEndExactly` | Annen_heis/new_heis/Project-resources-master 2/cost_fns/hall_request_assigner/optimal_hall_requests.d:47-70 | for a set of ids it ends on all such inputs exactly when some id is not empty |
| `HallRequestAssigner.InitialStates` | Annen_heis/new_heis/Project-resources-master 2/cost_fns/hall_request_assigner/optimal_hall_requests.d:148-156 | one elevator per id, in the order of ids, a microsecond apart |
| `HallRequestAssigner.PerformInitialMove` | Annen_heis/new_heis/Project-resources-master 2/cost_fns/hall_request_assigner/optimal_hall_requests.d:160-182 | the elevator and the table after its initial move |
| `HallRequestAssigner.PerformSingleMove` | Annen_heis/new_heis/Project-resources-master 2/cost_fns/hall_request_assigner/optimal_hall_requests.d:184-234 | the elevator and the table after its move, the calls it takes decided on its direction before the move |
| `HallRequestAssigner.SortByTime` | Annen_heis/new_heis/Project-resources-master 2/cost_fns/hall_request_assigner/optimal_hall_requests.d:48 | some rearrangement in order of time |
| `HallRequestAssigner.OfferCall` | Annen_heis/new_heis/Project-resources-master 2/cost_fns/hall_request_assigner/optimal_hall_requests.d:259-266 | who ends up with an offered call, and whom it costs time |
| `HallRequestAssigner.OfferTakesTime` | Annen_heis/new_heis/Project-resources-master 2/cost_fns/hall_request_assigner/optimal_hall_requests.d:256-269 | only the elevator that takes the call is later, by the door interval |
| `HallRequestAssigner.AssignImmediate` | Annen_heis/new_heis/Project-resources-master 2/cost_fns/hall_request_assigner/optimal_hall_requests.d:256-269 | every elevator and the whole table after the shortcut |
| `HallRequestAssigner.Simulate` | Annen_heis/new_heis/Project-resources-master 2/cost_fns/hall_request_assigner/optimal_hall_requests.d:47-70 | the loop is a run of turns and ends, keeps every assignment it finds, and leaves every active call with one of the given elevators |
| `HallRequestAssigner.EnterCalls` | Annen_heis/new_heis/Project-resources-master 2/cost_fns/hall_request_assigner/optimal_hall_requests.d:73-94 | each elevator's matrix shows exactly its own calls |
| `HallRequestAssigner.OptimalHallRequests` | Annen_heis/new_heis/Project-resources-master 2/cost_fns/hall_request_assigner/optimal_hall_requests.d:16-104 | the result is what a run of the loop comes to, has the shape asked for, gives every active hall call to exactly one given elevator and no inactive call to any, and a call at a floor where elevators stand to the one with the greatest id there |
| `HallRequestAssigner.ResultIsPartition` | Annen_heis/new_heis/Project-resources-master 2/cost_fns/hall_request_assigner/optimal_hall_requests.d:73-94 | a table with every active call taken is shown as a partition |

## Left out

- UDP and TCP transport, JSON, goroutines, channels and timers: snapshots are values that may be delivered, and the time is an argument of every event.
- The mock driver, its console and the wiring in `cmd/elevator/main.go` and the root `main.go`, apart from the event loop.
- The physics of the controller's car: any floor event may follow any other, so nothing is claimed about where the car really is when a door opens.
- The C version of the single-elevator machine: it is the same algorithm as `elevator/*.go`.
- `Assign` of `hallassigner/hallassigner.go` and its map-order tie-breaking: an argmin over the estimate proved here.
- `config.d`: its values are parameters.
- Overflow of Go's `int` and `time.Duration` and of D's `int`: these are unbounded here. The `uint64` counters wrap.
- The library sorts: `Sorting.SortFunc` and `HallRequestAssigner.SortByTime` stand for them, and only order and elements of their results are used.
- The soft state in a received snapshot is not tied to the sender's in `Fleet`: a controller may be told anything about its peers, and the tables are sound all the same.
- Two processes running under one elevator id at the same time.
- The text of boot ids beyond its order: in runs a boot id is any text, and a restart's is greater than that of the node's last boot.
- Replication.RunInv: for runs of fewer than 2^64 events, in which counters cannot wrap; at the wrap a local write no longer beats what it replaces (`Replicas.LocalWriteBeatsExactly`).
- FleetSettling.FleetSettles: that a snapshot of every controller reaches every other in the end is the network's part; that the condition is needed is proved of the protocol, whose nodes write only when asked to.
- Convergence.SyncCatchesUpExactly: says what receiving has to achieve within the sync window, not that 350 ms are enough; `SyncWindow.SyncedIsCaughtUp` says which snapshots are.
- Controllers.Controller.constructor: the source does not command the motor at the start, so the invariant needs a motor that is at rest.
- ControllerEffects.DoorHeld: bounds the open interval from below; it ends at the first tick or freed doorway from then on (`ControllerIntervals.IntervalEndsExactly`), and how soon that comes is up to the ticker, so that the interval is not exactly three seconds.
- ControllerDoors.QuietTurnServesBoth: for events that bring no news; for all others `ControllerDoors.ReversalExactly` says what decides.
- ControllerLiveness.ServesAllExactly: for a car without peers, with a free doorway, sensors firing floor by floor and ticks that do not find it stuck; that several cars together serve every call is not claimed, as each may end as this one does.
- ScanLiveness.ServesEverything: the shaft is that of one car with sensors firing floor by floor; the root `main.go`, which sets requests from outside without starting an idle car, is not covered.
- ScanElevator.OnRequestButtonPress: for a car that is moving or knows its floor, as the source indexes its matrix with the floor.
- HallRequestAssigner.OptimalHallRequests: for the inputs on which the loop ends (`SimEnds.EndsExactly`); with the empty id among others it also needs positive durations, as without them that elevator's time may stand still.
- HallRequestAssigner.Simulate: likewise.
