# Game server: verified models

Dafny models of the parts of the game server whose correctness rests on global facts, and proofs of
those facts. `dafny verify dfyconfig.toml` checks everything.

**Behaviour trees** (`crates/bw-ai`). The runner is a resumable interpreter that keeps the memory of every node of
every entity in one map from entity and rendered path to node state. `BehaviorRunner` is that object, with the same
loops, early returns and in-place updates. `TreeSemantics` is an independent reference: one tick of a tree whose
subtrees are expanded, over a memory that has the shape of the tree. `NodePaths` proves that rendered paths of distinct
nodes never collide, so that every method of the runner does on the flat map exactly what the reference does, and
touches nothing else. An expansion may leave subtree references unexplored: a tick is specified by any expansion that it
does not leave, all of which say the same (`TreeExpansion`), and a whole one exists unless a cycle of references can be
reached (`TreeTermination`). The theorems about whole runs are then proved of the reference: duality (`TreeDuality`),
isolation of entities (`TreeIsolation`), what every node answers (`TreeOutcome`), calls and data (`TreeData`), clean
completion (`TreeCompletion`), exact timing (`TreeTiming`) and what decorators remember (`TreeHistory`). `Utility` is the scoring behind a utility node.

**Write-behind persistence** (`crates/bw-persistence`). `Persistence` gives rows, column lists and the meaning of each
command when it is run at once. `Coalescing` proves exactly when a coalescing batch leaves the tables that immediate
writing would have left. `PersistenceWorker` is the worker with its maps and its loop, `TrackedMap` the map that notices
changes by hash and one tick's persisting of it, and `Mirror` the end-to-end mirror of ships in the database, over any
interleaving of map operations, drains, commands and flushes.

**Playtests** (`crates/bw-playtest`, `crates/bw-runtime/src/state.rs`). `World` is the state that script mutations
change, `Fork` the fork of a live state and the simulation between the two, `Playtest` the promotion record, the
movement phase and the two-phase combat round. `Promotion` proves what all of these keep, `Combat` that combat ends,
`CombatOutcome` who survives a round, `Transit` that ships arrive. `PlaytestInstance` holds the two objects that
interpret mutations on their own maps, and the fork between them. `PlaytestManager` is membership and routing.

**Ships and exports.** `Ships`, `CargoHold` and `Movement` (`crates/bw-core/src/models/ship.rs`), and `Export`
(`crates/bw-export`).

Scripts are an oracle that answers from the whole history of calls. Percentages, positions and times are reals, counters
and ids unbounded integers. A hash map is iterated in any order, and every theorem holds for every order. The methods of
an object run alone, each to its end; `Mirror` is where operations on a concurrent map are cut into steps.

## Where the code differs from what is said about it

The model follows the code.

- `Repeat(n)` looks at its count only after a first success, so `Repeat(0)` runs its child to one success
  and is the same as `Repeat(1)` (`TreeTiming.RepeatZeroIsOne`). Exactly when a repeat succeeds, wherever it is and
  whatever its child is, is `TreeHistory.RepeatSucceeds`.
- `Cooldown` is documented as seconds since the last execution and counts from the last success. A child that fails runs
  again at once (`TreeHistory.ExecutionsCloserThanCooldown`); exactly when the child runs is `TreeHistory.CooldownRuns`.
- A `Timeout` that has expired keeps its start time, so it fails on every later visit until the entity's state is cleared
  (`TreeHistory.TimeoutSticks`). It works again after completing if and only if it had not expired
  (`TreeHistory.TimeoutRecovers`). Exactly when it runs its child is `TreeHistory.TimeoutRuns`.
- `Timeout`, `AlwaysSucceed` and `AlwaysFail` complete over a child that is still waiting (`TreeCompletion.MasksLeaveWaits`).
  Over a child that counts nothing they leave nothing behind (`TreeCompletion.CleanCompletion`).
- New entries of the tracked map are said to be always dirty. An insertion marks its key before it stores the value, and a
  drain collects before it clears, so an insertion or a change at the wrong moment is forgotten (`Mirror.InsertIsLost`,
  `Mirror.ChangeIsLost`). `Mirror.StepMirrors` gives the steps that lose a ship, exactly.
- A merged batch may leave other rows than immediate writing, for example when one batch renames a player whose row
  exists and also carries a password hash (`Coalescing.RenameIsLost`). `Coalescing.RunsMerge` gives the exact condition.
- The playtest simulation passes the distance per tick to the movement system as a speed, so the tick's duration is
  applied twice (`Movement.TimeAppliedTwice`).
- A created ship that is destroyed in combat stays recorded as created (`CombatOutcome.LifeKeepsCreated`,
  with the exact condition).
- An attacker that was destroyed earlier in a combat round still fires (`CombatOutcome.RoundOutcome`).
- `register` puts the owner into the index without looking at it, so an owner can be in two playtests
  (`PlaytestManager.OwnerInTwo`), and an owner who is no participant is still in the index after `destroy`
  (`PlaytestManager.LeftBehindUntilLeaving`).
- Loading a quantity of zero twice divides by zero (`CargoHold.LoadingNothing`). Parsed changes drop a quantity of zero,
  but the scripting function `add_cargo` passes it on, so two calls make the interpreter of mutations panic
  (`Fork.LoadingNothingTwice`; the exact conditions are `World.PanicsExactly` and `Fork.ExecutionKeepsDecent`).

## Model

| member | source | states |
|---|---|---|
| `BehaviorRunner.BehaviorTreeRunner.Run` | crates/bw-ai/src/runner.rs:141-163 | one call of the runner does to the one shared map what one tick of the expanded tree does to its own memory, makes the same calls in the same order, returns the data collected in this call only, and touches no key of another entity or outside the tree; asks only for an expansion that this tick does not leave |
| `BehaviorRunner.BehaviorTreeRunner.RunNode` | crates/bw-ai/src/runner.rs:165-191 | the same for a node at any path, with the frame: only keys of that node and below change; terminates on the node's expansion |
| `BehaviorRunner.BehaviorTreeRunner.RunSequence` | crates/bw-ai/src/runner.rs:193-224 | resumes at the remembered child, stores the index of a Running child, forgets it on Success and Failure |
| `BehaviorRunner.BehaviorTreeRunner.RunSelector` | crates/bw-ai/src/runner.rs:226-257 | the same with Success and Failure exchanged |
| `BehaviorRunner.BehaviorTreeRunner.RunForceSequence` | crates/bw-ai/src/runner.rs:259-283 | runs every child on every tick; Running wins over Failure, Failure over Success; keeps no index |
| `BehaviorRunner.BehaviorTreeRunner.RunAction` | crates/bw-ai/src/runner.rs:285-335 | asks the script once, merges returned data key by key with later data winning, fails without a script |
| `BehaviorRunner.BehaviorTreeRunner.RunCondition` | crates/bw-ai/src/runner.rs:337-366 | asks the script once, never touches data |
| `BehaviorRunner.BehaviorTreeRunner.RunUtility` | crates/bw-ai/src/runner.rs:368-422 | calls every consideration of every option in order, runs the action of the chosen option, fails when there is none |
| `Utility.BestIsHighest` | crates/bw-ai/src/utility.rs:94-117 | the chosen option has the highest score, above zero, and of equals the last one; there is none if and only if no score is above zero |
| `Utility.ConsiderationsVeto` | crates/bw-ai/src/utility.rs:52-70 | a score is above zero if and only if the weight and every consideration are, so one that scores nothing rules its option out; it never exceeds the weight |
| `BehaviorRunner.BehaviorTreeRunner.RunDecorator` | crates/bw-ai/src/runner.rs:424-559 | all eight decorators against the reference, with their frame |
| `BehaviorRunner.BehaviorTreeRunner.RunRepeat` | crates/bw-ai/src/runner.rs:456-481 | answers Success and forgets its count once the count is reached, otherwise counts a success of the child and reports Running |
| `BehaviorRunner.BehaviorTreeRunner.RunCooldown` | crates/bw-ai/src/runner.rs:490-507 | blocked while less than its seconds have passed since its last success |
| `BehaviorRunner.BehaviorTreeRunner.RunRunOnce` | crates/bw-ai/src/runner.rs:509-527 | stores the first result that is not Running and answers it from then on |
| `BehaviorRunner.BehaviorTreeRunner.RunTimeout` | crates/bw-ai/src/runner.rs:529-556 | keeps its start time under a second key beside its own, and clears it unless it has expired |
| `BehaviorRunner.BehaviorTreeRunner.RunWait` | crates/bw-ai/src/runner.rs:561-577 | counts ticks and forgets the count when it succeeds |
| `BehaviorRunner.BehaviorTreeRunner.RunSubtree` | crates/bw-ai/src/runner.rs:579-600 | runs the registered tree under its own path, fails for an unknown name, also where references form a cycle that this tick does not follow for ever |
| `BehaviorRunner.BehaviorTreeRunner.ClearEntityState` | crates/bw-ai/src/runner.rs:136-138 | afterwards every tree of that entity has fresh memory and every other entity's memory is as before |
| `BehaviorRunner.BehaviorTreeRunner.RegisterSubtree` | crates/bw-ai/src/runner.rs:131-133 | adds or replaces one registered tree |
| `NodePaths.KeysDistinct` | crates/bw-ai/src/runner.rs:202-207 | the rendered keys of distinct nodes of a tree are distinct strings, start keys of timeouts included, whatever the subtrees are called |
| `NodePaths.RunsToDetermined` | crates/bw-ai/src/runner.rs:141-163 | the contract of the runner leaves exactly one outcome: status, whole map, calls and data |
| `TreeDuality.DeMorganRun` | crates/bw-ai/src/runner.rs:193-257 | over any run of ticks, an inverted sequence and the selector over inverted children (and the other way round) return the same statuses and make the same calls in the same order |
| `TreeDuality.DeMorganTick` | crates/bw-ai/src/runner.rs:438-444 | one tick from related memories gives the same status and effects and related memories again |
| `TreeDuality.DeMorganFromFresh` | crates/bw-ai/src/runner.rs:193-257 | in particular from the fresh memory that every entity begins with |
| `TreeDuality.DeMorganOnTheMap` | crates/bw-ai/src/runner.rs:193-257 | the same on flat maps, with the two trees at different paths of different runners |
| `TreeIsolation.Isolated` | crates/bw-ai/src/runner.rs:141-163 | in any interleaving of the runs of many entities on one map, each entity sees the statuses, calls and memory of running alone |
| `TreeIsolation.RunsCommute` | crates/bw-ai/src/runner.rs:165-191 | two runs for different entities commute: same statuses, calls, data and final map |
| `TreeTermination.TerminatesIffAcyclic` | crates/bw-ai/src/runner.rs:579-600 | every node has a whole expansion, on which every tick terminates, if and only if references between registered subtrees have no cycle |
| `TreeTermination.ExpandsIffNoCycle` | crates/bw-ai/src/runner.rs:579-600 | one node has a whole expansion if and only if no cycle of references can be reached from it |
| `TreeSemantics.WholeWithin` | crates/bw-ai/src/runner.rs:165-191 | no tick leaves a whole expansion, so the runner then asks for nothing more |
| `TreeExpansion.ExpansionIrrelevant` | crates/bw-ai/src/runner.rs:579-600 | any two expansions of a node, whole or partial, that a tick does not leave specify the same status, calls, data and map |
| `TreeExpansion.GuardedCycle` | crates/bw-ai/src/runner.rs:579-600 | a subtree that refers to itself behind a child that succeeds has no whole expansion and still runs within one level |
| `TreeExpansion.ExpansionWellFormed` | crates/bw-ai/src/runner.rs:165-191 | every expansion has the form that the theorems about runs ask for |
| `TreeTermination.ExpansionUnique` | crates/bw-ai/src/runner.rs:579-600 | a node has at most one whole expansion |
| `TreeOutcome.ForceAnswers` | crates/bw-ai/src/runner.rs:259-283 | a force sequence anywhere in a tree visits every child; it is Running if and only if some child is, otherwise succeeds if and only if all do and fails if and only if some child does |
| `TreeOutcome.CompositeAnswers` | crates/bw-ai/src/runner.rs:193-257 | a sequence (selector) anywhere in a tree visits children from the remembered one on, each as long as all before succeed (fail); it succeeds (fails) if and only if all of those do, otherwise returns what the last visited one does, and remembers it exactly while it is Running |
| `TreeOutcome.WrapperAnswers` | crates/bw-ai/src/runner.rs:424-600 | what each decorator and a subtree reference anywhere in a tree returns, by what its child returns in the same tick or by not running it |
| `TreeData.LeavesAnswer` | crates/bw-ai/src/runner.rs:285-366 | an action asks its script once and returns the reply; a condition succeeds if and only if its script says so; without a script both fail and nothing is called |
| `TreeData.UtilityAnswers` | crates/bw-ai/src/runner.rs:368-422 | a utility node calls the considerations of all options in order, scores each option by the replies to its own, and calls the action of the last option with the highest score, or fails when no score is above zero |
| `TreeData.TickData` | crates/bw-ai/src/runner.rs:141-163 | the data handed out after a run is, key by key, what the last reply with that key to an action called in this run says, and there is some if and only if some reply has some; all calls are about this tick |
| `TreeCompletion.CleanCompletion` | crates/bw-ai/src/runner.rs:193-283 | in every state that ticks with non-decreasing time reach from fresh memory, every node that a tick completes leaves nothing at or below it but cooldown times, run-once results and start times of expired timeouts, in any tree whose Timeout, AlwaysSucceed and AlwaysFail nodes have children that count nothing (no sequence, selector, wait, repeat or timeout in them) |
| `TreeCompletion.TickKeepsSound` | crates/bw-ai/src/runner.rs:424-577 | the invariant behind it: a tick of any tree from sound memory ends sound, and clean when it completes |
| `TreeCompletion.CleanOnTheMap` | crates/bw-ai/src/runner.rs:193-283 | on the flat map, clean means that under the key of every node there is no entry, or only that of a cooldown or run-once, and no start time but that of a timeout |
| `TreeCompletion.CleanForgetfulIsFresh` | crates/bw-ai/src/runner.rs:561-577 | without cooldowns, run-onces and timeouts, clean memory is exactly fresh memory, so the next run starts over |
| `TreeCompletion.MasksLeaveWaits` | crates/bw-ai/src/runner.rs:446-454 | each of the three decorators that may complete over a Running child does so over a waiting one, and leaves its count |
| `TreeTiming.SequenceOfWaits` | crates/bw-ai/src/runner.rs:561-577 | from fresh memory a sequence of waits is Running on every tick before 1 plus the sum of max(w,1) - 1 and succeeds on that tick |
| `TreeTiming.RepeatOfWait` | crates/bw-ai/src/runner.rs:456-481 | a repeated wait is Running until tick max(n,1) * max(w,1) + 1 and succeeds there, having counted max(n,1) successes |
| `TreeTiming.RepeatZeroIsOne` | crates/bw-ai/src/runner.rs:456-481 | over any run from fresh memory and for any child, `Repeat(0)` and `Repeat(1)` have the same statuses, calls and memory |
| `TreeHistory.MemoryChangesByVisit` | crates/bw-ai/src/runner.rs:165-191 | the memory of any node of a tree changes only in ticks that reach the node, and then as one tick of it |
| `TreeHistory.CooldownGap` | crates/bw-ai/src/runner.rs:490-507 | over any run with non-decreasing time, two successes of one cooldown anywhere in a tree are at least its seconds apart |
| `TreeHistory.CooldownRuns` | crates/bw-ai/src/runner.rs:490-507 | a cooldown anywhere in a tree runs its child on a visit if and only if no success of it is less than its seconds back |
| `TreeHistory.CooldownBlocks` | crates/bw-ai/src/runner.rs:490-507 | after running its child it is blocked at a later time if and only if the child succeeded and its seconds have not passed |
| `TreeHistory.ExecutionsCloserThanCooldown` | crates/bw-ai/src/behavior_tree.rs:171-173 | a child that fails runs on both of two ticks less than the cooldown's seconds apart |
| `TreeHistory.RunOnceRepeats` | crates/bw-ai/src/runner.rs:509-527 | after its first result that is not Running, a run-once anywhere in a tree never runs its child again and repeats the result |
| `TreeHistory.TimeoutSticks` | crates/bw-ai/src/runner.rs:529-556 | an expired timeout fails on every later visit and never runs its child again |
| `TreeHistory.TimeoutRecovers` | crates/bw-ai/src/runner.rs:529-556 | on the visit after a completed one, a timeout runs its child if and only if it ran it on the completed one, that is, unless it had expired |
| `TreeHistory.TimeoutClears` | crates/bw-ai/src/runner.rs:529-556 | a timeout that completes has cleared its start time if and only if it had not expired |
| `TreeHistory.TimeoutRuns` | crates/bw-ai/src/runner.rs:529-556 | a timeout anywhere in a tree runs its child on a visit if and only if no more than its seconds have passed since any earlier tick from which on the child has been running without ending |
| `TreeHistory.RepeatSucceeds` | crates/bw-ai/src/runner.rs:456-481 | over any run, a repeat anywhere in a tree succeeds on a visit if and only if its child has succeeded as often as asked for since the repeat last completed (once for `Repeat(0)`, never without a number), without running the child again, and fails if and only if its child does on that visit |
| `Coalescing.EntityMerges` | crates/bw-persistence/src/worker.rs:202-226 | for one row, the one merged write does what the commands would have done one after the other, if and only if they are mergeable, a condition on names, hashes and insert-only columns |
| `Coalescing.AgreeingMerge` | crates/bw-persistence/src/worker.rs:299-402 | agreement of all commands and the stored row on insert-only columns, and one hash, is enough |
| `Coalescing.RenameIsLost` | crates/bw-persistence/src/worker.rs:299-402 | a batch with a hash and then a rename is not mergeable on a stored player: it leaves the old name where immediate writing leaves the new one |
| `Coalescing.BatchMerges` | crates/bw-persistence/src/worker.rs:229-293 | a flush, in whatever order it drains, leaves the tables of immediate writing if and only if every entity of the batch is mergeable on the row it finds |
| `Coalescing.RunsMerge` | crates/bw-persistence/src/worker.rs:147-199 | for every command list and every placement of flushes, both agree at every flush point if and only if every batch is mergeable |
| `Coalescing.FinalTables` | crates/bw-persistence/src/worker.rs:147-293 | then the final tables are those of running every command at once |
| `Coalescing.ShipsMerge` | crates/bw-persistence/src/worker.rs:404-474 | ships merge unconditionally: the last upsert or delete is all that counts |
| `Coalescing.FoldPlayer` | crates/bw-persistence/src/worker.rs:299-402 | what any list of player commands leaves in a row, column by column: hash and creation date as inserted, the name of the last plain update, everything else of the last command |
| `PersistenceWorker.Worker.ApplyCommand` | crates/bw-persistence/src/worker.rs:202-226 | one command into the four maps, carrying a pending hash forward and letting a delete and an upsert of a ship replace each other |
| `PersistenceWorker.Worker.FlushBatch` | crates/bw-persistence/src/worker.rs:229-293 | writes every pending row once and empties the batch |
| `PersistenceWorker.Worker.Run` | crates/bw-persistence/src/worker.rs:147-199 | the loop loses no command: on return everything before the first Shutdown has been written, and if the batches were mergeable the tables are those of immediate writing |
| `TrackedMap.TrackedDashMap.Insert` | crates/bw-persistence/src/tracked.rs:65-70 | stores the value and marks its key dirty, whatever was there |
| `TrackedMap.TrackedDashMap.Remove` | crates/bw-persistence/src/tracked.rs:73-76 | removes the entry and its mark |
| `TrackedMap.TrackedDashMap.GetMutAndDrop` | crates/bw-persistence/src/tracked.rs:162-173 | the entry holds what was written last, and is marked if and only if its hash changed |
| `TrackedMap.TrackedDashMap.DrainDirty` | crates/bw-persistence/src/tracked.rs:101-105 | hands out every dirty key once and forgets them, run alone |
| `TrackedMap.PersistDirtyShips` | crates/bw-runtime/src/simulation/game_loop.rs:184-196 | if every player ship was in the database or on its way there unless it was dirty, then it is so without exception afterwards, whatever other commands and deadlines the worker handles between two sends and wherever its batch gets full |
| `TrackedMap.PersistAndFlush` | crates/bw-persistence/src/worker.rs:147-199 | from the same start, after one tick's persisting and the deadline the row of every player ship in the map is that ship |
| `PersistenceWorker.Worker.Handle` | crates/bw-persistence/src/worker.rs:147-199 | on each event what arrives waits or everything waiting is written out; a deadline and a flush order leave nothing waiting, and the batch stays below its limit |
| `Mirror.StepMirrors` | crates/bw-persistence/src/tracked.rs:44-105 | one step of an insertion, change, removal, drain, look-up or of the worker keeps every player ship in the database or on its way there, marked, collected or leaving if and only if it is none of the losing steps: storing or clearing a mark while nothing more is going to be sent, a change that keeps the hash, or a command that contradicts the ship |
| `Mirror.RunMirrors` | crates/bw-runtime/src/simulation/game_loop.rs:184-196 | over any interleaving of map operations, drains, commands and worker events the mirror is in step all along if and only if no step is a losing one |
| `Mirror.AtRest` | crates/bw-runtime/src/simulation/game_loop.rs:184-196 | in step, with nothing marked, collected, in the channel or in the batch, the row of every player ship is that ship |
| `Mirror.InsertIsLost` | crates/bw-persistence/src/tracked.rs:65-70 | a whole drain and look-up between the two halves of an insertion leave the ship in the map, unmarked and without a row |
| `Mirror.ChangeIsLost` | crates/bw-persistence/src/tracked.rs:101-105 | a noticed change between the two halves of a drain is not sent |
| `Mirror.DeletedStaysAway` | crates/bw-runtime/src/state.rs:605-622 | a ship that was removed and then deleted gets no row again, whatever was collected or waiting, unless it is inserted again or somebody else sends it |
| `Mirror.HandledKeepsRows` | crates/bw-persistence/src/worker.rs:229-293 | a flush at any moment leaves the row that every ship is going to have |
| `World.StepKeepsIndex` | crates/bw-playtest/src/state_provider.rs:190-265 | every mutation keeps an id in a sector's index exactly when the ship exists with that sector |
| `World.QueriesAreScans` | crates/bw-playtest/src/state_provider.rs:26-68 | the two ship queries return what filtering the whole ship map returns |
| `World.ChangeShip` | crates/bw-playtest/src/state_provider.rs:102-162 | no change a script can ask for moves a ship to another sector, owner or class |
| `World.ModifyReadsBack` | crates/bw-playtest/src/state_provider.rs:102-162 | a modified ship reads back every value asked for, clamped to 0..100 where it is a percentage, with status and stance; its hold reads back what was loaded and unloaded as far as it fits and is there; its slots what was installed and removed; and it keeps what was not asked for; when the load panics, the values are written and hold and slots are as before |
| `World.PlayerReadsBack` | crates/bw-playtest/src/state_provider.rs:164-189 | a modified player reads back credits and fame as set first and changed by their deltas then, never below zero where a delta applies; reputation moves by the delta times one plus a hundredth per point of fame, within 0.5 and 3, rounded to the nearest; nothing else changes and nobody is put into debt |
| `World.ReputationOrdered` | crates/bw-core/src/models/resources.rs:38-48 | without fame a change of reputation is what was asked for, and a larger delta never leaves less |
| `World.FameAmplifies` | crates/bw-core/src/models/resources.rs:38-48 | fame makes gains larger and losses worse |
| `World.FameWithin` | crates/bw-core/src/models/resources.rs:38-48 | a change of reputation is between half and three times what was asked for |
| `World.RefusedChangesNothing` | crates/bw-playtest/src/state_provider.rs:100-267 | a refused mutation leaves the world as it was, and exactly a spawn reports an id |
| `World.ModifyTouchesOne` | crates/bw-playtest/src/state_provider.rs:102-189 | modifying is refused if and only if the ship or player does not exist, and changes no other |
| `World.RemovalTakesOne` | crates/bw-playtest/src/state_provider.rs:233-252 | removing a mission or station is refused if and only if no sector has it, and otherwise takes it, and nothing else, out of one sector that has it |
| `World.RemovalOfPlaces` | crates/bw-playtest/src/state_provider.rs:217-265 | removing a sector leaves the ships that were in it in no sector and changes nothing else; removing a ship takes it out of map and index and changes nothing else |
| `World.SpawnAdds` | crates/bw-playtest/src/state_provider.rs:190-214 | a spawned ship is whole, at rest, nobody's and empty, where it was asked for; nothing else changes but the index of its sector |
| `World.PanicsExactly` | crates/bw-core/src/models/ship.rs:226-242 | a change panics if and only if it loads nothing of a type that is held in an empty item |
| `World.ModifyKeepsDecent` | crates/bw-scripting/src/bindings/state_api.rs:440-461 | a change of a ship without empty items does not panic, and leaves it so unless it loads nothing of a type that is not aboard and does not take it out again |
| `World.WithoutLocationDrops` | crates/bw-playtest/src/state_provider.rs:242-252 | filtering drops one location only and shortens the list exactly when it was there |
| `Fork.ForkSelects` | crates/bw-runtime/src/state.rs:746-831 | any fork has exactly the wanted sectors there are, with missions as asked for; exactly the ships of wanted sectors that the list selects or, without one, the owner's, those of nobody and those of others as asked for; and exactly the players that own one of these |
| `Fork.FullForkSimulates` | crates/bw-runtime/src/state.rs:746-839 | a full fork has the same ships, sectors and indices if and only if every ship is in an existing sector |
| `Fork.StepSimulates` | crates/bw-playtest/src/state_provider.rs:100-267 | one mutation keeps the relation and returns the same result if and only if a player it targets was forked or does not exist |
| `Fork.ForkSimulatesLive` | crates/bw-runtime/src/state.rs:495-659 | any list of mutations after a full fork gets equally far in both, gives the same ships, sectors and forked players at every step, and the same results if and only if every player targeted on the way was forked or does not exist |
| `Fork.ExecutionKeepsIndex` | crates/bw-runtime/src/state.rs:495-659 | the index stays exact over any list of mutations |
| `Fork.ExecutionKeepsDecent` | crates/bw-playtest/src/state_provider.rs:100-267 | over any list of mutations no hold has an empty item if and only if no mutation on the way loads nothing of a type that is not aboard (and takes it out again), and until then nothing panics |
| `Fork.ExecutionKeepsTidy` | crates/bw-playtest/src/state_provider.rs:100-267 | no list of mutations, whatever quantities it asks for, puts a player into debt, overloads a hold, leaves one type twice in it, or puts two upgrades into one slot |
| `Fork.LoadingNothingTwice` | crates/bw-scripting/src/bindings/state_api.rs:440-461 | two loads of nothing, of a type that is not aboard, leave an empty item and then panic, and the rest of the list is not applied |
| `PlaytestInstance.PlaytestInstance.ApplyMutation` | crates/bw-playtest/src/state_provider.rs:100-267 | the playtest's interpreter on its own maps does one specified step, bookkeeping included, for the iteration order it reports |
| `PlaytestInstance.PlaytestInstance.ApplyMutations` | crates/bw-playtest/src/state_provider.rs:90-95 | applies a list in order, with one result each, up to a panic |
| `PlaytestInstance.GameState.ApplyMutations` | crates/bw-runtime/src/state.rs:910-914 | the same on the live state |
| `PlaytestInstance.GameState.ApplyMutation` | crates/bw-runtime/src/state.rs:495-659 | the live interpreter does the same step, and sends a delete to the database exactly for a destroyed player ship |
| `PlaytestInstance.GameState.ForkToPlaytest` | crates/bw-runtime/src/state.rs:746-831 | fills an empty playtest with exactly the wanted sectors, included ships, their index, the players that own one of them and the squadrons of these players |
| `PlaytestInstance.PlaytestInstance.ProcessSectorTick` | crates/bw-playtest/src/simulation.rs:82-165 | one tick of a sector: movement of the ships in its index, combat on every tenth tick, and missions that run out |
| `PlaytestInstance.PlaytestInstance.ExpireMissions` | crates/bw-playtest/src/simulation.rs:144-165 | marks exactly the available missions that are overdue |
| `PlaytestInstance.PlaytestInstance.ProcessCombats` | crates/bw-playtest/src/simulation.rs:203-350 | the two loops of the write phase apply exactly what the read phase decided, in order |
| `PlaytestInstance.PlaytestInstance.Execute` | crates/bw-playtest/src/simulation.rs:292-349 | one action: shields before hull, removal with index and record, the attacker leaves combat |
| `PlaytestInstance.PlaytestInstance.AddParticipant` | crates/bw-playtest/src/instance.rs:206-233 | refuses a participant twice and the twenty-first |
| `PlaytestInstance.PlaytestInstance.RemoveParticipant` | crates/bw-playtest/src/instance.rs:236-238 | hands out and removes the participant |
| `PlaytestInstance.PlaytestInstance.Disconnect` | crates/bw-playtest/src/manager.rs:161-164 | drops the player's connection to every sector and nobody else's |
| `Promotion.LifeKeepsSound` | crates/bw-playtest/src/state_provider.rs:190-232 | after any fork and any mutations, movements and combat rounds: the index is exact, a forked ship is present unless recorded as deleted, every other ship is recorded as created, and the records are disjoint |
| `Promotion.ApplyKeepsSound` | crates/bw-playtest/src/state_provider.rs:190-232 | every mutation keeps index and record |
| `Promotion.CombatKeepsSound` | crates/bw-playtest/src/simulation.rs:326-334 | every combat round keeps index and record |
| `Promotion.TickExpires` | crates/bw-playtest/src/simulation.rs:82-165 | a whole tick changes no mission but the available ones of its own sector that are overdue, and these expire |
| `Combat.CombatEnds` | crates/bw-playtest/src/simulation.rs:203-350 | whatever scripts do and whatever the orders of sectors and ships: after as many combat rounds of a sector as its ships have lives at the start, max(1, ceil((hull + shield) / 5)) each, plus one for each that is fighting, plus the lives that mutations give to its ships or spawn there, none of its ships fights |
| `Combat.CombatEndsUndisturbed` | crates/bw-playtest/src/simulation.rs:203-350 | without mutations the lives and fighters at the start are the bound |
| `Combat.NoNewFight` | crates/bw-game/src/state/mutations.rs:236-263 | no mutation, movement or round starts a fight: whoever fights at some point of a life has done so at every earlier one |
| `Combat.PointsPayForRounds` | crates/bw-playtest/src/simulation.rs:216-349 | at every point of any life, points left plus rounds run never exceed the points at the start plus the lives that mutations have brought in, unless the sector is at peace |
| `Combat.RoundCosts` | crates/bw-playtest/src/simulation.rs:216-349 | in a round in which somebody fights, some ship of the sector leaves combat, loses a life or is gone, and no ship gains anything |
| `CombatOutcome.RoundOutcome` | crates/bw-playtest/src/simulation.rs:203-350 | a ship survives a round if and only if its hull holds against the sum of what all fighters locked on it fire, the ones destroyed before their turn included, and a survivor has exactly the hull and shields that one hit of that sum leaves |
| `CombatOutcome.StrikesOutcome` | crates/bw-playtest/src/simulation.rs:292-349 | the same for any list of actions, in any order |
| `CombatOutcome.RoundAnyOrder` | crates/bw-playtest/src/simulation.rs:203-350 | the same ships survive with the same hull and shields in whatever order the sector's index is iterated |
| `CombatOutcome.RoundStands` | crates/bw-playtest/src/simulation.rs:203-350 | of the survivors of a round exactly the fighters without a target in the sector, and those whose shot is the one that brings their target down, end idle and unlocked; all others keep status and lock, and nothing but these, hull and shields changes |
| `CombatOutcome.DuelIsFair` | crates/bw-playtest/src/simulation.rs:229-349 | in any sector, of two ships that are locked on each other and on which nobody else is, each survives if and only if it survives the other's hit, whichever comes first |
| `CombatOutcome.RoundKeepsCreated` | crates/bw-playtest/src/simulation.rs:326-334 | where all ships recorded as created exist, they do after a round if and only if each survives what is fired at it |
| `CombatOutcome.LifeKeepsCreated` | crates/bw-playtest/src/simulation.rs:326-334 | over any mutations and ticks, every id recorded as created is that of a present ship all along if and only if no combat round destroys a created ship |
| `Transit.TransitArrives` | crates/bw-playtest/src/simulation.rs:99-139 | whatever fuel is left, a ship in transit at distance D is at its destination after ceil(D / slow) ticks and still under way before ceil(D / full) |
| `Transit.TravelStep` | crates/bw-playtest/src/simulation.rs:99-139 | a tick brings a ship closer by exactly its step and that far from where it was, or to its destination and to rest, and burns fuel while there is some; nothing else about it changes |
| `Transit.TransitStraight` | crates/bw-playtest/src/simulation.rs:99-139 | as long as a ship is under way it is on the straight way, where what it has covered and what is to go add up |
| `Transit.TickMoves` | crates/bw-playtest/src/simulation.rs:82-142 | in a tick of a sector exactly the ships under way in it travel as above and burn fuel, whatever combat does; no other ship moves or burns any |
| `PlaytestManager.PlaytestManager.Register` | crates/bw-playtest/src/manager.rs:94-116 | refuses at the limit, otherwise adds the instance and indexes the owner |
| `PlaytestManager.PlaytestManager.JoinPlaytest` | crates/bw-playtest/src/manager.rs:119-148 | the four refusals in the order of the code, and otherwise participant, as asked for, and index entry together |
| `PlaytestManager.PlaytestManager.LeavePlaytest` | crates/bw-playtest/src/manager.rs:151-174 | removes index entry and participant, also when the playtest is gone, and the player's connections to the sectors of that playtest and no other |
| `PlaytestManager.PlaytestManager.Destroy` | crates/bw-playtest/src/manager.rs:177-222 | removes the instance and the index entries of its participants, stops its simulation task, and ends the debug sessions for it and no other |
| `PlaytestManager.PlaytestManager.RegisterSimulationTask` | crates/bw-playtest/src/manager.rs:52-54 | adds or replaces the task of one playtest |
| `PlaytestManager.PlaytestManager.DestinationIsRoute` | crates/bw-playtest/src/router.rs:49-55 | the destination of a player's messages is the instance of the specification's route |
| `PlaytestManager.RegisterKeepsIndexed` | crates/bw-playtest/src/manager.rs:94-116 | registering keeps every participant indexed to their playtest if and only if it is refused, or the owner is the only participant and takes part in no other playtest |
| `PlaytestManager.RoutesToOwnPlaytest` | crates/bw-playtest/src/router.rs:49-55 | over any run in which owners take part in what they register, a player is routed to a playtest exactly when taking part in it, and both limits hold |
| `PlaytestManager.NobodyEverInTwo` | crates/bw-playtest/src/manager.rs:94-222 | over any run whose registrations meet the exact condition, nobody is in two playtests and both limits hold |
| `PlaytestManager.DestroyedStaysAway` | crates/bw-playtest/src/manager.rs:177-222 | a destroyed playtest never gets a message again |
| `PlaytestManager.LeftBehindUntilLeaving` | crates/bw-playtest/src/manager.rs:119-222 | over any run, whoever a destroyed playtest left in the index without taking part is in no playtest and refused by every other, until leaving or registering one |
| `PlaytestManager.OwnerInTwo` | crates/bw-playtest/src/manager.rs:94-116 | an owner who registers twice takes part in both |
| `PlaytestManager.LeftStaysOut` | crates/bw-playtest/src/manager.rs:151-174 | over any run, who has left is in no playtest and gets no messages of any until joining or coming with a registered one, and can join exactly the playtests that have room |
| `PlaytestManager.JoinedStaysIn` | crates/bw-playtest/src/manager.rs:119-148 | over any run, who has joined takes part in that playtest and is routed to it, can join no other and can leave, until leaving, its end or registering one |
| `PlaytestManager.MovesNobodyElse` | crates/bw-playtest/src/manager.rs:94-222 | no operation changes index entry or playtests of a player it is not about |
| `CargoHold.AddKeepsSound` | crates/bw-core/src/models/ship.rs:216-242 | adding succeeds exactly when there is room, changes the amount of that type only, keeps types unique, quantities positive and the capacity |
| `CargoHold.RemoveKeepsSound` | crates/bw-core/src/models/ship.rs:245-256 | removing succeeds exactly when there is enough, and changes the amount of that type only |
| `CargoHold.AddBookValue` | crates/bw-core/src/models/ship.rs:226-242 | one add changes the book value by what was paid, up to less than the new quantity |
| `CargoHold.RunKeepsPriced` | crates/bw-core/src/models/ship.rs:211-256 | over any loads and unloads, loads of nothing included, types stay unique, the capacity is respected and every price lies between the lowest and highest paid since that type was last absent; no item is empty as long as every load is of something |
| `CargoHold.LoadingNothing` | crates/bw-core/src/models/ship.rs:226-242 | exactly when loading nothing breaks the hold |
| `CargoHold.Hold.Add` | crates/bw-core/src/models/ship.rs:226-242 | the in-place operation against its specification |
| `CargoHold.Hold.Remove` | crates/bw-core/src/models/ship.rs:245-256 | the in-place operation against its specification |
| `Movement.StepShortens` | crates/bw-core/src/models/ship.rs:606-616 | a step shorter than the distance is exactly as long as asked for and shortens the distance by exactly its length |
| `Movement.StepsAddUp` | crates/bw-core/src/models/ship.rs:606-616 | n steps that do not reach the target lead to the point of the straight way n steps from the start |
| `Movement.Converges` | crates/bw-core/src/models/ship.rs:598-616 | repeated steps of s from distance D land on the target at call ceil(D / s) and not earlier |
| `Movement.TimeAppliedTwice` | crates/bw-game/src/systems/movement.rs:24-35 | a ship that is not arriving covers its distance per tick if and only if the tick lasts one second, or the distance is zero anyway |
| `Export.RoundTrip` | crates/bw-export/src/reader.rs:32-135 | whatever is written, with refused writes ignored: finishing succeeds if and only if nothing took a reserved name, and then every item that was not refused reads back unchanged and other entity types read as empty |
| `Export.ManifestIsFold` | crates/bw-export/src/writer.rs:55-249 | manifest counts, flags and total size are the folds over the entries, and the script list is what was stored |
| `Export.FilesAreWritten` | crates/bw-export/src/writer.rs:55-249 | a draft has a file for exactly the paths written, each with one entry that describes it |
| `Export.FilesHold` | crates/bw-export/src/writer.rs:55-249 | a path holds what its first write put there |
| `Export.DamageIsFound` | crates/bw-export/src/reader.rs:97-119 | a stored file with other bytes is refused with both checksums if and only if its checksum differs, and every other item still reads back |
| `Export.OpensAs` | crates/bw-export/src/reader.rs:32-80 | a finished archive opens with the manifest and entries it was given if and only if its format is no newer than the reader's |
| `Export.ExportWriter.WriteEntities` | crates/bw-export/src/writer.rs:55-98 | skips an empty list, refuses a name that is taken, otherwise file, entry and counters together |
| `Export.ExportWriter.WriteTextFile` | crates/bw-export/src/writer.rs:126-152 | refuses a name that is taken, otherwise file, entry and the counters of its kind together |
| `Export.ExportWriter.WriteScript` | crates/bw-export/src/writer.rs:100-110 | the same for a script, under scripts/ |
| `Export.ExportWriter.WriteDefinition` | crates/bw-export/src/writer.rs:113-123 | the same for a definition, under definitions/ |
| `Export.ExportWriter.WriteConfig` | crates/bw-export/src/writer.rs:154-178 | the same for the configuration |
| `Export.ExportWriter.WriteSqlite` | crates/bw-export/src/writer.rs:181-204 | the same for the database |
| `Export.ExportWriter.WriteCbor` | crates/bw-export/src/writer.rs:207-228 | the same for other data, at a path of the caller's choice |
| `Export.ExportWriter.Close` | crates/bw-export/src/writer.rs:231-249 | adds manifest and entry list last, and fails when one of their names is taken |

## Left out

- BehaviorRunner.BehaviorTreeRunner.RunAction: does not model the script engine, its limits or the parsing of results; a script error is a Failure without data.
- BehaviorRunner.BehaviorTreeRunner.Run: leaves out the debug trace and the error text of the result; assumes that the registry does not change during a run.
- TreeIsolation.Isolated: each entity has one tree and its scripts see that entity's calls only; scripts that talk to each other through the world are not covered.
- Coalescing.RunsMerge: timestamps that the worker takes from the clock are erased, and writes that the database refuses for unique names or missing foreign rows do not occur.
- PersistenceWorker.Worker.Run: a full channel never drops a command; the deadline is an event that may come at any time.
- Mirror.RunMirrors: covers ships; a mirror of players and squadrons would need mergeable batches too. What is sent after the worker has stopped is not covered.
- Fork.ForkSimulatesLive: asks that missions and locations are in one sector each, since otherwise the iteration order decides which is removed.
- PlaytestInstance.PlaytestInstance.ProcessSectorTick: leaves out what is broadcast to clients; the wall clock is read once per tick.
- Export.RoundTrip: serialisation is any codec that decodes what it encodes, the checksum any function of the bytes, an archive a map that refuses a name twice; I/O errors do not occur.
- Rounding of floating-point numbers and scores that are no numbers, overflow of 32-bit and 64-bit counters and prices, and negative quantities of cargo, which scripts can ask for and which wrap around to large ones.
- `TransactionContext` and the state accessor.
- Faction and squadron tags in snapshots, squadron roles, faction standings, the script error log, schema lookups, default weapons.
- Behaviour scripts of playtests, the loop around the sector ticks with its pauses and time scale, and the choice of ids.
- Web pages, sockets, authentication, configuration, broadcasts and notifications: mutations that only announce something change no state here.
