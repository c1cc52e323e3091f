# Verification of mldp-pvxs-driver

A Dafny model of the parts of mldp-pvxs-driver whose correctness is hard to see by
reading: the concurrent controller bus, the aggregate accumulators and the spilling
group-by, the configuration tree (paths, assignment, merge, flat table), the alignment
buffer of the processors, and four small concurrent protocols. `dafny verify
dfyconfig.toml` checks everything.

## How the model is built

**Concurrent code** is a step machine: threads are program counters in a state, one
step is one access to shared memory or one critical section, and a run is any sequence
of enabled steps. Memory is sequentially consistent. Theorems are about every reachable
state or every run. A wait on a condition variable is spelled out: test the predicate,
go to sleep, be woken, take the mutex, test again.

**Code that updates objects** is a class whose methods follow the source's loops and are
proved against functions; the laws are lemmas about those functions.

| files | what they model |
|---|---|
| `Routing.dfy` | batches and the route table |
| `Bus.dfy`, `BusInvariant.dfy`, `BusTheorems.dfy`, `BusTermination.dfy`, `BusCalls.dfy` | pushers, bounded queue, consumer, fan-out, stop and forceStop; what a call has done when it returns |
| `CycleCheck.dfy` | the start-up check that processors do not feed each other in a circle |
| `AggregateSpec.dfy`, `Grouping.dfy` | what the SQL aggregates mean; rows, groups and mappings |
| `Counting.dfy`, `Summing.dfy`, `Choosing.dfy` | the accumulator classes |
| `KeyedGroups.dfy`, `EmittedRows.dfy`, `Spill.dfy` | grouped aggregation in memory, what an emitted row says about its rows, and aggregation under a memory budget |
| `PathSyntax.dfy`, `PathErrors.dfy` | dotted configuration paths: scanner, grammar, printer, and the error of every malformed path |
| `ConfigTree.dfy`, `Assignment.dfy`, `AssignmentErrors.dfy`, `ConfigUpdate.dfy` | assigning one scalar by its path, as a function and as the cursor walk in place, with its errors; copying and merging in place |
| `Flattening.dfy`, `Addressing.dfy`, `Rebuilding.dfy` | the flat table, which trees have a path for every node, and what replaying the table rebuilds |
| `Merging.dfy`, `MergeLaws.dfy`, `ConfigSources.dfy` | deep merge, its algebra, and loading a list of sources |
| `SampleWindow.dfy`, `ReferenceTime.dfy`, `InputBuffers.dfy` | the alignment buffer, the snapshot time, the all-updated trigger |
| `Drain.dfy`, `Cancellation.dfy`, `Pools.dfy`, `Completion.dfy` | stopping a processor, query cancellation, connection pools with their handles, reader completion |
| `Wrappers.dfy`, `Sequences.dfy` | options and results; searching and counting in sequences |

## Where a promise fails

Some properties one would expect do not hold of the code. For each there is a lemma at
a failing input and one that gives the exact condition under which the property holds.

- **Deadlock with capacity zero.** The queue capacity is not validated
  (src/controller/MLDPPVXSControllerConfig.cpp:92). With capacity 0 a reader thread can
  sleep in `push` while `stop`, which destroys the readers before it wakes anybody,
  waits for that thread. Input: the schedule of `CapacityZeroDeadlocks`. Condition: the
  capacity is at least one (`DeadlockFreeIffRoom`).
- **SUM after a merge.** The flag that makes SUM a double is taken over even from skipped
  groups, so a merged SUM can have another column type than one sequential pass. Input:
  an integer merged with a skipped double (`SkippedDoubleShows`). Condition, on the two
  operands: the function is AVG, a kept row holds a double, or no row at all does
  (`MergedSumIsSequentialIff`). The numbers agree (`SkippedDoubleChangesOnlyTheType`).
- **SUM after spilling.** Each emitted batch decides the type of its sums by its own
  groups. Condition on the input batches (`OneSumType`): AVG, no double at all, or some
  row of the first batch has a key with a double and so has every key that the first
  batch does not hold. Then every run has the sum type of a single pass, whatever the
  hash, the partition count and the memory tests (`Aggregate`). Input: any other batches
  that can be aggregated; a run over them with a batch of integers among doubles is
  constructed (`MixedSums`).
- **Flatten and rebuild.** Null scalars, empty sequences and most empty maps do not come
  back. Input: a map with one null scalar (`NullDoesNotComeBack`). Condition, for every
  configuration: all keys and nodes can be named by a path and every node is faithful
  (`RoundTripIff`); empty maps in front of a map item of a sequence are, because the
  assignment creates them as padding.
- **Associativity of merge.** Input: a scalar between two maps (`NotAssociative`).
  Condition: wherever only the middle tree holds no map, the first is shadowed by the
  last (`AssociativityIff`).
- **Reference time.** Because `>=` replaces the best value, the result can depend on the
  iteration order of a hash map. Input: two different timestamps with the same wrapped
  nanosecond count (`OrderMatters`). Condition: all maximal sources agree on their
  timestamp (`OrderIndependentIff`).
- **All-updated trigger.** The test compares set and list sizes. Input: a source named
  twice, which has delivered and does not fire (`TwiceNamedSilences`); then no payload
  ever fires (`RepeatedNameNeverFires`). Condition: the names are distinct (`FiresIff`).
- **Processor stop.** The notification is not made under the mutex, so a call of `stop` can
  sleep after the last task has finished. Input: one task and one call of stop
  (`WakeupCanBeLost`). Condition: a call that tests the count loses no wakeup exactly when
  no task is pending at that moment (`WakeupLostIff`); if it does, only a new task or a
  spurious wakeup helps (`SleepsOn`).
- **Callback after reset.** Unregistering a cancellation callback does not wait; a callback
  that was already copied still runs. Input: the run of `CallbackAfterReset`. Condition: a
  client is called after its reset exactly when it is among the copied callbacks at the
  reset (`CalledAfterResetIff`).

## Model

| member | source | states |
|---|---|---|
| Routing.Build | src/controller/RouteTable.cpp:20-63 | succeeds exactly when every route names known writers and readers; the table then holds the first route of each writer, and no route at all means all-to-all; otherwise the error names the unknown writer, or the first unknown reader, of the first bad route |
| Routing.CollectReaders | src/controller/RouteTable.cpp:40-58 | the reader list of one route: accepted exactly when every name but `all` is known; the error names the first unknown reader of that route |
| Routing.ComputeAcceptsSource | src/controller/RouteTable.cpp:93-122 | the early exits compute: some include pattern matches (or there is none) and no exclude pattern does |
| Routing.WellFormedBatches | src/controller/MLDPPVXSController.cpp:537-553 | push lets a batch through exactly when it has a name and, for a time series, a frame or the mark that ends a batch group |
| Routing.AcceptsByFirstEntry | src/controller/RouteTable.cpp:70-91 | with the table built from a list of routes, a writer accepts a reader exactly when there are no routes or its first entry lists the reader or `all` |
| Routing.SourceByFirstEntry | src/controller/RouteTable.cpp:93-122 | and a source exactly when there are no routes or its first entry includes the source, all sources when it names none, and does not exclude it |
| BusInvariant.InvPreserved | src/controller/MLDPPVXSController.cpp:418-480 | every step of every pusher, the consumer, the pool tasks, stop and forceStop keeps the invariant: mutual exclusion, queue bound, order, owed wakeups, one winner of stop, fan-out barrier |
| BusInvariant.InvReachable | src/controller/MLDPPVXSController.cpp:592-689 | the invariant holds in every reachable state |
| BusTheorems.DispatchFollowsAcceptance | src/controller/MLDPPVXSController.cpp:592-671 | in every interleaving the dispatched batches are an in-order, duplicate-free prefix of the accepted ones; without forceStop accepted = dispatched + taken out + queued |
| BusTheorems.PushIsTruthful | src/controller/MLDPPVXSController.cpp:529-628 | the batches for which a thread's push returned true are exactly those of its batches that entered the queue, in order (which calls those are, `PushDelivers` says) |
| BusCalls.PushDelivers | src/controller/MLDPPVXSController.cpp:529-628 | for every run: a call of push that has returned while the bus runs has enqueued its batch, exactly when it is not malformed; a malformed batch is never enqueued, and after a stop the call enqueued its batch or nothing |
| BusTheorems.DrainedAtExit | src/controller/MLDPPVXSController.cpp:639-689 | without forceStop, when the consumer exits everything accepted has been dispatched and each writer has received exactly its share |
| BusTheorems.FrozenAfterExit | src/controller/MLDPPVXSController.cpp:601-611 | after the consumer's exit no run accepts or dispatches anything more |
| BusTheorems.QueueBounded | src/controller/MLDPPVXSController.cpp:601-611 | the queue never exceeds its capacity, queue plus the consumer's batch never twice the capacity |
| BusTheorems.WriterSeesItsRoute | src/controller/MLDPPVXSController.cpp:691-731 | whatever order the pool runs the tasks in, a writer's pushes are the dispatched batches its route and payload test take, in order, except possibly the one being dispatched |
| BusTheorems.DeliveredIsTheRoute | src/controller/MLDPPVXSController.cpp:701-711 | a writer's share contains each batch as often as it was dispatched if the three tests take it, and never otherwise |
| BusTheorems.TakenByFirstEntry | src/controller/MLDPPVXSController.cpp:701-711 | in terms of the configured routes: a writer takes a batch exactly when its payload test passes and there are no routes, or its first entry lists the reader, includes the source and does not exclude it |
| BusTheorems.NoLostWakeup | src/controller/MLDPPVXSController.cpp:427-442 | a thread asleep with a true predicate always has another thread that still owes it a notification |
| BusTheorems.NeverStuck | src/controller/MLDPPVXSController.cpp:418-480 | with capacity at least one, every reachable state with a call in progress has a step |
| BusTheorems.CapacityZeroDeadlocks | src/controller/MLDPPVXSController.cpp:430-434 | a schedule that ends with a reader asleep in push, the consumer asleep and stop waiting for the reader |
| BusTheorems.DeadlockFreeIffRoom | src/controller/MLDPPVXSControllerConfig.cpp:92 | no reachable state is a deadlock exactly when the queue has room for a batch |
| BusTermination.CallsAreFinite | src/controller/MLDPPVXSController.cpp:418-689 | from every reachable state, running or stopping and under any scheduler, the calls in progress take at most a computed number of steps, and each new call or spurious wakeup adds at most a computed number |
| BusTermination.StopReturns | src/controller/MLDPPVXSController.cpp:418-465 | where no step is left and the capacity is at least one, every call of push, stop and forceStop has returned; after stop the consumer is gone and, without forceStop, every writer has its share of everything accepted |
| BusCalls.StopHasStopped | src/controller/MLDPPVXSController.cpp:418-465 | for every run: whoever called stop, first or not, when the call has returned the readers are gone, none of their threads is inside push, the consumer has left and, without forceStop, everything accepted was dispatched |
| BusCalls.ForceStopEmpties | src/controller/MLDPPVXSController.cpp:467-480 | for every run: from the return of forceStop on the queue is empty and the bus does not run |
| BusCalls.NothingAfterForce | src/controller/MLDPPVXSController.cpp:664-669 | once forceStop has set its flag no run dispatches another batch |
| BusCalls.StopsOnlyWhenCalled | src/controller/MLDPPVXSController.cpp:418-480 | in every run the bus aborts only after a call of forceStop, stops only after a call of stop, and keeps running as long as there was neither |
| CycleCheck.BuildGraph | src/controller/MLDPPVXSController.cpp:123-158 | the adjacency lists are the producer-to-consumer relation, self edges skipped, also with repeated names |
| CycleCheck.FeedsIff | src/controller/MLDPPVXSController.cpp:123-158 | two names are linked exactly when they differ and the first processor of the one writes a source that some processor of the other reads |
| CycleCheck.DescribeCycle | src/controller/MLDPPVXSController.cpp:99-118 | the text joins the part of the stack from the repeated name on, closed by that name |
| CycleCheck.Search.Dfs | src/controller/MLDPPVXSController.cpp:160-189 | the search ends, leaves the node finished with all its successors before it, or returns the text of a real closed walk |
| CycleCheck.TopologicalHasNoLoop | src/controller/MLDPPVXSController.cpp:160-189 | an order with successors first excludes every closed walk |
| CycleCheck.Validate | src/controller/MLDPPVXSController.cpp:120-198 | returns normally exactly when no chain of processors feeds back into itself; otherwise the message is the text of such a chain |
| AggregateSpec.CompareIsAnOrder | src/query/executor/AggregateValue.cpp:233-247 | comparison is a total preorder on mutually comparable values, integers and doubles being compared as exact numbers; the source rounds the integer of a mixed pair first, so beyond 2^53 its comparison is not transitive |
| AggregateSpec.CompareSign | src/query/executor/AggregateValue.cpp:233-247 | the sign of a comparison: texts lexicographically, by the first differing character or a proper prefix; numbers by size; false before true |
| AggregateSpec.RoundedOrderIff | src/query/executor/AggregateValue.cpp:235-242 | with integers rounded by any monotone conversion in mixed pairs, comparing numbers is transitive exactly when no two integers become the same double |
| AggregateSpec.ExactlyRounded | src/query/executor/AggregateValue.cpp:235-242 | on integers that convert exactly it is the comparison of the exact numbers |
| AggregateSpec.KeysConcat | src/query/AggregateRegistry.cpp:84-90 | distinct keys of a concatenation are the union |
| AggregateSpec.NoOverflowIff | src/query/AggregateRegistry.cpp:155 | no addition of the row loop leaves the 64-bit range exactly when every partial sum of the group's values fits in it |
| AggregateSpec.ChooseIsRight | src/query/AggregateRegistry.cpp:263-284 | MIN and MAX choose the earliest of the values that compare below (above) or equal to all others, FIRST and LAST the first and last; the choice fails exactly when values of different kinds had to be compared |
| EmittedRows.ChoiceSucceedsIff | src/query/executor/AggregateValue.cpp:233-247 | choosing succeeds exactly for FIRST and LAST, for at most one value, and for values that are all numbers, all texts or all booleans |
| AggregateSpec.ChooseConcat | src/query/AggregateRegistry.cpp:230-244 | choosing over a concatenation is combining the two partial choices, ties and failures included |
| Grouping.PartitionLaw | include/query/AggregateRegistry.h:58-63 | rows A followed by separately numbered rows B give each group its values of A followed by those of its source group in B, for an injective mapping |
| Grouping.MergedSummary | src/query/AggregateRegistry.cpp:161-173 | one more source group adds its count, keys and sums to its target, for any mapping |
| Grouping.MergedInOrder | include/query/AggregateRegistry.h:58-63 | with an injective mapping one more source group appends its values, in order, to its target and leaves every other group alone |
| Counting.CountAccumulator.Resize | src/query/AggregateRegistry.cpp:60-64 | existing groups keep their counts, new ones start at zero |
| Counting.CountAccumulator.Consume | src/query/AggregateRegistry.cpp:66-92 | the columns become the (distinct) non-null counts of all rows so far plus the batch |
| Counting.CountAccumulator.Merge | src/query/AggregateRegistry.cpp:94-113 | merging equals counting the other accumulator's rows under the mapped groups, skipped groups dropped |
| Summing.SumAccumulator.Resize | src/query/AggregateRegistry.cpp:137-143 | existing groups keep their sums, new ones are empty |
| Summing.SumAccumulator.Consume | src/query/AggregateRegistry.cpp:145-159 | sums and counts of all rows so far; stops at the first value that is not numeric, keeping the rows before it |
| Summing.SumAccumulator.Merge | src/query/AggregateRegistry.cpp:161-173 | merging equals summing the other accumulator's rows under the mapped groups; the double flag also covers skipped groups |
| Summing.SumAccumulator.Finish | src/query/AggregateRegistry.cpp:175-193 | null for a group without values, else the 64-bit sum, the real sum or the mean of its values |
| Summing.MergeNoOverflowIff | src/query/AggregateRegistry.cpp:165-170 | merging exact sums: no addition of the merge loop into a group leaves the 64-bit range exactly when every partial sum, over this accumulator's rows and the source groups taken over before, fits in it |
| Summing.MergedSumIsSequentialIff | src/query/AggregateRegistry.cpp:161-193 | for all operands and mappings, the merged column equals that of one pass over the kept rows exactly when it averages, a kept row of either operand holds a double, or none of the rows either operand ever saw does |
| Summing.SkippedDoubleShows | src/query/AggregateRegistry.cpp:164-169 | an integer merged with a double whose group is skipped gives a double column where one pass gives an integer one |
| Summing.SkippedDoubleChangesOnlyTheType | src/query/AggregateRegistry.cpp:175-193 | then the numbers still agree when the total fits in 64 bits |
| Choosing.ChoiceAccumulator.Take | src/query/AggregateRegistry.cpp:263-284 | an offered value replaces the group's when it is the better one by the mode, as `ChooseIsRight` pins it; fails, unchanged, when the two cannot be compared |
| Choosing.ChoiceAccumulator.Consume | src/query/AggregateRegistry.cpp:219-228 | each group holds the choice of all its values so far; fails exactly when some group's values cannot be compared, keeping a prefix of the rows |
| Choosing.ChoiceAccumulator.Merge | src/query/AggregateRegistry.cpp:230-244 | for any mapping, merging equals choosing over this accumulator's rows followed by the source groups one after the other under their new ids, and fails exactly when that would; a failure keeps the groups before |
| Grouping.JoinedIsMerged | include/query/AggregateRegistry.h:58-63 | with an injective mapping taking over group after group gives every group its values in the order of the rows themselves |
| KeyedGroups.InMemoryGroups.Assign | src/query/executor/GroupedAggregator.cpp:41-72 | every row gets the number of its key; known keys keep theirs, new ones are numbered as they appear |
| KeyedGroups.InMemoryGroups.Consume | src/query/executor/GroupedAggregator.cpp:117-142 | folds a batch into the three accumulators; fails exactly when some key's rows, those before included, cannot be summed or compared |
| KeyedGroups.InMemoryGroups.Finish | src/query/executor/GroupedAggregator.cpp:160-178 | each emitted row is the COUNT, SUM or AVG, and choice of the rows of its key, as one pass over them gives them; the sums are doubles exactly for AVG or when a row holds a double |
| KeyedGroups.NumberingDoesNotMatter | src/query/executor/GroupedAggregator.cpp:41-72 | under any numbering of distinct keys a group receives the non-null values of its key in input order |
| EmittedRows.AllFitIff | src/query/AggregateRegistry.cpp:151-152 | a query with one call of each kind over an argument can be aggregated exactly when the argument is null or a number in every row |
| EmittedRows.CountStar | src/query/AggregateRegistry.cpp:66-72 | COUNT(*) of a group grows by the number of its rows in the batch, whatever they hold |
| EmittedRows.EmittedCount | src/query/AggregateRegistry.cpp:73-91 | COUNT of an emitted row is the number of its rows that are not null, with DISTINCT the size of the set of their values |
| EmittedRows.EmittedSum | src/query/AggregateRegistry.cpp:145-193 | SUM of integers in an emitted row is their exact total wherever it fits in 64 bits, as an integer or a double |
| EmittedRows.EmittedMean | src/query/AggregateRegistry.cpp:175-193 | AVG of an emitted row lies between any bounds of its values and is null exactly when all of them are |
| EmittedRows.EmittedChoice | src/query/AggregateRegistry.cpp:254-284 | MIN (MAX) of an emitted row is the earliest of the values that no other is below (above), FIRST and LAST the first and last; null exactly when all values are |
| Spill.EvaluatedAggregator.Consume | src/query/executor/GroupedAggregator.cpp:223-238 | after any batch every key's rows are all in memory or all, in order, in the one partition it hashes to; frozen groups get no new key |
| Spill.EvaluatedAggregator.SpillRows | src/query/executor/GroupedAggregator.cpp:272-302 | each row is appended to the partition of its key and no other |
| Spill.Finish | src/query/executor/GroupedAggregator.cpp:242-265 | every key of the input is emitted exactly once with its one-pass aggregates, whatever the hash and whenever the memory tests of the partitions fire; a failure means that some key's rows cannot be aggregated |
| Spill.Aggregate | src/query/executor/GroupedAggregator.cpp:406-411 | a whole grouped query succeeds exactly when every key's rows can be aggregated, and then emits every key once with its one-pass aggregates, for all batches, hashes, partition counts and outcomes of the memory tests; every batch behind the first holds some keys, all of one partition; if the batches meet the condition for one sum type, every emitted batch has the sum type of a single pass |
| Spill.MixedSums | src/query/executor/GroupedAggregator.cpp:223-265 | for all batches that do not meet that condition there is a hash and a run of the query, its memory test firing at once, that emits a batch of integer sums where a single pass gives doubles |
| PathSyntax.ParsePath | src/config/ConfigOverride.cpp:30-94 | the scanning loops end on every input with the result of the path grammar's parser, each error included |
| PathSyntax.ParseIff | src/config/ConfigOverride.cpp:30-94 | a text is accepted with given segments exactly when it is a rendering of a well-formed spelling with that meaning |
| PathErrors.ParseErrorIff | src/config/ConfigOverride.cpp:30-94 | a text is refused with a given error exactly when it is a list of well-spelled segments, each followed by a dot, in front of a segment that is bad in the way of that error |
| PathErrors.IndexFits | src/config/ConfigOverride.cpp:70 | an index up to 18446744073709551615 is accepted with its value, a larger one is refused |
| PathSyntax.DescribePathPrefix | src/config/ConfigOverride.cpp:200-216 | the text is the printed form of the prefix |
| PathSyntax.RoundTrip | src/config/ConfigOverride.cpp:200-216 | parsing a printed path gives its segments back, for all non-empty lists with keys free of `.` and `[` and indices below 2^64 |
| PathSyntax.ParsePrintParse | src/config/ConfigOverride.cpp:30-94 | what any accepted path means can be printed and parsed again |
| Assignment.GetAfterSet | src/config/ConfigOverride.cpp:240-305 | after a successful assignment the same path resolves to the assigned scalar |
| Assignment.OnlyTheTargetChanges | src/config/ConfigOverride.cpp:240-305 | position by position, the valued scalars afterwards are those before, plus the target on success: nothing else appears, moves or changes, also on failure |
| Assignment.AssignKeeps | src/config/ConfigOverride.cpp:154-198 | every node keeps its place and kind, null scalars stay, maps keep their keys in front, and an override never lengthens a sequence that has items |
| Assignment.AssignExisting | src/config/ConfigOverride.cpp:240-305 | a path that resolves to a scalar always succeeds and replaces it where it stands, changing nothing else |
| Assignment.AssignAgain | src/config/ConfigOverride.cpp:240-305 | assigning the same path again succeeds and only changes the value |
| Assignment.FreshKeyIff | src/config/ConfigOverride.cpp:96-198 | below a key that is not there yet an assignment succeeds exactly when it may create sequences or names none |
| Assignment.NotScalarIff | src/config/ConfigOverride.cpp:272-280 | refused as non-scalar exactly when the path resolves to an existing map or sequence |
| AssignmentErrors.AssignmentVerdict | src/config/ConfigOverride.cpp:96-305 | for all trees and paths, success and each error (kind mismatch, index out of range, ambiguous sequence, not a scalar) follow from the last node that the path reaches and the segments left there |
| AssignmentErrors.EveryPathStops | src/config/ConfigOverride.cpp:240-305 | every path has such a last node |
| Assignment.GrowOnlyAddsSuccess | src/config/ConfigOverride.cpp:307-323 | whenever an override succeeds, an assignment gives the same result |
| ConfigUpdate.Config.EnsureSequenceEntry | src/config/ConfigOverride.cpp:154-198 | selecting or creating an item leaves the same pending result, and an error leaves the tree it must leave |
| ConfigUpdate.Config.DescendThroughSequence | src/config/ConfigOverride.cpp:123-152 | the only item is entered, an empty sequence gets one, several items are ambiguous and change nothing |
| ConfigUpdate.Config.Apply | src/config/ConfigOverride.cpp:240-305 | the cursor loop leaves exactly the tree and error of the recursive assignment, partial effects of a failure included |
| ConfigUpdate.Config.ApplyOverride | src/config/ConfigOverride.cpp:240-305 | an unparsable path changes nothing; otherwise the assignment by the parsed segments |
| ConfigUpdate.Config.ReplaceNode | src/config/ConfigSource.cpp:24-70 | copying child by child in place leaves the source tree in the node's place |
| ConfigUpdate.Config.MergeNode | src/config/ConfigSource.cpp:72-99 | the in-place recursion leaves the deep merge in the node's place and nothing else changed |
| Flattening.Table.Collect | src/cli/ConfigPrinter.cpp:229-278 | the recursive walk appends the rows of the subtree, in order |
| Rebuilding.FlattenThenReplay | src/cli/ConfigPrinter.cpp:229-278 | replaying the rows of any addressable configuration as assignments succeeds and gives the tree up to missing values, empty sequences and nodes without rows |
| Addressing.ReplayIsAddressable | src/config/ConfigOverride.cpp:240-305 | replaying any table leaves a tree whose keys are distinct and can be named, without a sequence directly in a sequence |
| Rebuilding.RoundTripIff | src/config/ConfigOverride.cpp:240-305 | for every configuration, the replay of its table gives it back exactly when all its nodes can be named by a path and are faithful |
| Rebuilding.NullDoesNotComeBack | src/cli/ConfigPrinter.cpp:229-278 | a null scalar comes back as an empty text |
| Rebuilding.EmptySequenceBecomesText | src/cli/ConfigPrinter.cpp:258-266 | an empty sequence comes back as the scalar `[]` |
| Rebuilding.CompleteRoundTrip | src/cli/ConfigPrinter.cpp:229-278 | with every scalar valued and no empty map or sequence the original comes back exactly |
| Merging.MergedNode | src/config/ConfigSource.cpp:72-99 | per key, the merged map holds the one node there is, or the merge of both |
| Merging.MergedKeys | src/config/ConfigSource.cpp:76-94 | the keys are those of the destination, then the new ones in source order |
| MergeLaws.MergedLookup | src/config/ConfigSource.cpp:72-99 | what every key path leads to afterwards, in terms of the two trees |
| MergeLaws.RightBias | src/config/ConfigSource.cpp:72-99 | scalars and sequences of the source win |
| MergeLaws.EmptyIsIdentity | src/config/ConfigSource.cpp:111 | the empty map is a left and right identity on maps |
| MergeLaws.Absorption | src/config/ConfigSource.cpp:72-99 | merging the same source again changes nothing |
| MergeLaws.ShadowedIff | src/config/ConfigSource.cpp:72-99 | a merge gives its source back exactly when the destination's keys lead the source's, recursively |
| MergeLaws.AssociativityIff | src/config/ConfigSource.cpp:111-143 | merging three trees associates, key order included, exactly when, wherever the outer two hold maps and the middle one does not, the first is shadowed by the last |
| MergeLaws.NoGapAssociates | src/config/ConfigSource.cpp:111-143 | in particular whenever the middle tree never holds a non-map where both others hold maps |
| MergeLaws.NotAssociative | src/config/ConfigSource.cpp:98 | a scalar between two maps with different keys merges differently in the two orders |
| ConfigSources.LoadMerged | src/config/ConfigSource.cpp:103-145 | the loop over the sources is the left fold of the per-source effect, stopping at the first failure; `config.yaml` by default; `LoadsIff` and `AssignmentAppliesIff` say when it succeeds |
| ConfigSources.LoadsIff | src/config/ConfigSource.cpp:111-143 | the sources load exactly when every one of them is a file that can be read, or names nothing that exists and applies as an assignment to what those before it gave |
| ConfigSources.AssignmentAppliesIff | src/config/ConfigSource.cpp:131-140 | PATH=VALUE applies exactly when the path parses to some segments and the last node it reaches admits the assignment, new keys and sequence items allowed; an index of 2^64 or more, and nothing else, escapes as a range error |
| ConfigSources.NewKeyApplies | src/config/ConfigOverride.cpp:320-323 | below a key that the configuration does not have every assignment applies, sequence items included |
| ConfigSources.LastFileWins | src/config/ConfigSource.cpp:112-122 | a file that comes last decides every scalar and sequence it names |
| ConfigSources.LastAssignmentWins | src/config/ConfigSource.cpp:131-134 | an assignment that comes last can be read back by its path |
| ConfigSources.FilesMayBeMergedFirst | src/config/ConfigSource.cpp:111-143 | two files in a row may be merged beforehand exactly when merging associates |
| SampleWindow.TrimOldestSamples | src/processor/InputBuffer.cpp:67-109 | cuts every column to the newest samples, or empties a batch with a column too short, without reading out of range |
| SampleWindow.TrimKeepsOrEmpties | src/processor/InputBuffer.cpp:67-109 | with too many timestamps the batch is emptied if some column has no more values than must go; otherwise every column loses the same number in front and none becomes empty |
| SampleWindow.AbsorbFrame | src/processor/InputBuffer.cpp:145-172 | one frame appended column by column and trimmed, mismatched kinds replaced, other column counts ignored |
| SampleWindow.AbsorbAnyFrame | src/processor/InputBuffer.cpp:145-172 | a frame of any shape: a slot without columns takes its columns, another number of columns leaves only the timestamps, a column of another kind begins anew, every other column is continued |
| SampleWindow.SlotBounds | src/processor/InputBuffer.cpp:67-109 | immediate from the trim: however malformed the frames, a slot holds at most `max_depth` timestamps |
| SampleWindow.WindowIsNewest | src/processor/InputBuffer.cpp:132-175 | with rectangular frames of one shape the trimmed slot equals the newest samples of everything received, in all columns |
| SampleWindow.WindowSize | src/processor/InputBuffer.cpp:132-175 | the slot stays rectangular and holds the smaller of all samples and the depth |
| SampleWindow.SlotIsNewest | src/processor/InputBuffer.cpp:132-175 | the slot of well-formed frames holds the newest samples of the last frame under latest-value, of all frames under every other alignment |
| ReferenceTime.MaxReferenceTime | src/processor/InputBuffer.cpp:27-51 | the loop visits every slot once, in an unspecified order, and returns that order's result |
| ReferenceTime.RefIsMax | src/processor/InputBuffer.cpp:27-51 | in every order the result is the last timestamp of a source that is maximal by wrapped nanoseconds |
| ReferenceTime.LastMaxWins | src/processor/InputBuffer.cpp:42 | of several maximal sources the one visited last decides |
| ReferenceTime.OrderIndependentIff | src/processor/InputBuffer.cpp:33-48 | the result is the same for all orders exactly when all maximal sources agree on their timestamp |
| ReferenceTime.RefIsLatest | src/processor/InputBuffer.cpp:22-51 | for nanoseconds below 10^9 and seconds up to 18446744072 it is the lexicographic maximum, in every order |
| ReferenceTime.OrderMatters | src/processor/InputBuffer.cpp:42 | two timestamps at the same instant for which the order decides |
| InputBuffers.InputBuffer.Ingest | src/processor/InputBuffer.cpp:113-180 | every slot is the slot of all frames accepted from its source (`SlotContents` says what that holds); fresh and seen are the sources that delivered |
| InputBuffers.SlotContents | src/processor/InputBuffer.cpp:113-180 | a source has a slot exactly when it is accepted and sent a frame; with well-formed frames the slot holds the newest samples of its last frame (latest-value) or of everything it sent |
| InputBuffers.InputBuffer.Clear | src/processor/InputBuffer.cpp:209-214 | the buffer is as if it had received nothing |
| InputBuffers.InputBuffer.TrySnapshot | src/processor/InputBuffer.cpp:182-205 | a snapshot of all slots exactly when the trigger holds |
| InputBuffers.SizeTestIff | src/processor/InputBuffer.cpp:184-198 | the size comparison means that every required source is fresh, exactly when the names are distinct; in open mode that every seen source is fresh |
| InputBuffers.FiresIff | src/processor/ChannelProcessor.cpp:109-130 | over any run, a payload fires exactly when the required names are distinct and every one of them delivered a frame since the previous firing |
| InputBuffers.OpenModeFiresIff | src/processor/InputBuffer.cpp:122-130 | without required names, exactly when every source ever seen delivered a frame since the previous firing |
| InputBuffers.RepeatedNameNeverFires | src/processor/InputBuffer.cpp:184-191 | with a repeated required name no payload of any run fires |
| InputBuffers.TwiceNamedSilences | src/processor/InputBuffer.cpp:184-191 | with one source required twice, its own delivery does not fire |
| InputBuffers.LastFireIsLast | src/processor/ChannelProcessor.cpp:128 | the payloads counted since the last firing begin right behind the last payload that fired |
| InputBuffers.Processor.ProcessTask | src/processor/ChannelProcessor.cpp:109-130 | one batch fires exactly when the run's firing test holds, never for the interval trigger, always for any-update |
| InputBuffers.SnapshotContents | src/processor/ChannelProcessor.cpp:109-130 | the same for the snapshot of a processor that fired, over its whole run |
| Drain.PendingIsExact | src/processor/ChannelProcessor.cpp:91-107 | in every run the count is the number of pushed tasks that have not finished |
| Drain.DrainIsSafe | src/processor/ChannelProcessor.cpp:70-89 | when stop clears the buffer no task is inside processTask, and none enters later unless the processor was started again |
| Drain.ProcessedIff | src/processor/ChannelProcessor.cpp:96-104 | in every run in which a task comes to its end it enters processTask exactly when it carries a time series and finds the processor running |
| Drain.SleeperIsWoken | src/processor/ChannelProcessor.cpp:103-104 | a call of stop that sleeps while a task is pending is woken before the last task has finished, in every run |
| Drain.WakeupLostIff | src/processor/ChannelProcessor.cpp:77-107 | in every reachable state, for every call of stop about to test the count: some steps of the started tasks and calls leave it asleep with all tasks finished, exactly when a task is pending |
| Drain.SleepsOn | src/processor/ChannelProcessor.cpp:77-83 | from every reachable state in which a call of stop sleeps, nothing is pending and no task is about to notify, every run without a new task or a spurious wakeup keeps it asleep |
| Drain.WakeupCanBeLost | src/processor/ChannelProcessor.cpp:103-104 | a reachable state with one task and one call of stop, and steps from it after which the task has finished and stop sleeps |
| Cancellation.AtMostOnce | include/query/QueryCancellation.h:82-92 | in every interleaving a callback runs at most once and only after a request |
| Cancellation.ExactlyOnceIff | include/query/QueryCancellation.h:82-134 | once the winner has made its calls, exactly the clients that registered and did not unregister before the copy were called, once each |
| Cancellation.WinnerKeepsOrder | include/query/QueryCancellation.h:91 | whatever the clients do meanwhile, the winner calls the copied callbacks one by one in their order |
| Cancellation.InOrderAt | include/query/QueryCancellation.h:87-91 | a callback is called behind exactly those registered under smaller ids |
| Cancellation.QueryCancellation.OnCancel | include/query/QueryCancellation.h:112-126 | before a request the callback is registered under an unused id; after one it is called at once and not registered |
| Cancellation.QueryCancellation.RequestCancel | include/query/QueryCancellation.h:82-92 | the first request calls every registered callback in id order, later requests call nothing |
| Cancellation.Registration.MoveAssign | include/query/QueryCancellation.h:48-57 | the handle's own callback is unregistered before the other handle's registration is taken over, and the other handle is left empty |
| Cancellation.Registration.Reset | include/query/QueryCancellation.h:65-69 | unregisters exactly its own callback, once |
| Cancellation.CalledAfterResetIff | include/query/QueryCancellation.h:82-134 | for every run with a reset of a client in it, once the winner has made its calls: the client was called after the reset exactly when it was among the copied callbacks still to be called at the reset |
| Cancellation.CallbackAfterReset | include/query/QueryCancellation.h:65-69 | a run in which a callback is called after its registration was reset |
| Pools.Pool.Create | src/pool/MLDPGrpcQueryPool.cpp:36-57 | refuses a minimum of zero or above the maximum; starts filled (query) or empty (annotation) |
| Pools.Pool.TryAcquire | src/pool/MLDPGrpcQueryPool.cpp:67-96 | one pass of the loop gives the first idle object, else a new one below the maximum, else waits; over runs, `AcquireIff` |
| Pools.Pool.Release | src/pool/MLDPGrpcQueryPool.cpp:115-133 | the object, if it belongs to the pool, is idle again |
| Pools.Pool.Available | src/pool/MLDPGrpcQueryPool.cpp:135-139 | the number of idle objects |
| Pools.PooledHandle.MoveFrom | include/pool/IPoolHandle.h:58-59 | a move leaves the source empty |
| Pools.PooledHandle.MoveAssign | include/pool/IPoolHandle.h:62-71 | self-assignment does nothing; otherwise the old object is released once before the new one is taken |
| Pools.PooledHandle.Reset | include/pool/IPoolHandle.h:129-137 | an owned object is released once and the handle is empty; else nothing happens |
| Pools.PoolIsConserved | src/pool/MLDPGrpcQueryPool.cpp:67-133 | over any run of acquire, moves, reset and destruction no object has two owners, the in-use count is the number of owning handles, and the size is the larger of the initial size and the peak, at most the maximum |
| Pools.AcquireIff | src/pool/MLDPGrpcAnnotationPool.cpp:75-105 | in every state of every run an acquisition succeeds exactly when fewer handles own an object than the maximum |
| Pools.WhoOwnsAfter | include/pool/IPoolHandle.h:54-137 | an acquired object was owned by nobody; a move hands over what the other handle held and empties it; no other handle changes |
| Pools.ReleasedExactlyOnce | include/pool/IPoolHandle.h:54-137 | every acquisition is either still held or was released, exactly once |
| Completion.NotifiedOnceOrTwice | include/reader/IReader.h:58-79 | in every interleaving a reader whose two sides finished was notified at least once and at most twice, and removed at most once |
| Completion.NotifiedTwiceIff | include/reader/IReader.h:58-79 | a reader whose two sides finished was notified twice exactly when both had done their first step before either did its second, otherwise once |
| Completion.TriggersAtMostOnce | src/controller/MLDPPVXSController.cpp:504-527 | at most one removal reports that all readers are gone, and only when all have completed |
| Completion.CompletionIsNotLost | src/controller/MLDPPVXSController.cpp:482-502 | every interleaving ends after at most eight steps a reader and two more; where no thread but a reader still at work has a step left, exactly the completed readers were removed, once each, and the controller was stopped exactly if all completed |

## Left out

- PathSyntax.ParsePath: index texts of any length are converted without limits on memory; an index of 2^64 or more is reported as its own error, because the source's number conversion throws past its override error there.
- AggregateSpec.CompareIsAnOrder: doubles are ideal reals, so comparisons of 64-bit integers with doubles beyond 2^53 are exact in the model, while the source rounds the integer; NaN and infinities are not modelled. `RoundedOrderIff` states what the rounding costs.
- Summing.SumAccumulator.Merge: signed 64-bit overflow, undefined in C++, is modelled as wrap-around (`NoOverflowIff` and `MergeNoOverflowIff` say when the row loop and the merge loop have none); counts are unbounded; doubles are ideal reals.
- Counting.CountAccumulator.Consume: distinct keys are the values themselves; the key bytes of the source distinguish the same kinds, except that it renders nested values as text and that a double key is its bit pattern.
- Spill.Aggregate: models one call of each kind (COUNT, SUM or AVG, and MIN, MAX, FIRST or LAST) over one argument column and at least one key; the global group of a query without keys never spills. Whether the memory test fires is a parameter for the query and an arbitrary choice inside the partitions, because memory accounting is approximate. Grouping keys are their encoded texts. HAVING, slicing of the output, spill file I/O and its errors are not modelled.
- ReferenceTime.MaxReferenceTime: the hash map's iteration order is an arbitrary order of all slots.
- InputBuffers.InputBuffer.Ingest: tasks of one processor run one at a time; two tasks at once on the unguarded buffer would be a data race. Column metadata and array shapes are not modelled; enum columns are carried, neither appended nor trimmed, as in the source.
- Drain.DrainIsSafe: the atomics are sequentially consistent, although the source loads the running flag with relaxed order.
- Completion.CompletionIsNotLost: all readers are in the list before any of them completes, and `start` has returned; the source adds them one by one, so an early completion could find the list empty too soon. The lifetime of a reader object during its registration is not modelled.
- Pools.Pool.TryAcquire: a caller that finds nothing waits at most 200 ms and tries again; the waiting itself, metrics, channels and the provider registration of the ingestion pool are not modelled.
- BusTheorems.NeverStuck: writers' and processors' own queues are not part of the bus: a writer's push and stop return. The fan-out to processors inside `push` and the metrics are left out, and a batch without a reader name is only logged in the source.
- ConfigUpdate.Config.ReplaceNode: trees are as intended by the YAML library; its node flags, anchors, tags and arena are not modelled, and neither is YAML text.
- MergeLaws.AssociativityIff: the merge laws are for trees without repeated keys in a map, as YAML demands; the merge itself is modelled for all trees.
- The pattern matching of routes is a parameter (the notation of section 2.13 of the POSIX Shell Command Language).
- gRPC, Prometheus, logging, HDF5, Python, the terminal interface and the query planner are foreign or separate concerns.
- Orphan lists of the route table, configuration getters, name-collision checks and buffer depth getters would only add easy members.
