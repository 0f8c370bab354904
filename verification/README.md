# A model of Feather's runtime core

Feather compiles a tensor graph into an ordered plan, packs the activations into one
shared arena, runs the plan serially or on worker threads, and advances recurrent state
between runs. Each of these steps replaces something simple by something fast. The
project models the steps in Dafny and proves that the fast form means what the simple
one means.

`dafny verify dfyconfig.toml` verifies everything. One module per component:

| file | component |
|---|---|
| `Order.dfy`, `GraphOrder.dfy`, `Compile.dfy` | Kahn's algorithm over a heap of ready nodes; validation and ordering of a static graph; renumbering of the compiled nodes |
| `MemoryPlan.dfy`, `BestFit.dfy` | lifetimes of alias groups and their placement in the arena; what the plan is, without its planner |
| `Spans.dfy`, `Arena.dfy`, `Session.dfy`, `Effects.dfy`, `Replay.dfy`, `Executor.dfy`, `StaleRelay.dfy` | what a run computes on bytes; sessions with and without the arena, the effect of each call byte by byte, what the node order gives, their refinement, and where it ends |
| `StateAdvance.dfy`, `StatefulSession.dfy` | advancing a batch of recurrent states whose tensors may alias |
| `ParallelRun.dfy`, `Confluence.dfy`, `OperatorEffects.dfy`, `RemainingUses.dfy` | the parallel branch of a run as a machine; declared operator effects; use counts that release device copies |
| `GraphMeaning.dfy`, `StaticGraph.dfy`, `ControlValues.dfy` | what a graph computes and which rewrites keep it; the def-use index; freezing of control values |
| `Isolation.dfy` | copy-on-write storage, views, and two sessions of one compiled graph |
| `Matching.dfy` | the augmenting-path matching behind permutation-aware row comparison |
| `Batch.dfy`, `Pool.dfy`, `Replica.dfy` | the thread pool's batch protocol, the pooled allocator, the index of device replicas |
| `Fp8.dfy` | the 8-bit floating-point codec |
| `Wrappers.dfy` | `Option`, `Result` and what else the components share |

## The main results

- **Arena refinement** (`Replay.DeclaredInputsAnswerAlike`, `Executor.ArenaRefinesPrivate`).
  Over any sequence of `BindInput`, `Run` and `ReadOutput`, and for any numbering of the
  alias groups, a serial session of a compiled graph that shares the arena gives the replies of
  one in which every group has a buffer of its own, as long as no input is the name of a
  removed relay. A history of states and replies is described byte by byte (`Effects.CallIsDone`,
  `Effects.CallDoneIsUnique`), and the methods of the session produce it. Arena bytes start
  arbitrary; the proof carries agreement on the bytes still due in the current run, and on
  everything outside the arena.
- **Replay** (`Executor.ExecutionSession.RunSerial`, `Replay.TouchesFallInside`). The
  lowest-ready-index scheduler executes 0, 1, ..., n-1, so every read and write of an arena
  group falls inside its planned lifetime.
- **Simultaneous update** (`StatefulSession.RuntimeGraph.ApplyStateBindings`). An accepted
  batch leaves every destination with the state computed from the contents before the
  batch, for every aliasing the checks accept and every mix of snapshot, copy, exchange
  and append; a rejected batch changes nothing. Both are stated by name, from the tensors the
  bindings name, and read-only bytes stay as they are.
- **Confluence** (`Confluence.SuccessIsSerial`, `Confluence.ReturnIsClean`,
  `OperatorEffects.ParallelIsSerial`). Every schedule of the parallel branch runs each node
  once, after its predecessors, returns with nothing in flight, and on success leaves what
  running the nodes one after the other leaves, each on what its inputs then hold.
- **Rewrites preserve meaning** (`GraphMeaning.RewritesMeanTheSame`) from every graph that
  passes the build's checks (`GraphMeaning.BuiltIsWellFormed`), in every solution of the node
  equations; they change exactly what they should (`StaticGraphs.RemovedMeansTheSame` and its
  companions) and keep the def-use index that building makes exact (`StaticGraphs.StaticGraph`).
- **Matching is exact** (`Matching.MatchRows`): complete if and only if a perfect matching
  exists, and a failed search exhibits a set of rows with too few neighbours.
- **Session isolation** (`Isolation.WriteAll`): no sequence of writes through one session
  changes a byte visible through the other.
- **Nearest encoding** (`Fp8.EncodingIsNearest`) and the round trip of every byte
  (`Fp8.DecodedEncodesBack`), for both formats through one encoder,
  with ties to the even code of the OCP 8-bit Floating Point Specification (OFP8) Rev 1.0
  and the roundTiesToEven rule of section 4.3.1 of IEEE 754-2019.
- **Plans are sound and best-fit** (`MemoryPlan.PlanIsSound`, `BestFit.PlanIsBestFit`),
  **orders are canonical** (`GraphOrder.ValidateAndOrderGraph`), **batches run every body once**
  (`BatchRun.ReturnedIsComplete`), **pool blocks never overlap**
  (`BufferPools.BufferPool.AllocateMemBlock`, `Allocate` and `ReleaseBlock`), **replica tables agree** (`DeviceReplicas`), **control
  freezing computes the least closed set** (`ControlValues`).

## Where the code does less than its description

- `BindInput` accepts the name of any mutable value that no node produces
  (`src/core/execution_plan.cc:509`). A value whose producing Identity node was removed by a
  pass is such a value, and its tensor shares the storage of the relay's input
  (`src/operator/identity_op.cc`), so it may lie in the arena. `docs/execution_architecture.md:53-55`
  says that external inputs keep the lifetime they need and that outputs stay valid until
  the next run; a bind of this kind after a run can overwrite an output that reuses the slot.
  The model follows the code. `Session.BindIsSafeExactly` gives the exact condition,
  `StaleRelay.RelayTellsThemApart` a graph and a byte that show the difference.
- `ReplaceInputValue` registers the reader under the new name even when that name is empty;
  the other methods skip or reject an empty input. The users stay exact if and only if the
  new name is not empty (`StaticGraphs.RenamedUsers`).
- `RunBatch` on a pool without workers runs the tasks itself and leaves at the first
  exception, so later tasks do not run; with workers they all do
  (`BatchRun.InlineIsComplete`, `BatchRun.InlineStopsEarly`).
- `ReplaceNodeDescAndAbsorbNode` reports a conflict between declared and inferred output
  metadata only after it has changed the target (`src/core/static_graph.cc:707-711`): both
  nodes are then active and list the same outputs, and no producer table is exact. The index
  is exact afterwards if and only if the call succeeded or was refused before its first
  change. `ReplaceNodeDesc` and `ReplaceInputValue` change the node before they fail, too,
  but keep the producers exact.
- `ReadOutput` before the first successful run, or after a failed one, returns whatever the
  storage holds. `docs/execution_architecture.md:55` promises outputs only until the next
  run, so the model answers `Stale` and claims nothing about the bytes.

## Modelling choices

- A kernel is an uninterpreted function of its input bytes that may fail, and that fills its
  outputs and mutable inputs completely. A view node writes nothing; its output is a byte
  range inside one of its inputs. A failing kernel in a parallel run may leave anything
  behind in the storage it writes.
- A compiled graph (`Replay.Compiled`) is one in dependency order whose unproduced inputs are
  seeded or lie in storage no node produces: compilation seeds every bound tensor that is not
  external state (`src/core/execution_plan.cc:130-142`), refuses external state that aliases
  a produced value (`:98-115`), and starts with the check that every input has a source.
- A session is modelled twice: `Executor` has the contents of flat memory and the layout of
  the groups in it, `Isolation` has the identity of storages, views and allocations.
- Group numbers are arbitrary, since the code takes them in hash-map order. The contents of
  storage outside the arena when a session starts are a parameter.
- A priority queue is a set from which the least element is taken; a sort is an insertion
  into a sorted sequence; lists linked through records are sequences with the head first.
- `size_t` is bounded by 2^64 - 1 where the code checks for overflow, `int64_t` by
  2^63 - 1; elsewhere integers are unbounded.
- Every error is one `Err` or a `false`; codes and messages are not modelled. Operator
  creation is a parameter: refused, or the descriptors of the outputs and how many of them
  agree with the declared metadata.
- Threads are machines whose steps are the atomic actions of the code. The loads of
  different tasks interleave one by one, and storage that a task is writing may hold
  anything until the task ends.
- FP8 arithmetic is over `real`, since every step on a finite binary32 input is exact; a
  number carries its sign bit apart from its magnitude, so that both zeros exist.
- `RemoveNodeWithOutputAlias` does not itself check that the node is an identity. That
  meaning is preserved assumes that the removed node relays its input, as its callers do.

## Model

| member | source | states |
|---|---|---|
| GraphOrder.CheckedElementCount | include/core/shape_utils.h:28-43 | succeeds exactly when no dimension is negative and the product fits a signed 64-bit integer, and then returns the product |
| GraphOrder.ValidateAndOrderGraph | src/core/static_graph.cc:31-99 | with the name, shape and source checks passed, succeeds exactly when the dependency relation has no cycle, and returns its lexicographically least topological order |
| GraphOrder.NameNodes | src/core/static_graph.cc:52-63 | after validation every node has a name of its own; only unnamed nodes have been given one |
| GraphOrder.DepsDescribe | src/core/static_graph.cc:57-86 | a node depends exactly on the producers of those of its inputs that are no source, explicit bindings included |
| GraphOrder.BuildProducers | src/core/static_graph.cc:57-69 | one producer per value, none for a source; refused exactly when a name is unknown, a source or produced twice |
| GraphOrder.BuildEdges | src/core/static_graph.cc:75-86 | pending counts and successor lists agree and count repeated inputs, refused exactly when an input has no source |
| DependencyOrder.Kahn | src/core/static_graph.cc:93-99 | emits the smallest ready node until none is ready; emits all of them exactly when the graph has no cycle |
| DependencyOrder.Release | src/core/static_graph.cc:97-97 | counting down the successors keeps pending, ready and done consistent, multiplicity included |
| DependencyOrder.GreedyIsLexLeast | src/core/static_graph.cc:93-98 | the order always taking the smallest ready node is no later than any topological order |
| DependencyOrder.LexLeastIsUnique | src/core/static_graph.cc:93-98 | there is only one lexicographically least topological order |
| DependencyOrder.StuckIsCyclic | src/core/static_graph.cc:99-99 | if some nodes stay blocked, they contain a cycle |
| DependencyOrder.TopologicalIsAcyclic | src/core/static_graph.cc:99-99 | a topological order excludes every cycle |
| Compile.OrderNodes | src/core/execution_plan.cc:162-184 | reorders the nodes, losing and repeating none, into the least order in which every producer precedes its readers; refused exactly for a duplicate producer, a missing input or a cycle |
| Compile.ListsAll | src/core/execution_plan.cc:178-183 | an order that lists every node once keeps the multiset of nodes |
| Compile.CompiledDepsFeed | src/core/execution_plan.cc:163-175 | the recorded dependencies are exactly the pairs of nodes of which one produces an input of the other |
| Compile.ForwardsIsNumbered | src/core/execution_plan.cc:162-184 | in the renumbered graph every dependency has a smaller index |
| DependencyOrder.NumberedOrderIsIdentity | src/core/graph.cc:600-632 | when every dependency has a smaller index, the lowest-ready-index order is 0, 1, ..., n-1 |
| MemoryPlan.LifetimeCovers | src/core/execution_plan.cc:197-222 | every write of a group falls inside its planned lifetime, no read comes after it, an output keeps it to the end of the run, and its size covers all its values |
| MemoryPlan.BuildMemoryPlan | src/core/execution_plan.cc:194-253 | refused exactly for an unknown name, an overflowing range or a total of rounded sizes that is no size_t; otherwise the plan is the best-fit placement of the groups with the lifetimes their uses give them |
| MemoryPlan.PlanIsDetermined | src/core/execution_plan.cc:223-231 | in whatever order the hash map yields the groups, one numbering of the groups has one plan |
| MemoryPlan.CollectIntervals | src/core/execution_plan.cc:223-231 | the planned groups are exactly those produced, used, not pinned and not empty, ordered by first node |
| MemoryPlan.BestIsSmallest | src/core/execution_plan.cc:239-241 | no fitting slot is smaller than the one taken, and a new slot is opened only when none fits |
| MemoryPlan.Place | src/core/execution_plan.cc:233-252 | the loop over slots computes the specified placement; refused exactly when the rounded total overflows |
| MemoryPlan.PlanIsSound | src/core/execution_plan.cc:194-253 | for any graph and any numbering of groups: allocations whose bytes meet are never live together, are aligned to 64, fit the arena, and the arena is no larger than separate buffers |
| BestFit.PlanIsBestFit | src/core/execution_plan.cc:194-253 | the plan without its planner: one allocation for each group that is produced, not seeded and not empty, ordered by first write then group, as large as the group and live exactly from its first write to its last use or the end; each takes the smallest range free for it, or extends the arena, which is the sum of the ranges opened |
| BestFit.PlacementFitsBest | src/core/execution_plan.cc:233-252 | an allocation takes the smallest range opened before it that is large enough and whose users have all ended, the lowest of these; it opens a range only if there is none |
| MemoryPlan.ArenaIsSafe | src/core/execution_plan.cc:234-248 | two allocations whose byte ranges meet have disjoint lifetimes |
| MemoryPlan.ArenaFits | src/core/execution_plan.cc:234-252 | offsets are multiples of 64 and every allocation ends inside the arena |
| MemoryPlan.ArenaHoldsLive | src/core/execution_plan.cc:234-252 | at every node the rounded sizes of the groups live there total at most the arena |
| MemoryPlan.ArenaIsNoLarger | src/core/execution_plan.cc:244-250 | the arena is at most the sum of the rounded sizes |
| Arena.NodeAgrees | src/core/execution_plan.cc:421-430 | one node, executed under two placements that respect the lifetimes, keeps equal every byte that is still due |
| Arena.RunAgrees | src/core/graph.cc:600-632 | so does a whole run, which succeeds or fails alike under both |
| Session.SessionsAnswerAlike | src/core/execution_plan.cc:421-482 | over any sequence of binds, runs and reads, from any stale initial bytes, two placements that respect the lifetimes answer every bind and run alike, and every read of an output whose bytes no bind since the last run has met |
| Replay.PinnedIsKept | src/core/execution_plan.cc:130-142 | a source that is seeded, or whose storage no node produces, is not placed in the arena |
| Replay.CompiledIsChecked | src/core/execution_plan.cc:162-184 | dependency order and pinned sources imply that every node reads only what has been produced before its turn or is kept, and that every output has been produced or is kept |
| Replay.TouchesFallInside | src/core/execution_plan.cc:205-218 | every node that reads or writes an arena group does so inside the planned lifetime of the group |
| Replay.DeclaredInputsAnswerAlike | src/core/execution_plan.cc:533-552 | as long as no input is the name of a removed relay, two placements that respect the lifetimes answer every call alike, over any sequence of binds, runs and reads |
| Executor.ArenaRefinesPrivate | src/core/execution_plan.cc:348-348 | for every compiled graph without relays among the inputs: in any two histories of the same calls, from the same initial contents, a session sharing the arena gives the replies that a session with a buffer per group gives |
| Executor.ArenaRefinesBesideRelays | src/core/execution_plan.cc:348-348 | with relays among the inputs the replies are equal too, save for reads of an output whose bytes a bind has met since the last run |
| Executor.AssignStorage | src/core/execution_plan.cc:421-487 | the shared layout respects the planned lifetimes; without reuse every group has a buffer of its own |
| Executor.CreateSession | src/core/execution_plan.cc:421-487 | a new session holds the given contents in every group outside the arena, in the layout for the chosen reuse |
| Executor.BuildDependencies | src/core/graph.cc:418-448 | refused exactly for a duplicate producer, a missing input or a cycle; otherwise counts and successor lists agree with the dependencies, multiplicity included |
| Effects.RunNodeRuns | src/core/graph.cc:553-598 | byte by byte: a kernel computes from what its inputs hold, and of the values it writes the last one that covers a byte decides it; every other byte stays |
| Effects.RunIsRun | src/core/graph.cc:600-632 | a run is such a step for each node in turn, up to the first that fails |
| Effects.OutputIsComputed | src/core/graph.cc:553-632 | after a successful run, a value no later node writes holds what its kernel computes from what its inputs held at its turn |
| Effects.CallIsDone | src/core/execution_plan.cc:524-563 | every bind, run and read has the stated effect on memory and the stated reply |
| Effects.CallDoneIsUnique | src/core/execution_plan.cc:524-563 | and no other |
| Effects.HistoryIsSpecified | src/core/execution_plan.cc:524-563 | a sequence of calls has one history of states and replies |
| Executor.ExecutionSession.BindInput | src/core/execution_plan.cc:533-552 | accepted exactly for an input of matching size; then the bytes at the address of the value are the data, and every other byte, and whether outputs are current, stay |
| Executor.ExecutionSession.ReadOutput | src/core/execution_plan.cc:554-563 | after a successful run returns the bytes at the address of the output; otherwise says that the output is stale, or that there is none of that name |
| Executor.ExecutionSession.ExecuteNode | src/core/graph.cc:553-598 | on what the inputs hold, the kernel overwrites exactly the outputs and mutable inputs with its results; a view changes nothing |
| Executor.ExecutionSession.RunSerial | src/core/graph.cc:600-632 | executes nodes 0, 1, ..., n-1, each on what the ones before it have left, and stops at the first failure |
| Executor.ExecutionSession.Run | src/core/execution_plan.cc:524-531 | such a run; it succeeds, and outputs are current, exactly if all nodes succeeded |
| Session.BindIsSafeExactly | src/core/execution_plan.cc:533-552 | a bind after a run leaves an output of the arena session equal to that of separate buffers, for every data, exactly when the bound bytes do not meet those of the output (or belong to its group) |
| Session.KeptSpares | src/core/execution_plan.cc:209-225 | binding a group outside the arena, or one kept to the end, meets the bytes of no output of another group |
| Session.PrivateSpares | src/core/execution_plan.cc:481-482 | with separate buffers no bind does |
| StaleRelay.ChainPlan | src/core/execution_plan.cc:233-252 | in every plan of a chain of three one-byte groups the output takes over the slot of the first |
| StaleRelay.RelayTellsThemApart | src/core/execution_plan.cc:509-509 | a graph that compiles: for every session that follows its plan and every one with separate buffers, some byte bound to the name of a removed relay makes the outputs differ |
| StateAdvance.OverlapsSymmetric | src/core/stateful_session.cc:83-93 | the overlap test does not depend on the order of its arguments, and a tensor with bytes overlaps itself |
| StateAdvance.OverlapIsSharedByte | src/core/stateful_session.cc:83-93 | two tensors overlap exactly if some address belongs to both |
| StateAdvance.WriteEffect | src/core/stateful_session.cc:108-111 | a copy, with copy-on-write of its storage, changes the destination and nothing apart from it |
| StateAdvance.ExchangeEffect | src/core/tensor.cc:61-68 | exchanging storage exchanges the contents of two tensors and of nothing else, and the overlaps with them |
| StateAdvance.ShiftAppendRows | src/core/stateful_session.cc:134-138 | each row loses its first block and gains the appended one |
| StateAdvance.CacheSizes | src/core/stateful_session.cc:122-129 | the byte sizes of a cache and of what is appended, for every rank and axis |
| StateAdvance.CacheLayout | src/core/stateful_session.cc:122-129 | row-major layout around the cache axis: the rows are the product of the dimensions before it, an entry the product of those after it times the width, a row as many entries as the axis is long |
| StateAdvance.CacheIsWindow | src/core/stateful_session.cc:134-138 | repeated shift-appends keep in each row the last bytes of its initial contents followed by everything appended |
| StatefulSession.CacheKeepsWindow | src/core/stateful_session.cc:119-140 | after any number of accepted advances each outer row of a cache is the last `slots` entries of its initial contents followed by all outputs appended |
| StateAdvance.ApplyStep | src/core/stateful_session.cc:95-140 | applying one validated update installs its state and disturbs nothing that the others still need |
| StateAdvance.OneMoreInstalled | src/core/stateful_session.cc:226-229 | one at a time, the updates install the states computed before the first of them |
| StateAdvance.SnapStep | src/core/stateful_session.cc:213-224 | a snapshot keeps every update installable and brings no two of them together |
| StateAdvance.FlaggedIsSettled | src/core/stateful_session.cc:185-202 | the snapshot flags cover every aliasing that applying one by one could expose |
| StateAdvance.BystanderKept | src/core/stateful_session.cc:95-140 | a tensor that shares no byte with the batch keeps its contents |
| StateAdvance.ApplyShields | src/core/tensor.cc:70-78 | an update overwrites no byte that only read-only storage reaches |
| StatefulSession.ResolvesAsNamed | src/core/stateful_session.cc:60-81 | what a binding resolves to, by name: its input, and its output or the source the output is a view of |
| StatefulSession.AcceptedAsNamed | src/core/stateful_session.cc:142-202 | the checks pass exactly if every binding is admissible and no two inputs share a byte |
| StatefulSession.AdvancedAsNamed | src/core/stateful_session.cc:95-140 | installing the new states is the simultaneous assignment by name |
| StatefulSession.NamedOutputIsAssigned | src/core/stateful_session.cc:60-140 | a recurrent binding that is stable, or whose output is no relay, gives its input the bytes its output held before the batch |
| StatefulSession.CheckedTensorBytes | include/core/shape_utils.h:45-63 | the number of elements times the width, or half of it rounded up for packed elements; refused exactly for a bad shape, an unsized type or an overflow |
| StatefulSession.ValidateTensors | src/core/stateful_session.cc:32-58 | accepts exactly matching, initialized, large enough pairs whose destination is mutable |
| StatefulSession.FlagUpdates | src/core/stateful_session.cc:185-202 | rejects exactly overlapping destinations; otherwise snapshots exactly the aliased sources and keeps the storage of every update another meets |
| StatefulSession.RuntimeGraph.EnsureWritable | src/core/tensor.cc:70-78 | a read-only storage is replaced by a private copy for all its views |
| StatefulSession.RuntimeGraph.SwapStorage | src/core/tensor.cc:61-68 | exchanges storage, offset and size of two tensors, and nothing else |
| StatefulSession.RuntimeGraph.AppendRows | src/core/stateful_session.cc:134-138 | the in-place loop over rows computes the shift-append and touches no other byte |
| StatefulSession.RuntimeGraph.AppendState | src/core/stateful_session.cc:119-140 | one cache update, row sizes computed from the dimensions |
| StatefulSession.RuntimeGraph.ApplyValidatedState | src/core/stateful_session.cc:95-141 | one update: nothing, a copy, an exchange or an append |
| StatefulSession.RuntimeGraph.TakeSnapshots | src/core/stateful_session.cc:212-224 | redirects the flagged updates to copies of their sources |
| StatefulSession.RuntimeGraph.ApplyAll | src/core/stateful_session.cc:226-229 | after all updates every destination holds its new state |
| StatefulSession.RuntimeGraph.ResolveBinding | src/core/stateful_session.cc:60-81 | a binding updates the tensor of its input name from that of its output name, or, if it is recurrent and not stable, from the source that name is a view of when the source has the input's shape and type; refused exactly if one of the tensors read does not match |
| StatefulSession.RuntimeGraph.ApplyStateBindings | src/core/stateful_session.cc:142-231 | accepted exactly if every binding is admissible by name and no two inputs share a byte, with nothing changed otherwise; then every named input holds what its source, or its shifted rows and the source, held before the batch, for all accepted aliasings; tensors apart from the batch keep their contents, and read-only bytes are never overwritten |
| ParallelRun.StepKeepsControl | src/core/graph.cc:635-717 | every step of the main loop or of a task keeps counts, queue, flight and history consistent |
| Confluence.ScheduleControlled | src/core/graph.cc:635-717 | every state of every schedule is so |
| Confluence.LoadStep | src/core/graph.cc:553-598 | a task loads from shared memory what its node loads in the serial run |
| ParallelRun.SerialRuns | src/core/graph.cc:553-598 | the serial reference executes node after node, each on what its spans hold, and overwrites exactly its spans |
| Confluence.SuccessIsSerial | src/core/graph.cc:635-717 | a schedule that returns success leaves in every byte what running the nodes one after the other, in any topological order, leaves: each succeeds on what its spans held and overwrites its spans with the results |
| Confluence.ReturnIsClean | src/core/graph.cc:683-717 | on return no task is running; success means exactly that no node failed, and then each node began once, after its predecessors, and ended |
| Confluence.TopIsIdle | src/core/graph.cc:683-704 | at the top of the loop nothing is running, and the wait on the condition variable is never reached |
| Confluence.NeverStuck | src/core/graph.cc:683-717 | until it has returned the run can always take a step |
| OperatorEffects.Owner | src/core/operator_semantics.cc:70-100 | a byte a node reads belongs to the output of a kernel that precedes it, or to a source consumed by the node or by a view |
| OperatorEffects.JobTouches | src/core/graph.cc:553-598 | a view touches no byte; any other node loads exactly its inputs' bytes and stores exactly those of its outputs and its state |
| OperatorEffects.CounterIsValidated | src/core/operator_semantics.cc:102-142 | a validated graph with state exists: one kernel feeds another that overwrites a state of its own |
| OperatorEffects.ValidatedIsOrdered | src/core/operator_semantics.cc:102-142 | in a validated graph nodes touching a common byte that one of them overwrites depend on each other |
| OperatorEffects.ParallelIsSerial | src/core/graph.cc:635-717 | hence a validated graph computes in parallel, whatever the schedule, what it computes one node after the other |
| RemainingUses.Releases.ReleaseUnusedInputs | src/core/graph.cc:497-523 | in any finishing order, the released values are exactly those all of whose readers have finished and that are not kept, each once |
| RemainingUses.Releases.constructor | src/core/graph.cc:462-469 | the uses are counted with multiplicity |
| GraphMeaning.EvalSolves | src/core/static_graph.cc:463-581 | evaluating a graph by rank is a solution of its node equations |
| GraphMeaning.SolutionIsEval | src/core/static_graph.cc:463-581 | and the only one that agrees with the environment on the sources |
| GraphMeaning.DenotesIsHeld | src/core/static_graph.cc:463-581 | what a public output denotes is what any solution agreeing on the sources holds at the end of its aliases |
| GraphMeaning.EveryOutputHeld | src/core/static_graph.cc:463-581 | every environment has a solution, and every public name stands for a value |
| GraphMeaning.BuiltIsWellFormed | src/core/static_graph.cc:31-99 | a graph built from a valid model graph in a topological order is acyclic, has one producer per value, and supplies every input and output: what the rewrites below rely on and keep |
| GraphMeaning.RewriteMeansTheSame | src/core/static_graph.cc:463-581 | dropping an unused node, exposing what a relay of a public output relays, and reading through a relay keep the graph acyclic and well-formed, and what every public output holds in any solution of the node equations |
| GraphMeaning.RewritesMeanTheSame | src/core/static_graph.cc:463-581 | so does any sequence of them |
| StaticGraphs.SearchChain | src/core/static_graph.cc:464-477 | following aliases with a visited set finds a value exactly if it is on the chain, cyclic or not |
| StaticGraphs.ChainIsLeast | src/core/static_graph.cc:464-477 | the chain from a name is the least set with the name that has, with a name, what it is an alias of |
| StaticGraphs.StaticGraph.IsGraphOutputValue | src/core/static_graph.cc:463-479 | true exactly if some public output is or exposes the value |
| StaticGraphs.StaticGraph.constructor | src/core/static_graph.cc:273-323 | building from named nodes makes the def-use index exact |
| StaticGraphs.NamedAreFresh | src/core/static_graph.cc:31-99 | validation and naming give such nodes |
| StaticGraphs.StaticGraph.RegisterValueUse | src/core/static_graph.cc:775-780 | adds one user, never twice |
| StaticGraphs.StaticGraph.UnregisterValueUse | src/core/static_graph.cc:782-792 | removes one user and leaves no empty list |
| StaticGraphs.StaticGraph.RemoveNode | src/core/static_graph.cc:481-512 | succeeds exactly for an active node whose outputs are neither exposed nor read; then the node is marked removed, its outputs have no producer, it uses nothing, and every other node, producer, user and alias stays; the index stays exact |
| StaticGraphs.StaticGraph.RemoveNodeWithOutputAlias | src/core/static_graph.cc:514-552 | succeeds exactly for a one-in one-out node of an unused public output with matching tensors; then likewise, and the output is an alias of the input and has its tensor |
| StaticGraphs.StaticGraph.ReplaceInputValue | src/core/static_graph.cc:554-581 | the node reads the new name exactly where it read the old one and nothing else changes, even if rebuilding the operator then fails; producers stay exact, and users stay exact if and only if the new name is not empty; succeeds exactly if some input was renamed and all outputs could be rebuilt |
| StaticGraphs.RemovedMeansTheSame | src/core/static_graph.cc:481-512 | with a removable node marked removed, and nothing else changed, every public output holds what it held |
| StaticGraphs.ExposedMeansTheSame | src/core/static_graph.cc:514-552 | so it does with a relay of a public output removed and the output an alias of what was relayed |
| StaticGraphs.RedirectedMeansTheSame | src/core/static_graph.cc:554-581 | so it does with a node reading what a relay relays instead of the relay's output |
| StaticGraphs.StaticGraph.ReplaceNodeDesc | src/core/static_graph.cc:601-652 | succeeds exactly for matching outputs, known inputs, a creatable operator and no metadata conflict; the index stays exact, also when a conflict makes it fail after the change |
| StaticGraphs.StaticGraph.ReplaceNodeDescAndAbsorbNode | src/core/static_graph.cc:654-721 | likewise when one node takes over the outputs, and is the producer, of another, which is removed; the index is exact afterwards if and only if the call succeeded or was refused before its first change |
| StaticGraphs.SharedOutputIsInexact | src/core/static_graph.cc:698-711 | while two active nodes list one output, no producer table is exact |
| StaticGraphs.RenamedUsers | src/core/static_graph.cc:565-573 | renaming inputs keeps the users exact if and only if the new name is not empty |
| StaticGraphs.AbsorbedProducers | src/core/static_graph.cc:700-718 | after absorption the producers are exactly the active nodes |
| ControlValues.ControlTable.RecordControlValues | src/core/static_graph.cc:735-773 | freezes earlier controls, shape inputs and, with a value computed at build time by an active node that looks at contents, every named input of that node, and nothing else; fails exactly if one of them is unavailable or has changed; frozen bytes never change |
| ControlValues.RequiredFeeds | src/core/static_graph.cc:764-770 | what a required value was derived from is required |
| ControlValues.LeastIsJustified | src/core/static_graph.cc:735-773 | the least set consists of earlier controls, shape inputs and inputs that other members were derived from |
| Matching.Assign | tools/compare_yolo_onnx.py:148-156 | finds an augmenting path and matches one more row, or visits a set of columns all held by rows confined to it |
| Matching.MatchRows | tools/compare_yolo_onnx.py:146-166 | complete if and only if a perfect matching exists; the matching is valid and of maximum size; on failure a set of rows with too few neighbours is exhibited; the permutation inverts the owners |
| Matching.FoundIsMaximum | tools/compare_yolo_onnx.py:158-161 | no partial matching has more rows |
| Matching.Invert | tools/compare_yolo_onnx.py:162-165 | the permutation is the inverse of the owners |
| Isolation.Storage.MakeWritable | include/core/storage.h:71-79 | a read-only buffer is replaced by a private copy with the same bytes |
| Isolation.Tensor.Write | src/core/tensor.cc:70-86 | the storage becomes writable for all its views, the view takes the size written, then exactly that range changes; any size within the storage is allowed |
| Isolation.Tensor.ShareDataWith | src/core/tensor.cc:49-59 | the tensor becomes another view of the storage |
| Isolation.WriteAll | src/core/tensor.cc:70-86 | no sequence of writes through one session changes a byte visible through the other, or of an allocation read-only to it |
| Isolation.CreateSession | src/core/execution_plan.cc:430-487 | values of one group, and only those, share a storage; that of a frozen group is the plan's read-only buffer, that of a planned group its range of one new arena, and any other group has an allocation to itself |
| Isolation.CreateTwoSessions | src/core/execution_plan.cc:430-487 | two sessions of one plan start out isolated |
| Fp8.RoundToNearestEven | include/util/fp8.h:66-73 | a nearest integer, the even one on ties |
| Fp8.Normalize | include/util/fp8.h:105-114 | the loops end with a fraction between 1 and 2 and the matching exponent |
| Fp8.Constants | include/util/fp8.h:82-86 | the literal constants are the smallest positive, smallest normal and largest finite numbers of the format |
| Fp8.UnitsIncrease | include/util/fp8.h:171-204 | codes are ordered like the numbers they stand for |
| Fp8.BinadeIsNear | include/util/fp8.h:115-119 | rounding the mantissa gives the nearest code, also when it carries into the next binade |
| Fp8.EncodeFinite | include/util/fp8.h:79-142 | the nearest finite code, ties to the even code |
| Fp8.Encode | include/util/fp8.h:144-169 | the sign bit, of a zero too, and the nearest code of a finite number; an infinity saturates in E4M3, and a NaN has its code |
| Fp8.DecodesFinite | include/util/fp8.h:171-204 | exactly the codes up to the maximum decode to finite numbers, with the sign of the byte and the magnitude of the format |
| Fp8.EncodedByte | include/util/fp8.h:144-204 | the encoding of a finite number decodes to its sign and the magnitude of the nearest code |
| Fp8.ExceptionalByte | include/util/fp8.h:144-204 | the encoding of a NaN decodes to a NaN, that of an infinity to the infinity of its sign, or to the largest number of its sign where there is none |
| Fp8.EncodingIsNearest | include/util/fp8.h:144-204 | the encoding of a finite number keeps its sign and decodes to a finite number that no other is closer to; an equally close one has the odd code |
| Fp8.EncodingIsMonotone | include/util/fp8.h:144-204 | encoding is monotone on decoded values |
| Fp8.EncodingSaturates | include/util/fp8.h:100-102 | beyond the largest finite number the encoding is that number |
| Fp8.DecodedEncodesBack | include/util/fp8.h:144-204 | every byte is the encoding of what it decodes to, both zeros and the infinities included, except that a NaN comes back as the canonical one |
| Fp8.NearestIsUnique | include/util/fp8.h:79-142 | only one code is nearest |
| BatchRun.InterleavingSound | include/util/thread_pool_nv.h:43-109 | in every interleaving each claimed task is finished or in the hands of exactly one worker, and failures are recorded |
| BatchRun.InterleavingRemembered | include/util/thread_pool_nv.h:43-109 | a task counts as begun and out of its body exactly if its body is one event of the interleaving, and as having thrown exactly if that event did |
| BatchRun.ReturnedIsComplete | include/util/thread_pool_nv.h:133-163 | once RunBatch has returned, the body of each task ran exactly once, no body is running, at most as many workers registered as there are tasks, and it rethrew if and only if some body threw, with the exception of such a body |
| BatchRun.NeverTwice | include/util/thread_pool_nv.h:43-51 | before that no body runs twice, and only those of tasks run |
| BatchRun.NeverStuck | include/util/thread_pool_nv.h:195-236 | until the caller has returned the protocol can take a step |
| BatchRun.RunInline | include/util/thread_pool_nv.h:141-146 | without workers the caller runs the tasks in order and leaves at the first exception |
| BatchRun.InlineIsComplete | include/util/thread_pool_nv.h:141-146 | without workers every task runs if and only if no task before the last one throws |
| BatchRun.InlineStopsEarly | include/util/thread_pool_nv.h:141-146 | two tasks of which the first throws: the second never runs |
| BufferPools.NormalizeSize | src/core/memory.cc:34-47 | the smallest size class that holds the size; refused exactly for sizes that cannot be rounded up |
| BufferPools.BufferPool.AllocateMemBlock | src/core/memory.cc:83-138 | cuts the block from the first chunk with room, a new chunk or the heap; it overlaps no other, and chunk offsets never exceed the chunk |
| BufferPools.BufferPool.Allocate | src/core/memory.cc:49-71 | hands out the head of the free list of the class, or a new block if that is empty; every other block stays as it was |
| BufferPools.BufferPool.ReleaseBlock | src/core/memory.cc:142-153 | takes back exactly that block, once, onto the head of its class's free list |
| BufferPools.BufferPool.DeallocateAll | src/core/memory.cc:155-184 | gives everything back exactly when no block is handed out |
| BufferPools.OutstandingApart | src/core/memory.cc:49-138 | in every valid pool blocks handed out share no byte |
| BufferPools.FreeOrOutstanding | src/core/memory.cc:55-66 | a block is on exactly the free list of its class or handed out, and lists name it once |
| BufferPools.PooledBuffer.Deallocate | include/core/memory.h:112-123 | a buffer releases its block at most once, also after the block has been handed out again |
| DeviceReplicas.ViewsAsRanges | include/core/device_replica.h:25-32 | views overlap exactly if they share a byte, and a view with bytes is contained exactly if all its bytes are |
| DeviceReplicas.DeviceReplicaIndex.Bind | include/core/device_replica.h:57-65 | the four tables agree; a view keeps its state or gets a new one, and a deserted view's state is given back |
| DeviceReplicas.DeviceReplicaIndex.EraseHandle | include/core/device_replica.h:68-83 | a state is given back exactly when its last handle leaves, and never twice |

## Left out

- Executor.ArenaRefinesBesideRelays: does not cover a read of an output whose bytes a bind of a relay has met since the last run, because there the code differs; see Session.BindIsSafeExactly.
- Executor.ExecutionSession.ReadOutput: answers that the output is stale before a successful run, where the code returns whatever the storage holds.
- Executor.CreateSession: memory budgets, weights imported from another session and caller-supplied state are left out; which contents a group outside the arena starts with is a parameter.
- Executor.BuildDependencies: node names are left out, and the ready nodes are visited in another order, on which only the count of visited nodes depends.
- StatefulSession.RuntimeGraph.ApplyStateBindings: models the host path only; device appends, device swaps, capture, transfers and the recorded storage-identity contracts are not part of this model.
- StatefulSession.RuntimeGraph.AppendRows: the appended rows are read before the loop, which the validation makes equivalent because destination and source do not overlap by then.
- StaticGraphs.StaticGraph.RemoveNode: build descriptors, operator pointers and the list of model nodes are not modelled, here and in the other rewrites.
- StaticGraphs.StaticGraph.ReplaceNodeDescAndAbsorbNode: after a metadata conflict says that the index is inexact, and nothing more about the state.
- OperatorEffects.ValidatedIsOrdered: input counts, bounded and terminal outputs, the serial flag and tensors without materialized storage are left out; produced storage is assumed disjoint and views to lie inside their inputs.
- Confluence.SuccessIsSerial: claims nothing about memory after a failed run; the request to stop a run is left out.
- BatchRun.NeverStuck: says that a step is always possible, not that a sleeping thread is woken; the two condition variables, mixing enqueue with RunBatch, and the pool's destructor are left out.
- Fp8.Encode: the payload of a NaN is left out.
- BufferPools.PooledBuffer.Deallocate: `set_data`, the fallback when the pool is gone, and the pool's mutex are left out.
- Isolation.CreateSession: copying seeds into mutable groups, caller-supplied mutable state with its overlap checks, weights imported from another session, memory limits and deferred allocation of storage are left out.
- Isolation.CreateTwoSessions: the two sessions are created one after the other on one thread.
- DeviceReplicas.DeviceReplicaIndex.Bind: the callback is a list of states given back; exchanging two indices and clearing one are left out.
- RemainingUses.Releases.ReleaseUnusedInputs: what releasing does to device memory is left out; the order of finishing is arbitrary.
- Matching.MatchRows: the compatibility relation is taken as given; the floating-point tolerances behind it are left out.
- GraphOrder.ValidateAndOrderGraph: the checks of descriptors beyond name, shape and source are left out; naming the unnamed nodes is GraphOrder.NameNodes.
- StaticGraphs.StaticGraph.constructor: creating operators, restoring metadata and evaluating control values while building are left out; the nodes come in the order of the build.
- `StatefulSession::Bind` and `Reset`, profiling, `FrozenBytes` import and export, and the concrete passes, model loaders and chat sessions.
- Kernels, shape inference, CUDA and other backends, half and bfloat16 conversion, image and JSON input and output, command lines and demos.
