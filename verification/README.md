# TensorFlow runtime pieces, verified in Dafny

This project models five parts of TensorFlow whose correctness is not visible from any one function,
and proves what they promise. `dafny verify dfyconfig.toml` checks all of it.

**Graph partitioning (TensorFlow Lite).** A graph is cut into subsets of delegated and other nodes by
sweeping over the nodes until nothing changes. `Partitioner` is the code, as a class over the same
vectors. `PartitionTheorems` says what it is for: the subsets may be run one after another, even in
isolation behind their boundary lists; they hold the least closed set of nodes, exactly those that depend
on no cycle; graph and types determine them; and no other way to cut the graph needs fewer subsets, up to
one. `PartitionLength` gives the number of subsets in closed form, by type changes along dependency paths,
and with it the exact condition, on the graph alone, for being the shortest.

**Arena planning (TensorFlow Lite).** Reference counts give a queue of allocations and releases, which a
second pass replays on two arenas, possibly interval by interval. `ArenaPlanner` and `MemoryArena` are the
code, down to the growing buffers and the addresses the tensors get; `ArenaPlan`, `ArenaSchedule`,
`ArenaReplay` and `ArenaLifetimes` say what the queue, the replay and the blocks are; `ArenaExecution`
proves that nodes that load and store at those addresses, scribbling on scratch memory as they like,
compute what they would with one private buffer per tensor, run after run.
`ArenaExamples` replays two small graphs step by step.

**Graph-to-function conversion (C API).** `NodeNames` and `FunctionConversion` turn part of a graph into
a function definition. `FunctionMeaning` proves that the function computes what the graph computes with
its inputs fed, for every meaning of the ops and every order of execution.

**Tensor codecs (C API and Go).** `Words`, `Varints` and `StringTensor` are the layout of string tensors.
`GoValues`, `GoTensor`, `GoStrings` and `GoNewTensor` turn nested Go values into tensors and back.

**Protocols (C API and Go).** `SessionExtension`, `GraphLifetime` and `GoSession` are state machines, one
step per action on a lock or on shared state. Their theorems hold in every state of every interleaving.

Premises, where the code has them too: each tensor has at most one producer, indices are in range, ops are
functions of their inputs. Node names in a graph are unique and, like the names of output arguments, free
of `:`; the operations of a function body are distinct. A string tensor fits into memory. Byte order is
a parameter. TF_STRING varints follow the section "Base 128 Varints" of the Protocol Buffers Encoding
guide.

Where the code does less than its surroundings suggest, the model follows the code:

- The partitioner indexes the list of subsets with -1 for a model output that was never placed. All those
  indices exist exactly when no producer of a model output depends on a cycle (`InBoundsIff`);
  `CycleIsOutOfBounds` gives a graph where one does not.
- The code's partition can be one subset longer than the shortest one (`GreedyCanBeOneLonger`). Let
  `first` be the type of the lowest-numbered node that is ready at the start. The partition is the shortest
  exactly when no dependency path off cycles that ends in the other type has more type changes than every
  such path that ends in `first` (`ShortestIff`); in particular when all nodes that are ready at the start
  have one type (`OneReadyTypeStartsWell`).
- The planner counts nodes only at their queue entries. At the first node without one it stops, and later
  temporaries get no memory: `TemporariesAllocatedIff` gives the exact condition, `TemporaryNeverAllocated`
  a graph. Planning is safe when every node with temporaries, and every node before it, has an entry
  (`PlanningSucceeds`); a temporary that needs memory and is not reached makes it unsafe (`UnreachedIsBad`).
  `HasEntryIff` says on the graph alone which nodes have entries.
- A later interval whose first node has no entry releases the temporaries of the node before it again
  (`ReleasedAgainIff`, `TemporaryReleasedAgain`), which fails or takes the block of a live tensor
  (`SecondRelease`); `SecondReleaseFails` and `SecondReleaseTakesBlock` give a graph for each.
- The `deallocated` flags of the planner are never set, so their checks do nothing. That a tensor is
  released at most once is proved from the reference counts.
- A Go tensor of more than 2^30 bytes panics in `tensorData`, before its shape is looked at; `TooManyBytes`
  gives a well-typed, rectangular value.

## Model

| member | source | states |
|---|---|---|
| PartitionTheorems.PartitionGraph | tensorflow/lite/graph_info.cc:224-231 | For every SSA graph, cyclic or not, the subsets are homogeneous, nonempty, in dependency order, saturated, each opened by the lowest-numbered ready node and filled in the order of the sweeps; all epochs of model outputs exist iff no producer of one depends on a cycle, and then both boundary lists of every subset are exactly the right sets, sorted and duplicate-free |
| Partitioner.PartitionImpl.constructor | tensorflow/lite/graph_info.cc:54-64 | A node has the partition type iff it is listed |
| Partitioner.PartitionImpl.Partition | tensorflow/lite/graph_info.cc:67-118 | On the object's fields, whatever they held before: the greedy partition, index validity iff the producers of model outputs are placed, and then exact boundary lists |
| Partitioner.PartitionImpl.Explore | tensorflow/lite/graph_info.cc:67-92 | The loop over subsets terminates and leaves the greedy partition, each subset opened and typed by the lowest-numbered ready node and filled in the order of the sweeps, with epochs and lists that agree |
| Partitioner.PartitionImpl.MarkAllNotReady | tensorflow/lite/graph_info.cc:67-81 | Whatever the fields held, the invariant holds with no subsets: no node is placed and exactly the produced tensors are not ready |
| Partitioner.PartitionImpl.MarkNotReady | tensorflow/lite/graph_info.cc:76-81 | Exactly the outputs of the node become not ready |
| Partitioner.PartitionImpl.BuildNodeSubset | tensorflow/lite/graph_info.cc:194-206 | The sweeps terminate; the subset is opened by the lowest-numbered ready node and no sweep skips a node that can join; afterwards no node is eligible, and the unplaced nodes shrink unless it stays empty |
| Partitioner.PartitionImpl.Sweep | tensorflow/lite/graph_info.cc:198-203 | A sweep that places nothing changes nothing and shows that no node is eligible; the first node it places in an empty subset is the lowest-numbered eligible one, and it goes on to the next one that can join |
| Partitioner.PartitionImpl.UpdateNode | tensorflow/lite/graph_info.cc:135-191 | Places the node iff it is unplaced, its inputs are ready and its type fits; keeps the whole invariant, also on which node opens a subset and on the order of its nodes; otherwise changes nothing |
| Partitioner.PartitionImpl.InputsReady | tensorflow/lite/graph_info.cc:143-150 | Ready iff no non-optional input is unplaced |
| Partitioner.PartitionImpl.Place | tensorflow/lite/graph_info.cc:160-187 | The new epochs, node list and boundary entries, and nothing else |
| Partitioner.PartitionImpl.MarkModelOutputs | tensorflow/lite/graph_info.cc:94-104 | Every produced model output becomes an output of its subset; all indices exist iff all producers are placed |
| Partitioner.Uniquefy | tensorflow/lite/graph_info.cc:110-114 | The same elements in strictly increasing order |
| PartitionTheorems.PlacedIsLeast | tensorflow/lite/graph_info.cc:83-92 | The placed nodes are the least set closed under "all inputs are unproduced or produced inside" |
| PartitionTheorems.CompleteIffAcyclic | tensorflow/lite/graph_info.cc:83-92 | Every node is placed iff the graph is acyclic |
| PartitionTheorems.AcyclicInBounds | tensorflow/lite/graph_info.cc:96-104 | On acyclic graphs every epoch used as an index is in range |
| PartitionTheorems.PlacedIffNoCycle | tensorflow/lite/graph_info.cc:83-92 | Exactly the nodes that depend on no cycle are placed |
| PartitionTheorems.InBoundsIff | tensorflow/lite/graph_info.cc:96-104 | Every epoch used as an index is in range iff no producer of a model output depends on a cycle |
| PartitionTheorems.CycleIsOutOfBounds | tensorflow/lite/graph_info.cc:96-104 | A graph on which an index is out of range, however its node is typed |
| PartitionTheorems.AdjacentTypesDiffer | tensorflow/lite/graph_info.cc:151-206 | Neighbouring subsets have different types |
| PartitionTheorems.GreedyContains | tensorflow/lite/graph_info.cc:151-206 | The first k subsets contain the first k of any homogeneous, dependency-respecting partition that starts with the same type; with one more subset, of any partition |
| PartitionTheorems.GreedyIsShort | tensorflow/lite/graph_info.cc:151-206 | No partition of the same nodes starting with the same type is shorter, and none is shorter by more than one |
| PartitionTheorems.GreedyIsDetermined | tensorflow/lite/graph_info.cc:151-206 | Graph and types determine the number of subsets, their types and their nodes, in order |
| PartitionLength.LevelIsLeast | tensorflow/lite/graph_info.cc:151-206 | In any homogeneous, dependency-respecting partition a node comes no earlier than the type changes along any path from it allow |
| PartitionLength.LevelIsReached | tensorflow/lite/graph_info.cc:151-206 | In a saturated partition some path from each node accounts exactly for the number of its subset |
| PartitionLength.LengthIsHighestLevel | tensorflow/lite/graph_info.cc:67-92 | The number of subsets is one more than the most type changes along a path off cycles, counting one for a path that does not end in the first subset's type |
| PartitionLength.StartsWithAnyReady | tensorflow/lite/graph_info.cc:151-155 | For every node ready at the start some saturated partition starts with its type |
| PartitionLength.ShortestIff | tensorflow/lite/graph_info.cc:151-206 | The code's partition is the shortest iff no path off cycles that ends in the other type has more type changes than all that end in the type of the lowest-numbered ready node |
| PartitionLength.OneReadyTypeStartsWell | tensorflow/lite/graph_info.cc:151-155 | That condition holds if all nodes ready at the start have one type |
| PartitionTheorems.GreedyCanBeOneLonger | tensorflow/lite/graph_info.cc:151-206 | A graph on which every result of the code has three subsets and another partition of the same nodes has two |
| PartitionTheorems.PartitionPreservesMeaning | tensorflow/lite/graph_info.cc:67-118 | Running subset after subset gives every tensor its value in any complete dependency order |
| PartitionTheorems.SubsetComputes | tensorflow/lite/graph_info.cc:163-187 | Given the right input tensors, a subset computes the right values of everything it writes, whatever else its memory holds |
| PartitionTheorems.IsolatedSubsetsPreserveOutputs | tensorflow/lite/graph_info.cc:94-117 | Subsets that see only their listed inputs and hand back only their listed outputs give the model outputs their value in the original plan |
| Execution.RunSolves | tensorflow/lite/graph_info.cc:151-187 | Running a dependency order solves the equations of the graph |
| Execution.OrdersAgree | tensorflow/lite/graph_info.cc:151-187 | Any two dependency orders of the same nodes compute the same tensors |
| MemoryArena.SimpleMemoryArena.constructor | tensorflow/lite/simple_memory_arena.cc:144-149 | An empty arena without a buffer |
| MemoryArena.SimpleMemoryArena.Allocate | tensorflow/lite/simple_memory_arena.cc:35-81 | Fails iff the alignment is too large; an empty request takes no memory; otherwise the block goes to the specified place, the list stays packed and the high-water mark covers it |
| MemoryArena.SimpleMemoryArena.Search | tensorflow/lite/simple_memory_arena.cc:46-71 | The loop finds the first narrowest gap that fits, or the end |
| MemoryArena.BestGapUnique | tensorflow/lite/simple_memory_arena.cc:58-71 | At most one gap is the best |
| MemoryArena.PlacementIsSafe | tensorflow/lite/simple_memory_arena.cc:53-78 | The new block is aligned, overlaps no live block and is the only change |
| MemoryArena.SimpleMemoryArena.Deallocate | tensorflow/lite/simple_memory_arena.cc:83-102 | Succeeds iff the block is empty or live; removes exactly that block; on failure changes nothing |
| MemoryArena.WithoutIsSafe | tensorflow/lite/simple_memory_arena.cc:89-100 | Removing a block keeps the others and their order |
| MemoryArena.SimpleMemoryArena.Commit | tensorflow/lite/simple_memory_arena.cc:104-129 | The buffer stays, or moves and grows to room for the high-water mark from an aligned base; wherever it is, what it held below the high-water mark is still there |
| MemoryArena.SimpleMemoryArena.ResolveAlloc | tensorflow/lite/simple_memory_arena.cc:131-142 | Succeeds iff committed, with the block's address in the current buffer; an empty block has none |
| MemoryArena.SimpleMemoryArena.Clear | tensorflow/lite/simple_memory_arena.cc:144-149 | No live blocks and no high-water mark |
| ArenaPlanner.Planner.ResetAllocations | tensorflow/lite/arena_planner.cc:53-61 | Both arenas and all blocks are empty; the queue survives |
| ArenaPlanner.Planner.AllocateAll | tensorflow/lite/arena_planner.cc:77-86 | Queues the first occurrence of every tensor not queued before, in order |
| ArenaPlanner.Planner.CountReferences | tensorflow/lite/arena_planner.cc:104-147 | Every count is the number of pins plus the number of reads |
| ArenaPlanner.Planner.CountReads | tensorflow/lite/arena_planner.cc:137-147 | Adds the number of reads of every tensor |
| ArenaPlanner.Planner.QueueGiven | tensorflow/lite/arena_planner.cc:117-135 | Inputs and variables are queued once, at node 0 |
| ArenaPlanner.Planner.DropReads | tensorflow/lite/arena_planner.cc:166-179 | Counts go on to equal pins plus remaining reads, and exactly the last uses of unpinned allocated tensors are queued for release |
| ArenaPlanner.Planner.PlanNode | tensorflow/lite/arena_planner.cc:157-179 | Appends the node's new outputs and then its releases |
| ArenaPlanner.Planner.PlanAllocations | tensorflow/lite/arena_planner.cc:63-185 | The queue is the specified one, whatever was planned before |
| ArenaPlan.ExactLifetimePlan | tensorflow/lite/arena_planner.cc:77-180 | For every graph the queue is sorted by node; a tensor has at most one ALLOC and one DEALLOC in that order; ALLOC sits at node 0 or the first producer, DEALLOC exactly at the last reader of an allocated, unpinned tensor when intermediates are not preserved |
| ArenaPlan.CountReachesZero | tensorflow/lite/arena_planner.cc:166-178 | A count becomes zero exactly at such a last use |
| ArenaPlan.QueueInOrder | tensorflow/lite/arena_planner.cc:77-180 | Entries of one node come in the order of its lists: given tensors, then outputs, then releases by the last position as an input |
| ArenaPlanner.Planner.CalculateTensorAllocation | tensorflow/lite/arena_planner.cc:264-275 | Success and the new arenas are those of the specification |
| ArenaPlanner.Planner.CalculateTensorDeallocation | tensorflow/lite/arena_planner.cc:277-283 | Success and the new arenas are those of the specification; persistent tensors stay |
| ArenaPlanner.Planner.HandleInternalTensors | tensorflow/lite/arena_planner.cc:285-309 | Requests or releases all temporaries of the node, or nothing when there is no such node |
| ArenaPlanner.Planner.ProcessEntry | tensorflow/lite/arena_planner.cc:222-237 | One queue entry issues exactly the specified requests, temporaries at the first entry of a node included |
| ArenaPlanner.Planner.CalculateAllocations | tensorflow/lite/arena_planner.cc:213-245 | Succeeds iff the replay of the interval's requests does, and leaves its result |
| ArenaSchedule.RequestsAreBlocks | tensorflow/lite/arena_planner.cc:213-245 | With an entry for every node, an interval requests node after node: temporaries, entries, temporaries released |
| ArenaSchedule.TemporariesAt | tensorflow/lite/arena_planner.cc:285-309 | The temporaries of a node are requested in the order listed |
| ArenaSchedule.RequestsPostponed | tensorflow/lite/arena_planner.cc:213-245 | With an entry for every node with temporaries and every node before it, the requests are the same, only that the last temporaries may be released later |
| ArenaSchedule.IncrementalEqualsOneShot | tensorflow/lite/arena_planner.cc:213-245 | Calls on consecutive intervals request exactly what one call over all of them does |
| ArenaSchedule.TemporariesAllocatedIff | tensorflow/lite/arena_planner.cc:222-231 | A temporary gets memory iff every node of the interval up to its own has a queue entry |
| ArenaSchedule.TemporaryNeverAllocated | tensorflow/lite/arena_planner.cc:222-231 | A well-formed graph whose last temporary never gets memory |
| ArenaSchedule.ReleasedAgainIff | tensorflow/lite/arena_planner.cc:240-242 | A call releases a temporary of the node before its interval iff the first node of the interval has no queue entry |
| ArenaSchedule.TemporaryReleasedAgain | tensorflow/lite/arena_planner.cc:240-242 | A well-formed graph where the second of two intervals requests exactly that release |
| ArenaReplay.SecondRelease | tensorflow/lite/arena_planner.cc:277-283 | Releasing a tensor again fails iff no live tensor has its old block, and otherwise takes that tensor's block away |
| ArenaExamples.SecondReleaseTakesBlock | tensorflow/lite/arena_planner.cc:187-245 | A well-formed graph, planned in two intervals, after which a graph output that is still live has lost its block |
| ArenaExamples.SecondReleaseFails | tensorflow/lite/arena_planner.cc:187-245 | A well-formed graph where the second of two intervals fails and one call over both succeeds |
| ArenaReplay.PostponedIsPaired | tensorflow/lite/arena_planner.cc:240-242 | Releasing later keeps requests well paired |
| ArenaReplay.PostponedIsLive | tensorflow/lite/arena_planner.cc:240-242 | Releasing later keeps every tensor live at the moments it was |
| ArenaLifetimes.HasEntryIff | tensorflow/lite/arena_planner.cc:77-180 | A node has a queue entry iff it is the first to need some tensor or the last to use one |
| ArenaReplay.ReplayHolds | tensorflow/lite/arena_planner.cc:264-283 | A well-paired sequence of requests never fails, keeps live tensors in disjoint blocks and gives each tensor one sized, aligned block |
| ArenaReplay.ReplayOnlyLive | tensorflow/lite/arena_planner.cc:264-283 | Conversely every live block belongs to a live tensor |
| ArenaReplay.LiveTogetherAreDisjoint | tensorflow/lite/arena_planner.cc:264-283 | Two tensors of one arena that are ever live together have disjoint blocks in the end |
| ArenaLifetimes.SchedulePaired | tensorflow/lite/arena_planner.cc:213-309 | The requests of the whole graph are well paired, temporaries included |
| ArenaLifetimes.NeededIsLive | tensorflow/lite/arena_planner.cc:155-180 | At node i its inputs and outputs, pinned tensors and all tensors read later are live |
| ArenaLifetimes.LiveAtMoment | tensorflow/lite/arena_planner.cc:213-283 | They are live in the replay as soon as the ALLOC entries of node i are processed, temporaries of node i included |
| ArenaLifetimes.DisjointAtNode | tensorflow/lite/arena_planner.cc:213-283 | Tensors of one arena live at the same node have disjoint blocks |
| ArenaPlanner.Planner.ResolveTensorAllocation | tensorflow/lite/arena_planner.cc:247-262 | Fails iff the tensor's arena is not committed; otherwise the address is its block's, counted from the base of its own arena, and empty tensors of the shared arena and tensors outside the arenas keep theirs |
| ArenaPlanner.Planner.Commit | tensorflow/lite/arena_planner.cc:207-211 | Succeeds, with room for every block in both arenas and their contents kept |
| ArenaPlanner.Planner.ExecuteAllocations | tensorflow/lite/arena_planner.cc:187-205 | Succeeds iff tensors were only added and the replay of the interval's requests succeeds; leaves its result, committed, with the contents of both arenas kept and all addresses resolved |
| ArenaPlanner.PlanGraph | tensorflow/lite/arena_planner.cc:63-205 | Planning and executing on a new planner gives the plan the theorems are about; it succeeds when every node with temporaries, and every node before it, has a queue entry, and then the addresses it returns are safe and aligned: in the buffer of the right arena, and apart for tensors that are live together |
| ArenaPlanner.PlanInIntervals | tensorflow/lite/arena_planner.cc:63-205 | Planning once and executing one interval after another, with buffers that move in between, succeeds iff the replay of all their requests does, and leaves its result; if the blocks are safe, so are the addresses |
| ArenaPlanner.BlocksGiveLayout | tensorflow/lite/arena_planner.cc:247-262 | Safe blocks, resolved against buffers with room for them, are safe addresses |
| ArenaPlanner.BlocksAreAligned | tensorflow/lite/arena_planner.cc:247-275 | The addresses of tensors with memory are multiples of the tensor alignment, if that divides the arena's |
| ArenaPlanner.IntervalsGiveGoodPlan | tensorflow/lite/arena_planner.cc:187-245 | With an entry for every node, intervals that cover the graph leave the arenas of one call over all of it, with all blocks in bounds and apart |
| ArenaExecution.PlanningSucceeds | tensorflow/lite/arena_planner.cc:213-309 | When every node with temporaries, and every node before it, has a queue entry, planning the whole graph succeeds, with all blocks in bounds and apart |
| ArenaExecution.UnreachedIsBad | tensorflow/lite/arena_planner.cc:222-231 | No plan is safe in which a temporary that needs memory belongs to a node that is not reached |
| ArenaExecution.NodeKeepsAgreement | tensorflow/lite/arena_planner.cc:155-180 | A node that loads and stores at planned addresses and scribbles on its outputs and temporaries keeps every tensor still needed equal to its private-buffer value |
| ArenaExecution.ArenaRefinesPrivateBuffers | tensorflow/lite/arena_planner.cc:63-185 | For all safe addresses: after running all nodes in the two buffers every graph output, loaded from its address, equals its value with one private buffer per tensor |
| ArenaExecution.ReadyForRerun | tensorflow/lite/arena_planner.cc:117-126 | With preserved inputs all given values are still at their addresses after a run |
| ArenaExecution.RepeatedRuns | tensorflow/lite/arena_planner.cc:117-126 | With preserved inputs any number of runs in a row in the same buffers gives the same outputs |
| NodeNames.NodeNameMapping.constructor | tensorflow/c/c_api_function.cc:316-317 | No names used |
| NodeNames.Normalize | tensorflow/c/c_api_function.cc:80-103 | The loops compute the specified normal form |
| NodeNames.NormalizedIsArgName | tensorflow/c/c_api_function.cc:80-103 | The normal form matches `[a-z][a-z0-9_]*` and is the name itself iff the name does |
| NodeNames.NormalizedForm | tensorflow/c/c_api_function.cc:80-103 | Character by character from the first letter on: capital letters become the small ones, small letters and digits stay, all others become underscores; "unknown" iff there is no letter |
| NodeNames.NodeNameMapping.UniquifyHelper | tensorflow/c/c_api_function.cc:105-113 | Terminates for every finite set of used names, with the name or its first unused candidate |
| NodeNames.UniquifiedIsUnique | tensorflow/c/c_api_function.cc:105-113 | That choice is unique |
| NodeNames.UniquifiedForm | tensorflow/c/c_api_function.cc:105-113 | An unused name is itself; a used one gets an underscore and the least number whose candidate is unused |
| NodeNames.DecimalDigitAt | tensorflow/c/c_api_function.cc:105-113 | The digits of a number are its decimal digits, without leading zeros |
| NodeNames.UniquifiedKeepsShape | tensorflow/c/c_api_function.cc:105-113 | It keeps the argument pattern and stays free of separators |
| NodeNames.NodeNameMapping.GetOutputName | tensorflow/c/c_api_function.cc:121-127 | A fresh argument name; the mapping is unchanged and stays one-to-one |
| NodeNames.NodeNameMapping.GetInputName | tensorflow/c/c_api_function.cc:115-119 | A fresh argument name, recorded for the node |
| NodeNames.NodeNameMapping.Uniquify | tensorflow/c/c_api_function.cc:129-134 | A fresh node name, recorded; the mapping stays one-to-one |
| NodeNames.NodeNameMapping.UseOutputName | tensorflow/c/c_api_function.cc:136-144 | Succeeds iff the name is unused, and uses it |
| NodeNames.KeyInjective | tensorflow/c/c_api_function.cc:380 | Flat tensor names determine node and index |
| FunctionConversion.RefInjective | tensorflow/c/c_api_function.cc:381-382 | Nested tensor names determine node and flat output index |
| FunctionConversion.RefForm | tensorflow/c/c_api_function.cc:381-382 | A nested name is node, output argument and position in it, which determine the flat index |
| FunctionConversion.IsRefOutputAt | tensorflow/c/c_api_function.cc:152-158 | An output is a reference iff its argument is |
| FunctionConversion.NameOutputs | tensorflow/c/c_api_function.cc:334-345 | Given output names are used as they are, iff they are distinct; otherwise argument k is called after the node of output k: its normal form, made unique against the arguments before it |
| FunctionConversion.NameInputs | tensorflow/c/c_api_function.cc:348-356 | Distinct argument names, each the normal form of its own node made unique against all names before it, recorded for exactly the input tensors |
| FunctionConversion.RecordOutputs | tensorflow/c/c_api_function.cc:372-389 | Every output of the node that no input stands for is mapped to its nested name, and nothing else changes |
| FunctionConversion.NameBody | tensorflow/c/c_api_function.cc:366-390 | Each body node keeps its own name, made unique against all names before it; the renaming holds exactly the references of inputs and body outputs, inputs first |
| FunctionConversion.NameOfBodyNode | tensorflow/c/c_api_function.cc:179 | What the name mapping returns for a body node is the fresh name it was given |
| FunctionConversion.DataInputs | tensorflow/c/c_api_function.cc:202-229 | Succeeds iff every input edge exists and is available, with the right references in order |
| FunctionConversion.ControlInputs | tensorflow/c/c_api_function.cc:231-245 | Succeeds iff every control source is in the body or among the inputs, with the right names |
| FunctionConversion.FillFunctionBody | tensorflow/c/c_api_function.cc:160-245 | Succeeds iff every body node is convertible; each node is rightly named and wired |
| FunctionConversion.ReturnValues | tensorflow/c/c_api_function.cc:396-410 | Succeeds iff every output is available; each output argument returns the right reference |
| FunctionConversion.GraphToFunctionDef | tensorflow/c/c_api_function.cc:299-410 | Succeeds iff output names are distinct and all edges and outputs are available; all argument, output and node names are then distinct, each made from the name of its own node, and everything refers to the right thing |
| FunctionConversion.ProcessInputs | tensorflow/c/c_api_function.cc:460-493 | Succeeds iff all inputs exist, none is a reference and they are distinct; the map holds exactly the fed outputs of each node |
| FunctionConversion.ProcessOutputs | tensorflow/c/c_api_function.cc:497-515 | Succeeds iff all outputs exist and none is a reference |
| FunctionConversion.ComputeBodyNodes | tensorflow/c/c_api_function.cc:519-552 | The listed operations, or in the order of ids all nodes that provide no input; fails iff none are listed and such a node does not have exactly one output |
| FunctionConversion.BodyInOrder | tensorflow/c/c_api_function.cc:519-552 | Computed body nodes come in the order of their ids |
| FunctionConversion.GraphToFunction | tensorflow/c/c_api_function.cc:560-626 | The exact condition for the whole request, and a rightly named and converted function |
| FunctionMeaning.NodeStaysInStep | tensorflow/c/c_api_function.cc:201-245 | A node is ready in the function iff it is in the graph, control edges included, and writes the same values |
| FunctionMeaning.ConversionPreservesMeaning | tensorflow/c/c_api_function.cc:299-410 | For all ops, arguments and orders the function returns what the graph computes with its inputs fed, inputs overriding their producers, and is stuck exactly when the graph is |
| FunctionMeaning.ConversionIsClosed | tensorflow/c/c_api_function.cc:201-245 | Every data input, control input and return value refers to an existing argument or node |
| Words.WordRoundTrip | tensorflow/c/c_api.cc:523-524 | Storing and loading a word is the identity in either byte order |
| Words.WordByteAt | tensorflow/c/c_api.cc:523-524 | Byte j of a stored word, from the low end, is its j-th base-256 digit |
| Words.BytesRoundTrip | tensorflow/c/c_api.cc:523-524 | Loading and storing any bytes is the identity in either byte order |
| Varints.VarintLength | tensorflow/core/lib/core/coding.cc:127-134 | The length of the encoding |
| Varints.EncodeVarint64 | tensorflow/core/lib/core/coding.cc:110-119 | Writes exactly the bytes of the encoding and touches no other |
| Varints.GetVarint64Ptr | tensorflow/core/lib/core/coding.cc:166-181 | Reads what the specification reads, below the limit and at most ten bytes |
| Varints.VarintIsShort | tensorflow/core/lib/core/coding.cc:110-134 | k groups of seven bits suffice below 128^k |
| Varints.VarintByteAt | tensorflow/core/lib/core/coding.cc:110-119 | Byte i is the i-th group of seven bits, with the high bit on all but the last, and there are no more groups than needed |
| Varints.VarintRoundTrip | tensorflow/core/lib/core/coding.cc:166-181 | Decoding an encoded 64-bit value gives it back, whatever follows |
| Varints.ReadVarintIff | tensorflow/core/lib/core/coding.cc:166-181 | For all bytes: a value is read iff they start with at most ten groups of which only the last lacks the high bit, and it is the sum of the groups modulo 2^64 |
| StringTensor.WrapIsDetected | tensorflow/c/c_api.cc:332-336 | The size comparison detects exactly the sizes that wrap around |
| StringTensor.StringEncodedSize | tensorflow/c/c_api.cc:371-373 | The encoded size modulo 2^64 |
| StringTensor.StringEncode | tensorflow/c/c_api.cc:330-346 | Fails iff the size wraps or does not fit, writing nothing; otherwise writes exactly the encoding |
| StringTensor.LayoutSize | tensorflow/c/c_api.cc:594-601 | The precomputed size is the size of the layout |
| StringTensor.TableByteAt | tensorflow/c/c_api.cc:609-613 | Each byte of the table: entry i is the total size of the strings before string i, in the given byte order |
| StringTensor.StringAt | tensorflow/c/c_api.cc:614-623 | Behind the table at that offset stand the varint of the length and the bytes of the string |
| StringTensor.EncodeOne | tensorflow/c/c_api.cc:609-623 | Each string fits the space left; the table and the data grow by it and nothing else changes |
| StringTensor.TensorFromTensor | tensorflow/c/c_api.cc:594-642 | The buffer is exactly the layout of the strings; neither error is reached |
| StringTensor.StringDecode | tensorflow/c/c_api.cc:348-362 | The string at the start of the bytes, or the error |
| StringTensor.TensorToTensor | tensorflow/c/c_api.cc:503-536 | The decoded strings or the first error; a negative offset reads from the table, as far as it stays in the buffer |
| StringTensor.StringsRoundTrip | tensorflow/c/c_api.cc:503-536 | For all strings of any lengths, decoding their layout gives them back |
| StringTensor.DecodeAllIff | tensorflow/c/c_api.cc:503-536 | For every buffer, written by an encoder or not: decoding gives certain strings iff each of them stands, behind a varint of its length, where the signed entry of the table points to |
| StringTensor.SignedIs | tensorflow/c/c_api.cc:523-524 | A loaded word and its signed value are equal modulo 2^64 |
| GoValues.ShapeAndDataTypeOf | tensorflow/go/tensor.go:238-257 | The lengths along first elements, zero below an empty one, and the element kind |
| GoValues.EmptyBelowEmpty | tensorflow/go/tensor.go:238-257 | Below a dimension of length zero all are zero |
| GoValues.FirstShapeDecides | tensorflow/go/tensor.go:69-71 | A value is rectangular for some shape iff it is for that one |
| GoValues.FirstShapeFitsType | tensorflow/go/tensor.go:318-325 | Array lengths need no check |
| GoValues.NumElements | tensorflow/go/tensor.go:277-283 | The product of the dimensions |
| GoValues.LeafCount | tensorflow/go/tensor.go:277-283 | A rectangular value has that many leaves |
| GoValues.FlattenRoundTrip | tensorflow/go/tensor.go:351-386 | Leaves and shape determine a rectangular value |
| GoValues.FlattenIsRowMajor | tensorflow/go/tensor.go:335-341 | The leaf at a multi-index stands at its row-major position |
| GoTensor.BulkWrite | tensorflow/go/tensor.go:327-333 | The bulk path writes the bytes of the elements one after another |
| GoTensor.EncodeTensor | tensorflow/go/tensor.go:302-347 | Succeeds iff the value is rectangular, and appends the bytes of its leaves in row-major order, which BoolByte and NumberByte give one by one |
| GoTensor.BoolByte | tensorflow/go/tensor.go:302-317 | A bool is the byte 1 or 0 at its row-major position |
| GoTensor.NumberByte | tensorflow/go/tensor.go:302-347 | Each byte of each word of each element is the right base-256 digit, at the position that row-major order, word size and byte order give |
| GoTensor.BulkRead | tensorflow/go/tensor.go:368-373 | The bulk path reads what the element path reads |
| GoTensor.DecodeTensor | tensorflow/go/tensor.go:351-386 | Succeeds iff enough bytes are left, consumes exactly those, and rebuilds the value |
| GoTensor.DecodedElement | tensorflow/go/tensor.go:351-386 | For all bytes: the element at a multi-index is the only one whose encoding stands at its row-major position; a bool is true iff its byte is 1 |
| GoTensor.NumbersRoundTrip | tensorflow/go/tensor.go:302-386 | A rectangular value takes element size times element count bytes, which decode to it |
| GoStrings.ByteSizeOfEncodedStrings | tensorflow/go/tensor.go:285-298 | Exactly the bytes of the encoded strings |
| GoStrings.StringEncoder.constructor | tensorflow/go/tensor.go:104 | Nothing written yet |
| GoStrings.StringEncoder.EncodeText | tensorflow/go/tensor.go:396-411 | The string always fits; offset and bytes are appended |
| GoStrings.StringEncoder.Encode | tensorflow/go/tensor.go:395-426 | Succeeds iff the value is rectangular; then all its strings are appended in row-major order |
| GoStrings.StringDecoder.DecodeText | tensorflow/go/tensor.go:435-456 | Succeeds iff the entry is sound |
| GoStrings.StringDecoder.Decode | tensorflow/go/tensor.go:434-465 | Succeeds iff all entries of the shape are sound, and rebuilds the value |
| GoStrings.EntryIff | tensorflow/go/tensor.go:435-456 | For all bytes: an entry gives a string iff its unsigned offset lies in the data and there, behind a varint of its length, which fits 31 bits, stands the string |
| GoStrings.StringsInteroperate | tensorflow/go/tensor.go:388-465 | For every rectangular nested value the computed size is filled exactly, and both the Go and the C decoder recover it in row-major order |
| GoNewTensor.NewTensor | tensorflow/go/tensor.go:72-113 | Unsupported types and values that are not rectangular are errors, too many bytes panic, everything else succeeds with exactly the specified bytes |
| GoNewTensor.TensorBytes | tensorflow/go/tensor.go:96-102 | Every byte of a tensor of bools or numbers, by multi-index, word and byte |
| GoNewTensor.TooManyBytes | tensorflow/go/tensor.go:203-212 | A rectangular value of a supported type that takes too many bytes |
| GoNewTensor.NewNumberTensor | tensorflow/go/tensor.go:96-102 | The size check never fires |
| GoNewTensor.NewStringTensor | tensorflow/go/tensor.go:103-111 | The offset check never fires |
| GoNewTensor.ValueOfTensor | tensorflow/go/tensor.go:170-186 | The value the bytes stand for, or a panic |
| GoNewTensor.NewTensorRoundTrip | tensorflow/go/tensor.go:72-186 | Value gives back what NewTensor was given, and C reads the same strings |
| SessionExtension.NextKeepsInv | tensorflow/c/c_api.cc:754-806 | Every step of every call keeps the invariant on locks, shipped nodes and names |
| SessionExtension.SessionHoldsPrefix | tensorflow/c/c_api.cc:754-806 | In every interleaving a session whose lock is free was sent exactly the live ops with id below last_num_graph_nodes, each once |
| SessionExtension.ExtensionCatchesUp | tensorflow/c/c_api.cc:768-800 | A successful extension has sent every op that was in the graph when it looked |
| SessionExtension.ExtensionSucceedsIff | tensorflow/c/c_api.cc:754-806 | An extension returns true iff nothing was new when it held both locks, or the graph had no cycle and Session::Extend succeeded; then the session stays ahead of what it saw |
| SessionExtension.AdditionSucceedsIff | tensorflow/c/c_api.cc:1453-1492 | An addition returns a node iff no node had its name when it held the graph lock and neither Finalize nor the shape refiner objected; the node is then in the graph under that name, for good |
| SessionExtension.NamesAreUnique | tensorflow/c/c_api.cc:1453-1492 | Outside additions two live nodes never share a name, failed additions included |
| SessionExtension.GraphLockReleasedOnce | tensorflow/c/c_api.cc:754-806 | Every call releases the graph lock exactly once on every path |
| SessionExtension.NoDeadlock | tensorflow/c/c_api.cc:756-759 | While a call is unfinished, some call can act |
| GraphLifetime.GraphIsFreedOnce | tensorflow/c/c_api.cc:2661-2674 | On the calls made: the graph is freed at most once, after TF_DeleteGraph, and never while a session that was created is not deleted; exactly when it is to be deleted and unused one call is chosen to free it, and nobody touches it afterwards |
| GraphLifetime.GraphIsFreedInTheEnd | tensorflow/c/c_api.cc:1944-1951 | Once all calls have returned it was freed exactly once if TF_DeleteGraph was called and every session created was deleted, and otherwise not at all |
| GraphLifetime.NoDeadlock | tensorflow/c/c_api.cc:2577-2592 | While a call is unfinished, some call can act |
| GoSession.NextKeepsInv | tensorflow/go/session.go:133-158 | Every step of every call keeps the invariant on mutex, WaitGroup, handle and deletions |
| GoSession.SessionIsSafe | tensorflow/go/session.go:133-158 | In every interleaving no C call has a deleted or nil session, it is deleted at most once, and no Add races with a Wait |
| GoSession.RunsIffOpen | tensorflow/go/session.go:133-158 | A run is refused iff a Close had deleted the session when it held the mutex, and otherwise calls C with a live session |
| GoSession.ClosesOnce | tensorflow/go/session.go:271-286 | A Close returns at once iff the session was deleted when it held the mutex, and otherwise what TF_CloseSession reported; after every Close that returns without an error the session is closed and deleted once |
| GoSession.SuccessDeletes | tensorflow/go/session.go:279-285 | A Close whose TF_CloseSession succeeds returns without an error and has deleted the session |
| GoSession.WaitingClose | tensorflow/go/session.go:271-286 | While a Close waits, runs in flight need no lock, no step adds work or takes the wait away, and without work it goes on |
| GoSession.CloseCanProceed | tensorflow/go/session.go:271-286 | From every such state a bounded number of steps lets the Close go on |
| GoSession.NoDeadlock | tensorflow/go/session.go:39-47 | While a call is unfinished, some call can act |

## Left out

- Partitioner.PartitionImpl.Place: states the boundary lists up to order and repetition, since they are sorted and made unique afterwards.
- Partitioner.Uniquefy: std::sort is modelled by insertion sort and specified by the elements only, since duplicates are dropped right after.
- MemoryArena.SimpleMemoryArena.Allocate: sizes are unbounded integers; the wrap-around of size_t is not modelled.
- Ops that update variable tensors; variables only keep their memory.
- FunctionConversion.FillFunctionBody: does not model devices, attributes, placeholder attributes, statefulness and the back edges of requested_inputs, which add easy fields or loops outside the evaluation model.
- FunctionConversion.DataInputs: does not model the back edges of requested_inputs; a missing edge is an error.
- FunctionConversion.GraphToFunctionDef: does not model argument types, control outputs, hashed function names and failures of NameRangesForNode; output arguments are taken as consecutive ranges.
- FunctionConversion.GraphToFunction: does not model function names with hashes, descriptions and control outputs.
- FunctionConversion.RecordOutputs: visits the output ranges in argument order; the order of the hash map does not matter because the keys differ.
- StringTensor.TensorFromTensor: leaves out the other element types, which share or copy the buffer, and element counts beyond a 32-bit loop counter.
- StringTensor.LayoutSize: the premise is that the sum does not wrap around.
- GoValues.NumElements: the product is unbounded; 64-bit wrap-around is not modelled.
- GoStrings.ByteSizeOfEncodedStrings: element types are the predeclared ones; a type declared as a string panics in the type assertions of the code, which is not modelled.
- GoNewTensor.NewTensor: the same holds of declared string types; the premise is that the encoded strings take less than 2^64 bytes.
- GoStrings.StringDecoder.DecodeText: a string that reaches past the data counts as a failure; the code would copy what lies there.
- GoStrings.StringDecoder.Decode: the same, and errors and panics are not told apart.
- GoNewTensor.ValueOfTensor: the same, for buffers that no encoder wrote.
- GoTensor.DecodeTensor: takes the element kind and shape that typeOf turns into a type; reflection itself is not modelled.
- SessionExtension.SessionHoldsPrefix: sessions loaded from a saved model, session deletion, the mutation warnings and TF_GraphImportGraphDef, which also adds nodes under the graph lock, are not part of this state machine; whether a graph has a cycle and what Session::Extend, Finalize and the shape refiner answer is arbitrary, call by call, and a failed Extend ships nothing.
- GraphLifetime.GraphIsFreedOnce: the premise is that no session is created once TF_DeleteGraph is called, that a session is deleted once, after its creation, and that no two sessions are the same; a TF_NewSession that fails touches no graph and is left out.
- GoSession.SessionIsSafe: C calls are taken to return; ListDevices takes no part in the protocol and is left out.
