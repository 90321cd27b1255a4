# Verified model of the Snitch cluster software

This project models the parts of the Snitch cluster repository whose correctness is hardest to
see from the code, and proves what they are for:

- the trace tool's emulation of nested zero-overhead (FREP) loops,
- the stream registers (SSR and SSSR) as an affine address generator,
- the indirect-stream star stencil, against the plain parallel kernel,
- the barriers and reductions among cores and clusters, under every interleaving,
- the data mover service: a ring of transfers, a sleep and wake handshake, a status channel, and when the
  calls of a client return,
- the trace tool's matching of DMA bursts to transfers,
- the small printf, against section 7.21.6.1 of ISO/IEC 9899:2011,
- the replicated bump allocator.

`dafny verify dfyconfig.toml` checks the whole project.

## How the model is built

Each module follows one component.  Code that works in place is a class, a method over arrays or
a method with a loop, proved against a specification function; the theorems are about that
function.  Concurrent code is a step relation: a step is one access to shared memory, to an
interrupt flag or to the DMA, and theorems quantify over all runs.

| module | component |
|---|---|
| `LoopNest`, `NestPosition`, `SequencerEmulation` | `util/trace/sequencer.py` |
| `SsrStreams` | `sw/runtime/src/ssr.h`, `sw/saris/runtime/sssr.h` |
| `StarStencil`, `StencilKernels`, `StencilCluster` | `sw/saris/stencils` |
| `GlobalBarrier`, `PartialBarrier`, `TreeReduction`, `TreeRace`, `AllToAllReduction` | `sw/runtime/src/sync.h` |
| `DataMover`, `DataMoverProgress`, `DataMoverWait` | `sw/runtime/src/dm.h` |
| `DmaMetrics`, `DmaHistory`, `DmaAnalyser` | `util/trace/gen_trace.py` |
| `IntegerText`, `IsoInteger`, `Printf`, `FormatGrammar`, `IsoFormat`, `IsoOutput` | `sw/deps/printf/printf.c` |
| `BumpAllocator` | `sw/runtime/src/alloc.h`, `sw/runtime/src/alloc_v2.h` |
| `Arithmetic`, `Counting`, `Wrappers` | shared notions |

### Where the code does less than it promises

Several laws one expects are false of the code.  Each has a concrete counterexample and an
if-and-only-if that says when the law holds.

- A nested FREP loop that begins on its parent's first instruction is not entered again in the
  parent's later iterations.  The emulated stream is the unrolled program exactly for nests
  without such a loop (`LoopNest.IssuesRightStreamIffReentrant`, `LoopNest.ReentryCounterexample`).
  The end of a trace is silent about the lost issues (`SequencerEmulation.SilenceIffReentrant`).
- The number of issues printed beside an FREP is right exactly when no nested loop repeats
  (`LoopNest.AnnotationIsIssueCountIffSinglePass`, `LoopNest.AnnotationCounterexample`).
- The tree reduction separates a level's additions from the next level's transfers by a barrier
  within one cluster only.  It is right in every run exactly for at most two clusters
  (`TreeRace.EveryRunSumsIffTwoClusters`, `TreeRace.RaceLosesData`).  Even with that order it is right
  for all buffers exactly when the number of clusters is a power of two, because a receiver without
  a sender adds what its destination buffer holds (`TreeReduction.OrderedSumsIffPowerOfTwo`,
  `TreeReduction.ThreeClusters`).
- The all-to-all reduction never resets its accumulators: the result is the sum exactly when they
  cancel out before the call, and after a call that returned r each of them holds r
  (`AllToAllReduction.EveryCoreReturnsSum`, `AllToAllReduction.NextCallReturns`,
  `AllToAllReduction.SecondCallExample`).
- A client of the data mover sees room in the ring before it takes the lock.  With two clients a
  task can be overwritten; the order is kept in every run exactly with one client
  (`DataMover.InOrderIffOneClient`, `DataMover.TwoClientsLoseATask`).
- A copy blocks while the queue is full, but queued transfers start only with a later call.  A sole
  client inside a call is stuck exactly when it waits for room while the DM core sleeps
  (`DataMoverProgress.StuckIffFullAndAsleep`, `DataMoverProgress.FifthCopyIsStuck`), and its call can return
  exactly when the DM core has not turned to sleep over a full queue (`DataMoverWait.CallReturnsIff`).
- Rotating start offsets keep the 2x2 blocks aligned, and inside the interior, exactly when the core
  count on an axis is even (`StencilCluster.RotationKeepsBlocksIffEven`,
  `StencilCluster.BlocksInsideIffEven`, `StencilCluster.RotationCounterexample`); 16-bit index tables are
  exact exactly when the largest index fits (`StencilKernels.IndicesExactIffFit`,
  `StencilKernels.IndexCounterexample`).
- After a transfer of no bytes the DMA analyser reports no further transfer
  (`DmaMetrics.ReportedIff`, `DmaMetrics.EmptyTransferExample`).
- printf departs from the C standard in the `#` flag, in left justification with a precision, in
  negative precision arguments, in negative `char` arguments and where the digit buffer is full;
  it prints the standard's text exactly under a stated condition (`IsoFormat.IntegerMeetsIsoIff`, with
  `IsoInteger.PrefixExample`, `IsoInteger.OctalExample`, `IsoFormat.ZeroExample`,
  `IsoFormat.NegativePrecisionExample`, `IsoFormat.LostZerosExample`, `IsoFormat.NegativeCharExample`).
- The allocator's bounds check does not see sums that wrap around; untrapped regions are in order
  exactly when none does (`BumpAllocator.RegionsInOrderIff`, `BumpAllocator.WrapExample`).

### Assumptions about the hardware

- Memory is sequentially consistent, and setting or clearing an interrupt flag is one step; `wfi`
  returns only when the flag is set.
- The hardware barrier of a cluster releases a core when every core of the cluster has arrived.
- A stream's pointer adds, after each access, the stride register of the lowest loop that does not
  wrap around.
- A DMA transfer of the tree reduction is one step, because the sender waits for it.
- The backend answers bursts in order.

## Model

| member | source | states |
|---|---|---|
| `LoopNest.IssuesRightStreamIffReentrant` | util/trace/sequencer.py:78-188 | for every well-formed nest, the emulated issues with their loop coordinates equal the recursive unrolling if and only if every nested loop that can be reached again starts behind its parent's first instruction |
| `LoopNest.IssuesRightInstructionsIffLossless` | util/trace/sequencer.py:132-138 | the right instructions, whatever the reported coordinates, are issued if and only if no repeated loop is skipped; the number of issues is right under the same condition |
| `LoopNest.SequencedIsNoLonger` | util/trace/sequencer.py:132-180 | the emulation never issues more than the unrolling, and strictly less once a repeating loop is not entered again |
| `LoopNest.ReentryCounterexample` | util/trace/sequencer.py:136-138 | two iterations of a loop that holds only a two-iteration loop lose one of four issues |
| `LoopNest.AnnotationIsIssueCountIffSinglePass` | util/trace/sequencer.py:62-64 | the annotated number of issues is the length of the unrolling if and only if nested loops run once |
| `LoopNest.AnnotationCounterexample` | util/trace/sequencer.py:62-64 | two iterations of a loop that holds only a two-iteration loop are annotated with two of their four issues |
| `NestPosition.ProgramRightIffReentrant` | util/trace/sequencer.py:78-188 | the same equivalence for whole programs of nests and pass-through instructions |
| `NestPosition.ProgramIsNoLonger` | util/trace/sequencer.py:78-188 | a program is never issued at greater length than its unrolling |
| `NestPosition.ProgramLosslessIff` | util/trace/sequencer.py:78-188 | as much is issued as the program means if and only if no nest loses an issue |
| `NestPosition.NextFrep` | util/trace/sequencer.py:85-92 | the next FREP to be popped stands at the base of the next level, behind plain instructions only |
| `NestPosition.LevelFacts` | util/trace/sequencer.py:85-92 | every level of a nest is a contiguous part of the queued body, at its base pointer |
| `NestPosition.RemainingStep` | util/trace/sequencer.py:109-111 | a plain step of a loop issues exactly the first instruction of what it still owes |
| `NestPosition.RemainingEnter` | util/trace/sequencer.py:121-128 | at the start of a nested loop, what is owed is the whole nested loop and then the rest of the parent |
| `NestPosition.RemainingWrap` | util/trace/sequencer.py:131-143 | at the end of a body, what is owed is the next iteration, or nothing after the last |
| `SequencerEmulation.Sequencer.constructor` | util/trace/sequencer.py:10-28 | an empty sequencer is valid for any well-formed program |
| `SequencerEmulation.Sequencer.PushInsn` | util/trace/sequencer.py:31-47 | queueing the next instruction keeps the invariant and changes no issue made or owed, however far ahead of the issues it runs |
| `SequencerEmulation.Sequencer.DecodeFrep` | util/trace/sequencer.py:49-66 | decoding completes the configuration of the last announced loop and returns that loop's pc and annotated issue count |
| `SequencerEmulation.Sequencer.PopFreps` | util/trace/sequencer.py:85-92 | all FREPs at the read pointer are entered, and an instruction is next |
| `SequencerEmulation.Sequencer.EnterFrep` | util/trace/sequencer.py:86-90 | entering one loop keeps the invariant and what is still owed |
| `SequencerEmulation.Sequencer.Emulate` | util/trace/sequencer.py:78-188 | the n-th call returns the n-th issue of the program, instruction and loop coordinates, for any interleaving with pushes and decodes |
| `SequencerEmulation.Sequencer.IssueInNest` | util/trace/sequencer.py:95-180 | an issue inside a nest keeps the invariant, also when the nest ends and leaves the queue |
| `SequencerEmulation.Sequencer.IssuePassThrough` | util/trace/sequencer.py:182-185 | an issue outside any loop removes that instruction and keeps the invariant |
| `SequencerEmulation.Sequencer.Terminate` | util/trace/sequencer.py:190-200 | no warning if and only if the pushed instructions are whole items of the program and all issues that the emulation makes of them were made; then all issues of the unrolled program were made if and only if no nest loses any |
| `SequencerEmulation.SilenceIffReentrant` | util/trace/sequencer.py:190-200 | after a silent end the issues are those of the unrolled program, coordinates included, if and only if every nest is reentrant, and as many if and only if none loses an issue |
| `SequencerEmulation.TerminatesIffAllIssued` | util/trace/sequencer.py:190-200 | empty loop and instruction queues mean that everything pushed was issued as often as the emulation issues it, and conversely |
| `SequencerEmulation.StepNest` | util/trace/sequencer.py:107-180 | one step inside a nest consumes exactly the next issue that the nest owes, in all of its branches |
| `SequencerEmulation.StepForward` | util/trace/sequencer.py:109-128 | a step to the next instruction, also into nested loops |
| `SequencerEmulation.Advance` | util/trace/sequencer.py:113-119 | the instruction index propagates to exactly those outer loops that a chain of last iterations makes follow, so that every counter stays the true coordinate |
| `SequencerEmulation.EnterReached` | util/trace/sequencer.py:121-128 | activating the loops whose base is the read pointer changes nothing that is owed |
| `SequencerEmulation.StepOut` | util/trace/sequencer.py:131-151 | the last instruction of the last iteration leaves what the outer loops owe |
| `SequencerEmulation.LeaveLoops` | util/trace/sequencer.py:142-151 | leaving ends at the innermost loop that is not finished, all left ones reset |
| `SequencerEmulation.ResumeOuter` | util/trace/sequencer.py:164-174 | the loop moved to goes on behind the nested one |
| `SequencerEmulation.DropNest` | util/trace/sequencer.py:153-160 | a finished nest leaves exactly its instructions and loop configurations behind it |
| `SequencerEmulation.PushKeepsQueued` | util/trace/sequencer.py:31-47 | a push does not change what the sequencer will issue |
| `SequencerEmulation.DecodeKeepsQueued` | util/trace/sequencer.py:49-53 | neither does decoding, which reaches the right loop |
| `SsrStreams.Generate` | sw/runtime/src/ssr.h:9-16 | a generator that adds the programmed delta strides visits exactly the addresses of the documented affine nest modulo 2^32, in order |
| `SsrStreams.Advance` | sw/runtime/src/ssr.h:9-16 | one step moves to the next index tuple and to its address, and detects the last access |
| `SsrStreams.NestOffsetAtRank` | sw/runtime/src/ssr.h:9-16 | the recursive nest accesses, at the rank of an index tuple, the sum of index times stride |
| `SsrStreams.BumpedStep` | sw/runtime/src/ssr.h:9-16 | bumping the lowest loop that does not wrap is one access further and moves by its stride minus the span of the loops below |
| `SsrStreams.Accumulate` | sw/runtime/src/ssr.h:238-258 | the running accumulator is the span of the loops below, modulo 2^32 |
| `SsrStreams.SsrConfig.Loop1d` | sw/runtime/src/ssr.h:168-175 | programs the one-dimensional nest and no other register |
| `SsrStreams.SsrConfig.Loop2d` | sw/runtime/src/ssr.h:185-196 | programs the two-dimensional nest and no other register |
| `SsrStreams.SsrConfig.Loop3d` | sw/runtime/src/ssr.h:208-224 | programs the three-dimensional nest and no other register |
| `SsrStreams.SsrConfig.Loop4d` | sw/runtime/src/ssr.h:238-258 | programs the four-dimensional nest |
| `SsrStreams.SsrConfig.BoundStride1d` | sw/saris/runtime/sssr.h:124-131 | programs the same one-dimensional stream as its counterpart |
| `SsrStreams.SsrConfig.BoundStride2d` | sw/saris/runtime/sssr.h:133-145 | programs the same two-dimensional stream as its counterpart |
| `SsrStreams.SsrConfig.BoundStride3d` | sw/saris/runtime/sssr.h:147-163 | programs the same three-dimensional stream as its counterpart |
| `SsrStreams.SsrConfig.BoundStride4d` | sw/saris/runtime/sssr.h:165-185 | programs the same four-dimensional stream as its counterpart |
| `StarStencil.PlainPoint` | sw/saris/stencils/istc.par.hpp:105-112 | the accumulation loop computes the star stencil of one cell: the centre coefficient times the cell, plus each arm coefficient times the cell at its distance and in its direction |
| `StarStencil.StarIsWeighted` | sw/saris/stencils/istc.par.hpp:105-112 | the stencil that both kernels are measured against is the sum of products of coefficients and cells, in rows and columns of the grid |
| `StarStencil.CentreOnly` | sw/saris/stencils/istc.par.hpp:105-112 | with centre coefficient one and no other, the stencil of a cell is the cell |
| `StarStencil.SingleOnly` | sw/saris/stencils/istc.par.hpp:105-112 | with a single arm coefficient of one, it is the neighbour at that distance in that direction |
| `StarStencil.StarIsLinear` | sw/saris/stencils/istc.par.hpp:105-112 | it is additive in the coefficients, and scaling them scales it |
| `StarStencil.StepIsStepped` | sw/saris/stencils/istc.par.hpp:102-114 | one step puts that sum of products in every cell at least a radius away from the edges and keeps the other cells |
| `StarStencil.DotIsArms` | sw/saris/stencils/istc.issr.hpp:424-444 | the sum in the order of the index and coefficient tables is the sum over the arms of the star |
| `StencilKernels.FillIndices` | sw/saris/stencils/istc.issr.hpp:416-433 | the two index tables hold, for every point of the star, the 16-bit offsets of the four cells of a block |
| `StencilKernels.FillCoefs` | sw/saris/stencils/istc.issr.hpp:436-444 | the coefficient table is in the order of the index tables |
| `StencilKernels.CoefStream` | sw/saris/stencils/istc.issr.hpp:445-450 | the programmed stream runs over the coefficient table as often as the row bound says |
| `StencilKernels.CoefStreamDelivers` | sw/saris/stencils/istc.issr.hpp:436-450 | with its repetition it delivers each coefficient four times, table after table |
| `StencilKernels.RowStreamDelivers` | sw/saris/stencils/istc.issr.hpp:450-466 | every coefficient read of every block of a row is inside the stream with the programmed row bound, and is the coefficient of its point |
| `StencilKernels.IndicesExactIffFit` | sw/saris/stencils/istc.issr.hpp:421-434 | all four entries of both tables are exact for every point if and only if the largest index fits 16 bits |
| `StencilKernels.IndexCounterexample` | sw/saris/stencils/istc.issr.hpp:421-434 | with radius 1 and 21846 columns an index is stored wrong |
| `StencilKernels.Products` | sw/saris/stencils/istc.issr.hpp:457-466 | one round of the four instructions multiplies the right coefficient with the right cell of each of the four outputs |
| `StencilKernels.Block` | sw/saris/stencils/istc.issr.hpp:455-466 | the four accumulators of the FREP body end as the stencil of the four cells, and the streams are consumed exactly |
| `StencilKernels.WriteBlock` | sw/saris/stencils/istc.issr.hpp:467-473 | the write-back stores the four stencils in their cells and changes no other cell |
| `StencilKernels.OneBlock` | sw/saris/stencils/istc.issr.hpp:452-476 | one iteration writes the stencil of exactly one block |
| `StencilKernels.RowPass` | sw/saris/stencils/istc.issr.hpp:450-476 | the column loop of one core writes exactly its blocks of that row pair |
| `StencilKernels.RowBoundIsIterations` | sw/saris/stencils/istc.issr.hpp:449-452 | the programmed row bound equals the number of column iterations |
| `StencilCluster.RotationKeepsBlocksIffEven` | sw/saris/stencils/istc.issr.hpp:477-479 | rotated offsets are block-aligned in every step if and only if the core count is even |
| `StencilCluster.BlocksInsideIffEven` | sw/saris/stencils/istc.issr.hpp:449-479 | every block visited after any number of rotations is inside the interior if and only if the core count is even |
| `StencilCluster.OddCoresOverhang` | sw/saris/stencils/istc.issr.hpp:477-479 | with an odd core count some core's block reaches out of the interior after one rotation |
| `StencilCluster.RotationCounterexample` | sw/saris/stencils/istc.issr.hpp:477-477 | with three cores the first one starts at offset 3 after one rotation |
| `StencilCluster.TiledExactlyOnce` | sw/saris/stencils/istc.common.hpp:51-66 | in every time step every interior cell belongs to exactly one core, whatever the rotations of the core rows |
| `StencilCluster.InitialOffsets` | sw/saris/stencils/istc.common.hpp:59-66 | the initial offsets are those of the core identifiers, not yet rotated |
| `StencilCluster.OneRow` | sw/saris/stencils/istc.issr.hpp:449-478 | one row pair of one core, then the next column offset |
| `StencilCluster.IssrCoreStep` | sw/saris/stencils/istc.issr.hpp:449-479 | one time step of one core writes the stencil of exactly the cells it owns |
| `StencilCluster.IssrStep` | sw/saris/stencils/istc.issr.hpp:448-481 | one time step of all cores, in any order, puts the sum of products of coefficients and source cells in every interior cell and keeps the border |
| `StencilCluster.IssrKernel` | sw/saris/stencils/istc.issr.hpp:406-483 | for every even grid size, radius, number of steps and core order, the kernel evolves both grids by the stencil step |
| `StencilCluster.PlainRow` | sw/saris/stencils/istc.par.hpp:104-113 | one row of one core of the plain kernel |
| `StencilCluster.PlainCoreStep` | sw/saris/stencils/istc.par.hpp:101-114 | one time step of one core of the plain kernel writes exactly the cells it owns |
| `StencilCluster.ParStep` | sw/saris/stencils/istc.par.hpp:102-115 | one time step of all cores, in any order, puts the sum of products of coefficients and source cells in every interior cell and keeps the border |
| `StencilCluster.ParKernel` | sw/saris/stencils/istc.par.hpp:97-117 | the plain kernel evolves both grids by the stencil step |
| `StencilCluster.EvolvedStep` | sw/saris/stencils/istc.par.hpp:97-117 | step t of the evolution reads the grid t % 2, keeps it, and puts the sums of products in the other one |
| `StencilCluster.BothKernels` | sw/saris/stencils/istc.issr.hpp:406-483 | started on equal grids, the indirect-stream and the plain kernel leave equal grids, with different core arrangements and orders |
| `GlobalBarrier.RunInv` | sw/runtime/src/sync.h:184-226 | the counter is the number of clusters that arrived in the current round, at most one core resets or wakes, and hardware barrier crossings stay in step, in every reachable state |
| `GlobalBarrier.SoftwareBarrierSafe` | sw/runtime/src/sync.h:184-205 | no cluster leaves round r before every cluster has arrived in round r |
| `GlobalBarrier.GlobalBarrierSafe` | sw/runtime/src/sync.h:217-226 | no core, compute or DM, leaves its r-th global barrier before every compute core and DM core of every cluster has entered its r-th |
| `GlobalBarrier.WakeUpsMatchRounds` | sw/runtime/src/sync.h:132-205 | once all have arrived a sleeping cluster is interrupted or about to be, and an interrupt is pending only for a cluster that has not left its completed round, so none is lost or carried over |
| `GlobalBarrier.NoDeadlock` | sw/runtime/src/sync.h:184-226 | while every core is inside the barrier, some core can take a step |
| `GlobalBarrier.AlwaysSomeStep` | sw/runtime/src/sync.h:184-226 | in every reachable state some core can step, so every run can be carried on |
| `GlobalBarrier.RoundsComplete` | sw/runtime/src/sync.h:184-226 | every run of enough steps, whatever the schedule, brings every compute core and DM core of every cluster out of r global barriers; the number of steps is explicit in r, the clusters and their cores |
| `PartialBarrier.RunInv` | sw/runtime/src/sync.h:235-249 | the counter, the wrapping iteration word and each hart's remembered iteration agree with the unbounded round numbers in every reachable state |
| `PartialBarrier.PartialBarrierSafe` | sw/runtime/src/sync.h:235-249 | no hart leaves a round before all n have entered it, rounds differ by at most one, and the counter never exceeds n |
| `PartialBarrier.PollSeesExactlyTheRelease` | sw/runtime/src/sync.h:244-247 | a polling hart sees a change if and only if its round was released, across the 32-bit wrap-around |
| `PartialBarrier.NoDeadlock` | sw/runtime/src/sync.h:235-249 | while every hart is inside, some hart can take a step that changes the state |
| `PartialBarrier.AlwaysSomeStep` | sw/runtime/src/sync.h:235-249 | in every reachable state some hart can take a step that is not futile polling |
| `PartialBarrier.RoundsComplete` | sw/runtime/src/sync.h:235-249 | every run of more than n(6r + 5) steps that are not futile polling, whatever the schedule, brings every hart out of r rounds |
| `TreeReduction.AddBuffers` | sw/runtime/src/sync.h:342-355 | the compute cores' parts add the destination to the source buffer, all of it when the length is divisible by the core count, and otherwise all but the remainder |
| `TreeReduction.AddPart` | sw/runtime/src/sync.h:345-354 | one core adds exactly its part |
| `TreeReduction.HeldIsSum` | sw/runtime/src/sync.h:304-362 | what the tree computes for a subtree inside the communicator is the element-wise sum of its clusters |
| `TreeReduction.RunInv` | sw/runtime/src/sync.h:304-362 | in ordered runs, for any number of clusters and any buffers, every source and destination buffer is what the tree computes at its cluster's progress |
| `TreeReduction.OrderedRunsSum` | sw/runtime/src/sync.h:304-362 | when each level's additions end before the next level's transfers, every cluster still active at level l whose 2^l clusters exist holds their sum, and with a power of two of clusters cluster 0 ends with the sum of all |
| `TreeReduction.OrderedRunsHold` | sw/runtime/src/sync.h:304-362 | for any number of clusters cluster 0 ends ordered runs with what the tree computes, stale destination buffers included |
| `TreeReduction.OrderedSumsIffPowerOfTwo` | sw/runtime/src/sync.h:318-362 | every ordered run from every initial state ends with the sum if and only if the number of clusters is a power of two |
| `TreeReduction.SendersExistIffPowerOfTwo` | sw/runtime/src/sync.h:318-337 | every receiver has a sender at every level if and only if the number of clusters is a power of two |
| `TreeReduction.ThreeClusters` | sw/runtime/src/sync.h:318-355 | with three clusters, cluster 2 has no sender and an ordered run ends with a wrong sum |
| `TreeReduction.Completion` | sw/runtime/src/sync.h:304-362 | every run, ordered or not, can be completed |
| `TreeRace.RaceLosesData` | sw/runtime/src/sync.h:357-359 | with three or more clusters a run exists in which a next-level transfer overwrites a buffer that was not added yet |
| `TreeRace.LostForever` | sw/runtime/src/sync.h:304-362 | data lost that way never reaches cluster 0, however the run goes on |
| `TreeRace.TwoClustersAreOrdered` | sw/runtime/src/sync.h:340-359 | with at most one level every run is ordered |
| `TreeRace.EveryRunSumsIffTwoClusters` | sw/runtime/src/sync.h:304-362 | for every number of clusters, the result is right in every run from every initial state if and only if there are at most two |
| `AllToAllReduction.RunInv` | sw/runtime/src/sync.h:265-283 | the accumulators hold the initial values and the values added or published so far, in every reachable state |
| `AllToAllReduction.EveryCoreReturnsSum` | sw/runtime/src/sync.h:265-283 | every core in every interleaving returns the values plus the accumulators' contents before the call, modulo 2^32: the sum of the values if and only if those contents cancel out |
| `AllToAllReduction.SomeCoreSteps` | sw/runtime/src/sync.h:265-283 | some core can step if and only if not all have returned |
| `AllToAllReduction.EveryRunCompletes` | sw/runtime/src/sync.h:265-283 | every interleaving has at most seven steps for each core, and cannot be carried on if and only if every core has returned |
| `AllToAllReduction.AccumulatorsKeepResult` | sw/runtime/src/sync.h:265-283 | when a call is done, the global and every cluster accumulator hold its result |
| `AllToAllReduction.NextCallReturns` | sw/runtime/src/sync.h:265-283 | a call after one that returned r, among n clusters, returns (n + 1) * r plus its values modulo 2^32: their sum if and only if (n + 1) * r cancels out |
| `AllToAllReduction.SecondCallExample` | sw/runtime/src/sync.h:265-283 | from cleared accumulators a core that adds 1 twice gets 1 and then 3 |
| `DataMover.RunInv` | sw/runtime/src/dm.h:174-370 | lock, fill count and wake-up invariants of every reachable state, for any number of clients |
| `DataMover.FillIsBounded` | sw/runtime/src/dm.h:268-272 | with P clients the fill count never exceeds the queue size by more than P - 1 |
| `DataMover.MutualExclusion` | sw/runtime/src/dm.h:261-370 | no two clients are inside the critical sections |
| `DataMover.NoLostWakeUp` | sw/runtime/src/dm.h:132-143 | when the DM core sleeps with no interrupt pending, no request is left whose client has woken it since |
| `DataMover.SoleRunInv` | sw/runtime/src/dm.h:174-370 | with one client the ring holds exactly the tasks submitted and not issued, in order, and the status channel is in step, in every reachable state |
| `DataMover.IssuesInSubmissionOrder` | sw/runtime/src/dm.h:183-333 | with one client issued tasks are a prefix of the submitted ones, and no slot with a live task is written |
| `DataMover.WaitReturnsWhenIdle` | sw/runtime/src/dm.h:345-370 | when the wait of a sole client returns, all its tasks were issued, the DMA was seen idle after the last, and it is idle |
| `DataMover.TwoClientsLoseATask` | sw/runtime/src/dm.h:268-283 | with two clients a run exists in which issued tasks are no prefix of submitted ones |
| `DataMover.InOrderIffOneClient` | sw/runtime/src/dm.h:261-333 | tasks are issued in order in every run if and only if there is one client |
| `DataMoverProgress.ProgressRunInv` | sw/runtime/src/dm.h:132-370 | sleep count, status words and wake-ups of a sole client agree in every reachable state |
| `DataMoverProgress.StuckIffFullAndAsleep` | sw/runtime/src/dm.h:174-370 | in every reachable state, a sole client inside a call and the DM core can both do nothing if and only if the client waits for room in a full queue and the DM core sleeps |
| `DataMoverProgress.StuckForever` | sw/runtime/src/dm.h:268-272 | no further action ends that state |
| `DataMoverProgress.FifthCopyIsStuck` | sw/runtime/src/dm.h:251-272 | after the DM core has fallen asleep, a fifth copy without a start never returns |
| `DataMoverWait.ReachableIsSound` | sw/runtime/src/dm.h:132-370 | all invariants together in every reachable state with a sole client |
| `DataMoverWait.TurnWorks` | sw/runtime/src/dm.h:174-248 | every turn of the DM core, or of a DMA that it waits for, brings it nearer to serving a task, to its answer or to its sleep |
| `DataMoverWait.Settle` | sw/runtime/src/dm.h:174-248 | left to itself the DM core comes to rest, whatever the queue, the status request and the interrupt |
| `DataMoverWait.CallReturnsIff` | sw/runtime/src/dm.h:251-370 | in every reachable state some continuation without another call returns from the call if and only if the client does not poll a full queue that the DM core has read empty with no interrupt pending |
| `DataMoverWait.CopyReturns` | sw/runtime/src/dm.h:251-333 | a copy that does not meet such a queue can return, and its task is then submitted last |
| `DataMoverWait.WaitReturns` | sw/runtime/src/dm.h:345-370 | from every reachable state inside `dm_wait` a continuation without another call returns; then every task is issued in order, the queue is empty and the DMA idle |
| `DataMoverWait.WaitCallReturns` | sw/runtime/src/dm.h:345-370 | so does a `dm_wait` that begins in any reachable state |
| `DataMoverWait.StartServes` | sw/runtime/src/dm.h:340-340 | from every reachable state inside `dm_start` a continuation without another call returns and issues every task submitted before |
| `DataMoverWait.StartCallServes` | sw/runtime/src/dm.h:340-340 | so does a `dm_start` that begins in any reachable state |
| `DataMoverWait.WaitCoversIssues` | sw/runtime/src/dm.h:205-370 | in every run in which the wait of a sole client returns, the DMA becomes idle after every action that issued a task |
| `DmaMetrics.Recorder.constructor` | util/trace/gen_trace.py:1107-1107 | the list starts with a placeholder of one repetition |
| `DmaMetrics.Recorder.Update` | util/trace/gen_trace.py:551-571 | a repetition count replaces that of the placeholder; a copy sizes it, with one repetition unless bit 1 of its configuration is set, and adds a placeholder that inherits the count; other instructions change nothing; so the list is the specified one after any instructions |
| `DmaMetrics.RecordedIsSized` | util/trace/gen_trace.py:546-550 | only the placeholder lacks a size |
| `DmaHistory.CopiesAre` | util/trace/gen_trace.py:551-571 | the n-th recorded transfer moves the bytes of the n-th copy instruction: the repetition count last set before it times its size if bit 1 of its configuration is set, and its size otherwise |
| `DmaHistory.BurstsAre` | util/trace/gen_trace.py:605-605 | the bursts are the lines in which a request is valid and ready, in order |
| `DmaHistory.ResponsesAre` | util/trace/gen_trace.py:623-623 | the responses are the lines in which a response is valid and ready, in order |
| `DmaHistory.CopiesAreReported` | util/trace/gen_trace.py:551-634 | for every instruction history and log in which the bursts of each copy sum to its repetition count times its size, the j-th report is the j-th copy: that product of bytes, from the line of its first burst to the line of the response to its last; reported are exactly the copies answered in full |
| `DmaHistory.RepeatedExample` | util/trace/gen_trace.py:605-634 | four repetitions of 8 bytes in a burst of 32 bytes are one transfer of 32 bytes |
| `DmaAnalyser.MatchTransfers` | util/trace/gen_trace.py:578-634 | the loop over the log computes the analysis of every log, errors included, and on well-formed logs the reference transfers |
| `DmaMetrics.TransfersMatch` | util/trace/gen_trace.py:578-634 | on every well-formed log nothing fails, transfers complete in issue order, each starts at the burst that moves its first byte and ends at the response to the burst that moves its last |
| `DmaMetrics.GrantQueues` | util/trace/gen_trace.py:605-621 | a granted burst opens, extends or closes the right outstanding transfer |
| `DmaMetrics.CompleteQueues` | util/trace/gen_trace.py:623-634 | a response never finds the queue empty and completes a transfer exactly at the response to its last burst |
| `DmaMetrics.MatchesUnique` | util/trace/gen_trace.py:578-634 | the reference determines the transfers |
| `DmaMetrics.ReportedIff` | util/trace/gen_trace.py:605-621 | a transfer is reported if and only if all its bytes are answered and no recorded transfer up to it is empty |
| `DmaMetrics.EmptyTransferExample` | util/trace/gen_trace.py:605-621 | after an empty transfer a fully answered one is not reported |
| `DmaMetrics.MatchedInOrder` | util/trace/gen_trace.py:623-634 | matched transfers start in order, end in order and none ends before it starts |
| `DmaAnalyser.TransferBandwidths` | util/trace/gen_trace.py:635-639 | every transfer gets its cycles and bandwidth, unless one moves bytes within a single cycle, which is a division by zero |
| `DmaAnalyser.ActiveGrows` | util/trace/gen_trace.py:646-652 | a further transfer adds the cycles behind the end of the last one, or all of its own |
| `DmaAnalyser.ActiveCycles` | util/trace/gen_trace.py:640-654 | the active cycles are the size of the union of the transfers' intervals |
| `DmaAnalyser.AggregateBandwidth` | util/trace/gen_trace.py:640-657 | bytes over the size of that union, absent when it is empty |
| `DmaAnalyser.EvalMetrics` | util/trace/gen_trace.py:574-659 | the whole analysis: its errors, its transfers and its aggregate bandwidth |
| `IntegerText.BufferedIsSuffix` | sw/deps/printf/printf.c:291-298 | the digit buffer holds the last digits of the numeral, as many as fit |
| `IntegerText.BufferedDenotes` | sw/deps/printf/printf.c:291-298 | they denote the value modulo a power of the base, and are the numeral when it fits |
| `IntegerText.ConversionDenotes` | sw/deps/printf/printf.c:227-301 | without a prefix the text denotes the value as far as the digit buffer holds it, under all flags, widths and precisions |
| `IsoInteger.MeetsIsoIff` | sw/deps/printf/printf.c:227-301 | for every value, base, width, precision, flags and buffer capacity, the text is the one section 7.21.6.1 of ISO/IEC 9899:2011 asks for, alternative forms included, if and only if the stated condition on digits, width, precision and capacity holds |
| `IsoInteger.PlainMeetsIsoIff` | sw/deps/printf/printf.c:227-301 | without a prefix: zeros, digits and sign fit the digit buffer, and left justification meets no larger precision |
| `IsoInteger.AlternativeMeetsIsoIff` | sw/deps/printf/printf.c:241-262 | with `#`: the prefix replaces padding zeros only, or fits in front of the padded digits; the extra octal zero is not there yet |
| `IsoInteger.IsoTextLength` | sw/deps/printf/printf.c:227-301 | the standard's text has exactly max(width, sign + prefix + max(digits, precision)) characters, one digit more where the octal form needs it |
| `IsoInteger.IsoTextDenotes` | sw/deps/printf/printf.c:227-301 | the standard's text reads back as the value |
| `IsoInteger.TextInCase` | sw/deps/printf/printf.c:295-295 | every letter digit is of the case that the conversion asks for, whatever the flags, width, precision and buffer |
| `IsoInteger.PrefixExample` | sw/deps/printf/printf.c:242-262 | `%#4x` of 0x1234 yields `0x34`, not `0x1234` |
| `IsoInteger.OctalExample` | sw/deps/printf/printf.c:242-262 | `%#.5o` of 8 yields `000010`, not `00010` |
| `IsoInteger.OctalZeroExample` | sw/deps/printf/printf.c:286-298 | `%#.0o` of 0 yields nothing, not `0` |
| `Printf.Out` | sw/deps/printf/printf.c:133-138 | one character is stored if its index is below the limit |
| `Printf.OutRev` | sw/deps/printf/printf.c:199-223 | the buffered digits are written in reverse, padded, cut off at the limit |
| `Printf.AppendPrefix` | sw/deps/printf/printf.c:242-262 | the prefix is put in place of leading padding |
| `Printf.NtoaFormat` | sw/deps/printf/printf.c:227-277 | zeros, prefix, sign and padding around given digits, never past the end of the digit buffer |
| `Printf.FillDigits` | sw/deps/printf/printf.c:292-298 | the digit loop fills the digit buffer, never past its end |
| `Printf.Ntoa` | sw/deps/printf/printf.c:281-301 | an integer conversion writes its text, cut off at the limit, and returns the index behind the untruncated text |
| `Printf.Atoi` | sw/deps/printf/printf.c:188-195 | reads the decimal number at a position, modulo 2^32, and stops behind it |
| `Printf.NumberIsRead` | sw/deps/printf/printf.c:188-195 | digits are read as the number they denote, modulo 2^32 |
| `Printf.AtoiInvertsNtoa` | sw/deps/printf/printf.c:188-195 | reading inverts the plain decimal conversion of every 32-bit value |
| `Printf.ReadFlags` | sw/deps/printf/printf.c:601-612 | reads all flag characters |
| `Printf.ReadDirective` | sw/deps/printf/printf.c:601-680 | reads flags, width, precision and length, arguments for `*` included |
| `Printf.OutDirective` | sw/deps/printf/printf.c:682-849 | one conversion writes its text, cut off at the limit |
| `Printf.OutFormat` | sw/deps/printf/printf.c:587-850 | the main loop writes the text of the whole format, cut off at the limit |
| `Printf.Truncated` | sw/deps/printf/printf.c:852-856 | a text written with a limit and then terminated is its longest prefix that leaves room for the NUL |
| `Printf.Vsnprintf` | sw/deps/printf/printf.c:577-857 | the result is the length of the untruncated text whatever the buffer and limit; the buffer holds the first min(result, limit - 1) characters, then NUL, and is otherwise unchanged; the buffer need only hold what is written, so the limit may exceed it |
| `Printf.ConvertedIs` | sw/deps/printf/printf.c:721-755 | operands of the narrower types keep their value modulo the size of the type, and lie in its range |
| `FormatGrammar.DirectiveIsRead` | sw/deps/printf/printf.c:601-683 | every conversion specification of the standard's grammar is read as stated wherever it stands in a format: numbers modulo 2^32, a negative width as left justification, a negative precision as zero |
| `IsoFormat.PieceIsCodeText` | sw/deps/printf/printf.c:587-850 | a specification prints a text that depends on it and on its own arguments only, and the loop goes on behind it, past one argument for each `*` and one for the conversion |
| `IsoFormat.IntegerMeetsIsoIff` | sw/deps/printf/printf.c:601-755 | wherever an integer conversion stands in a format, the text printed for it is what the standard makes of the specification and its arguments if and only if its numbers fit a word, a `char` operand is not negative, a negative precision does no harm, and the digit buffer accommodates it |
| `IsoFormat.CodeMeetsIsoIff` | sw/deps/printf/printf.c:684-755 | the same for the specification and its arguments alone |
| `IsoFormat.LettersInCase` | sw/deps/printf/printf.c:295-295 | wherever they stand in a format, `x` prints the letters a to f and `X` the letters A to F |
| `IsoFormat.NegativeCharExample` | sw/deps/printf/printf.c:733-736 | `%hhd` of -1 yields 255, because `char` is unsigned |
| `IsoFormat.NegativePrecisionExample` | sw/deps/printf/printf.c:631-644 | `%.*d` of -1 and 0 yields nothing, not `0` |
| `IsoFormat.LostZerosExample` | sw/deps/printf/printf.c:631-719 | `%05.*d` of -1 and 42 loses its zeros |
| `IsoFormat.ZeroExample` | sw/deps/printf/printf.c:286-298 | the format `%#.0o` prints nothing for 0 |
| `IsoOutput.FormattedIsItems` | sw/deps/printf/printf.c:577-850 | a format that is a sequence of literal texts and specifications prints their texts one after the other, each with the arguments behind those that the items before it take: one per conversion, one per `*`, none for `%%` |
| `IsoOutput.CharIff` | sw/deps/printf/printf.c:776-794 | `%c` prints the character, justified in its width, if and only if the width fits a word |
| `IsoOutput.StringIff` | sw/deps/printf/printf.c:796-821 | `%s` prints the string up to the precision, justified in its width, if the numbers are in range; for a string without blanks only if they are |
| `IsoOutput.PointerPrints` | sw/deps/printf/printf.c:823-840 | `%p` without flags and precision prints eight upper-case hexadecimal digits |
| `IsoOutput.PercentPrints` | sw/deps/printf/printf.c:842-845 | `%%` prints a percent sign |
| `IsoOutput.FormatMeetsIso` | sw/deps/printf/printf.c:577-850 | a format whose items are all within the stated limits prints what the standard asks for |
| `IsoOutput.ArgumentsExample` | sw/deps/printf/printf.c:796-797 | `%s%d` of "x" and 5 prints `x5` |
| `BumpAllocator.AlignUpIff` | sw/runtime/src/alloc.h:23-26 | alignment gives the least multiple at or above the address if and only if the sum does not wrap around |
| `BumpAllocator.Allocator.constructor` | sw/runtime/src/alloc_v2.h:108-121 | the heap starts at the aligned start address |
| `BumpAllocator.Allocator.Alloc` | sw/runtime/src/alloc_v2.h:65-97 | a call moves the pointer from the aligned start by the size, or by the number of cores times the size, independently of the calling core; it traps if and only if that is beyond the end, and otherwise returns the aligned start plus the core's index times the size |
| `BumpAllocator.AdvancesByBlocks` | sw/runtime/src/alloc_v2.h:65-97 | without wrap-around the pointer advances from the aligned start by exactly the bytes of the blocks, and the call traps if and only if they do not fit below the end |
| `BumpAllocator.InHeapIff` | sw/runtime/src/alloc_v2.h:48-97 | a call that does not trap reserves a region inside the free heap if and only if nothing wraps around |
| `BumpAllocator.RegionsInOrderIff` | sw/runtime/src/alloc_v2.h:48-97 | in every sequence of calls that is not trapped, the regions follow each other inside the heap if and only if no call wraps around |
| `BumpAllocator.BlocksInHeap` | sw/runtime/src/alloc_v2.h:65-97 | in every sequence of calls without trap and wrap-around, blocks are inside the heap and regions are aligned |
| `BumpAllocator.BlocksDisjoint` | sw/runtime/src/alloc_v2.h:65-97 | in every such sequence blocks of different calls, and of different cores in one call, are disjoint |
| `BumpAllocator.WrapExample` | sw/runtime/src/alloc_v2.h:48-73 | a wrapping call is not trapped, and its region shares a byte with the one before it |
| `BumpAllocator.TranslationIsPointer` | sw/runtime/src/alloc_v2.h:207-211 | translating a core's pointer gives exactly the pointer of the other core, also when the index difference wraps around |

## Left out

- SequencerEmulation.Sequencer.DecodeFrep: the printed instruction, with its staggering fields, is reduced to the pc and the number of issues.
- SequencerEmulation.Sequencer.PushInsn: a level with more than one directly nested loop, because line 90 overwrites the configuration of the first; Python's exceptions for an FREP that is not decoded are preconditions.
- SequencerEmulation.Sequencer.Emulate: requires that the next instruction is queued and the FREPs before it are decoded, as the trace tool provides.
- SequencerEmulation.TerminatesIffAllIssued: compares with the emulation's own stream; `SequencerEmulation.SilenceIffReentrant` adds the unrolled program.
- StencilCluster.TiledExactlyOnce: an odd core count on an axis, for which `StencilCluster.BlocksInsideIffEven` shows that blocks leave the interior.
- StencilCluster.OneRow: an odd core count, as above.
- StencilCluster.IssrCoreStep: an odd core count, as above.
- StencilCluster.IssrStep: an odd core count, as above.
- StencilCluster.IssrKernel: floating-point rounding and the order of additions, values being exact reals; an odd core count, as above; a grid whose indices do not fit 16 bits, for which `StencilKernels.IndicesExactIffFit` shows wrong indices.
- StencilCluster.BothKernels: the same limits as `StencilCluster.IssrKernel`.
- StencilKernels.RowBoundIsIterations: a row in which no iteration is executed and the bound expression is negative.
- TreeReduction.OrderedRunsSum: assumes the order that the code does not enforce; values are mathematical integers.
- AllToAllReduction.NextCallReturns: a next call that begins before every core has returned from the last one.
- DataMover.WaitReturnsWhenIdle: a sole client, because the status channel is not meant for several at once.
- DataMoverWait.WaitReturns: a sole client; a continuation of the two cores and the DMA, not a scheduler that takes it.
- DataMoverWait.StartServes: the same limits.
- DmaHistory.CopiesAreReported: logs whose bursts do not add up to the copies, and empty copies, for which `DmaMetrics.ReportedIff` states what is reported.
- DataMoverProgress.StuckIffFullAndAsleep: a sole client; that a step is possible, not that the scheduler takes it.
- DmaAnalyser.EvalMetrics: lines of the log that do not parse, and a missing log file; times and sizes are natural numbers.
- Printf.OutFormat: a format that ends inside a conversion specification, which makes the code read past the terminator.
- Printf.Vsnprintf: such a format; outputs of 2^31 characters and more; a missing or mistyped argument, which is undefined in C, counts as zero or as an empty string.
- IsoFormat.IntegerMeetsIsoIff: `#` with a decimal conversion, which the standard leaves undefined; the pointer conversion, whose text it leaves to the implementation.
- IsoOutput.StringIff: for a string that holds blanks the condition is not shown necessary, because cut and padding can look alike.
- IsoOutput.PointerPrints: flags, a precision and a negative width argument, which the standard leaves undefined for pointers or to the implementation.
- IsoOutput.FormatMeetsIso: one direction for whole formats, because texts that differ piece by piece can be equal together; each piece has its own equivalence.
- BumpAllocator.BlocksInHeap: sequences of calls in which a sum wraps around, for which `BumpAllocator.RegionsInOrderIff` shows the failure; overriding the allocator's pointer.
- BumpAllocator.BlocksDisjoint: the same sequences.
- Other stencil kernels (box, 3D star, Jacobi): they use the same tables, streams and rotation.
- The multicast branch of waking clusters, and clusters outside the communicator: they depend on the crossbar.
- Exit and ready requests of the data mover and its global CLINT variant.
- The mutex operations as such: the data mover's lock is one atomic step.
- Tile copies, memset and 2D transfers of `sw/runtime/src/dma.h`: plain offset arithmetic.
- The L3 allocator and the translation to another cluster's L1: the same arithmetic once more.
- Floating-point conversions and character output functions of printf.
- Instruction decoding, regular expressions, plotting and simulation control: input and output.
