# hpxMP: a Dafny model of the runtime protocols and of the programs that run on them

hpxMP is an OpenMP runtime built on HPX. This project models its protocols (tasks with `depend`,
counters, barriers, work-sharing loops, `single`, atomics) and the benchmark programs of the
repository whose results rest on them (blocked LU, stencil, matrix products, N-queens, a
particle-in-cell code with an FFT), and proves what each of them promises.

The project verifies with `dafny verify dfyconfig.toml`.

## How it is organised

Runtime protocols. A lock, an atomic operation or a future is one step, and steps of different
threads interleave freely; HPX's own barrier, mutex, `async`, `dataflow` and `when_all` are taken as
given.

- `TaskGraph`: tasks joined by futures, with bodies made of atomic reads and writes. If chains of
  futures order all conflicting tasks, every schedule ends like the sequential run.
- `DependTasks`: what `create_df_task` makes a task wait for. It keeps the last writer of every
  address only, so it adds read-after-write and write-after-write edges and no write-after-read
  edges. Section 2.11.1.1 of OpenMP 4.0 asks for all three; the exact consequence is proved.
- `TeamProtocol`: `task_wait`, the team barrier and `fork_worker`, with tasks that create tasks.
- `LoopSchedule`, `LoopDispatch`, `OrderedGate`: static, static chunked and dynamic loops (OpenMP
  4.0, section 2.7.1) and the `ordered` gate (section 2.12.8).
- `Broadcast`: `single` and `copyprivate` (sections 2.7.3 and 2.14.4.2).
- `Atomics`: the compare-and-swap loops (section 2.12.6).

Programs on top of them.

- `LuSteps`, `LuKernels`, `LuStaged`: blocked LU in stages. `LuActions`: its kernels as lists of
  atomic updates. `LuStagedTasks`: the tasks of one stage, interleaved. `LuDataflow`,
  `LuDataflowExact`: the same elimination as a graph of `depend` tasks, composed with `DependTasks`.
  `LuDescriptors`: the same with the block tables as stored data.
- `Stencil`, `StencilTasks`: the flat, the partitioned and the task form of the heat stencil.
- `MatrixProduct`, `Strassen`, `TileProduct`: the multiplications. `ForkJoin`, `TileTasks`: tasks
  that create tasks and wait for them, and the recursive multiplication run that way.
- `NQueens`: counting by backtracking.
- `Tiles`, `Holes`, `Reorder`, `Buffers`, `ParticleOrder`, `ParticleLaws`, `ParticleInput`: the
  tiled particle sort. `ChargeDeposit`: charge deposit with guard cells.
- `ComplexNumbers`, `BitReversal`, `Fourier`, `Fft`: the transform in y.
- `Blocks`: how n points are cut into pieces that differ by at most one, and a few facts about
  products that several modules use.

Conventions. Numbers of the numerical codes are reals. A row-major address `base + r * stride + c`
is a pair (r, c) of a two-dimensional array; a pointer into the middle of a matrix is the row and
column it points to. Where the original loops over memory in place, the model has a method over an
array, proved against a specification on values. A future is named by the number of its task.

## Results where code and documentation differ

- A task that reads x followed by a task that writes x is not ordered by the runtime
  (`WriteAfterReadIsNotOrdered`). A program is determinate exactly when the edges that do exist join
  every reader to every later writer (`DeterminateIffReadersOrdered`). The LU graph and the stencil
  graph meet that condition.
- A dynamic loop reports a last chunk only if the chunk size does not divide the trip count
  (`LastIsReportedIff`); with four iterations in chunks of two no call reports one (`NoLastChunk`).
  Under static chunked dispatch it is the other way round (`ChunkedLastIsReportedIff`).
- Static chunked dispatch hands out the loop exactly if the stride is 1, or there is one thread, or
  the whole loop lies below the start of a second chunk (`ChunkedDispatchIff`). Section 2.7.1 of
  OpenMP 4.0 asks for it always.
- `*p_last_iter` of a static loop marks the owner of the last iteration exactly if there are no more
  iterations than threads (`StaticLastIff`), that of a chunked loop with increment 1 exactly if the
  last chunk is cut short or there is one thread (`ChunkedLastIff`).
- A descending static loop is partitioned exactly if the team has one thread
  (`DescendingStaticIff`); a descending dispatched loop never is (`DescendingDispatchFails`).
- `cgppost2l` declares its accumulator with 33 * 33 = 1089 places, and its test for larger tiles is
  commented out. A tile fits exactly if (mx + 1) * (my + 1) is at most 1089 (`AccumulatorFitsIff`).
  With mx = my = 40 the first loop would clear 1681 places (`AccumulatorTooSmall`); the deposit is
  modelled for tiles that fit.
- The comment in `fork_worker` calls its second loop unnecessary; `RunningThreadsIsNotEnough` is a
  run in which it is needed.

## Model

| member | source | states |
|---|---|---|
| TaskGraph.Determinacy | src/hpx_runtime.cpp:358-438 | if every pair of conflicting tasks is joined by a chain of futures, every complete schedule, interleaved at single reads and writes, leaves the store of running the tasks in creation order |
| TaskGraph.Progress | src/hpx_runtime.cpp:392-426 | no schedule gets stuck: below any unfinished task some task can take a step |
| TaskGraph.RunIsReplay | src/hpx_runtime.cpp:392-426 | at every moment of every schedule the store equals the partial work of all tasks replayed in creation order |
| TaskGraph.CausalPath | src/hpx_runtime.cpp:392-426 | a task that has started has every task on a chain of futures to it finished |
| DependTasks.TaskData.CreateDfTask | src/hpx_runtime.cpp:358-438 | the futures waited for are those found before the new task is entered; afterwards every out address, and no other, maps to the new task; both counters go up by one |
| DependTasks.BothLists | src/hpx_runtime.cpp:358-438 | an address is named, or written, exactly if a dependence of either list names it, or names it as out |
| DependTasks.Submit | src/hpx_runtime.cpp:358-438 | creating one more task extends the dependence graph of the program by exactly that task's futures and leaves the earlier ones alone |
| DependTasks.FuturesMeaning | src/hpx_runtime.cpp:371-380 | a future is collected exactly if some named address is in df_map with that future |
| DependTasks.PublishMeaning | src/hpx_runtime.cpp:427-436 | after the call an address maps to the new task if it is an out address, to its old entry otherwise |
| DependTasks.DfMapIsLastWriter | src/hpx_runtime.cpp:427-436 | df_map holds an address exactly if an earlier task writes it, and then the last such task |
| DependTasks.WaitsForLastWriters | src/hpx_runtime.cpp:371-380 | a task waits for exactly the last earlier writers of the addresses it names |
| DependTasks.WriterPrecedesUser | src/hpx_runtime.cpp:358-438 | every writer of an address is joined by a chain of futures to every later task that names the address |
| DependTasks.DependGraphWellFormed | src/hpx_runtime.cpp:358-438 | tasks wait only for tasks created earlier |
| DependTasks.DeclaredConflictsOrdered | src/hpx_runtime.cpp:358-438 | for bodies that keep to their declared addresses, ordered readers are enough to order all conflicts |
| DependTasks.UnorderedReaderDiverges | src/hpx_runtime.cpp:358-438 | a reader not joined to a later writer lets some conforming program end differently from creation order |
| DependTasks.DeterminateIffReadersOrdered | src/hpx_runtime.cpp:358-438 | all conforming programs of given dependences are determinate if and only if every reader is joined to every later writer |
| DependTasks.WriteAfterReadIsNotOrdered | src/hpx_runtime.cpp:358-438 | the two-task program, read x then write x, gets no edge and is not determinate |
| TeamProtocol.StepKeepsInv | src/hpx_runtime.cpp:196-334 | every atomic step keeps: num_child_tasks, num_tasks, running_threads and the barrier count are the numbers of agents that still count, and num_tasks is zero once all threads have passed it |
| TeamProtocol.RunKeepsInv | src/hpx_runtime.cpp:196-334 | the same in every state of every run |
| TeamProtocol.TaskWaitIsSafe | src/hpx_runtime.cpp:255-271 | when task_wait, or the wait in thread_setup, may return, the body of every child has returned |
| TeamProtocol.WaitAndGoOn | src/hpx_runtime.cpp:255-271 | an agent in user code without unfinished children enters and leaves task_wait in two steps, and the whole state is as before |
| TeamProtocol.BarrierIsSafe | src/hpx_runtime.cpp:196-223 | when the team barrier is released, all threads are in it and no explicit task is unfinished or being created, although each thread looked at num_tasks at its own time |
| TeamProtocol.BarrierAndGoOn | src/hpx_runtime.cpp:196-223 | from all n threads in user code, with no task outstanding, a run through the team barrier ends with all of them in user code, one generation on, the barrier empty and all else unchanged |
| TeamProtocol.ForkIsSafe | src/hpx_runtime.cpp:577-627 | once fork_worker has returned, all threads and tasks are done and no step of any of them is possible |
| TeamProtocol.ForkReturns | src/hpx_runtime.cpp:599-627 | once running_threads and num_tasks are down, fork_worker returns and leaves the team as it is |
| TeamProtocol.RunningThreadsIsNotEnough | src/hpx_runtime.cpp:599-627 | a run in which running_threads is zero while a task created by a task is still running, so the loop on num_tasks is needed |
| TeamProtocol.CreateAndStart | src/hpx_runtime.cpp:309-334 | creating and starting a task raises its creator's child counter and num_tasks by one and nothing else |
| TeamProtocol.EndTask | src/hpx_runtime.cpp:273-288 | the end of a task lowers its parent's child counter and num_tasks by one and nothing else |
| LoopSchedule.OmpStaticInit | src/loop_schedule.cpp:14-48 | for any sign of the increment the bounds are those of `StaticBounds`; ascending static: iteration k >= 0 lies within them exactly if it is one of the loop and k divided by the rounded-up share is the thread, an empty loop gives empty bounds, and the stride is left alone; ascending chunked, with both bounds advanced by the stride: iteration k lies within those of a round exactly if it is one of the loop and its chunk is the thread's in that round; and which threads set *p_last_iter |
| LoopSchedule.StaticPartition | src/loop_schedule.cpp:21-31 | each iteration belongs to exactly one thread of the team |
| LoopSchedule.ChunkedPartition | src/loop_schedule.cpp:32-45 | each iteration belongs to exactly one pair of thread and round |
| LoopSchedule.StaticLastIff | src/loop_schedule.cpp:23-24 | the threads that set the flag of the last iteration are those that own it, exactly if there are no more iterations than threads |
| LoopSchedule.ChunkedLastIff | src/loop_schedule.cpp:38-42 | the same for the chunked schedule with increment 1, exactly if the last chunk is cut short or there is one thread |
| LoopSchedule.DescendingStaticIff | src/loop_schedule.cpp:21-31 | the bounds of a descending loop are a partition of it exactly if the team has one thread: otherwise thread 1 repeats an iteration of thread 0 or runs one after the end |
| LoopDispatch.LoopData.constructor | src/loop_schedule.cpp:98-124 | a stride or chunk of zero becomes one; the shared counters and the per-thread counts start at zero; any range and any sign of the stride |
| LoopDispatch.LoopData.KmpNext | src/loop_schedule.cpp:155-251 | dynamic: the answer depends on the drawn ticket alone; static: each thread gets its share once; static chunked: the answer depends on how often the thread has called; the entries of other threads do not change |
| LoopDispatch.LoopData.TryOrdered | src/loop_schedule.cpp:289-296 | one look at the gate succeeds exactly if the count is within the thread's window |
| LoopDispatch.LoopData.EndOrdered | src/loop_schedule.cpp:298-302 | the count goes up by one and nothing else changes |
| LoopDispatch.DispatchAll | src/loop_schedule.cpp:225-275 | whichever threads call in whatever order, the answers are those of tickets 0, 1, 2, ... in turn |
| LoopDispatch.TicketMeans | src/loop_schedule.cpp:225-243 | for every k >= 0 a ticket hands out iteration k exactly if k is an iteration of the loop and lies in the chunk of that number |
| LoopDispatch.TicketSucceeds | src/loop_schedule.cpp:225-243 | a call gets work exactly if its ticket is below the rounded-up number of chunks, so failure is permanent |
| LoopDispatch.EachIterationOnce | src/loop_schedule.cpp:225-243 | over the calls of all threads in any order no iteration is handed out twice, and each is handed out once some call has failed |
| LoopDispatch.SuccessCount | src/loop_schedule.cpp:225-243 | of the first m calls exactly min(m, number of chunks) get work |
| LoopDispatch.TicketLast | src/loop_schedule.cpp:239-242 | a call reports last exactly if it has the final chunk and that chunk is cut short |
| LoopDispatch.LastIsReportedIff | src/loop_schedule.cpp:239-242 | some call reports last if and only if the chunk size does not divide the trip count, and that call has the final iteration |
| LoopDispatch.NoLastChunk | src/loop_schedule.cpp:239-242 | with lower 0, upper 3, stride 1 and chunk 2 no call reports last |
| LoopDispatch.DescendingDispatchFails | src/loop_schedule.cpp:225-243 | a descending loop with more than one value loses its first iteration in every run; one with a single value gets work after its end |
| LoopDispatch.ChunkedDispatchIff | src/loop_schedule.cpp:190-213 | static chunked: the calls of all threads hand out each value of the loop once and no other, exactly if the stride is 1, or there is one thread, or the loop ends before a second chunk could start |
| LoopDispatch.NoMoreChunks | src/loop_schedule.cpp:190-213 | static chunked: a thread that is told there is no more work is told so ever after |
| LoopDispatch.ChunkedLastIsReportedIff | src/loop_schedule.cpp:206-208 | static chunked with stride 1: some call reports last exactly if the chunk size divides the trip count |
| OrderedGate.OrderedRegionsFollowTheLoop | src/loop_schedule.cpp:289-302 | in every interleaving at most one thread is inside, with the iteration whose turn it is, and the finished regions are 0, 1, 2, ... in order of time |
| OrderedGate.GateOpensInTurn | src/loop_schedule.cpp:289-296 | the gate lets a thread through exactly when it is the turn of its iteration, although the tested window is wider |
| OrderedGate.SomebodyCanGoOn | src/loop_schedule.cpp:289-302 | until all regions are finished some thread can take a step |
| OrderedGate.RunKeepsInv | src/loop_schedule.cpp:164-243 | held iterations are disjoint, not finished and within the windows, in every run under the static and the dynamic schedule |
| OrderedGate.Ask | src/loop_schedule.cpp:164-243 | one call of kmp_next on the shared loop_data is one step of the gate protocol: the iterations handed out and the window stored are those it assumes |
| OrderedGate.AskGate | src/loop_schedule.cpp:289-296 | one look at the gate, on the shared loop_data, succeeds exactly if the protocol lets the thread in |
| OrderedGate.LeaveGate | src/loop_schedule.cpp:298-302 | leaving the region, on the shared loop_data, is the protocol's step |
| Broadcast.OneWinnerPerRound | src/intel_hpxMP.cpp:284-306 | every round of single that a thread has entered has exactly one winner |
| Broadcast.EveryThreadGetsTheValue | src/intel_hpxMP.cpp:411-425 | in every round of every run cpy_func finds the pointer on the winner's variable, and a thread about to leave holds the value the winner of its round published |
| Broadcast.HeldAfterwards | src/intel_hpxMP.cpp:411-425 | a thread that leaves the construct of round r holds the value published in round r, in every continuation, until it assigns to its variable or copies again; and what was published in round r stays |
| Broadcast.OnlyAssigningChanges | src/intel_hpxMP.cpp:411-425 | no step changes the variable of a thread but its own assignment, which leaves the assigned value, and its cpy_func, which leaves that of the variable pointed to |
| Broadcast.PublishedIsLastAssigned | src/intel_hpxMP.cpp:411-425 | the value a thread publishes is the one it assigned last |
| Broadcast.PublishedByTheWinner | src/intel_hpxMP.cpp:411-425 | what is published in a round is the winner's value at that moment, and no later step changes it |
| Broadcast.StepKeepsInv | src/intel_hpxMP.cpp:284-425 | each step keeps: no thread is past a barrier another has not reached, one winner per round, and the pointer stays until all have copied |
| Broadcast.SlowestCanGoOn | src/intel_hpxMP.cpp:411-425 | the thread that is behind all others can always take its next step |
| Atomics.Linearizable | src/kmp_atomic.cpp:680-694 | in every interleaving the cell holds the finished updates applied once each in one order, and each thread has captured the value just before and just after its own |
| Atomics.RespectsTime | src/kmp_atomic.cpp:680-694 | the order is that of time: an update that is finished at a moment when another is not, begun or not, comes before it |
| Atomics.UndisturbedUpdate | src/kmp_atomic.cpp:680-694 | a swap takes effect if the cell holds the value read: whatever other threads do between read and swap, if the cell ends with the value read the update is done once, on that value |
| Atomics.StepKeepsInv | src/kmp_atomic.cpp:2355-2374 | one read or one compare and swap keeps the log serial, also when the cell has changed and changed back |
| Atomics.InTurnIsExtreme | src/kmp_atomic.cpp:893-908 | updates made in turn leave the extreme of the start value and the operands so far |
| Atomics.ExtremeOfAll | src/kmp_atomic.cpp:893-908 | when all threads are done the cell is the maximum, or minimum, of the start value and all operands, although beaten threads never store |
| Blocks.FindBlock | tests/omp/tests/src/omp-lu.c:136-146 | every point lies in some piece |
| LuKernels.DiagonalBlock | tests/omp/tests/src/omp-lu.c:256-269 | the loops perform the elimination steps of the block on itself and touch nothing else |
| LuKernels.BlockOnColumn | tests/omp/tests/src/omp-lu.c:271-286 | the loops perform the elimination steps of a block below the diagonal and touch nothing else |
| LuKernels.BlockOnRow | tests/omp/tests/src/omp-lu.c:288-301 | the loops perform the elimination steps of a block right of the diagonal and touch nothing else |
| LuKernels.InnerBlock | tests/omp/tests/src/omp-lu.c:303-318 | the loops perform the elimination steps of an inner block and touch nothing else |
| LuSteps.TaskRaises | tests/omp/tests/src/omp-lu.c:256-318 | on a product L*U, a kernel whose pivots are final raises exactly its own block to the next level of elimination |
| LuSteps.BlockStepRaises | tests/omp/tests/src/omp-lu.c:256-318 | the same pivot by pivot: after each pivot the block holds the remaining sum of products |
| LuSteps.FinalRegion | tests/omp/tests/src/omp-lu.c:162-162 | a region above or left of the pivots done so far holds the factors and stays |
| LuStaged.Stage2 | tests/omp/tests/src/omp-lu.c:216-235 | as methods on the matrix: with the column and row tasks taken whole, in any order, the pivot column and row become final and the rest is unchanged |
| LuStaged.Stage3 | tests/omp/tests/src/omp-lu.c:237-254 | as methods on the matrix: with the inner tasks taken whole, in any order, every inner block is raised and the rest is unchanged |
| LuStagedTasks.TasksIndependent | tests/omp/tests/src/omp-lu.c:216-254 | no update of one task of a stage writes what an update of another task of the stage touches |
| LuStagedTasks.Stage2Interleaved | tests/omp/tests/src/omp-lu.c:216-235 | created in any order and interleaved at single updates, the column and row tasks leave what Stage2 leaves |
| LuStagedTasks.Stage3Interleaved | tests/omp/tests/src/omp-lu.c:237-254 | the same for the inner tasks and Stage3 |
| LuStaged.EliminationStep | tests/omp/tests/src/omp-lu.c:134-159 | one turn of the loop raises the whole matrix by the width of the first block |
| LuStaged.FillSizes | tests/omp/tests/src/omp-lu.c:136-146 | sizes and starts are those of the near-equal pieces of the remaining rows |
| LuStaged.BlockedLu | tests/omp/tests/src/omp-lu.c:134-162 | for every N and M >= 1 the loop ends and leaves exactly L below the diagonal and U on and above it |
| LuStaged.InitMatrix3 | tests/omp/tests/src/omp-lu.c:369-396 | the matrix built is the product of those factors, as BlockedLu needs |
| LuStaged.InitEntries | tests/omp/tests/src/omp-lu.c:369-396 | its first row and column count up, and each entry is the one before it on its diagonal plus (r + 1)(c + 1) |
| LuDataflow.CreateTasks | tests/omp/benchmarks/LU/lu-dataflow.cpp:14-92 | the loops create exactly the operations of the elimination, and the runtime gives them the dependence graph of that program |
| LuDataflow.OpsAre | tests/omp/benchmarks/LU/lu-dataflow.cpp:24-87 | every block operation occurs once, ordered by step, row and column |
| LuDataflow.DeclIsExact | tests/omp/benchmarks/LU/lu-dataflow.cpp:62-86 | a task names exactly the entry of its block in the table of its step, that in the other table from step 1 on, and those of its pivots; it writes the first only |
| LuDataflow.BlockChain | tests/omp/benchmarks/LU/lu-dataflow.cpp:62-86 | the operations on one block are joined by a chain of futures from step to step, through the two alternating tables |
| LuDataflow.PivotChain | tests/omp/benchmarks/LU/lu-dataflow.cpp:62-86 | whatever updates a block is joined to every later operation that reads it as a pivot |
| LuDataflow.GraphOrdersConflicts | tests/omp/benchmarks/LU/lu-dataflow.cpp:14-92 | every two tasks that touch a common block, one of them writing, are joined by a chain of futures |
| LuDataflow.GetBlockList | tests/omp/benchmarks/LU/lu-local.cpp:10-46 | the table describes every block by its start, width and height |
| LuDataflow.BlocksTile | tests/omp/benchmarks/LU/lu-local.cpp:10-46 | every cell of the flat matrix lies in exactly one block of the table |
| LuActions.RunBlock | tests/omp/benchmarks/LU/lu-local.cpp:48-86 | the single updates of a task, run in its own order, perform the elimination steps of its block |
| LuDataflowExact.OpStays | tests/omp/benchmarks/LU/lu-local.cpp:48-86 | every update of a task writes its own block and reads only that block and its pivots |
| LuDataflowExact.SequentialFactorises | tests/omp/benchmarks/LU/lu-dataflow.cpp:14-92 | in creation order the tasks leave the factors |
| LuDataflowExact.EveryScheduleFactorises | tests/omp/benchmarks/LU/lu-dataflow.cpp:14-92 | every schedule the runtime's edges allow, interleaved at single matrix updates, leaves the factors |
| LuDescriptors.EveryTaskReadsItsBlocks | tests/omp/benchmarks/LU/lu-dataflow.cpp:14-92 | with the tables as data that tasks fill: in every state of every schedule a task that may take a step finds in the entries it reads the descriptors of exactly its own block and its pivots |
| LuDescriptors.EveryFullScheduleFactorises | tests/omp/benchmarks/LU/lu-dataflow.cpp:14-92 | and every complete schedule of tasks that update the matrix and store descriptors leaves the factors |
| Stencil.FlatWork | tests/omp/tests/src/1d_stencil_1.cpp:49-76 | the two alternating buffers end with the flat run of nt steps |
| Stencil.FlatTurn | tests/omp/tests/src/1d_stencil_1.cpp:66-71 | one turn is one step on the ring, ends included |
| Stencil.StepIs | tests/omp/tests/src/1d_stencil_1.cpp:66-71 | point i of a step is the heat function of points i - 1, i and i + 1 modulo the number of points |
| Stencil.IdxIsNeighbour | tests/omp/tests/src/1d_stencil_3.cpp:36-39 | idx of i - 1 and i + 1 in wrapping 64-bit arithmetic is the neighbour on the ring |
| Stencil.HeatPart | tests/omp/tests/src/1d_stencil_3.cpp:94-108 | the new partition is the step of the middle one between its two neighbours |
| Stencil.NewPart | tests/omp/tests/src/1d_stencil_3.cpp:49-55 | partition i starts at i times its size and counts up |
| Stencil.PartitionedWork | tests/omp/tests/src/1d_stencil_3.cpp:112-135 | from partitions that count up through the ring, the two alternating spaces end with the partitioned run of nt steps |
| Stencil.StepJoins | tests/omp/tests/src/1d_stencil_3.cpp:129-130 | a step on the partitions is a step on the ring they form when laid end to end |
| Stencil.PartitionedRefinesFlat | tests/omp/tests/src/1d_stencil_3.cpp:94-135 | for every heat function, np >= 1 and nx >= 2, the partitions laid end to end are the flat run on np * nx points |
| Stencil.JoinsUnique | tests/omp/tests/src/1d_stencil_3.cpp:112-135 | partitions and joined points determine each other |
| StencilTasks.CreateTasks | tests/hpx/bench/1d_stencil_3_omp_task.cpp:137-152 | the loops create the tasks of the stencil program with its dependence graph |
| StencilTasks.ReaderBeforeWriter | tests/hpx/bench/1d_stencil_3_omp_task.cpp:144-151 | without any write-after-read edge, every reader of a partition is joined to every later task that overwrites it |
| StencilTasks.BodiesConform | tests/hpx/bench/1d_stencil_3_omp_task.cpp:101-151 | the task bodies read and write only what their depend clauses name, besides their own new partition |
| StencilTasks.RunCellBody | tests/hpx/bench/1d_stencil_3_omp_task.cpp:101-149 | a task run alone replaces one partition by the step of the three it reads and changes no other |
| StencilTasks.EveryScheduleIsFlatRun | tests/hpx/bench/1d_stencil_3_omp_task.cpp:119-158 | every schedule the futures allow ends with the flat run, laid out in partitions, in the returned buffer |
| MatrixProduct.Simple | tests/omp/tests/mmult/strass.c:514-535 | each entry is the sum of products of a row of A and a row of the transposed B; nothing outside the block changes |
| Strassen.AddR | tests/omp/tests/mmult/strass.c:123-138 | the block becomes the sum, also when the result replaces the first operand |
| Strassen.SubR | tests/omp/tests/mmult/strass.c:144-159 | the block becomes the difference, also when the result replaces the first operand |
| Strassen.StrassenIdentity | tests/omp/tests/mmult/strass.c:378-481 | the four combinations of the seven products are the quarters of the product of the whole matrices |
| Strassen.SevenProducts | tests/omp/tests/mmult/strass.c:436-465 | taken in any order, the seven tasks leave the seven products in place together, four of them in quarters of the result |
| Strassen.Assemble | tests/omp/tests/mmult/strass.c:468-481 | combining in this order, C11 and C22 before C12 and C21, leaves the four quarters |
| Strassen.StrassenStep | tests/omp/tests/mmult/strass.c:378-509 | for even sizes the result is the product and nothing outside it changes |
| Strassen.Matmul | tests/omp/tests/mmult/strass.c:89-104 | for sizes b * 2^k with b <= 32 the recursion ends with exactly the sums of matmul_simple |
| TileProduct.MatmulTask | tests/omp/tests/mmult/mm_funcs.c:138-182 | as a method on the matrices: for every m, p and n >= 1 the halving ends with (add ? C : 0) + A B^T on the m by p block, written out as sums of products, and nothing else changed, whichever of two tasks without a taskwait between them runs first |
| TileProduct.HalveSums | tests/omp/tests/mmult/mm_funcs.c:167-173 | the two halves of the common side, one after the other, add up to the whole |
| TileProduct.BaseCase | tests/omp/tests/mmult/mm_funcs.c:140-159 | both forms of the triple loop, adding and overwriting |
| ForkJoin.RaceFreeIsDeterminate | tests/omp/tests/mmult/mm_funcs.c:160-182 | tasks that create tasks and wait for them: if tasks not separated by a taskwait write nothing the other touches, every interleaving of single actions ends as if each task had been run where it was created |
| ForkJoin.CanStep | tests/omp/tests/mmult/mm_funcs.c:160-182 | such a program is never stuck |
| ForkJoin.EitherOrder | tests/omp/tests/mmult/mm_funcs.c:160-182 | two tasks without a taskwait between them have complete runs in both orders, with both results |
| ForkJoin.TaskwaitWaits | tests/omp/tests/mmult/mm_funcs.c:169-182 | in no run is anything after a taskwait started before all in front of it is over |
| TileTasks.TileRaceFree | tests/omp/tests/mmult/mm_funcs.c:160-182 | tasks of the recursion that are not separated by a taskwait work on disjoint cells, at every depth |
| TileTasks.EveryInterleavingMultiplies | tests/omp/tests/mmult/mm_funcs.c:138-182 | every interleaving of the tasks at single cells leaves (add ? C : 0) + A B^T on the block and nothing else changed |
| NQueens.Board.CheckBoard | tests/omp/nqueen/nqueen.hpp:38-49 | true exactly if no earlier queen attacks the one in column level |
| NQueens.AttackIsQueenMove | tests/omp/nqueen/nqueen.hpp:42-44 | two queens attack each other exactly if one of the three unit moves (1, 0), (1, 1), (1, -1), repeated, leads from one to the other |
| NQueens.SolutionsAre | tests/omp/nqueen/nqueen.hpp:67-87 | the solutions are exactly the boards with all rows in range, distinct, and no two queens as far apart in rows as in columns |
| NQueens.SmallBoards | tests/omp/nqueen/nqueen.hpp:67-87 | no solution for size 2, and exactly the two known ones for size 4 |
| NQueens.NextColumn | tests/omp/nqueen/nqueen.hpp:78-84 | the solutions with a given beginning fall apart by their next column |
| NQueens.SolveBoard | tests/omp/nqueen/nqueen.hpp:67-87 | the count is the number of solutions that begin with the columns placed |
| NQueens.TaskCreate | tests/omp/nqueen/nqueen.cpp:28-61 | the tasks together count the solutions that begin with the given column |
| NQueens.CountSolutions | tests/omp/nqueen/nqueen.cpp:85-103 | for size >= 2 the total is the number of solutions of the puzzle, with either task level |
| Tiles.Lands | tests/omp/apps/mpic2/mpush2.c:890-925 | a coordinate that moved no further than the next piece ends, after the periodic wrap and the rounding guard, in the piece its side names |
| Tiles.SettleStores | tests/omp/apps/mpic2/mpush2.c:890-925 | the stored coordinate is x, or x - n when x >= n, or x + n rounded when x < 0 and that is below n, or 0 when it is not; the same for y; the velocities stay |
| Tiles.SettledIsSamePoint | tests/omp/apps/mpic2/mpush2.c:890-925 | where the sum is exact, the stored position differs by whole lengths of the box along each axis and lies in the box |
| Tiles.SettledInTile | tests/omp/apps/mpic2/mpush2.c:890-925 | a particle that moved no further than a neighbour is in its tile if it stays and in the tile of its direction if it goes |
| Tiles.OneTileEach | tests/omp/apps/mpic2/mpush2.c:258-315 | no particle is in two tiles |
| Tiles.SourceDestInverse | tests/omp/apps/mpic2/mpush2.c:994-1023 | each of the eight neighbour maps is a bijection of the tiles, for all mx1, my1 >= 1, one tile included |
| Holes.StayAndLeave | tests/omp/apps/mpic2/mpush2.c:926-943 | those outside the holes and those listed by direction are together all particles of the tile |
| Holes.OffAll | tests/omp/apps/mpic2/mpush2.c:954-960 | the prefix scan ends at the number of departing particles |
| Holes.LiveMove | tests/omp/apps/mpic2/mpush2.c:1060-1075 | moving the last particle into the last open hole, or dropping a hole at the end, keeps the particles |
| Holes.LiveFill | tests/omp/apps/mpic2/mpush2.c:1036-1054 | filling a hole adds exactly the one particle |
| Reorder.FindLeaving | tests/omp/apps/mpic2/mpush2.c:861-944 | the tile's particles are wrapped, ncl counts and ihole lists exactly those that leave, in ascending order, and an overflow is flagged with its size |
| Reorder.MoveParticle | tests/omp/apps/mpic2/mpush2.c:885-925 | the nested tests of the loop store the settled particle and its direction |
| Buffers.BufferLeaving | tests/omp/apps/mpic2/mpush2.c:953-983 | the buffer holds the departing particles grouped by direction, ncl the ends of the groups; an overflow is reported exactly if they do not fit |
| Buffers.TakeDirection | tests/omp/apps/mpic2/mpush2.c:1031-1056 | the particles of one direction are added to the tile, each in a hole or at the end |
| Buffers.CloseHoles | tests/omp/apps/mpic2/mpush2.c:1060-1075 | open holes are closed from the end and no particle is lost |
| Buffers.TakeAll | tests/omp/apps/mpic2/mpush2.c:992-1077 | the tile ends with exactly those that stay and those received, without holes; overflow is reported exactly if they do not fit |
| Buffers.Neighbours | tests/omp/apps/mpic2/mpush2.c:994-1023 | the array ks holds the sources of the eight directions |
| ParticleOrder.Cpporder2l | tests/omp/apps/mpic2/mpush2.c:814-1079 | reports overflow exactly if some tile lacks room in ihole, ppbuff or ppart; otherwise every tile holds exactly its stayers and arrivals |
| ParticleOrder.Cpporderf2l | tests/omp/apps/mpic2/mpush2.c:1082-1248 | the same for holes found beforehand |
| ParticleLaws.NeighbourSum | tests/omp/apps/mpic2/mpush2.c:994-1023 | a sum over all tiles is unchanged when the tiles are renamed by a neighbour map |
| ParticleLaws.Conservation | tests/omp/apps/mpic2/mpush2.c:949-1077 | over all tiles the particles afterwards are the particles before, as a multiset |
| ParticleLaws.SamePointIsCongruent | tests/omp/apps/mpic2/mpush2.c:890-925 | the relation used below between a particle before and after: whole lengths of the box along each axis, in the box, with the same velocities |
| ParticleLaws.SumAllHolds | tests/omp/apps/mpic2/mpush2.c:949-1077 | the multiset over all tiles has a particle as often as the tiles together |
| ParticleLaws.OrderConserves | tests/omp/apps/mpic2/mpush2.c:814-1079 | without overflow the particles of all tiles afterwards are, as a multiset, images of those before, one each: the same point of the periodic box, by the explicit formula for the stored coordinate, with the same velocities |
| ParticleLaws.OrderSorts | tests/omp/apps/mpic2/mpush2.c:814-1079 | without overflow, and if no particle had moved past a neighbour, every particle is in its tile afterwards, which is what cppcheck2l checks |
| ParticleLaws.Cppcheck2l | tests/omp/apps/mpic2/mpush2.c:258-315 | reports nothing exactly if every particle is in its tile |
| ParticleLaws.OrderThenCheck | tests/omp/apps/mpic2/mpush2.c:258-315 | run after cpporder2l on the same arrays, without overflow and if no particle had passed a neighbour, it reports nothing, and the tiles hold one image of each particle of before |
| ParticleInput.Cppmovin2l | tests/omp/apps/mpic2/mpush2.c:205-255 | each tile holds its particles in input order as far as they fit; overflow is reported exactly if some tile has too many |
| ParticleInput.InputSorts | tests/omp/apps/mpic2/mpush2.c:205-255 | without overflow the tiles hold all input particles, each in its tile, ready for cpporder2l |
| ChargeDeposit.DepositTile | tests/omp/apps/mpic2/mpush2.c:743-775 | for tiles that fit the accumulator: the accumulator holds at each local point the interpolated charge of the tile's particles |
| ChargeDeposit.HatIsLinear | tests/omp/apps/mpic2/mpush2.c:752-775 | the share of a particle along one axis is the linear interpolation: only its two neighbours get one, the shares add up to the whole, and their centre is the particle |
| ChargeDeposit.DensityOfOne | tests/omp/apps/mpic2/mpush2.c:752-775 | one particle puts on a point the product of its shares along the axes |
| ChargeDeposit.AccumulatorFitsIff | tests/omp/apps/mpic2/mpush2.c:729-751 | all places that the loops over a tile touch lie in the declared accumulator exactly if (mx + 1) * (my + 1) is at most 1089 |
| ChargeDeposit.AddTile | tests/omp/apps/mpic2/mpush2.c:776-806 | every accumulator place that belongs to the grid is added exactly once, in full and in truncated tiles |
| ChargeDeposit.InteriorIsPrivate | tests/omp/apps/mpic2/mpush2.c:776-785 | a point updated without atomic is reached by one tile only |
| ChargeDeposit.Cgppost2l | tests/omp/apps/mpic2/mpush2.c:700-811 | for tiles that fit the accumulator: every grid point receives the linear interpolation of all particles |
| ChargeDeposit.Caguard2l | tests/omp/apps/mpic2/mpush2.c:1274-1294 | a point of the grid ends with the sum over all points of the extended grid that equal it modulo nx and ny; the guards are cleared, the rest is unchanged |
| ChargeDeposit.FoldedIsPeriodic | tests/omp/apps/mpic2/mpush2.c:1281-1292 | adding guard column, guard row and corner as the code does is that periodic sum |
| ChargeDeposit.FoldConserves | tests/omp/apps/mpic2/mpush2.c:1274-1294 | the sum over the grid afterwards is the sum with the guards before |
| ChargeDeposit.ChargeIsConserved | tests/omp/apps/mpic2/mpush2.c:700-811 | deposited from zero and folded, the charge on the grid is qm times the number of particles |
| ChargeDeposit.DepositCharge | tests/omp/apps/mpic2/mpic2.c:127-138 | for tiles that fit the accumulator: the charge step of the main program ends at every grid point with the interpolated charge of all points equal to it modulo nx and ny, in total qm times the particle count, and with empty guards |
| BitReversal.ReverseBits | tests/omp/apps/mpic2/mpush2.c:1449-1456 | the shift loop computes the bit reversal |
| BitReversal.FillMixup | tests/omp/apps/mpic2/mpush2.c:1447-1458 | the table holds one plus the reversal of each index |
| BitReversal.RevInvolution | tests/omp/apps/mpic2/mpush2.c:1447-1458 | reversing twice gives the index back |
| BitReversal.RevShorter | tests/omp/apps/mpic2/mpush2.c:1676-1684 | dividing the longer reversal by nryb gives the reversal over the bits of ny |
| BitReversal.ExchangeNext | tests/omp/apps/mpic2/mpush2.c:1681-1691 | with the guard k < k1 each pair changes places exactly once |
| Fourier.DftIsSum | tests/omp/apps/mpic2/mpush2.c:1639-1642 | the transform used as specification is the documented sum |
| Fourier.Butterfly | tests/omp/apps/mpic2/mpush2.c:1701-1708 | for v^n = -1 both halves of the transform come from those of the even and the odd elements |
| Fourier.Orthogonal | tests/omp/apps/mpic2/mpush2.c:1639-1642 | the powers of v^m c^n sum to ny if m = n and to zero otherwise |
| Fourier.InverseTransform | tests/omp/apps/mpic2/mpush2.c:1639-1642 | transforming with a root and then with its inverse multiplies by the order |
| ComplexNumbers.ComplexLaws | tests/omp/apps/mpic2/mpush2.c:1699-1709 | the arithmetic of the transform: i squared is -1, every number is x + i y, a number times its conjugate is its norm, and norms multiply |
| Fft.InitTables | tests/omp/apps/mpic2/mpush2.c:1424-1467 | the tables hold the reversals and the powers of the root |
| Fft.ReverseColumn | tests/omp/apps/mpic2/mpush2.c:1681-1691 | the column ends in bit-reversed order, every pair exchanged once |
| Fft.MergeBlock | tests/omp/apps/mpic2/mpush2.c:1699-1709 | one block of butterflies, in place, with the rest of the array unchanged |
| Fft.Stage | tests/omp/apps/mpic2/mpush2.c:1692-1711 | each stage turns transforms of half-size subsequences into those of twice the length |
| Fft.TransformColumn | tests/omp/apps/mpic2/mpush2.c:1680-1712 | bit reversal and stages leave the transform of the column and touch no other column |
| Fft.Cfft2rmxy | tests/omp/apps/mpic2/mpush2.c:1627-1773 | for either sign each column in range is transformed, column 0 scrambled before or unscrambled after when nxi is 1, and all else is unchanged |
| Fft.InverseColumnMeans | tests/omp/apps/mpic2/mpush2.c:1656-1730 | row k of a column in range holds element k of its transform; column 0 packs two real columns, and row k holds the transform of the first, row ny - k that of the second, rows 0 and ny / 2 both, in the real and the imaginary part |
| Fft.DirectionOfRoot | tests/omp/apps/mpic2/mpush2.c:1656-1773 | the inverse pass uses the root of the table, the forward pass its conjugate |
| Fft.RoundTrip | tests/omp/apps/mpic2/mpush2.c:1627-1773 | the forward pass after the inverse pass gives ny times the input in every transformed column, packed column 0 included |
| Fft.InverseThenForward | tests/omp/apps/mpic2/mpush2.c:1627-1773 | the two passes run on the array: every transformed column ends as ny times its input, all else as it was |

## Left out

- Start-up and shutdown of HPX, environment variables, printing, timers, PAPI and the OMPT hooks: I/O and foreign calls.
- The `OMP_COMPLIANT` build, task groups and `FUTURIZE_TASKS`: the first uses HPX executors instead of the counters, the others are unfinished in the code.
- Teams of one thread in `create_task` and `create_df_task`: the first runs the task at once, the second creates it twice; neither keeps the counters.
- DependTasks.TaskData.CreateDfTask: starting the HPX task is not part of the method; a task without futures may start at once, which the schedules of `TaskGraph` allow. These schedules let every task start as soon as its futures allow, also before the remaining tasks are created, so they include every real one.
- TeamProtocol.ForkIsSafe: safety only; that the condition variable wakes `fork_worker` up, and the lifetime of that variable, are not modelled.
- The copy of `loop_data` when `loop_list` grows restarts its counters; the model has one loop at a time, as behind a barrier.
- LoopSchedule.OmpStaticInit: descending chunked loops, unsigned loop variables and the wrap-around of 32-bit arithmetic are not modelled; the closed form of `*p_last_iter` for chunked loops is compared with the true owner for increment 1 only.
- LoopDispatch.LoopData.KmpNext: the schedules guided and runtime share the dynamic case; 32-bit wrap-around is not modelled.
- OrderedGate.OrderedRegionsFollowTheLoop: loops from 0 with stride 1 that pass the gate once in every iteration, static or dynamic with chunk 1; dynamic chunks above 1 and static chunked dispatch are left out.
- The atomic and the critical path of `__kmpc_reduce`, lock wrappers, `critical`, `master`, thread-private data and the getters of internal control variables: thin plumbing.
- Atomics.Linearizable: values are compared as values; bit patterns such as those of NaN are not modelled. `MIN_MAX_CMPXCHG_CPT` and the critical-section variants are left out.
- LuStaged.BlockedLu: pivots are never zero for a product of triangular factors with non-zero diagonal; other matrices are not considered, as the code does no pivoting.
- LuDescriptors.EveryFullScheduleFactorises: the addresses of a task's updates are those of the descriptors it reads, which EveryTaskReadsItsBlocks proves to be the right ones; they are written as constants in its body.
- StencilTasks.EveryScheduleIsFlatRun: the assignment of a finished partition moves a vector and is one step.
- Strassen.SevenProducts: the seven tasks are taken whole; their interleaving at single cells is not modelled.
- Strassen.Matmul: the fix-ups for odd sizes are left out, because their offset into B does not fit the transposed layout.
- TileProduct.MatmulTask: the method runs two tasks without a taskwait between them one after the other in either order; their interleaving is the subject of `TileTasks`.
- NQueens.CountSolutions: sizes 0 and 1 are left out; with tasks at the second level the code reaches past a board of size 1.
- Tiles.Lands: adding the system length may round, up to that length itself; the subtraction at the upper end is taken as exact.
- ParticleOrder.Cpporder2l: the loops over tiles run in order of the tiles; each iteration writes rows of its own tile only. The particle push and the Gaussian start values are left out.
- ChargeDeposit.Cgppost2l: tiles are processed one after the other; each atomic update is one addition, and sums of reals do not depend on their order. Tiles larger than the accumulator are excluded.
- Fft.Cfft2rmxy: sines and cosines are a parameter, required to be the powers of a root of unity; the x direction, the two-field variants and the Poisson solver are left out.
- Rounding of floating-point numbers everywhere else.
- The HPX copies of LU and N-queens, and the dual-queue scheduler.
