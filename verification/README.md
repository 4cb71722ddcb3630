# FractalTensor: a Dafny verification project

FractalTensor is a nested-list tensor language: a Python frontend with an intermediate
representation, CUDA kernels underneath, and recurrent and attention programs written in several
equivalent schedules. What the repository is for is that a fast or reordered form computes the same
thing as a simple one. This project models the places where that is hardest to see and proves it,
together with the two state machines on which everything else runs (the asynchronous tile pipeline
and the device memory pool).

Code that works step by step is modelled as methods with loops, arrays and classes that follow it
statement by statement. Each such method is proved against a specification function, and the
theorems are lemmas about those functions. Code made of `map`, `scan`, `fold` and lambdas is
modelled as functions.

## Components

- **Pipelined GEMM.** `PipelineMachine` is a transition system: any number of threads of one block,
  each with its program counter, pointers, registers, copy groups and accumulator, interleaved in
  any way between barriers, with asynchronous copies landing at any moment the waits allow.
  `PipelineProgress` proves that every run ends, after a number of steps that is the same for all
  runs, and `PipelineRace` that the ring size is exactly right. `PipelinedGemm` is the same kernel as
  one block executes it, with the copy object as a class, the three loop phases, and the plain
  inner product as reference.
- **Fused back-to-back GEMM.** `Back2BackGemm`: flat arrays, pointer resets and advances, tile
  loops, and the launch in any block order. The entries come from any type with an addition and a
  multiplication.
- **Dilated RNN.** `DilatedRnn`: pad, split, flatten, stack, run, undo; padding per layer against
  padding once.
- **Attention.** `FlashAttention`: blockwise renormalised attention over reals with an abstract
  exponential, against plain softmax attention. `Exponential` says what is assumed of the
  exponential, always as a precondition.
- **Block reductions.** `BlockReduce`: strided loops, shuffle tree and shared-memory pass against a
  sequential fold. `OnlineSoftmax`: the same tree over (maximum, sum) pairs.
- **Ragged LSTM.** `RaggedLstm`: time-major scan over shrinking batches against per-sequence scans.
- **Grid RNN.** `GridRnn`: the three-deep loop nest against any order that respects what the cells
  read, among them every permutation of the loops and every wavefront.
- **Storage propagation.** `StoragePropagation` is type and shape inference over a block-structured
  port graph, nested to any depth, as a class whose methods are the loops of the program, together
  with its recursive specification. `StorageConsistency` says what a consistent graph is,
  `StorageRuns` has the loop invariant, `StorageMeaning` the consistency theorem, `StorageOrder`
  proves that no two orders of the edges give different results, `StorageSuccess` says exactly
  which orders give one, `StorageLaws` what every kind of edge and operation does to the storages,
  and `StorageGaps` shows two places where less happens than expected.
- **FractalTensor representation.** `NestedList` relates an index tree and a flat buffer to the
  nested list they stand for, `FractalTensors` is the class, `Breadth` has the breadth-first
  constructions.
- **Memory pool.** `MemoryPool` has the pool and its blocks as classes with a specification on
  values; `PoolHistory` has the theorems over all histories.
- **Gather and scatter.** `GatherScatter`: two ways of computing an offset, grid-stride loops,
  atomic additions under every interleaving. `ScatterRows`: the row-at-a-time kernel in 32-bit
  arithmetic under every interleaving, when the two kernels agree, and conservation.

`Arith` and `Common` hold what several modules need.

## Where the code departs from its intent

These are modelled as the code is, each with the exact condition under which it does what it is for.

- The pipeline is race-free, and its result exact, if and only if the ring has at least three
  stages, or as many as there are K-tiles (`PipelineRace.RaceFreeIffRingSuffices`, for blocks of two
  threads or more; `PipelineRace.ExactIffRingSuffices`, for blocks in which some thread's first
  register step reads a cell that another thread copied). The kernel does not check this.
- The pad-once dilated RNN runs through exactly when every later rate fits the padded length, and
  never dilates its first layer (`DilatedRnn.PadOnceAgrees`, `DilatedRnn.FirstRateMatters`).
- `per_block_func` passes its initial sum where the maximum belongs and the other way round; its
  result is right exactly where the weighted values sum to zero
  (`FlashAttention.PerBlockFuncAgreesIffZero`, which also says when there is a result).
- `ReduceMD` raises the maximum before it tests whether to rescale, so the rescaling branch is never
  taken, and starts every maximum at -1e20. Up to what idle lanes contribute with their initial
  pairs, the sum is exact if and only if each thread's first element is its largest and not below
  -1e20 (`OnlineSoftmax.ReducedSum`); without that allowance it is exact if and only if, besides, no
  lane is idle (`OnlineSoftmax.SumIsExactIff`). The maximum is that of the row exactly when some
  entry is not below -1e20 (`OnlineSoftmax.ReducedMaximum`).
- An in-edge of a plain block into a state-init port, which `add_input_node` accepts, always makes
  propagation raise; and a result that is an unread constant silently gets no storage
  (`StorageGaps`).
- `FractalTensor.index` with a negative position reads the wrong part of the buffer unless nothing
  precedes the child or the child is empty (`FractalTensors.NegativeIndexIff`); `last` in
  `access.py` relies on it.
- Slice bounds are not clipped to the list, an empty slice raises, and a negative start is not
  counted from the end: for step 1 and bounds of either sign, a slice is what Python's slice of the
  list is if and only if its range is not empty and lies within the list
  (`FractalTensors.SliceIsPythonsIff`).
- Iteration ends silently at a child whose first path runs into an empty list
  (`FractalTensors.Unbind`).
- `Join` works up to depth 2, and `from_pylist` on uniformly nested lists up to depth 3 and on no
  others (`FractalTensors.Join`, `Breadth.FromPylist`).
- A time-major batch with an empty row cannot be processed: cutting the states to width zero raises
  (`RaggedLstm.LayerRunsIffProcessable`).
- The two scatter kernels have the same effect if and only if no row's offset reaches 2^32
  (`ScatterRows.ScattersAgreeIffOffsetsFit`, `GatherScatter.KernelsAgree`).
- Propagation takes the edges as they are kept, tail by tail in the order in which the tails were
  first used. On a graph that some order propagates, an order does so if and only if, in every block
  that is reached, an internal edge out of a nested node comes after all edges into that node
  (`StorageSuccess.PropagatesIffOrderly`, for orders of any kind).
- A request for zero bytes divides by zero exactly when some block has been deallocated and its
  events are complete (`PoolHistory.ZeroBytes`).
- As the state of the y direction, `GridRNNNaive.forward` reads the x component of the cell at
  (d, i, j-1) where docs/README.md (line 125) takes the y component. The theorems of `GridRnn` hold
  for cells that use either or both. The two give the same grid, whatever the cell function, if and
  only if the grid is empty or there is a single target word (`GridRnn.CellsAgreeIffOneColumn`).

## Model

| member | source | states |
|---|---|---|
| `PipelineMachine.AllRunsHazardFree` | kaleido/core/device/kernels/cutlass_wmma.h:305-422 | in every interleaving of the threads of a block, with copies landing at any moment the waits allow, and a ring of three stages or as many as there are K-tiles, a thread reads a ring slot only when every thread's share of the tile it expects is there, and no copy in flight is bound for a slot that some thread may still read |
| `PipelineMachine.AllRunsExact` | kaleido/core/device/kernels/cutlass_wmma.h:345-421 | in every run with such a ring a finished thread has made n * k_tiles multiplications, the m-th with step m mod k_tiles of K-tile m / k_tiles, from a register into which that step's slice of that tile was loaded |
| `PipelineProgress.NeverStuck` | kaleido/core/device/kernels/cutlass_wmma.h:305-422 | barriers and waits never deadlock, whatever the size of the ring: until all threads are done some step is possible |
| `PipelineProgress.RunsEnd` | kaleido/core/device/kernels/cutlass_wmma.h:305-430 | no run is longer than a fixed number of steps and landings; a run has that length exactly when all threads are done and no copy is in flight, and exactly when nothing more can happen |
| `PipelineProgress.WorkOfOneThread` | kaleido/core/device/kernels/cutlass_wmma.h:305-421 | that number, for one thread: (n - 2) * (4 * k_tiles + 3) + 6 * k_tiles + 13 |
| `PipelineProgress.NextWorks` | kaleido/core/device/kernels/cutlass_wmma.h:345-421 | each step of a thread and each landing uses up exactly one unit of work, no copy being issued twice |
| `PipelineProgress.Complete` | kaleido/core/device/kernels/cutlass_wmma.h:305-430 | every run can be continued to a complete one |
| `PipelineProgress.CompleteRunsExact` | kaleido/core/device/kernels/cutlass_wmma.h:345-421 | at the end of a complete run with a ring that suffices, every thread is done and has made exactly those multiplications, in that order |
| `PipelineMachine.InvIsSafe` | kaleido/core/device/kernels/cutlass_wmma.h:345-402 | the invariant of the protocol excludes every hazard, given a ring of three stages or as many as there are K-tiles |
| `PipelineMachine.StepInv` | kaleido/core/device/kernels/cutlass_wmma.h:345-421 | a step of any one thread keeps the invariant |
| `PipelineMachine.LandInv` | kaleido/core/device/kernels/gemm_utils.h:187-192 | the landing of any one asynchronous copy keeps the invariant |
| `PipelineMachine.RunInv` | kaleido/core/device/kernels/cutlass_wmma.h:302-421 | the invariant holds in every state of every run |
| `PipelineMachine.TileIsSettled` | kaleido/core/device/kernels/cutlass_wmma.h:362-376 | between two barriers a thread's copies of the tile being read have landed and its later copies go to other slots |
| `PipelineMachine.LoadIsTile` | kaleido/core/device/kernels/cutlass_wmma.h:348-354 | what a register step loads is the tile the thread's barrier count says, whichever cells it reads and whoever copied them |
| `PipelineMachine.SameSlot` | kaleido/core/device/kernels/gemm_utils.h:206-210 | of all tiles that map to one ring slot only one can be in flight |
| `PipelineMachine.StepPointers` | kaleido/core/device/kernels/cutlass_wmma.h:362-372 | each thread's source, destination and read pointers are at all times the linear tile numbers modulo the ring size |
| `PipelineMachine.StepRegisters` | kaleido/core/device/kernels/cutlass_wmma.h:348-380 | the register buffer runs one step ahead of the multiplication and always holds the right tile |
| `PipelineMachine.StepShare` | kaleido/core/device/kernels/cutlass_wmma.h:356-371 | every thread's share of every tile is always either landed in its slot, in flight to it, not yet issued, or overwritten by a later tile |
| `PipelineMachine.StoreIsQuiet` | kaleido/core/device/kernels/cutlass_wmma.h:422-430 | past the last barrier every thread has drained its copies and finished reading, so shared memory may be reused for the result |
| `PipelineRace.SmallRingRaces` | kaleido/core/device/kernels/cutlass_wmma.h:305-376 | with a smaller ring, and any two threads, a state is reachable in which one is about to read its first tile while the other's whole share of a later tile is in flight to the same slot |
| `PipelineRace.RaceFreeIffRingSuffices` | kaleido/core/device/kernels/cutlass_wmma.h:275-376 | all runs are race-free if and only if the ring has at least three stages, or as many as there are K-tiles |
| `PipelineRace.ExactIffRingSuffices` | kaleido/core/device/kernels/cutlass_wmma.h:275-421 | if some thread's first register step reads a cell that another thread copied, every finished thread has made exactly those multiplications in all runs if and only if the ring has that size |
| `PipelineRace.SmallRingIsWrong` | kaleido/core/device/kernels/cutlass_wmma.h:305-421 | with a smaller ring, if a thread's first register step reads a cell that another thread copied, some complete run ends with a wrong sum: the thread reads its first tile after all of the other's share of a later tile has landed in the slot |
| `PipelineRace.RacingIsUnsafe` | kaleido/core/device/kernels/cutlass_wmma.h:345-376 | a race is a violation of the hazard condition |
| `PipelinedGemm.CopyAsyncG2S.constructor` | kaleido/core/device/kernels/gemm_utils.h:111-125 | pointers at the first tile and slot, no copy in flight |
| `PipelinedGemm.CopyAsyncG2S.CommitCopyGroup` | kaleido/core/device/kernels/gemm_utils.h:194-195 | the copies issued so far become one group bound for the current slot |
| `PipelinedGemm.CopyAsyncG2S.Next` | kaleido/core/device/kernels/gemm_utils.h:197-204 | source and destination advance by one tile |
| `PipelinedGemm.CopyAsyncG2S.CycleDst` | kaleido/core/device/kernels/gemm_utils.h:206-210 | the destination goes back by one turn of the ring |
| `PipelinedGemm.CopyAsyncG2S.Copy` | kaleido/core/device/kernels/gemm_utils.h:129-152 | commits exactly the whole tile, whatever it was called after; while its own count of calls and the source agree, it leaves the destination in the slot of the next tile |
| `PipelinedGemm.CopyAsyncG2S.CopyOperand` | kaleido/core/device/kernels/gemm_utils.h:132-145 | the row-by-column loops issue every position of an operand |
| `PipelinedGemm.CopyAsyncG2S.Copy2` | kaleido/core/device/kernels/gemm_utils.h:168-185 | issues the idx-th share of both operands, cut off at their ends |
| `PipelinedGemm.CopyAsyncG2S.CopyShare` | kaleido/core/device/kernels/gemm_utils.h:172-184 | one operand's positions from idx*n to the smaller of (idx+1)*n and N |
| `PipelinedGemm.CopyAsyncG2S.WaitGroup` | kaleido/core/device/kernels/gemm_utils.h:187-192 | all groups but the latest `allowed` land in their slots, oldest first, the others stay in flight |
| `PipelinedGemm.KeyAtBijective` | kaleido/core/device/kernels/gemm_utils.h:173-175 | the row and column computed from a position determine it, and the other way round |
| `PipelinedGemm.SharesAreTile` | kaleido/core/device/kernels/cutlass_wmma.h:330-336 | the shares of all k_tiles steps are together exactly one tile, including when the counts do not divide |
| `PipelinedGemm.SharesOnce` | kaleido/core/device/kernels/gemm_utils.h:168-185 | the first m shares issue each cell at a position below m shares' worth exactly once, and no other |
| `PipelinedGemm.TileIssuedOnce` | kaleido/core/device/kernels/gemm_utils.h:168-185 | the shares of all k_tiles steps issue every row and column of both operands exactly once, counting repetitions |
| `PipelinedGemm.FilledIsTile` | kaleido/core/device/kernels/gemm_utils.h:132-145 | both operands' positions are together exactly one tile |
| `PipelinedGemm.TileCells` | kaleido/core/device/kernels/gemm_utils.h:132-145 | a tile has one cell, of the source, for each row and column of both operands' copy partitions, and no other |
| `PipelinedGemm.SwitchSlot` | kaleido/core/device/kernels/cutlass_wmma.h:361-376 | the wrap-around of read and write pointers at the end of a block moves to the slot of the next tile |
| `PipelinedGemm.StageOne` | kaleido/core/device/kernels/cutlass_wmma.h:346-381 | one block of the main loop: keeps the steady state, adds that block's tile to the sum, and issues a copy of each row and column of the tile being fetched exactly once |
| `PipelinedGemm.StageTwo` | kaleido/core/device/kernels/cutlass_wmma.h:383-406 | the second phase waits for the last tile and adds the last but one |
| `PipelinedGemm.StageThree` | kaleido/core/device/kernels/cutlass_wmma.h:408-421 | the third phase adds the last tile |
| `PipelinedGemm.KeGemmPipelined` | kaleido/core/device/kernels/cutlass_wmma.h:258-422 | for any number of steps and tiles from 2, and of stages from 3 or from the number of tiles, the accumulator equals that of the plain loop that multiplies slice i of tile blk for every tile and step |
| `PipelinedGemm.StartIsLinear` | kaleido/core/device/kernels/cutlass_wmma.h:345-421 | step i of tile blk starts at (blk * k_tiles + i) * w of the K dimension |
| `PipelinedGemm.KSumIsInnerProduct` | kaleido/core/device/kernels/cutlass_wmma.h:378-380 | if a step multiplies its slice, the plain loop is the inner product over the whole K dimension |
| `PipelinedGemm.WholeProduct` | kaleido/core/device/kernels/cutlass_wmma.h:345-421 | after n tiles that is the sum of all n * k_tiles * w products |
| `PipelinedGemm.SumSelects` | kaleido/core/device/kernels/cutlass_wmma.h:378-380 | in which each product counts once |
| `Back2BackGemm.Launch` | kaleido/core/device/kernels/gemm.h:262-268 | running all blocks of the grid, in any order, leaves D = (A x B) x C in every entry |
| `Back2BackGemm.Kernel` | kaleido/core/device/kernels/cutlass_wmma.h:440-540 | one block completes exactly its own tile of D and changes no other entry |
| `Back2BackGemm.FusedLoops` | kaleido/core/device/kernels/cutlass_wmma.h:489-533 | the loop over N with its advancing C pointer leaves the finished tile of D in registers |
| `Back2BackGemm.FusedStep` | kaleido/core/device/kernels/cutlass_wmma.h:489-533 | one iteration over N extends every partial sum by one tile and leaves the first accumulator cleared |
| `Back2BackGemm.FirstGemm` | kaleido/core/device/kernels/cutlass_wmma.h:490-511 | the loop over K, with A re-read from its start and B from row n, computes a tile of A x B |
| `Back2BackGemm.SecondGemm` | kaleido/core/device/kernels/cutlass_wmma.h:512-532 | a tile of A x B times a tile of C is added to the second accumulator |
| `Back2BackGemm.LoadTile` | kaleido/core/device/kernels/cutlass_wmma.h:493-496 | a shared tile holds the matrix elements from the pointer on |
| `Back2BackGemm.MultiplyAdd` | kaleido/core/device/kernels/cutlass_wmma.h:502-506 | the loop over register tiles adds the products along the shared dimension, in order |
| `Back2BackGemm.StoreTile` | kaleido/core/device/kernels/cutlass_wmma.h:535-539 | the registers go to the tile of D and nowhere else |
| `Back2BackGemm.AccumulatedIsDot` | kaleido/core/device/kernels/cutlass_wmma.h:492-511 | accumulating the products of one tile on top of a prefix sum is the longer prefix sum |
| `Back2BackGemm.OneOwner` | kaleido/core/device/kernels/gemm.h:262-268 | every entry of D belongs to exactly one block of the grid |
| `Back2BackGemm.Rebracket` | kaleido/core/device/kernels/cutlass_wmma.h:439 | over the integers the result is also A x (B x C) |
| `Back2BackGemm.ResultEntry` | kaleido/core/device/kernels/cutlass_wmma.h:439-540 | over the integers entry (m, q) is the sum over n and k of A[m * K + k] * B[n * K + k] * C[q * N + n] |
| `Back2BackGemm.IntSumSelects` | kaleido/core/device/kernels/cutlass_wmma.h:492-532 | in such a sum each index counts once |
| `Back2BackGemm.DotOfTwo` | kaleido/core/device/kernels/cutlass_wmma.h:502-506 | in any ring, products keep the order of their factors and are added from the left |
| `DilatedRnn.ForwardOneIsDilated` | benchmarks/rnn/baselines/stacked_dilated_rnn/pt_model/model.py:124-152 | _forward at rate r gives at step t, row b the cell run over x[t mod r], x[t mod r + r], ..., x[t], for every length |
| `DilatedRnn.ForwardIsLayered` | benchmarks/rnn/baselines/stacked_dilated_rnn/pt_model/model.py:124-157 | through any number of layers, from the first cell to the last, each layer's output is the dilated recurrence, at its own rate, over the output of the layer before |
| `DilatedRnn.JitIsLayered` | benchmarks/rnn/baselines/stacked_dilated_rnn/pt_model/model.py:62-91 | when the pad-once form runs through, so is each of its layers on the padded input, except that the first has rate 1 |
| `DilatedRnn.DilatedStep` | benchmarks/rnn/baselines/stacked_dilated_rnn/pt_model/model.py:137-152 | the state at step t comes from the state at step t - r, or the initial one, and the input at t |
| `DilatedRnn.StridedAt` | benchmarks/rnn/baselines/stacked_dilated_rnn/pt_model/model.py:137-142 | what row b has seen at step t are the t / r + 1 inputs x[t mod r + k * r][b], in that order |
| `DilatedRnn.PadOnceAgrees` | benchmarks/rnn/baselines/stacked_dilated_rnn/pt_model/model.py:62-91 | with first rate 1, the pad-once form runs through exactly when every later rate fits the padded length, and then its first seq_len outputs are those of padding per layer, for any number of layers |
| `DilatedRnn.DividingRatesFit` | benchmarks/rnn/baselines/stacked_dilated_rnn/pt_model/model.py:37-44 | the pad-once form runs through whenever every rate divides the last |
| `DilatedRnn.FirstRateMatters` | benchmarks/rnn/baselines/stacked_dilated_rnn/pt_model/model.py:66-67 | with a first rate of two or more the two forms already differ on two steps |
| `DilatedRnn.LayerMeaning` | benchmarks/rnn/baselines/stacked_dilated_rnn/pt_model/model.py:71-90 | a layer without padding succeeds exactly when the length fits, and then computes the dilated recurrence |
| `DilatedRnn.HiddenIsStrided` | benchmarks/rnn/baselines/stacked_dilated_rnn/pt_model/model.py:137-142 | where in the re-batched layer each step and row is computed, and from which inputs |
| `DilatedRnn.UpperAgrees` | benchmarks/rnn/baselines/stacked_dilated_rnn/pt_model/model.py:69-90 | layers above the first agree on the common prefix of a sequence and its padded extension |
| `DilatedRnn.DilatedPrefix` | benchmarks/rnn/baselines/stacked_dilated_rnn/pt_model/model.py:151-152 | causality: a dilated layer's outputs do not depend on later inputs |
| `DilatedRnn.LstmIsDilatedByOne` | benchmarks/rnn/baselines/stacked_dilated_rnn/pt_model/model.py:66-67 | an ordinary LSTM is the dilated recurrence of rate 1 |
| `DilatedRnn.StackedForward` | benchmarks/rnn/baselines/stacked_dilated_rnn/pt_model/model.py:62-91 | the loop that splits, flattens, stacks, runs and undoes computes the layered function, failing where stacking does |
| `DilatedRnn.FlattenChunks` | benchmarks/rnn/baselines/stacked_dilated_rnn/pt_model/model.py:72-76 | the appending loop flattens every chunk |
| `DilatedRnn.Unstack` | benchmarks/rnn/baselines/stacked_dilated_rnn/pt_model/model.py:82-90 | the nested appending loops restore one row block per step |
| `FlashAttention.FlashEqualsPlain` | examples/flash_attention/flash_attention.py:14-60 | from sum 0 and output 0, with any initial maximum and any split into nonempty blocks, blockwise attention equals plain attention |
| `FlashAttention.PlainMeaning` | examples/transformer/multi-head-attention.py:14-31 | plain attention is the softmax-weighted mean of the values |
| `FlashAttention.PlainOfTwo` | examples/transformer/multi-head-attention.py:14-31 | with two keys, each output column is the mean of the two values in that column, weighted by the exponentials of the scores |
| `FlashAttention.EqualValues` | examples/transformer/multi-head-attention.py:14-31 | where all values are equal the output is that value, whatever the scores |
| `FlashAttention.AttnFuncAdds` | examples/flash_attention/flash_attention.py:22-44 | one block step adds the block's exponential mass and moment to those the state stands for |
| `FlashAttention.MergeMeaning` | examples/flash_attention/flash_attention.py:31-44 | the renormalised state has exactly the summed mass, and is undefined exactly when that is zero |
| `FlashAttention.FlashMaximum` | examples/flash_attention/flash_attention.py:31-44 | the running maximum is the largest of the initial one and all scores so far |
| `FlashAttention.ReduceMeaning` | examples/flash_attention/flash_attention.py:57-59 | folding the blocks gives the total mass and moment |
| `FlashAttention.FlattenAppend` | examples/flash_attention/flash_attention.py:47-60 | the keys of the blocks, block after block |
| `FlashAttention.FlashDefined` | examples/flash_attention/flash_attention.py:41-42 | from a sum that is not negative no step divides by zero |
| `FlashAttention.FlashDefinedIff` | examples/flash_attention/flash_attention.py:41-59 | from any initial state the reduction is defined exactly when no block is empty and the mass carried so far is never zero |
| `FlashAttention.InitialSumMatters` | examples/flash_attention/flash_attention.py:52-59 | from a nonzero initial sum an output entry is right exactly where the right entry is zero |
| `FlashAttention.PerBlockFuncAgreesIffZero` | examples/flash_attention/flash_attention.py:47-60 | with the initialisers in the order in which they are passed, there is a result exactly when no first blocks have mass float32.max, and an entry of it is right exactly where the values weighted by the exponentials sum to zero |
| `FlashAttention.PerBlockFuncIsWrong` | examples/flash_attention/flash_attention.py:57-59 | a concrete input on which that order gives a wrong answer |
| `FlashAttention.PerBlockFuncStops` | examples/flash_attention/flash_attention.py:57-59 | with the initialisers in that order a first block of mass 340282346638528859811704183484516925440 divides by zero |
| `BlockReduce.BlockRowReduce` | kaleido/core/device/kernels/reduce.h:89-106 | thread 0 returns the fold of all n inputs, for every n and every block size that is a multiple of 32 up to 1024 |
| `BlockReduce.FoldFromParts` | kaleido/core/device/kernels/reduce.h:108-116 | the sequential fold takes every input once, in order |
| `BlockReduce.BlockRowMapReduce` | kaleido/core/device/kernels/reduce.h:118-138 | every mapped value is written, and the result is the finalizer of their fold |
| `BlockReduce.WrapReduce` | kaleido/core/device/kernels/reduce.h:52-60 | five shuffles leave lane 0 with the fold of its warp and touch no other warp |
| `BlockReduce.Shuffle` | kaleido/core/device/kernels/reduce.h:54-58 | one shuffle by delta folds the first 2 * delta lanes into the first delta |
| `BlockReduce.Power2Reduce` | kaleido/core/device/kernels/reduce.h:63-84 | the two-level tree folds all threads' values and the padding |
| `BlockReduce.ReduceWarps` | kaleido/core/device/kernels/reduce.h:66-70 | every warp leader holds its warp's fold |
| `BlockReduce.ReduceShared` | kaleido/core/device/kernels/reduce.h:72-82 | the first warp folds the leaders' values and the padding |
| `BlockReduce.PadsVanish` | kaleido/core/device/kernels/reduce.h:72-73 | padding with an identity does not change the fold |
| `BlockReduce.ThreadsFoldAll` | kaleido/core/device/kernels/reduce.h:94-96 | the strided folds of all threads are together the fold of the inputs so far |
| `BlockReduce.StridedLoop` | kaleido/core/device/kernels/reduce.h:92-96 | one thread's strided loop |
| `BlockReduce.MapLoop` | kaleido/core/device/kernels/reduce.h:123-128 | one thread's strided loop writes its own places only |
| `BlockReduce.Halve` | kaleido/core/device/kernels/reduce.h:54-58 | folding by halves is folding |
| `BlockReduce.FoldOfWarps` | kaleido/core/device/kernels/reduce.h:63-84 | folding the warps' folds is folding everything |
| `OnlineSoftmax.MergeIsLawful` | kaleido/core/device/kernels/online_softmax.h:25-30 | merging (maximum, sum) pairs is associative and commutative |
| `OnlineSoftmax.FoldOfMerges` | kaleido/core/device/kernels/online_softmax.h:25-58 | a tree of merges has the largest maximum and the total mass |
| `OnlineSoftmax.ReducedMaximum` | kaleido/core/device/kernels/online_softmax.h:115-143 | the kernel's maximum is the larger of the row maximum and -1e20, hence the row maximum exactly when some entry is not below -1e20 |
| `OnlineSoftmax.OrdinaryMaximum` | kaleido/core/device/kernels/online_softmax.h:115-143 | on a row with no entry below -100000000000000000000 the maximum is the largest entry |
| `OnlineSoftmax.ReducedSum` | kaleido/core/device/kernels/online_softmax.h:115-143 | for every row, the sum is never too small, and is the true sum plus the initial pairs of idle lanes if and only if every thread's first element is its largest and not below -1e20 |
| `OnlineSoftmax.RowMass` | kaleido/core/device/kernels/online_softmax.h:115-143 | the true sum counts E(x) of every entry once |
| `OnlineSoftmax.SumIsExactIff` | kaleido/core/device/kernels/online_softmax.h:115-143 | the sum is exactly that of E(x) over the row if and only if every thread's first element is its largest and not below -1e20, the block has 1024 threads and the row is at least as long |
| `OnlineSoftmax.ThreadTracks` | kaleido/core/device/kernels/online_softmax.h:118-132 | what one thread's loop knows after every prefix of the row |
| `OnlineSoftmax.ShortRowsLead` | kaleido/core/device/kernels/online_softmax.h:120-132 | for rows no longer than the block the condition holds if and only if no entry is below -1e20 |
| `OnlineSoftmax.LateMaximumIsWrong` | kaleido/core/device/kernels/online_softmax.h:121-129 | a row whose second round beats its first gives a wrong sum |
| `OnlineSoftmax.Update` | kaleido/core/device/kernels/online_softmax.h:121-129 | the loop body, with the branch that its own first statement makes unreachable |
| `OnlineSoftmax.ReduceLoop` | kaleido/core/device/kernels/online_softmax.h:120-132 | the strided loop of one thread |
| `OnlineSoftmax.ReduceMD` | kaleido/core/device/kernels/online_softmax.h:114-143 | the loops and the tree over pairs together |
| `RaggedLstm.StackCommutes` | examples/stacked_rnn/stacked_rnn.py:40-79 | through any number of layers the shrinking-batch program computes the transpose of the per-sequence program |
| `RaggedLstm.LayerCommutes` | examples/stacked_rnn/stacked_rnn.py:54-65 | one layer: hss[t][b] of the time-major scan is hss[b][t] of the per-sequence scan |
| `RaggedLstm.TransposeAt` | examples/stacked_rnn/stacked_rnn.py:40-65 | row t of the time-major batch holds at place b the t-th entry of sequence b |
| `RaggedLstm.LayerAt` | examples/stacked_rnn/stacked_rnn.py:54-65 | the output at step t is the hidden part of a state that comes from the state before it, or zero, and the input at t |
| `RaggedLstm.CellsInOrder` | examples/stacked_rnn/stacked_rnn.py:69-79 | one more cell is applied to the result of the others, per sequence |
| `RaggedLstm.CellsInOrderByTime` | examples/stacked_rnn/stacked_rnn.py:69-79 | and per time step |
| `RaggedLstm.TimeMajorMeaning` | examples/stacked_rnn/stacked_lstm1.py:40-76 | the time-major program runs through on exactly the batches with at least one row, no empty row and no row wider than the one before it, and there it computes the per-sequence program |
| `RaggedLstm.LayerRunsIffProcessable` | examples/stacked_rnn/stacked_rnn.py:48-49 | a time-major layer runs through exactly on these batches, and keeps the width of every row |
| `RaggedLstm.StackRunsIffProcessable` | examples/stacked_rnn/stacked_rnn.py:69-79 | so does any number of layers from one on |
| `RaggedLstm.TransposeTwice` | examples/utils/data_utils.py:42-66 | transposing ragged data twice gives it back |
| `RaggedLstm.GenDatasetTimeMajor` | examples/utils/data_utils.py:48-66 | row t is as wide as the number of sequences longer than t, and the rows hold as many words as the sequences |
| `RaggedLstm.WordsByRowsAndSequences` | examples/utils/data_utils.py:48-66 | counting words by rows or by sequences gives the same number |
| `RaggedLstm.WidthsSorted` | examples/utils/data_utils.py:56-64 | widths never increase |
| `GridRnn.Forward` | benchmarks/rnn/baselines/grid_lstm/pt_model/model.py:98-148 | the three nested loops fill the table with the recursively defined values: every entry is the cell applied to x and y of the entry below, or the words, and to the entries before it along the source and the target, or zero |
| `GridRnn.Visit` | benchmarks/rnn/baselines/grid_lstm/pt_model/model.py:117-144 | one cell, after all cells before it in loop order |
| `GridRnn.ProgramEquations` | benchmarks/rnn/baselines/grid_lstm/pt_model/model.py:118-144 | these values satisfy the equations of the loop body, with the first hidden vector of both neighbours as states |
| `GridRnn.InputsRise` | benchmarks/rnn/baselines/grid_lstm/pt_model/model.py:118-123 | cells that pass their inputs through deliver the words of their row and column at any depth, each in its own component |
| `GridRnn.StatesAdvance` | benchmarks/rnn/baselines/grid_lstm/pt_model/model.py:125-137 | cells that count the states they are given, along the source and along the target, find their own coordinates |
| `GridRnn.EveryOrderAgrees` | benchmarks/rnn/baselines/grid_lstm/pt_model/model.py:109-148 | any legal order that cannot be extended has run depth * src * trg steps and gives the table of the loop nest |
| `GridRnn.RunValues` | benchmarks/rnn/baselines/grid_lstm/pt_model/model.py:118-144 | in any legal order every computed cell has its recursively defined value |
| `GridRnn.NeverStuck` | benchmarks/rnn/baselines/grid_lstm/pt_model/model.py:118-137 | while a cell is missing some cell is ready |
| `GridRnn.LegalIsDistinct` | benchmarks/rnn/baselines/grid_lstm/pt_model/model.py:143-144 | a legal order computes no cell twice |
| `GridRnn.OrderedByKeyIsLegal` | docs/README.md:54 | any enumeration in order of a key that grows along the reads is legal and gives the table of the loop nest |
| `GridRnn.AnyLoopNestAgrees` | docs/README.md:54 | the loop nest is fully permutable: in whichever of the six orders the three loops are nested, the cells come in order of the outer, middle and inner counter, that order is legal, and it gives the same table |
| `GridRnn.WavefrontIsLegal` | docs/README.md:54 | so is any enumeration by wavefronts, skewed by any positive weights |
| `GridRnn.NoForwardReadsIsLegal` | docs/README.md:54 | so is any enumeration of the cells in which none reads a later one |
| `GridRnn.CellsAgreeIffOneColumn` | docs/README.md:121-139 | for every grid, the cell of the documentation and that of the program give the same values for all cell functions if and only if the grid is empty or has a single target word |
| `StoragePropagation.MatMultAssociates` | kaleido/parser/operations/tensor_primitives.py:26-43 | both bracketings of a matrix product are accepted together and infer the same storage |
| `StoragePropagation.Node.PropagateStorage` | kaleido/parser/ir_nodes.py:899-909 | succeeds and fills the ports exactly as the recursive specification says, raising where that is undefined |
| `StoragePropagation.Node.PropagateOverInEdges` | kaleido/parser/ir_nodes.py:1027-1071 | the loop over edges from the block's own ports, for plain and parallel blocks |
| `StoragePropagation.Node.PropagateOverInternalEdges` | kaleido/parser/ir_nodes.py:833-877 | the loop over edges between nested nodes, with constants inferred when first read |
| `StoragePropagation.Node.PropagateOverOutEdges` | kaleido/parser/ir_nodes.py:879-897 | the loop over edges to the block's results, wrapped in a FractalTensor by parallel blocks |
| `StoragePropagation.Node.ReadStorage` | kaleido/parser/ir_nodes.py:838-857 | the tail of an internal edge |
| `StoragePropagation.Node.VisitTip` | kaleido/parser/ir_nodes.py:871-875 | the tip node is inferred once its inputs are known, and is partial until then |
| `StoragePropagation.Node.PropagateInner` | kaleido/parser/ir_nodes.py:871-873 | propagation of a nested node |
| `StorageMeaning.PropagationIsConsistent` | kaleido/parser/ir_nodes.py:807-909 | if every tip port has one incoming edge and propagation returns, every edge at every level joins equal storages (body-in ports the element), every operation output is its rule applied to its inputs, every state equals its initialiser, and nodes no edge reaches are untouched |
| `StorageMeaning.BlockSettles` | kaleido/parser/ir_nodes.py:899-909 | inside one block, every node an edge reaches has been propagated exactly once from its final inputs |
| `StorageMeaning.FillInv` | kaleido/parser/ir_nodes.py:899-908 | after both loops every edge has been processed and no node is left partial |
| `StorageRuns.StoreAndVisit` | kaleido/parser/ir_nodes.py:859-875 | a node is inferred exactly when its last unknown input arrives |
| `StorageRuns.OutputStaysUnknown` | kaleido/parser/ir_nodes.py:842-844 | propagating a node again cannot make an output known that stayed unknown |
| `StorageConsistency.PropagateKeepsInputs` | kaleido/parser/ir_nodes.py:899-909 | propagation never changes the inputs, initialisers or states of the node itself |
| `StorageLaws.BodySeesElement` | kaleido/parser/ir_nodes.py:1040-1043 | the body of a map or scan sees the list one level down of a FractalTensor, a number of the type of a tensor, and nothing else is accepted |
| `StorageLaws.ResultIsWrapped` | kaleido/parser/ir_nodes.py:890-897 | each result of a map or scan is a FractalTensor of what the body computes |
| `StorageLaws.ResultIsCarried` | kaleido/parser/ir_nodes.py:886-889 | a result of a plain block has the storage of its source |
| `StorageLaws.InputIsCarried` | kaleido/parser/ir_nodes.py:1027-1071 | an edge from an input port gives that port's storage to the input it enters |
| `StorageLaws.OutputIsCarried` | kaleido/parser/ir_nodes.py:833-877 | an edge between nested nodes gives the storage of the output to the input |
| `StorageLaws.InitIsCarried` | kaleido/parser/ir_nodes.py:859-869 | what flows into a state initialiser is also the state at that position |
| `StorageLaws.StateIsCarried` | kaleido/parser/ir_nodes.py:1044-1045 | the body reads as its state what initialises it |
| `StorageLaws.OperationIsInferred` | kaleido/parser/ir_nodes.py:871-873 | every operation that an edge reaches has the storage its rule gives for its operands |
| `StorageLaws.MapLifts` | kaleido/parser/ir_nodes.py:899-909 | a map whose body is one operation succeeds on a FractalTensor exactly when the operation does on its element, and gives a FractalTensor of that result |
| `StorageLaws.MatMultRule` | kaleido/parser/operations/tensor_primitives.py:26-43 | m x k times l x n is m x n, for k equal to l and one number type, and an error otherwise |
| `StorageLaws.ZerosRule` | kaleido/parser/operations/tensor_primitives.py:56-68 | "float" constants are 32-bit reals and "int" constants 32-bit integers |
| `StorageLaws.IndexRule` | kaleido/parser/operations/access_patterns.py:24-28 | indexing gives the storage below all levels of nesting |
| `StorageLaws.UnaryRules` | kaleido/parser/ir_nodes.py:289-297 | tanh and sigmoid keep the storage of a tensor and refuse anything else |
| `StorageLaws.BinaryRules` | kaleido/parser/ir_nodes.py:289-297 | addition and product keep the storage of the first of two tensors of one number type and refuse anything else |
| `StorageOrder.EdgeOrderIsIrrelevant` | kaleido/parser/ir_nodes.py:807-909 | any two orders of adding the edges, at every level, that both succeed fill every port alike |
| `StorageSuccess.PropagatesIffOrderly` | kaleido/parser/ir_nodes.py:807-909 | on a graph that one order of its edges propagates, another order does, and with the same result, if and only if in every block that is reached each internal edge out of a nested node comes after all edges into that node |
| `StorageSuccess.SuccessIsOrderly` | kaleido/parser/ir_nodes.py:833-877 | a propagation that returns has met the edges in such an order, at every level that is reached |
| `StorageSuccess.RunInternalSucceeds` | kaleido/parser/ir_nodes.py:833-877 | the loop over internal edges in such an order never fails on the way to a consistent assignment |
| `StorageSuccess.NothingPartial` | kaleido/parser/ir_nodes.py:899-908 | and leaves no node partial |
| `StorageGaps.OutputKnownIffProduced` | kaleido/parser/ir_nodes.py:886-889 | a result of a plain block is left without a storage exactly when no edge reaches its source or the source does not produce it |
| `StorageGaps.UnreadConstantIsSilent` | kaleido/parser/ir_nodes.py:886-889 | a program whose result is a constant: no error, no storage |
| `StorageGaps.BlockInputCannotSeedState` | kaleido/parser/ir_nodes.py:807-831 | an in-edge of a plain block into a state-init port always makes propagation raise |
| `NestedList.FillAt` | kaleido/frontend/fractal_tensor.py:262-267 | child k is the k-th subtree filled from its offset on |
| `NestedList.FillAppend` | kaleido/frontend/operations/fractaltensor/access.py:268-274 | appending index lists and buffers appends lists |
| `NestedList.FlatFill` | kaleido/frontend/operations/conversion.py:36-42 | the buffer is the nested list from left to right |
| `NestedList.SizeIsNumel` | kaleido/frontend/fractal_tensor.py:126-135 | buffer size is numel times element size |
| `NestedList.FirstDepthMeaning` | kaleido/frontend/fractal_tensor.py:481-485 | the measured depth is that of the first path alone: 1 at a leaf, one more than that of its list at a list, and an error on the way through an empty list |
| `NestedList.LabelsDoNotMatter` | kaleido/frontend/fractal_tensor.py:501-505 | how depth-1 positions are labelled makes no difference |
| `FractalTensors.CountTensors` | kaleido/frontend/fractal_tensor.py:126-135 | _numel counts the leaves |
| `FractalTensors.FractalTensor.SetIndices` | kaleido/frontend/types.py:359-386 | accepts exactly an index list whose first path has the declared depth, and tells the errors apart |
| `FractalTensors.FractalTensor.Create` | kaleido/frontend/fractal_tensor.py:273-283 | a new object with a valid representation, or the setter's error |
| `FractalTensors.FractalTensor.Index` | kaleido/frontend/fractal_tensor.py:248-294 | for idx from 0 on it is list indexing; which children it refuses and with which error; for negative idx it returns the subtree from the end filled with the start of the buffer |
| `FractalTensors.FractalTensor.CountBefore` | kaleido/frontend/fractal_tensor.py:262-266 | the tensors before a position, none for a negative one |
| `FractalTensors.FractalTensor.Wrap` | kaleido/frontend/fractal_tensor.py:271-294 | the slab becomes a tensor or a FractalTensor one level less deep |
| `FractalTensors.NegativeIndexIff` | kaleido/frontend/fractal_tensor.py:262-267 | a negative position reads the right entries for every buffer exactly when nothing precedes the child or it is empty |
| `FractalTensors.NegativeReadsHead` | kaleido/frontend/fractal_tensor.py:262-275 | what index gives at a negative position are the first entries of the buffer, as many as the subtree counted from the end takes |
| `FractalTensors.Slice` | kaleido/frontend/fractal_tensor.py:313-335 | what index gives at the positions start, start + step, ..., of either sign, raising exactly when there are none or index refuses one |
| `FractalTensors.Select` | kaleido/frontend/fractal_tensor.py:305-311 | what index gives at the given positions, in that order |
| `FractalTensors.UnitSlice` | kaleido/frontend/fractal_tensor.py:313-335 | with step 1, a start from 0 on and a later end, the slice is the sublist, and it raises when the end lies beyond the list |
| `FractalTensors.SliceIsPythonsIff` | kaleido/frontend/fractal_tensor.py:313-335 | for all bounds of either sign, a slice with step 1 succeeds and is what the same slice of the Python list is if and only if 0 <= start < end <= length, where only the end is counted from the end of the list when it is negative |
| `FractalTensors.UnitRange` | kaleido/frontend/fractal_tensor.py:324-325 | the positions of a slice with step 1 |
| `FractalTensors.RangeMeaning` | kaleido/frontend/fractal_tensor.py:324-325 | for every step of either sign position k of a slice is start + k * step, and there is one exactly while that has not reached the end |
| `FractalTensors.FromTensors` | kaleido/frontend/fractal_tensor.py:394-416 | a depth-1 list of the given tensors, exactly when there is one and all have one shape, element type and device |
| `FractalTensors.FromFractalTensors` | kaleido/frontend/fractal_tensor.py:355-392 | nesting: a list one level deeper whose elements are the given lists, exactly when there is one, they are homogeneous and on one device |
| `FractalTensors.CheckHomogeneous` | kaleido/frontend/fractal_tensor.py:367-380 | the checks on depth and element type |
| `FractalTensors.Concatenate` | kaleido/frontend/fractal_tensor.py:386-391 | index lists nested and buffers joined denote the list of lists |
| `FractalTensors.Join` | kaleido/frontend/operations/fractaltensor/access.py:261-275 | appends, exactly for lists of one depth of at most 2, whose tensors have one shape, element type and device |
| `FractalTensors.Flatten` | kaleido/frontend/operations/conversion.py:36-75 | one tensor with the values of the nested list from left to right; which dimensions are accepted, negative ones included, which one is scaled, and which error the others raise |
| `FractalTensors.Unbind` | kaleido/frontend/operations/conversion.py:134-137 | all elements in order up to the first one index refuses; whether that ends iteration silently or raises |
| `FractalTensors.UnbindThenNest` | kaleido/frontend/operations/conversion.py:134-137 | nesting the elements of unbind gives the original list back, at depth 1 with from_tensors and above with from_fractaltensors |
| `Breadth.FromPylist` | kaleido/frontend/fractal_tensor.py:418-511 | of all nested Python lists of ints, the object denotes exactly those that are uniformly nested to depth 1, 2 or 3 with no empty list on their first path; deeper lists of that kind are never converted |
| `Breadth.NestedAt` | kaleido/frontend/fractal_tensor.py:418-427 | the denoted list has an int as a cell of its own and a list as the row of its elements, in their order |
| `Breadth.Bfs` | kaleido/frontend/fractal_tensor.py:428-457 | the level-by-level queue loop |
| `Breadth.PopLevel` | kaleido/frontend/fractal_tensor.py:442-456 | one level popped, the next one queued |
| `Breadth.GenIndices` | kaleido/frontend/fractal_tensor.py:459-476 | the loop over the levels, for lengths of any kind, and when its checks fail |
| `Breadth.GeneratedMeaning` | kaleido/frontend/fractal_tensor.py:459-476 | it is right for one and two levels of lengths; for three it returns the two-level lists followed by the three-level ones, and for more levels of one list its own check fails |
| `Breadth.DenotedIsLevel` | kaleido/frontend/fractal_tensor.py:418-511 | a Python list that some FractalTensor denotes is uniformly nested |
| `Breadth.Regroup` | kaleido/frontend/fractal_tensor.py:468-475 | one pass of grouping, also when the list being sliced is the one being extended |
| `Breadth.DataInOrder` | kaleido/frontend/fractal_tensor.py:428-457 | on a uniform list breadth-first order is left-to-right order |
| `Breadth.GroupsAreTrees` | kaleido/frontend/fractal_tensor.py:468-475 | grouping the index lists of one level gives those of the level above |
| `Breadth.IndicesOfUniform` | kaleido/frontend/fractal_tensor.py:459-476 | the generated index tree has the list's shape up to depth 3, and a wrong depth beyond |
| `Breadth.MeasureDepth` | kaleido/frontend/fractal_tensor.py:481-485 | the loop down the first path finds the depth, or an empty list |
| `Breadth.WidthByDepth` | kaleido/frontend/fractal_tensor.py:183-224 | the child counts of all subtrees at a depth from left to right, and for which depths it raises |
| `Breadth.WidthLoop` | kaleido/frontend/fractal_tensor.py:205-222 | the breadth-first loop over the index tree |
| `Breadth.WidthsAddUp` | kaleido/frontend/fractal_tensor.py:183-224 | the depth-1 widths add up to numel |
| `Breadth.WidthsChain` | kaleido/frontend/fractal_tensor.py:205-222 | the widths of one level add up to the number of widths one level further down |
| `Breadth.WidthsInOrder` | kaleido/frontend/fractal_tensor.py:205-222 | at the top there is one width, the number of elements; below, the widths are those of the elements from left to right |
| `MemoryPool.CudaMemoryBlock.IsFree` | kaleido/core/cuda_allocator.h:70-88 | free exactly when marked so with all events complete; only then are the events dropped |
| `MemoryPool.CudaMemoryPool.Allocate` | kaleido/core/cuda_allocator.h:106-183 | the new contents and the pointer are those of the specification, also when events complete during the search, and vector and map still hold the same blocks in order of size; it stops only where the specification divides by zero |
| `MemoryPool.CudaMemoryPool.Deallocate` | kaleido/core/cuda_allocator.h:97-104 | succeeds exactly for a known block in use, and marks that block free |
| `MemoryPool.CudaMemoryPool.AddTrackStream` | kaleido/core/cuda_allocator.h:185-187 | one more stream, no block changed |
| `MemoryPool.CudaMemoryPool.AddBlock` | kaleido/core/cuda_allocator.h:141-163 | a new block in use at the lower bound of the vector and in the map |
| `MemoryPool.CudaMemoryPool.Reuse` | kaleido/core/cuda_allocator.h:165-182 | an idle block is handed out again with new events |
| `MemoryPool.CudaMemoryPool.RecordEvents` | kaleido/core/cuda_allocator.h:149-157 | one new event for each tracked stream |
| `MemoryPool.LowerBoundOf` | kaleido/core/cuda_allocator.h:107-108 | binary search finds the first block that is large enough |
| `MemoryPool.FindIdle` | kaleido/core/cuda_allocator.h:134-136 | the first block from there on that is idle when its turn comes, whose events alone are dropped |
| `PoolHistory.Reachable` | kaleido/core/cuda_allocator.h:97-187 | every history keeps the vector sorted, its pointers distinct, live pointers exactly the blocks not marked free, and the events of each block's last hand-out pending or complete |
| `PoolHistory.AllocationIsSafe` | kaleido/core/cuda_allocator.h:106-183 | the block handed out was not live, is large enough, is the only one made live, carries the events just recorded, and no block is lost |
| `PoolHistory.NeverTwice` | kaleido/core/cuda_allocator.h:97-183 | a pointer in use is not handed out again until it is deallocated, in any history |
| `PoolHistory.FreeIffLive` | kaleido/core/cuda_allocator.h:97-104 | deallocation passes its checks exactly for pointers in use |
| `PoolHistory.ReusePolicy` | kaleido/core/cuda_allocator.h:134-183 | a new block is made exactly when no block of at least n and fewer than 3n bytes has been deallocated and had everything recorded at its last hand-out complete by the time its turn comes; otherwise the smallest block of at least n bytes of which that is true is taken |
| `PoolHistory.ReleasedIsReused` | kaleido/core/cuda_allocator.h:134-183 | no new block is made while one of at least n and fewer than 3n bytes has been deallocated and everything recorded at its last hand-out is complete, and the block taken is no larger than any of at least n bytes of which that is true |
| `PoolHistory.IdleIffReleased` | kaleido/core/cuda_allocator.h:70-83 | a block's mark and events say free exactly when, by the history, its pointer is not in use and everything recorded at its last hand-out is complete |
| `PoolHistory.ZeroBytes` | kaleido/core/cuda_allocator.h:139-140 | a request for zero bytes divides by zero exactly when some block has been deallocated and had everything recorded for it complete by the time its turn comes |
| `GatherScatter.RunningOffset` | kaleido/core/device/kernels/gather_scatter.h:24-31 | the running product gives the row-major position of the index times the slice size |
| `GatherScatter.Strides` | kaleido/core/device/kernels/scatter_nd.h:74-79 | each stride is the product of the later dimensions, in 32-bit arithmetic |
| `GatherScatter.StrideOffset` | kaleido/core/device/kernels/scatter_nd.h:43-53 | the sum of index times stride, in 32-bit arithmetic |
| `GatherScatter.OffsetsAgree` | kaleido/core/device/kernels/scatter_nd.h:47-52 | summed strides and running product give the same offset for every rank and index depth |
| `GatherScatter.KernelsAgree` | kaleido/core/device/kernels/scatter_nd.h:43-53 | the two kernels address the same slice exactly when the offset is below 2^32, so always on tensors of at most 2^32 elements |
| `GatherScatter.SmallTensorsAgree` | kaleido/core/device/kernels/scatter_nd.h:43-53 | so they address the same slice on every tensor of at most 4294967296 elements |
| `GatherScatter.LargeIndexWraps` | kaleido/core/device/kernels/scatter_nd.h:43-53 | a valid row of a vector of 2^32 + 1 elements on which they differ |
| `GatherScatter.PositionInBounds` | kaleido/core/device/kernels/gather_scatter.h:24-31 | valid indices have positions within the tensor |
| `GatherScatter.PositionInjective` | kaleido/core/device/kernels/gather_scatter.h:24-31 | different indices have different positions |
| `GatherScatter.PositionOnto` | kaleido/core/device/kernels/gather_scatter.h:24-31 | every position within the tensor is that of some index |
| `GatherScatter.PositionInOrder` | kaleido/core/device/kernels/gather_scatter.h:24-31 | positions come in lexicographic order of the indices |
| `GatherScatter.AddressInBounds` | kaleido/core/device/kernels/gather_scatter.h:21-32 | every element moved lies within the tensor |
| `GatherScatter.AddressMeaning` | kaleido/core/device/kernels/gather_scatter.h:21-32 | place o of the r-th slice moved lies at place o of the slice selected by indices r * k to r * k + k |
| `GatherScatter.AddressInjective` | kaleido/core/device/kernels/gather_scatter.h:21-32 | two elements share an address exactly when they are the same place of equal index rows |
| `GatherScatter.AddressOf` | kaleido/core/device/kernels/gather_scatter.h:21-31 | the loop body up to the memory access |
| `GatherScatter.EachElementOnce` | kaleido/core/device/kernels/gather_scatter.h:10-13 | the grid-stride loops of all threads visit each element exactly once |
| `GatherScatter.GatherNd` | kaleido/core/device/kernels/gather_scatter.h:15-34 | whatever the order of the threads, every output element is the tensor element it addresses: row r of the output is the slice that index row r selects |
| `GatherScatter.GatherThread` | kaleido/core/device/kernels/gather_scatter.h:20-33 | one thread writes exactly the elements on its stride |
| `GatherScatter.InterleavingDoesAll` | kaleido/core/device/kernels/gather_scatter.h:10-13 | every interleaving of the threads does all the work of each, once |
| `GatherScatter.AtomicAdds` | kaleido/core/device/kernels/gather_scatter.h:50 | atomic additions in any order add to each place the updates addressed to it |
| `GatherScatter.ScatterNd` | kaleido/core/device/kernels/gather_scatter.h:36-52 | under every interleaving each place ends with its initial value plus, summed row by row, the updates of every row whose selected slice covers it |
| `GatherScatter.ContributionsByRow` | kaleido/core/device/kernels/gather_scatter.h:36-52 | the sum over all elements is the sum over the rows and, in each, over the places of its slice |
| `GatherScatter.TotalPermutes` | kaleido/core/device/kernels/gather_scatter.h:50 | a sum of updates does not depend on their order |
| `ScatterRows.ScatterRow` | kaleido/core/device/kernels/scatter_nd.h:42-56 | one index row adds its whole slice where its wrapped offset points, on tensors of any size |
| `ScatterRows.ScatterNdRows` | kaleido/core/device/kernels/scatter_nd.h:36-59 | under every interleaving of the threads' single additions, each place ends with its initial value plus, summed row by row, the updates of every row whose wrapped slice covers it; if no row's offset reaches 2^32, of every row whose selected slice covers it |
| `ScatterRows.EachAddedOnce` | kaleido/core/device/kernels/scatter_nd.h:36-41 | every interleaving of the threads' rows, place by place, performs each addition exactly once |
| `ScatterRows.ScattersAgreeIffOffsetsFit` | kaleido/core/device/kernels/scatter_nd.h:43-55 | the two scatter kernels have the same effect for all updates if and only if no row's offset reaches 2^32 |
| `ScatterRows.RowAddressInBounds` | kaleido/core/device/kernels/scatter_nd.h:43-55 | a wrapped offset never leads outside the tensor, and is the right one exactly when the offset is below 2^32 |
| `ScatterRows.RowAddressMeaning` | kaleido/core/device/kernels/scatter_nd.h:43-55 | place o of row r is added o places after the offset of indices r * k to r * k + k modulo 4294967296 |
| `ScatterRows.Conservation` | kaleido/core/device/kernels/scatter_nd.h:53-55 | over all places the additions sum to the sum of the updates |

## Left out

- CUTLASS and CuTe layouts, swizzles, fragment layouts and cp.async itself: a tile copy is an exact
  copy, a tensor-core step a multiply-add, and which cells a register step of a thread reads is a
  parameter of `PipelineMachine`.
- Rounding, half precision and the clamp at -64 in `MapRescale`: arithmetic is exact.
- PipelinedGemm.KeGemmPipelined: copies land when a wait requires it; `PipelineMachine` covers
  copies landing at any moment and threads at different speeds.
- The epilogue of the pipelined kernel and its launch, which divides by `kTM * kTM`; the simpler
  tiled kernels `KeGemm`, `KeCuteGemm` and `KeBatchedCuteGemm`, whose loops are those of the fused
  kernel's first GEMM.
- Barriers inside the fused kernel: its blocks are modelled as running in lock step.
- DilatedRnn.StackedForward: the input has the sequence length for which the padding was made, and
  both forms use the same cells.
- The recurrent cell is any function of state and input; gates and weights are not modelled, nor
  are `ops.map`, `ops.scan`, `ops.fold` and torch's own `split`, `stack` and `LSTM` beyond what their
  documentation says.
- The shuffle wrapper that converts every type to `float`.
- StoragePropagation.Node.PropagateOverInEdges: a value captured from an enclosing block
  (`retrieve_tail_port_storage`) counts as an error here.
- Access operations other than `index`, and operations without an inference rule.
- Layout order and strides of tensor storages, and the sharing of one storage object by several
  ports: storages are values here, and a nested node is propagated as a copy that is put back.
- StorageMeaning.PropagationIsConsistent: reduce and fold are typed as the code types them, wrapped
  like a scan's result.
- Edge ends that name no existing port raise here when they are reached; the program raises when
  such an edge is added, except for body ports, where it only warns.
- Breadth.FromPylist: of a list that is not uniformly nested only this is stated, that the result
  does not denote it.
- FractalTensors without data, and the cached lengths of nested types.
- `Slide`, `ShiftedSlide`, `Window`, `Zip`, `Product`, tensor `Repeat` and `Split`: easy or
  inconsistent index rules.
- MemoryPool.FindIdle: the queries of one block's events count as made at one moment, that of the
  query that decides.
- Errors from the CUDA runtime; `cudaMalloc` returns a new pointer, also for zero bytes.
- GatherScatter.RunningOffset: 64-bit offsets are not taken to overflow.
- The handwritten LSTM kernels, the Python parser that builds the port graph, plotting, timing and
  benchmark drivers.
