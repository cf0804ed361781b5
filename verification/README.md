# Proofs about the calibrated trellis encoder and the data-parallel engine core

Dafny models of two systems that live in one repository. The encoder turns
BF16 expert weights into trellis codes: it regularizes a weight, walks it bottom-up
with error feedback, spends an exact bit budget over the tensors of a layer, and
feeds itself from a flat capture of routed rows that a restartable pass writes.
The engine core schedules batches, pauses and resumes data-parallel ranks, and
takes requests and aborts from an input thread. `dafny verify dfyconfig.toml`
checks every file.

## What is proved

**Blocked error feedback** (`Tiles`, `Ldlq`, `AllTiles`, `Pooling`, `LockstepLdlq`).
Whatever the span size, every 16-row block of the result is the quantization of its
weights plus the factor columns against the errors of all later rows. With a zero factor it is the independent quantization of all tiles. Many
walks stepped in lockstep around one quantizer call end like their sequential
selves, for every pool size.

**Golden-section scale search** (`GoldenSection`, `GoldenPool`). The reused point is
always where the fresh formula would put it; every search makes 13 evaluations
whatever it is told; for a strictly unimodal error the answer is within 0.005 of the
minimizer; the pooled search gives each slice its own sequential answer.

**Hadamard regularization** (`Linear`, `Hadamard`, `Blockwise`, `Regularize`). The
doubling loop builds the matrix whose signs count shared binary ones, with H H = n I, the
in-place block loops multiply every block by it, every factor the regularization returns is
given in numbers, and the decode gives the regularized weight back.
Two conditions are exact: the round trip holds if and only if every channel below the
zero threshold is zero throughout, and, with sign draws and the golden-section search,
something is divided by zero if and only if a sign meets the one scale value that cancels
the nudge, over the columns or then over the rows.

**Exact allocation** (`Allocation`). For every number of tensors, integer gains and
budget the dynamic program answers exactly when the budget is at most twice the
number of tensors, spends it exactly, and returns the best assignment. The source's
comment says ties go to low bits first; the loops decide otherwise, and the model
follows the loops: among equal scores the assignment greatest when read from the last
tensor to the first wins.

**Channel orders** (`Orders`, `EnergyBalance`, `Permutation`). The capacity-limited
greedy always finds a bucket, gives every rank to the least full total, fills every block
exactly and leaves any two block totals within the largest entry of each other. Baking any order into an expert's three weights
leaves its function unchanged for any pointwise activation, and the inverse restores the
weights.

**Data-parallel waves** (`DpWave`, `DpPause`, `PlainStep`, `DpCores`). N ranks meet only
in all-reduces; every interleaving is covered. The outcomes so far determine each rank's
flags and counter, hence ranks in a sync have counted alike, the two kinds of all-reduce
never meet, wave numbers never fall, a wave start for a completed wave does nothing, and
after an agreed stop nothing restarts a rank before the resume barrier.
Whoever reads its k-th outcome as an agreement, everyone does, and every rank entered that
sync pending. The engine cores themselves are objects whose handlers are driven through
any run of the model.

Three results depend on what the all-reduces return. The body of sync_dp_state is not part
of this model; it is taken to return (any rank unfinished, all ranks pending). Under that
assumption a paused rank stops without agreement exactly when a sync since its pause found
no rank with unfinished work; a run from every initial state of two or more ranks gets
there; and until a wave start reaches the stopped rank no all-reduce ever completes, its
resume raises, and a rank that enters a sync waits there forever. Hence a pause still
reaches its consensus, once every rank is paused, exactly when no sync since the first
pause found no unfinished work.

With the plain step function in place of the batch-queue one, two ranks both get to their
k-th sync exactly when each was busy in all of its first 16 k iterations: one idle
iteration and a rank never syncs again in that wave.

**Batch queue** (`BatchQueue`). The bounded deque never drops a batch; batches are
folded back once each, in schedule order, and sampled once each where sampling is due; the
busy loop exits only with an empty queue.

**Aborts through two queues** (`AbortQueues`). In every interleaving of the input thread
and the main loop no abort is lost, and a handled abort ends its request until the id is
added again. Over all streams, an eager abort never hits a request that its ordered copy
would spare if and only if every abort of the id comes behind every add of it on the same
connection; whenever that fails, a run removes a live request with nothing due any more.

**Capture pass** (`CapturePass`, `OrderedResults`). A process that may die anywhere, also
half-way through removing a directory, restarts without ever missing an input or reading a
half-removed state, and finishes with what a crash-free pass records; told to keep its
states it loses none. The multi-device
pipeline returns every prompt once, in order, with one outstanding prompt per unit.

**Indexes, sums and reservoirs** (`MassFold`, `Fallback`, `RowIndex`, `ExpertRows`,
`RowPlans`, `Calibration`). The histogram fold is the real per-expert sum in units of
2^-149 for every chunk the guard allows; the streaming reservoirs keep the rows of lowest
priority in every bucket and overall; the stable-argsort index answers exactly the routed
rows; both row iterators yield them with their own weights. Calibrating an expert over
a capture, block by block or through the index, never meets a duplicate row or differing
plans: the fit plan succeeds exactly when the capture has min_fit_rows rows of the split,
the holdout exactly when it has holdout_rows of the other, and otherwise the error and the
number of missing rows are known.

## Conventions

Numbers are exact: reals for weights and scales, integers for gains, masses and counts.
The quantizer kernel is a pure function of one tile. State that the source updates in
place is a class or an array here; sequences stand for lists and deques. A concurrent
system is a value `State` or `System` with an `Enabled` and an `Apply` per event, and
its theorems range over every run.

## Model

| member | source | states |
|---|---|---|
| `Tiles.TensorCoreOrderBijective` | reproducibility/r10/lineage/encode_tr3_v31.py:383-408 | the lane order of a 16x16 tile lists every (row, column) once and its argsort undoes it |
| `Tiles.TensorCorePerm` | reproducibility/r10/lineage/encode_tr3_v31.py:383-402 | the loop over the 32 lanes writes that order: place p of a tile holds the entry of its row and column |
| `Tiles.ScatterUndoesGather` | reproducibility/r10/lineage/encode_tr3_v31.py:926-930 | gathering, a quantizer that returns its tile, and scattering give the block back |
| `Tiles.QuantizeTilesConcat` | reproducibility/r10/lineage/encode_tr3_v31.py:498-510 | a quantizer call on a concatenation answers each part as a call of its own would |
| `Ldlq.Slice.FeedbackSplit` | reproducibility/r10/lineage/encode_tr3_v31.py:917-940 | feedback over a range of rows splits at any row |
| `Ldlq.Slice.FeedbackOfTail` | reproducibility/r10/lineage/encode_tr3_v31.py:917-940 | feedback of settled rows reads those rows only |
| `Ldlq.Slice.FeedbackIsDot` | reproducibility/r10/lineage/encode_tr3_v31.py:917-923 | the feedback of an entry is the inner product of its factor column with weight - weight_q over the rows below |
| `Ldlq.Slice.CacheGrows` | reproducibility/r10/lineage/encode_tr3_v31.py:921-923 | compensating a cached row completes its feedback from the whole tail |
| `Ldlq.Slice.BlockEntry` | reproducibility/r10/lineage/encode_tr3_v31.py:921-924 | one entry of the compensated cache is the feedback of every later row |
| `Ldlq.Slice.BlockRow` | reproducibility/r10/lineage/encode_tr3_v31.py:921-924 | cache plus in-span compensation is the feedback of every later row |
| `Ldlq.Slice.FedBlock` | reproducibility/r10/lineage/encode_tr3_v31.py:917-924 | the rows handed to the quantizer are the block input of the span-free walk |
| `Ldlq.Slice.IdealTail` | reproducibility/r10/lineage/encode_tr3_v31.py:903-940 | later blocks are settled before earlier ones and never change |
| `Ldlq.Slice.BlockStored` | reproducibility/r10/lineage/encode_tr3_v31.py:931-932 | storing a quantized block keeps the progress invariant sixteen rows lower |
| `Ldlq.Slice.SpanStored` | reproducibility/r10/lineage/encode_tr3_v31.py:938-940 | the cross-span addmm makes the cache of every earlier row know the settled span |
| `Ldlq.Slice.BlockOfInput` | reproducibility/r10/lineage/encode_tr3_v31.py:917-932 | a block whose rows are the scattered answer to its input: every tile is the quantizer's answer to weight plus the inner products with the errors of the rows after the block |
| `Ldlq.Slice.BlockOfWalk` | reproducibility/r10/lineage/encode_tr3_v31.py:903-940 | the finished walk keeps every block where it was put |
| `Ldlq.Slice.WalkIsResult` | reproducibility/r10/lineage/encode_tr3_v31.py:873-945 | so every 16-row block of the result is the quantization of its own weights plus factor columns against weight - weight_q of the rows after it |
| `Ldlq.Slice.Fresh` | reproducibility/r10/lineage/encode_tr3_v31.py:899-901 | zeroed buffers start the walk |
| `Ldlq.AddMm` | reproducibility/r10/lineage/encode_tr3_v31.py:923-923 | addmm_ in place on a range of rows, every other row unchanged |
| `Ldlq.BlockTiles` | reproducibility/r10/lineage/encode_tr3_v31.py:924-927 | weight plus compensation as tiles |
| `Ldlq.StoreBlock` | reproducibility/r10/lineage/encode_tr3_v31.py:929-932 | stores 16 rows and one code row, everything else unchanged |
| `Ldlq.QuantizeBlock` | reproducibility/r10/lineage/encode_tr3_v31.py:914-932 | one in-span iteration keeps the invariant |
| `Ldlq.FeedBackSpan` | reproducibility/r10/lineage/encode_tr3_v31.py:938-940 | the span-end feedback keeps the invariant for the next span |
| `Ldlq.QuantizeSpan` | reproducibility/r10/lineage/encode_tr3_v31.py:903-940 | one whole span keeps the invariant |
| `Ldlq.Ldlq` | reproducibility/r10/lineage/encode_tr3_v31.py:873-945 | for every span size: each 16-row block of the result is the scattered quantization of weight[r][c] plus the inner product of factor column r with column c of weight - weight_q, both over the rows after the block; it is the result of the span-free walk, so it does not depend on the span size |
| `AllTiles.NoFeedback` | reproducibility/r10/lineage/encode_tr3_v31.py:917-924 | a zero factor gives no feedback |
| `AllTiles.UnbatchIsIdeal` | reproducibility/r10/lineage/encode_tr3_v31.py:1217-1233 | one batched call on all tiles, cut back into blocks, is the walk with a zero factor |
| `AllTiles.ZeroFactorIsAllTiles` | reproducibility/r10/lineage/encode_tr3_v31.py:1320-1324 | ldlq with L = 0 equals the independent all-tiles quantization, values and codes |
| `AllTiles.ExactQuantizerKeepsWeights` | reproducibility/r10/lineage/encode_tr3_v31.py:873-945 | with a quantizer that returns its tile the walk returns the weight, whatever L |
| `Pooling.PooledAnswer` | reproducibility/r10/lineage/encode_tr3_v31.py:1080-1091 | the offsets run through the whole batch and each part finds its own answer there |
| `LockstepLdlq.LDLQWalk.constructor` | reproducibility/r10/lineage/encode_tr3_v31.py:979-1005 | a new walk stands at the last block |
| `LockstepLdlq.LDLQWalk.Prepare` | reproducibility/r10/lineage/encode_tr3_v31.py:1007-1029 | yields exactly the tiles the span-free walk feeds next |
| `LockstepLdlq.LDLQWalk.Settle` | reproducibility/r10/lineage/encode_tr3_v31.py:1031-1041 | stores the answer of one block: one more block is settled |
| `LockstepLdlq.LDLQWalk.Commit` | reproducibility/r10/lineage/encode_tr3_v31.py:1031-1053 | settles one block and moves the front 16 rows up |
| `LockstepLdlq.LDLQWalk.CloseSpan` | reproducibility/r10/lineage/encode_tr3_v31.py:1043-1053 | closes a span with its feedback and reports done at row 0 |
| `LockstepLdlq.LDLQWalk.StartSpan` | reproducibility/r10/lineage/encode_tr3_v31.py:1046-1053 | moves on to the span before, or reports done at row 0 |
| `LockstepLdlq.LDLQWalk.DoneAsSequential` | reproducibility/r10/lineage/encode_tr3_v31.py:1049-1053 | a finished walk holds the result of the sequential ldlq |
| `LockstepLdlq.PrepareAll` | reproducibility/r10/lineage/encode_tr3_v31.py:1080-1080 | prepares every active walk; no walk disturbs another |
| `LockstepLdlq.CommitPart` | reproducibility/r10/lineage/encode_tr3_v31.py:1085-1090 | gives one walk its own rows of the answer and keeps it unless it is done |
| `LockstepLdlq.CommitAll` | reproducibility/r10/lineage/encode_tr3_v31.py:1083-1091 | scatters the answer; the final offset is the batch length |
| `LockstepLdlq.Step` | reproducibility/r10/lineage/encode_tr3_v31.py:1080-1092 | one pooled quantizer call advances every active walk by one block |
| `LockstepLdlq.StepAmong` | reproducibility/r10/lineage/encode_tr3_v31.py:1080-1092 | a step leaves the walks outside the pool alone |
| `LockstepLdlq.Refill` | reproducibility/r10/lineage/encode_tr3_v31.py:1078-1079 | fills the pool up to n_max in arrival order |
| `LockstepLdlq.Turn` | reproducibility/r10/lineage/encode_tr3_v31.py:1077-1092 | one round keeps the pool invariant and settles rows |
| `LockstepLdlq.Lockstep` | reproducibility/r10/lineage/encode_tr3_v31.py:1056-1094 | terminates for every pool size of at least one and leaves each walk with its sequential result, block by block the quantization of weight plus feedback |
| `GoldenSection.GoldenIffSquare` | reproducibility/r10/lineage/encode_tr3_v31.py:533-534 | 2 - phi is the root below 1/2 of g^2 = 3g - 1, in the form the proofs use |
| `GoldenSection.KeepLeft` | reproducibility/r10/lineage/encode_tr3_v31.py:542-545 | the old inner point is where the fresh formula puts the new outer point |
| `GoldenSection.KeepRight` | reproducibility/r10/lineage/encode_tr3_v31.py:546-549 | the old outer point is where the fresh formula puts the new inner point |
| `GoldenSection.OpenIff` | reproducibility/r10/lineage/encode_tr3_v31.py:541-541 | the bracket is wider than the tolerance after i steps exactly when i <= 10 |
| `GoldenSection.IdealWidth` | reproducibility/r10/lineage/encode_tr3_v31.py:535-549 | width and bounds of the bracket after i textbook steps |
| `GoldenSection.MinimizerStays` | reproducibility/r10/lineage/encode_tr3_v31.py:541-549 | the minimizer of a strictly unimodal error stays in every bracket |
| `GoldenSection.AnswerIsClose` | reproducibility/r10/lineage/encode_tr3_v31.py:550-550 | the answer is within 0.005 of the minimizer |
| `GoldenSection.AnswerIsPositive` | reproducibility/r10/lineage/encode_tr3_v31.py:550-550 | whatever the error, the answer lies strictly between 0.1 and 1.9 |
| `GoldenSection.IdealIsFound` | reproducibility/r10/lineage/encode_tr3_v31.py:533-550 | eleven steps from [0.1, 1.9], each keeping the side of the smaller error and the right one on a tie, end at the textbook answer |
| `GoldenSection.RunIsIdeal` | reproducibility/r10/lineage/encode_tr3_v31.py:541-549 | there is one such run of brackets |
| `GoldenSection.FoundIsPositive` | reproducibility/r10/lineage/encode_tr3_v31.py:550-550 | whatever such a run answers with lies strictly between 0.1 and 1.9 |
| `GoldenSection.Search` | reproducibility/r10/lineage/encode_tr3_v31.py:533-550 | the search that reuses points answers with the middle of the eleventh bracket from [0.1, 1.9] and the mean error of its two interior points, with exactly 13 evaluations |
| `GoldenPool.ShapedGrows` | reproducibility/r10/lineage/encode_tr3_v31.py:601-612 | one send narrows the bracket by the golden ratio whatever value it carries |
| `GoldenPool.ClosesAfter13` | reproducibility/r10/lineage/encode_tr3_v31.py:591-612 | every bracket walk is open before 13 sends and closed after them, whatever errors it is told |
| `GoldenPool.AtGrows` | reproducibility/r10/lineage/encode_tr3_v31.py:601-612 | a send of the candidate's error moves the walk to the next textbook bracket |
| `GoldenPool.CandidatePositive` | reproducibility/r10/lineage/encode_tr3_v31.py:599-611 | every candidate scale lies strictly between 0.1 and 1.9, so dividing by it is safe |
| `GoldenPool.TestScaleIsMean` | reproducibility/r10/lineage/encode_tr3_v31.py:530-532 | the measured error is the mean, over all entries of the sample, of the square of the quantized scaled entry over the scale less the entry |
| `GoldenPool.Gather` | reproducibility/r10/lineage/encode_tr3_v31.py:657-657 | each active search contributes its tiles times its candidate |
| `GoldenPool.Measure` | reproducibility/r10/lineage/encode_tr3_v31.py:660-667 | each search is measured on its own rows of the pooled answer, the offset ends at the batch length |
| `GoldenPool.SendAll` | reproducibility/r10/lineage/encode_tr3_v31.py:669-676 | sends every error and keeps the searches still open |
| `GoldenPool.Wave` | reproducibility/r10/lineage/encode_tr3_v31.py:654-676 | one pooled wave |
| `GoldenPool.Waves` | reproducibility/r10/lineage/encode_tr3_v31.py:653-676 | 13 waves close every walk, and none remains in the pool |
| `GoldenPool.AllAnswered` | reproducibility/r10/lineage/encode_tr3_v31.py:669-676 | every closed walk holds the textbook answer of its own slice |
| `GoldenPool.SampleTiles` | reproducibility/r10/lineage/encode_tr3_v31.py:517-528 | three tiles of every diagonal step, the same construction in both searches |
| `GoldenPool.SampledAt` | reproducibility/r10/lineage/encode_tr3_v31.py:521-527 | the sample holds at 3 i + w the tile of step i and offset w |
| `GoldenPool.TileAtEntry` | reproducibility/r10/lineage/encode_tr3_v31.py:521-527 | entry p of that tile: block row i modulo the tile rows, block column i + w modulo the tile columns, the lane order inside |
| `GoldenPool.GssAlone` | reproducibility/r10/lineage/encode_tr3_v31.py:513-550 | the sequential search over one weight |
| `GoldenPool.GssLockstep` | reproducibility/r10/lineage/encode_tr3_v31.py:618-687 | the pooled search gives every slice what eleven steps over the errors of its own sample come to, as its sequential search does, in 13 waves |
| `Hadamard.Sylvester` | reproducibility/r10/lineage/encode_tr3_v31.py:412-426 | for every power of two the doubling loop ends with -1 where row and column share an odd number of binary ones, +1 elsewhere |
| `Hadamard.Double` | reproducibility/r10/lineage/encode_tr3_v31.py:419-425 | one doubling step: three copies and one negated |
| `Hadamard.EntrySign` | reproducibility/r10/lineage/encode_tr3_v31.py:412-426 | the quadrant recursion has the closed form that counts the binary ones shared by row and column |
| `Hadamard.EntrySymmetric` | reproducibility/r10/lineage/encode_tr3_v31.py:412-426 | the matrix is symmetric |
| `Hadamard.RowsOrthogonal` | reproducibility/r10/lineage/encode_tr3_v31.py:412-426 | rows have inner product n with themselves and 0 with each other: H H = n I |
| `Hadamard.TransformTwice` | reproducibility/r10/lineage/encode_tr3_v31.py:436-453 | the normalized transform is its own inverse |
| `Hadamard.TransformScaled` | reproducibility/r10/lineage/encode_tr3_v31.py:436-453 | the transform commutes with scaling |
| `Blockwise.BlockwiseRight` | reproducibility/r10/lineage/encode_tr3_v31.py:466-473 | the in-place loop over column blocks: entry j of every block becomes the inner product of that block with row j of the scaled matrix |
| `Blockwise.BlockwiseLeft` | reproducibility/r10/lineage/encode_tr3_v31.py:456-463 | the in-place loop over row blocks: entry j of every block of a column becomes the inner product of that block with row j of the scaled matrix |
| `Blockwise.RightTwice` | reproducibility/r10/lineage/encode_tr3_v31.py:446-453 | applying the right transform twice gives the matrix back |
| `Blockwise.LeftTwice` | reproducibility/r10/lineage/encode_tr3_v31.py:436-443 | applying the left transform twice gives the matrix back |
| `Blockwise.LeftScaled` | reproducibility/r10/lineage/encode_tr3_v31.py:436-443 | the left transform commutes with a global scale |
| `Blockwise.RightRowEntry` | reproducibility/r10/lineage/encode_tr3_v31.py:446-453 | every entry of the right transform, as an inner product with its own block |
| `Blockwise.LeftColumn` | reproducibility/r10/lineage/encode_tr3_v31.py:436-443 | column by column the left transform is the right one |
| `Blockwise.PartRowGrows` | reproducibility/r10/lineage/encode_tr3_v31.py:471-473 | one more column block extends the transformed part |
| `Blockwise.PartLeftGrows` | reproducibility/r10/lineage/encode_tr3_v31.py:461-463 | one more row block extends the transformed part |
| `Blockwise.RowStored` | reproducibility/r10/lineage/encode_tr3_v31.py:471-473 | storing a transformed column block of a row transforms one more block of it |
| `Blockwise.StoredIsPart` | reproducibility/r10/lineage/encode_tr3_v31.py:461-463 | storing a transformed row block transforms one more block of the matrix |
| `Blockwise.TransformColumns` | reproducibility/r10/lineage/encode_tr3_v31.py:471-473 | one column block of every row, in place |
| `Blockwise.TransformRows` | reproducibility/r10/lineage/encode_tr3_v31.py:461-463 | one row block, in place |
| `Regularize.BlockRms` | reproducibility/r10/lineage/encode_tr3_v31.py:476-483 | sums of squares by blocks give the root mean square of the whole channel |
| `Regularize.RmsNonnegative` | reproducibility/r10/lineage/encode_tr3_v31.py:476-483 | a channel scale is never negative |
| `Regularize.ApplyOutScales` | reproducibility/r10/lineage/encode_tr3_v31.py:695-722 | when output scales are applied: the forced setting, the skew, the fallback, the all-zero weight |
| `Regularize.ScaleOut` | reproducibility/r10/lineage/encode_tr3_v31.py:715-732 | the column half of the regularization on the caller's matrix |
| `Regularize.ScaleIn` | reproducibility/r10/lineage/encode_tr3_v31.py:734-742 | the row half, with the searched global scale |
| `Regularize.RowsBack` | reproducibility/r10/lineage/encode_tr3_v31.py:737-742 | scaling by g and by su / g undoes the division by su |
| `Regularize.ColumnsBack` | reproducibility/r10/lineage/encode_tr3_v31.py:730-731 | multiplying by the masked sv undoes the division by sv outside the zeroed channels |
| `Regularize.DecodeUndoes` | reproducibility/r10/lineage/encode_tr3_v31.py:1368-1372 | the transforms of the decode meet those of the regularization |
| `Regularize.OutInNumbers` | reproducibility/r10/lineage/encode_tr3_v31.py:715-732 | the column half in numbers: root mean squares, their mean, relative scales, 0.1 for scales under 1e-30, the nudge, the masked sv and the entries after the right transform |
| `Regularize.InInNumbers` | reproducibility/r10/lineage/encode_tr3_v31.py:734-742 | the row half in numbers, with the codebook constant, the searched scale and the final su |
| `Regularize.Regularize` | reproducibility/r10/lineage/encode_tr3_v31.py:690-743 | succeeds exactly when nothing is divided by zero; then weight, g_scale, su and sv are the two halves in numbers, and decoding gives the weight with its (near) zero channels cleared |
| `Regularize.ClearedIsExact` | reproducibility/r10/lineage/encode_tr3_v31.py:724-731 | the round trip is exact if and only if every channel under the threshold is zero throughout |
| `Regularize.OutDivisorNoZeroIff` | reproducibility/r10/lineage/encode_tr3_v31.py:726-730 | with sign draws a column divisor is zero only for sign -1 on an applied scale of exactly 1e-10 |
| `Regularize.InDivisorNoZeroIff` | reproducibility/r10/lineage/encode_tr3_v31.py:734-737 | with sign draws a row divisor is zero only for sign +1 on a scale of exactly CODEBOOK_SCALE * 1e-10 |
| `Regularize.SearchedScaleNonzero` | reproducibility/r10/lineage/encode_tr3_v31.py:740-742 | the searched global scale is never zero |
| `Regularize.DividesIff` | reproducibility/r10/lineage/encode_tr3_v31.py:715-742 | end to end, with sign draws and the golden-section search: nothing is divided by zero if and only if no sign meets the one scale value that cancels the nudge, over the columns and then over the rows |
| `Allocation.OfferPrior` | reproducibility/r10/r7_encoder/allocation.py:145-158 | one prior cost offers its three choices to the next row |
| `Allocation.NextRow` | reproducibility/r10/r7_encoder/allocation.py:140-163 | the next row of scores and backpointers |
| `Allocation.WinningCandidate` | reproducibility/r10/r7_encoder/allocation.py:148-158 | the surviving candidate has the top score and, among equals, the most bits |
| `Allocation.BestExtends` | reproducibility/r10/r7_encoder/allocation.py:148-158 | best heads and the surviving candidate make a best assignment |
| `Allocation.NothingExtends` | reproducibility/r10/r7_encoder/allocation.py:145-158 | an empty cell means no assignment of that cost |
| `Allocation.TableGrows` | reproducibility/r10/r7_encoder/allocation.py:140-163 | every cell holds the best assignment of its cost, with sound backpointers, after one more tensor |
| `Allocation.Reachable` | reproducibility/r10/r7_encoder/allocation.py:159-167 | cells up to twice the number of tensors are reachable |
| `Allocation.EmptyCells` | reproducibility/r10/r7_encoder/allocation.py:159-167 | cells beyond twice the number of tensors are empty |
| `Allocation.Backtrack` | reproducibility/r10/r7_encoder/allocation.py:168-179 | the backpointers never look corrupt and return to cost zero |
| `Allocation.Solve` | reproducibility/r10/r7_encoder/allocation.py:134-191 | for every n, integer gains and budget: an allocation exactly when the budget is at most 2n, and then the assignment of 3n plus the budget bits with the largest sum of gains, on a tie with the higher bits on the last tensor that differs |
| `Allocation.BitTotal` | reproducibility/r10/r7_encoder/allocation.py:194-210 | the bits add up to 3n plus the budget, as the audit demands |
| `Allocation.BestUnique` | reproducibility/r10/r7_encoder/allocation.py:134-179 | the best assignment under the tie rule is unique |
| `Allocation.BestIsOptimal` | reproducibility/r10/r7_encoder/allocation.py:134-191 | the best assignment in numbers: its bits add up to 3n and the budget, its score is the sum of its gains, and any other assignment of the budget gains less, or as much with lower bits on the last tensor that differs |
| `Allocation.TieIsHigherLast` | reproducibility/r10/r7_encoder/allocation.py:148-158 | the tie order means higher bits on the last tensor where two assignments differ |
| `Allocation.TieGoesToHighBitsOnTheLastTensor` | reproducibility/r10/r7_encoder/allocation.py:144-158 | two tensors on which the comment "low bits first" and the loops differ: the last tensor gets the high bits |
| `EnergyBalance.SortRanked` | reproducibility/r10/r7_encoder/permutation.py:72-72 | sorting by (-value, index) ranks the indices |
| `EnergyBalance.SortOfRanked` | reproducibility/r10/r7_encoder/permutation.py:82-83 | a bucket filled in rank order is already sorted |
| `EnergyBalance.LeastEligible` | reproducibility/r10/r7_encoder/permutation.py:78-79 | the least eligible bucket by (total, bucket); none exactly when all are full |
| `EnergyBalance.SomeBucketHasRoom` | reproducibility/r10/r7_encoder/permutation.py:77-79 | while entries are left some bucket has room |
| `EnergyBalance.AtMostFull` | reproducibility/r10/r7_encoder/permutation.py:73-81 | buckets within their capacity hold no more than all capacities together |
| `EnergyBalance.NothingMissing` | reproducibility/r10/r7_encoder/permutation.py:73-81 | when every entry is placed every bucket is exactly full |
| `EnergyBalance.FairWhenAheadGrows` | reproducibility/r10/r7_encoder/permutation.py:79-81 | the balance invariant survives an append to the leading bucket |
| `EnergyBalance.FairWhenBehindGrows` | reproducibility/r10/r7_encoder/permutation.py:79-81 | the balance invariant survives an append to the trailing bucket |
| `EnergyBalance.PlaceNext` | reproducibility/r10/r7_encoder/permutation.py:77-81 | one placement: the entry goes to the bucket with room whose total is the smallest, the lowest of several; the minimum is never over an empty list, counts, totals and balance are kept |
| `EnergyBalance.FillBuckets` | reproducibility/r10/r7_encoder/permutation.py:73-81 | every bucket ends exactly full, ranked and fairly balanced, and holds what the choice of every rank gave it |
| `EnergyBalance.ChoicesGrow` | reproducibility/r10/r7_encoder/permutation.py:77-81 | every rank so far went to the bucket with room and the smallest total then, the lowest of several |
| `EnergyBalance.BlockIsTaken` | reproducibility/r10/r7_encoder/permutation.py:82-88 | a block of the result runs through what its bucket took by rank, or backwards on odd blocks when serpentine |
| `EnergyBalance.BlocksArranged` | reproducibility/r10/r7_encoder/permutation.py:82-88 | each block of the result is its bucket, in the promised order and with the same total |
| `EnergyBalance.EnergyBalanced` | reproducibility/r10/r7_encoder/permutation.py:58-88 | refuses exactly empty or ragged diagonals; otherwise a bijection, block by block what the greedy over the descending values (ascending indices on ties) gave each bucket, with totals that differ by at most the largest entry |
| `Orders.ValidatesIffBijection` | reproducibility/r10/r7_encoder/permutation.py:11-17 | validation accepts exactly the bijections |
| `Orders.TotalOfReorder` | reproducibility/r10/r7_encoder/permutation.py:74-81 | a sum over indices does not depend on their order |
| `Permutation.Inverse` | reproducibility/r10/r7_encoder/permutation.py:91-96 | the inverse order, refused exactly for non-bijections |
| `Permutation.InverseBothWays` | reproducibility/r10/r7_encoder/permutation.py:164-165 | order and inverse undo each other both ways and the inverse is an order |
| `Permutation.PermuteExpert` | reproducibility/r10/r7_encoder/permutation.py:99-114 | refused exactly for a non-bijection or shapes that do not meet; otherwise new channel k holds old channel perm[k] of gate, up and every row of down |
| `Permutation.InverseRestoresWeights` | reproducibility/r10/r7_encoder/permutation.py:166-175 | permuting by the inverse restores all three weights |
| `Permutation.DotOfPermuted` | reproducibility/r10/r7_encoder/permutation.py:155-156 | permuting both factors alike keeps their inner product |
| `Permutation.BakingKeepsFunction` | reproducibility/r10/r7_encoder/permutation.py:144-163 | for every input and pointwise activation the hidden row of the baked expert is the old one in the new order, and its inner product with every row of down is the same |
| `DpWave.EventKeepsInv` | upstream-core-port/engine-core/core.py:2060-2261 | every message, iteration, barrier and read of an outcome keeps the invariant |
| `DpWave.RunKeepsInv` | upstream-core-port/engine-core/core.py:2060-2261 | so does every interleaving of N ranks |
| `DpWave.IterateKeeps` | upstream-core-port/engine-core/core.py:2178-2248 | one loop iteration: a stopped rank stays put, a counting one reaches the sync exactly at 32 |
| `DpWave.TakeKeeps` | upstream-core-port/engine-core/core.py:2112-2117 | reading the outcome of a barrier moves the rank to the mode the outcomes determine |
| `DpWave.BarrierKeeps` | upstream-core-port/engine-core/core.py:2250-2254 | a completed all-reduce releases every rank with the same outcome |
| `DpWave.PauseEventKeeps` | upstream-core-port/engine-core/core.py:2060-2117 | pause and resume keep the flags in step with the pause state |
| `DpWave.ClientEventKeeps` | upstream-core-port/engine-core/core.py:2078-2141 | adds, aborts and wave starts keep the invariant |
| `DpWave.SyncsEnteredTogether` | upstream-core-port/engine-core/core.py:2244-2254 | ranks in a sync have equal step counters, 32 per sync since the last reset |
| `DpWave.CollectivesNeverMix` | upstream-core-port/engine-core/core.py:2108-2114 | no rank waits in the resume barrier while another waits in a sync |
| `DpWave.FrozenStep` | upstream-core-port/engine-core/core.py:2078-2141 | after an agreed stop no event counts a step or restarts a rank |
| `DpWave.FrozenUntilResume` | upstream-core-port/engine-core/core.py:2060-2141 | over any continuation without the resume barrier all ranks stay stopped |
| `DpWave.BarrierOpensCleared` | upstream-core-port/engine-core/core.py:2105-2117 | when the resume barrier opens every rank has cleared ignore_start_dp_wave |
| `DpWave.RankGoesOn` | upstream-core-port/engine-core/core.py:2119-2248 | in every run a rank in its loop takes any message and any step its scheduler may make, and a released one reads its outcome |
| `DpWave.WavesNeverFall` | upstream-core-port/engine-core/core.py:2239-2240 | over every run a rank's wave number never falls and is at least its start plus the outcomes without unfinished work it has read |
| `DpWave.StaleWaveStart` | upstream-core-port/engine-core/core.py:2125-2141 | over every run a wave start for a completed wave changes nothing |
| `DpWave.ResumedTogether` | upstream-core-port/engine-core/core.py:2108-2117 | after the resume barrier a rank runs exactly when some rank had work |
| `DpPause.ConsensusIsCollective` | upstream-core-port/engine-core/core.py:2244-2261 | over any run: two ranks that read their k-th outcome, at any two moments, both read it as an agreement or neither does |
| `DpPause.ConsensusEnteredPending` | upstream-core-port/engine-core/core.py:2244-2261 | and whoever reads an agreement, every rank was pending when it entered that sync |
| `DpPause.SyncOutcome` | upstream-core-port/engine-core/core.py:2250-2254 | the outcome of the sync a rank waits in; a consensus finds it pending |
| `DpPause.StaysStopped` | upstream-core-port/engine-core/core.py:2060-2141 | one event moves an early-stopped rank on exactly when it is a wave start for it that is not excluded and not stale |
| `DpPause.EarlyStopBlocks` | upstream-core-port/engine-core/core.py:2060-2117 | until such a message it stays stopped and pending, its resume raises, no all-reduce completes and whoever is in a sync stays there |
| `DpPause.WaitsForever` | upstream-core-port/engine-core/core.py:2244-2254 | a rank that enters a sync after an early stop waits there forever |
| `DpPause.CanAgreeIff` | upstream-core-port/engine-core/core.py:2060-2076 | with every rank pending, a consensus can still come about exactly when no rank has stopped early or is about to |
| `DpPause.PendingStopsEarlyIff` | upstream-core-port/engine-core/core.py:2060-2076 | over any run from the first pause on: the paused rank has stopped, or is about to, exactly when a sync since then found no rank with unfinished work |
| `DpPause.PauseAgreesIff` | upstream-core-port/engine-core/core.py:2060-2076 | over any run from the first pause to the last: the ranks can still agree exactly when no sync in between found no rank with unfinished work |
| `DpPause.RunKeepsPaused` | upstream-core-port/engine-core/core.py:2060-2117 | what a run keeps for every rank while a pause is on its way |
| `DpPause.OnePausedSync` | upstream-core-port/engine-core/core.py:2178-2254 | every rank served a request and one was paused: the sync finds nothing left to do and no consensus |
| `DpPause.EarlyStopReachable` | upstream-core-port/engine-core/core.py:2060-2261 | from every initial state of two or more ranks an early stop happens to any rank, with another rank left in a sync |
| `PlainStep.CounterParity` | upstream-core-port/engine-core/core.py:628-668 | under the plain step busy iterations count by two; an idle one starts over at one, so the counter is odd for the rest of the wave |
| `PlainStep.PlainSyncIff` | upstream-core-port/engine-core/core.py:2244-2248 | the counter is at a sync exactly when all iterations of the wave were busy and their number is a multiple of 16 |
| `PlainStep.KthSyncIff` | upstream-core-port/engine-core/core.py:2244-2248 | a rank enters its k-th sync with iteration 16 k, exactly when all iterations so far were busy |
| `PlainStep.PlainRanksMeetIff` | upstream-core-port/engine-core/core.py:2244-2254 | two ranks both get to their k-th sync exactly when each was busy in all of its first 16 k iterations |
| `PlainStep.PlainStepLosesLockstep` | upstream-core-port/engine-core/core.py:628-668 | after one idle iteration a rank never enters a later sync of the wave, however the wave goes on |
| `DpCores.DPEngineCore.constructor` | upstream-core-port/engine-core/core.py:2009-2020 | a new engine core is an initial rank |
| `DpCores.DPEngineCore.AddRequest` | upstream-core-port/engine-core/core.py:2078-2092 | a later wave number is taken over; a request of an earlier wave restarts only an idle unpaused engine and announces the wave; nothing else changes |
| `DpCores.DPEngineCore.StartDpWave` | upstream-core-port/engine-core/core.py:2125-2141 | a wave start is dropped while it is to be ignored, when it excludes the engine or is of an earlier wave; otherwise it sets wave and engine going |
| `DpCores.DPEngineCore.PauseScheduler` | upstream-core-port/engine-core/core.py:1932-1948 | pauses by mode, drops the requests of an abort, raises the pending flag and starts the engine |
| `DpCores.DPEngineCore.ResumeScheduler` | upstream-core-port/engine-core/core.py:2094-2106 | raises while a pause is in flight, ignores a running engine, otherwise goes to the barrier |
| `DpCores.DPEngineCore.FinishResume` | upstream-core-port/engine-core/core.py:2112-2117 | after the barrier the engine runs if any rank has work |
| `DpCores.DPEngineCore.LoopIteration` | upstream-core-port/engine-core/core.py:2197-2248 | counts a step unless idle; every 32nd step enters the sync |
| `DpCores.DPEngineCore.FinishSync` | upstream-core-port/engine-core/core.py:2217-2240 | consensus flags, engines_running, wave number and counter after a sync: a wave without unfinished work is counted and the counter starts over |
| `DpCores.DPEngineCore.Handle` | upstream-core-port/engine-core/core.py:2119-2143 | whatever the thread of a rank does next is the transition of the model |
| `DpCores.Reduce` | upstream-core-port/engine-core/core.py:2108-2114 | the all-reduce over the cores: whether one has work it may still run, whether all are pending |
| `DpCores.Perform` | upstream-core-port/engine-core/core.py:2174-2242 | one event of the whole system, carried out by the cores |
| `DpCores.RunCores` | upstream-core-port/engine-core/core.py:2174-2261 | cores driven through any run end in its states; two that wait in a sync have equal step counters, and no wave number falls behind the waves its core has seen completed |
| `BatchQueue.NothingDropped` | upstream-core-port/engine-core/core.py:742-751 | the bounded deque never drops a batch |
| `BatchQueue.StepKeeps` | upstream-core-port/engine-core/core.py:706-811 | the entry assertion holds again after every call; the call breaks exactly when the scheduler contract does |
| `BatchQueue.OldestIsNext` | upstream-core-port/engine-core/core.py:759-760 | the popped batch is the first one not yet folded back |
| `BatchQueue.DeferredAfterAllIff` | upstream-core-port/engine-core/core.py:789-809 | a deferred batch is sampled after all earlier ones exactly when one batch was in flight |
| `BatchQueue.RunKeeps` | upstream-core-port/engine-core/core.py:706-811 | the invariant over any run |
| `BatchQueue.RunFoldsInOrder` | upstream-core-port/engine-core/core.py:759-777 | over any run batches are folded back once each, in schedule order |
| `BatchQueue.RunSamplesOnce` | upstream-core-port/engine-core/core.py:714-745 | over any run exactly the executed batches of a model that does not pool are sampled, once each, in schedule order, deferred exactly when structured tokens are pending |
| `BatchQueue.DeferredAfterAllWithSizeTwo` | upstream-core-port/engine-core/core.py:789-809 | with a queue of two a deferred batch is sampled only after all earlier ones are folded in |
| `BatchQueue.EngineCore.constructor` | upstream-core-port/engine-core/core.py:227-238 | an empty queue |
| `BatchQueue.EngineCore.Schedule` | upstream-core-port/engine-core/core.py:714-745 | schedules one batch, samples it or defers it |
| `BatchQueue.EngineCore.FoldOldest` | upstream-core-port/engine-core/core.py:759-809 | folds the oldest batch back, then samples and queues a deferred one |
| `BatchQueue.EngineCore.Step` | upstream-core-port/engine-core/core.py:689-811 | one call: when it returns early, when it is idle, when it gives an output, and the queue, the batch number and the one sample it leaves |
| `BatchQueue.EngineCore.HandleShutdown` | upstream-core-port/engine-core/core.py:1529-1575 | the loop ends only without work, and then everything scheduled was folded back |
| `BatchQueue.RunBusyLoop` | upstream-core-port/engine-core/core.py:1448-1459 | when the busy loop exits the queue is empty |
| `AbortQueues.KeepsOrder` | upstream-core-port/engine-core/core.py:1772-1811 | the input queue keeps every socket's order |
| `AbortQueues.KeepsTwins` | upstream-core-port/engine-core/core.py:1803-1811 | an eager abort always has its ordered copy handled, queued or in hand |
| `AbortQueues.KeepsLive` | upstream-core-port/engine-core/core.py:1577-1590 | a live request was added and not aborted after that |
| `AbortQueues.RunKeeps` | upstream-core-port/engine-core/core.py:1474-1503 | every interleaving of the two threads keeps all three |
| `AbortQueues.NoAbortLost` | upstream-core-port/engine-core/core.py:1481-1484 | clearing or draining aborts_queue loses nothing |
| `AbortQueues.InputGoesOn` | upstream-core-port/engine-core/core.py:1772-1811 | in every run the input thread goes on with the message it holds and takes the next one of any socket when it holds none |
| `AbortQueues.MainGoesOn` | upstream-core-port/engine-core/core.py:1474-1503 | in every run the main loop handles a queued entry exactly while there is one, sees the queue empty exactly when it is, and collects and ends the aborts |
| `AbortQueues.AbortedIsNotLive` | upstream-core-port/engine-core/core.py:1577-1590 | once an abort has been handled its id is dead until another add of it is handled |
| `AbortQueues.LiveMeansReadded` | upstream-core-port/engine-core/core.py:1577-1590 | a live request was added by a handled message after every handled abort of its id |
| `AbortQueues.AbortedForGood` | upstream-core-port/engine-core/core.py:1803-1811 | with every add of the id ahead of the abort on its socket, handling the abort ends the request for good |
| `AbortQueues.EagerAbortIsAheadOfTime` | upstream-core-port/engine-core/core.py:813-821 | when every abort of an id comes behind every add of it on one socket, an eager abort of a live request is only ahead of an ordered abort that is still due |
| `AbortQueues.StaleAbortKills` | upstream-core-port/engine-core/core.py:1803-1811 | otherwise some run reaches a state with nothing due any more in which an eager abort removes a live request |
| `AbortQueues.NeverStaleIff` | upstream-core-port/engine-core/core.py:1803-1811 | so over all streams: an eager abort never hits a request its ordered copy would spare if and only if every abort of the id comes behind every add of it on the same connection |
| `AbortQueues.DeliverUpTo` | upstream-core-port/engine-core/core.py:1772-1811 | messages of a socket delivered and handled one after the other |
| `AbortQueues.ReusedIdIsKilled` | upstream-core-port/engine-core/core.py:1803-1811 | the smallest stream on which it happens: add, abort and add again |
| `AbortQueues.EagerDrainIsConfluent` | upstream-core-port/engine-core/core.py:813-821 | aborting eagerly first changes nothing when every id is aborted in the input queue too |
| `AbortQueues.OutcomeOfAll` | upstream-core-port/engine-core/core.py:1500-1503 | which requests are alive after the queued entries: those whose last add, or being alive before, comes after every abort of them |
| `AbortQueues.MainLoop.ProcessAbortsQueue` | upstream-core-port/engine-core/core.py:813-821 | collects every abort list and aborts exactly their ids as one batch |
| `AbortQueues.MainLoop.ProcessInputQueue` | upstream-core-port/engine-core/core.py:1500-1503 | handles every queued request in order: alive afterwards are those whose last add, or being alive before, comes after every abort of them |
| `CapturePass.Store.constructor` | reproducibility/r10/r7_encoder/capture_pass.py:803-804 | a fresh store is valid for every request |
| `CapturePass.Store.LoadState` | reproducibility/r10/r7_encoder/capture_pass.py:554-595 | a sealed state, no state, or the error of a manifest without its files |
| `CapturePass.Store.RemoveState` | reproducibility/r10/r7_encoder/capture_pass.py:651-655 | a removal may die half-way; it never makes a manifest appear |
| `CapturePass.Store.BuildState` | reproducibility/r10/r7_encoder/capture_pass.py:522-551 | files first, the manifest last and atomically |
| `CapturePass.Store.Capture` | reproducibility/r10/r7_encoder/capture_pass.py:1104-1105 | a capture is complete only once its manifest is finalized |
| `CapturePass.Store.CompleteRows` | reproducibility/r10/r7_encoder/capture_pass.py:663-702 | an incomplete capture counts as none |
| `CapturePass.Store.Scan` | reproducibility/r10/r7_encoder/capture_pass.py:930-940 | the downward scan finds the front and meets no half-removed state |
| `CapturePass.Store.Prefix` | reproducibility/r10/r7_encoder/capture_pass.py:942-965 | seals the carried prefix when nothing is sealed |
| `CapturePass.Store.ResumePoint` | reproducibility/r10/r7_encoder/capture_pass.py:1003-1033 | never "already retired": the resume layer and everything above it are sealed |
| `CapturePass.Store.Inspect` | reproducibility/r10/r7_encoder/capture_pass.py:1043-1078 | the input of the layer is always there; what is missing is known |
| `CapturePass.Store.ClearSuccessor` | reproducibility/r10/r7_encoder/capture_pass.py:1106-1108 | dropping a partial successor keeps the store recoverable |
| `CapturePass.Store.CaptureLayer` | reproducibility/r10/r7_encoder/capture_pass.py:1310-1325 | capturing keeps the store recoverable |
| `CapturePass.Store.SealSuccessor` | reproducibility/r10/r7_encoder/capture_pass.py:1371-1379 | sealing moves the front up by one layer |
| `CapturePass.Store.Retire` | reproducibility/r10/r7_encoder/capture_pass.py:1391-1392 | retiring a finished input keeps the store recoverable |
| `CapturePass.Store.Produce` | reproducibility/r10/r7_encoder/capture_pass.py:1097-1379 | capture before seal |
| `CapturePass.Store.StepLayer` | reproducibility/r10/r7_encoder/capture_pass.py:1042-1396 | one round of the layer loop with all its crash points: no sealed state is lost but the input of a finished layer when states are retired, and then it is gone |
| `CapturePass.Store.StreamLayers` | reproducibility/r10/r7_encoder/capture_pass.py:1042-1400 | the loop ends with every requested layer captured; sealed states stay unless they are retired |
| `CapturePass.Store.RunCapture` | reproducibility/r10/r7_encoder/capture_pass.py:757-1419 | a run that may die anywhere ends valid, reports no missing or broken input, and finishes with the crash-free captures; without retiring no sealed state is ever lost, with it those from the front up to the last layer are gone at the end |
| `CapturePass.Restarts` | reproducibility/r10/r7_encoder/capture_pass.py:925-1400 | so does any number of restarts, each free to keep or retire states |
| `CapturePass.Model.IdealIsPass` | reproducibility/r10/r7_encoder/capture_pass.py:1042-1396 | the crash-free captures are those of any sequence of states that starts from the prefix and takes every layer in turn |
| `OrderedResults.UnitsDiffer` | reproducibility/r10/r7_encoder/capture_pass.py:1205-1205 | prompts fewer than n apart go to different units |
| `OrderedResults.Units.Submit` | reproducibility/r10/r7_encoder/capture_pass.py:1245-1248 | a prompt is only ever submitted to an idle unit |
| `OrderedResults.Units.Await` | reproducibility/r10/r7_encoder/capture_pass.py:1239-1242 | the result of the unit's outstanding prompt |
| `OrderedResults.Deal` | reproducibility/r10/r7_encoder/capture_pass.py:1225-1231 | the first round: prompt k to unit k |
| `OrderedResults.DealtNext` | reproducibility/r10/r7_encoder/capture_pass.py:1243-1250 | taking result i and dealing prompt i + n keeps the deal |
| `OrderedResults.Ordered` | reproducibility/r10/r7_encoder/capture_pass.py:1233-1254 | every result once, in prompt order, prompt i from unit i mod n; "lost a prompt" is never reached |
| `MassFold.Mantissa` | reproducibility/r10/r7_encoder/flat_runtime.py:145-147 | the 24-bit integer of a weight; its top bit is set exactly for normal numbers |
| `MassFold.FieldsSpellBits` | reproducibility/r10/r7_encoder/flat_runtime.py:139-147 | exponent and fraction spell a nonnegative pattern, and it is finite exactly below 0x7F800000 |
| `MassFold.FieldsOfPattern` | reproducibility/r10/r7_encoder/flat_runtime.py:139-147 | any two fields in range are those of the pattern they spell |
| `MassFold.ValueOfPattern` | reproducibility/r10/r7_encoder/flat_runtime.py:103-106 | the value of a pattern from its two fields, subnormal or normal |
| `MassFold.PatternOfOne` | reproducibility/r10/r7_encoder/flat_runtime.py:103-106 | 0x3F800000 is one |
| `MassFold.ValueIncreases` | reproducibility/r10/r7_encoder/flat_runtime.py:103-106 | the value increases strictly with the pattern over all nonnegative finite float32 |
| `MassFold.MassIsRealSum` | reproducibility/r10/r7_encoder/flat_runtime.py:94-106 | the integer mass is the real sum of the weights in units of 2^-149 |
| `MassFold.UnitsAreExact` | reproducibility/r10/r7_encoder/flat_runtime.py:103-106 | every nonnegative finite float32 is exactly its integer number of units of 2^-149 (section 3.4 of IEEE 754-2019) |
| `MassFold.CheckChunk` | reproducibility/r10/r7_encoder/flat_runtime.py:139-151 | sign, finiteness and expert range of one chunk |
| `MassFold.BinBound` | reproducibility/r10/r7_encoder/flat_runtime.py:127-130 | no bin of a chunk exceeds the number of its entries times 2^24 - 1 |
| `MassFold.BinCount` | reproducibility/r10/r7_encoder/flat_runtime.py:152-157 | the float64 histogram of a chunk is exact |
| `MassFold.IsIntegral` | reproducibility/r10/r7_encoder/flat_runtime.py:158-159 | the integrality check |
| `MassFold.AddBins` | reproducibility/r10/r7_encoder/flat_runtime.py:160-160 | the int64 addition never wraps |
| `MassFold.AddCounts` | reproducibility/r10/r7_encoder/flat_runtime.py:161-163 | routed counts |
| `MassFold.Overflows` | reproducibility/r10/r7_encoder/flat_runtime.py:164-165 | the 2^62 check |
| `MassFold.FoldChunk` | reproducibility/r10/r7_encoder/flat_runtime.py:135-165 | one chunk: refused exactly when it is not clean or a bin reaches 2^62 |
| `MassFold.FoldChunks` | reproducibility/r10/r7_encoder/flat_runtime.py:135-165 | all chunks: the refusal does not depend on where the chunks are cut |
| `MassFold.FoldIsExact` | reproducibility/r10/r7_encoder/flat_runtime.py:167-174 | per-bin sums shifted once add up to the exact mass |
| `MassFold.UnitsOfExpert` | reproducibility/r10/r7_encoder/flat_runtime.py:169-174 | the shifted sum of one expert's bins |
| `MassFold.ExactMassUnits` | reproducibility/r10/r7_encoder/flat_runtime.py:94-175 | accepted exactly for a good window, guard, clean entries and small enough bins; then units times 2^-149 is the real sum of each expert's weights and the counts are its entries, for every chunk |
| `MassFold.MassConserved` | reproducibility/r10/r7_encoder/flat_runtime.py:241-243 | the experts' masses add up to the mass of all entries |
| `Fallback.BucketOf` | reproducibility/r10/r7_encoder/glm52_backend.py:994-995 | the quarter of the share a row falls into |
| `Fallback.OfferKeepsBest` | reproducibility/r10/r7_encoder/glm52_backend.py:998-1006 | a bounded heap holds the best rows offered so far |
| `Fallback.OfferRow` | reproducibility/r10/r7_encoder/glm52_backend.py:989-1006 | one row is offered to its bucket and to the global heap |
| `Fallback.Stream` | reproducibility/r10/r7_encoder/glm52_backend.py:986-1006 | after all rows every heap holds its best rows |
| `Fallback.AddBest` | reproducibility/r10/r7_encoder/glm52_backend.py:1010-1013 | the top-up loop |
| `Fallback.TopUpAdds` | reproducibility/r10/r7_encoder/glm52_backend.py:1010-1013 | the top-up only adds, up to the limit |
| `Fallback.TopUpIsBest` | reproducibility/r10/r7_encoder/glm52_backend.py:1010-1013 | what the top-up adds beats what it leaves out |
| `Fallback.ChosenSize` | reproducibility/r10/r7_encoder/glm52_backend.py:978-1016 | exactly min(limit, N) rows, containing each bucket's best quarter |
| `Fallback.ToppedUpBeatsLeftOut` | reproducibility/r10/r7_encoder/glm52_backend.py:1010-1013 | every topped-up row beats every row left out |
| `Fallback.LastTakesFirst` | reproducibility/r10/r7_encoder/glm52_backend.py:997-1005 | the rows a heap keeps have a lower priority than those it leaves out, or an equal one and a later place |
| `Fallback.ChosenIsSelection` | reproducibility/r10/r7_encoder/glm52_backend.py:978-1016 | the selection in numbers: each bucket's quarter and the top-up, against every row of the split left out |
| `Fallback.SelectionUnique` | reproducibility/r10/r7_encoder/glm52_backend.py:978-1016 | and one scan has one such selection |
| `Fallback.BucketBestSmall` | reproducibility/r10/r7_encoder/glm52_backend.py:983-1002 | a bucket contributes at most limit // 4 rows, all of the split |
| `Fallback.OrderDoesNotMatter` | reproducibility/r10/r7_encoder/glm52_backend.py:986-1013 | the selection depends on which rows are streamed, not on their order |
| `Fallback.FallbackLocations` | reproducibility/r10/r7_encoder/glm52_backend.py:971-1016 | min(limit, N) rows of the split: of every bucket the limit // 4 first by priority, then the first of the whole split, where on equal priorities the later (shard, offset) goes first; below limit 4 the first row of the split reads an empty heap |
| `RowIndex.RoutedExactly` | reproducibility/r10/r7_encoder/flat_capture.py:569-570 | the rows of an expert: exactly the tokens that list it, ascending |
| `RowIndex.PositionsAreRouted` | reproducibility/r10/r7_encoder/flat_capture.py:563-567 | without repeated ids the token column of an expert's positions is its rows |
| `RowIndex.GroupedExactly` | reproducibility/r10/r7_encoder/flat_capture.py:564-566 | positions grouped by expert are in stable order |
| `RowIndex.OrderUnique` | reproducibility/r10/r7_encoder/flat_capture.py:564-564 | a stable argsort is unique |
| `RowIndex.StableOrderExists` | reproducibility/r10/r7_encoder/flat_capture.py:564-564 | and it exists |
| `RowIndex.SegmentIsPositions` | reproducibility/r10/r7_encoder/flat_capture.py:565-580 | the segment between two cumulative counts is the expert's rows |
| `RowIndex.PositionsTotalIsAll` | reproducibility/r10/r7_encoder/flat_capture.py:315-319 | routed counts add up to top_k per token |
| `RowIndex.FlatCaptureWriter.constructor` | reproducibility/r10/r7_encoder/flat_capture.py:150-155 | an empty open capture |
| `RowIndex.FlatCaptureWriter.CountToken` | reproducibility/r10/r7_encoder/flat_capture.py:239-245 | counts and byte totals of one token |
| `RowIndex.FlatCaptureWriter.Check` | reproducibility/r10/r7_encoder/flat_capture.py:191-220 | which of the shape, range and duplicate errors is raised, exactly, in the order of the checks |
| `RowIndex.FlatCaptureWriter.Append` | reproducibility/r10/r7_encoder/flat_capture.py:168-246 | all rows of a batch are stored, or none |
| `RowIndex.FlatCaptureWriter.Finalize` | reproducibility/r10/r7_encoder/flat_capture.py:272-319 | fails only a second time or without rows: sizes and counts always agree |
| `RowIndex.FlatCaptureReader.constructor` | reproducibility/r10/r7_encoder/flat_capture.py:552-554 | a reader without an index |
| `RowIndex.FlatCaptureReader.StableArgSort` | reproducibility/r10/r7_encoder/flat_capture.py:563-564 | the stable argsort of the flat ids |
| `RowIndex.FlatCaptureReader.BuildIndex` | reproducibility/r10/r7_encoder/flat_capture.py:558-567 | builds the index once |
| `RowIndex.FlatCaptureReader.ExpertRows` | reproducibility/r10/r7_encoder/flat_capture.py:569-580 | a range error, or exactly the ascending tokens routed to the expert |
| `ExpertRows.SplitsPartition` | reproducibility/r10/r7_encoder/glm52_backend.py:771-776 | fit and holdout partition the routed rows |
| `ExpertRows.RouteWeightIsOwn` | reproducibility/r10/r7_encoder/glm52_backend.py:922-929 | the route weight is the weight of the expert's own slot, and zero without one |
| `ExpertRows.RowsAreRows` | reproducibility/r10/r7_encoder/glm52_backend.py:886-969 | the rows of a split: every token of it that lists the expert, once, ascending, with its own hidden row and weight |
| `ExpertRows.GatheredAreRows` | reproducibility/r10/r7_encoder/glm52_backend.py:907-929 | filtering the index and gathering gives the rows of the split |
| `ExpertRows.SplitRows` | reproducibility/r10/r7_encoder/glm52_backend.py:911-920 | one pass fills both halves |
| `ExpertRows.Chunks` | reproducibility/r10/r7_encoder/glm52_backend.py:922-929 | the gather in chunks |
| `ExpertRows.DirectRows.Iterate` | reproducibility/r10/r7_encoder/glm52_backend.py:898-930 | the direct path, cached or not, yields exactly the tokens of the split that list the expert, ascending, with hidden row and weight |
| `ExpertRows.BuildBatches` | reproducibility/r10/r7_encoder/flat_runtime.py:341-375 | consecutive blocks that cover the capture; none exactly for an empty one |
| `ExpertRows.SelectBlock` | reproducibility/r10/r7_encoder/glm52_backend.py:943-966 | the rows of the split in one block |
| `ExpertRows.BatchedRows.Collect` | reproducibility/r10/r7_encoder/glm52_backend.py:939-968 | the batched path concatenates to the rows of the split |
| `ExpertRows.BatchedRows.Iterate` | reproducibility/r10/r7_encoder/glm52_backend.py:931-969 | and a second pass replays the first |
| `ExpertRows.BatchedRows.Clear` | reproducibility/r10/r7_encoder/glm52_backend.py:870-884 | dropping an expert's memo leaves the others |
| `ExpertRows.PathsAgree` | reproducibility/r10/r7_encoder/glm52_backend.py:886-969 | both paths yield the same rows in the same order: every token of the split that lists the expert, with its own hidden row and weight |
| `RowPlans.SelectNewRows` | reproducibility/r10/r7_encoder/layer.py:138-170 | the new rows of a batch, aligned with their ids; exactly when the duplicate errors fire |
| `RowPlans.FreshExactly` | reproducibility/r10/r7_encoder/layer.py:159-168 | the accepted ids are the distinct ones not seen before |
| `RowPlans.TakeRouted` | reproducibility/r10/r7_encoder/layer.py:346-355 | every routed row once; neither duplicate error fires when the batches repeat no row, as those of the iterators do not |
| `RowPlans.TopUp` | reproducibility/r10/r7_encoder/layer.py:373-393 | the first missing fallback rows not seen yet, stopping early |
| `RowPlans.PlanRows` | reproducibility/r10/r7_encoder/layer.py:346-406 | the row plan of one covariance |
| `RowPlans.PlanIsExact` | reproducibility/r10/r7_encoder/layer.py:355-406 | all routed rows, or exactly min_fit_rows distinct rows of the split: the routed ones and the first spare ones; refused exactly when there are too few |
| `RowPlans.DownPlan` | reproducibility/r10/r7_encoder/layer.py:638-722 | the down projection plans again and compares |
| `RowPlans.TakeHoldout` | reproducibility/r10/r7_encoder/layer.py:483-497 | routed holdout rows until enough; none was a fit row |
| `RowPlans.HoldoutOrderExact` | reproducibility/r10/r7_encoder/layer.py:483-511 | the holdout candidates are distinct, of the holdout split and outside the fit plan |
| `RowPlans.DrawHoldout` | reproducibility/r10/r7_encoder/layer.py:483-523 | exactly holdout_rows rows, how many of them routed, or the empty-holdout error, which wanting none raises too, or the error of a fallback without rows |
| `RowPlans.Calibrate` | reproducibility/r10/r7_encoder/layer.py:335-722 | for any backend: the down plan equals the gate/up plan, the holdout is disjoint from it, and only underfill, an empty holdout or an empty fallback are ever raised |
| `Calibration.RoutedIdsExactly` | reproducibility/r10/r7_encoder/glm52_backend.py:886-969 | the iterators yield exactly the rows of the split that list the expert, ascending |
| `Calibration.AllOfChunks` | reproducibility/r10/r7_encoder/glm52_backend.py:922-929 | however an iterator cuts its rows |
| `Calibration.StreamExactly` | reproducibility/r10/r7_encoder/glm52_backend.py:986-995 | the reservoir scan streams every row of the capture once, in order |
| `Calibration.ChosenOk` | reproducibility/r10/r7_encoder/glm52_backend.py:978-1016 | the reservoirs select rows of the split, min(8192, N) of them |
| `Calibration.PickedOk` | reproducibility/r10/r7_encoder/glm52_backend.py:1071-1086 | the selected locations yield rows of the split, each once, ascending |
| `Calibration.ReservoirRows` | reproducibility/r10/r7_encoder/glm52_backend.py:971-1086 | the fallback iterator of the default path: exactly the rows whose locations are the selection over the whole capture, with their hidden states; it raises exactly when no row belongs to the split |
| `Calibration.FlatFallback` | reproducibility/r10/r7_encoder/glm52_backend.py:1034-1069 | the fallback of the direct path: the rows of the split that come first in the seeded order, min(8192, N) of them, sorted; it raises exactly when there are none |
| `Calibration.EnoughIff` | reproducibility/r10/r7_encoder/layer.py:355-393 | routed rows topped up with fresh fallback rows reach any number up to 8192 exactly when the split has that many rows |
| `Calibration.BackendIsValid` | reproducibility/r10/r7_encoder/glm52_backend.py:886-1086 | the row iterators and fallbacks of a capture are a valid backend: no row comes twice and every row is of its split |
| `Calibration.FitPlanIff` | reproducibility/r10/r7_encoder/layer.py:355-406 | the fit plan succeeds exactly when the capture has min_fit_rows rows of the split; otherwise which error, with how many rows missing |
| `Calibration.HoldoutIff` | reproducibility/r10/r7_encoder/layer.py:483-523 | the holdout succeeds exactly when the capture has holdout_rows rows of the split |
| `Calibration.TakeIsFirst` | reproducibility/r10/r7_encoder/layer.py:373-393 | the top-up takes the smallest offered rows that are not routed, in ascending order |
| `Calibration.CalibrateBatched` | reproducibility/r10/r7_encoder/layer.py:335-722 | an expert calibrated over a capture block by block: exact plans and errors, routed rows first and then the smallest rows of the reservoir selection; the duplicate and plans-differ errors never fire |
| `Calibration.CalibrateDirect` | reproducibility/r10/r7_encoder/layer.py:335-722 | the same through the index, topped up with the smallest of the rows that come first in the seeded order |

## Left out

- Ldlq.Ldlq: does not model a span that does not divide size_k; the lockstep form asserts that it does, the sequential form relies on it without asserting. The requirement that size_n is a multiple of 128 and of the span is not needed and not imposed.
- LockstepLdlq.Lockstep: walks without rows are not modelled; a walk starts with at least one block.
- GoldenPool.GssLockstep: a weight has at least one tile; the quantizer settings are the same for every slice, as the source asserts.
- Hadamard.Sylvester: takes the size as a power of two, which the source asserts; the half-precision storage holds +1 and -1 exactly.
- Regularize.Regularize: takes the skew factor as a number instead of computing it from the sorted H diagonal; None stands for a division by zero, which yields infinities in the source; a weight has at least one row and one column.
- Permutation.BakingKeepsFunction: one input row at a time; a batch is its rows. The measured maximum and relative errors of the oracle are floating-point quantities and are zero over the reals.
- Allocation.Solve: does not model the decimal rounding that turns a gain into an integer, nor the 16-bit storage of parent costs, whose largest value is the layer budget.
- EnergyBalance.EnergyBalanced: the block size is positive.
- DpWave.EventKeepsInv: a second pause while one is in effect, shutdown, sleeping and elastic scaling are not modelled; a resume is issued only after a pause. The all-reduces are barriers that return (any unfinished, all pending).
- PlainStep.PlainStepLosesLockstep: covers the iterations of one wave, from the reset of the counter on; the rest of the model is about the batch-queue step.
- DpPause.PendingStopsEarlyIff: rests on the assumed answer of sync_dp_state; a round of pauses starts with no rank pending, and a wave start that restarts a stopped rank ends the case.
- BatchQueue.RunBusyLoop: a failed executor (a future without a result) is not modelled; whether a batch has pending structured tokens is an input of each call.
- CapturePass.Store.RunCapture: the in-memory rolling state is not modelled; bindings and expected tokens are the same in every run, so digest, binding and domain errors do not arise; the forward pass and the tap are deterministic functions.
- OrderedResults.Ordered: a future's result is a function of the unit and the prompt; cancellation is not modelled.
- MassFold.ExactMassUnits: routed counts are unbounded integers; entries pair ids with weights, so the shape check cannot fire.
- Fallback.FallbackLocations: takes route weights as nonnegative and a row's priority as a function of the row; heapq is modelled by sorted sequences.
- RowIndex.FlatCaptureWriter.Append: dtype and finiteness checks, digests and file handles are not modelled.
- RowIndex.FlatCaptureReader.StableArgSort: the library's argsort is modelled as a counting sort; flat positions are (token, slot) pairs in row-major order.
- ExpertRows.DirectRows.Iterate: the expert is in range; out of range this path raises while the batched one yields nothing.
- RowPlans.Calibrate: the backend raises nothing of its own but the empty fallback. Covariance matrices, shrinkage factors, caches on disk and audit records are not modelled, only row ids and the hidden rows that go with them.
- Calibration.CalibrateBatched: min_fit_rows and holdout_rows are at most the 8192 rows of a reservoir (their defaults are 1024 and 4096). Fallback rows are drawn beforehand, which changes nothing because an iterator without rows raises only when it is asked.
- Calibration.CalibrateDirect: the seeded order is any order of all rows, and the reservoir has its default size.
- Rounding of float32, bfloat16 and float64 results everywhere except in the mass fold.
- CUDA kernels, the trellis extension, streams, hashing, JSON, sockets, message encoding, logging and metrics.
- The prefill cadence of the engine: step_counter does not advance in the batch-queue step of the engine without data parallelism.
- The reference loop used once per worker as a cross-check of the batched quantization, assembling shards, inventories, process pools, command lines, sensitivity probes and the chat protocol: argument passing, or checks whose properties can be read off the check.
