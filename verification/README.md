# Verification of the discrete core of block-diffusion GRPO training

This project models the parts of the training system whose correctness is a matter of logic, not of
floating point, and proves what they promise:

- the closed-form likelihood of one parallel denoising step, its backward pass and the replay of
  recorded traces (`JointMass`, `LogitShift`, `ConfidenceTransition`, `TransitionLaw`,
  `ConfidenceBlocks`, `TraceReplay`);
- the asynchronous rollout protocol: replay buffer, collector, workers, trainer
  (`ReplayBuffers`, `BufferHistory`, `TrajectoryCollector`, `AsyncProtocol`, `AsyncStaleness`,
  `AsyncCounterexample`);
- the estimators that score a response over several masked views (`CompletionSpan`,
  `CompletionLayout`, `RevealScatter`, `RevealLevels`, `SelectedLevels`, `TopOffsets`,
  `LeftmostReveal`, `RevealAgreement`, `SparseReveal`, `BlockAwareElbo`);
- validation on a shared device, step accounting, dynamic sampling and validation shards
  (`DecodeKnobs`, `ValidationHandOff`, `StepAccounting`, `DynamicSampling`, `ValidationShard`);
- top-k/top-p filtering (`Permutations`, `NucleusFilter`) and configuration minimisation
  (`ConfigMinimize`).

`dafny verify dfyconfig.toml` checks everything.

Conventions. Probabilities and scores are `real`: a product stands for a sum of logarithms and zero for
minus infinity. The network is an arbitrary function of what a view shows. `torch.topk`, `torch.sort` and
the exponential are arbitrary functions with the stated contract, so every result holds for any tie-breaking
that is a function of the row. Vectorised tensor expressions are functions or parallel assignments; loops
that update tensors, lists or fields are methods with loops, proved against functions. Concurrency is a step
relation in which every critical section and every remote call is one step.

## Main results

**Marginalisation.** For any width, vocabulary, distributions, threshold and set of revealed masked
positions with non-MASK tokens, the closed form equals the total probability of the joint proposals that the
documented decoder maps to that outcome, and is zero exactly where the code reports no support. A revealed
MASK token is the one case the code does not catch: `ClosedFormExactlyWhen` gives the exact condition, in
terms of probabilities and threshold, and `MaskTargetIsNotCaught` an input. All outcomes and the invisible
mass sum to one. The score is the logarithmic derivative: multiplying a token's weight by any `l > 0` and
renormalising changes the likelihood by exactly `(l - 1)` times likelihood times score over the new
normaliser, while the set of proposals behind the outcome stays the same. Its rows sum to zero, and its
expectation is minus the derivative of the invisible mass. `Forward` and `Backward` say of every block and
column which columns of which row it depends on.

**Asynchronous protocol.** In every interleaving: every permit is free, held by a worker or the launcher, or
lost with a launch that raised after acquiring it, and none is lost exactly if no launch raised there; from
the return of a drain until `resume` nothing generates and nothing starts. Without failed workers, and as
long as no target that was already pushed is reserved again, every group buffered or in flight has a target
not behind the trainer and an age of 0 to `max_age`, each target is reserved once and in increasing order,
and the buffer never fills. `AtomicReadsAreSound` shows that reading the last target together with the
reservation is enough; the code reads it before taking the lock, and `StaleReadBreaksBound` is a run in
which that breaks the bound. `SplitGateStartsAfterDrain` is the run that the single critical section of the
pause gate rules out. The fields of collector and buffer follow the protocol call by call, so all this is
said of the object after any run (`Collect`). A target is refused exactly when the whole window a generator
may serve is pushed or being generated (`FindTarget`), a batch holds the first n usable trajectories
themselves (`Sample`), and over any run the batches handed out for a version, joined, are what was pushed
for it, up to what still waits (`BufferHistory.PerformAll`).

**Reveal estimators.** The span check accepts exactly interval masks; the layout's segments are disjoint, in
bounds and as short as block and rounding allow; for any network, block reveal at any width, coupled masks
and leftmost reveal give each generated token its own score at its own position and zero elsewhere. At width
1 a block view shows in its block what the leftmost row shows; the entropy-sparsified view of a block is the
full view at the kept offset. End to end, from entropies to summed scores, for a block-local network every
generated token whose offset is among its block's top m has its full-reveal value and every other token zero
(`SparseRevealExact`). What the network is shown for a token is spelled out column by column
(`BlockRevealShows`, `CoupledPairShows`, `SparseRevealShows`, `HiddenHides`); the fixed leftmost window
begins at the first scored token, and agrees with the sparse schedule on responses that fit it
(`WindowIsSparse`). Top-m offsets are min(m, valid), ascending, padded, none less entropic than a dropped
one, and contain a response's only EOS.

**Others.** A validation may lose any preparation, pass, restore, sleep or wake-up, and a reconfiguration
may raise after any of its writes. When the variants' own wake-ups take effect, at most one engine is awake
at every moment if and only if two kinds of `sleep` take effect: that of the rollout engines wherever they
hold the device and a group is due, that is for the first variant if any uses those engines, or after one
without a group, and that of every group, except the last to run when nothing wakes after it
(`OneAwakeExactlyWhen`). With failing preparations and wake-ups too, working sleeps are still enough
(`OneAwakeWhenSleepsWork`). A pass on the rollout engines runs with its own settings over those left before,
and no pass shares the device when those sleeps take effect. On normal return the rollout decode is as at
entry if and only if every setting that a raising reconfiguration wrote was last written with its old value;
with working sleeps and wake-ups the awake state is as at entry if and only if some variant uses the rollout
engines or the last one has a group. Top-k keeps a token exactly if fewer than k lie strictly above it, and
top-p at least `p` of those and less than `p` without a least likely kept token, for any chunk size. Loading
a minimised configuration through the loader gives what loading the original gives if and only if a
checkable condition on empty values and `_override_` sections holds. `grpo_train` makes as many updates as
the course of timeouts and incomplete batches determines, exactly `train_iters` when nothing is skipped,
never more.

## Where code and documentation differ

- `merge_with_override` looks for `_override_` in first-level sections only; markers further down stay in
  the merged configuration as ordinary keys. `_prune_equal` does not know the marker, so minimising can
  lose an overriding section (`MarkedSubsetIsLost`), and an empty list that replaces a list of the base is
  dropped (`EmptyListIsLost`).
- The docstring of `_prune_equal` says lists of equal length are pruned by index; the code keeps or removes
  whole lists, and the model follows the code.
- With `chunk_size=None` and no tokens, `_apply_top_k_top_p_fn` steps a range by zero and raises; the model
  answers `ZeroStep`.
- `reconfigure_dllm` writes the settings one after the other, so a call that raises on a later value leaves
  the earlier ones written; `validate` then has nothing to restore, and a secondary variant's error is
  swallowed. With `selection_policy: leftmost` and `confidence_threshold: 0` validation returns normally and
  the rollout engines stay on the validation policy (`LeftOnValidationPolicy`), against the comment that the
  `finally` restores the rollout decode.
- `sleep` answers False when it fails and the loop does not read the answer, so a group wakes beside the
  rollout engines (`BothEnginesAwake`).
- A launch that raises between acquiring its permit and starting the worker returns neither the permit nor the
  reservation (`AsyncProtocol.AfterLaunch`, step `Abandon`; `PermitsReturnExactlyWhen` says when none is lost).

## Model

| member | source | states |
|---|---|---|
| `JointMass.MassOfBox` | nemo_rl/algorithms/confidence_transition.py:51-54 | the mass of a product set is the product of the row sums, for any number of positions: the step that lets a sum over joint proposals be computed position by position |
| `ConfidenceTransition.ThresholdPreimageIsBox` | nemo_rl/algorithms/confidence_transition.py:16-17 | when every revealed token clears the threshold, the proposals that the documented decoder maps to the outcome are exactly those with the targets at revealed positions and allowed tokens, invisible MASK included, at rejected ones |
| `ConfidenceTransition.FallbackPreimageIsBox` | nemo_rl/algorithms/confidence_transition.py:14-40 | the same for a single token below the threshold, with ties decided to the left |
| `ConfidenceTransition.ShownTogetherClearThreshold` | nemo_rl/algorithms/confidence_transition.py:16-50 | several tokens revealed at once have all cleared the threshold |
| `ConfidenceTransition.ClosedFormIsTransitionProbability` | nemo_rl/algorithms/confidence_transition.py:27-56 | the joint probability the code computes is the total probability of all proposals the decoder maps to the outcome, and is zero exactly where `valid` is false |
| `ConfidenceTransition.NotRevealingImpossible` | nemo_rl/algorithms/confidence_transition.py:43-54 | an outcome that reveals an unmasked position or a MASK token has probability zero |
| `ConfidenceTransition.SupportedMeans` | nemo_rl/algorithms/confidence_transition.py:27-56 | the `valid` flag spelled out: all revealed tokens clear the threshold and every other masked position can draw something below it or MASK, or one token of positive probability below the threshold is revealed and every other masked position can draw something less probable, or as probable to its right |
| `ConfidenceTransition.ClosedFormExactlyWhen` | nemo_rl/algorithms/confidence_transition.py:27-56 | over all queries that reveal something, the code's value is the true probability if and only if only masked positions and non-MASK tokens are revealed or neither of those two conditions on probabilities and threshold holds |
| `ConfidenceTransition.MaskTargetIsNotCaught` | nemo_rl/algorithms/confidence_transition.py:43-56 | two tokens, threshold 0.9, MASK as target with probability 0.95: the code returns 0.95 and the decoder never produces the outcome |
| `TransitionLaw.TransitionLawSumsToOne` | nemo_rl/algorithms/confidence_transition.py:14-56 | the closed forms of all visible outcomes and the probability that nothing becomes visible sum to one |
| `LogitShift.SoftmaxOfShiftedLogit` | nemo_rl/algorithms/confidence_transition.py:133-147 | adding the logarithm of l to one logit and taking the softmax again multiplies that entry by l and divides the row by 1 + (l - 1) times the old entry |
| `LogitShift.ShiftedProbability` | nemo_rl/algorithms/confidence_transition.py:133-147 | how the probability of any event of any number of independent draws changes with one logit: (P(e) + (l - 1) P(e and that token there)) / (1 + (l - 1) p), for every l > 0 |
| `TransitionLaw.DerivativeIsCoefficient` | nemo_rl/algorithms/confidence_transition.py:133-147 | `LogitDerivative` is the coefficient of l - 1 in that change, exactly and not only in the limit |
| `TransitionLaw.ScoreIsDerivative` | nemo_rl/algorithms/confidence_transition.py:133-147 | the backward score times the joint probability is the derivative of the joint probability by the logit, at every position and token |
| `TransitionLaw.ScoreMovesLikelihood` | nemo_rl/algorithms/confidence_transition.py:133-147 | moving a logit changes the closed form itself by (l - 1) times closed form times score over the scale of the row, as long as the proposals behind the outcome stay the same |
| `TransitionLaw.ScoreRowSumsToZero` | nemo_rl/algorithms/confidence_transition.py:133-147 | at every masked position of a supported block the score row sums to zero over the vocabulary |
| `TransitionLaw.ExpectedScore` | nemo_rl/algorithms/confidence_transition.py:116-148 | the expected score over visible outcomes is minus the derivative of the invisible mass, and zero without a MASK token |
| `ConfidenceBlocks.Forward` | nemo_rl/algorithms/confidence_transition.py:73-130 | for every row r and block c of size B: if some column c * B + i is selected, the cell holds the likelihood and the flag the support of the decoder whose i-th position is column c * B + i, with that column's softmax row, mask, target and selection and the batch's threshold and MASK token, and where only masked positions and non-MASK tokens are revealed that is the total probability of the outcome's proposals; otherwise one and false. A noisy side that is not block-aligned is refused |
| `ConfidenceBlocks.OneReading` | nemo_rl/algorithms/confidence_transition.py:95-101 | the columns determine the decoder: two queries read from the same columns with the same threshold and MASK token are equal |
| `ConfidenceBlocks.Backward` | nemo_rl/algorithms/confidence_transition.py:116-148 | the gradient at column s of row r is the upstream weight of its own block times the score, at position s mod B, of the decoder on the block's own columns: for a selected column of a supported block the weight times the indicator of its own target less its own probability; zero for an unmasked column, a block that selects nothing or has no support, and the clean side |
| `ConfidenceBlocks.GradientRowSumsToZero` | nemo_rl/algorithms/confidence_transition.py:133-148 | what the backward pass owes any noisy position sums to zero over the vocabulary |
| `TraceReplay.RangeMeansGapless` | nemo_rl/algorithms/confidence_transition.py:294-295 | the set comparison holds exactly when no level below the largest is missing |
| `TraceReplay.ValidateCompleteTrace` | nemo_rl/algorithms/confidence_transition.py:277-296 | a batch is accepted exactly when every row is block-aligned and every block resolved and gapless; otherwise the answer names what is wrong with the first bad row, and in it the first bad block |
| `TraceReplay.ReplayOfCompleteBlock` | nemo_rl/algorithms/confidence_transition.py:181-188 | replay of an accepted block reveals something at every step and each position once, masks exactly what is not yet revealed, ends fully revealed, and needs at most block-size steps |
| `TraceReplay.ProgressMeansGapless` | nemo_rl/algorithms/confidence_transition.py:294-296 | conversely, levels whose every step reveals something are accepted |
| `TraceReplay.ReplayLikelihoodIsExact` | nemo_rl/algorithms/confidence_transition.py:179-191 | step l of an accepted trace asks the closed form for exactly the positions of level l, with the later ones masked and the earlier ones shown, and it answers with the true probability |
| `ReplayBuffers.ReplayBuffer.Push` | nemo_rl/algorithms/async_utils.py:64-91 | a push appends the record and raises the last target, or answers "full" and changes nothing |
| `ReplayBuffers.ReplayBuffer.Remove` | nemo_rl/algorithms/async_utils.py:221-225 | removing the selected indices from the three lists in reverse order is popping them from the one sequence the lists stand for |
| `ReplayBuffers.ReplayBuffer.Sample` | nemo_rl/algorithms/async_utils.py:111-233 | a batch holds, in order, the trajectories of the first n old records with target w and version at most w, each read at its own index; n times the average age is the sum of w less their versions; the records left are the others, in order. Any other answer leaves everything and has its reason: the reported error, records that are too old, or fewer than n usable records |
| `ReplayBuffers.SampledIsBatch` | nemo_rl/algorithms/async_utils.py:179-233 | the index filters, the slice to n and the pops give that batch, for any contents |
| `ReplayBuffers.AnswerExactly` | nemo_rl/algorithms/async_utils.py:111-175 | which answer a sample gives, in terms of the error, the versions and the targets of the records |
| `ReplayBuffers.PopAllKeepsRest` | nemo_rl/algorithms/async_utils.py:200-225 | popping the first n usable indices back to front leaves exactly the other records, in order |
| `ReplayBuffers.EnoughMeansBatch` | nemo_rl/algorithms/async_utils.py:158-200 | with nothing too old, the two index filters leave the usable records, and their counts decide between waiting and a batch |
| `ReplayBuffers.ReplayBuffer.Clear` | nemo_rl/algorithms/async_utils.py:241-246 | the records are gone; the last target and a reported error stay |
| `ReplayBuffers.ReplayBuffer.Create` | nemo_rl/algorithms/async_utils.py:43-54 | a size that is not positive is refused, otherwise the buffer is empty and nothing was generated yet |
| `BufferHistory.RunConserves` | nemo_rl/algorithms/async_utils.py:64-233 | over any run, for every record: initial plus accepted pushes equal sampled plus remaining, and capacity is kept |
| `BufferHistory.RunIsFifoPerVersion` | nemo_rl/algorithms/async_utils.py:179-200 | over any run, what was pushed for a version is what was sampled at it followed by what still waits, in order |
| `BufferHistory.LastIsRunningMaximum` | nemo_rl/algorithms/async_utils.py:85-87 | the last generated target never decreases and is the maximum of the targets pushed |
| `BufferHistory.PerformAll` | nemo_rl/algorithms/async_utils.py:36-233 | any sequence of calls leaves the object where the run leaves one sequence of records; for every version, the trajectories in the batches the calls returned, concatenated, followed by those still waiting, are those waiting before followed by those pushed for it |
| `BufferHistory.StepAnswersFifo` | nemo_rl/algorithms/async_utils.py:64-233 | one call: what waits for w and is pushed is what is handed out and still waits, in order |
| `TrajectoryCollector.Collector.FindTarget` | nemo_rl/algorithms/async_utils.py:321-369 | with the window start to start + max_age at the start version and g + 1 to g + max_age at any other: the answer is the least version of the window that is above the last pushed target and not being generated, and none if and only if every version of the window is at most the last or being generated |
| `TrajectoryCollector.Collector.ShouldPauseForGenerationLimits` | nemo_rl/algorithms/async_utils.py:382-404 | collection pauses if and only if every version of that window is at most the last pushed target or being generated |
| `TrajectoryCollector.Collector.StartIfUnpaused` | nemo_rl/algorithms/async_utils.py:586-598 | one protocol step or none: unpaused, the thread is registered and the pool has one more worker, or, if the start raises, one more lost permit; paused, nothing changes |
| `TrajectoryCollector.Collector.DrainPass` | nemo_rl/algorithms/async_utils.py:721-738 | a pass over the registered threads, some of which never started, reports "drained" exactly when the protocol's drain step is enabled, and then takes it |
| `TrajectoryCollector.Collector.SampleBatch` | nemo_rl/algorithms/async_utils.py:111-233 | a sample that returns a batch is the trainer's step of the protocol, any other answer changes nothing |
| `TrajectoryCollector.Collector.Perform` | nemo_rl/algorithms/async_utils.py:248-912 | every step of launcher, worker, trainer and operator, done by the method on fields, counters and lists that the code has for it, takes the object to the state after that step |
| `TrajectoryCollector.Collector.PerformAll` | nemo_rl/algorithms/async_utils.py:248-912 | any run is followed call by call, and stops early only where the trainer samples after a reported worker failure |
| `TrajectoryCollector.Collector.FieldsAreSafe` | nemo_rl/algorithms/async_utils.py:248-912 | after any run: permits plus live threads within the limit; drained means paused and no live thread registered; without failure or repeated reservation every buffered record is in time, and the buffer has room for all rollouts in flight |
| `TrajectoryCollector.Collect` | nemo_rl/algorithms/grpo.py:3573-3584 | the same from construction: a new collector with the chosen buffer size, taken through any run of calls |
| `AsyncProtocol.FirstFree` | nemo_rl/algorithms/async_utils.py:359-369 | the chosen target is free, above the last one, and every smaller candidate is taken |
| `AsyncProtocol.SemaphoreConserved` | nemo_rl/algorithms/async_utils.py:550-569 | in every reachable state free permits, live workers, the launcher's permit and the permits lost with abandoned launches add up to the in-flight limit, whatever failed |
| `AsyncProtocol.PermitsReturnExactlyWhen` | nemo_rl/algorithms/async_utils.py:550-569 | at the end of any run free permits, live workers and the launcher's permit make up the whole limit if and only if no batch of the run was abandoned while the launcher held a permit |
| `AsyncProtocol.DrainIsSafe` | nemo_rl/algorithms/async_utils.py:574-636 | in every interleaving, between the return of a drain and `resume` no worker is registered and no step starts one |
| `AsyncStaleness.StepKeeps` | nemo_rl/algorithms/async_utils.py:508-569 | every step of launcher, worker, trainer and operator keeps the global invariant |
| `AsyncStaleness.ReachableInv` | nemo_rl/algorithms/async_utils.py:508-569 | the global invariant holds in every reachable state without failure and without a repeated reservation |
| `AsyncStaleness.BoundedStaleness` | nemo_rl/algorithms/grpo.py:3766-3782 | at trainer version w everything buffered, in flight or being launched has target at least w and an age of 0 to max_age, also after a version re-read in mid-batch, so the "older than min_valid_version" error is unreachable |
| `AsyncStaleness.ReservationsIncrease` | nemo_rl/algorithms/async_utils.py:359-369 | targets are reserved in strictly increasing order, and at most n groups of each exist |
| `AsyncStaleness.OccupancyBound` | nemo_rl/algorithms/grpo.py:3573-3584 | buffered and in-flight groups number at most n * (max_age + 1), which the chosen capacity covers |
| `AsyncStaleness.BufferNeverFull` | nemo_rl/algorithms/async_utils.py:77-79 | whenever a rollout finishes the buffer has room for its group |
| `AsyncStaleness.ReservationIsFreshExactlyWhen` | nemo_rl/algorithms/async_utils.py:355-367 | a reservation is for a target never reserved before if and only if the target is above the last one pushed by then |
| `AsyncStaleness.AtomicReadsAreSound` | nemo_rl/algorithms/async_utils.py:350-369 | if every read of the last target is taken together with its reservation, no target is reserved again and the staleness bound holds |
| `AsyncCounterexample.SplitGateStartsAfterDrain` | nemo_rl/algorithms/async_utils.py:577-581 | with check and start apart, a run in which a rollout starts after the drain returned |
| `AsyncCounterexample.StaleReadBreaksBound` | nemo_rl/algorithms/async_utils.py:355-367 | with the read outside the lock, a failure-free run in which a rollout's target lies behind the trainer |
| `CompletionSpan.SpanCheckExact` | nemo_rl/algorithms/diffu_grpo_logprobs.py:113-127 | the first-to-last distance test accepts exactly the masks that are intervals |
| `CompletionSpan.ValidateSingleCompletionSpan` | nemo_rl/algorithms/diffu_grpo_logprobs.py:113-127 | a batch passes exactly when every row's mask is an interval |
| `CompletionSpan.SpanIsMask` | nemo_rl/algorithms/diffu_grpo_logprobs.py:68-110 | for an interval mask, start and length mark exactly the scored tokens and the clean part ends with the last of them |
| `CompletionSpan.CompletionStarts` | nemo_rl/algorithms/diffu_grpo_logprobs.py:83-95 | the starts array holds each row's first scored position: the score there is positive and at none before; 0 for a row without any |
| `CompletionSpan.ScoringLengths` | nemo_rl/algorithms/diffu_grpo_logprobs.py:68-80 | the lengths array ends each row right after its last position with a positive score, and is the input length for a row without any |
| `CompletionLayout.NoisyValidLeast` | nemo_rl/algorithms/diffu_grpo_logprobs.py:155-167 | the noisy length is the least block multiple that holds the response, or the response itself without padding |
| `CompletionLayout.ShapeFits` | nemo_rl/algorithms/diffu_grpo_logprobs.py:168-198 | noisy and clean segment tile the total and every row fits in both |
| `CompletionLayout.RoundedTotal` | nemo_rl/algorithms/diffu_grpo_logprobs.py:184-198 | the total is the least rounding multiple that holds both segments |
| `CompletionLayout.ShapeOfIsShape` | nemo_rl/algorithms/diffu_grpo_logprobs.py:155-198 | the noisy width is the largest noisy length of a row, the clean width the largest clean length, the total their sum rounded up |
| `CompletionLayout.CellByRange` | nemo_rl/algorithms/diffu_grpo_logprobs.py:205-253 | what a cell holds, by the range its column lies in |
| `CompletionLayout.BuildCompletionOnly` | nemo_rl/algorithms/diffu_grpo_logprobs.py:130-253 | after all slice writes each cell holds, range of columns by range of columns, its response target over MASK, the tail up to the block multiple, padding, the clean prefix of the sequence or padding, and the score mark on the response alone; the widths are the least that hold every row; no write disturbs another |
| `CompletionLayout.BuildFullyMasked` | nemo_rl/algorithms/diffu_grpo_logprobs.py:275-371 | the builder succeeds exactly on batches without a problem, reports the first problem otherwise, and lays out rows that start at the first scored position and end after the last |
| `RevealAgreement.NoisySpellsResponse` | nemo_rl/algorithms/diffu_grpo_logprobs.py:228-244 | over the response the targets are the generated tokens in order and the inputs are MASK |
| `RevealAgreement.CleanSpellsPrefix` | nemo_rl/algorithms/diffu_grpo_logprobs.py:222-225 | the clean segment is the sample up to its last generated token, followed by padding only |
| `RevealScatter.ScatterBlockReveal` | nemo_rl/algorithms/block_just_grpo_logprobs.py:475-516 | each output cell is the sum of the harvested contributions of the rows that reach it, out-of-range rows and positions skipped |
| `RevealScatter.Accumulate` | nemo_rl/models/policy/workers/block_just_grpo_megatron_policy_worker.py:168-190 | the worker's loop yields the sum over all levels |
| `RevealScatter.OneHarvestReconstructs` | nemo_rl/algorithms/block_just_grpo_logprobs.py:484-490 | if one level alone harvests a token, the summed output at its position is the score of that level's view, for any network |
| `RevealScatter.NoHarvestIsZero` | nemo_rl/algorithms/block_just_grpo_logprobs.py:484-490 | a position no level harvests stays zero |
| `RevealScatter.ScatterOriginal` | nemo_rl/algorithms/diffu_grpo_logprobs.py:256-272 | original values of the span move to the first columns, zero after them |
| `RevealScatter.GatherScatterRoundTrip` | nemo_rl/algorithms/diffu_grpo_logprobs.py:256-272 | moving a batch's values into the noisy segment and scattering them back is the identity on each span and zero elsewhere |
| `RevealLevels.LevelsReachBlock` | nemo_rl/algorithms/block_just_grpo_logprobs.py:79-105 | uncapped, the level count is the least that reaches every offset of a block, whatever the lengths of a non-empty batch; offset w is reached at level w divided by the width |
| `RevealLevels.CapReaches` | nemo_rl/algorithms/block_just_grpo_logprobs.py:79-105 | with a cap, offset w of a block is reached exactly if w divided by the width is below the cap |
| `RevealLevels.LevelViewIs` | nemo_rl/algorithms/block_just_grpo_logprobs.py:297-332 | level l at width k shows the targets at block offsets below l * k and harvests those from l * k to l * k + k |
| `RevealLevels.HarvestedOnce` | nemo_rl/algorithms/block_just_grpo_logprobs.py:316-332 | a scored response token is harvested at one level only: its offset within its block, divided by the width |
| `RevealLevels.LevelsUnfold` | nemo_rl/algorithms/block_just_grpo_logprobs.py:297-332 | a level hides what it harvests, the next one shows what was shown or harvested before, and the first shows nothing |
| `RevealLevels.BlockRevealReconstructs` | nemo_rl/algorithms/block_just_grpo_logprobs.py:289-369 | for any number of levels, summing them gives exactly the tokens they reach their own score, and zero to everything else |
| `RevealLevels.FullCountReconstructs` | nemo_rl/algorithms/block_just_grpo_logprobs.py:79-105 | with the uncapped count that is every response token |
| `SelectedLevels.RankViewIsFullView` | nemo_rl/algorithms/block_just_grpo_logprobs.py:333-353 | in a block that keeps offset o at rank j, the sparse view shows and harvests what the full view does at level o; at -1 nothing |
| `SelectedLevels.SparseAgreesWithFull` | nemo_rl/algorithms/block_just_grpo_logprobs.py:333-340 | for any network that scores a noisy column from its own block and the clean segment, every kept token's summed value in the sparse path is its value in the full reveal |
| `SelectedLevels.UnionIsSum` | nemo_rl/algorithms/block_just_grpo_logprobs.py:377-386 | a kept token is harvested at one rank, so the union mask is the sum of the rank masks |
| `SelectedLevels.BuildKeptMask` | nemo_rl/algorithms/block_just_grpo_logprobs.py:372-412 | the accumulated mask marks exactly the scored response tokens whose offset is listed in the selection of their own block |
| `SelectedLevels.KeptIsListed` | nemo_rl/algorithms/block_just_grpo_logprobs.py:372-412 | being harvested at some rank is being listed |
| `SelectedLevels.SparseRevealReconstructs` | nemo_rl/algorithms/block_just_grpo_logprobs.py:333-353 | summed over the ranks, each kept token has the score of the rank that keeps it and every other position is zero |
| `TopOffsets.OffsetsShape` | nemo_rl/algorithms/block_just_grpo_logprobs.py:130-192 | for non-negative entropies each block's offsets are min(m, valid) response offsets, strictly ascending, then -1 |
| `TopOffsets.OffsetsAreTop` | nemo_rl/algorithms/block_just_grpo_logprobs.py:160-192 | no kept offset is less entropic than a dropped one, and boosted EOS tokens are kept when a block has at most m of them |
| `TopOffsets.KeptDoNotGiveWay` | nemo_rl/algorithms/block_just_grpo_logprobs.py:160-192 | of two response tokens of a block, a kept one is never less entropic than a dropped one, boosted EOS tokens first, in the rollout's own entropies |
| `TopOffsets.SoleEosIsKept` | nemo_rl/algorithms/block_just_grpo_logprobs.py:173-183 | the only EOS of a response is always among the kept offsets of its block |
| `TopOffsets.BlocksSuffice` | nemo_rl/algorithms/block_just_grpo_logprobs.py:160-165 | every response token's block has its own place in the selection |
| `SparseReveal.SparseRevealExact` | nemo_rl/algorithms/block_just_grpo_logprobs.py:130-192 | end to end on any accepted batch, with any non-negative entropies, any top-m choice and any block-local network: a generated token whose offset is among its block's kept ones gets its own score as in the full reveal, every other token of the row zero |
| `SparseReveal.SparseRevealShows` | nemo_rl/algorithms/block_just_grpo_logprobs.py:333-353 | what a kept token's value is: the network's score at its own column when it is shown, of every block, the generated tokens at smaller offsets, MASK at the others, and the clean prefix |
| `SparseReveal.KeptTokensAreTop` | nemo_rl/algorithms/block_just_grpo_logprobs.py:130-192 | in the sample's own tokens and entropies: a generated token that is kept is a boosted EOS, or the dropped one is none and not more entropic |
| `SparseReveal.BlockKeeps` | nemo_rl/algorithms/block_just_grpo_logprobs.py:130-192 | a block with r generated tokens left keeps min(m, r) of their offsets, ascending, then -1 |
| `SparseReveal.OthersAreZero` | nemo_rl/algorithms/block_just_grpo_logprobs.py:333-369 | for an arbitrary network, a position that is not a kept response token gets zero |
| `LeftmostReveal.BuildLeftmostReveal` | nemo_rl/algorithms/just_grpo_logprobs.py:40-157 | the rows are, sample by sample, those of its schedule: the fixed window's positions start at the first scored one, or at the last input column without any, and the sparse schedule's are the scored positions; each row is the sample with MASK at the scored tokens from its position on |
| `LeftmostReveal.BatchRows` | nemo_rl/algorithms/just_grpo_logprobs.py:134-157 | every row hides its token and what follows, counts only if its token is scored and in reach, and no token has two counting rows |
| `LeftmostReveal.HiddenHides` | nemo_rl/algorithms/just_grpo_logprobs.py:134-157 | the row's input is the sample with MASK at the scored tokens from the position on, and nothing else changed |
| `LeftmostReveal.WindowRowCount` | nemo_rl/algorithms/just_grpo_logprobs.py:57-60 | the fixed window emits the same number of rows for every sample, whatever its response |
| `LeftmostReveal.ScatterLeftmost` | nemo_rl/algorithms/just_grpo_logprobs.py:311-334 | counting rows assign their score to their token, every other position stays zero |
| `LeftmostReveal.LeftmostLogprobs` | nemo_rl/algorithms/just_grpo_logprobs.py:40-334 | build, score with any network, scatter: each scored token within the window, which begins at the first scored token, or any scored token under the sparse schedule, has the score of the row that hides exactly it and what follows, every other position zero |
| `LeftmostReveal.WindowReaches` | nemo_rl/algorithms/just_grpo_logprobs.py:120-131 | the fixed window begins at the first scored position and reaches the scored positions less than its length after it |
| `LeftmostReveal.WindowIsSparse` | nemo_rl/algorithms/just_grpo_logprobs.py:50-60 | for an interval response no longer than the window both schedules reach exactly the scored tokens, so they agree |
| `RevealAgreement.BlockRevealExact` | nemo_rl/algorithms/block_just_grpo_logprobs.py:475-516 | end to end on any accepted batch: every generated token gets its own score, every other token of the row zero |
| `RevealAgreement.BlockRevealShows` | nemo_rl/algorithms/block_just_grpo_logprobs.py:289-369 | what a generated token's value is: the network's score at its own column, shown of every block the generated tokens at offsets before the token's window, MASK at the others, tail and padding, and the clean prefix |
| `RevealAgreement.BlockViewIsLeftmostRow` | nemo_rl/algorithms/just_grpo_logprobs.py:50-55 | at width 1, in the block a token is harvested in, the block view has the same contents as the leftmost row for that token |
| `RevealAgreement.CoupledPartition` | nemo_rl/algorithms/coupled_grpo_logprobs.py:290-334 | for any mask, the two levels of a pair partition the valid tokens, hide what they harvest and show the rest |
| `RevealAgreement.CoupledPairExact` | nemo_rl/algorithms/coupled_grpo_logprobs.py:290-349 | for any mask and network, the two levels of a pair give every generated token its score from the level that hides it and zero elsewhere |
| `RevealAgreement.CoupledPairShows` | nemo_rl/algorithms/coupled_grpo_logprobs.py:290-349 | the value is the network's score at the token's column when it is shown the generated tokens of the other level and MASK at those of its own |
| `BlockAwareElbo.LengthsAddUp` | nemo_rl/algorithms/espo_logprobs.py:103-134 | the block lengths of a sequence add up to its response length |
| `BlockAwareElbo.BlockElboIs` | nemo_rl/algorithms/espo_logprobs.py:75-143 | a block with harvested response tokens is worth its number of response tokens times their mean log probability, one without is worth zero |
| `BlockAwareElbo.SingleHarvest` | nemo_rl/algorithms/espo_logprobs.py:103-134 | a block with one harvested token counts: it is worth that token's log probability times the block's length |
| `BlockAwareElbo.ElboIs` | nemo_rl/algorithms/espo_logprobs.py:75-143 | the value of a sequence is the sum of these over its blocks |
| `BlockAwareElbo.ElboWithinLength` | nemo_rl/algorithms/espo_logprobs.py:75-143 | with log probabilities in [lo, 0] the ELBO lies between lo per response token and 0, for any harvest mask |
| `BlockAwareElbo.CoupledElbo` | nemo_rl/algorithms/espo_logprobs.py:146-186 | the number of masks times the answer is the sum of those sequence values, the answer per token is it divided by the length, and that stays in [lo, 0]; no mask is an error |
| `ValidationHandOff.BuiltGroupsMatch` | nemo_rl/algorithms/grpo.py:339-370 | the groups built from the configuration are those of its engine-level variants |
| `DecodeKnobs.Engine.Reconfigure` | nemo_rl/models/generation/vllm/vllm_backend.py:191-239 | the call raises if and only if it breaks off, asks for an unknown name or for a value that cannot be converted; every request it gets through, none if a name is unknown, has its value, and every other setting is as before; only a call that got through reports the previous values |
| `DecodeKnobs.WrittenExactly` | nemo_rl/models/generation/vllm/vllm_backend.py:191-239 | what a call leaves written is the requests it gets through, each under its own name and with its own value |
| `DecodeKnobs.RestoreUndoes` | nemo_rl/models/generation/vllm/vllm_backend.py:191-239 | a call with the reported values undoes the call that reported them |
| `ValidationHandOff.Device.RunVariant` | nemo_rl/algorithms/grpo.py:3189-3305 | one variant with its try, except and finally and anything failing in it: who is awake after it, whether two engines were awake during it, what of a raising reconfiguration stays written, whether it raises, is skipped or finishes by the branch it takes, and with which settings and engines awake its pass runs, if it gets that far |
| `ValidationHandOff.FateExactly` | nemo_rl/algorithms/grpo.py:3236-3305 | a variant raises exactly when the primary fails or a restore does, and is skipped exactly when a secondary one fails or its decode cannot be changed |
| `ValidationHandOff.LeftByExactly` | nemo_rl/algorithms/grpo.py:3236-3302 | what a variant leaves written is the requests that a raising reconfiguration got through, and nothing after one that went through |
| `ValidationHandOff.LeftIsExact` | nemo_rl/algorithms/grpo.py:3236-3302 | after any number of variants every setting has the value last left by a raising reconfiguration, or the one at entry |
| `ValidationHandOff.Device.RunVariants` | nemo_rl/algorithms/grpo.py:3182-3322 | for any variants and failures: the first failing variant decides whether validation raises; at most one engine was awake throughout if and only if the sleeps that matter take effect, when neighbouring names differ and what should wake does, and in general if and only if no peak nor the final wake-up overlaps; every pass that can run does, on the rollout engines with its own settings over what was left before, and with its own engine alone awake when those sleeps take effect; on normal return every setting is as at entry but those that a raising reconfiguration wrote |
| `ValidationHandOff.OneAwakeExactlyWhen` | nemo_rl/algorithms/grpo.py:3209-3322 | which sleeps matter: the rollout engines' own for a variant with a group that is the first, with the device held, or follows one without a group; and each group's, except that of the last variant to run when validation raises, or the rollout engines are not expected back or do not wake at the end. Necessary and sufficient for at most one engine awake throughout, for any number of variants, whatever passes, restores and reconfigurations do |
| `ValidationHandOff.PassesOnTheirEngines` | nemo_rl/algorithms/grpo.py:3209-3275 | if the sleeps that matter take effect, every pass runs with the engine it decodes on awake and no other |
| `ValidationHandOff.RestoredExactlyWhen` | nemo_rl/algorithms/grpo.py:3236-3302 | the decode of entry is back if and only if for every setting the last request that a raising reconfiguration got through asks for the value at entry |
| `ValidationHandOff.NothingLeft` | nemo_rl/algorithms/grpo.py:3236-3302 | if no reconfiguration raises after its first write, nothing is left written |
| `ValidationHandOff.SoundSleeps` | nemo_rl/algorithms/grpo.py:3209-3229 | as long as every sleep takes effect, no variant wakes an engine beside another, whatever else fails, for any number of variants |
| `ValidationHandOff.OneAwakeWhenSleepsWork` | nemo_rl/algorithms/grpo.py:3209-3322 | the same for a whole validation, final wake-up and errors included |
| `ValidationHandOff.FailedSleepOverlaps` | nemo_rl/algorithms/grpo.py:3216-3222 | a failed sleep before a group wakes puts two engines on the device |
| `ValidationHandOff.AwakeAsAtEntry` | nemo_rl/algorithms/grpo.py:3308-3322 | with working sleeps and wake-ups a normal return leaves the awake state of entry if and only if some variant uses the rollout engines or the last one has a group |
| `ValidationHandOff.LeftOnValidationPolicy` | nemo_rl/models/generation/vllm/vllm_backend.py:222-228 | threshold 0 after `selection_policy` in a secondary variant: validation returns normally with the rollout engines on the validation policy |
| `ValidationHandOff.BothEnginesAwake` | nemo_rl/models/generation/vllm/vllm_generation.py:752-791 | a `sleep` that answers False: validation returns normally although two engines were awake at once |
| `NucleusFilter.KeptUnchanged` | nemo_rl/algorithms/logits_sampling_utils.py:192-205 | kept logits are unchanged at their own place, the others minus infinity |
| `NucleusFilter.SameTopKMask` | nemo_rl/algorithms/logits_sampling_utils.py:93-108 | the sorted path's top-k mask in original order is the mask of the path that does not sort, ties included |
| `NucleusFilter.SortedKeepsSurvivors` | nemo_rl/algorithms/logits_sampling_utils.py:166-183 | the sorted path's top-k keeps a token if and only if fewer than k entries of the row lie strictly above it |
| `NucleusFilter.UnsortedKeepsSurvivors` | nemo_rl/algorithms/logits_sampling_utils.py:93-108 | the same of the path that does not sort |
| `NucleusFilter.EnoughSurvive` | nemo_rl/algorithms/logits_sampling_utils.py:93-108 | so at least k tokens survive, ties included |
| `NucleusFilter.KeptMassIsNucleus` | nemo_rl/algorithms/logits_sampling_utils.py:166-200 | with probabilities taken over the original row's top-k survivors, the kept tokens hold at least p and less than p without a least likely one |
| `NucleusFilter.FilterIsNucleus` | nemo_rl/algorithms/logits_sampling_utils.py:166-200 | a filtered row in full: only top-k survivors are kept, nothing above a kept token is dropped, and they are the least such set that holds p |
| `NucleusFilter.KeptIsUpwardClosed` | nemo_rl/algorithms/logits_sampling_utils.py:166-200 | nothing above a kept token is dropped |
| `NucleusFilter.SomeLeastKept` | nemo_rl/algorithms/logits_sampling_utils.py:189-191 | at least one token is kept |
| `NucleusFilter.UndefinedRow` | nemo_rl/algorithms/logits_sampling_utils.py:183-191 | a row without a finite logit, whose softmax is not a number, keeps the one token the sort puts last, at minus infinity |
| `NucleusFilter.ApplyTopKTopP` | nemo_rl/algorithms/logits_sampling_utils.py:112-210 | every output row is, whatever the chunk size, its own row filtered: with p = 1 a token is kept if and only if fewer than k entries lie strictly above it, and below 1 the kept ones are the nucleus over those; kept logits are unchanged. It writes nothing exactly for a negative chunk size, and fails exactly on a zero step or on a top-k above the vocabulary that some chunk reaches |
| `Permutations.SumInAnyOrder` | nemo_rl/algorithms/logits_sampling_utils.py:186-200 | a sum does not depend on the order a row is sorted into |
| `ConfigMinimize.PlainMergePreserved` | tools/config_cli.py:234-270 | merging the pruned child gives the merge of the child if and only if no empty dictionary or list replaces a different value |
| `ConfigMinimize.MergeByPath` | tools/config_cli.py:86-100 | what a merge holds at every path of keys: where the child lacks a key the base counts, elsewhere there is something exactly if the child has it, its leaves and lists as they are |
| `ConfigMinimize.PruneByPath` | tools/config_cli.py:234-270 | what pruning leaves at every path: a leaf or list stays exactly if the base has nothing there, or something else that it does not replace by an empty list; a dictionary beside one of the base's is left out when nothing of it stays |
| `ConfigMinimize.PruneIdempotent` | tools/config_cli.py:234-270 | pruning twice is pruning once |
| `ConfigMinimize.EmptyListIsLost` | tools/config_cli.py:253-255 | an empty list over a non-empty one is dropped and the base's list comes back |
| `ConfigMinimize.MinimizePreservesExactly` | tools/config_cli.py:86-146 | with `_override_` sections in child and base, loading the minimised child through the loader, which strips the base's own markers first, gives what loading the child gives if and only if `SafeToMinimize` holds of child and unstripped base |
| `ConfigMinimize.UnmarkedChild` | tools/config_cli.py:86-146 | without markers on either side that condition is the one about empty values |
| `ConfigMinimize.MarkedSubsetIsLost` | tools/config_cli.py:86-146 | an overriding section that is a subset of the base's keeps only its marker and loads as empty |
| `ConfigMinimize.RepeatedMarkedSectionIsSafe` | tools/config_cli.py:124-146 | a child that repeats a marked section of its base is minimised to nothing and loads the same |
| `ConfigMinimize.Config.MergeOver` | tools/config_cli.py:86-100 | key by key, in the two configurations as they were: a marked section replaces the base's and loses its marker, anything else merges path by path; the argument keeps its keys without the markers, and the base loses the sections that were replaced |
| `StepAccounting.Train` | nemo_rl/algorithms/grpo.py:2000-2998 | the exact number of updates for any course of timeouts and incomplete batches: the rollouts before the first that stops the run, each worth its mini-batches, and how often the last-step flag is raised; never more than `train_iters`, exactly that without timeout and incomplete batches, and then the flag is raised once |
| `StepAccounting.NeverMore` | nemo_rl/algorithms/grpo.py:877-889 | no course makes more than `train_iters` updates |
| `StepAccounting.UninterruptedReaches` | nemo_rl/algorithms/grpo.py:877-889 | a course without interruption makes exactly `train_iters` and raises the flag once, if any |
| `StepAccounting.WithinSteps` | nemo_rl/algorithms/grpo.py:877-889 | rollouts that stop once the step limit is reached end at the limit rounded up to whole rollouts |
| `DynamicSampling.Cache.Add` | nemo_rl/algorithms/grpo.py:1248-1339 | the training batch is the rows at the first N places with non-zero spread, in generation order, returned exactly when there are N such places; the errors and the retry limit |
| `DynamicSampling.UsefulExactly` | nemo_rl/algorithms/grpo.py:1265-1285 | the filter keeps exactly the rows with non-zero spread, in order |
| `DynamicSampling.Collect` | nemo_rl/algorithms/grpo.py:1265-1332 | over a whole step: the batch is that of all rows in generation order, however they were cut into batches, it is returned with the first batch that completes it, and never without enough such rows |
| `ValidationShard.SelectValidationShard` | examples/eval_grpo_checkpoint_validation.py:191-218 | a rank's shard lists, ascending, exactly the samples at index i for which i, within its global batch, lies in the rank-th share, the shares being the ceiling of the batch's length over the number of ranks; bad arguments are refused |
| `ValidationShard.ShardSizeIsCeiling` | examples/eval_grpo_checkpoint_validation.py:207-218 | the share is the least that lets all ranks together hold the batch |
| `ValidationShard.OwnsExactly` | examples/eval_grpo_checkpoint_validation.py:207-218 | a sample lies in the share of its owner and of no other rank |
| `ValidationShard.ShardsCoverOnce` | examples/eval_grpo_checkpoint_validation.py:207-218 | over all ranks every sample is in exactly one shard, once |

## Left out

- Float rounding, logarithms and exponentials as such, autograd plumbing, devices and dtypes.
- AsyncStaleness.BoundedStaleness: assumes no worker failed and no repeated reservation, because the code reads the last target before it takes the lock; `StaleReadBreaksBound` shows the assumption is needed.
- Liveness of the asynchronous loop: a slow collector can skip a target, and at exhaustion of the data workers stop pushing.
- The refit gate is modelled as a flag that is not ordered with the launcher, as in the code, and no drain guarantee is claimed for it. Runs without refit, in which the version never advances, are not modelled.
- The generation-limit wait and the epoch loop of the collector: they only delay the launcher.
- Context-parallel padding of the layout; without it the total is a rounding multiple, with it the code does not promise that.
- CompletionLayout.BuildCompletionOnly: token mask and score mask start out equal and are modelled as one array.
- Padding of leftmost rows to a microbatch multiple, and the loss fields gathered beside them.
- How the random level-0 masks are drawn, and the routing of previous log probabilities per pair: any mask is allowed.
- Weight streaming, refits and engine start-up inside `prepare_val_generation`, and the metrics of a validation pass. A failing `sleep` or `wake_up` answers False, as the code's own error handling makes it, and does not raise.
- ValidationHandOff.OneAwakeExactlyWhen: the variants' own wake-ups take effect and a preparation fails no earlier than after waking its group; for the other failures `RunVariants` states the condition on the simulated peaks, and working sleeps suffice.
- DecodeKnobs.Engine.Reconfigure: the engines behind one generation handle are one engine; that some workers of a group apply a call and others do not is not modelled.
- NucleusFilter.ApplyTopKTopP: an empty vocabulary, and the contents of outputs that were allocated but not written, are not modelled.
- ConfigMinimize.Merge: `OmegaConf.merge` is taken as recursive merging of dictionaries with everything else replaced; interpolation, several parents, minimising against a base file given with `--base` and Python's equality of booleans and integers are not modelled.
- StepAccounting.Train: one dataloader and a fresh state; checkpoints and resuming are left out.
- DynamicSampling.Cache.Add: reward bookkeeping for metrics is left out.
- Advantage estimators, reward shaping, other training loops, dataset loaders and converters: easy, numeric or plumbing.
