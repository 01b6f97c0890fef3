# Health checks, pipeline schedules, TorchScript conversion and flex-attention configuration

This project models five sequential cores of PyTorch in Dafny and proves properties about them.

- **The c10d health check.** `Healthcheck` is the worker loop. It sets up both sides, then runs probe cycles. It keeps the last cycle's failure count, makes the abort decision and watches the shutdown flag. `HealthcheckNCCL` is the probe strategy. It validates the topology, pairs hosts into process groups, builds the store prefix, keeps per-side stream and process-group lists, and checks the all-reduce result. The probe outcomes, rendezvous results and shutdown timing are inputs. Streams and process groups are opaque handles.
- **Pipeline schedules.** This part covers the loss bookkeeping and input checks of a schedule, and the per-peer batching of point-to-point ops. The GPipe and 1F1B iterations become event traces of receives, computations and sends. `PipelineScheduleMulti` and `ScheduleInterleaved1F1B` are modelled with the table of forward and backward chunks that every rank runs.
- **The TorchScript-to-FX converter.** This covers the `TS2FXGraphConverter` object and its symbol tables: the FX graph, input and output specs, `name_to_node`, `constant_map`, `attribute_map`, `tensor_constants` and `subgraphs`. `ConverterGraph` defines what each conversion step does to a snapshot of those tables. The class `Converter.TS2FXGraphConverter` keeps the tables as fields, and each of its methods is proved to do what the corresponding step says.
- **Flex-attention configuration.** This covers where a score-modification subgraph's placeholders take their buffers from, the loop of `build_subgraph_buffer`, the default block configurations by device and dtype, the autotuning lists and the launch grids. The device capability and the dtype are parameters.

Files:
- `wrappers.dfy`: `Option`, `Result`, `Outcome`.
- `arith.dfy`: `Min`, `Max` and small multiplication and division facts.
- `decimal.dfy`: decimal text of integers, with a parse round trip.
- `healthcheck_nccl.dfy`, `healthcheck.dfy`: the health check.
- `pipeline_trace.dfy`, `schedule_gpipe.dfy`, `schedule_1f1b.dfy`, `pipeline_schedule.dfy`, `schedule_interleaved.dfy`: the pipeline schedules.
- `converter_graph.dfy`, `converter.dfy`: the converter.
- `flex_attention.dfy`: the flex-attention configuration.

Where a docstring and the code disagree, the model follows the code:
- The docstring of `flex_attention_grid` says the grid is `(B*H, ceil(M/BLOCK_M), 1)`, but the code returns `(ceil(M/BLOCK_M), B*H, 1)`.
- The orchestrator reserves room for two futures and aborts at two failures, but it launches one probe per cycle. `Healthcheck.AbortUnreachable` proves that the abort can never fire.

## Model

| member | source | states |
|---|---|---|
| HealthcheckNccl.CppRemSign | torch/csrc/distributed/c10d/HealthcheckNCCL.cpp:48-53 | C++ `/` and `%` truncate toward zero. The quotient and remainder recombine to the dividend, the remainder is smaller than the divisor in magnitude, and the remainder has the sign of the dividend. |
| HealthcheckNccl.CppOnNonNegative | torch/csrc/distributed/c10d/HealthcheckNCCL.cpp:48-53 | On non-negative operands, C++ division and remainder agree with Euclidean ones. |
| HealthcheckNccl.CheckTopology | torch/csrc/distributed/c10d/HealthcheckNCCL.cpp:32-41 | The check passes iff the topology is valid. Each error arises iff its own guard fails and all earlier guards pass, in the order: not divisible, rank not below world size, fewer than two hosts. |
| HealthcheckNccl.ValidTopologyHasTwoHosts | torch/csrc/distributed/c10d/HealthcheckNCCL.cpp:32-41 | A valid topology with positive local size has whole hosts and at least two of them. |
| HealthcheckNccl.PairingFor | torch/csrc/distributed/c10d/HealthcheckNCCL.cpp:48-53 | `groupSize == 2 * localWorldSize`. For a valid topology with non-negative rank and side, `hostRank < hostCount`, `groupRank < groupSize` and `group <= (hostCount - 1) / 2`. |
| HealthcheckNccl.PairingBoundsHold | torch/csrc/distributed/c10d/HealthcheckNCCL.cpp:48-53 | The bounds on host rank, group rank and group, stated for the expressions `setup` computes. |
| HealthcheckNccl.HostsValid | torch/csrc/distributed/c10d/HealthcheckNCCL.cpp:32-41 | With a whole number of at least two hosts, every rank below the world size passes validation. |
| HealthcheckNccl.PairingMatchesGroupOf | torch/csrc/distributed/c10d/HealthcheckNCCL.cpp:48-53 | For non-negative ranks, the truncating pairing equals the Euclidean `GroupOf` / `GroupRankOf`. |
| HealthcheckNccl.PairingOfHost | torch/csrc/distributed/c10d/HealthcheckNCCL.cpp:51-53 | Local rank `l` of host `h` gets group `((h + side) mod hosts) / 2` and group rank `(h mod 2) * localWorldSize + l`. |
| HealthcheckNccl.EvenHostsGroupRankInjective | torch/csrc/distributed/c10d/HealthcheckNCCL.cpp:51-53 | With an even host count, two ranks with the same group and group rank on a side are the same rank. |
| HealthcheckNccl.EvenHostsGroupRankCover | torch/csrc/distributed/c10d/HealthcheckNCCL.cpp:51-53 | With an even host count, every group below `hosts / 2` and every group rank below `groupSize` is taken by some rank. |
| HealthcheckNccl.OddHostsCollide | torch/csrc/distributed/c10d/HealthcheckNCCL.cpp:51-53 | With an odd host count, rank 0 and the first rank of the last host both get group 0 and group rank 0 on side 1. |
| HealthcheckNccl.StorePrefixInjective | torch/csrc/distributed/c10d/HealthcheckNCCL.cpp:57-58 | Distinct `(side, group)` pairs give distinct `/healthcheck/{side}/{group}` prefixes. |
| HealthcheckNccl.HealthcheckNCCL.constructor | torch/csrc/distributed/c10d/HealthcheckNCCL.cpp:18-45 | It keeps the topology and device, and both lists start empty. |
| HealthcheckNccl.HealthcheckNCCL.Create | torch/csrc/distributed/c10d/HealthcheckNCCL.cpp:32-45 | Construction fails exactly when `CheckTopology` fails, with the same error. Otherwise the object is fresh with empty lists. |
| HealthcheckNccl.HealthcheckNCCL.Setup | torch/csrc/distributed/c10d/HealthcheckNCCL.cpp:47-74 | It appends exactly one stream on the device. It appends the side's process group if the rendezvous succeeds, and raises otherwise. |
| HealthcheckNccl.HealthcheckNCCL.RunHealthcheck | torch/csrc/distributed/c10d/HealthcheckNCCL.cpp:76-103 | It passes iff the side was set up and the reduced value is `2 * localWorldSize`. A side that was not set up, a raising collective and a wrong value each give their own error, both ways. |
| Healthcheck.CountFailures | torch/csrc/distributed/c10d/Healthcheck.cpp:55-81 | At most one failure per probe. The count is zero iff no probe timed out or was rejected. |
| Healthcheck.CycleProbesLaunched | torch/csrc/distributed/c10d/Healthcheck.cpp:37-58 | The futures a cycle awaits are exactly the ones it launched, in launch order, future `k` probing side `k`. Since the loop launches one future, every probe of a cycle is of side 0. |
| Healthcheck.CyclesLog | torch/csrc/distributed/c10d/Healthcheck.cpp:34-100 | `n` cycles log `n * (ProbesPerCycle + 1)` events. |
| Healthcheck.SetupCalls | torch/csrc/distributed/c10d/Healthcheck.cpp:29-31 | Setup is tried for at least side 0 and at most both sides. Every side before the last one tried succeeded, and when it stops before side 1, side 0 raised. |
| Healthcheck.CyclesRun | torch/csrc/distributed/c10d/Healthcheck.cpp:93-99 | The number of cycles run lies between the start and the horizon. |
| Healthcheck.CycleFailuresBound | torch/csrc/distributed/c10d/Healthcheck.cpp:55-84 | A cycle's failure count, which becomes `numFailures_`, is between 0 and the probe count (1). |
| Healthcheck.AbortUnreachable | torch/csrc/distributed/c10d/Healthcheck.cpp:85-90 | No cycle ever reaches the abort threshold of 2 failures, so the abort never happens. |
| Healthcheck.AbortNeedsBothSides | torch/csrc/distributed/c10d/Healthcheck.cpp:85 | Two timed-out probes would reach the threshold, but one probe of any outcome stays below it. |
| Healthcheck.CountFailuresAppend | torch/csrc/distributed/c10d/Healthcheck.cpp:58-81 | Each awaited probe adds one failure exactly when it timed out or raised. |
| Healthcheck.CyclesLogShape | torch/csrc/distributed/c10d/Healthcheck.cpp:34-100 | The cycle log alternates: the launch of side 0, then the end of that cycle with its failure count. |
| Healthcheck.CyclesRunStops | torch/csrc/distributed/c10d/Healthcheck.cpp:93-99 | The loop stops before the horizon only if a wake saw the shutdown flag, and no earlier wake saw it. If the flag is seen, the wake of the last cycle run is the one that saw it. |
| Healthcheck.Healthcheck.constructor | torch/csrc/distributed/c10d/Healthcheck.cpp:11-15 | The failure count starts at the sentinel -1, which the tests observe. Nothing has been shut down, joined or aborted, and the log is empty. |
| Healthcheck.Healthcheck.RunSetup | torch/csrc/distributed/c10d/Healthcheck.cpp:28-32 | It sets up side 0 and then side 1. It succeeds iff both rendezvous succeed, and then the group list holds each side's group at its own index. |
| Healthcheck.Healthcheck.RunCycle | torch/csrc/distributed/c10d/Healthcheck.cpp:34-91 | The cycle's failure count is the count of its probes' failures and becomes `numFailures`. The log grows by the cycle's launches and its end. |
| Healthcheck.Healthcheck.LaunchProbes | torch/csrc/distributed/c10d/Healthcheck.cpp:37-49 | The log grows by one launch per future, future `i` probing side `i`, and nothing else changes. |
| Healthcheck.Healthcheck.AwaitProbes | torch/csrc/distributed/c10d/Healthcheck.cpp:55-81 | The failure count is the number of futures that timed out or whose probe raised. |
| Healthcheck.Healthcheck.AwaitProbe | torch/csrc/distributed/c10d/Healthcheck.cpp:60-80 | A future fails iff it is past its deadline or its side's healthcheck raised. |
| Healthcheck.Healthcheck.RunLoop | torch/csrc/distributed/c10d/Healthcheck.cpp:16-101 | If setup raises, no cycle runs and the count stays -1. Otherwise the cycles run until a wake sees shutdown, and the log is both setups followed by the cycles. `numFailures` is the last cycle's count, and the process never aborts. |
| Healthcheck.Healthcheck.Watch | torch/csrc/distributed/c10d/Healthcheck.cpp:34-100 | After a successful setup the cycles run until an interval wait sees shutdown, or the horizon is reached. The log is the setup followed by exactly those cycles, `numFailures` is the last cycle's count, and the process never aborts. |
| Healthcheck.Healthcheck.WatchCycle | torch/csrc/distributed/c10d/Healthcheck.cpp:34-99 | One turn of the loop adds one cycle to the log and to the count, sets `numFailures` to that cycle's failures, leaves the process running and records the shutdown flag seen by the wait. |
| Healthcheck.Healthcheck.Shutdown | torch/csrc/distributed/c10d/Healthcheck.cpp:103-111 | It sets the flag and joins the worker. A second join fails, and nothing else changes. |
| PipelineSchedule.CheckList | torch/distributed/pipelining/PipelineSchedule.py:138-144 | It passes iff the value is a list of `n` items. Otherwise it gives the type or the length error. |
| PipelineSchedule.CheckInputs | torch/distributed/pipelining/PipelineSchedule.py:127-163 | It succeeds iff the given lists are lists of length `n` and `losses` is a list. Errors come in the source's order. Missing args and kwargs default to `n` empty ones. |
| PipelineSchedule.OpsToCounts | torch/distributed/pipelining/PipelineSchedule.py:237-238 | Each op lands in its own peer's group as often as it occurs in the input, and in no other group. |
| PipelineSchedule.OpsToNonEmpty | torch/distributed/pipelining/PipelineSchedule.py:237-238 | A peer's group is non-empty iff some op goes to that peer. |
| PipelineSchedule.MinIndex | torch/distributed/pipelining/PipelineSchedule.py:241 | The position of a least element, used to take the peers in sorted order. |
| PipelineSchedule.GroupByPeer | torch/distributed/pipelining/PipelineSchedule.py:231-238 | The keys are exactly the peers, each group is its peer's ops in input order, and each peer is listed once. |
| PipelineSchedule.IssueInPeerOrder | torch/distributed/pipelining/PipelineSchedule.py:240-242 | Batches are issued in strictly ascending peer order, one per key, each with that peer's group. |
| PipelineSchedule.SortedBatchP2P | torch/distributed/pipelining/PipelineSchedule.py:220-244 | Empty input gives no batches. Otherwise there is one batch per distinct peer in ascending order, holding exactly that peer's ops in their original order. |
| PipelineSchedule.SingleStageContainsLast | torch/distributed/pipelining/PipelineSchedule.py:77-79 | A single stage, wrapped into a list, contains a last stage iff it is the last one. |
| PipelineSchedule.PipelineScheduleSingle.Plan | torch/distributed/pipelining/PipelineSchedule.py:414-424 | The stage's 1F1B plan is well formed and uses its microbatch count, backward flag and last-stage flag. |
| PipelineSchedule.PipelineScheduleSingle.constructor | torch/distributed/pipelining/PipelineSchedule.py:254-274 | It keeps the stage and the microbatch count. A backward runs iff a loss function is given, and no losses are held. |
| PipelineSchedule.PipelineScheduleSingle.MaybeGetLoss | torch/distributed/pipelining/PipelineSchedule.py:60-70 | It raises iff losses are held and the index is invalid. It returns the stored loss iff the stage is last with backward and the index is valid, and None otherwise. |
| PipelineSchedule.PipelineScheduleSingle.MaybeComputeLoss | torch/distributed/pipelining/PipelineSchedule.py:55-58 | A last stage with backward appends the microbatch's loss, failing if no targets were given. Other stages change nothing. |
| PipelineSchedule.PipelineScheduleSingle.UpdateLosses | torch/distributed/pipelining/PipelineSchedule.py:72-93 | With a last stage and a losses list, it raises unless exactly `n` losses are held, and otherwise the list becomes the held losses. The held losses are cleared, except when it raises. |
| PipelineSchedule.PipelineScheduleSingle.StepGPipe | torch/distributed/pipelining/PipelineSchedule.py:305-383 | Input errors come first and run nothing. On a last stage with backward, missing targets fail the first forward. Otherwise the trace is the GPipe trace, and on a last stage with backward a given losses list becomes one loss per microbatch. |
| PipelineSchedule.PipelineScheduleSingle.ForwardLoop | torch/distributed/pipelining/PipelineSchedule.py:324-342 | The forward loop fails iff a last stage with a loss function lacks targets and there is a microbatch, and then it stops after microbatch 0's block. Otherwise it emits the forward phase and holds one loss per microbatch on such a stage. |
| PipelineSchedule.PipelineScheduleSingle.BackwardLoop | torch/distributed/pipelining/PipelineSchedule.py:354-376 | The backward loop emits every microbatch's receive, its backward (last only for the last microbatch, with its stored loss on the last stage) and its send. |
| PipelineSchedule.PipelineScheduleSingle.Step1F1B | torch/distributed/pipelining/PipelineSchedule.py:392-525 | Input errors come first. On a last stage with backward, missing targets fail the first forward. Otherwise the trace is the corrected 1F1B trace. On a last stage a given losses list becomes one loss per microbatch, or gets the count error when the stage runs forward only. |
| PipelineSchedule.PipelineScheduleSingle.RunSteps | torch/distributed/pipelining/PipelineSchedule.py:466-514 | The loop fails iff a last stage with backward lacks targets. Otherwise it emits the whole planned trace and holds one loss per microbatch on a last stage with backward. |
| PipelineSchedule.PipelineScheduleSingle.Step | torch/distributed/pipelining/PipelineSchedule.py:468-514 | Step `i` fails iff it has a forward on a last stage with a loss function and no targets. Otherwise it extends the trace to `i + 1` steps, advances `bwd_mb_index` to the backwards run so far and holds the losses of the forwards run so far. |
| PipelineSchedule.PipelineScheduleSingle.ForwardHalf | torch/distributed/pipelining/PipelineSchedule.py:469-488 | The forward part of step `i` emits its planned block and appends the loss of microbatch `i` when one is due. |
| PipelineSchedule.PipelineScheduleSingle.BackwardHalf | torch/distributed/pipelining/PipelineSchedule.py:490-514 | The backward part of step `i` emits its planned block, for the microbatch `bwd_mb_index` counts. |
| GPipe.ForwardPhaseOrder | torch/distributed/pipelining/PipelineSchedule.py:325-342 | The forward phase forwards microbatches `0..k-1` in order and has no backward. |
| GPipe.ForwardPhaseCount | torch/distributed/pipelining/PipelineSchedule.py:325-336 | The forward phase has exactly one forward receive and one forward send per microbatch. |
| GPipe.BackwardPhaseOrder | torch/distributed/pipelining/PipelineSchedule.py:357-376 | The backward phase runs backwards `0..k-1` in order and has no forward. |
| GPipe.BackwardPhaseFlagged | torch/distributed/pipelining/PipelineSchedule.py:357-368 | Each backward is flagged final iff it is microbatch `n - 1`, and gets its own microbatch's loss. |
| GPipe.BackwardPhaseCount | torch/distributed/pipelining/PipelineSchedule.py:357-372 | The backward phase has exactly one backward receive and one backward send per microbatch. |
| GPipe.RunOnceEach | torch/distributed/pipelining/PipelineSchedule.py:325-376 | Microbatches are forwarded `0..n-1` in order, and backwarded `0..n-1` in order only with a loss function. Each send and receive kind occurs once per microbatch. |
| GPipe.ForwardsBeforeBackwards | torch/distributed/pipelining/PipelineSchedule.py:325-376 | Every forward precedes every backward, and every backward is flagged correctly. |
| OneFOneB.PlanFor | torch/distributed/pipelining/PipelineSchedule.py:414-424 | `warmup = min(n, 2 * (S - idx - 1))`, `main = n - warmup`, cooldown equals warmup, and `total = n + warmup`. The warmup is zero iff `n == 0` or the stage is last. The warmup is `n` iff `n` fits in it. |
| OneFOneB.PlanForWellFormed | torch/distributed/pipelining/PipelineSchedule.py:414-424 | Every plan the formulas give is well formed. |
| OneFOneB.ForwardOnlyLastStageRaises | torch/distributed/pipelining/PipelineSchedule.py:441-459 | As written, a forward-only run on the last stage evaluates `step_has_backward(n)` at step `n - 1` and fails its assertion. |
| OneFOneB.AsWrittenAgrees | torch/distributed/pipelining/PipelineSchedule.py:437-463 | The as-written predicates, with their assertions, agree with the corrected ones at every step the loop evaluates them. The one exception is the forward-only last stage at step `n - 1`. |
| OneFOneB.ShapeMeaning | torch/distributed/pipelining/PipelineSchedule.py:468-514 | Within the run, forwards happen on the first `n` steps and backwards after warmup with a loss function. A backward is of a microbatch below `n`, flagged last iff it is of microbatch `n - 1`, with its stored loss. A backward send riding on a forward receive comes from the previous step's backward. A forward send left out of its step rides on the backward receive of that step or the next. |
| OneFOneB.StepInvariant | torch/distributed/pipelining/PipelineSchedule.py:468-514 | One loop iteration extends the trace by that step's blocks. `bwd_mb_index` counts the backwards run so far. |
| OneFOneB.TraceExtraction | torch/distributed/pipelining/PipelineSchedule.py:468-514 | After `k` steps, the forwards are `0..min(k, n)-1` in order and the backwards `0..b-1` in order, with one receive each. |
| OneFOneB.SendsBy | torch/distributed/pipelining/PipelineSchedule.py:473-512 | After `k` steps the trace holds one forward send per forward run, except that the warmup's last send is held back until the first backward receive when every microbatch is warmup. Its backward sends are those which travel with a later forward receive during the steady phase, plus one standalone send per step from step `max(warmup, n - 1)` on. |
| OneFOneB.RunOnceEach | torch/distributed/pipelining/PipelineSchedule.py:437-514 | Each microbatch is forwarded once, and backwarded once with a loss function, in order. Each forward send and receive occurs once per microbatch, and each backward one too when there is a loss function. |
| OneFOneB.BackwardsFollowForwards | torch/distributed/pipelining/PipelineSchedule.py:437-514 | Backward `j` comes after forward `j`, is flagged last iff `j == n - 1`, and gets the loss stored for `j`. |
| ScheduleInterleaved.RankCounts | torch/distributed/pipelining/PipelineSchedule.py:701-715 | `warmup = min((L-1)*pp + 2*(pp-1-rank), n*L)` and `warmup <= L*n`. Cooldown equals warmup, the assertion `warmup + 2*fwd_bwd + cooldown == 2*L*n` holds, and `total = L*n + warmup`. |
| ScheduleInterleaved.ForwardStageIndex | torch/distributed/pipelining/PipelineSchedule.py:726-729 | The stage is on this rank (`s % pp == rank`), has local index `(step / pp) % L`, and is below `L * pp`. |
| ScheduleInterleaved.BackwardStageIndex | torch/distributed/pipelining/PipelineSchedule.py:731-737 | The stage is on this rank, has local index `L - 1 - ((step - warmup) / pp) % L`, and is below `L * pp`. |
| ScheduleInterleaved.CountedNumbering | torch/distributed/pipelining/PipelineSchedule.py:739-794 | Each action's microbatch is the number of earlier actions of the same kind on the same stage. |
| ScheduleInterleaved.StageMicrobatches | torch/distributed/pipelining/PipelineSchedule.py:739-794 | Every microbatch index is below `n`. On each stage and kind the indices strictly increase along the row. |
| ScheduleInterleaved.Put | torch/distributed/pipelining/PipelineSchedule.py:758-761 | It appends the action with its stage's current counter and bumps that counter alone. |
| ScheduleInterleaved.EveryLocalIndex | torch/distributed/pipelining/PipelineSchedule.py:726-729 | Over `L * n` consecutive forward steps, each local index is chosen exactly `n` times, since `n` is a multiple of `pp`. |
| ScheduleInterleaved.PipelineScheduleMulti.Create | torch/distributed/pipelining/PipelineSchedule.py:542-557 | It fails iff there is at most one stage. Otherwise it keeps the stages and takes the stage count from the first stage. |
| ScheduleInterleaved.PipelineScheduleMulti.constructor | torch/distributed/pipelining/PipelineSchedule.py:546-564 | It keeps the stages, the microbatch count and the backward flag. |
| ScheduleInterleaved.ScheduleInterleaved1F1B.constructor | torch/distributed/pipelining/PipelineSchedule.py:683-692 | It keeps the group size, the local stage count, the microbatches and the rank, with an empty order. |
| ScheduleInterleaved.ScheduleInterleaved1F1B.Create | torch/distributed/pipelining/PipelineSchedule.py:661-696 | It rejects no stages, a zero group size, a microbatch count that is not a multiple of the group size, and then a single stage, in that order. Otherwise it builds one row per rank, each satisfying `RowOk`. |
| ScheduleInterleaved.ScheduleInterleaved1F1B.CalculateSingleRankOperations | torch/distributed/pipelining/PipelineSchedule.py:698-799 | The row starts with `rank` idles and ends with `pp - rank - 1` idles, and has `L*n` forwards and `L*n` backwards. Its stages are on the rank and below `L*pp`. Each of its stages gets `n` forwards and `n` backwards, and each action's microbatch is the number of earlier actions of its kind on its stage. |
| ScheduleInterleaved.ScheduleInterleaved1F1B.RunSteps | torch/distributed/pipelining/PipelineSchedule.py:753-794 | The step loop keeps the row's layout and counters in step with the phase formulas through all `total` steps. |
| ScheduleInterleaved.ScheduleInterleaved1F1B.PadTail | torch/distributed/pipelining/PipelineSchedule.py:796-799 | The post padding completes a row that satisfies `RowOk`. |
| ScheduleInterleaved.ScheduleInterleaved1F1B.RowPadding | torch/distributed/pipelining/PipelineSchedule.py:743-798 | A row satisfying `RowOk` starts with `rank` idles and ends with `pp - rank - 1` idles. |
| ScheduleInterleaved.ScheduleInterleaved1F1B.WarmupStep | torch/distributed/pipelining/PipelineSchedule.py:755-766 | A warmup step appends one forward, and the idle slots after the last warmup step on rank 0. |
| ScheduleInterleaved.ScheduleInterleaved1F1B.SteadyStep | torch/distributed/pipelining/PipelineSchedule.py:768-783 | A 1F1B step appends a forward and a backward, keeping the invariant. |
| ScheduleInterleaved.ScheduleInterleaved1F1B.CooldownStep | torch/distributed/pipelining/PipelineSchedule.py:785-794 | A cooldown step appends an idle slot and a backward, keeping the invariant. |
| ConverterGraph.NormalizeName | torch/_export/converter.py:42-43 | Same length. Every `.` becomes `_` and every other character is kept. |
| ConverterGraph.NormalizeNoDot | torch/_export/converter.py:42-43 | A normalized name has no `.`. |
| ConverterGraph.NormalizeIdempotent | torch/_export/converter.py:42-43 | Normalizing twice is normalizing once. |
| ConverterGraph.NormalizeDotless | torch/_export/converter.py:42-43 | A name is unchanged iff it has no `.`. |
| ConverterGraph.SubgraphNameInjective | torch/_export/converter.py:83-86 | Distinct counts give distinct `subgraph_k` names. |
| ConverterGraph.AddSubgraphFresh | torch/_export/converter.py:83-86 | The new name is fresh, the map grows by exactly one, names stay `subgraph_0..`, and the name maps to the module. |
| ConverterGraph.Lookup | torch/_export/converter.py:99-114 | `name_to_node` wins. Then `attribute_map` redirects: the value is the node of the attribute path, and "Value … not found" is raised iff that path has no node. Then a name in `constant_map` gives its constant. Otherwise it raises "Input … not found". |
| ConverterGraph.LookupAll | torch/_export/converter.py:243-249 | It succeeds iff every input resolves, giving each input's value in order. Otherwise it gives the first failing input's error. |
| ConverterGraph.ArgsKwargs | torch/_export/converter.py:88-97 | It succeeds iff the zipped inputs all resolve, and otherwise gives the first error. The positional count and the keyword names follow the schema's `kwarg_only` flags. |
| ConverterGraph.KindOfInput | torch/_export/converter.py:144-168 | PARAMETER iff the name is a parameter. BUFFER iff it is a buffer and not a parameter. USER_INPUT otherwise. |
| ConverterGraph.BindInputsPlaces | torch/_export/converter.py:132-168 | One placeholder with the normalized name and one classified spec per input, in order, appended after what was there. Nothing else changes except `name_to_node`. |
| ConverterGraph.BindInputsBinds | torch/_export/converter.py:132-142 | Every input name gets bound. With distinct names, input `i` is bound to its own placeholder. |
| ConverterGraph.ConstantResolves | torch/_export/converter.py:170-205 | Kinds i, f, s, t and ival are accepted and any other kind raises. A missing value gives None, and a tensor resolves to the placeholder node emitted for it. |
| ConverterGraph.AttrPathChain | torch/_export/converter.py:207-222 | Chained `GetAttr`s build the dotted path of the attribute names. |
| ConverterGraph.Retarget | torch/_export/converter.py:230-231 | `aten.size.int` is never emitted, and every other target is kept. |
| ConverterGraph.Arguments | torch/_export/converter.py:336-349 | The block arguments are distinct, and are exactly the block inputs bound in `name_to_node`. |
| ConverterGraph.AddBlocks | torch/_export/converter.py:351-366 | One `get_attr` node per block is appended after the existing graph. Only the graph and the subgraphs change. |
| ConverterGraph.AddBlocksNames | torch/_export/converter.py:351-366 | Block `i` gets the next fresh `subgraph_k` name, and the subgraph names stay consecutive. |
| ConverterGraph.DispatchTable | torch/_export/converter.py:394-421 | `TupleConstruct` is handled as `ListConstruct`. Every `aten::` kind gets an aten handler, and the unlisted ones go to `convert_aten_op`. A kind is unsupported iff it is neither a listed `prim::` kind nor `aten::`. |
| ConverterGraph.OutputValues | torch/_export/converter.py:424-430 | It succeeds iff every output is bound. Otherwise it raises for the first unbound one. |
| ConverterGraph.OutputSpecs | torch/_export/converter.py:432-438 | One `USER_OUTPUT` spec per output, named after it. |
| ConverterGraph.OutputsEffect | torch/_export/converter.py:423-440 | It succeeds iff there is an output and all are bound. It appends the specs and one output node holding only the first value. |
| ConverterGraph.EffectExtends | torch/_export/converter.py:394-421 | Every handler only appends to the graph and to the input specs, and what it appends to the specs are lifted tensor constants. It leaves the output specs alone, never drops a table key, never emits `aten.size.int`, and keeps the subgraph names consecutive. |
| ConverterGraph.ConvertNodesExtends | torch/_export/converter.py:119-120 | Converting a node sequence extends the tables in the same way. |
| ConverterGraph.ConvertSignature | torch/_export/converter.py:116-130 | A successful conversion from empty tables has the input specs in input order and classified, then only constant-tensor specs. Its output specs are the outputs', the graph ends in an output node, there is no `size.int` call, and the subgraph names are consecutive. |
| Converter.TS2FXGraphConverter.constructor | torch/_export/converter.py:62-81 | It keeps the graph and name sets, and all tables start empty. |
| Converter.TS2FXGraphConverter.AddSubgraph | torch/_export/converter.py:83-86 | It returns `subgraph_k` for the prior count `k`. The tables become the model's `AddSubgraph`, so the name is fresh and the map grows by one. |
| Converter.TS2FXGraphConverter.LookupInputs | torch/_export/converter.py:245-246 | The lookup loop gives `LookupAll` of the inputs. |
| Converter.TS2FXGraphConverter.GetArgsKwargs | torch/_export/converter.py:88-97 | The zip loop gives the model's argument split. |
| Converter.TS2FXGraphConverter.ConvertGraphInputs | torch/_export/converter.py:132-168 | The tables become `BindInputs` of the graph inputs. |
| Converter.TS2FXGraphConverter.ConvertPrimConstant | torch/_export/converter.py:170-205 | It passes or raises as `ConstantEffect` does, and when it passes the tables are its result. |
| Converter.TS2FXGraphConverter.ConvertPrimGetAttr | torch/_export/converter.py:207-222 | It does what `GetAttrEffect` does: it raises "Attribute … not found" or stores the path. |
| Converter.TS2FXGraphConverter.ConvertPrimCreateObject | torch/_export/converter.py:284-286 | The output is mapped to the empty path, and nothing else changes. |
| Converter.TS2FXGraphConverter.ConvertAtenOp | torch/_export/converter.py:224-241 | It does what `AtenOpEffect` does: it resolves the arguments, emits the retargeted call and binds the output. |
| Converter.TS2FXGraphConverter.ConvertPrimListConstruct | torch/_export/converter.py:243-249 | It binds the output to the list of the inputs' values, or raises as the lookup does. |
| Converter.TS2FXGraphConverter.ConvertCall | torch/_export/converter.py:251-256 | `TupleIndex` emits a call to `getitem` on the inputs' values, and `NumToTensor` emits one to `scalar_tensor`. |
| Converter.TS2FXGraphConverter.ConvertAtenConvolution | torch/_export/converter.py:288-297 | It emits `aten.convolution.default` with the split arguments. |
| Converter.TS2FXGraphConverter.ConvertAtenDiv | torch/_export/converter.py:299-328 | `div.Tensor_mode` with a one-element tensor constant becomes `div.Scalar_mode` on its item. Otherwise it acts as `convert_aten_op`. |
| Converter.TS2FXGraphConverter.BlockArguments | torch/_export/converter.py:336-349 | The nested loops give the model's `Arguments`. |
| Converter.TS2FXGraphConverter.ConvertPrimIf | torch/_export/converter.py:330-381 | It asserts one input and two blocks. It adds the blocks as subgraphs and emits `torch.cond` on the predicate, the two subgraphs and the bound arguments. |
| Converter.TS2FXGraphConverter.AddBlockSubgraphs | torch/_export/converter.py:351-366 | The tables become `AddBlocks` of the old ones: each block's module is the next fresh subgraph, read back by a `get_attr` node. The node list returned refers, in block order, to the nodes appended. |
| Converter.TS2FXGraphConverter.ConvertAsNoop | torch/_export/converter.py:383-392 | The output is bound to the first positional argument. |
| Converter.TS2FXGraphConverter.ConvertNode | torch/_export/converter.py:394-421 | It runs the handler the dispatch table picks, with exactly its effect. |
| Converter.TS2FXGraphConverter.ConvertGraphOutputs | torch/_export/converter.py:423-440 | It does what `OutputsEffect` does. |
| Converter.TS2FXGraphConverter.Convert | torch/_export/converter.py:116-130 | Inputs, then every node in order, stopping at the first raise, then outputs: exactly `ConvertFrom` of the tables it starts from. From a fresh converter, `ConvertSignature` therefore holds of the object. |
| FlexAttention.IndexToOtherBuffers | torch/_inductor/kernel/flex_attention.py:55-78 | Placeholder `cnt` past the scalar ones (5, or 6 for the joint backward) is `other_buffers[cnt - scalars]`, found at index 4 of the forward arguments or index 8 of the backward ones. |
| FlexAttention.LiftedInOrder | torch/_inductor/kernel/flex_attention.py:55-78 | With the lowerings' argument layouts, lifted placeholder `j` takes `other_buffers[j]`, and one with no buffer left is an index error. |
| FlexAttention.Substitute | torch/_inductor/kernel/flex_attention.py:117-119 | Each call argument that names a node with a buffer becomes that buffer, and anything else is kept. |
| FlexAttention.Walked | torch/_inductor/kernel/flex_attention.py:96-119 | After the nodes before `i`, `cnt` is the number of placeholders seen, and buffers are recorded only for those nodes. |
| FlexAttention.WalkedPlaceholders | torch/_inductor/kernel/flex_attention.py:106-111 | The `k`-th placeholder maps to `placeholder_inps[k]` if `k` is below their count, and to `args[index_to_other_buffers(k)]` otherwise. |
| FlexAttention.BuildSubgraphBuffer | torch/_inductor/kernel/flex_attention.py:81-152 | The loop gives `Build`. The output buffer is `env[args[0]]`, or `env[args[0][0]]` for the joint backward, and every error is as Python raises it. A graph without an output node raises. |
| FlexAttention.DefaultConfigFwd | torch/_inductor/kernel/flex_attention.py:328-351 | Always 4 warps and 3 stages. Above head dim 256 or below capability (8,0) it gives the fallback. Otherwise it gives the H100 or A100 table entry, with the float32 or other default when missing. |
| FlexAttention.DefaultConfigBwd | torch/_inductor/kernel/flex_attention.py:354-365 | H100 with head dim at most 256 gives `(64,64,4,1)` for float32 and `(128,128,4,3)` otherwise. Every other case gives `(32,32,4,1)`. |
| FlexAttention.ForwardConfigs | torch/_inductor/kernel/flex_attention.py:399-409 | The default comes first, then exactly the five autotuning configurations in order when autotuning is on. |
| FlexAttention.BackwardConfigs | torch/_inductor/kernel/flex_attention.py:689-698 | The default comes first, then exactly the four autotuning configurations in order when autotuning is on. |
| FlexAttention.ConfigsLaunchable | torch/_inductor/kernel/flex_attention.py:309-365 | A sanity property of the literal tables, not a promise the source makes: every configuration either lowering tries has power-of-two block sizes, 4 or 8 warps and at least one stage. |
| FlexAttention.CeilDivCovers | torch/_inductor/kernel/flex_attention.py:44 | `cdiv(M, BLOCK_M)` is the fewest blocks of `BLOCK_M` that cover `M`. |
| FlexAttention.FlexAttentionGrid | torch/_inductor/kernel/flex_attention.py:36-44 | The first dimension is the fewest query blocks covering `M`, then `B*H`, then 1. |
| FlexAttention.FlexAttentionBackwardGrid | torch/_inductor/kernel/flex_attention.py:447-453 | The grid is `(B*H, 1, 1)`. |
| FlexAttention.BackwardChoices | torch/_inductor/kernel/flex_attention.py:700-724 | One parameter set per configuration, in order, with the head dim as `BLOCK_DMODEL`. `NUM_Q_BLOCKS` is the fewest blocks covering the query rows. |

## Findings

| source | as written | input that shows it | evidently intended | confidence | as-written member | corrected member |
|---|---|---|---|---|---|---|
| torch/distributed/pipelining/PipelineSchedule.py:441-459 | `should_coalesce_fwd_send_bwd_recv(step)` evaluates `is_cooldown_step(step + 1)`, which calls `step_has_backward(step + 1)` under `assert i < total_steps` | 1F1B on the last stage with no loss function and `n >= 1`: the warmup is 0 and `total_steps == n`, so step `n - 1` asserts `n < n` | a step past the end has no backward, so the forward-only last stage runs its `n` forwards | not executed | OneFOneB.ForwardOnlyLastStageRaises | OneFOneB.AsWrittenAgrees, OneFOneB.RunOnceEach |

The corrected predicates, `OneFOneB.HasBackward` and `OneFOneB.CoalesceFwdSendBwdRecv`, treat a step at or past `total_steps` as having no backward. Everywhere else they agree with the source (`OneFOneB.AsWrittenAgrees`). The trace in `PipelineScheduleSingle.Step1F1B` is built from them.

## Left out

- Threads, futures, deadlines and the condition-variable sleep of the health check. These are concurrency. The state of each future at the deadline and whether each wake saw shutdown are inputs, and the blocking destructor of a timed-out future is not modelled.
- Healthcheck.Healthcheck.RunLoop: the `while (true)` loop is watched up to a horizon given as a parameter, because the model needs a terminating loop. The contract covers every horizon.
- The health check's worker is started by the constructor in the source. In the model, `RunLoop` is called separately, because the thread boundary is not modelled.
- HealthcheckNccl.HealthcheckNCCL.Create: the source starts the base class's worker (Healthcheck.cpp:16-24) from HealthcheckNCCL.cpp:26. That happens before `rank_`, `worldSize_`, `localWorldSize_`, `deviceIndex_` and `store_` are initialized (HealthcheckNCCL.cpp:27-31) and before the topology checks at HealthcheckNCCL.cpp:32-41 can throw. So the worker's `setup` may run against a partly built object. For an invalid topology, a worker is already running when the constructor throws, and the future's destructor then waits for it. The model validates first, and gives `RunLoop` only a fully built and validated strategy. That race and the wait on a throwing constructor are not captured.
- Healthcheck.Healthcheck.Shutdown: a second `worker_.get()` (Healthcheck.cpp:103-111) on a future already retrieved is undefined by the C++ standard. `Fail(FutureAlreadyRetrieved)` models libstdc++'s `std::future_error(no_state)`, a library behaviour rather than a guarantee of the source. The phase is not tied to the join: `worker_.get()` returns only after the worker has left `runLoop`, but the model's `Shutdown` keeps `phase` as it was, so a shutdown from `Running` leaves a joined `Running` worker.
- CUDA and NCCL: stream creation, process-group construction, `PrefixStore`, the all-reduce and its wait. These are foreign calls, so streams and groups are opaque handles. A failed rendezvous is an input, and the reduced value is an integer.
- HealthcheckNccl.HealthcheckNCCL.RunHealthcheck: the all-reduce result is compared as an integer, not as an IEEE double.
- `localWorldSize == 0` is a division by zero in C++, so it is a precondition rather than an outcome.
- The abort itself ends the process. It is the terminal `aborted` flag.
- Logging (`C10D_ERROR`, `logger`) and the profiler's `record_function`, because they have no effect on state.
- Pipeline communication and tensors: `batch_isend_irecv`, `Work.wait`, the chunk computations, `tensor_split` and output merging. These are foreign calls and become trace events. Loss values are tokens naming their microbatch.
- `PipelineScheduleSingle.step` and `PipelineScheduleMulti.step` (input splitting and merging), because they are tensor operations.
- Setting `stage.has_backward` on the stage objects, `pipe_info`, `output_merge_spec` and the process `group` field. They are stored, never read by the modelled code.
- The interleaved `_step_microbatches` and `ScheduleLoopedBFS`, because they are communication around the modelled `rank_ops` table.
- PipelineSchedule.PipelineScheduleSingle.StepGPipe and PipelineSchedule.PipelineScheduleSingle.Step1F1B start with no held losses. The source does not reset them before a step.
- PipelineSchedule.SortedBatchP2P: Python's `sorted` over the dictionary is modelled by repeatedly taking the least remaining peer. Only the resulting order is claimed.
- A `defaultdict` read inserts the key in the source. The model's counters return 0 for a missing key without inserting it, and nothing reads the keys.
- Converter: building the torch.fx graph, `FunctionSchema.parse` / `get_op_overload`, `GraphModule`, `inplace_optimize_sym_size_div` and `lint`. These are foreign library code. A call's target is its schema name, and the schema of an overload is given with the node.
- Converter.TS2FXGraphConverter.ConvertPrimIf: each block is converted by a fresh converter whose result is taken as a given module value, and the sharing of `constant_map` with it is not modelled.
- ConverterGraph.Arguments: the source collects block arguments in a Python set and turns it into a list. The model uses first-occurrence order, because set iteration order is not specified.
- Converter.TS2FXGraphConverter.ConvertAtenDiv: the source reads `args[1].name` of an FX node. The model reads a placeholder's name from the graph, and treats any other argument as not naming a tensor constant. The model tests the name it asked the placeholder to have. FX may clean that name up or make it unique (`a.b` becomes `a_b`, and a repeated name gets a `_1` suffix). Then the source's `args[1].name in tensor_constants` test fails where the model rewrites to `Scalar_mode`.
- A handler that raises after partly updating the tables leaves that partial state in the source. The model reports the error and no further state is claimed.
- Every TorchScript node has exactly one output (`node.output()`).
- The schema of `aten.convolution.default` is written out. `sym_size.int` is taken to have the schema of `size.int`.
- `convert_aten_Int` (converter.py:258-272) is never called, because its dispatch is commented out (converter.py:408-409). An `aten::Int` node goes to `convert_aten_op` through the `aten::` branch, as `HandlerOf` does. `convert_aten_Int` itself is not modelled.
- Flex attention: the Triton kernels, the IR lowerings, `create_placeholder`, `autotune_select_algorithm`, `maybe_append_choice` and the device query. These are foreign, so buffers are opaque values and the capability is a parameter.
- FlexAttention.BuildSubgraphBuffer: the two `isinstance` assertions and the `ComputedBuffer` wrapping are not modelled, because the IR classes are foreign. The result is the output buffer itself.
- `tree_map` over nested call arguments is modelled on a flat argument list.
- FlexAttention.BackwardChoices: `math.ceil` of a float quotient is modelled as integer ceiling division.
- `torch/csrc/utils/torch_dispatch_mode.cpp` is a thread-local stack wrapper over the Python C API with no logic of its own, and is not part of this model.
