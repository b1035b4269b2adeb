# cuPhoton verification model

A Dafny model of the parts of cuPhoton whose correctness is not visible from one
function, and proofs about it. `dfyconfig.toml` lists the whole project.

- **VDIF frontier ingest.** A mapping from raw frames to payload slots is cut into destination
  frontiers. `Envelopes`, `Frontier` and `FrontierPlanner` model the planner with its CPU and
  GPU reductions, `Slicing` and `OrderedFrontiers` prove what the cut preserves and costs,
  `StripScatter` and `StrippedFrames` model the copy kernels a plan is applied with, `Deduplication`
  the sharing of identical reads. `Readiness`, `ReadinessRuns`, `Waiting` and `PayloadProgresses` model
  publishing and waiting by tickets, `Completion` the joining of the pieces, `PiecePublishing`
  why pieces publish every slot once. `PlanAcceptance` and `SlicedPlans` say which plans are
  accepted and what a task holds, `ReadinessLaws` what publishers and consumers see.
- **Packed voltage front end.** `PackedDecode`, `FrontPhase`, `Strides` and `FrontKernel` model
  the 2-bit decoders, the phase and position recurrences, the count reductions, and the fused
  kernel as whole rows and as chunks, against one direct definition; `VoltageStream` and
  `FrontStream` tie them to the stream of samples the codes stand for.
- **Distributed executors.** `DragonProtocol` and `DragonOutcome` are a transition system of the
  Dragon coordinator and its workers; `MpiConsensus`, `MpiRanks` and `MpiSuccess` run one MPI program a rank;
  `Audit`, `RoundAudit` and `BenchmarkReport` say what a reported success means, `DragonRun`
  what it means for the Dragon workers; `Placements` models the choice of GPUs.
  `ExecutorRound`, `MpiOutcome`, `ConsensusMessage`, `BenchmarkLaws` and `PlacementOrder` state
  the answers in terms of what the executors write, fail with and are asked.
- **Sharding.** `Sharding` is the byte-balanced partition, `Graham` its approximation bound,
  `GrahamTight` items that reach it for every number of workers, `GreedySharding` the run it is.
- **Handles and schedules.** `HandleCache` and `CuFileSessions` model the leased cache of
  registered handles and the shared driver count, `HandleLaws` what each call answers,
  `Campaign` the benchmark schedule and `ScheduleBalance` how its rows are counterbalanced.

`Arithmetic`, `Decimals`, `Sums`, `FiniteSets`, `Options` and `Threads` hold shared helpers.
Kernel launches run their threads in any order: the loop picks an arbitrary waiting thread. Code
that updates fields or arrays is a class or a method on arrays, each tied to a function of its old state;
the properties are proved about those functions and about all runs built from them.

Four places where the code does not do what its comments or neighbours suggest, each with its
exact condition:

- Closing a handle left over from an earlier open that equals an open cached file in path,
  descriptor and registration closes that file under its cache entry, leased or not
  (`HandleCache.CloseKeepsGood`; ordinary calls reach it, `CuFileSessions.StaleTwinReached`).
- `samples_published` reports missing frames for a finished streaming upload that left only an
  invalid slot unpublished, where `wait_samples` returns (`Waiting.PublishedMeansNoWait`; a run
  of two steps reaches it, `Waiting.StreamingGap`).
- A Dragon worker that leaves before its receipt by an exception that is no `Exception`, such
  as SystemExit, still puts its closed message, and the coordinator refuses it as an invalid
  identity instead of reporting the failed worker (`DragonProtocol.IdentityErrorExactly`,
  `DragonProtocol.AbortedWorkerRefused`).
- An empty sample interval strictly inside a frame still depends on that frame
  (`Waiting.FrameRangeExact`, `Waiting.EmptyIntervalAsksForFrame`).

## Model

| member | source | states |
|---|---|---|
| Sharding.PartitionByteBalanced | src/cuphoton/core/bulk.py:103-129 | The loop over shards and weights computes the partition for every input: a worker count that is not positive or repeated IDs are refused, otherwise each item in (-weight, ID) order goes to the worker with the least (load, length, number). |
| Sharding.LightestWorker | src/cuphoton/core/bulk.py:119-126 | The tracked weights give the same worker as the shard contents do. |
| Sharding.ShardsPartitionItems | src/cuphoton/core/bulk.py:113-129 | The shards together hold exactly the items, each once, and there is one shard a worker. |
| Sharding.ShardsIgnoreOrder | src/cuphoton/core/bulk.py:103-129 | The result, shards or refusal, depends on which items there are, not on the order they come in. |
| Sharding.NoShardEmpty | src/cuphoton/core/bulk.py:113-129 | With at least as many items as workers no shard is empty, items of weight zero included. |
| Sharding.BalanceFillsInOrder | src/cuphoton/core/bulk.py:119-126 | Worker k is empty exactly while fewer than k + 1 items are placed. |
| Sharding.ShardGap | src/cuphoton/core/bulk.py:113-129 | No worker's load exceeds another's by more than its own last item. |
| Sharding.SortItemsSorted | src/cuphoton/core/bulk.py:115-118 | With distinct IDs the sort key orders the items strictly. |
| GreedySharding.StringLessExactly | src/cuphoton/core/bulk.py:115-118 | Identifiers are ordered by their first difference: the one that ends there, or has the smaller character, is the smaller. |
| GreedySharding.PartitionIsGreedy | src/cuphoton/core/bulk.py:103-129 | The partition answers shards exactly when they are what a greedy run ends with: heaviest items first, equal ones by identifier, each to the worker with the fewest bytes, then items, then the least number; the two refusals exactly for a worker count that is not positive and for repeated identifiers. |
| Graham.LightestShare | src/cuphoton/core/bulk.py:119-128 | The least loaded worker holds at most an m-th of the total. |
| Graham.AverageBound | src/cuphoton/core/bulk.py:113-129 | No assignment of the items has a maximum load below the average. |
| Graham.LargeItemOptimal | src/cuphoton/core/bulk.py:113-129 | An item heavier than a third of what some assignment achieves is placed within what that assignment achieves. |
| Graham.PlacementBound | src/cuphoton/core/bulk.py:113-129 | The load any placement produces is within 4/3 - 1/(3m) of every assignment's maximum. |
| Graham.GrahamBound | src/cuphoton/core/bulk.py:103-129 | 3 m maxLoad <= (4m - 1) OPT: the bound for longest-first scheduling against every assignment of the same items. |
| Graham.LargeItemsOptimal | src/cuphoton/core/bulk.py:103-129 | When every item weighs more than a third of an assignment's maximum, the partition is at least as good as it. |
| GrahamTight.BoundIsReached | src/cuphoton/core/bulk.py:103-129 | For no number of workers m can the bound be improved: 2m + 1 items, with any ascending IDs, whose partition is exactly 4/3 - 1/(3m) times the maximum of another assignment of them. |
| Envelopes.ScatterMinimum | src/cuphoton/xbeam/ingest_scheduler.py:659-662 | Scatter-min over destination buckets lowers each frontier's start to the least frame mapped into it. |
| Envelopes.ScatterMaximum | src/cuphoton/xbeam/ingest_scheduler.py:659-663 | Scatter-max raises each frontier's end to one past the greatest frame mapped into it. |
| Envelopes.CutBounds | src/cuphoton/xbeam/ingest_scheduler.py:664-676 | For mappings ordered by slot and frame the two cuts of a frontier give the same bounds as the scatter. |
| Envelopes.OrderedEnvelope | src/cuphoton/xbeam/ingest_scheduler.py:664-676 | In an ordered mapping the first and last entry between the cuts bound all of them. |
| Envelopes.ReduceRun | src/cuphoton/xbeam/frontier_planning.py:63-70 | The reduction of one run of sorted entries is attained and covers the run, -1 when it is empty. |
| Envelopes.GpuFrontierBounds | src/cuphoton/xbeam/frontier_planning.py:50-71 | Sort, search and reduce gives the envelope of every frontier (-1 for none), and refuses a mapping exactly when a destination repeats. |
| Envelopes.SortedNeighboursDecide | src/cuphoton/xbeam/frontier_planning.py:52-62 | After sorting, comparing neighbours decides whether any destination repeats. |
| Envelopes.MergeBounds | src/cuphoton/xbeam/ingest_scheduler.py:649-657 | Merging device bounds on the host gives what scattering the entries would. |
| Envelopes.SameEntriesSameEnvelope | src/cuphoton/xbeam/ingest_scheduler.py:618-676 | Envelopes depend only on which entries there are. |
| Envelopes.BucketIsFrontier | src/cuphoton/xbeam/ingest_scheduler.py:659-661 | The right-sided search finds exactly the frontier a slot lies in. |
| Frontier.EdgesTile | src/cuphoton/xbeam/ingest_scheduler.py:720-722 | Frontiers are not empty, abut each other and cover [0, slot_count). |
| Frontier.SlotHasOneFrontier | src/cuphoton/xbeam/ingest_scheduler.py:720-722 | Every slot lies in exactly one frontier. |
| Frontier.SelectedMembers | src/cuphoton/xbeam/ingest_scheduler.py:526-532 | The selected entries are those with a destination, dense or sparse. |
| Frontier.SelectedInRange | src/cuphoton/xbeam/ingest_scheduler.py:493-525 | An accepted file maps real frames to real slots only. |
| Frontier.GroupShape | src/cuphoton/xbeam/ingest_scheduler.py:451-592 | What an accepted group looks like: same slot counts and files, every file checked, no destination repeated within a plan. |
| Frontier.FineSpan | src/cuphoton/xbeam/ingest_scheduler.py:617-690 | Envelopes of an accepted group stay inside the file. |
| Frontier.FineGroupSliceable | src/cuphoton/xbeam/ingest_scheduler.py:594-690 | Every file of an accepted group can be sliced at every frontier. |
| FrontierPlanner.FileDuplicates | src/cuphoton/xbeam/ingest_scheduler.py:548-587 | By device plan, by sorting or by neighbours, a file is refused exactly when two entries share a destination. |
| FrontierPlanner.CheckFile | src/cuphoton/xbeam/ingest_scheduler.py:486-592 | One file's checks, and duplicates across the files of a plan through the used-slot array. |
| FrontierPlanner.CheckFiles | src/cuphoton/xbeam/ingest_scheduler.py:482-592 | A plan's verdict is its first problem; otherwise its device bounds are exact. |
| FrontierPlanner.CheckGroup | src/cuphoton/xbeam/ingest_scheduler.py:451-592 | The order of declining and raising over a group. |
| FrontierPlanner.ReduceEntries | src/cuphoton/xbeam/ingest_scheduler.py:643-676 | Whichever reduction applies, the bounds change as the entries say. |
| FrontierPlanner.FoldPlans | src/cuphoton/xbeam/ingest_scheduler.py:618-676 | Folding plan by plan gives the envelopes of all plans that share a read, split and unsplit. |
| FrontierPlanner.PlanFile | src/cuphoton/xbeam/ingest_scheduler.py:617-690 | The spans of one file and the exact integer test for more than 5% extra reads on an unordered file. |
| FrontierPlanner.BuildTasks | src/cuphoton/xbeam/ingest_scheduler.py:715-814 | Tasks frontier by frontier, the groups in order inside each, with their sliced plans. |
| FrontierPlanner.MappedFrontierUploadTasks | src/cuphoton/xbeam/ingest_scheduler.py:444-814 | The planner for any input and any choice of files planned on the GPU: the answer is one function of the plans, so CPU and GPU planning agree. |
| PlanAcceptance.FileExactly | src/cuphoton/xbeam/ingest_scheduler.py:486-525 | Each answer of one file's checks, exactly when: another file or no mapping, wrong length, a source outside the file, a destination below -1 or past the slots, or acceptable. |
| PlanAcceptance.AcceptedExactly | src/cuphoton/xbeam/ingest_scheduler.py:451-592 | A group passes if and only if no plan streams, headers are aligned and equal, slot counts are equal and positive 32-bit numbers, files correspond, mappings fit, and no slot of a plan is the destination of two entries, of one file or of two. |
| PlanAcceptance.RefusedForCause | src/cuphoton/xbeam/ingest_scheduler.py:451-592 | Any other group is declined or refused for its first problem, everything before it being acceptable. |
| PlanAcceptance.FrontierCountExactly | src/cuphoton/xbeam/ingest_scheduler.py:594-599 | The number of frontiers is the requested one, or the fewest slots of a group when that is less. |
| PlanAcceptance.SpanIsRead | src/cuphoton/xbeam/ingest_scheduler.py:617-676 | The envelope of a frontier is, frame for frame, the contiguous read from the first to the last frame mapped into it. |
| PlanAcceptance.ExcessiveExactly | src/cuphoton/xbeam/ingest_scheduler.py:677-690 | A file counts as reading too much exactly when some plan maps it out of order and the frontiers read over a twentieth more frames than one contiguous read. |
| PlanAcceptance.TasksExactly | src/cuphoton/xbeam/ingest_scheduler.py:444-814 | Uploads are cut into tasks if and only if more than one frontier is asked for, each group has a chunk size, every group is acceptable with more than one slot, and no file reads too much. |
| PlanAcceptance.TaskNumbers | src/cuphoton/xbeam/ingest_scheduler.py:715-814 | Then there is one task a frontier and group, in that order, each with its group's chunk size and all its plans. |
| SlicedPlans.TasksAcceptable | src/cuphoton/xbeam/ingest_scheduler.py:715-814 | The sliced plans of every task are themselves acceptable: aligned, of equal slot counts and files, every mapping in range, and no slot filled twice. |
| SlicedPlans.SliceIsRead | src/cuphoton/xbeam/ingest_scheduler.py:727-777 | A sliced file keeps path and stamp, and its frames are exactly the contiguous read of its raw file that the window needs. |
| Slicing.SelectedSlice | src/cuphoton/xbeam/ingest_scheduler.py:737-777 | A slice selects exactly the file's entries inside the window and envelope, made relative to both. |
| Slicing.SpanCovers | src/cuphoton/xbeam/ingest_scheduler.py:617-690 | The planned envelope contains every selected frame of its frontier. |
| Slicing.SliceWrites | src/cuphoton/xbeam/ingest_scheduler.py:737-777 | A slice whose envelope covers its window writes what the file writes there. |
| Slicing.TasksWriteThePlan | src/cuphoton/xbeam/ingest_scheduler.py:703-814 | The tasks of a group together perform exactly the writes of its plans: none lost, added or moved. |
| Slicing.TaskWritesComeFromPlan | src/cuphoton/xbeam/ingest_scheduler.py:715-814 | A task writes inside its own window, and only what its plan writes. |
| Slicing.PlanWritesOnce | src/cuphoton/xbeam/ingest_scheduler.py:577-588 | An accepted plan never fills a slot from two frames. |
| Slicing.OrderIsIrrelevant | src/cuphoton/xbeam/cuda_ingest.py:70-126 | With one source a slot, the order of writes does not matter. |
| Slicing.SlicingPreservesMeaning | src/cuphoton/xbeam/ingest_scheduler.py:594-814 | Running the sliced tasks in any order, interleaved write by write, leaves every slot as the unsliced plan would. |
| Slicing.TaskWindowsTile | src/cuphoton/xbeam/ingest_scheduler.py:716-734 | Each group has one task a frontier; their windows are not empty, abut and cover [0, slot_count). |
| Slicing.PiecesOfPlan | src/cuphoton/xbeam/ingest_scheduler.py:703-813 | Every plan is cut into exactly as many pieces as its completion counts down from. |
| Slicing.SlotHasOneTask | src/cuphoton/xbeam/ingest_scheduler.py:715-814 | No slot of a plan is written by two tasks or from two frames. |
| OrderedFrontiers.DenseFramesIncrease | src/cuphoton/xbeam/ingest_scheduler.py:527-532 | A dense mapping selects frames in increasing order, each once. |
| OrderedFrontiers.ReachBelowFirst | src/cuphoton/xbeam/ingest_scheduler.py:664-681 | In an ordered dense mapping a frontier starts after everything the frontiers before it read. |
| OrderedFrontiers.OrderedSplitIsFree | src/cuphoton/xbeam/ingest_scheduler.py:677-690 | Splitting an ordered dense file of a single plan reads no more frames than the unsplit envelope. |
| Deduplication.Deduplicate | src/cuphoton/xbeam/ingest_scheduler.py:1229-1254 | The canonical groups and the alias of every plan. |
| Deduplication.SamePlanExact | src/cuphoton/xbeam/ingest_scheduler.py:1180-1226 | Plans match exactly when they are equal indexed plans; a streaming plan matches only itself. |
| Deduplication.UniqueDiffer | src/cuphoton/xbeam/ingest_scheduler.py:1237-1251 | No two canonical groups could have been shared. |
| Deduplication.SharingPreservesPlans | src/cuphoton/xbeam/ingest_scheduler.py:1229-1254 | Every plan has an alias, with the very same contents. |
| Deduplication.SharingIsIdempotent | src/cuphoton/xbeam/ingest_scheduler.py:1229-1254 | Deduplicating the canonical groups changes nothing. |
| StripScatter.StripScatterPayload | src/cuphoton/xbeam/cuda_ingest.py:70-126 | The dense and sparse kernels, threads in any order, leave every mapped word the payload word of its frame and every other word alone. |
| StripScatter.StripScatterPayloadValidity | src/cuphoton/xbeam/cuda_ingest.py:128-157 | The same with one validity byte a mapped slot. |
| StripScatter.ThreadWrites | src/cuphoton/xbeam/cuda_ingest.py:78-92 | No two threads write the same word. |
| StripScatter.ThreadMove | src/cuphoton/xbeam/cuda_ingest.py:78-121 | The guards: past the mapping, a negative slot, or a sparse entry out of range does nothing. |
| StripScatter.MappedSlotHoldsPayload | src/cuphoton/xbeam/cuda_ingest.py:85-92 | A mapped slot holds its frame's payload, header dropped. |
| StripScatter.UnmappedSlotKept | src/cuphoton/xbeam/cuda_ingest.py:86-121 | A slot nothing maps to keeps its words. |
| StripScatter.ValidityOfMappedSlot | src/cuphoton/xbeam/cuda_ingest.py:153-156 | Validity is the complement of the invalid flag, bit 31 of word 0 of the frame header (VDIF Specification, Release 1.1.1, "Data Frame Header"). |
| StrippedFrames.SlotHoldsPayload | src/cuphoton/xbeam/cuda_ingest.py:70-158 | Frames written one after the other, each eight 32-bit header words, payload and filling: a mapped slot holds the payload of its frame, word for word. |
| StrippedFrames.SlotIsValid | src/cuphoton/xbeam/cuda_ingest.py:153-156 | Its validity is set exactly when the header leaves the invalid flag, bit 31 of its first word, clear. |
| StripScatter.MoveIsWrite | src/cuphoton/xbeam/cuda_ingest.py:85-125 | What a kernel moves is what slicing counts as a write. |
| StripScatter.AcceptedMovesSound | src/cuphoton/xbeam/ingest_scheduler.py:451-592 | Every file of an accepted plan is safe to launch: in range and without races. |
| Readiness.SetAllCarriers | src/cuphoton/xbeam/ingest_scheduler.py:926-928 | Assigning a ticket to distinct slots moves that many slots from their old tickets to it. |
| ReadinessRuns.PublishAccounted | src/cuphoton/xbeam/ingest_scheduler.py:915-929 | Publishing distinct slots keeps every ticket counted exactly when none of them still carries a pending ticket. |
| ReadinessRuns.StepSound | src/cuphoton/xbeam/ingest_scheduler.py:910-1026 | Every step of publishers and of the consumer keeps tickets counted, uploads known and the consumer's copied tickets valid. |
| ReadinessRuns.CommitAccounted | src/cuphoton/xbeam/ingest_scheduler.py:1017-1026 | Retiring the waited tickets keeps every remaining count exact. |
| Waiting.TicketsCounted | src/cuphoton/xbeam/ingest_scheduler.py:910-1026 | In every run: a ticket's count is the number of slots carrying it, its event is kept exactly while that is positive, and no lookup ever misses. |
| Waiting.WaitOrders | src/cuphoton/xbeam/ingest_scheduler.py:967-1026 | When wait_samples returns, whatever was published between its critical sections, every valid slot in range is ordered after its upload event. |
| Waiting.RunKeepsPublished | src/cuphoton/xbeam/ingest_scheduler.py:910-1026 | A slot never returns to unpublished. |
| Waiting.ReadyStaysReady | src/cuphoton/xbeam/ingest_scheduler.py:868-1013 | Once samples_published is true it stays true, and waiting neither blocks nor reports missing frames, unless an upload error is recorded. |
| Waiting.PublishedMeansNoWait | src/cuphoton/xbeam/ingest_scheduler.py:888-1013 | samples_published is true exactly when wait_samples would neither block nor raise, but for a finished streaming upload with only invalid slots unpublished. |
| Waiting.StreamingGap | src/cuphoton/xbeam/ingest_scheduler.py:888-1013 | That exception is reached: two frames streamed, the second invalid, coverage of one and the end of the upload. |
| Waiting.WakeupsNotify | src/cuphoton/xbeam/ingest_scheduler.py:817-826 | A blocked waiter's condition changes only in steps that notify. |
| Waiting.FrameRangeExact | src/cuphoton/xbeam/ingest_scheduler.py:883-887 | The frames asked about are exactly those meeting the sample interval, if and only if the interval is not empty or its frame bounds enclose no frame of the plan. |
| Waiting.EmptyIntervalAsksForFrame | src/cuphoton/xbeam/ingest_scheduler.py:975-979 | An empty interval inside a frame still asks for that frame. |
| ReadinessLaws.AnswerExactly | src/cuphoton/xbeam/ingest_scheduler.py:868-908 | samples_published slot by slot: the error, true, missing or not yet, and when a wait would block. |
| ReadinessLaws.SnapshotExactly | src/cuphoton/xbeam/ingest_scheduler.py:980-1013 | What a wait takes: the valid slots of the interval, their pending tickets and the events of those; or the error, nothing, or missing frames. |
| ReadinessLaws.PublishExactly | src/cuphoton/xbeam/ingest_scheduler.py:915-929 | The statically valid ones of the published slots get one new ticket for the event; every other slot keeps its own. |
| ReadinessLaws.ThroughExactly | src/cuphoton/xbeam/ingest_scheduler.py:931-959 | Streaming coverage reaches its stop, kept inside the slots and never moved back; valid slots get one new ticket, the others need no wait. |
| ReadinessLaws.NothingAtFirst | src/cuphoton/xbeam/ingest_scheduler.py:832-866 | A new progress has nothing published, covered or missing: a question that depends on any slot is not ready and would block. |
| ReadinessLaws.EndReachesEveryone | src/cuphoton/xbeam/ingest_scheduler.py:868-1013 | In every run: after an upload ended with an error, every question and wait for whatever interval gets that error; after one without, nobody gets an error, and nobody blocks. |
| PayloadProgresses.PayloadProgressNotifier.NotifyLocked | src/cuphoton/xbeam/ingest_scheduler.py:824-826 | A notification advances the generation. |
| PayloadProgresses.MakeProgress | src/cuphoton/xbeam/ingest_scheduler.py:832-866 | A new progress has no ticket, no event and nothing published; static validity of another length is refused. |
| PayloadProgresses.PayloadProgress.PublishSlots | src/cuphoton/xbeam/ingest_scheduler.py:915-929 | publish_validated: one ticket for the statically valid destinations, and one notification, or nothing. |
| PayloadProgresses.PayloadProgress.Publish | src/cuphoton/xbeam/ingest_scheduler.py:910-913 | publish drops negative and repeated destinations first. |
| PayloadProgresses.PayloadProgress.PublishCoverage | src/cuphoton/xbeam/ingest_scheduler.py:931-959 | publish_through covers up to its stop, gives the valid slots one ticket, and refuses validity that is too short. |
| PayloadProgresses.PayloadProgress.FinishUpload | src/cuphoton/xbeam/ingest_scheduler.py:961-965 | finish records the end and the error it is given, and notifies; nothing else changes. |
| PayloadProgresses.PayloadProgress.AskPublished | src/cuphoton/xbeam/ingest_scheduler.py:888-908 | samples_published answers, raises the upload error or reports missing frames. |
| PayloadProgresses.PayloadProgress.BeginWait | src/cuphoton/xbeam/ingest_scheduler.py:980-1013 | The first critical section of a wait takes the pending tickets of the valid slots and their events. |
| PayloadProgresses.PayloadProgress.EndWait | src/cuphoton/xbeam/ingest_scheduler.py:1017-1026 | The second one retires them, dropping counters and events that reach zero. |
| PayloadProgresses.UniqueDestinations | src/cuphoton/xbeam/ingest_scheduler.py:911-912 | Sorted, distinct and not negative. |
| Completion.FrontierPlanCompletion.FinishPiece | src/cuphoton/xbeam/ingest_scheduler.py:155-169 | The future and the parent progress resolve together; the parent records the error the future gets, or none. |
| Completion.ResolvesOnce | src/cuphoton/xbeam/ingest_scheduler.py:135-169 | Over every order of reports the upload resolves at most once: not before every piece succeeded or one failed, with success exactly when the first reports are all successes. |
| Completion.SucceedsTogether | src/cuphoton/xbeam/ingest_scheduler.py:164-169 | As many successes as pieces, before any failure, resolve it to success for good. |
| Completion.FailsWithFirstError | src/cuphoton/xbeam/ingest_scheduler.py:157-163 | Otherwise it fails with the first error, whatever is reported later. |
| Completion.SuccessMeansEveryPiece | src/cuphoton/xbeam/ingest_scheduler.py:155-169 | A success is reported only after every piece has succeeded. |
| Completion.ShiftedInWindow | src/cuphoton/xbeam/ingest_scheduler.py:185-191 | A piece publishes slots of its own window, each once. |
| Completion.PiecesPublishApart | src/cuphoton/xbeam/ingest_scheduler.py:185-191 | Pieces with disjoint windows never publish the same slot. |
| PiecePublishing.PublicationsApart | src/cuphoton/xbeam/ingest_scheduler.py:185-191 | Two publications of one plan share a slot only inside one task, and there only if they share a destination. |
| PiecePublishing.PiecesPublishOnce | src/cuphoton/xbeam/ingest_scheduler.py:703-813 | Whatever the pieces of an accepted plan publish, in any order and between any steps of the consumer, no slot is published twice, so the run is one the ticket theorems are about. |
| Completion.FrontierPayloadProgress.Publish | src/cuphoton/xbeam/ingest_scheduler.py:185-191 | A piece's publish is its plan's publish of the shifted destinations. |
| Completion.FrontierPayloadProgress.Finish | src/cuphoton/xbeam/ingest_scheduler.py:193-194 | A piece's end is reported to the completion. |
| PackedDecode.ElementInBuffer | src/cuphoton/xbeam/gpu_kernels.py:214-236 | With checked geometry every element of every channel lies inside the payload buffer. |
| PackedDecode.DecodeBand | src/cuphoton/xbeam/cuda_ingest.py:10-64 | The real and complex bulk decoders, threads in any order, write every sample from its own bits. |
| PackedDecode.DecodeOne | src/cuphoton/xbeam/cuda_ingest.py:19-63 | One decoder thread's byte and shift are those of its element. |
| PackedDecode.FusedLoad | src/cuphoton/xbeam/cuda_front.py:55-86 | At frame index / samples_per_frame and position index mod samples_per_frame the fused loader stays in the buffer and yields what the bulk decoder writes. |
| PackedDecode.DecodePacked | src/cuphoton/xbeam/cuda_ingest.py:23-30 | Decoding packed payloads gives back every element, low bits first (data array format of the VDIF Specification, Release 1.1.1). |
| PackedDecode.PackedIsValid | src/cuphoton/xbeam/gpu_kernels.py:599-609 | Packed payloads pass the host checks. |
| VoltageStream.DecodesStream | src/cuphoton/xbeam/cuda_ingest.py:10-64 | Codes written sample by sample, channel by channel, in-phase before quadrature, four to a byte from the low bits, decode to their voltages: offset binary, 1 and 3.3359. |
| VoltageStream.FusedReadsStream | src/cuphoton/xbeam/cuda_front.py:39-86 | The fused loader reads the same voltages at the frame and position of a sample. |
| VoltageStream.GeometryExactly | src/cuphoton/xbeam/gpu_kernels.py:214-236 | A geometry is accepted exactly when its counts are positive 32-bit numbers and a frame of codes fills the payload. |
| FrontPhase.ReducedAngle | src/cuphoton/xbeam/cuda_front.py:35-37 | Reducing cycles changes neither sine nor cosine. |
| FrontPhase.StartPhasor | src/cuphoton/xbeam/cuda_front.py:139-173 | The phasor starts exactly at the phase polynomial of the thread's first sample. |
| FrontPhase.RotationSteps | src/cuphoton/xbeam/cuda_front.py:224-231 | Rotating by the delta, and the delta by the second delta, is stepping the quadratic phase by one stride. |
| FrontPhase.StepPhasor | src/cuphoton/xbeam/cuda_front.py:224-253 | After a step the phasor is at the next sample, with or without the restart every sixteenth step. |
| FrontPhase.Locate | src/cuphoton/xbeam/cuda_front.py:185-197 | For any offset a sample with an index that is not negative is located at its frame and position. |
| FrontPhase.Advance | src/cuphoton/xbeam/cuda_front.py:254-261 | The division-free advance keeps frame and position those of the index 256 samples on. |
| Strides.StridesCover | src/cuphoton/xbeam/cuda_front.py:537-539 | Threads with a common stride visit every index exactly once. |
| Strides.TreeReduce | src/cuphoton/xbeam/cuda_front.py:264-279 | The shared-memory tree, threads of a round in any order, leaves the sum in the first count. |
| Strides.WarpReduce | src/cuphoton/xbeam/cuda_front.py:540-542 | The shuffle reduction leaves the sum in lane zero. |
| Strides.AddChunkCounts | src/cuphoton/xbeam/cuda_front.py:532-549 | Two warps of strided sums add up all chunk counts. |
| FrontKernel.PolynomialIsCycles | src/cuphoton/xbeam/cuda_front.py:140-148 | The kernel's quadratic is the oscillator phase less the fringe of the delay. |
| FrontKernel.ValidityInBuffer | src/cuphoton/xbeam/gpu_kernels.py:239-257 | Every validity lookup of a checked launch is in its buffer. |
| FrontKernel.LoadValue | src/cuphoton/xbeam/cuda_front.py:198-218 | A load is valid exactly when the definition says so and yields the definition's value. |
| FrontKernel.Take | src/cuphoton/xbeam/cuda_front.py:181-218 | Locating, loading and moving on, for any source offset and cutover. |
| FrontKernel.RunThread | src/cuphoton/xbeam/cuda_front.py:180-262 | One thread writes every 256th sample of its range as the direct definition says, and counts its valid ones. |
| FrontKernel.RunThreads | src/cuphoton/xbeam/cuda_front.py:137-279 | A block, threads in any order, fills its range and leaves the number of valid samples. |
| FrontKernel.RunBlock | src/cuphoton/xbeam/cuda_front.py:117-280 | A block of either kernel form, rows without valid samples included. |
| FrontKernel.FrontRow | src/cuphoton/xbeam/cuda_front.py:117-280 | The whole-row kernel writes the directly defined row and its fraction of valid samples. |
| FrontKernel.FrontChunkedRow | src/cuphoton/xbeam/cuda_front.py:117-280 | The chunked kernel, chunks in any order, writes the same row and, after finish_front_weights, the same weight. |
| FrontKernel.ChunksCount | src/cuphoton/xbeam/cuda_front.py:118-124 | Chunk counts add up to the count of the row. |
| FrontKernel.FusedEqualsDecoded | src/cuphoton/xbeam/cuda_front.py:174-261 | The fused packed kernel computes, sample by sample, what decoding first and then processing computes. |
| FrontKernel.FusedCountsEqual | src/cuphoton/xbeam/cuda_front.py:198-218 | And counts the same valid samples. |
| FrontStream.RowIsDelayedStream | src/cuphoton/xbeam/cuda_front.py:139-223 | From decoded or packed input: row sample i is the stream sample the coarse delay earlier, moved by the source offset from the cutover on, turned by the oscillator phase less the fringe of the delay then; zero outside the buffer, the valid range or a valid frame. |
| FrontStream.TurnsAdd | src/cuphoton/xbeam/cuda_front.py:220-223 | Turning by two angles one after the other is turning by their sum. |
| FrontStream.WeightCountsUsable | src/cuphoton/xbeam/cuda_front.py:264-280 | The count behind a row's weight is the number of such samples. |
| DragonProtocol.StepSound | src/cuphoton/core/dragon.py:876-976 | Every step keeps the invariant: what each worker has put, one that leaves without a receipt included, against what the coordinator has taken, and who passed which phase. |
| DragonProtocol.ReceiveNext | src/cuphoton/core/dragon.py:924-959 | A message taken is always its worker's next: a first receipt, the closed message of a failed worker, or that of one that left without a failed receipt; before the last phase only the last is refused. |
| DragonProtocol.QueuesNeverBlock | src/cuphoton/core/dragon.py:461-473 | In every run the result queue of 2 x workers has room whenever a worker may put, a receipt or the closed message from its finally block, and the next command queue of size one is empty at each put. |
| DragonProtocol.QueueBound | src/cuphoton/core/dragon.py:461-461 | At most two messages a worker fit the result queue. |
| DragonProtocol.CommandQueueEmpty | src/cuphoton/core/dragon.py:597-612 | A command is put only into an empty queue. |
| DragonProtocol.IdentityErrorExactly | src/cuphoton/core/dragon.py:926-956 | A run stops with an identity error if and only if the coordinator takes, before the last phase, the closed message of a worker that left without a failed receipt. |
| DragonProtocol.AbortedExactly | src/cuphoton/core/dragon.py:1197-1231 | Those workers are exactly the ones that took the step of leaving by an exception that is no Exception. |
| DragonProtocol.AbortedNeverFailed | src/cuphoton/core/dragon.py:1197-1231 | None of them ever put a failed receipt, so nothing told the coordinator about them. |
| DragonProtocol.AbortedWorkerRefused | src/cuphoton/core/dragon.py:926-942 | One worker that leaves before READY: the run of two steps ends in the identity error. |
| DragonProtocol.CommandsMatch | src/cuphoton/core/dragon.py:1151-1199 | In no run does a worker get an unexpected command. |
| DragonProtocol.DrainedMeansNeverPut | src/cuphoton/core/dragon.py:904-921 | After the drain a worker not seen has never put its receipt, nor a closed message instead. |
| DragonProtocol.NoFalseAlarm | src/cuphoton/core/dragon.py:889-923 | "Exited before completion" is raised only for workers that exited without ever putting the receipt of the phase or a closed message, in every interleaving and for ever after. |
| DragonProtocol.SilentExitReported | src/cuphoton/core/dragon.py:889-923 | A worker that exited silently and is in the snapshot is reported once the queue is drained, unless the drain meets the closed message of another that left without a receipt, which ends the run first. |
| DragonProtocol.PhaseNeverStalls | src/cuphoton/core/dragon.py:876-976 | No deadlock: in every run, while a phase waits on an empty queue, some worker it waits for can act, or has exited and is there to be detected. |
| DragonProtocol.FinishIsComplete | src/cuphoton/core/dragon.py:540-749 | A run that finishes has an ok receipt of every phase from every worker, none that left early, and nothing left in the queue. |
| DragonOutcome.EndExactly | src/cuphoton/core/dragon.py:540-735 | A phase whose workers were all heard fails exactly when some worker put no ok receipt of it; otherwise the run is finished after the close, and else the next phase begins with nobody told and nobody heard. |
| DragonOutcome.FailureIsSomeones | src/cuphoton/core/dragon.py:973-977 | In every run, a reported failure of a phase is some worker's receipt that was not ok. |
| DragonOutcome.OutcomeIsFinal | src/cuphoton/core/dragon.py:750-760 | Once the coordinator has stopped or finished, nothing the workers do changes what it knows. |
| MpiConsensus.Decide | src/cuphoton/core/_mpi_runtime.py:56-99 | Rank zero's decision for any gathered items, malformed ones included. |
| MpiConsensus.RaisesExactly | src/cuphoton/core/_mpi_runtime.py:43-104 | The broadcast decision raises exactly when some rank failed, also with an empty error message. |
| MpiConsensus.LowestRankFirst | src/cuphoton/core/_mpi_runtime.py:62-86 | The first complaint is the lowest failing rank's error. |
| ConsensusMessage.PassesExactly | src/cuphoton/core/_mpi_runtime.py:56-87 | Nothing is raised exactly when there is one item for each rank, a mapping that names it and carries no error. |
| ConsensusMessage.MalformedNamed | src/cuphoton/core/_mpi_runtime.py:57-75 | What is said of items that are no mapping, name another rank, or are too few or too many. |
| ConsensusMessage.MessageListsFailures | src/cuphoton/core/_mpi_runtime.py:76-87 | The message lists every failing rank with its error, lowest rank first, separated by semicolons. |
| MpiRanks.RanksStayAligned | src/cuphoton/core/mpi.py:107-469 | Whatever fails locally on whichever ranks, and however inputs differ, before every collective all ranks have arrived at the same one. |
| MpiRanks.ConsensusAllOrNone | src/cuphoton/core/_mpi_runtime.py:43-104 | A consensus raises on all ranks or none, exactly when some rank brought an error; inside the try block all go on to close. |
| MpiRanks.CompareExact | src/cuphoton/core/mpi.py:472-487 | Comparing payloads establishes equal preparation and equal benchmark plans. |
| MpiRanks.OneDecision | src/cuphoton/core/mpi.py:399-469 | All ranks hold the same final decision whenever one does, and leave with an exception exactly as it says. |
| MpiRanks.RoundSpends | src/cuphoton/core/mpi.py:255-377 | Every collective brings the run nearer to its end. |
| MpiRanks.EveryRankLeaves | src/cuphoton/core/mpi.py:107-469 | Every run ends on every rank after a bounded number of collectives. |
| MpiSuccess.SuccessExactly | src/cuphoton/core/mpi.py:107-469 | A rank hears success exactly when nothing the code guards failed anywhere: setup, every planned round on every rank, close and the summary, with equal workload, options and plan. |
| MpiSuccess.RunExact | src/cuphoton/core/mpi.py:185-469 | Before every collective, either nothing has failed so far or the final decision can no longer be success. |
| MpiSuccess.CleanRunSucceeds | src/cuphoton/core/mpi.py:107-469 | When nothing fails the run ends in success on every rank, without an exception. |
| MpiOutcome.WellPlainly | src/cuphoton/core/mpi.py:107-469 | What success takes, rank by rank and round by round, without the stages of the proof. |
| MpiOutcome.OutcomeExactly | src/cuphoton/core/mpi.py:107-469 | How every rank ends: an exception without a decision exactly when something failed before the run directory, an exception everywhere when the directory was not claimed or the summary cannot be written, a failed result on rank zero and an exception elsewhere for any other failure, success otherwise. |
| Audit.AuditExact | src/cuphoton/core/bulk.py:138-166 | The audit is ok exactly when observed IDs equal the expected ones as multisets and every status is legal. |
| Audit.FailedIdsEmpty | src/cuphoton/core/bulk.py:155-160 | No failed IDs are listed exactly when no expected item failed. |
| Audit.CountRound | src/cuphoton/core/execution.py:264-341 | Every item counts as one success or failure; the receipt is a success exactly when every record was written as a success and the receipt too. |
| RoundAudit.CleanRecord | src/cuphoton/core/execution.py:729-782 | A record without problems names the worker and weight its item was assigned. |
| RoundAudit.AuditRecords | src/cuphoton/core/execution.py:518-555 | No record error exactly when every record is clean. |
| RoundAudit.AuditReceipts | src/cuphoton/core/execution.py:785-878 | No receipt error exactly when every worker sent one receipt and each passes its checks. |
| RoundAudit.FinalizeRound | src/cuphoton/core/execution.py:477-601 | The round is a success exactly when nothing at all is wrong; otherwise what is wrong is listed, neither more nor less; repeated expected IDs raise. |
| RoundAudit.AssignmentAt | src/cuphoton/core/execution.py:518-522 | Every item's expected worker is the one whose shard holds it. |
| RoundAudit.AssignmentsExactly | src/cuphoton/core/execution.py:518-522 | The map of expected workers holds the items of the shards with their weights, and nothing else. |
| RoundAudit.SuccessIsSound | src/cuphoton/core/execution.py:477-601 | In a successful round every manifest item has exactly one terminal record, a success, by the worker whose shard the partition gave it to, and there are no others. |
| RoundAudit.EveryWorkerReported | src/cuphoton/core/execution.py:793-877 | And every worker sent a success receipt for its whole shard. |
| ExecutorRound.CleanExactly | src/cuphoton/core/execution.py:246-341 | The audit accepts a round if and only if nothing outside its records and receipts failed, no item is listed twice, and they are, in any order, the success records and receipts the executor writes for the shards. |
| ExecutorRound.FieldsNamed | src/cuphoton/core/execution.py:729-782 | The fields named in a success record of a known item are exactly those that differ from the written one. |
| ExecutorRound.FailureNamed | src/cuphoton/core/execution.py:776-782 | A failed record is only asked for a proper error, and any other status is named. |
| BenchmarkReport.BuildBenchmarkReport | src/cuphoton/core/benchmark.py:74-162 | Success exactly when there are no errors and the receipts are the planned rounds in order, each successful and timed. |
| BenchmarkReport.EveryMeasuredRoundReported | src/cuphoton/core/benchmark.py:125-148 | A successful report has one duration for every measured round, warmups excluded. |
| BenchmarkLaws.MeasuredInOrder | src/cuphoton/core/benchmark.py:125-148 | Those durations are the measured rounds' own, in their order. |
| BenchmarkLaws.RoundIdsDiffer | src/cuphoton/core/benchmark.py:24-71 | Different rounds have different identifiers, so different directories. |
| BenchmarkReport.RunRounds | src/cuphoton/core/dragon.py:577-712 | The rounds run until one fails; none failed exactly when every planned round collected and audited clean. |
| BenchmarkReport.RunDragonWorkload | src/cuphoton/core/dragon.py:540-821 | The Dragon run reports success exactly when readiness, every planned round, close and join, and every exit status were good. |
| BenchmarkReport.ReportedSuccessIsSound | src/cuphoton/core/dragon.py:577-821 | A reported success is sound for every planned round and every item of the manifest. |
| DragonRun.CollectedMeansReceipts | src/cuphoton/core/dragon.py:876-976 | In every run a phase the coordinator counts as collected has an ok receipt of every worker. |
| DragonRun.ReportRun | src/cuphoton/core/dragon.py:540-821 | With readiness, collection errors and the close read off the protocol, the report is a success exactly when the run finished, READY and cleanup were accepted, every round audited clean and every exit status is zero; then every worker ended, put an ok receipt of every phase, and the queue is empty, so "unexpected extra result" is not raised. |
| Campaign.BuildSchedule | examples/benchmarks/run_campaign.py:249-264 | Row b n + p of the schedule is block b, position p, with the rotated and reversed treatment. |
| Campaign.BlockIsPermutation | examples/benchmarks/run_campaign.py:250-257 | In every block position and treatment determine each other. |
| ScheduleBalance.EveryPositionTwice | examples/benchmarks/run_campaign.py:250-264 | Among the rows of each aligned run of 2n blocks every treatment stands at every position exactly twice. |
| ScheduleBalance.EveryPairBalanced | examples/benchmarks/run_campaign.py:250-264 | Of any two treatments each has its row before the other's in exactly n blocks of each aligned run of 2n. |
| HandleCache.CloseKeepsGood | src/cuphoton/xbeam/cufile_io.py:292-313 | Closing keeps the session invariants exactly when the handle is not a stale twin of an open cached file. |
| HandleCache.RefusedCloseKeepsState | src/cuphoton/xbeam/cufile_io.py:295-306 | A refused close changes nothing. |
| HandleCache.CloseKeepsLeased | src/cuphoton/xbeam/cufile_io.py:302-307 | Closing a file never removes a leased entry. |
| HandleCache.EvictRemoves | src/cuphoton/xbeam/cufile_io.py:171-178 | Eviction removes exactly its entry and closes exactly its file, even when its validator complains. |
| HandleCache.CachedReadGood | src/cuphoton/xbeam/cufile_io.py:139-169 | Reading through the cache keeps at most 64 distinct open files in order of use and never drops a leased entry. |
| HandleCache.VictimIsOldest | src/cuphoton/xbeam/cufile_io.py:155-166 | The victim is the least recently used entry without a lease. |
| HandleCache.CloseSessionGood | src/cuphoton/xbeam/cufile_io.py:383-398 | Closing the session closes every open file, none twice. |
| HandleLaws.ServesCurrent | src/cuphoton/xbeam/cufile_io.py:139-169 | A served handle is open, of the path asked for, and of the source fingerprint asked for; it is the most recently used. |
| HandleLaws.ReadHit | src/cuphoton/xbeam/cufile_io.py:146-154 | A cached source is served as it is, and nothing is opened or closed. |
| HandleLaws.ReadLeased | src/cuphoton/xbeam/cufile_io.py:147-149 | A changed source is refused while its old handle is leased. |
| HandleLaws.ReadChanged | src/cuphoton/xbeam/cufile_io.py:147-169 | Otherwise the old file is closed and the path opened again, unless the old validator complains. |
| HandleLaws.ReadRoom | src/cuphoton/xbeam/cufile_io.py:167-169 | With room, a new path is opened and cached. |
| HandleLaws.ReadAllLeased | src/cuphoton/xbeam/cufile_io.py:155-166 | With 64 leased entries it is refused. |
| HandleLaws.ReadFull | src/cuphoton/xbeam/cufile_io.py:155-169 | With 64 entries the least recently used unleased one is closed for it, unless its validator complains. |
| HandleLaws.CloseExactly | src/cuphoton/xbeam/cufile_io.py:292-313 | Closing an open file is refused exactly while it is leased; otherwise it and its entry go, and it alone is closed. |
| HandleLaws.LeaseExactly | src/cuphoton/xbeam/cufile_io.py:180-198 | A lease is the cached read and one lease more on what it served, unless the caller's validator complains. |
| HandleLaws.ReleaseExactly | src/cuphoton/xbeam/cufile_io.py:197-198 | Leaving takes one lease from that entry only. |
| HandleLaws.LeaseIsGivenBack | src/cuphoton/xbeam/cufile_io.py:180-198 | Entering and leaving leaves every lease as it was. |
| CuFileSessions.Driver.Acquire | src/cuphoton/xbeam/cufile_io.py:40-51 | The driver opens with its first user; a failed open counts nobody. |
| CuFileSessions.Driver.Release | src/cuphoton/xbeam/cufile_io.py:54-62 | It closes with its last user; an unbalanced release is refused. |
| CuFileSessions.CuFileSession.Enter | src/cuphoton/xbeam/cufile_io.py:92-98 | Entering counts one user, once, as one step of the driver shared by all sessions. |
| CuFileSessions.CuFileSession.OpenPath | src/cuphoton/xbeam/cufile_io.py:100-128 | A successful open adds one owned file. |
| CuFileSessions.CuFileSession.ReadCached | src/cuphoton/xbeam/cufile_io.py:139-169 | The cached read in place: hit, stale source, eviction, admission and every refusal. |
| CuFileSessions.CuFileSession.EvictEntry | src/cuphoton/xbeam/cufile_io.py:171-178 | Evicting in place. |
| CuFileSessions.CuFileSession.TakeLease | src/cuphoton/xbeam/cufile_io.py:180-198 | Entering a lease counts it, and gives it back when the caller's validator complains. |
| CuFileSessions.CuFileSession.DropLease | src/cuphoton/xbeam/cufile_io.py:197-198 | Leaving gives it back. |
| CuFileSessions.CuFileSession.FinishCachedReads | src/cuphoton/xbeam/cufile_io.py:200-217 | Every validator is forgotten; it complains exactly when an entry is leased or a validator does. |
| CuFileSessions.CuFileSession.Close | src/cuphoton/xbeam/cufile_io.py:292-313 | close_file in place, a refused close put back as it was. |
| CuFileSessions.CuFileSession.RegisterBuffer | src/cuphoton/xbeam/cufile_io.py:276-290 | A buffer is registered and remembered, or refused for a closed session, a bad pointer or size, or the library's error. |
| CuFileSessions.CuFileSession.CloseAll | src/cuphoton/xbeam/cufile_io.py:371-407 | Buffers, then files, are let go in reverse order, each once, also when some of them raise; the driver is released once, and an error is raised exactly when one was met. |
| CuFileSessions.DriverOpenWhileEntered | src/cuphoton/xbeam/cufile_io.py:40-98 | Over every sequence of enters and closes the driver is open exactly while some session is entered. |
| CuFileSessions.LeasedOutlives | src/cuphoton/xbeam/cufile_io.py:139-313 | A leased entry outlives every call but the one that closes the session. |
| CuFileSessions.SessionInvariants | src/cuphoton/xbeam/cufile_io.py:82-407 | Over every proper sequence of calls: at most 64 cached entries, all distinct open files of the session, and no file closed twice. |
| CuFileSessions.StaleTwinReached | src/cuphoton/xbeam/cufile_io.py:292-313 | Open, close, lease the same path: closing the first handle again is accepted and closes the file under its leased cache entry. |
| Placements.PickRow | src/cuphoton/core/dragon.py:128-138 | One pass over the hosts; without progress every host is exhausted. |
| Placements.PickUnique | src/cuphoton/core/dragon.py:124-138 | The selection ends with enough picks: "could not select" is never reached. |
| Placements.SelectGpuPlacements | src/cuphoton/core/dragon.py:107-149 | Selection succeeds exactly for a positive worker count within placements x workers_per_gpu; the workers repeat the distinct picks in order. |
| Placements.GroupedSize | src/cuphoton/core/dragon.py:121-123 | Grouping by host keeps every placement. |
| Placements.HostsBalanced | src/cuphoton/core/dragon.py:127-138 | Among distinct picks no host leads another by more than one unless the other is exhausted. |
| Placements.UsesBounded | src/cuphoton/core/dragon.py:139-149 | Use counts are within one of each other and at most workers_per_gpu. |
| Placements.UnchosenUnused | src/cuphoton/core/dragon.py:139-149 | A GPU not chosen hosts no worker. |
| PlacementOrder.SelectionInOrder | src/cuphoton/core/dragon.py:121-149 | The workers go round the first placements in the order of (earlier placements on the host, first appearance of the host), as many different ones as there are workers or placements. |

## Left out

- Untrusted plans: the planner's `trust_slices=False` mode, which declines unordered mappings and skips most checks, is not modelled; the trusted mode is.
- FrontierPlanner.MappedFrontierUploadTasks: does not model the array type checks (mappings are integers here), `byte_count` (a property of a plan class that is not part of this model), the diagnostics, or which files the GPU takes (`onGpu` is any choice; its memory budget and fallbacks are behind it).
- FrontierPlanner.CheckFile: does not model the array type checks, for the same reason.
- FrontierPlanner.CheckGroup: does not model the array type checks and `byte_count`, for the same reason.
- Slicing.PiecesOfPlan: plans are told apart by their position; the source keys completions by `id(plan)`, so one plan object listed twice is outside it.
- Readiness tickets are unbounded integers, not 32-bit.
- Waiting.WaitOrders: one consumer waits on a progress at a time, and publishers publish each slot once: derived for sliced plans (`PiecePublishing.PiecesPublishOnce`), assumed of others; the condition variable is the question whether a wait would block.
- PiecePublishing.PiecesPublishOnce: takes from the loader that it publishes no destination of a task twice, and only destinations the sliced plan writes.
- The payload loader, `WorkQueue`, staging budgets and worker threads: not part of this model; applying a plan is the strip-scatter kernels, and tasks run in any order.
- FrontKernel.FrontRow: exact arithmetic; rounding and the accuracy of the sine and cosine instructions are not modelled. Any pair of functions with angle addition and period one stands for them. Bands, polarisations and the kernel's many entry points differ only in where they point.
- Strides.WarpReduce: the lanes of a warp step together, as the full-mask shuffle demands.
- DragonProtocol.QueuesNeverBlock: waits for commands do not time out, queues lose and reorder nothing, and a worker is listed as inactive only once it has exited; deadlines, malformed receipts and the coordinator's own stop are the step that gives up.
- DragonProtocol.SilentExitReported: says what follows a snapshot that lists the worker; that the process group lists it eventually is an assumption about Dragon.
- MpiRanks.RanksStayAligned: collectives themselves succeed; exceptions outside the guarded regions, the launcher's environment variables and timeouts while polling for a directory are covered only as arbitrary local failures at their consensus point.
- MpiSuccess.SuccessExactly: the audit of a round and the report's duration checks are rank zero's verdict on that round.
- Audit.AuditExact: lists are sets or in record order where the source sorts them, and the text of an ID that is neither text nor number is one fixed text.
- RoundAudit.FinalizeRound: reading artifacts, component validators, timings, timestamps and the GPU provenance audit are given results.
- ExecutorRound.CleanExactly: whether the device, runtime, timing and wall-time parts of a record are well formed is given; the executor writes well-formed ones.
- BenchmarkReport.RunDragonWorkload: readiness, close and collection are given results here; `DragonRun.ReportRun` reads them off the protocol, with the READY provenance audit, join and cleanup still given.
- HandleCache.CachedReadGood: paths, fingerprints and handles are numbers; the operating system hands out descriptors not in use. `create`, `read`, `write` and errors of the library while one file or the driver is closed are not modelled.
- Placements: discovery of GPUs and the Python type checks of the arguments.
- Campaign: reading and validating the manifest and running the treatments.
- The transient-chain statistics, photometry, file formats, atomic writes and command lines: numerical estimators over libraries, or I/O with easy checks.
