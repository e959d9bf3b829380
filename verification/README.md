# AdapterSlots verification

A Dafny model of the scheduling and kernel logic of a multi-LoRA serving system, with proofs of what that
logic is for. The system batches requests for many adapters: a scheduler holds decode tokens in per-adapter
queues until they fill a warp, a prefill pass admits requests against the KV cache, grouped kernels apply each
token's own low-rank update, and a vendored baseline manages paged KV blocks and merges adapters on credit.

`dafny verify dfyconfig.toml` checks the whole project.

## How it is organised

| area | modules | main results |
|---|---|---|
| grouped LoRA kernels | `Segments`, `SegmentedWrapper`, `TileMap`, `TiledGemm`, `TiledLaunch`, `PackedLora` | `PackedLora.AddLoraPackedNslice`: the tile-scheduled launches compute the per-token update; `Segments`: the run gate is exact |
| paged KV cache | `BlockTables`, `AppendNeeds`, `BlockManager`, `BlockImport`, `KvCache`, `KvEngine`, `Sequences` | `KvEngine.Engine`: the cache behaves as if each sequence owned its token list; the guards suffice; no double free |
| alignment buffer and tick | `DispatchPlan`, `DispatchRules`, `AlignmentBuffer`, `WgkpDispatcher`, `TickPlan`, `SchedulerTick`, `StableSort` | `SchedulerTick.WgkpScheduler.Tick` with `TickPlan.TickKeepsPromises`; `TickPlan.OrphansAfterTick` |
| prefill admission | `KvAccounting`, `KvRuns`, `KvAdmission`, `AdmissionOrder`, `AdmissionWaves`, `AdapterRotation` | `KvRuns.ReservedWithinLag`, `KvRuns.PassSafeIff`, `AdmissionWaves.FewestInArrivalOrder`, `AdapterRotation.RotationFreesASlot` |
| fused split-K kernel | `SplitKProtocol`, `FusedLora`, `MergedLinear` | `FusedLora.Serve`: any launches over one workspace, any interleaving; `MergedLinear.MergedIsFused` |
| caches | `AccessOrder`, `WarmCache`, `MergedWeights` | `WarmCache.LargerHitsMore`, `MergedWeights.MergedWeightCache.Insert` |
| balance and control | `ApisRouter`, `AlignmentRatios`, `PiController`, `LoopStability`, `GroupLists`, `FirstCome`, `MergeMeter`, `CreditScheduler` | `ApisRouter.RebalancedLoads`, `AlignmentRatios.SortedIsBest`, `LoopStability.SettlesExactly`, `CreditScheduler.CreditScheduler.CreditSchedule` |

`Common`, `Arithmetic` and `Sums` hold shared notions. Code that changes state is modelled by classes and
methods with loops; each is proved against a function or predicate on values, and the laws are lemmas about
those values. Numbers are exact reals; the programs of a kernel launch run in an arbitrary order; time, rates,
rankings, the base scheduler's selection and the answers of its allocator are arbitrary inputs.

## Where the code and its promises part

- A token whose group was not offered is dispatched and keeps its enqueue record
  (`adapter_slots/integrations/vllm_scheduler.py:811-819`). `TickPlan.OrphansAfterTick` says exactly when,
  `TickPlan.OrphanExample` gives a tick, `TickPlan.OrphanStarves` the consequence. All deadline results assume
  that waiting sequences are offered again.
- KV admission counts a running sequence's blocks by its length (`vllm_scheduler.py:413`), but the block of its last
  token comes one step later. `KvAccounting.AdmissionSafeIffAccounted` says exactly when every grant is safe,
  `KvRuns.ReservedWithinLag` how far a run can go wrong, `KvRuns.LagRun` gives a run in which a sequence finds no
  block although the docstring promises that nothing is recomputed, `KvRuns.RoomToFinishIff` says exactly when a
  running batch can outgrow the cache, and `KvRuns.PassSafeIff` before which passes the promise holds.
- Decode steps refresh the segment table without the run gate of prefill steps
  (`adapter_slots/kernel/segmented_punica_wrapper.py:64-67`). The table is right exactly if the runs fit the slots.
- The docstring of `_group_waiting_by_adapter` promises the fewest adapters per wave. Aged requests can break it:
  `AdmissionWaves.AgedExample`. `AdmissionWaves.FewestInArrivalOrder` gives the exact condition, on the aged requests of
  the waiting queue; with none of them (`AdmissionWaves.FewestAdapters`) it holds.
- The PI controller's documentation gives Kp > 0 as necessary for stability. `LoopStability.SettlesExactly` gives the
  exact region for gains of any sign and `LoopStability.IntegralAloneSettles` its edge Kp = 0; for positive gains,
  which the code demands, the documented bound is exact (`LoopStability.SettlesIffWithinBound`).
- `compute_gwar` and `compute_gwar_curve` differ for thresholds below 1 (0 against 1).
- `_credit_schedule` can fail an assertion. `CreditScheduler.CreditScheduler.CreditSchedule` says exactly when: the
  single active model is unmerged among several and due to be kept (`CreditScheduler.OneSlotExample`), or the step's
  models outnumber the slots under a larger capacity (`CreditScheduler.OverflowExample`). Only LoRA engines run this
  schedule (`deps/dlora/vllm/core/scheduler.py:1136-1140`), and they set the capacity to the number of active models
  (`deps/dlora/vllm/engine/llm_engine.py:123-126`), so of the two only the first is reachable, in a one-slot engine:
  `CreditScheduler.CreditScheduler.OnlyOneSlotFails`.

## Model

| member | source | states |
|---|---|---|
| `PackedLora.AddLoraPackedNslice` | adapter_slots/kernel/segmented_punica_wrapper.py:220-258 | for every batch with a faithful segment table, every slice count 1 to 3, rank and width, and every order of the programs of both launches: each output cell of a token with an adapter ends as its old value plus that token's own scaled x·A·B entry, every other cell is unchanged, and the uninitialised buffer of a prefill is never read before it is written |
| `Segments.ScatteredIsFaithful` | adapter_slots/kernel/segmented_punica_wrapper.py:91-108 | the four scatters, in any order of their writes, leave consecutive, non-overlapping, uniform segments in token order that cover exactly the tokens, provided the batch has no more runs than slots |
| `Segments.FaithfulNeedsSlots` | adapter_slots/kernel/segmented_punica_wrapper.py:71-79 | the run gate is exact: no table with fewer slots than the batch has runs can describe it |
| `Segments.TooManyRunsExample` | adapter_slots/kernel/segmented_punica_wrapper.py:102-102 | three runs on two slots: whatever the clamped scatter leaves, the table is wrong |
| `Segments.RelabelRuns` | adapter_slots/kernel/segmented_punica_wrapper.py:71-76 | counting runs on the host adapter list bounds the runs of the index tensor, whatever slots the adapters have |
| `SegmentedWrapper.Wrapper.Install` | adapter_slots/kernel/segmented_punica_wrapper.py:82-90 | a new wrapper has no segment buffers and no grouped prefill |
| `SegmentedWrapper.Wrapper.ClearSegments` | adapter_slots/kernel/segmented_punica_wrapper.py:82-96 | the segment buffers have one slot per adapter slot, all empty with adapter -1; buffers of the right size are reused |
| `SegmentedWrapper.Wrapper.RefreshSegments` | adapter_slots/kernel/segmented_punica_wrapper.py:91-108 | the refreshed table describes the batch if and only if the batch has at most as many runs as slots |
| `SegmentedWrapper.Wrapper.SlotIds` | adapter_slots/kernel/segmented_punica_wrapper.py:99-102 | cumulative run-start flags name each token's run, clamped to the last slot |
| `SegmentedWrapper.Wrapper.ScatterLengths` | adapter_slots/kernel/segmented_punica_wrapper.py:104-104 | every slot's length is the number of tokens scattered to it |
| `SegmentedWrapper.Wrapper.ScatterStarts` | adapter_slots/kernel/segmented_punica_wrapper.py:105-105 | every slot's start is its least token position, the cleared value not counted |
| `SegmentedWrapper.Wrapper.ScatterLora` | adapter_slots/kernel/segmented_punica_wrapper.py:106-107 | a slot's adapter is that of one of its tokens, and -1 for an empty slot |
| `SegmentedWrapper.Wrapper.RefreshTiles` | adapter_slots/kernel/segmented_punica_wrapper.py:110-127 | buffers sized once for 8192 tokens are kept for good, hold the whole launch of one slot per tile, adapter and one more, and receive a work list the kernels can rely on |
| `SegmentedWrapper.Wrapper.CountRuns` | adapter_slots/kernel/segmented_punica_wrapper.py:75-75 | one more than the number of neighbours that differ is the number of maximal runs |
| `SegmentedWrapper.Wrapper.UpdateMetadata` | adapter_slots/kernel/segmented_punica_wrapper.py:56-80 | grouped prefill is allowed exactly in mode 3 with 1 to 8192 tokens in at most as many runs as slots, and then everything the kernels need is ready; the unchecked decode branch is right exactly when the runs fit the slots |
| `SegmentedWrapper.Wrapper.Refresh` | adapter_slots/kernel/segmented_punica_wrapper.py:63-79 | after segments and tiles the batch is described if and only if its runs fit the slots |
| `SegmentedWrapper.TokensInOrder` | adapter_slots/kernel/segmented_punica_wrapper.py:99-105 | the segments before a slot hold no more tokens than stand before its start |
| `TileMap.BuildTileMap` | adapter_slots/kernel/tiled_segment_gemm.py:133-156 | the filled work list names every (segment, row tile) pair exactly once, empty segments included, and -1 beyond |
| `TileMap.CumSum` | adapter_slots/kernel/tiled_segment_gemm.py:146-147 | running totals of ceil(length / block) per segment |
| `TileMap.SearchSorted` | adapter_slots/kernel/tiled_segment_gemm.py:151-151 | right-sided binary search finds the first total above a position |
| `TileMap.UpperBoundIsOwner` | adapter_slots/kernel/tiled_segment_gemm.py:151-154 | the segment found for a live position owns it, and the local index is inside that segment |
| `TileMap.SlotsAreWorkList` | adapter_slots/kernel/tiled_segment_gemm.py:144-156 | the slots together are a one-to-one enumeration of all tiles |
| `TileMap.TilesPerTokens` | adapter_slots/kernel/segmented_punica_wrapper.py:114-117 | every segment adds at most one partial tile |
| `TileMap.LaunchCoversTiles` | adapter_slots/kernel/segmented_punica_wrapper.py:114-117 | all live tiles lie below ceil(n / block) + slots + 1, the launch size |
| `TiledGemm.RowOwnerUnique` | adapter_slots/kernel/tiled_segment_gemm.py:33-50 | no two programs of a column block store the same token row |
| `TiledGemm.RowOwnerExists` | adapter_slots/kernel/tiled_segment_gemm.py:33-50 | every token with an adapter has a program row inside the launch that uses its adapter |
| `TiledGemm.RowAdapter` | adapter_slots/kernel/tiled_segment_gemm.py:36-45 | a stored row is a token of the segment's adapter, never a token without one |
| `TiledGemm.StoresUnique` | adapter_slots/kernel/tiled_multislice.py:70-74 | each output cell is stored by one (tile, column block, slice) only |
| `TiledGemm.StoresExists` | adapter_slots/kernel/tiled_multislice.py:70-74 | each cell of a token with an adapter is stored by some program of the launch |
| `TiledGemm.TileDotIsKTile` | adapter_slots/kernel/tiled_segment_gemm.py:56-62 | masked or not, one K tile contributes exactly its terms of the inner product and reads nothing out of range |
| `TiledGemm.TileInRange` | adapter_slots/kernel/tiled_segment_gemm.py:56-61 | with EVEN_K no unmasked lane leaves K |
| `TiledGemm.Accumulate` | adapter_slots/kernel/tiled_segment_gemm.py:54-64 | the K loop with advancing pointers yields the share of K that belongs to this split |
| `TiledGemm.PartsAddUp` | adapter_slots/kernel/tiled_segment_gemm.py:47-64 | the shares of all splits add up to the whole inner product, for every K, block and split |
| `TiledLaunch.WrapRows` | adapter_slots/kernel/tiled_multislice.py:50-58 | wrapped row indices agree with the plain ones on every lane that is stored |
| `TiledLaunch.ShrinkTile` | adapter_slots/kernel/tiled_multislice.py:50-69 | the stored lanes of a register tile hold this split's share for their own token and column |
| `TiledLaunch.StoreTile` | adapter_slots/kernel/tiled_multislice.py:70-79 | a masked store or atomic add changes exactly the cells of its tile that lie inside segment and slice |
| `TiledLaunch.ShrinkProgram` | adapter_slots/kernel/tiled_multislice.py:32-79 | slice and split are unpacked from one grid axis; a program changes exactly its own cells |
| `TiledLaunch.PartialStep` | adapter_slots/kernel/tiled_multislice.py:74-79 | one more program adds exactly its share to the cells it owns |
| `TiledLaunch.PartialComplete` | adapter_slots/kernel/tiled_multislice.py:74-79 | when all splits have run a cell holds the whole scaled inner product |
| `TiledLaunch.ShrinkLaunch` | adapter_slots/kernel/tiled_multislice.py:23-79 | for every execution order a cell holds what the programs that own it put there, all other cells are untouched |
| `TiledLaunch.OneShareIsAll` | adapter_slots/kernel/tiled_multislice.py:119-130 | without a split one share is the whole inner product |
| `TiledLaunch.ExpandTile` | adapter_slots/kernel/tiled_multislice.py:109-131 | the stored lanes of an expand tile hold the product of their token's buffer row with B |
| `TiledLaunch.AddTile` | adapter_slots/kernel/tiled_multislice.py:132-140 | a masked store on top of the old output changes exactly its own cells |
| `TiledLaunch.ExpandProgram` | adapter_slots/kernel/tiled_multislice.py:92-140 | an expand program changes exactly the cells it owns |
| `TiledLaunch.ExpandLaunch` | adapter_slots/kernel/tiled_multislice.py:83-140 | for every execution order each output cell is written by at most one program and at most once |
| `PackedLora.RunShrink` | adapter_slots/kernel/segmented_punica_wrapper.py:243-250 | after the shrink launch every token row and slice of the buffer is written in full with the scaled x·A; rows without an adapter are untouched |
| `PackedLora.RunExpand` | adapter_slots/kernel/segmented_punica_wrapper.py:251-258 | the expand launch adds each token's x·A·B and nothing else |
| `PackedLora.DeltaIsLora` | adapter_slots/kernel/segmented_punica_wrapper.py:245-258 | shrink then expand is the per-token LoRA update of the definition |
| `PackedLora.WrittenRows` | adapter_slots/kernel/segmented_punica_wrapper.py:243-244 | every buffer cell that expand reads has been written |
| `PackedLora.NotStored` | adapter_slots/kernel/segmented_punica_wrapper.py:106-107 | the rows of tokens without an adapter are never stored |
| `PackedLora.ShrinkCfg` | adapter_slots/kernel/segmented_punica_wrapper.py:271-281 | the block sizes and the split by rank; the decode shrink always splits K |
| `PackedLora.ExpandCfg` | adapter_slots/kernel/segmented_punica_wrapper.py:284-289 | the block sizes by rank, positive for every rank |
| `BlockManager.BlockAllocator.constructor` | deps/dlora/vllm/core/block_manager.py:17-33 | all blocks free once each, all counts zero, all numbers distinct |
| `BlockManager.BlockAllocator.Allocate` | deps/dlora/vllm/core/block_manager.py:35-40 | the last free block with count one; refused exactly when none is free |
| `BlockManager.BlockAllocator.Free` | deps/dlora/vllm/core/block_manager.py:42-47 | one reference fewer; refused exactly for a block nobody refers to, and freed exactly with its last reference |
| `BlockManager.BlockSpaceManager.constructor` | deps/dlora/vllm/core/block_manager.py:60-79 | empty tables, all blocks free |
| `BlockManager.BlockSpaceManager.Allocate` | deps/dlora/vllm/core/block_manager.py:81-106 | refused exactly when the first sequence's blocks are not free; can_allocate holds exactly when they are and the watermark is still free afterwards; otherwise all sequences share one table of fresh blocks and the counts are the occurrences |
| `BlockManager.BlockSpaceManager.Publish` | deps/dlora/vllm/core/block_manager.py:104-106 | giving every sequence its copy of the table accounts for all counts set in advance |
| `BlockManager.BlockSpaceManager.AppendSlot` | deps/dlora/vllm/core/block_manager.py:115-139 | fails exactly when a block is needed and none is free; afterwards the last block is on the GPU and in no other table |
| `BlockManager.BlockSpaceManager.Grow` | deps/dlora/vllm/core/block_manager.py:120-125 | a fresh private block at the end of the table |
| `BlockManager.BlockSpaceManager.ReplaceLast` | deps/dlora/vllm/core/block_manager.py:133-139 | copy on write: a fresh block takes the place of the shared one, which loses one reference |
| `BlockManager.BlockSpaceManager.AppendSlots` | deps/dlora/vllm/core/scheduler.py:1231-1243 | one slot for each of k sequences runs out exactly when the step needs more blocks than are free, and takes exactly those; k free blocks are always enough, even if all share their last block |
| `AppendNeeds.CopiersAre` | deps/dlora/vllm/core/block_manager.py:126-139 | of the sequences of a step that write on into a block each copies it, but for one if nobody else refers to the block |
| `AppendNeeds.PendingNext` | deps/dlora/vllm/core/block_manager.py:115-139 | whether the next append of a step takes a block is told by the tables before the step |
| `AppendNeeds.AllRoomed` | deps/dlora/vllm/core/scheduler.py:1236-1243 | after the appends of a step every sequence of the given status has a table long enough, ending in a GPU block of its own |
| `BlockTables.WithStatusCount` | deps/dlora/vllm/sequence.py:217-227 | one sequence for each place of the group with that status |
| `BlockTables.WithStatusOrder` | deps/dlora/vllm/sequence.py:217-227 | in the group's order |
| `BlockManager.BlockSpaceManager.AppendGroup` | deps/dlora/vllm/core/scheduler.py:1231-1243 | behind can_append_slot, which counts the running sequences of the group, no append runs out of blocks, even if all share their last one; afterwards every running sequence has a table long enough, ending in a GPU block that is in no other table |
| `BlockManager.BlockSpaceManager.Fork` | deps/dlora/vllm/core/block_manager.py:141-147 | the child's table is the parent's, with every count raised; no block is allocated |
| `BlockManager.BlockSpaceManager.SwapOut` | deps/dlora/vllm/core/scheduler.py:1312-1327 | refused exactly when the distinct blocks are not free on the CPU, and then nothing has changed; otherwise tables are renamed one to one to CPU blocks, GPU references are dropped |
| `BlockManager.BlockSpaceManager.SwapInAndAppend` | deps/dlora/vllm/core/scheduler.py:1302-1310 | behind can_swap_in, which counts the swapped sequences, the swap-in and one append per swapped sequence never run out; afterwards every swapped sequence has a table long enough, ending in a GPU block that is in no other table |
| `BlockManager.BlockSpaceManager.MoveGroup` | deps/dlora/vllm/core/block_manager.py:172-228 | moving a group succeeds exactly when its distinct blocks are free on the target device |
| `BlockManager.BlockSpaceManager.MoveTable` | deps/dlora/vllm/core/block_manager.py:178-191 | moving a table succeeds exactly when its not yet moved blocks fit |
| `BlockManager.BlockSpaceManager.MoveBlock` | deps/dlora/vllm/core/block_manager.py:181-190 | a block met before is shared again, a new one is fresh; the old reference is dropped |
| `BlockManager.BlockSpaceManager.FreeBlockTable` | deps/dlora/vllm/core/block_manager.py:230-235 | every reference of a counted table can be dropped: no double free |
| `BlockManager.BlockSpaceManager.FreeSeq` | deps/dlora/vllm/core/block_manager.py:237-243 | the table goes, the others stay; nothing happens for an unknown sequence |
| `BlockManager.BlockSpaceManager.Reset` | deps/dlora/vllm/core/block_manager.py:245-248 | no tables, and all blocks free again |
| `BlockTables.RefsExclusive` | deps/dlora/vllm/core/block_manager.py:130-132 | a block with count one is in no second table |
| `BlockImport.Import` | deps/dlora/vllm/core/block_manager.py:276-290 | succeeds exactly when the distinct exported numbers fit; every table stands for its numbers |
| `BlockImport.Reproduce` | deps/dlora/vllm/core/block_manager.py:250-274 | on the GPU exactly if the distinct numbers fit there, else on the CPU |
| `BlockImport.ImportKeepsSharing` | deps/dlora/vllm/core/block_manager.py:250-290 | imported tables share a block at two positions exactly where the exported numbers are equal, and share none with older tables |
| `KvCache.AppendKeeps` | deps/dlora/vllm/core/block_manager.py:115-139 | append_slot with its copy leaves every sequence's tokens readable |
| `KvCache.CopiesCommute` | deps/dlora/vllm/core/scheduler.py:1231-1243 | the copies of a step neither read nor overwrite each other's targets, so their order does not matter |
| `KvCache.ChainKeeps` | deps/dlora/vllm/core/scheduler.py:1231-1243 | after all appends and copies of a step every sequence is readable and has a private slot |
| `AppendNeeds.SoleStays` | deps/dlora/vllm/core/block_manager.py:130-132 | a block held alone stays so through the appends of others |
| `KvCache.WriteKeeps` | deps/dlora/vllm/sequence.py:147-155 | writing the new token in the private slot extends that sequence and no other |
| `KvCache.PrefillKeeps` | deps/dlora/vllm/core/block_manager.py:91-106 | a prefill stores the prompt for the whole group and disturbs nobody |
| `KvCache.ForkKeeps` | deps/dlora/vllm/core/block_manager.py:141-147 | after a fork parent and child read the same tokens |
| `KvCache.SwapKeeps` | deps/dlora/vllm/core/block_manager.py:172-228 | after a swap every sequence, moved or not, reads the same tokens |
| `KvCache.SwapKeepsSharing` | deps/dlora/vllm/core/block_manager.py:172-228 | two positions share a block after a swap exactly if they did before |
| `KvEngine.PresentsMeans` | deps/dlora/vllm/core/block_manager.py:53-79 | reading entry i through block i / size at offset i mod size gives token i of the sequence's own list |
| `KvEngine.StepOnValues` | deps/dlora/vllm/core/scheduler.py:1231-1243 | copies first, then writes: a step appends one token to each scheduled sequence and changes nothing else |
| `KvEngine.Engine.constructor` | deps/dlora/vllm/core/block_manager.py:60-79 | nothing stored |
| `KvEngine.Engine.Prefill` | deps/dlora/vllm/core/block_manager.py:91-106 | all new sequences store the prompt; refused exactly when the blocks are not free, and can_allocate holds exactly when the watermark is free afterwards |
| `KvEngine.Engine.Decode` | deps/dlora/vllm/core/scheduler.py:1231-1243 | every scheduled sequence has one token more, all others the same list; the step fails exactly when it needs more blocks than are free, so never with a free block per sequence |
| `KvEngine.Engine.Fork` | deps/dlora/vllm/core/block_manager.py:141-147 | the child stores the parent's tokens |
| `KvEngine.Engine.FreeSeq` | deps/dlora/vllm/core/block_manager.py:237-243 | only that sequence is forgotten |
| `KvEngine.Engine.Swap` | deps/dlora/vllm/core/block_manager.py:172-228 | no stored list changes, in either direction |
| `Sequences.LogicalTokenBlock.AppendTokens` | deps/dlora/vllm/block.py:36-40 | the tokens go behind the block's contents |
| `Sequences.Sequence.constructor` | deps/dlora/vllm/sequence.py:102-122 | the logical blocks hold exactly the prompt, in as few blocks as it fits in |
| `Sequences.Sequence.AppendTokensToBlocks` | deps/dlora/vllm/sequence.py:131-145 | the blocks hold the old tokens and then the new ones; all but the last are full and none is empty |
| `Sequences.Sequence.AppendChunk` | deps/dlora/vllm/sequence.py:133-145 | one turn of the cursor loop stores the next tokens that fit and moves the cursor past them |
| `Sequences.Sequence.AppendLogicalBlock` | deps/dlora/vllm/sequence.py:124-129 | a new empty block at the end |
| `Sequences.Sequence.AppendTokenId` | deps/dlora/vllm/sequence.py:147-155 | one token more, in ceil(length / size) blocks |
| `Sequences.Sequence.Fork` | deps/dlora/vllm/sequence.py:178-182 | the child is a deep copy: same tokens, no shared block |
| `Sequences.FlatLength` | deps/dlora/vllm/sequence.py:131-145 | the number of logical blocks is ceil(length / size), which is what append_slot relies on |
| `DispatchPlan.Wanted` | adapter_slots/buffer.py:279-305 | no rule takes more than the queue or the budget has |
| `DispatchPlan.BatchIsGathered` | adapter_slots/buffer.py:266-318 | a batch is, in rank order, one FIFO prefix of each visited queue |
| `DispatchPlan.PromotedAreMerged` | adapter_slots/buffer.py:282-297 | only non-empty segments of resident adapters that reached W or n* are promoted |
| `DispatchPlan.EnoughIsAmple` | adapter_slots/buffer.py:282-305 | budget for the whole queue is as good as no budget |
| `DispatchPlan.AmpleBudget` | adapter_slots/integrations/vllm_scheduler.py:793-801 | a budget of all waiting tokens constrains no queue |
| `DispatchPlan.AmpleLeaves` | adapter_slots/buffer.py:282-305 | with an ample budget less than a warp stays behind, and nothing of an expired short queue |
| `DispatchRules.RoundIsNearest` | adapter_slots/buffer.py:263-263 | the share of a warp is the integer nearest to W / adapters, the even one of two |
| `DispatchRules.NearestUnique` | adapter_slots/buffer.py:263-263 | there is only one such integer |
| `DispatchRules.AmpleKeeps` | adapter_slots/buffer.py:282-305 | with budget for it a queue of a warp keeps what does not fill one, a shorter one leaves whole exactly if a rule releases it |
| `DispatchRules.BatchFlags` | adapter_slots/buffer.py:282-297 | under any budget a token is promoted exactly if its adapter is resident and its queue had reached W or n* |
| `DispatchPlan.ExpiredGoneByNextTick` | adapter_slots/buffer.py:282-305 | with an ample budget a token older than T_SLO at one tick has left by the end of the next, for every dispatch rule |
| `DispatchPlan.ExpiredRemainderExample` | adapter_slots/buffer.py:282-286 | the grace of one tick is needed: a full-warp dispatch can leave an expired remainder |
| `AlignmentBuffer.AlignmentBuffer.constructor` | adapter_slots/buffer.py:38-66 | empty queues for the given adapters |
| `AlignmentBuffer.AlignmentBuffer.RegisterAdapter` | adapter_slots/buffer.py:68-73 | idempotent; a new adapter gets an empty queue |
| `AlignmentBuffer.AlignmentBuffer.Enqueue` | adapter_slots/buffer.py:75-94 | a sequence with a record keeps its place and time; a new one goes behind its adapter's queue |
| `AlignmentBuffer.AlignmentBuffer.Release` | adapter_slots/buffer.py:101-103 | only the record goes |
| `AlignmentBuffer.AlignmentBuffer.Remove` | adapter_slots/integrations/vllm_scheduler.py:1056-1062 | the sequence leaves its queue wherever it stands; the other queues and all records stay |
| `AlignmentBuffer.AlignmentBuffer.Pop` | adapter_slots/buffer.py:310-313 | the oldest tokens leave, and the queue's time is that of its new head |
| `AlignmentBuffer.AlignmentBuffer.Dispatch` | adapter_slots/buffer.py:266-318 | the loop with its early exits dispatches what the plan on values says and leaves the rest in order |
| `AlignmentBuffer.AlignmentBuffer.FirstRule` | adapter_slots/buffer.py:279-305 | of the rules in their order the first that applies decides how many tokens leave, their flag, and whether the loop stops |
| `AlignmentBuffer.AlignmentBuffer.FormBatchWgkp` | adapter_slots/buffer.py:220-318 | with a budget for all visited tokens, told of each queue alone: n* is capped at the integer nearest to W / adapters, ties to even, and is at least 1; a queue shorter than W leaves whole exactly if it has n* tokens, or half of that and half its deadline has passed, or its deadline has, the deadline being its own capped at T_SLO; a longer one keeps less than W; a token is promoted exactly if its adapter is resident and its queue had n* or W. With any budget, the batch, queues and times of the plan |
| `AlignmentBuffer.AlignmentBuffer.FormBatch` | adapter_slots/buffer.py:105-163 | one global deadline capped at T_SLO, queues in insertion order; with a budget for all tokens every queue keeps what does not fill a warp, and a queue shorter than that leaves exactly at its deadline |
| `AlignmentBuffer.AlignmentBuffer.FormBatchDeadlines` | adapter_slots/buffer.py:415-479 | the same with per-adapter deadlines capped at T_SLO, in any duplicate-free visiting order |
| `AlignmentBuffer.RemainingAt` | adapter_slots/buffer.py:310-313 | after a dispatch every visited queue has lost exactly its own prefix |
| `WgkpDispatcher.WgkpDispatcher.SegmentAndPromote` | adapter_slots/kernel/wgkp_dispatcher.py:49-106 | raises exactly for a run with mixed flags; otherwise returns the run-length encoding of the batch and counts its tokens |
| `WgkpDispatcher.WgkpDispatcher.PromotionFraction` | adapter_slots/kernel/wgkp_dispatcher.py:108-112 | promoted over dispatched tokens, 0 before the first |
| `WgkpDispatcher.RleUnique` | adapter_slots/kernel/wgkp_dispatcher.py:75-106 | a batch has one encoding into maximal segments |
| `WgkpDispatcher.RleIsUniform` | adapter_slots/kernel/wgkp_dispatcher.py:84-91 | a batch that can be encoded has no mixed run |
| `WgkpDispatcher.DispatchedBatchSegments` | adapter_slots/kernel/wgkp_dispatcher.py:69-106 | on every dispatched batch segmentation never raises: one segment per dispatched adapter in rank order, each the taken FIFO prefix |
| `TickPlan.EnterAll` | adapter_slots/integrations/vllm_scheduler.py:760-772 | entering the first-timers moves nobody who waits and puts the new ones behind, recorded now |
| `TickPlan.DispatchParts` | adapter_slots/integrations/vllm_scheduler.py:795-801 | a dispatch parts the waiting sequences into the batch, each once, and those who wait on |
| `TickPlan.TickOutcome` | adapter_slots/integrations/vllm_scheduler.py:748-833 | who has a record and who waits after a tick, and since when; aligned sequences never have a record |
| `TickPlan.TickRuns` | adapter_slots/integrations/vllm_scheduler.py:827-840 | the scheduled list has no duplicates, contains every prefill and every already aligned group, nothing that was not offered, and is not empty if a decode group was offered |
| `TickPlan.OmittedKeepWaiting` | adapter_slots/integrations/vllm_scheduler.py:760-840 | a group left out keeps its record and first time, and its place unless it was an orphan |
| `TickPlan.OrphansAfterTick` | adapter_slots/integrations/vllm_scheduler.py:811-819 | a record without a place appears exactly when a dispatched token's group was not offered, and goes only by a drain |
| `TickPlan.OrphanStarves` | adapter_slots/integrations/vllm_scheduler.py:827-840 | an orphan is passed over for as long as the step is not empty without it |
| `TickPlan.OrphanExample` | adapter_slots/integrations/vllm_scheduler.py:811-819 | a concrete tick that makes an orphan |
| `TickPlan.AllOffered` | adapter_slots/integrations/vllm_scheduler.py:811-819 | if every waiting sequence is offered, every dispatched token is aligned |
| `TickPlan.BudgetSuffices` | adapter_slots/integrations/vllm_scheduler.py:793-801 | then the tick's budget covers all waiting tokens |
| `TickPlan.ReofferedShort` | adapter_slots/integrations/vllm_scheduler.py:793-801 | then every queue ends the tick shorter than a warp |
| `TickPlan.ReofferedExpired` | adapter_slots/integrations/vllm_scheduler.py:793-801 | then whoever was over T_SLO before the tick runs in it |
| `TickPlan.ReofferedTick` | adapter_slots/integrations/vllm_scheduler.py:723-840 | re-offering keeps the buffer free of orphans and its queues shorter than a warp, tick after tick |
| `TickPlan.TickKeepsPromises` | adapter_slots/integrations/vllm_scheduler.py:723-840 | all promises of a tick together: no duplicates, nothing lost, original times, never empty, deadlines |
| `SchedulerTick.WgkpScheduler.constructor` | adapter_slots/integrations/vllm_scheduler.py:123-250 | nothing aligned, nothing buffered |
| `SchedulerTick.WgkpScheduler.ForgetStale` | adapter_slots/integrations/vllm_scheduler.py:737-746 | aligned sequences that left the running set are forgotten; the buffer does not change |
| `SchedulerTick.WgkpScheduler.SplitByAlignment` | adapter_slots/integrations/vllm_scheduler.py:748-755 | already aligned and first-time groups, each in offered order |
| `SchedulerTick.WgkpScheduler.EnqueueFirst` | adapter_slots/integrations/vllm_scheduler.py:760-772 | the first-timers are in the buffer, in order |
| `SchedulerTick.WgkpScheduler.Dispatch` | adapter_slots/integrations/vllm_scheduler.py:793-808 | the batch of the plan and its segments; the ValueError branch is dead |
| `SchedulerTick.WgkpScheduler.AlignedOf` | adapter_slots/integrations/vllm_scheduler.py:811-816 | the dispatched groups that were offered, in batch order |
| `SchedulerTick.WgkpScheduler.AlignOne` | adapter_slots/integrations/vllm_scheduler.py:817-819 | one sequence aligned, its record dropped |
| `SchedulerTick.WgkpScheduler.AlignAll` | adapter_slots/integrations/vllm_scheduler.py:813-819 | aligned, and their records dropped |
| `SchedulerTick.WgkpScheduler.DrainRemaining` | adapter_slots/integrations/vllm_scheduler.py:1047-1063 | the groups not dispatched leave their queues and run |
| `SchedulerTick.WgkpScheduler.DrainIfEmpty` | adapter_slots/integrations/vllm_scheduler.py:827-835 | held groups run only in a step that would be empty |
| `SchedulerTick.WgkpScheduler.Advance` | adapter_slots/integrations/vllm_scheduler.py:748-840 | a tick with decode groups is the tick on values |
| `SchedulerTick.WgkpScheduler.Tick` | adapter_slots/integrations/vllm_scheduler.py:723-862 | every tick keeps the invariant and all promises, whatever the base scheduler selects |
| `StableSort.Sort` | adapter_slots/integrations/vllm_scheduler.py:837-837 | sorting by a key is stable and a permutation |
| `StableSort.AscendingUnique` | adapter_slots/integrations/vllm_scheduler.py:357-359 | without equal keys there is one ascending arrangement |
| `StableSort.SortedUnique` | adapter_slots/integrations/vllm_scheduler.py:376-380 | a stable sort by a key has one result |
| `KvAccounting.OwedIs` | adapter_slots/integrations/vllm_scheduler.py:409-413 | the growth the scheduler counts is the lifetimes minus what is held, up to the accounting lag |
| `KvAccounting.AdmissionSafeIffAccounted` | adapter_slots/integrations/vllm_scheduler.py:413-414 | every grant within the headroom keeps all lifetimes inside the cache if and only if the lag is not positive (or there is no headroom) |
| `KvAccounting.LagExample` | adapter_slots/integrations/vllm_scheduler.py:413-413 | a sequence one block behind its length: a grant then exhausts the cache |
| `KvAccounting.RoomToGrow` | adapter_slots/integrations/vllm_scheduler.py:396-405 | while reserved lifetimes fit, a sequence that still has to grow and waits for a block finds one |
| `KvAccounting.PeaksBetween` | adapter_slots/integrations/vllm_scheduler.py:396-405 | held blocks are within the most each sequence can come to hold, and that is within its lifetime |
| `KvAccounting.MissesIff` | adapter_slots/integrations/vllm_scheduler.py:396-405 | a decode step misses a block exactly when more of its sequences ask for one than are free |
| `KvAccounting.AdvancedKeeps` | adapter_slots/integrations/vllm_scheduler.py:396-405 | a decode step takes exactly the blocks asked for, reserves nothing and raises no peak |
| `KvAccounting.CellsMean` | adapter_slots/integrations/vllm_scheduler.py:414-429 | the headroom cell is the first headroom minus everything granted, whether or not it was then admitted |
| `KvAdmission.Admission.Headroom` | adapter_slots/integrations/vllm_scheduler.py:409-414 | free blocks minus the growth owed |
| `KvAdmission.Admission.LifetimeOf` | adapter_slots/integrations/vllm_scheduler.py:396-405 | the blocks a group may come to hold |
| `KvAdmission.Admission.CanAllocate` | adapter_slots/integrations/vllm_scheduler.py:418-429 | grants exactly what the stock allocator grants and the headroom covers, or one request when nothing runs; for one request that is ceil(length / block size) blocks for the prompt and max_tokens, or without max_tokens for the whole model length |
| `KvAdmission.Admission.Start` | adapter_slots/integrations/vllm_scheduler.py:396-405 | an admitted group takes its prompt blocks and reserves its lifetime; while the lifetimes fit, no more blocks are taken than there are |
| `KvAdmission.Admission.Offer` | adapter_slots/integrations/vllm_scheduler.py:418-429 | one waiting group, asked for and possibly taken: the answer, the cells after it, and exactly its sequences join |
| `KvAdmission.Admission.SchedulePrefills` | adapter_slots/integrations/vllm_scheduler.py:396-434 | a whole pass over the waiting queue, whatever the running sequences lag: the answers, and exactly the groups granted and taken start |
| `KvAdmission.Admission.AppendSlot` | adapter_slots/integrations/vllm_scheduler.py:396-405 | the block for the last token, one step after the token; it fails exactly when a block is needed and none is free |
| `KvAdmission.Admission.TakeTurn` | adapter_slots/integrations/vllm_scheduler.py:396-405 | a sequence that gets its slot and runs is one token longer unless it has reached prompt and max_tokens, or without max_tokens the model length; it finds no block exactly when it asks for one and none is free |
| `KvAdmission.Admission.DecodeStep` | adapter_slots/integrations/vllm_scheduler.py:396-405 | each sequence in turn gets its slot and then its token, some are left out of the batch; the step stops exactly at the first that finds no block |
| `KvAdmission.Admission.Finish` | adapter_slots/integrations/vllm_scheduler.py:396-405 | a finished sequence gives back exactly its blocks |
| `KvAdmission.Admission.Serve` | adapter_slots/integrations/vllm_scheduler.py:396-434 | every run of admission passes, decode steps and finishes is the run on values, and it reports a missed block exactly when that run misses one |
| `KvRuns.PassKeeps` | adapter_slots/integrations/vllm_scheduler.py:406-429 | a pass that grants leaves the lifetimes within the cache plus the lag it found, if each group fits the cache alone; a pass that grants nothing reserves nothing |
| `KvRuns.ReservedWithinLag` | adapter_slots/integrations/vllm_scheduler.py:396-434 | over every run of groups that each fit the cache alone, whatever the stock allocator answers: the reserved lifetimes never exceed the cache by more than the lag at the last pass that granted |
| `KvRuns.NoLagNoMiss` | adapter_slots/integrations/vllm_scheduler.py:396-405 | a run of such groups whose granting passes found nobody a block behind never misses a block, so nothing is recomputed |
| `KvRuns.RoomToFinishIff` | adapter_slots/integrations/vllm_scheduler.py:396-405 | the running sequences always have room to finish, whatever decode steps and finishes follow, if and only if the most blocks they can come to hold fit the cache together |
| `KvRuns.PassPeaks` | adapter_slots/integrations/vllm_scheduler.py:406-429 | no pass raises the most blocks the running sequences can come to hold by more than the headroom it finds |
| `KvRuns.PassSafeIff` | adapter_slots/integrations/vllm_scheduler.py:396-429 | the promise as a condition on the state before a pass: whatever it admits, the running sequences then have room to finish, if and only if, with headroom, the blocks they lag behind are no more than their lifetimes exceed the most they can come to hold, and without headroom that most fits the cache |
| `KvRuns.LagRun` | adapter_slots/integrations/vllm_scheduler.py:413-413 | from an empty engine, a run that misses a block: the pass that granted found one sequence a block behind |
| `AdmissionOrder.GroupByAdapter` | adapter_slots/integrations/vllm_scheduler.py:363-380 | the queue sorted by the tuple key, stably |
| `AdmissionOrder.GroupedMeans` | adapter_slots/integrations/vllm_scheduler.py:363-380 | whoever has waited max_wait first, by arrival; then each adapter in one stretch, adapters with more requests first and of equal ones the lower, each by arrival |
| `AdmissionOrder.OrderedIsFewest` | adapter_slots/integrations/vllm_scheduler.py:366-370 | if each adapter stands in one stretch and longer queues come first, no choice of n requests draws on fewer adapters than the first n |
| `AdmissionWaves.FewestIffOrdered` | adapter_slots/integrations/vllm_scheduler.py:366-370 | an order of the waiting requests gives every wave the fewest adapters if and only if each adapter stands in one stretch and longer queues come first |
| `AdmissionWaves.Front` | adapter_slots/integrations/vllm_scheduler.py:371-380 | the grouped queue starts with exactly the aged requests, by arrival |
| `AdmissionWaves.FewestIffAgedFit` | adapter_slots/integrations/vllm_scheduler.py:363-380 | the docstring's claim holds of a queue, aged requests included, if and only if its aged requests fit: each aged adapter in one stretch, longer queues first, no other request of an aged adapter but the last, and that one ahead of every other adapter |
| `AdmissionWaves.FewestInArrivalOrder` | adapter_slots/integrations/vllm_scheduler.py:363-380 | the same for the queue the scheduler keeps, in arrival order: the condition is on its aged requests as they stand |
| `AdmissionWaves.FewestAdapters` | adapter_slots/integrations/vllm_scheduler.py:366-370 | if nobody is aged, no choice of n waiting requests draws on fewer adapters than the first n of the grouped queue |
| `AdmissionWaves.AgedExample` | adapter_slots/integrations/vllm_scheduler.py:376-379 | with an aged request in front the claim can fail |
| `AdapterRotation.AdmissionQueue.RotationHoldout` | adapter_slots/integrations/vllm_scheduler.py:314-346 | who holds back: whoever did and is still resident, else the resident adapter with the fewest waiting requests once every slot is taken and a request without a slot has waited long enough |
| `AdapterRotation.AdmissionQueue.Survey` | adapter_slots/integrations/vllm_scheduler.py:331-340 | waiting requests per adapter, and the first arrival for every adapter without a slot |
| `AdapterRotation.AdmissionQueue.SchedulePrefillsRotated` | adapter_slots/integrations/vllm_scheduler.py:382-394 | no request of a held-back adapter is admitted and no request is lost |
| `AdapterRotation.AdmissionQueue.SchedulePrefills` | adapter_slots/integrations/vllm_scheduler.py:348-361 | the pass sees the grouped queue, in whatever order the requests stand; afterwards a queue that was sorted for the pass is in arrival order, and the waiting requests are the old ones without the admitted ones |
| `AdapterRotation.OneAtATime` | adapter_slots/integrations/vllm_scheduler.py:343-346 | at most one adapter holds back, and it is resident |
| `AdapterRotation.HoldsUntilGone` | adapter_slots/integrations/vllm_scheduler.py:328-328 | it holds back until it has left the batch |
| `AdapterRotation.HolderLeaves` | adapter_slots/integrations/vllm_scheduler.py:317-328 | the adapter that holds back leaves once each of its own running sequences has run more often than it had steps left |
| `AdapterRotation.RotationFreesASlot` | adapter_slots/integrations/vllm_scheduler.py:317-322 | with every slot taken and a starved request, some adapter leaves the batch by the time every running sequence has run more often than it had steps left, whatever else arrives and whoever sits out |
| `AdapterRotation.RotationFreesASlotWithin` | adapter_slots/integrations/vllm_scheduler.py:317-322 | within n h ticks, if the sequences have fewer than n steps left and each runs at least once in any h ticks |
| `AdapterRotation.SittingOutExample` | adapter_slots/integrations/vllm_scheduler.py:723-840 | the number of ticks alone is no bound: a sequence on its last step that the buffer holds keeps its adapter's slot |
| `SplitKProtocol.NextKeeps` | adapter_slots/kernel/fused_lora_kernel.py:182-197 | every atomic step of every program, in any interleaving, keeps the per-tile invariant |
| `SplitKProtocol.AddKeeps` | adapter_slots/kernel/fused_lora_kernel.py:188-188 | an atomic add to the workspace |
| `SplitKProtocol.ArriveKeeps` | adapter_slots/kernel/fused_lora_kernel.py:190-192 | the arrival counter singles out exactly the last program |
| `SplitKProtocol.WriteKeeps` | adapter_slots/kernel/fused_lora_kernel.py:194-196 | the last arriver writes a cell with the full sum and zeroes the workspace behind it |
| `SplitKProtocol.ClearKeeps` | adapter_slots/kernel/fused_lora_kernel.py:197-197 | the counter is reset after the tile is written |
| `SplitKProtocol.StoreKeeps` | adapter_slots/kernel/fused_lora_kernel.py:184-185 | without a split the one program stores its cells directly |
| `SplitKProtocol.NextProgress` | adapter_slots/kernel/fused_lora_kernel.py:182-197 | every step brings the launch closer to its end |
| `SplitKProtocol.LaunchedInv` | adapter_slots/kernel/fused_lora_kernel.py:202-204 | a launch over zeroed scratch memory starts in the invariant |
| `SplitKProtocol.LaunchDone` | adapter_slots/kernel/fused_lora_kernel.py:140-144 | when all programs are done every cell was written exactly once with the sum over all slices, and the scratch memory is zero again |
| `SplitKProtocol.Workspace.Ensure` | adapter_slots/kernel/fused_lora_kernel.py:207-214 | buffers grow on demand and stay zeroed; large enough ones are kept |
| `SplitKProtocol.Workspace.Launch` | adapter_slots/kernel/fused_lora_kernel.py:157-197 | a launch terminates under every schedule with every cell written once and the scratch memory zero |
| `FusedLora.SlicesOfDot` | adapter_slots/kernel/fused_lora_kernel.py:157-172 | K slices in whole blocks cover K exactly, ragged ends included |
| `FusedLora.SlicesOfRank` | adapter_slots/kernel/fused_lora_kernel.py:140-142 | the LoRA term is linear in H: the slices' expansions add up |
| `FusedLora.RefIs` | adapter_slots/kernel/fused_lora_kernel.py:56-72 | the masked sums of the kernel are the CPU reference on the rows themselves |
| `FusedLora.EntryIs` | adapter_slots/kernel/fused_lora_kernel.py:157-172 | a masked load gives the entry inside the matrix and zero elsewhere |
| `FusedLora.SlicesAddUp` | adapter_slots/kernel/fused_lora_kernel.py:56-72 | all slices of a cell together give the CPU reference |
| `FusedLora.SliceTile` | adapter_slots/kernel/fused_lora_kernel.py:150-180 | the K loop of a program leaves its slice's share in every lane, alpha folded into H |
| `FusedLora.RunPrograms` | adapter_slots/kernel/fused_lora_kernel.py:136-180 | the K loops of all programs leave every slice's share of every tile in the registers |
| `FusedLora.LaneAdds` | adapter_slots/kernel/fused_lora_kernel.py:182-190 | a masked-in lane of a program's registers is what the launch adds to its own address, inside its own tile's counter, and it is the slice's share of that cell |
| `FusedLora.LaunchAdds` | adapter_slots/kernel/fused_lora_kernel.py:182-190 | every cell has its lane in every slice, and what the launch adds there is that slice's share |
| `FusedLora.LanesAreTile` | adapter_slots/kernel/fused_lora_kernel.py:187-191 | the cells counted under a tile number are exactly the lanes of that tile |
| `FusedLora.GridValid` | adapter_slots/kernel/fused_lora_kernel.py:187-191 | every cell has one tile in the grid |
| `FusedLora.TilesFit` | adapter_slots/kernel/fused_lora_kernel.py:294-295 | the counters sized for 16 x 32 tiles suffice for every configuration of no smaller tiles |
| `FusedLora.TunedBlocks` | adapter_slots/kernel/fused_lora_kernel.py:75-112 | the tiles of every configuration the autotuner may pick for the batch are no smaller |
| `FusedLora.Forward` | adapter_slots/kernel/fused_lora_kernel.py:278-331 | for every valid configuration of tiles no smaller than 16 x 32: the launch adds the registers the K loops left, Y equals the CPU reference x W^T + alpha (x A^T) B^T and each cell is stored once, on a warm or cold workspace |
| `FusedLora.Serve` | adapter_slots/kernel/fused_lora_kernel.py:202-214 | launches of any shapes one after the other over one workspace, with no memset, all give their references |
| `MergedLinear.MergedIsFused` | adapter_slots/kernel/l3.py:196-206 | X (W + alpha B A)ᵀ equals X Wᵀ + alpha (X Aᵀ) Bᵀ, cell by cell |
| `MergedLinear.PromotableAdapter` | adapter_slots/kernel/l3.py:240-247 | an adapter is promotable exactly if the step has at least n* tokens, all of that one adapter; for n* positive or a non-empty step |
| `MergedLinear.PromotedStepIsExact` | adapter_slots/kernel/l3.py:72-79 | a promoted step gives every token its own adapter's output |
| `MergedWeights.MergedWeightCache.constructor` | adapter_slots/kernel/l3.py:126-134 | nothing requested, nothing resident, not sized yet |
| `MergedWeights.MergedWeightCache.Request` | adapter_slots/kernel/l3.py:138-144 | a load starts exactly if the cache is on and the adapter is neither requested nor resident |
| `MergedWeights.MergedWeightCache.LoadDone` | adapter_slots/kernel/l3.py:168-169 | the adapter moves from in flight to loaded |
| `MergedWeights.MergedWeightCache.TakeLoaded` | adapter_slots/kernel/l3.py:185-188 | the adapter loaded last is taken for merging |
| `MergedWeights.MergedWeightCache.Size` | adapter_slots/kernel/l3.py:173-178 | at most K_hot and at most what fits |
| `MergedWeights.MergedWeightCache.Disable` | adapter_slots/kernel/l3.py:191-195 | a cache without room forgets all requests |
| `MergedWeights.MergedWeightCache.EvictFirst` | adapter_slots/kernel/l3.py:209-210 | the victim may be requested again |
| `MergedWeights.MergedWeightCache.MakeRoom` | adapter_slots/kernel/l3.py:208-210 | at most one eviction makes room, of the least recently inserted or fetched |
| `MergedWeights.MergedWeightCache.Place` | adapter_slots/kernel/l3.py:211-212 | the merged adapter becomes the most recent resident |
| `MergedWeights.MergedWeightCache.Insert` | adapter_slots/kernel/l3.py:207-212 | no resident adapter is merged again; residents never exceed the size; requested stays the disjoint union of in flight, loaded, merging and resident |
| `MergedWeights.MergedWeightCache.Get` | adapter_slots/kernel/l3.py:214-220 | a fetch makes the adapter the most recent and changes no membership |
| `WarmCache.RecencyOrdered` | adapter_slots/prefetch/cache_manager.py:84-90 | exactly the adapters of the trace, each once, by its last access |
| `WarmCache.AccessIsLast` | adapter_slots/prefetch/cache_manager.py:84-97 | one LRU access keeps the last k distinct adapters in access order |
| `WarmCache.LargerContains` | adapter_slots/prefetch/cache_manager.py:179-203 | on every trace a larger LRU cache contains a smaller one |
| `WarmCache.LargerHitsMore` | adapter_slots/prefetch/cache_manager.py:84-97 | on every trace more capacity never costs hits |
| `WarmCache.Replay` | adapter_slots/prefetch/cache_manager.py:60-97 | a request-only trace has exactly these hits and ends with the last k distinct adapters |
| `WarmCache.WarmCacheManager.constructor` | adapter_slots/prefetch/cache_manager.py:31-56 | an empty warm set |
| `WarmCache.WarmCacheManager.ChooseEviction` | adapter_slots/prefetch/cache_manager.py:194-224 | the oldest; with known rates under topk the first of the lowest rate, under predictive that of the lowest score, ties by name |
| `WarmCache.WarmCacheManager.Load` | adapter_slots/prefetch/cache_manager.py:179-192 | the adapter joins as the most recent, a full set loses its victim |
| `WarmCache.WarmCacheManager.Request` | adapter_slots/prefetch/cache_manager.py:60-97 | warm exactly if in the set; one more hit or miss for that adapter alone, the cost and the new order |
| `WarmCache.WarmCacheManager.Prefetch` | adapter_slots/prefetch/cache_manager.py:99-113 | loads exactly a cold adapter; a warm one keeps its place |
| `WarmCache.WarmCacheManager.Touch` | adapter_slots/prefetch/cache_manager.py:86-87 | to the most recently used end |
| `ApisRouter.DealtDifference` | adapter_slots/integrations/apis_router.py:51-52 | dealing sorted rates round-robin, a lower shard leads a higher one by no more than the rates dealt so far allow |
| `ApisRouter.LoadsBalanced` | adapter_slots/integrations/apis_router.py:51-52 | for shards i < j, 0 <= load i - load j <= the largest rate |
| `ApisRouter.RebalancedLoads` | adapter_slots/integrations/apis_router.py:48-53 | the same of the dictionary rebalance leaves, for any non-negative rates |
| `ApisRouter.CountOnShard` | adapter_slots/integrations/apis_router.py:52-52 | a shard has the adapters of its turns |
| `ApisRouter.CountsBalanced` | adapter_slots/integrations/apis_router.py:63-64 | over every run, shard adapter counts differ by at most one |
| `ApisRouter.SortByRate` | adapter_slots/integrations/apis_router.py:51-51 | all adapters once, by decreasing rate, ties by name |
| `ApisRouter.APISRouter.constructor` | adapter_slots/integrations/apis_router.py:36-46 | empty, or dealt by the initial rates |
| `ApisRouter.APISRouter.Rebalance` | adapter_slots/integrations/apis_router.py:48-53 | the adapters with an estimate, dealt by decreasing rate |
| `ApisRouter.APISRouter.Route` | adapter_slots/integrations/apis_router.py:55-65 | an adapter keeps its shard between rebalances; a late comer takes the next turn; a rebalance happens exactly when due |
| `ApisRouter.APISRouter.Join` | adapter_slots/integrations/apis_router.py:63-64 | the next turn, which keeps the counts balanced |
| `AlignmentRatios.ComputeGwar` | adapter_slots/metrics/gwar.py:17-46 | the scan is the fraction of tokens in maximal runs of at least the threshold, 0 for thresholds below 1 |
| `AlignmentRatios.ComputeGwarCurve` | adapter_slots/metrics/gwar.py:49-86 | agrees with the scan at every threshold from 1 on; below, it says 1 where the scan says 0 |
| `AlignmentRatios.RunLengths` | adapter_slots/metrics/gwar.py:66-74 | the lengths of the maximal runs |
| `AlignmentRatios.RunAtEnd` | adapter_slots/metrics/gwar.py:36-44 | a stretch of equal tokens after a different one is one more run |
| `AlignmentRatios.GwarMonotone` | adapter_slots/metrics/gwar.py:9-12 | 1 at threshold 1, non-increasing in the threshold, within [0, 1] |
| `AlignmentRatios.PromotedAtMost` | adapter_slots/metrics/gwar.py:29-46 | tokens in long runs belong to adapters with that many tokens |
| `AlignmentRatios.GroupedPromotesAll` | adapter_slots/metrics/gwar.py:29-46 | in a grouped batch all tokens of such adapters are in long runs |
| `AlignmentRatios.SortedIsBest` | adapter_slots/metrics/gwar.py:29-46 | no permutation of a batch has a higher GWAR than its adapter-sorted order |
| `AlignmentRatios.PromotedIsLong` | adapter_slots/metrics/gwar.py:35-44 | run lengths and a count of positions inside W equal neighbours agree |
| `AlignmentRatios.WarpsAreLong` | adapter_slots/metrics/war.py:46-53 | homogeneous warps lie in long stretches |
| `AlignmentRatios.WarBelowGwar` | adapter_slots/metrics/war.py:38-77 | WAR · M · W <= GWAR(W) · N |
| `AlignmentRatios.ComputeWar` | adapter_slots/metrics/war.py:38-53 | the fraction of complete warps with one adapter |
| `AlignmentRatios.ComputeWarFromIds` | adapter_slots/metrics/war.py:56-77 | the same by smallest and largest id |
| `PiController.PIController.constructor` | adapter_slots/control/pi_controller.py:35-60 | gains positive, everything else as given; no slope yet |
| `PiController.PIController.EffectiveGains` | adapter_slots/control/pi_controller.py:62-71 | in the configured proportion, 2 Kp + Ki <= margin · 2 / L for every positive slope, unscaled when already inside; positive and never larger for a positive margin |
| `PiController.PIController.UpdateSlope` | adapter_slots/control/pi_controller.py:73-83 | a sample, the size of the change of WAR over that of T_max, exactly when T_max has moved by 1e-6; L is their exponential average, never negative for a weight in [0, 1] |
| `PiController.PIController.Move` | adapter_slots/control/pi_controller.py:92-97 | the PI law, clipped; unclipped it is one step of the loop, and it moves with the error |
| `PiController.PIController.Update` | adapter_slots/control/pi_controller.py:85-99 | whatever WAR is observed: the slope takes its sample, the gains are inside the bound, and T_max moves by the PI law as far as [tmax_min, tmax_max] allows; a move that is not clipped is, for every slope, one step of the loop whose stability is proved, and T_max never moves away from what the error asks for |
| `PiController.MoveFollowsLoop` | adapter_slots/control/pi_controller.py:8-12 | an unclipped move is, for every slope, one step of the linearised loop |
| `PiController.ScaledGainsAreStable` | adapter_slots/control/pi_controller.py:62-71 | with a margin below one the gains used satisfy the stability bound strictly |
| `PiController.Jury` | adapter_slots/control/pi_controller.py:8-12 | the bound is the Jury test of the linearised recurrence |
| `PiController.EnergyNeverRises` | adapter_slots/control/pi_controller.py:8-12 | the Schur-Cohn energy is positive definite and no step raises it |
| `PiController.TwoStepsLose` | adapter_slots/control/pi_controller.py:8-12 | two steps lose energy unless the errors are zero |
| `PiController.RunBounded` | adapter_slots/control/pi_controller.py:8-12 | over every run the energy stays below its start |
| `LoopStability.TwoStepCost` | adapter_slots/control/pi_controller.py:8-12 | every error costs a fixed share of its square in energy over two steps |
| `LoopStability.SettlesExactly` | adapter_slots/control/pi_controller.py:8-12 | the exact region, gains of any sign: for L > 0 every run of the linearised loop has finite total squared error if and only if Ki > 0, L Kp > -1 and L (2 Kp + Ki) < 2 |
| `LoopStability.SettlesIffWithinBound` | adapter_slots/control/pi_controller.py:8-12 | for positive gains and slope, every run of the linearised loop has finite total squared error if and only if 2 Kp + Ki < 2 / L |
| `LoopStability.OvershootingRunNeverSettles` | adapter_slots/control/pi_controller.py:8-12 | beyond the bound errors that start at 1 and -1 never get smaller than 1 |
| `LoopStability.GrowingNeverSettles` | adapter_slots/control/pi_controller.py:8-12 | without a positive integral gain, and with |L Kp| < 1, errors that start equal never settle |
| `LoopStability.OneOfTwoNeverSettles` | adapter_slots/control/pi_controller.py:8-12 | beyond |L Kp| = 1 one of two runs never settles |
| `LoopStability.IntegralAloneSettles` | adapter_slots/control/pi_controller.py:8-12 | the documented condition Kp > 0 is not necessary: with Kp = 0 every run settles if and only if 0 < Ki < 2 / L |
| `CreditScheduler.CreditScheduler.constructor` | deps/dlora/vllm/core/scheduler.py:102-125 | the same credit for every model, too little to earn a turn; one batch costs one credit in all, one merged batch one over the speed rate; thresholds, modes and counts as configured |
| `CreditScheduler.CreditScheduler.AdjustCredit` | deps/dlora/vllm/core/scheduler.py:237-253 | conserves the credit sum; the assertion holds exactly for schedules of equal length or a non-empty batch at batch cost |
| `CreditScheduler.CreditScheduler.SettleOvertakes` | deps/dlora/vllm/core/scheduler.py:242-246 | each group that overtakes pays the group whose place it takes |
| `CreditScheduler.CreditScheduler.SettleLeftOut` | deps/dlora/vllm/core/scheduler.py:248-253 | the served model pays every group left out |
| `CreditScheduler.CreditScheduler.Pay` | deps/dlora/vllm/core/scheduler.py:245-246 | what one model pays another receives |
| `CreditScheduler.CreditScheduler.Partition` | deps/dlora/vllm/core/scheduler.py:240-240 | groups that arrived in time first, both parts in order |
| `CreditScheduler.CreditScheduler.PickByCredit` | deps/dlora/vllm/core/scheduler.py:313-332 | entitled models richest first until the batch is full, all of them otherwise; nothing is picked exactly if no entitled model has a group |
| `CreditScheduler.CreditScheduler.FillByArrival` | deps/dlora/vllm/core/scheduler.py:372-379 | arrivals not yet picked fill the batch to the size arrival order would give |
| `CreditScheduler.CreditScheduler.LongestSolvent` | deps/dlora/vllm/core/scheduler.py:335-338 | the lookup never meets an empty list: it is the solvent model with most groups, lowest number first |
| `CreditScheduler.CreditScheduler.KeepMerged` | deps/dlora/vllm/core/scheduler.py:339-345 | all groups of the merged model; the mode assertion holds exactly if merged or with one model |
| `CreditScheduler.CreditScheduler.MergeLongest` | deps/dlora/vllm/core/scheduler.py:346-356 | the model is merged, resident and alone active; its first groups are served and pay for the arrivals left out |
| `CreditScheduler.CreditScheduler.SwitchTo` | deps/dlora/vllm/core/scheduler.py:347-355 | merged mode, the model in place of slot 0 if it was not resident |
| `CreditScheduler.CreditScheduler.ByArrival` | deps/dlora/vllm/core/scheduler.py:358-363 | counts a virtual switch exactly when the longest queue's model has changed |
| `CreditScheduler.CreditScheduler.ByBatch` | deps/dlora/vllm/core/scheduler.py:334-366 | keeps, merges or serves arrivals by exactly these thresholds, and pays accordingly |
| `CreditScheduler.CreditScheduler.AdjustMergeThreshold` | deps/dlora/vllm/core/scheduler.py:255-287 | the threshold of the present mode moves by 0.05 or a factor 1.1 towards the faster mode, and the counts start again |
| `MergeMeter.ThresholdsMove` | deps/dlora/vllm/core/scheduler.py:270-282 | the thresholds stay positive and apart, and none moves but that of the present mode, never away from the faster mode |
| `CreditScheduler.CreditScheduler.Throughputs` | deps/dlora/vllm/core/scheduler.py:258-268 | comparing throughputs is comparing groups served against time spent |
| `CreditScheduler.CreditScheduler.WithinCapacity` | deps/dlora/vllm/core/scheduler.py:390-401 | the groups of the first gpu_capacity models; another model's group comes after groups of that many |
| `CreditScheduler.CreditScheduler.PlaceModels` | deps/dlora/vllm/core/scheduler.py:405-414 | every model of the step becomes resident; the displaced ones do not run and are requested no more than any idle one that stays |
| `CreditScheduler.CreditScheduler.ByCreditFirst` | deps/dlora/vllm/core/scheduler.py:369-380 | the batch has the length of arrival order, so the assertion in the credit adjustment cannot fire |
| `CreditScheduler.CreditScheduler.ServeUnmerged` | deps/dlora/vllm/core/scheduler.py:382-415 | what is served is resident; the assertion fires exactly when there are more models than slots under a capacity that lets them through |
| `CreditScheduler.CreditScheduler.WithCredit` | deps/dlora/vllm/core/scheduler.py:369-380 | a credit step serves and pays as stated, and fails exactly when its batch overflows the slots |
| `CreditScheduler.CreditScheduler.WithoutCredit` | deps/dlora/vllm/core/scheduler.py:334-366 | a step without credit keeps, merges or serves arrivals, and fails exactly when nothing is merged to be kept or the arrivals overflow the slots |
| `CreditScheduler.CreditScheduler.CreditSchedule` | deps/dlora/vllm/core/scheduler.py:290-418 | every step conserves the credit sum, decides between credit, batch and arrival as described, leaves the modes, slots, thresholds and counts that decision gives, serves only queued groups, always some, and each model first come, first served; it fails an assertion if and only if credit or arrivals overflow the slots, or an unmerged single model among several is due to be kept |
| `FirstCome.CreditFromTheFront` | deps/dlora/vllm/core/scheduler.py:313-332 | favoured models in turn and arrivals after them take each model from the front of its own queue |
| `FirstCome.FrontIsFirst` | deps/dlora/vllm/core/scheduler.py:309-311 | taking each model from the front of its queue is first come, first served: of two queued groups of one model the later is served only behind the earlier |
| `GroupLists.OfModelCount` | deps/dlora/vllm/core/scheduler.py:309-311 | the list of a model has one group for each of its places in the queue |
| `CreditScheduler.CreditScheduler.OnlyOneSlotFails` | deps/dlora/vllm/core/scheduler.py:334-403 | with a slot for each model the capacity lets through, as engines set it, exactly one kind of step fails: one slot, unmerged, several models, nobody entitled, and the resident model due to be kept |
| `CreditScheduler.OneSlotExample` | deps/dlora/vllm/core/scheduler.py:339-340 | the first schedule of a one-slot engine with two models fails its assertion |
| `CreditScheduler.OverflowExample` | deps/dlora/vllm/core/scheduler.py:403-403 | two slots, a capacity of three and three queued models fail the other assertion |
| `CreditScheduler.MoveConserves` | deps/dlora/vllm/core/scheduler.py:245-246 | a transfer conserves the sum |
| `CreditScheduler.SomeoneSolvent` | deps/dlora/vllm/core/scheduler.py:335-337 | with a non-negative sum some model is solvent |
| `GroupLists.SameSize` | deps/dlora/vllm/core/scheduler.py:369-379 | a full batch, or one with the whole head of the queue, has as many groups as arrival order gives |
| `CreditScheduler.SettledBalance` | deps/dlora/vllm/core/scheduler.py:242-253 | each model's credit moves by the cost times how often it is paid less how often it pays |
| `CreditScheduler.PatientNeverPay` | deps/dlora/vllm/core/scheduler.py:242-246 | a model that overtakes nobody never pays |
| `CreditScheduler.SlotLeft` | deps/dlora/vllm/core/scheduler.py:409-412 | the search for a slot to replace never runs off the end |

## Left out

- Floating-point rounding, fp16 casts, Triton hints, autotuning itself, CUDA graphs and memory ordering: arithmetic is exact and kernel steps are atomic.
- Addresses and strides: tensors are indexed by row and column, and `slice_offsets` (weight addresses) is not modelled.
- The single-slice kernels (`adapter_slots/kernel/tiled_segment_gemm.py:20-130`) are the one-slice instance of the multi-slice model.
- The fallbacks of `add_lora_packed_nslice` to the base class, for unequal slices or strides, and the direct prefill mixin.
- The base vLLM scheduler, block manager and PunicaWrapper are not part of this model; their choices are parameters.
- `schedule_threshold_inner`, `schedule_pi_adaptive_inner`, `schedule_erlang_inner` and `schedule_cash_inner`: the WGKP tick is modelled; the others have neither segments nor the drain, and their dispatch rules are modelled in `AlignmentBuffer`.
- Erlang, CASH and Poisson scores, rate estimation, APT and prefetch prediction: a ranking is any list without duplicates, deadlines, rates and n* are any numbers.
- `preempt_and_hold` and `resume_from_shadow`: the scheduler never calls them, and they break the exact reading of the queue's oldest time.
- Each tick reads the clock once for all enqueues and once for the dispatch; times never decrease.
- A sequence group is one sequence id in the tick, and a list of requests in KV admission.
- The buffer's logging counters other than enqueued and dispatched tokens, `last_dispatch`, `stats` and metrics files.
- KvAdmission.Admission.DecodeStep: whom the base scheduler preempts after a missed block is its choice; a preempted sequence is a finish and a later admission.
- KvAdmission.Admission.SchedulePrefills: the sequences of a group hold separate blocks.
- AdapterRotation.RotationFreesASlot: swapped-out sequences do not return past the holdout, and a preempted one returns to the waiting queue; who then gets the free slot is the base scheduler's choice.
- AlignmentBuffer.AlignmentBuffer.Release: requires a sequence that has left its queue, as the scheduler's calls do; the source would drop the record of one that still waits.
- BlockManager.BlockSpaceManager.Allocate: requires sequences without a table; the source would overwrite an existing table and leak its blocks.
- BlockManager.BlockSpaceManager.Publish: requires sequences without a table, for the same reason.
- BlockManager.BlockSpaceManager.Fork: requires a child without a table, for the same reason.
- BlockImport.Import: requires ids without a table, for the same reason.
- BlockImport.Reproduce: requires ids without a table, for the same reason.
- KvEngine.Engine.Prefill: requires sequences that are not stored yet, for the same reason.
- KvEngine.Engine.Fork: requires a child that is not stored yet, for the same reason.
- The grouping of copies in `blocks_to_copy` by source block: `KvCache.CopiesCommute` shows that the order of a step's copies does not matter.
- dLoRA's `_prepare_scheduleroutputs` with its preemption, the other schedule variants, migration and metadata.
- KvRuns.ReservedWithinLag: an idle engine lets in a group of any size, so a group that does not fit the cache alone is not covered.
- MergedWeights.MergedWeightCache.Size: free GPU memory is a parameter; reading checkpoints, failures of a loader thread and the QKV packing are left out.
- WarmCache.WarmCacheManager.ChooseEviction: the predictive score is any function of the rate, and names are compared by their rank in string order.
- PiController.RunBounded: the energy results are about the linearised loop without clipping, at a fixed slope.
- CreditScheduler.CreditScheduler.CreditSchedule: models of equal credit come in any order, and the profiled times are any positive numbers.
- PiController.PIController.constructor: takes positive gains, which the source checks and refuses otherwise.
- SplitKProtocol.Workspace.Ensure: an empty buffer stands for one not made yet.
- Servers, engines, HTTP and ZMQ plumbing, launchers, benchmarks, workload generators, environment parsing and plotting.
