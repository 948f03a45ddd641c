# Teide: a verified model of its hard logic

Teide is a Vulkan renderer. This project models the logic that sits above the Vulkan calls and proves what
it guarantees over every input, every interleaving and every run. Vulkan itself appears as a small abstract
machine: a queue that executes work in order, fences that get signalled, and images (or mip levels) that are
in some layout, as sections 7.2, 7.3 and 12.4 of the Vulkan 1.3 specification describe them. Where the code
does less than its obvious claim, the exact condition is proved together with a counterexample.

| file | what it models |
|---|---|
| `Submission.dfy` | slots reserved in program order, filled in any order, submitted as a growing prefix, with their completion handlers |
| `FrameReuse.dfy`, `FrameResets.dfy` | two frame slots, the renderer's fences, and when command buffers are reset |
| `SlotNumbers.dfy` | the same submissions with slot numbers narrowed to 32 bits |
| `GpuExecutor.dfy` | the objects `GpuExecutor` and `VulkanRenderer` and the queue they share, updated in place |
| `CpuTasks.dfy`, `CpuExecutor.dfy` | tasks that wait for futures, the scanner, the pool and `WaitForTasks` |
| `Fences.dfy`, `Queue.dfy`, `Polling.dfy` | fence recycling and callbacks of the submission queue; lists that are polled and then compacted |
| `ThreadMap.dfy` | per-thread entries claimed with atomics |
| `ListenSender.dfy` | one-shot completion between a producer and a consumer |
| `RenderGraph.dfy`, `VulkanGraph.dfy` | compiling a render graph to command buffers with barriers, and replaying them |
| `RefCount.dfy` | handles and reference-counted resource slots, with the cascade from parameter blocks to textures |
| `ShaderLayout.dfy`, `ShaderBindings.dfy` | uniform offsets in 32-bit arithmetic, and the two generators of binding numbers |
| `MipChain.dfy`, `MipLayouts.dfy` | mip sizes, copy regions, and the layout of every level while mips are generated |
| `Dependency.dfy` | dependency expressions: postfix emission, evaluation, and the printed C condition |
| `FeatureMerge.dfy` | the dependency search on cyclic graphs, and merging internal features |

Concurrent parts are step machines: a state, the steps that may happen next, and `Inv`, which every step
keeps; the main results speak about every run (`IsRun`, `Reaches`). Objects that the source updates in place
are classes. Those of a concurrent part are proved against its machine: the executor and the renderer, the
launches of the CPU executor and the submits of the queue take its steps, and the polling loops are the passes
that `ScanIsPass` and `FlushIsPass` prove of every interleaving.

Results where the code and its apparent promise differ:

- Handlers are moved from all unsubmitted slots, so a handler can be called with an earlier batch than its own
  command buffer's: exactly when an empty slot lies below it at that time (`CarriedWithOwnBufferIff`, `HandlerLeavesEarly`).
- A frame that presents nothing does not touch its fence, so its slot is not protected: resets are always safe
  exactly when every frame presents or there is no worker thread (`AlwaysSafeIff`, `UnsafeResetIsReached`).
- Slot numbers are narrowed to 32 bits: buffers go out in the order of their reservations exactly up to 2^32
  reservations (`SubmissionOrderIff`).
- Barriers are right exactly for graphs whose commands are properly fed; expired reads, a texture named twice
  by one pass, what a dispatch put out or what was presented being used next, and depth formats bound by a material
  break them (`BarriersMatchIff`, `UnrecordedUseFails`).
- `CreateTexture` with several levels and no pixels starts generating mips from the wrong layout (`CreateReplaysIff`).
- Rounding 0 up to 12 gives 8 in 32 bits; uniforms are well placed exactly when their total is below 2^32, and the
  two binding generators disagree exactly when a size wraps to zero (`PlacementIff`, `BindingsAgreeIff`).
- The thread that builds a `ThreadMap` can share an entry with another thread: entries are exclusive in every run
  exactly when the builder does not call, or nobody else does, or there is no entry (`ExclusiveIff`).

## Model

| member | source | states |
|---|---|---|
| `Submission.SubmissionOrder` | src/Teide/GpuExecutor.cpp:113-146 | in every run the batches concatenate to slots 0..submitted-1 in reservation order, each once, and the next slot is empty or absent |
| `Submission.SubmitsWhatWasFilled` | src/Teide/GpuExecutor.cpp:120-145 | what is submitted at a slot's place is the buffer that a fill of that slot in the run brought |
| `Submission.FillIsKept` | src/Teide/GpuExecutor.cpp:120-124 | over every continuation a filled slot keeps its buffer, and has a handler to call exactly if one was given |
| `Submission.HandlersCarriedOnce` | src/Teide/GpuExecutor.cpp:120-145 | the handler of a submitted slot is carried by exactly one batch, the first cut once the slot was filled, never later than that of its own buffer |
| `Submission.HandlersNeverLost` | src/Teide/GpuExecutor.cpp:124-138 | a handler is either still waiting and in no batch, or gone from the list and in exactly one batch |
| `Submission.HandlersInOrder` | src/Teide/GpuExecutor.cpp:132-144 | every batch calls its handlers in the order of their slots, none twice |
| `Submission.CarriedWithOwnBufferIff` | src/Teide/GpuExecutor.cpp:132-144 | a carried handler travels with its own buffer if and only if no empty slot lies below it |
| `Submission.HandlerLeavesEarly` | src/Teide/GpuExecutor.cpp:135-137 | a run that fills slot 2 before slot 0 sends handler 2 with slot 0's batch while its own buffer waits |
| `Submission.StepKeepsInv` | src/Teide/Scheduler.h:26-59 | every reservation and every fill keeps the invariant the results above rest on |
| `SlotNumbers.SubmissionOrderIff` | src/Teide/GpuExecutor.cpp:113-146 | with slot numbers narrowed as in the code, buffers go out in reservation order in every run with at most n reservations if and only if n is at most 2^32 |
| `SlotNumbers.OrderIff` | src/Teide/GpuExecutor.cpp:113-118 | the same for any number of slot numbers |
| `SlotNumbers.OvertakenRun` | src/Teide/GpuExecutor.cpp:117-123 | one reservation too many fills slot 0, and its buffer goes out before that of reservation 0 |
| `SlotNumbers.NothingPastLastNumber` | src/Teide/GpuExecutor.cpp:126-145 | no slot past the last number is ever filled or submitted |
| `GpuExecution.GpuExecutor.AddCommandBufferSlot` | src/Teide/GpuExecutor.cpp:113-118 | appends an empty slot and returns its number narrowed to 32 bits |
| `GpuExecution.GpuExecutor.SubmitCommandBuffer` | src/Teide/GpuExecutor.cpp:120-146 | takes the fill step of the protocol and queues exactly the batch it cuts, or rejects an index never reserved and changes nothing |
| `GpuExecution.FindPrefix` | src/Teide/GpuExecutor.cpp:126-130 | the search finds the longest filled prefix |
| `GpuExecution.MoveNonNull` | src/Teide/GpuExecutor.cpp:134-137 | exactly the non-null handlers, in slot order |
| `GpuExecution.GpuExecutor.GetCommandBuffer` | src/Teide/GpuExecutor.cpp:85-111 | hands out the thread's next buffer of the current frame slot, growing the pool when it is used up |
| `GpuExecution.GpuExecutor.NextFrame` | src/Teide/GpuExecutor.cpp:53-71 | advances the frame slot and resets the pools of that slot only |
| `GpuExecution.VulkanRenderer.BeginFrame` | src/Teide/VulkanRenderer.cpp:146-157 | takes the begin step of the frame protocol and keeps its invariant, so both frame numbers stay equal |
| `GpuExecution.VulkanRenderer.EndFrame` | src/Teide/VulkanRenderer.cpp:174-208 | takes the end step, presenting exactly if surfaces are waiting: only then is the fence reset and its signal queued behind all work |
| `GpuExecution.VulkanRenderer.ScheduleGpu` | src/Teide/Scheduler.h:26-36 | takes the schedule step while slot numbers last |
| `GpuExecution.VulkanRenderer.StartTask` | src/Teide/Scheduler.h:36-40 | takes the start step: a worker's task gets a command buffer of the current frame |
| `GpuExecution.VulkanRenderer.FinishTask` | src/Teide/Scheduler.h:42-56 | takes the finish step: the buffer fills its slot, and what became contiguous enters the queue |
| `FrameReuse.ResetIsSafe` | src/Teide/VulkanRenderer.cpp:146-208 | in every run the two frame arrays agree, and a slot whose last use was covered by a fence is reset only when the GPU is done with it |
| `FrameReuse.FrameReuseSafety` | src/Teide/VulkanRenderer.cpp:146-208 | if every frame presents, BeginFrame never resets command buffers that the GPU still has to finish |
| `FrameReuse.HandedOutOnce` | src/Teide/GpuExecutor.cpp:53-111 | between two resets no command buffer is handed out twice, and each handed out exists |
| `FrameReuse.UsedIsHandedOut` | src/Teide/GpuExecutor.cpp:53-111 | in every run a pool has in use exactly the buffers handed out to its thread since the slot's last reset |
| `FrameReuse.AllocatesOnlyWhenUsedUp` | src/Teide/GpuExecutor.cpp:85-111 | the next buffer's index is the number handed out since the reset, and a pool grows, by doubling, only when all of its buffers are handed out |
| `FrameReuse.BeginEmptiesSlot` | src/Teide/GpuExecutor.cpp:53-71 | beginning a frame leaves no buffer of its slot in use and frees none |
| `FrameReuse.NextFrameCanBegin` | src/Teide/VulkanRenderer.cpp:146-157 | the wait for the fence can always end: from every reachable state between frames, completions alone lead to the next begin |
| `FrameReuse.RecordedIsQueued` | src/Teide/Scheduler.h:36-56 | the buffer a task was given is what the queue receives at the place of the task's slot, whatever happens in between |
| `FrameReuse.UnpresentedFrameIsReset` | src/Teide/VulkanRenderer.cpp:182-186 | from any state of the protocol with an unpresented frame's work still running there is a run that resets its buffers |
| `FrameResets.UnsafeResetIsReached` | src/Teide/VulkanRenderer.cpp:174-186 | with any worker thread there is a run from the start that ends in such a reset |
| `FrameResets.AlwaysSafeIff` | src/Teide/VulkanRenderer.cpp:146-208 | no run resets buffers in use if and only if every frame presents or there is no worker thread |
| `FrameReuse.PresentingKeepsCovered` | src/Teide/VulkanRenderer.cpp:174-202 | nothing but ending a frame without presenting leaves a slot uncovered |
| `FrameReuse.StepKeepsInv` | src/Teide/Util/FrameArray.h:36-41 | every begin, end, schedule, record, fill and completion keeps lockstep, pools, fences and coverage |
| `CpuTasks.TasksRunOnceInOrder` | src/Teide/CpuExecutor.h:109-146 | in every run a task starts at most once, and only after what it depends on has completed |
| `CpuTasks.StartsAfterItsFuture` | src/Teide/CpuExecutor.h:58-78 | a task launched on a future starts only after that very future has been fulfilled |
| `CpuTasks.NoDeadlock` | src/Teide/CpuExecutor.cpp:18-36 | with the pool drained and tasks scheduled, one of them is ready or waits directly for a future from outside |
| `CpuTasks.AllTasksCanFinish` | src/Teide/CpuExecutor.cpp:18-36 | from every reachable state, once the outside futures are fulfilled, all tasks launched can finish without a further launch |
| `CpuTasks.MovesAreBounded` | src/Teide/CpuExecutor.cpp:18-36 | in any continuation without launches at most four status changes for each task remain, and none remain exactly when all tasks have finished |
| `CpuTasks.QuietScanMeansFinished` | src/Teide/CpuExecutor.cpp:18-36 | with the outside futures fulfilled, a whole scan over a drained pool in which nothing changes finds every task finished |
| `CpuTasks.WaitForTasksWaits` | src/Teide/CpuExecutor.cpp:47-64 | when WaitForTasks returns, every task launched before the call has finished, whatever was launched meanwhile |
| `CpuTasks.WaitForTasksCanReturn` | src/Teide/CpuExecutor.cpp:47-64 | wherever a call is in it, once the outside futures are fulfilled, that call can return without a further launch |
| `CpuTasks.ScanIsPass` | src/Teide/CpuExecutor.cpp:22-35 | however launches, workers and outside futures interfere, a whole scan is one pass: each entry is answered by whether its dependency is met when it is polled, and launched or kept in order accordingly |
| `CpuTasks.ScanLaunchesReady` | src/Teide/CpuExecutor.cpp:25-32 | when a scan ends, every scheduled task whose dependency was met when it began has been launched |
| `CpuTasks.ScanFindsTasks` | src/Teide/CpuExecutor.cpp:25-35 | the scanner never dereferences an entry it has emptied |
| `CpuTasks.StepKeepsInv` | src/Teide/CpuExecutor.h:58-78 | launching, scanning, running, signalling and waiting keep the list, the log and the waiter consistent |
| `CpuExecution.CpuExecutor.Scan` | src/Teide/CpuExecutor.cpp:22-35 | one pass hands exactly the ready entries to the pool in list order, keeps the others in order, and leaves the list holding exactly the waiting tasks |
| `CpuExecution.CpuExecutor.LaunchTask` | src/Teide/CpuExecutor.h:52-56 | takes the launch step of the protocol and hands the pool a new task |
| `CpuExecution.CpuExecutor.LaunchTaskAfter` | src/Teide/CpuExecutor.h:58-78 | takes the dependent launch step of the protocol under a number no earlier task has |
| `Polling.ScanConserves` | src/Teide/CpuExecutor.cpp:25-35 | a pass loses no entry and copies none |
| `Polling.TakenInOrder` | src/Teide/CpuExecutor.cpp:25-33 | a pass takes exactly the ready entries, each behind the ready ones ahead of it |
| `Polling.EraseEmpty` | src/Teide/Queue.cpp:85-86 | erasing keeps exactly the entries that are not empty, in order |
| `Polling.CompactKeepsOrder` | src/Teide/Queue.cpp:85-86 | each entry kept lies behind exactly the kept ones that were ahead of it, and nothing else is in the list |
| `Fences.FencesRecycled` | src/Teide/Queue.cpp:67-133 | in every run each fence is in exactly one list at one place, unused ones are neither signalled nor pending, and a submit gets a fence the device accepts |
| `Fences.CallbackOnceAfterFinish` | src/Teide/Queue.cpp:72-82 | no callback runs twice or before its own submit finished, and one has run exactly when its submit is no longer in flight |
| `Fences.FlushCallsFinished` | src/Teide/Queue.cpp:67-87 | when a Flush is over, every submit that had finished when it began has been called back |
| `Fences.FlushIsPass` | src/Teide/Queue.cpp:67-87 | however the device interferes, a whole Flush is one pass: it calls back and recycles, in list order, exactly the entries found signalled |
| `Fences.CreatedIsHighWater` | src/Teide/Queue.cpp:89-133 | the number of fences ever created is the largest number of submits ever in flight |
| `Fences.StepKeepsInv` | src/Teide/Queue.cpp:67-102 | submits, completions at any time and single polls of a Flush keep the partition of fences |
| `SubmitQueue.CommandQueue.GetFence` | src/Teide/Queue.cpp:123-133 | takes the fence unused longest, and creates one only when there is none |
| `SubmitQueue.CommandQueue.Submit` | src/Teide/Queue.cpp:89-102 | takes the submit step of the protocol |
| `SubmitQueue.CommandQueue.Flush` | src/Teide/Queue.cpp:67-87 | calls back, in order, exactly the entries found signalled and recycles their fences |
| `SubmitQueue.CommandQueue.GetInFlightFences` | src/Teide/Queue.cpp:58-65 | the fences of all entries in order |
| `ThreadMaps.ExclusiveIff` | src/Teide/Util/ThreadUtils.h:58-104 | for a set of calling threads and a capacity: in every run two calls return the same entry exactly when the same thread made them, if and only if the builder does not call, or no other thread does, or the capacity is 0 |
| `ThreadMaps.ReturnedToOwnerUnless` | src/Teide/Util/ThreadUtils.h:86-104 | a step returns an entry to the thread that claimed it, except exactly when the builder meets an entry claimed but not yet published |
| `ThreadMaps.AllOwnedIff` | src/Teide/Util/ThreadUtils.h:86-104 | over a run, every entry went to its owner if and only if the builder never met an unpublished one |
| `ThreadMaps.EntriesAreExclusive` | src/Teide/Util/ThreadUtils.h:86-104 | then entries are exclusive, for all threads |
| `ThreadMaps.LockedCallsAreExclusive` | src/Teide/Util/ThreadUtils.h:37-42 | calls that exclude each other by a mutex are exclusive for every thread, the builder included |
| `ThreadMaps.IssuedOnce` | src/Teide/Util/ThreadUtils.h:95-103 | indices are issued 0, 1, 2, ... each once and below the capacity; the counter is those plus the overflowing claims |
| `ThreadMaps.OverflowOnlyWhenFull` | src/Teide/Util/ThreadUtils.h:95-100 | a claim overflows only when all entries are issued, none of them to the thread that fails |
| `ThreadMaps.NeverStuck` | src/Teide/Util/ThreadUtils.h:86-104 | a thread always has a next step: no comparison out of range, no roll-back below zero |
| `ThreadMaps.BuilderSharesEntry` | src/Teide/Util/ThreadUtils.h:58-65 | for every capacity above 0 and every other thread, a run in which it and the builder get the same entry |
| `ThreadMaps.Construct` | src/Teide/Util/ThreadUtils.h:58-65 | every entry starts with the builder's id |
| `Listening.CompletedOnceIffBoth` | src/Teide/Util/ListenSender.h:44-98 | the receiver has been completed once, with the produced outcome, exactly when it was started and the producer delivered; no assertion trips |
| `Listening.ExpiredIsFinal` | src/Teide/Util/ListenSender.h:178-196 | once nothing owns the shared state, the receiver is never completed any more |
| `Listening.StartedIsNotMissed` | src/Teide/Util/ListenSender.h:142-148 | a started operation keeps the state alive, so the producer's call is not missed |
| `Listening.CompletionState.SetReceiver` | src/Teide/Util/ListenSender.h:44-70 | completes at once with a stored value or cancellation, otherwise registers |
| `Listening.CompletionState.SetValue` | src/Teide/Util/ListenSender.h:72-84 | calls the registered receiver, otherwise stores the value |
| `Listening.CompletionState.SetStopped` | src/Teide/Util/ListenSender.h:86-98 | calls the registered receiver, otherwise stores the cancellation |
| `RenderGraph.BarriersMatchIff` | src/Teide/VulkanGraph.cpp:47-202 | replayed by index on fresh images, every barrier, copy and sample finds the layout it names if and only if every command is properly fed |
| `RenderGraph.PlainGraphsExecute` | src/Teide/VulkanGraph.cpp:47-165 | graphs of writes, live reads and passes that name no texture twice and bind no depth format replay without a mismatch |
| `RenderGraph.WorkIsRecorded` | src/Teide/VulkanGraph.cpp:47-165 | each command's buffer is its one copy or pass, on the images it names, behind barriers of textures it relies on and nothing else; expired reads, dispatches and presents record nothing |
| `RenderGraph.ExpiredReadFails` | src/Teide/VulkanGraph.cpp:77-81 | a write after an expired read meets a wrong layout |
| `RenderGraph.RepeatedSampleFails` | src/Teide/VulkanGraph.cpp:35-44 | a texture listed twice among a pass's dependencies gets a stale second barrier |
| `RenderGraph.DispatchedOutputFails` | src/Teide/VulkanGraph.cpp:167-183 | reading a dispatch's output meets a layout nothing established |
| `RenderGraph.UnrecordedUseFails` | src/Teide/VulkanGraph.cpp:167-202 | in every graph, relying next on what was presented or put out by a dispatch fails, and on what a dispatch or an expired read named fails unless the layout happened to be there |
| `RenderGraph.DepthSampleFails` | src/Teide/VulkanDevice.cpp:1298-1304 | a depth-format texture bound through a material fails in every graph, since its descriptor names another layout |
| `RenderGraph.TransitionIsClaim` | src/Teide/VulkanGraph.cpp:192-202 | a command gets the transition from what the last earlier command ensured to what it expects itself |
| `RenderGraph.InsertIntoRow` | src/Teide/VulkanGraph.cpp:185-190 | adding a change puts it in front of the changes of the same command and moves no other |
| `RenderGraph.ChangesSorted` | src/Teide/VulkanGraph.cpp:185-190 | the state changes of a texture are sorted by command index |
| `VulkanGraphs.ExtendsIndexed` | src/Teide/VulkanGraph.h:182-253 | a new node keeps the indices of the five lists a permutation and appends its command |
| `VulkanGraphs.VulkanGraph.AddWriteNode` | src/Teide/VulkanGraph.h:184-192 | appends one node with its source and target, as one write command, and keeps the numbering |
| `VulkanGraphs.VulkanGraph.AddReadNode` | src/Teide/VulkanGraph.h:194-200 | appends one node with its source, as one read command, and keeps the numbering |
| `VulkanGraphs.VulkanGraph.AddRenderNode` | src/Teide/VulkanGraph.h:228-253 | appends one render node holding its arguments; built, its command depends on exactly the first nodes of the textures its view and objects name, once for each time they are named, and samples exactly those its materials bind |
| `VulkanGraphs.VulkanGraph.AddDispatchNode` | src/Teide/VulkanGraph.h:202-219 | appends one dispatch command and keeps the numbering |
| `VulkanGraphs.VulkanGraph.AddPresentNode` | src/Teide/VulkanGraph.h:221-226 | appends one present command and keeps the numbering |
| `VulkanGraphs.VulkanGraph.AddStateChange` | src/Teide/VulkanGraph.cpp:185-210 | inserts into the sorted list of the named texture only |
| `VulkanGraphs.VulkanGraph.FindDependencies` | src/Teide/VulkanGraph.cpp:22-44 | the known textures of view, objects and materials, in order, duplicates kept, and which of them materials bind |
| `VulkanGraphs.FoundIsPass` | src/Teide/VulkanGraph.cpp:22-44 | by indices alone: a pass depends on a node if and only if it is the first node of a texture named by the view or an object, as often as that is named, and samples it if and only if a material binds that texture |
| `VulkanGraphs.VulkanGraph.BuildGraph` | src/Teide/VulkanGraph.cpp:244-335 | each texture's state changes come out as one sorted list given by the commands alone, whatever order the loops add them in, and every render node's command is the pass of what the node holds |
| `VulkanGraphs.VulkanGraph.Process` | src/Teide/VulkanGraph.cpp:47-183 | what each kind of node records, given its transitions |
| `VulkanGraphs.VulkanGraph.RecordCommands` | src/Teide/VulkanGraph.cpp:407-449 | visiting kind by kind records every allocated command buffer exactly once, with what the command of its index records |
| `VulkanGraphs.VulkanGraph.ExecuteGraph` | src/Teide/VulkanGraph.cpp:452-476 | the buffers submitted replay without a mismatch, from fresh images, if and only if every command is properly fed |
| `RefCount.CountsAreOwners` | src/Teide/Util/ResourceMap.h:54-84 | over every sequence of operations a resource is there exactly while something owns it, and its count is the number of owners, or 1 once released |
| `RefCount.ResetExactlyAtLast` | include/Teide/Handle.h:32-85 | a step resets a resource exactly when it takes the last owner away; a released slot stays released |
| `RefCount.InsertBlockOwns` | src/Teide/VulkanDevice.cpp:1445-1460 | a new block adds to each texture one owner for every handle of it that it is given |
| `RefCount.BlockKeepsTextures` | src/Teide/VulkanParameterBlock.h:48-54 | over every continuation, the textures given to a block stay, unchanged, as long as the block does |
| `RefCount.TextureStays` | src/Teide/Util/ResourceMap.h:54-84 | over every continuation that does not write to it, a variable reads the texture inserted into it |
| `RefCount.CopyAndMoveName` | include/Teide/Handle.h:32-67 | a copy names the slot of its source and both own it; a move hands it over |
| `RefCount.StepAges` | src/Teide/Util/ResourceMap.h:54-60 | indices are never reused: no step revives a slot or replaces its resource |
| `RefCount.SelfAssignment` | include/Teide/Handle.h:44-67 | assigning a handle to itself, by copy or by move, changes nothing |
| `RefCount.ClearBlockBalances` | src/Teide/VulkanParameterBlock.h:48-54 | a dying parameter block gives back exactly the textures it holds |
| `RefCount.StepKeepsInv` | include/Teide/Handle.h:32-85 | insert, copy, move, both assignments and destroy keep counts balanced with owners |
| `RefCount.ResourceMap.Insert` | src/Teide/Util/ResourceMap.h:54-60 | appends a slot with count 1 |
| `RefCount.ResourceMap.AddRef` | src/Teide/Util/ResourceMap.h:68-72 | increments modulo 2^32 |
| `RefCount.ResourceMap.DecRef` | src/Teide/Util/ResourceMap.h:74-84 | decrements modulo 2^32 and resets the whole slot, count included, at zero |
| `RefCount.Handle.CopyAssign` | include/Teide/Handle.h:44-54 | adds to the new slot before releasing the old, for equal and different owners |
| `RefCount.Handle.MoveAssign` | include/Teide/Handle.h:56-67 | releases the old slot and empties the source unless it is the same handle |
| `RefCount.Handle.Destroy` | include/Teide/Handle.h:79-85 | releases one reference if the handle was not moved from |
| `ShaderLayout.PlacementIff` | src/Teide/ShaderData.cpp:38-79 | uniform ranges are in order, disjoint and inside uniformsSize if and only if their unbounded total is below 2^32 |
| `ShaderLayout.OffsetsAligned` | src/Teide/ShaderData.cpp:58-79 | then each offset is the least multiple of its alignment not below the previous end, except that a leading vec3 array lands at 8 |
| `ShaderLayout.RoundUpIs` | src/Teide/ShaderData.cpp:16-19 | the 32-bit formula gives the least multiple, or restarts near zero once when that passes 2^32; zero goes to 8 for alignment 12 |
| `ShaderLayout.OrderedAreDisjoint` | src/Teide/ShaderData.cpp:38-43 | any two ranges placed in order are apart, and all end within the size |
| `ShaderLayout.EveryParameterListed` | src/Teide/ShaderData.cpp:58-79 | every parameter is listed once, in order, as a uniform or as a resource |
| `ShaderLayout.LeadingVector3Array` | src/Teide/ShaderData.cpp:65-70 | a block that starts with a vec3 array leaves its first 8 bytes unused |
| `ShaderLayout.SizeLaws` | src/Teide/ShaderData.cpp:58-79 | added to any block a float takes 4 bytes, a vec4 four floats or two vec2, a matrix four vec4, a lone vec3 as much as a vec4, an array element of vec3 three floats |
| `ShaderLayout.ArraySizeLaw` | src/Teide/ShaderData.cpp:38-43 | an array of n takes n times one element |
| `ShaderLayout.AlignmentLaws` | src/Teide/ShaderData.cpp:58-79 | a scalar or vector is aligned to the bytes one of it takes, a matrix to a vec4 |
| `ShaderLayout.PushConstantIff` | src/Teide/ShaderData.cpp:81-84 | exactly the block of set 3 is a push constant, up to 128 bytes of uniforms |
| `ShaderLayout.BuildParameterBlockLayout` | src/Teide/ShaderData.cpp:53-87 | the loop computes the layout the results above speak about |
| `ShaderBindings.BindingsAgreeIff` | src/Teide/VulkanParameterBlock.cpp:34-77 | declared bindings equal the layout's in number, order and kind, and a push-constant block is declared iff there is a range, except exactly when uniforms have wrapped to size zero |
| `ShaderBindings.BindingsAgree` | src/ShaderCompiler/ShaderCompiler.cpp:308-371 | so they agree whenever the uniforms fit 32 bits: same set, same bindings, the members declared are those the layout places, in order, and buffer or range have their size |
| `ShaderBindings.WrappedSizeDisagrees` | src/Teide/VulkanParameterBlock.cpp:38-58 | an array of 2^30 floats is declared but missing from the layout |
| `ShaderBindings.KernelBindingsAgree` | src/ShaderCompiler/ShaderCompiler.cpp:418-449 | the images a kernel declares for its outputs are exactly the bindings of its parameter block's layout |
| `ShaderBindings.BuildUniformBuffer` | src/ShaderCompiler/ShaderCompiler.cpp:308-340 | declares nothing, a push-constant block or a uniform block with the uniforms in order |
| `ShaderBindings.BuildResourceBindings` | src/ShaderCompiler/ShaderCompiler.cpp:342-364 | declares the resources in order from slot 1 |
| `ShaderBindings.MakeSetLayout` | src/Teide/VulkanParameterBlock.cpp:34-77 | the constructor's bindings, buffer size and push-constant range |
| `ShaderBindings.BuildKernelEntrypoint` | src/ShaderCompiler/ShaderCompiler.cpp:418-449 | one image declaration and one parameter for each output |
| `MipChain.SideIsQuotient` | src/Teide/TextureData.cpp:15-23 | level i of a side x measures max(1, x / 2^i) |
| `MipChain.RegionsTileIff` | src/Teide/Vulkan.cpp:340-365 | the copy regions tile the buffer without gap or overlap if and only if the bytes before the last level fit 32 bits |
| `MipChain.RegionsAreLevels` | src/Teide/Vulkan.cpp:340-365 | the k-th region copies level k, all max(1, w / 2^k) by max(1, h / 2^k) of it |
| `MipChain.LevelsAddUp` | src/Teide/TextureData.cpp:10-26 | level n adds exactly the bytes of max(1, w / 2^n) by max(1, h / 2^n) pixels |
| `MipChain.TotalBounded` | src/Teide/TextureData.cpp:10-26 | up to the full chain all levels take at most (2wh - 1) pixels |
| `MipChain.FullChainIsLog` | src/Teide/TextureData.cpp:18-23 | the full chain has floor(log2(max(w, h))) + 1 levels |
| `MipChain.GetByteSize` | src/Teide/TextureData.cpp:10-26 | the sum over all levels, modulo 2^64 |
| `MipChain.CopyImageToBuffer` | src/Teide/Vulkan.cpp:333-366 | one region for each level at the running 32-bit offset |
| `MipLayouts.MipmapsReplay` | src/Teide/VulkanTexture.cpp:40-98 | from all levels in TransferDst, for any level count, every barrier names its level's layout, every blit reads a source and writes a destination level, and all levels end readable |
| `MipLayouts.BlitsWholeLevels` | src/Teide/VulkanTexture.cpp:40-88 | the i-th blit reads the whole of level i - 1 and writes the whole of level i |
| `MipLayouts.CreateReplaysIff` | src/Teide/VulkanDevice.cpp:1101-1135 | creation replays without a mismatch exactly when pixels are given or there is one level, and then leaves every level in the returned state's layout |
| `MipLayouts.CreateFillsAllLevels` | src/Teide/VulkanDevice.cpp:1101-1135 | created with pixels, every level gets contents, and no blit reads a level without |
| `MipLayouts.SignedSides` | src/Teide/VulkanTexture.cpp:34-47 | for sides below 2^31 the blits use the same level sizes |
| `MipLayouts.GenerateMipmaps` | src/Teide/VulkanTexture.cpp:12-99 | the loop records the commands replayed above |
| `MipLayouts.CreateTexture` | src/Teide/VulkanDevice.cpp:1099-1136 | upload, then mip generation or one transition, and the state returned |
| `Dependency.EvaluationIsMeaning` | tools/vkex/parse_dependency.py:114-216 | the stack emitted for any expression evaluates to its left-to-right meaning and consumes exactly its own part; it fails exactly when a leaf is no name |
| `Dependency.MeaningMonotone` | tools/vkex/parse_dependency.py:198-230 | supporting more names never makes a satisfied dependency fail |
| `Dependency.NamesDecideMeaning` | tools/vkex/parse_dependency.py:321-336 | the reported names are all that the value depends on |
| `Dependency.NamesAreReported` | tools/vkex/parse_dependency.py:321-336 | the names reported are exactly those pushed |
| `Dependency.LastOperator` | tools/vkex/parse_dependency.py:198-217 | `+` needs both of its sides and `,` either, whatever stands before the last operator being one side |
| `Dependency.IdentIsName` | tools/vkex/parse_dependency.py:125-214 | of the identifiers the grammar accepts, exactly those that start with a letter of either case are names |
| `Dependency.NameAlone` | tools/vkex/parse_dependency.py:207-216 | a single name is satisfied exactly if it is supported |
| `Dependency.ProtectConditionKeepsMeaning` | tools/vkex/parse_dependency.py:232-319 | the printed C condition, read with && tighter than the or operator, has the same truth value under every set of macros |
| `Dependency.ExprStack.Parse` | tools/vkex/parse_dependency.py:114-195 | the parse actions push exactly the expression's postfix form |
| `Dependency.ExprStack.EvaluateStack` | tools/vkex/parse_dependency.py:198-217 | the popping evaluator computes the specified value and leftover stack |
| `Dependency.ExprStack.EvaluateDependency` | tools/vkex/parse_dependency.py:219-230 | parsing and evaluating any expression gives its meaning or fails on a bad leaf |
| `Dependency.ExprStack.EvalDependencyLanguage` | tools/vkex/parse_dependency.py:232-260 | the popping printer computes the specified tokens and leftover stack |
| `FeatureMerge.HasDependency` | tools/vkex/reg.py:219-240 | true exactly when the target is reachable from the feature, on cyclic graphs too |
| `FeatureMerge.DependencySearch.Search` | tools/vkex/reg.py:219-240 | terminates; a yes is a real dependency, a no exhausts everything newly visited |
| `FeatureMerge.Registry.MergeInternalFeatures` | tools/vkex/reg.py:186-271 | an internal feature leaves the tree if and only if some public feature depends on it, and its blocks are then in the first that does; no require, deprecate or remove block is lost or duplicated, everything else stays, in order |
| `FeatureMerge.Registry.FindTarget` | tools/vkex/reg.py:247-254 | Some(p) if and only if p stands where a public feature depends on the name and no earlier one does; None if and only if none depends |
| `FeatureMerge.OneFirst` | tools/vkex/reg.py:247-254 | there is at most one such feature, and it is a public one that depends on the name |
| `FeatureMerge.Registry.Partition` | tools/vkex/reg.py:186-201 | the internal and the public features of the API in document order |
| `FeatureMerge.SelectOrder` | tools/vkex/reg.py:186-201 | what is selected keeps its order in the document |
| `FeatureMerge.LastNamedCounts` | tools/vkex/reg.py:240-241 | every feature name is known to the dependency map, and the last feature of a name gives its dependencies |
| `FeatureMerge.OnlyNamedKnown` | tools/vkex/reg.py:240-241 | the map knows no other name |
| `FeatureMerge.MergeConserves` | tools/vkex/reg.py:256-271 | one merge keeps the number of occurrences of every copied kind of block |
| `FeatureMerge.MovedKeepsKinds` | tools/vkex/reg.py:256-271 | the copies of each kind keep their order, and none is missing |
| `FeatureMerge.MovedByRank` | tools/vkex/reg.py:256-271 | the copies come kind by kind: require, deprecate, remove |

## Left out

- FeatureMerge.DependencySearch.Search: starts from the set of dependency names; splitting the `depends` attribute at `+` and `,` (which keeps parentheses) is not modelled.
- FeatureMerge.Registry.MergeInternalFeatures: a tag other than require, deprecate and remove is dropped with its feature, as the code does; block contents are opaque.
- Dependency.ProtectConditionKeepsMeaning: works on tokens, not on the characters of the printed text; the `parenthesize=False`, asciidoc and `dependencyLanguageC` paths are not modelled.
- Dependency.ExprStack.Parse: follows the grammar directly; the pyparsing engine and redundant leading operators are not modelled.
- Submission.SubmissionOrder: slots are counted without bound here; `SlotNumbers` narrows their numbers to 32 bits and states the exact bound.
- RefCount.CountsAreOwners: a copy is enabled only while the owners of a slot stay below 2^32, and only from a handle that was not moved from.
- GpuExecution.VulkanRenderer.BeginFrame: starts where the wait for the fence has returned, as EndFrame does where the wait for the CPU tasks has; surfaces and transient parameters are not modelled.
- FrameReuse.FrameReuseSafety: one renderer, GPU work scheduled only between BeginFrame and EndFrame, and waits that succeed; timeouts and device loss are not modelled.
- RenderGraph.BarriersMatchIff: access masks and pipeline stages enter only where they decide whether a barrier is recorded; passes that depend on their own target are excluded; only textures that materials bind count as sampled, since the graph binds no descriptor set for the scene, the view or the objects; the loop that copies sizes and formats to write targets before recording is not modelled.
- VulkanGraphs.VulkanGraph.BuildGraph: a source set by `SetSource`, usages and names of nodes are not modelled; neither is `VisualizeGraph`.
- ThreadMaps.ExclusiveIff: ids are compared one at a time, but each comparison reads a whole id; the counter does not wrap.
- Listening.CompletedOnceIffBoth: one operation for each receiver; a second `Listen` on the same receiver is not modelled, and a started operation is kept until its receiver is completed, as the sender/receiver contract demands.
- CpuTasks.TasksRunOnceInOrder: exceptions thrown by tasks, the values passed between them and the destructor, which stops the scanner first, are not modelled.
- Fences.FencesRecycled: the destructor and the waiting loop of the queue's thread are not modelled; callbacks do not call back into the queue, whose mutex they hold.
- SubmitQueue.CommandQueue.Flush: the answers of the device are a parameter; that they may change between two polls is covered by `FlushIsPass`, for every interleaving.
- ShaderLayout.BuildParameterBlockLayout: the assertion that resources are no arrays, names beyond their identity and shader stages are not modelled; no conformance to a GLSL memory layout is claimed.
- ShaderBindings.BindingsAgreeIff: declarations are values, not text; writing descriptors into the sets is not modelled.
- MipChain.GetByteSize: products are taken exactly and reduced once for each level, which gives the same number modulo 2^64.
- Device, instance, surface and swapchain creation, memory allocation, logging, debug names, descriptor pools and enum tables: calls into Vulkan or finite tables.
- GeoLib, the examples, the other scripts under tools and the rest of the registry scripts: floating-point code, drivers and text output.
