/**
  The objects of the submission pipeline, updated in place: `GpuExecutor` (src/Teide/GpuExecutor.cpp), the
  frame loop of `VulkanRenderer` (src/Teide/VulkanRenderer.cpp) with the tasks it schedules on the GPU
  (src/Teide/Scheduler.h), and the queue both submit to.  Each method is proved against the step functions
  of modules Submission and FrameReuse, where the properties of whole runs are proved.
 */
module GpuExecution {
  import opened Wrappers
  import opened Submission
  import opened FrameReuse

  const UINT32_RANGE := 0x1_0000_0000

  /** The Vulkan queue: everything submitted to it, and what the GPU has finished. */
  class GraphicsQueue {
    var items: seq<Item>
    ghost var done: set<nat>

    constructor ()
      ensures items == [] && done == {}
    {
      items, done := [], {};
    }
  }

  /** The work item of a batch cut between `before` and `after`, if there is one. */
  function NewWork<H>(before: seq<Batch<CommandBuffer, H>>, after: seq<Batch<CommandBuffer, H>>): seq<Item> {
    if |after| > |before| then [Work(after[|before|].buffers)] else []
  }

  class GpuExecutor<H> {
    const queue: GraphicsQueue
    var readyCommandBuffers: seq<Option<CommandBuffer>>
    var completionHandlers: seq<Option<H>>
    var numSubmitted: nat
    var batches: seq<Batch<CommandBuffer, H>>   // everything given to Queue::Submit, in order
    var frameNumber: nat
    var frameResources: seq<seq<Pool>>          // per frame slot, per thread

    ghost predicate Valid()
      reads this
    {
      && Model().WellFormed() && frameNumber < |frameResources| == FRAMES
      && forall f, t :: 0 <= f < FRAMES && 0 <= t < |frameResources[f]| ==>
          frameResources[f][t].used <= frameResources[f][t].size
    }

    ghost function Model(): Executor<CommandBuffer, H>
      reads this
    {
      Executor(readyCommandBuffers, completionHandlers, numSubmitted, batches)
    }

    constructor (queue: GraphicsQueue, numThreads: nat)
      ensures Valid() && this.queue == queue && Model() == Empty() && frameNumber == 0
      ensures frameResources == Initial(numThreads).pools
    {
      this.queue := queue;
      readyCommandBuffers, completionHandlers, numSubmitted, batches := [], [], 0, [];
      frameNumber := 0;
      frameResources := [seq(numThreads, _ => Pool(0, 0)), seq(numThreads, _ => Pool(0, 0))];
    }

    /** The slot's number is narrowed to 32 bits. */
    method AddCommandBufferSlot() returns (index: nat)
      requires Valid()
      modifies this`readyCommandBuffers, this`completionHandlers
      ensures Valid() && Model() == AddSlot(old(Model()))
      ensures index == |old(readyCommandBuffers)| % UINT32_RANGE
    {
      readyCommandBuffers := readyCommandBuffers + [None];
      completionHandlers := completionHandlers + [None];
      index := (|readyCommandBuffers| - 1) % UINT32_RANGE;
    }

    /** An index that was never reserved is rejected (`at` throws) and changes nothing. */
    method SubmitCommandBuffer(index: nat, commandBuffer: CommandBuffer, func: Option<H>) returns (ok: bool)
      requires Valid()
      modifies this`readyCommandBuffers, this`completionHandlers, this`numSubmitted, this`batches, queue`items
      ensures Valid() && ok == (index < |old(readyCommandBuffers)|)
      ensures queue.items == old(queue.items) + NewWork(old(batches), batches)
      ensures Model() == if ok then FillSlot(old(Model()), index, commandBuffer, func) else old(Model())
    {
      ok := index < |readyCommandBuffers|;
      if !ok {
        return;
      }
      ghost var before := Model();
      readyCommandBuffers := readyCommandBuffers[index := Some(commandBuffer)];
      completionHandlers := completionHandlers[index := func];
      SubmitReady();
    }

    /** Submits the filled slots that follow those already submitted, as one batch. */
    method SubmitReady()
      requires Valid()
      modifies this`completionHandlers, this`numSubmitted, this`batches, queue`items
      ensures Valid() && Model() == ReadySubmitted(old(Model()))
      ensures queue.items == old(queue.items) + NewWork(old(batches), batches)
    {
      var toSubmit := FindPrefix(readyCommandBuffers[numSubmitted..]);
      if toSubmit != [] {
        var callbacks := MoveNonNull(completionHandlers[numSubmitted..]);
        completionHandlers := completionHandlers[..numSubmitted] + Nulls(|completionHandlers| - numSubmitted);
        batches := batches + [Batch(toSubmit, callbacks)];
        queue.items := queue.items + [Work(toSubmit)];
        numSubmitted := numSubmitted + |toSubmit|;
      }
    }

    /** The calling thread's next buffer in the current frame slot, allocating more when all are in use. */
    method GetCommandBuffer(thread: nat) returns (buffer: CommandBuffer)
      requires Valid() && thread < |frameResources[frameNumber]|
      modifies this`frameResources
      ensures Valid()
      ensures buffer == CommandBuffer(frameNumber, thread, old(frameResources)[frameNumber][thread].used)
      ensures frameResources ==
                old(frameResources)[frameNumber :=
                    old(frameResources)[frameNumber][thread := Take(old(frameResources)[frameNumber][thread])]]
      ensures buffer.index < frameResources[frameNumber][thread].size
    {
      var pool := frameResources[frameNumber][thread];
      if pool.used == pool.size {
        var grown := if pool.size == 0 then 1 else pool.size;
        pool := pool.(size := pool.size + grown);
      }
      buffer := CommandBuffer(frameNumber, thread, pool.used);
      frameResources :=
          frameResources[frameNumber := frameResources[frameNumber][thread := pool.(used := pool.used + 1)]];
    }

    /** Advances to the next frame slot and resets the resources of each of its threads. */
    method NextFrame()
      requires Valid()
      modifies this`frameNumber, this`frameResources
      ensures Valid() && frameNumber == NextSlot(old(frameNumber))
      ensures frameResources == old(frameResources)[frameNumber := ResetPools(old(frameResources)[frameNumber])]
    {
      frameNumber := (frameNumber + 1) % FRAMES;
      var entries := frameResources[frameNumber];
      var i := 0;
      while i < |entries|
        invariant 0 <= i <= |entries| == |frameResources[frameNumber]|
        invariant forall j :: 0 <= j < |entries| ==>
                    entries[j] == if j < i then frameResources[frameNumber][j].(used := 0)
                        else frameResources[frameNumber][j]
      {
        entries := entries[i := entries[i].(used := 0)];
        i := i + 1;
      }
      assert entries == ResetPools(frameResources[frameNumber]);
      frameResources := frameResources[frameNumber := entries];
    }
  }

  function ReadySubmitted<C, H>(e: Executor<C, H>): Executor<C, H>
    requires e.WellFormed()
  {
    var prefix := FilledPrefix(e.ready[e.submitted..]);
    if prefix == [] then e
    else e.(handlers := e.handlers[..e.submitted] + Nulls(|e.handlers| - e.submitted),
            submitted := e.submitted + |prefix|,
            batches := e.batches + [Batch(prefix, NonNull(e.handlers[e.submitted..]))])
  }

  /** The search for the first empty slot. */
  method FindPrefix(slots: seq<Option<CommandBuffer>>) returns (prefix: seq<CommandBuffer>)
    ensures prefix == FilledPrefix(slots)
  {
    prefix := [];
    var end := 0;
    while end < |slots| && slots[end].Some?
      invariant end == |prefix| <= |slots|
      invariant forall i :: 0 <= i < end ==> slots[i] == Some(prefix[i])
    {
      prefix := prefix + [slots[end].value];
      end := end + 1;
    }
  }

  /** Filtering out the null handlers. */
  method MoveNonNull<H>(handlers: seq<Option<H>>) returns (callbacks: seq<H>)
    ensures callbacks == NonNull(handlers)
  {
    callbacks := [];
    var i := 0;
    while i < |handlers|
      invariant 0 <= i <= |handlers|
      invariant callbacks + NonNull(handlers[i..]) == NonNull(handlers)
    {
      assert handlers[i..][1..] == handlers[i + 1..];
      if handlers[i].Some? {
        callbacks := callbacks + [handlers[i].value];
      }
      i := i + 1;
    }
  }

  /** What submitting a task's buffer makes of the protocol's state. */
  lemma {:induction false} FinishIs(s: System, slot: nat, exec: Executor<CommandBuffer, nat>, queue: seq<Item>)
    requires Shape(s) && FrameReuse.Enabled(s, Finish(slot))
    requires exec == FillSlot(s.exec, slot, s.tasks[slot].buffer, Some(slot))
    requires queue == s.queue + NewWork(s.exec.batches, exec.batches)
    ensures FrameReuse.Next(s, Finish(slot)) == s.(exec := exec, tasks := s.tasks - {slot}, queue := queue)
  {
  }

  /**
    The renderer with its scheduler's GPU tasks.  The ghost fields are the history that the protocol keeps:
    whether a frame is under way, what was handed out since each reset, and which slots a fence covers.
   */
  class VulkanRenderer {
    const executor: GpuExecutor<nat>
    var frameNumber: nat
    var inFlightFences: seq<Fence>
    var surfacesToPresent: seq<nat>
    var tasks: map<nat, Task>
    ghost var inFrame: bool
    ghost var handedOut: seq<seq<CommandBuffer>>
    ghost var covered: seq<bool>
    ghost var frameStart: nat

    /** The state of the protocol in FrameReuse. */
    ghost function Model(): System
      reads this, executor, executor.queue
    {
      System(frameNumber, executor.frameNumber, inFrame, inFlightFences, executor.frameResources, executor.Model(),
             tasks, executor.queue.items, executor.queue.done, handedOut, covered, frameStart)
    }

    /** The protocol's invariant, which holds the two frame numbers equal. */
    ghost predicate Valid()
      reads this, executor, executor.queue
    {
      executor.Valid() && FrameReuse.Inv(Model())
    }

    constructor (numThreads: nat)
      ensures Valid() && Model() == Initial(numThreads) && surfacesToPresent == []
      ensures fresh(executor) && fresh(executor.queue)
    {
      var queue := new GraphicsQueue();
      executor := new GpuExecutor<nat>(queue, numThreads);
      frameNumber, inFlightFences, surfacesToPresent, tasks := 0, [Signalled, Signalled], [], map[];
      inFrame, handedOut, covered, frameStart := false, [[], []], [true, true], 0;
      new;
      FrameReuse.InitialInv(numThreads);
    }

    /** From the point where the wait on the next slot's fence has returned. */
    method BeginFrame()
      requires Valid() && !inFrame && inFlightFences[NextSlot(frameNumber)].Signalled?
      modifies this`frameNumber, this`inFrame, this`handedOut, this`frameStart, executor`frameNumber,
          executor`frameResources
      ensures Valid() && Model() == FrameReuse.Next(old(Model()), FrameReuse.Step.BeginFrame)
      ensures frameNumber == executor.frameNumber
    {
      FrameReuse.StepKeepsInv(Model(), FrameReuse.Step.BeginFrame);
      frameNumber := (frameNumber + 1) % FRAMES;
      executor.NextFrame();
      inFrame, handedOut, frameStart := true, handedOut[frameNumber := []], |executor.queue.items|;
    }

    /** From the point where the wait for the CPU tasks has returned. */
    method EndFrame() returns (presents: bool)
      requires Valid() && inFrame && tasks == map[]
      modifies this`inFlightFences, this`surfacesToPresent, this`inFrame, this`covered, executor.queue`items
      ensures Valid() && surfacesToPresent == [] && presents == (old(surfacesToPresent) != [])
      ensures Model() == FrameReuse.Next(old(Model()), FrameReuse.Step.EndFrame(presents))
    {
      var images := surfacesToPresent;
      surfacesToPresent := [];
      presents := images != [];
      FrameReuse.StepKeepsInv(Model(), FrameReuse.Step.EndFrame(presents));
      inFrame := false;
      covered := covered[frameNumber := presents || (covered[frameNumber] && handedOut[frameNumber] == [])];
      if presents {
        inFlightFences := inFlightFences[frameNumber := Pending(|executor.queue.items|)];
        executor.queue.items := executor.queue.items + [Signal(frameNumber)];
      }
    }

    /** ScheduleGpu reserves the next slot; only its number's lower 32 bits are kept. */
    method ScheduleGpu() returns (index: nat)
      requires Valid() && inFrame
      modifies this`tasks, executor`readyCommandBuffers, executor`completionHandlers
      ensures index == |old(executor.readyCommandBuffers)| % UINT32_RANGE
      ensures index == |old(executor.readyCommandBuffers)| ==>
                Valid() && Model() == FrameReuse.Next(old(Model()), Schedule)
    {
      FrameReuse.StepKeepsInv(Model(), Schedule);
      index := executor.AddCommandBufferSlot();
      tasks := tasks[index := Waiting];
    }

    /** A worker takes up a task and gets a command buffer for it. */
    method StartTask(index: nat, thread: nat)
      requires Valid() && FrameReuse.Enabled(Model(), Start(index, thread))
      modifies this`tasks, this`handedOut, executor`frameResources
      ensures Valid() && Model() == FrameReuse.Next(old(Model()), Start(index, thread))
    {
      FrameReuse.StepKeepsInv(Model(), Start(index, thread));
      var buffer := executor.GetCommandBuffer(thread);
      tasks := tasks[index := Recording(buffer)];
      handedOut := handedOut[executor.frameNumber := handedOut[executor.frameNumber] + [buffer]];
    }

    /** The worker has recorded the command buffer and submits it. */
    method FinishTask(index: nat)
      requires Valid() && FrameReuse.Enabled(Model(), Finish(index))
      modifies this`tasks, executor`readyCommandBuffers, executor`completionHandlers, executor`numSubmitted,
          executor`batches
      modifies executor.queue`items
      ensures Valid() && Model() == FrameReuse.Next(old(Model()), Finish(index))
    {
      ghost var before := Model();
      FrameReuse.StepKeepsInv(before, Finish(index));
      var ok := executor.SubmitCommandBuffer(index, tasks[index].buffer, Some(index));
      tasks := tasks - {index};
      FinishIs(before, index, executor.Model(), executor.queue.items);
    }
  }
}
