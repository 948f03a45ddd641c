/**
  Two frames in flight: the protocol of src/Teide/VulkanRenderer.cpp (BeginFrame, EndFrame),
  src/Teide/GpuExecutor.cpp (NextFrame, GetCommandBuffer, SubmitCommandBuffer) and
  src/Teide/Util/FrameArray.h, against an abstract Vulkan queue.

  The queue follows sections 7.2 and 7.3 of the Vulkan 1.3 specification: work items may complete in
  any order, but a fence signal waits for everything submitted before it.  Renderer and scheduler
  submit to the same queue.  Worker steps interleave freely with the renderer's.
 */
module FrameReuse {
  import opened Wrappers
  import opened Submission

  const FRAMES := 2

  datatype CommandBuffer = CommandBuffer(frame: nat, thread: nat, index: nat)

  /** A thread's command buffers: how many exist, how many are handed out since the last reset. */
  datatype Pool = Pool(size: nat, used: nat)

  datatype Item = Work(buffers: seq<CommandBuffer>) | Signal(frame: nat)
  datatype Fence = Signalled | Pending(position: nat)
  datatype Task = Waiting | Recording(buffer: CommandBuffer)

  datatype System = System(
    rendererFrame: nat,
    executorFrame: nat,
    inFrame: bool,
    fences: seq<Fence>,
    pools: seq<seq<Pool>>,
    exec: Executor<CommandBuffer, nat>,
    tasks: map<nat, Task>,
    queue: seq<Item>,
    done: set<nat>,
    handedOut: seq<seq<CommandBuffer>>,   // history: since each slot's last reset
    covered: seq<bool>,                   // history: the slot's last use was followed by a fence, or used nothing
    frameStart: nat)                      // history: queue length when the current frame began

  datatype Step =
    | BeginFrame
    | EndFrame(presents: bool)
    | Schedule
    | Start(slot: nat, thread: nat)
    | Finish(slot: nat)
    | Complete(position: nat)

  function NextSlot(frame: nat): nat {
    (frame + 1) % FRAMES
  }

  function Initial(threads: nat): System {
    System(0, 0, false, [Signalled, Signalled], [seq(threads, _ => Pool(0, 0)), seq(threads, _ => Pool(0, 0))],
           Executor([], [], 0, []), map[], [], {}, [[], []], [true, true], 0)
  }

  /** Doubling growth: a full pool allocates as many buffers again, and at least one. */
  function Take(p: Pool): Pool {
    Pool(if p.used == p.size then p.size + (if p.size == 0 then 1 else p.size) else p.size, p.used + 1)
  }

  /** All buffers of a frame slot become available again; none is freed. */
  function ResetPools(pools: seq<Pool>): seq<Pool> {
    seq(|pools|, i requires 0 <= i < |pools| => pools[i].(used := 0))
  }

  predicate Enabled(s: System, step: Step)
    requires Shape(s)
  {
    match step
    case BeginFrame => !s.inFrame && s.fences[NextSlot(s.rendererFrame)].Signalled?
    case EndFrame(_) => s.inFrame && s.tasks == map[]
    case Schedule => s.inFrame
    case Start(slot, thread) => slot in s.tasks && s.tasks[slot].Waiting? && thread < |s.pools[s.executorFrame]|
    case Finish(slot) => slot in s.tasks && s.tasks[slot].Recording? && slot < |s.exec.ready|
    case Complete(k) => k < |s.queue| && k !in s.done && (s.queue[k].Signal? ==> forall j :: 0 <= j < k ==> j in s.done)
  }

  predicate Shape(s: System) {
    && s.rendererFrame < FRAMES && s.executorFrame < FRAMES
    && |s.fences| == |s.pools| == |s.handedOut| == |s.covered| == FRAMES
    && s.exec.WellFormed()
  }

  function Next(s: System, step: Step): System
    requires Shape(s) && Enabled(s, step)
  {
    match step
    case BeginFrame =>
      var frame := NextSlot(s.executorFrame);
      s.(rendererFrame := NextSlot(s.rendererFrame),
         executorFrame := frame,
         inFrame := true,
         pools := s.pools[frame := ResetPools(s.pools[frame])],
         handedOut := s.handedOut[frame := []],
         frameStart := |s.queue|)
    case EndFrame(presents) =>
      var frame := s.rendererFrame;
      var s' := s.(inFrame := false,
                   covered := s.covered[frame := presents || (s.covered[frame] && s.handedOut[frame] == [])]);
      if presents then s'.(fences := s.fences[frame := Pending(|s.queue|)], queue := s.queue + [Signal(frame)]) else s'
    case Schedule =>
      s.(exec := AddSlot(s.exec), tasks := s.tasks[|s.exec.ready| := Waiting])
    case Start(slot, thread) =>
      var frame := s.executorFrame;
      var pool := s.pools[frame][thread];
      var buffer := CommandBuffer(frame, thread, pool.used);
      s.(pools := s.pools[frame := s.pools[frame][thread := Take(pool)]],
         tasks := s.tasks[slot := Recording(buffer)],
         handedOut := s.handedOut[frame := s.handedOut[frame] + [buffer]])
    case Finish(slot) =>
      var exec := FillSlot(s.exec, slot, s.tasks[slot].buffer, Some(slot));
      s.(exec := exec,
         tasks := s.tasks - {slot},
         queue := if |exec.batches| > |s.exec.batches|
                  then s.queue + [Work(exec.batches[|s.exec.batches|].buffers)]
                  else s.queue)
    case Complete(k) =>
      var s' := s.(done := s.done + {k});
      if s.queue[k].Signal? && s.queue[k].frame < FRAMES && s.fences[s.queue[k].frame] == Pending(k)
      then s'.(fences := s.fences[s.queue[k].frame := Signalled]) else s'
  }

  ghost predicate Reaches(s: System, steps: seq<Step>, s': System)
    decreases |steps|
  {
    if steps == [] then s == s'
    else Shape(s) && Enabled(s, steps[0]) && Reaches(Next(s, steps[0]), steps[1..], s')
  }

  // ---------------------------------------------------------------- safety

  predicate Uses(item: Item, frame: nat) {
    item.Work? && exists i :: 0 <= i < |item.buffers| && item.buffers[i].frame == frame
  }

  /** Resetting the command buffers of `frame` disturbs neither the GPU nor a worker. */
  ghost predicate ResetSafe(s: System, frame: nat) {
    && (forall k :: 0 <= k < |s.queue| && Uses(s.queue[k], frame) ==> k in s.done)
    && (forall slot :: slot in s.tasks && s.tasks[slot].Recording? ==> s.tasks[slot].buffer.frame != frame)
    && (forall i :: s.exec.submitted <= i < |s.exec.ready| && s.exec.ready[i].Some? ==>
        s.exec.ready[i].value.frame != frame)
  }

  /** Every reserved slot is either filled or owned by one task, and tasks live inside a frame. */
  ghost predicate TasksMatch(s: System)
    requires Shape(s)
  {
    && InOrder(s.exec)
    && (forall slot :: slot in s.tasks <==> 0 <= slot < |s.exec.ready| && s.exec.ready[slot].None?)
    && (!s.inFrame ==> s.tasks == map[])
  }

  /** Buffers on their way to the queue were handed out in the current frame. */
  ghost predicate InTransit(s: System)
    requires Shape(s)
  {
    && (forall slot :: slot in s.tasks && s.tasks[slot].Recording? ==>
          s.tasks[slot].buffer.frame == s.executorFrame && s.tasks[slot].buffer in s.handedOut[s.executorFrame])
    && (forall i :: s.exec.submitted <= i < |s.exec.ready| && s.exec.ready[i].Some? ==>
          s.exec.ready[i].value.frame == s.executorFrame && s.exec.ready[i].value in s.handedOut[s.executorFrame])
  }

  ghost predicate PoolsFresh(s: System)
    requires Shape(s)
  {
    && (forall f, t :: 0 <= f < FRAMES && 0 <= t < |s.pools[f]| ==> s.pools[f][t].used <= s.pools[f][t].size)
    && (forall f, i :: 0 <= f < FRAMES && 0 <= i < |s.handedOut[f]| ==>
          var b := s.handedOut[f][i]; b.frame == f && b.thread < |s.pools[f]| && b.index < s.pools[f][b.thread].used)
    && (forall f, i, j :: 0 <= f < FRAMES && 0 <= i < j < |s.handedOut[f]| ==> s.handedOut[f][i] != s.handedOut[f][j])
  }

  ghost predicate FencesMatch(s: System)
    requires Shape(s)
  {
    forall f :: 0 <= f < FRAMES && s.fences[f].Pending? ==>
      && s.fences[f].position < |s.queue| && s.queue[s.fences[f].position] == Signal(f)
      && s.fences[f].position !in s.done
      && (f != s.rendererFrame ==> s.fences[f].position < s.frameStart)
      && (f == s.rendererFrame ==> !s.inFrame)
  }

  /** Work item `k` of slot `f` has finished, lies below the slot's pending fence, or belongs to the frame under way. */
  ghost predicate CoveredAt(s: System, f: nat, k: nat)
    requires Shape(s) && f < FRAMES
  {
    || k in s.done
    || (s.fences[f].Pending? && k < s.fences[f].position)
    || (s.inFrame && f == s.executorFrame && s.handedOut[f] != [])
  }

  ghost predicate WorkCovered(s: System)
    requires Shape(s)
  {
    forall f: nat, k: nat :: f < FRAMES && s.covered[f] && k < |s.queue| && Uses(s.queue[k], f) ==> CoveredAt(s, f, k)
  }

  ghost predicate Inv(s: System) {
    && Shape(s)
    && s.rendererFrame == s.executorFrame
    && s.frameStart <= |s.queue|
    && TasksMatch(s) && InTransit(s) && PoolsFresh(s) && FencesMatch(s) && WorkCovered(s)
    && (forall k :: k in s.done ==> 0 <= k < |s.queue|)
  }

  lemma {:induction false} BeginKeepsInv(s: System)
    requires Inv(s) && Enabled(s, BeginFrame)
    ensures Inv(Next(s, BeginFrame))
  {
    var s' := Next(s, BeginFrame);
    assert TasksMatch(s');
    assert s.exec.submitted == |s.exec.ready|;
    assert InTransit(s');
    assert PoolsFresh(s');
    assert FencesMatch(s');
    assert WorkCovered(s');
  }

  lemma {:induction false} EndKeepsInv(s: System, presents: bool)
    requires Inv(s) && Enabled(s, EndFrame(presents))
    ensures Inv(Next(s, EndFrame(presents)))
  {
    var s' := Next(s, EndFrame(presents));
    assert InTransit(s');
    assert PoolsFresh(s');
    assert FencesMatch(s');
    assert WorkCovered(s');
  }

  lemma {:induction false} ScheduleKeepsInv(s: System)
    requires Inv(s) && Enabled(s, Schedule)
    ensures Inv(Next(s, Schedule))
  {
    var s' := Next(s, Schedule);
    assert TasksMatch(s');
    assert InTransit(s');
    assert PoolsFresh(s') && FencesMatch(s') && WorkCovered(s');
  }

  lemma {:induction false} StartKeepsInv(s: System, slot: nat, thread: nat)
    requires Inv(s) && Enabled(s, Start(slot, thread))
    ensures Inv(Next(s, Start(slot, thread)))
  {
    var s' := Next(s, Start(slot, thread));
    assert TasksMatch(s');
    assert InTransit(s');
    assert PoolsFresh(s');
    assert FencesMatch(s');
    assert WorkCovered(s');
  }

  /** `queue` is the queue of `s`, or that followed by one work item of the current frame. */
  ghost predicate PushesCurrent(s: System, queue: seq<Item>) {
    var n := |s.queue|;
    || queue == s.queue
    || (&& |queue| == n + 1 && queue[..n] == s.queue && queue[n].Work?
        && forall i :: 0 <= i < |queue[n].buffers| ==> queue[n].buffers[i].frame == s.executorFrame)
  }

  /** The buffers a fill pushes to the queue were all handed out in the current frame. */
  lemma {:induction false} FinishPushesCurrent(s: System, slot: nat)
    requires Inv(s) && Enabled(s, Finish(slot))
    ensures var s' := Next(s, Finish(slot));
            && s.handedOut[s.executorFrame] != []
            && InOrder(s'.exec) && InTransit(s')
            && PushesCurrent(s, s'.queue)
  {
    FillKeepsOrder(s.exec, slot, s.tasks[slot].buffer, Some(slot));
    GrowthIsCurrent(s, slot, Next(s, Finish(slot)));
  }

  lemma {:induction false} GrowthIsCurrent(s: System, slot: nat, s': System)
    requires Inv(s) && slot in s.tasks && s.tasks[slot].Recording? && slot < |s.exec.ready|
    requires Shape(s') && InOrder(s'.exec) && Grows(s.exec, s'.exec)
    requires s'.exec.ready == s.exec.ready[slot := Some(s.tasks[slot].buffer)]
    requires s' == s.(exec := s'.exec, tasks := s.tasks - {slot}, queue := s'.queue)
    requires s'.queue == if |s'.exec.batches| > |s.exec.batches|
              then s.queue + [Work(s'.exec.batches[|s.exec.batches|].buffers)] else s.queue
    ensures s.handedOut[s.executorFrame] != [] && InTransit(s') && PushesCurrent(s, s'.queue)
  {
    var frame, handed := s.executorFrame, s.handedOut[s.executorFrame];
    assert InTransit(s);
    FillIsCurrent(s.exec.ready, s.exec.submitted, slot, s.tasks[slot].buffer, frame, handed);
    assert InTransit(s');
    if |s'.exec.batches| > |s.exec.batches| {
      BatchIsCurrent(s.exec, s'.exec, frame, handed);
    }
  }

  /** The buffers in slots from `from` on belong to the frame and were handed out in it. */
  ghost predicate FromFrame(ready: seq<Option<CommandBuffer>>, from: nat, frame: nat, handed: seq<CommandBuffer>) {
    forall i :: from <= i < |ready| && ready[i].Some? ==> ready[i].value.frame == frame && ready[i].value in handed
  }

  lemma {:induction false} FillIsCurrent(ready: seq<Option<CommandBuffer>>, from: nat, slot: nat, buffer: CommandBuffer,
                                         frame: nat, handed: seq<CommandBuffer>)
    requires FromFrame(ready, from, frame, handed) && slot < |ready| && buffer.frame == frame && buffer in handed
    ensures FromFrame(ready[slot := Some(buffer)], from, frame, handed)
  {
  }

  lemma {:induction false} BatchIsCurrent<H>(
      e: Executor<CommandBuffer, H>, e': Executor<CommandBuffer, H>, frame: nat, handed: seq<CommandBuffer>)
    requires Grows(e, e') && |e'.batches| > |e.batches| && FromFrame(e'.ready, e.submitted, frame, handed)
    ensures var buffers := e'.batches[|e.batches|].buffers; forall i :: 0 <= i < |buffers| ==> buffers[i].frame == frame
  {
    var buffers := e'.batches[|e.batches|].buffers;
    forall i | 0 <= i < |buffers| ensures buffers[i].frame == frame {
      assert e'.ready[e.submitted + i] == Some(buffers[i]);
    }
  }

  lemma {:induction false} FinishKeepsInv(s: System, slot: nat)
    requires Inv(s) && Enabled(s, Finish(slot))
    ensures Inv(Next(s, Finish(slot)))
  {
    var s' := Next(s, Finish(slot));
    FinishPushesCurrent(s, slot);
    assert TasksMatch(s');
    PushKeepsFences(s, s');
  }

  /** Queueing work of the current frame leaves fences and older work covered. */
  lemma {:induction false} PushKeepsFences(s: System, s': System)
    requires Inv(s) && Shape(s') && s.inFrame && s.handedOut[s.executorFrame] != []
    requires s' == s.(exec := s'.exec, tasks := s'.tasks, queue := s'.queue)
    requires PushesCurrent(s, s'.queue)
    ensures |s'.queue| >= |s.queue| && PoolsFresh(s') && FencesMatch(s') && WorkCovered(s')
    ensures forall k :: k in s'.done ==> 0 <= k < |s'.queue|
  {
    forall f: nat, k: nat | f < FRAMES && s'.covered[f] && k < |s'.queue| && Uses(s'.queue[k], f)
      ensures CoveredAt(s', f, k)
    {
      if k < |s.queue| {
        assert s'.queue[k] == s.queue[k];
        assert CoveredAt(s, f, k);
      }
    }
  }

  lemma {:induction false} CompleteKeepsInv(s: System, k: nat)
    requires Inv(s) && Enabled(s, Complete(k))
    ensures Inv(Next(s, Complete(k)))
  {
    var s' := Next(s, Complete(k));
    assert TasksMatch(s') && InTransit(s') && PoolsFresh(s');
    CompletionKeepsFences(s, k, s');
  }

  lemma {:induction false} CompletionKeepsFences(s: System, k: nat, s': System)
    requires Shape(s) && FencesMatch(s) && WorkCovered(s) && Enabled(s, Complete(k)) && s' == Next(s, Complete(k))
    ensures FencesMatch(s') && WorkCovered(s')
  {
    forall f: nat, j: nat | f < FRAMES && s'.covered[f] && j < |s'.queue| && Uses(s'.queue[j], f)
      ensures CoveredAt(s', f, j)
    {
      assert CoveredAt(s, f, j);
    }
  }

  lemma {:induction false} StepKeepsInv(s: System, step: Step)
    requires Inv(s) && Enabled(s, step)
    ensures Inv(Next(s, step))
  {
    match step
    case BeginFrame => BeginKeepsInv(s);
    case EndFrame(presents) => EndKeepsInv(s, presents);
    case Schedule => ScheduleKeepsInv(s);
    case Start(slot, thread) => StartKeepsInv(s, slot, thread);
    case Finish(slot) => FinishKeepsInv(s, slot);
    case Complete(k) => CompleteKeepsInv(s, k);
  }

  lemma {:induction false} ReachedKeepsInv(s: System, steps: seq<Step>, s': System)
    requires Inv(s) && Reaches(s, steps, s')
    ensures Inv(s')
    decreases |steps|
  {
    if steps != [] {
      StepKeepsInv(s, steps[0]);
      ReachedKeepsInv(Next(s, steps[0]), steps[1..], s');
    }
  }

  /** Nothing but an unpresented frame that handed out buffers uncovers a slot. */
  lemma {:induction false} PresentingKeepsCovered(s: System, steps: seq<Step>, s': System)
    requires Inv(s) && Reaches(s, steps, s') && (forall f :: 0 <= f < FRAMES ==> s.covered[f])
    requires EndFrame(false) !in steps
    ensures Inv(s') && forall f :: 0 <= f < FRAMES ==> s'.covered[f]
    decreases |steps|
  {
    if steps != [] {
      StepKeepsInv(s, steps[0]);
      assert steps[0] in steps;
      PresentingKeepsCovered(Next(s, steps[0]), steps[1..], s');
    }
  }

  lemma {:induction false} InitialInv(threads: nat)
    ensures Inv(Initial(threads))
  {
    assert Concat(Initial(threads).exec.batches) == [];
  }

  /** In every run the two frame arrays agree, and a slot whose last use was covered is reset only when it is idle. */
  lemma {:induction false} ResetIsSafe(threads: nat, steps: seq<Step>, s: System)
    requires Reaches(Initial(threads), steps, s)
    ensures Shape(s) && s.rendererFrame == s.executorFrame
    ensures Enabled(s, BeginFrame) && s.covered[NextSlot(s.executorFrame)] ==> ResetSafe(s, NextSlot(s.executorFrame))
  {
    InitialInv(threads);
    ReachedKeepsInv(Initial(threads), steps, s);
    if Enabled(s, BeginFrame) && s.covered[NextSlot(s.executorFrame)] {
      var f := NextSlot(s.executorFrame);
      forall k | 0 <= k < |s.queue| && Uses(s.queue[k], f) ensures k in s.done {
        assert CoveredAt(s, f, k);
      }
    }
  }

  /** Frame reuse safety: when every frame presents, every reset is safe. */
  lemma {:induction false} FrameReuseSafety(threads: nat, steps: seq<Step>, s: System)
    requires Reaches(Initial(threads), steps, s) && EndFrame(false) !in steps
    ensures Shape(s) && (Enabled(s, BeginFrame) ==> ResetSafe(s, NextSlot(s.executorFrame)))
  {
    InitialInv(threads);
    PresentingKeepsCovered(Initial(threads), steps, s);
    ResetIsSafe(threads, steps, s);
  }

  /** Between two resets of a slot no command buffer is handed out twice, and every handed-out one exists. */
  lemma {:induction false} HandedOutOnce(threads: nat, steps: seq<Step>, s: System, slot: nat, thread: nat)
    requires Reaches(Initial(threads), steps, s) && Shape(s) && Enabled(s, Start(slot, thread))
    ensures var s' := Next(s, Start(slot, thread));
            && s'.tasks[slot].Recording?
            && s'.tasks[slot].buffer !in s.handedOut[s.executorFrame]
            && s'.tasks[slot].buffer.index < s'.pools[s.executorFrame][thread].size
  {
    InitialInv(threads);
    ReachedKeepsInv(Initial(threads), steps, s);
    assert s.pools[s.executorFrame][thread].used <= s.pools[s.executorFrame][thread].size;
  }

  // ---------------------------------------------------------------- the condition is necessary

  lemma {:induction false} ReachesTrans(s: System, a: seq<Step>, mid: System, b: seq<Step>, s': System)
    requires Reaches(s, a, mid) && Reaches(mid, b, s')
    ensures Reaches(s, a + b, s')
    decreases |a|
  {
    if a == [] {
      assert a + b == b;
    } else {
      ReachesTrans(Next(s, a[0]), a[1..], mid, b, s');
      assert (a + b)[1..] == a[1..] + b;
    }
  }

  lemma {:induction false} ReachesOne(s: System, step: Step)
    requires Shape(s) && Enabled(s, step)
    ensures Reaches(s, [step], Next(s, step))
  {
    assert Reaches(Next(s, step), [], Next(s, step));
  }

  /** From `s` to `s'` the GPU has finished the items before `n`, and nothing else has happened. */
  ghost predicate CaughtUp(s: System, s': System, n: nat) {
    && s'.queue == s.queue && s'.inFrame == s.inFrame && s'.executorFrame == s.executorFrame
    && s'.exec == s.exec && s'.tasks == s.tasks && s'.frameStart == s.frameStart
    && (forall k :: 0 <= k < n ==> k in s'.done)
    && (forall k :: n <= k < |s.queue| ==> (k in s'.done <==> k in s.done))
    && KeepsSignals(s.fences, s'.fences)
  }

  ghost predicate KeepsSignals(fences: seq<Fence>, fences': seq<Fence>) {
    |fences'| == |fences| && forall f :: 0 <= f < |fences| && fences[f].Signalled? ==> fences'[f].Signalled?
  }

  lemma {:induction false} CompleteEffect(s: System, k: nat)
    requires Inv(s) && Enabled(s, Complete(k))
    ensures var s' := Next(s, Complete(k));
            && Inv(s') && Reaches(s, [Complete(k)], s') && s' == s.(done := s.done + {k}, fences := s'.fences)
            && KeepsSignals(s.fences, s'.fences)
  {
    StepKeepsInv(s, Complete(k));
    ReachesOne(s, Complete(k));
  }

  lemma {:induction false} CatchUpOne(s: System, mid: System, s': System, n: nat)
    requires CaughtUp(s, mid, n) && n < |s.queue| && KeepsSignals(mid.fences, s'.fences)
    requires s' == mid.(done := mid.done + {n}, fences := s'.fences)
    ensures CaughtUp(s, s', n + 1)
  {
  }

  /** The GPU may finish exactly the items before `n` that are still running. */
  lemma {:induction false} CompleteBefore(s: System, n: nat) returns (steps: seq<Step>, s': System)
    requires Inv(s) && n <= |s.queue|
    ensures Reaches(s, steps, s') && Inv(s') && CaughtUp(s, s', n)
  {
    if n == 0 {
      return [], s;
    }
    var first, mid := CompleteBefore(s, n - 1);
    if n - 1 in mid.done {
      assert CaughtUp(s, mid, n);
      return first, mid;
    }
    s' := Next(mid, Complete(n - 1));
    CompleteEffect(mid, n - 1);
    CatchUpOne(s, mid, s', n - 1);
    ReachesTrans(s, first, mid, [Complete(n - 1)], s');
    steps := first + [Complete(n - 1)];
  }

  /**
    Conversely, a frame that ends without presenting leaves its slot unprotected: if some of its work is
    still running, there is a continuation (the GPU catches up with older work, one more frame begins and
    ends) after which BeginFrame resets command buffers the GPU still executes.
   */
  lemma {:induction false} UnpresentedFrameIsReset(s: System, k: nat) returns (steps: seq<Step>, s': System)
    requires Inv(s) && !s.inFrame && s.fences[s.rendererFrame].Signalled?
    requires s.frameStart <= k < |s.queue| && Uses(s.queue[k], s.executorFrame) && k !in s.done
    ensures Reaches(s, steps, s') && Shape(s') && Enabled(s', BeginFrame)
    ensures NextSlot(s'.executorFrame) == s.executorFrame
    ensures !ResetSafe(s', s.executorFrame)
  {
    var f := s.executorFrame;
    var first, idle := CompleteBefore(s, s.frameStart);
    var other := NextSlot(f);
    assert idle.fences[other].Signalled?;
    var begun := Next(idle, BeginFrame);
    StepKeepsInv(idle, BeginFrame);
    s' := Next(begun, EndFrame(false));
    ReachesOne(begun, EndFrame(false));
    ReachesOne(idle, BeginFrame);
    ReachesTrans(idle, [BeginFrame], begun, [EndFrame(false)], s');
    ReachesTrans(s, first, idle, [BeginFrame] + [EndFrame(false)], s');
    steps := first + ([BeginFrame] + [EndFrame(false)]);
    assert Uses(s'.queue[k], f) && k !in s'.done;
  }

  // ---------------------------------------------------------------- what pools have in use

  /** A thread's buffers in use are exactly those handed out since the slot's last reset, numbered from zero. */
  ghost predicate PoolExact(s: System, f: nat, t: nat) {
    f < FRAMES && Shape(s) && t < |s.pools[f]| ==>
      forall i: nat :: CommandBuffer(f, t, i) in s.handedOut[f] <==> i < s.pools[f][t].used
  }

  /** The number of buffers of a thread among those handed out. */
  function HandedTo(buffers: seq<CommandBuffer>, t: nat): nat {
    if buffers == [] then 0
    else HandedTo(buffers[..|buffers| - 1], t) + if buffers[|buffers| - 1].thread == t then 1 else 0
  }

  ghost predicate PoolCounts(s: System, f: nat, t: nat) {
    f < FRAMES && Shape(s) && t < |s.pools[f]| ==> s.pools[f][t].used == HandedTo(s.handedOut[f], t)
  }

  ghost predicate PoolsExact(s: System) {
    forall f: nat, t: nat :: PoolExact(s, f, t) && PoolCounts(s, f, t)
  }

  lemma {:induction false} StepKeepsExact(s: System, step: Step)
    requires Inv(s) && Enabled(s, step) && PoolsExact(s)
    ensures PoolsExact(Next(s, step))
  {
    var s' := Next(s, step);
    StepKeepsInv(s, step);
    forall f: nat, t: nat ensures PoolExact(s', f, t) && PoolCounts(s', f, t) {
      assert PoolExact(s, f, t) && PoolCounts(s, f, t);
      if step.Start? && f == s.executorFrame && t < |s.pools[f]| {
        StartKeepsExact(s, step.slot, step.thread, t);
      }
    }
  }

  lemma {:induction false} StartKeepsExact(s: System, slot: nat, thread: nat, t: nat)
    requires Inv(s) && Enabled(s, Start(slot, thread)) && t < |s.pools[s.executorFrame]|
    requires PoolExact(s, s.executorFrame, t) && PoolCounts(s, s.executorFrame, t)
    ensures var s' :=
              Next(s, Start(slot, thread)); PoolExact(s', s.executorFrame, t) && PoolCounts(s', s.executorFrame, t)
  {
    var f, s' := s.executorFrame, Next(s, Start(slot, thread));
    var buffer := CommandBuffer(f, thread, s.pools[f][thread].used);
    assert s'.handedOut[f] == s.handedOut[f] + [buffer];
    assert s'.handedOut[f][..|s.handedOut[f]|] == s.handedOut[f];
  }

  lemma {:induction false} ReachedKeepsExact(s: System, steps: seq<Step>, s': System)
    requires Inv(s) && PoolsExact(s) && Reaches(s, steps, s')
    ensures Inv(s') && PoolsExact(s')
    decreases |steps|
  {
    if steps != [] {
      StepKeepsInv(s, steps[0]);
      StepKeepsExact(s, steps[0]);
      ReachedKeepsExact(Next(s, steps[0]), steps[1..], s');
    }
  }

  /**
    In every run: what a thread has in use in a slot is what it was handed there since the slot's last reset,
    in number and by index.
   */
  lemma {:induction false} UsedIsHandedOut(threads: nat, steps: seq<Step>, s: System, f: nat, t: nat)
    requires Reaches(Initial(threads), steps, s) && Shape(s) && f < FRAMES && t < |s.pools[f]|
    ensures s.pools[f][t].used == HandedTo(s.handedOut[f], t)
    ensures forall i: nat :: CommandBuffer(f, t, i) in s.handedOut[f] <==> i < s.pools[f][t].used
  {
    InitialInv(threads);
    ReachedKeepsExact(Initial(threads), steps, s);
    assert PoolExact(s, f, t) && PoolCounts(s, f, t);
  }

  /**
    So a thread's first buffer after a reset has index 0, and a pool allocates only when all its buffers have
    been handed out since the reset; it then doubles, or starts with one.
   */
  lemma {:induction false} AllocatesOnlyWhenUsedUp(threads: nat, steps: seq<Step>, s: System, slot: nat, t: nat)
    requires Reaches(Initial(threads), steps, s) && Shape(s) && Enabled(s, Start(slot, t))
    ensures var f, s' := s.executorFrame, Next(s, Start(slot, t));
            var size, size' := s.pools[f][t].size, s'.pools[f][t].size;
            && s'.tasks[slot].Recording? && s'.tasks[slot].buffer == CommandBuffer(f, t, HandedTo(s.handedOut[f], t))
            && (size' != size ==> forall i: nat :: i < size ==> CommandBuffer(f, t, i) in s.handedOut[f])
            && (size' != size ==> size' == if size == 0 then 1 else 2 * size)
  {
    UsedIsHandedOut(threads, steps, s, s.executorFrame, t);
  }

  /** Beginning a frame empties its slot: nothing is in use there, and all buffers are kept. */
  lemma {:induction false} BeginEmptiesSlot(threads: nat, steps: seq<Step>, s: System, t: nat)
    requires Reaches(Initial(threads), steps, s) && Shape(s) && Enabled(s, BeginFrame)
    requires t < |s.pools[NextSlot(s.executorFrame)]|
    ensures var f, s' := NextSlot(s.executorFrame), Next(s, BeginFrame);
            && |s'.pools[f]| == |s.pools[f]| && s'.pools[f][t] == Pool(s.pools[f][t].size, 0)
            && s'.executorFrame == f && s'.handedOut[f] == []
  {
    InitialInv(threads);
    ReachedKeepsExact(Initial(threads), steps, s);
    StepKeepsInv(s, BeginFrame);
    StepKeepsExact(s, BeginFrame);
    assert PoolCounts(Next(s, BeginFrame), NextSlot(s.executorFrame), t);
  }

  /** The wait for a frame's fence can end: whatever has been queued, the GPU can bring the next frame to begin. */
  lemma {:induction false} NextFrameCanBegin(threads: nat, steps: seq<Step>, s: System)
    returns (more: seq<Step>, s': System)
    requires Reaches(Initial(threads), steps, s) && Shape(s) && !s.inFrame
    ensures Reaches(s, more, s') && Shape(s') && Enabled(s', BeginFrame)
  {
    InitialInv(threads);
    ReachedKeepsInv(Initial(threads), steps, s);
    more, s' := CompleteBefore(s, |s.queue|);
    assert FencesMatch(s');
  }

  // ---------------------------------------------------------------- what tasks record is what the GPU gets

  /** All command buffers queued, in order. */
  function Queued(queue: seq<Item>): seq<CommandBuffer> {
    if queue == [] then []
    else
      var last := queue[|queue| - 1];
      Queued(queue[..|queue| - 1]) + if last.Work? then last.buffers else []
  }

  /** The queue holds what the executor has submitted, in that order. */
  ghost predicate QueueMatches(s: System) {
    Queued(s.queue) == Concat(s.exec.batches)
  }

  lemma {:induction false} QueuedAppend(queue: seq<Item>, item: Item)
    ensures Queued(queue + [item]) == Queued(queue) + if item.Work? then item.buffers else []
  {
    assert (queue + [item])[..|queue|] == queue;
  }

  lemma {:induction false} StepKeepsQueue(s: System, step: Step)
    requires Inv(s) && Enabled(s, step) && QueueMatches(s)
    ensures QueueMatches(Next(s, step))
  {
    match step
    case EndFrame(presents) => QueuedAppend(s.queue, Signal(s.rendererFrame));
    case Finish(slot) => FinishKeepsQueue(s, slot);
    case _ =>
  }

  lemma {:induction false} FinishKeepsQueue(s: System, slot: nat)
    requires Inv(s) && Enabled(s, Finish(slot)) && QueueMatches(s)
    ensures QueueMatches(Next(s, Finish(slot)))
  {
    var exec := FillSlot(s.exec, slot, s.tasks[slot].buffer, Some(slot));
    FillGrows(s.exec, slot, s.tasks[slot].buffer, Some(slot));
    if |exec.batches| > |s.exec.batches| {
      var batch := exec.batches[|s.exec.batches|];
      assert exec.batches == s.exec.batches + [batch];
      ConcatSnoc(s.exec.batches, batch);
      QueuedAppend(s.queue, Work(batch.buffers));
    }
  }

  /** `b` is being recorded for `slot`, or fills it. */
  ghost predicate Carries(s: System, slot: nat, b: CommandBuffer) {
    && slot < |s.exec.ready|
    && if slot in s.tasks then s.tasks[slot] == Recording(b) else s.exec.ready[slot] == Some(b)
  }

  lemma {:induction false} StepCarries(s: System, step: Step, slot: nat, b: CommandBuffer)
    requires Inv(s) && Enabled(s, step) && Carries(s, slot, b)
    ensures Carries(Next(s, step), slot, b)
  {
    if step.Finish? {
      FillGrows(s.exec, step.slot, s.tasks[step.slot].buffer, Some(step.slot));
    }
  }

  lemma {:induction false} RunCarries(s: System, steps: seq<Step>, s': System, slot: nat, b: CommandBuffer)
    requires Inv(s) && QueueMatches(s) && Carries(s, slot, b) && Reaches(s, steps, s')
    ensures Inv(s') && QueueMatches(s') && Carries(s', slot, b)
    decreases |steps|
  {
    if steps != [] {
      StepKeepsInv(s, steps[0]);
      StepKeepsQueue(s, steps[0]);
      StepCarries(s, steps[0], slot, b);
      RunCarries(Next(s, steps[0]), steps[1..], s', slot, b);
    }
  }

  lemma {:induction false} ReachedMatches(s: System, steps: seq<Step>, s': System)
    requires Inv(s) && QueueMatches(s) && Reaches(s, steps, s')
    ensures Inv(s') && QueueMatches(s')
    decreases |steps|
  {
    if steps != [] {
      StepKeepsInv(s, steps[0]);
      StepKeepsQueue(s, steps[0]);
      ReachedMatches(Next(s, steps[0]), steps[1..], s');
    }
  }

  /**
    The command buffer a task got is the one its slot is filled with, and the one the queue receives at the
    slot's place, whatever happens in between.
   */
  lemma {:induction false} RecordedIsQueued(
      threads: nat, before: seq<Step>, s: System, slot: nat, b: CommandBuffer, after: seq<Step>, s': System)
    requires Reaches(Initial(threads), before, s) && Reaches(s, after, s')
    requires slot in s.tasks && s.tasks[slot] == Recording(b)
    ensures Shape(s') && |Queued(s'.queue)| == s'.exec.submitted
    ensures slot < s'.exec.submitted ==> Queued(s'.queue)[slot] == b
  {
    InitialInv(threads);
    assert QueueMatches(Initial(threads));
    ReachedMatches(Initial(threads), before, s);
    RunCarries(s, after, s', slot, b);
  }
}
