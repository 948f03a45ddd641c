/**
  Exactly when the frame protocol of module FrameReuse resets command buffers that are still in use, with the
  shortest run that does.
 */
module FrameResets {
  import opened Wrappers
  import Submission
  import opened FrameReuse

  // ---------------------------------------------------------------- an unsafe run from the start

  /** One task scheduled and recorded in the first frame, which then ends without presenting. */
  const OneTask := [BeginFrame, Schedule, Start(0, 0), Finish(0), EndFrame(false)]

  const FirstBuffer := CommandBuffer(1, 0, 0)

  function Pools(threads: nat): seq<Pool> {
    seq(threads, _ => Pool(0, 0))
  }

  /** The states that run passes through. */
  function Begun(threads: nat): System {
    Initial(threads).(rendererFrame := 1, executorFrame := 1, inFrame := true)
  }

  function Scheduled(threads: nat): System {
    Begun(threads).(exec := Submission.Executor([None], [None], 0, []), tasks := map[0 := Waiting])
  }

  function Started(threads: nat): System
    requires threads > 0
  {
    Scheduled(threads).(pools := [Pools(threads), Pools(threads)[0 := Pool(1, 1)]],
                        tasks := map[0 := Recording(FirstBuffer)],
                        handedOut := [[], [FirstBuffer]])
  }

  function Filled(threads: nat): System
    requires threads > 0
  {
    Started(threads).(exec := Submission.Executor([Some(FirstBuffer)], [None], 1,
                                                  [Submission.Batch([FirstBuffer], [0])]),
                      tasks := map[], queue := [Work([FirstBuffer])])
  }

  function Ended(threads: nat): System
    requires threads > 0
  {
    Filled(threads).(inFrame := false, covered := [true, false])
  }

  lemma {:induction false} ReachesBegun(threads: nat)
    ensures Reaches(Initial(threads), [BeginFrame], Begun(threads))
  {
    ReachesOne(Initial(threads), BeginFrame);
    assert ResetPools(Pools(threads)) == Pools(threads);
    assert Initial(threads).pools == [Pools(threads), Pools(threads)];
  }

  lemma {:induction false} ReachesStarted(threads: nat)
    requires threads > 0
    ensures Reaches(Scheduled(threads), [Start(0, 0)], Started(threads))
  {
    ReachesOne(Scheduled(threads), Start(0, 0));
    assert Scheduled(threads).pools == [Pools(threads), Pools(threads)];
    assert Take(Pools(threads)[0]) == Pool(1, 1);
    var s := Next(Scheduled(threads), Start(0, 0));
    assert s.tasks == map[0 := Recording(FirstBuffer)];
    assert [] + [FirstBuffer] == [FirstBuffer];
    assert s.handedOut == [[], [FirstBuffer]];
  }

  lemma {:induction false} ReachesFilled(threads: nat)
    requires threads > 0
    ensures Reaches(Started(threads), [Finish(0)], Filled(threads))
  {
    ReachesOne(Started(threads), Finish(0));
    var e := Started(threads).exec;
    assert [Some(FirstBuffer)][0..] == [Some(FirstBuffer)];
    assert Submission.FilledPrefix([Some(FirstBuffer)]) == [FirstBuffer] by { assert [Some(FirstBuffer)][1..] == []; }
    var handler: seq<Option<nat>> := [Some(0)];
    assert handler[0..] == handler && handler[1..] == [];
    assert Submission.NonNull(handler) == [0];
    assert Submission.FillSlot(e, 0, FirstBuffer, Some(0)) == Filled(threads).exec;
  }

  lemma {:induction false} ReachesRecording(threads: nat)
    requires threads > 0
    ensures Reaches(Initial(threads), [BeginFrame] + ([Schedule] + [Start(0, 0)]), Started(threads))
  {
    ReachesStarted(threads);
    ReachesTrans(Begun(threads), [Schedule], Scheduled(threads), [Start(0, 0)], Started(threads));
    ReachesBegun(threads);
    ReachesTrans(Initial(threads), [BeginFrame], Begun(threads), [Schedule] + [Start(0, 0)], Started(threads));
  }

  lemma {:induction false} ReachesUnpresented(threads: nat)
    requires threads > 0
    ensures Reaches(Initial(threads), OneTask, Ended(threads))
  {
    ReachesFilled(threads);
    ReachesTrans(Started(threads), [Finish(0)], Filled(threads), [EndFrame(false)], Ended(threads));
    ReachesRecording(threads);
    var first, last := [BeginFrame] + ([Schedule] + [Start(0, 0)]), [Finish(0)] + [EndFrame(false)];
    ReachesTrans(Initial(threads), first, Started(threads), last, Ended(threads));
    assert first + last == OneTask;
  }

  /** With any worker thread there is a run that resets command buffers the GPU still executes. */
  lemma {:induction false} UnsafeResetIsReached(threads: nat) returns (steps: seq<Step>, s: System)
    requires threads > 0
    ensures Reaches(Initial(threads), steps, s) && Shape(s) && Enabled(s, BeginFrame)
    ensures !ResetSafe(s, NextSlot(s.executorFrame))
  {
    var mid := Ended(threads);
    ReachesUnpresented(threads);
    InitialInv(threads);
    ReachedKeepsInv(Initial(threads), OneTask, mid);
    assert mid.queue[0].buffers[0].frame == 1;
    var rest;
    rest, s := UnpresentedFrameIsReset(mid, 0);
    ReachesTrans(Initial(threads), OneTask, mid, rest, s);
    steps := OneTask + rest;
  }

  // ---------------------------------------------------------------- exactly when resets are safe

  /** In no run does BeginFrame reset buffers in use; `skips` says whether frames may end without presenting. */
  ghost predicate AlwaysSafe(threads: nat, skips: bool) {
    forall steps, s :: Reaches(Initial(threads), steps, s) && (skips || EndFrame(false) !in steps) ==> NextResetSafe(s)
  }

  ghost predicate NextResetSafe(s: System) {
    Shape(s) && Enabled(s, BeginFrame) ==> ResetSafe(s, NextSlot(s.executorFrame))
  }

  /** Without worker threads nothing is ever recorded. */
  ghost predicate Idle(s: System) {
    && Shape(s) && (forall f :: 0 <= f < FRAMES ==> s.pools[f] == [])
    && (forall slot :: slot in s.tasks ==> s.tasks[slot].Waiting?)
    && (forall i :: 0 <= i < |s.exec.ready| ==> s.exec.ready[i].None?)
    && (forall k :: 0 <= k < |s.queue| ==> s.queue[k].Signal?)
  }

  lemma {:induction false} IdleStaysIdle(s: System, steps: seq<Step>, s': System)
    requires Idle(s) && Reaches(s, steps, s')
    ensures Idle(s')
    decreases |steps|
  {
    if steps != [] {
      IdleStaysIdle(Next(s, steps[0]), steps[1..], s');
    }
  }

  /** Resets are always safe exactly when every frame presents, or there is no thread to record anything. */
  lemma {:induction false} AlwaysSafeIff(threads: nat, skips: bool)
    ensures AlwaysSafe(threads, skips) <==> !skips || threads == 0
  {
    if !skips {
      forall steps, s | Reaches(Initial(threads), steps, s) && EndFrame(false) !in steps
        ensures NextResetSafe(s)
      {
        FrameReuseSafety(threads, steps, s);
      }
    } else if threads == 0 {
      forall steps, s | Reaches(Initial(threads), steps, s) ensures NextResetSafe(s) {
        IdleStaysIdle(Initial(threads), steps, s);
      }
    } else {
      var steps, s := UnsafeResetIsReached(threads);
      assert !NextResetSafe(s);
    }
  }
}
