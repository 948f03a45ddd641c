/**
  One-shot completion (src/Teide/Util/ListenSender.h).  A producer sets a value or stops; a consumer
  connects an operation to the sender and starts it; whichever comes second completes the consumer's
  receiver.  The shared state lives as long as the sender, the operation or a producer's call in progress
  owns it.  The producer's set is two steps: locking the weak pointer, then delivering under the mutex.
 */
module Listening {
  import opened Wrappers

  datatype Outcome<T> = Value(value: T) | Stopped

  /** The variant held by CompletionState; OnResult stands for the stored callbacks of the receiver. */
  datatype Completion<T> = AwaitingResult | OnResult | ResultValue(value: T) | Canceled

  // ---------------------------------------------------------------- the shared state

  /** What SetReceiver completes the receiver with at once, if anything. */
  function Immediate<T>(c: Completion<T>): Option<Outcome<T>> {
    match c
    case Canceled => Some(Stopped)
    case ResultValue(v) => Some(Value(v))
    case _ => None
  }

  function Received<T>(c: Completion<T>): Completion<T> {
    if c.AwaitingResult? then OnResult else c
  }

  /** What SetValue and SetStopped leave when no receiver is registered yet. */
  function Delivered<T>(c: Completion<T>, o: Outcome<T>): Completion<T> {
    if c.AwaitingResult? then (match o case Value(v) => ResultValue(v) case Stopped => Canceled) else c
  }

  class CompletionState<T(!new)> {
    var state: Completion<T>
    /** What the receiver has been called with, in order. */
    var calls: seq<Outcome<T>>

    constructor ()
      ensures state == AwaitingResult && calls == []
    {
      state, calls := AwaitingResult, [];
    }

    method SetReceiver() returns (completed: bool)
      requires !state.OnResult?
      modifies this
      ensures state == Received(old(state)) && completed == Immediate(old(state)).Some?
      ensures calls == old(calls) + if completed then [Immediate(old(state)).value] else []
    {
      if state.Canceled? {
        calls := calls + [Stopped];
        return true;
      }
      if state.ResultValue? {
        calls := calls + [Value(state.value)];
        return true;
      }
      if state.AwaitingResult? {
        state := OnResult;
      }
      return false;
    }

    method SetValue(value: T)
      requires !state.ResultValue? || state.Canceled?
      modifies this
      ensures state == Delivered(old(state), Value(value))
      ensures calls == old(calls) + if old(state).OnResult? then [Value(value)] else []
    {
      if state.OnResult? {
        calls := calls + [Value(value)];
      } else if state.AwaitingResult? {
        state := ResultValue(value);
      }
    }

    method SetStopped()
      requires !state.ResultValue? || state.Canceled?
      modifies this
      ensures state == Delivered(old(state), Stopped)
      ensures calls == old(calls) + if old(state).OnResult? then [Stopped] else []
    {
      if state.OnResult? {
        calls := calls + [Stopped];
      } else if state.AwaitingResult? {
        state := Canceled;
      }
    }
  }

  // ---------------------------------------------------------------- the protocol

  datatype Producer = NotCalled | Locked | Missed | Done

  datatype Consumer = Unconnected | Connected | Started | Dropped

  /** `opOwns`: the operation still holds the shared state; `calls`: what the receiver was completed with. */
  datatype World<T> = World(completion: Completion<T>, senderOwns: bool, opOwns: bool,
                            consumer: Consumer, producer: Producer, calls: seq<Outcome<T>>)

  datatype Step = Connect(move: bool) | DropSender | Start | DropOperation | Lock | Deliver

  function Listen<T>(): World<T> {
    World(AwaitingResult, true, false, Unconnected, NotCalled, [])
  }

  predicate Alive<T>(w: World<T>) {
    w.senderOwns || w.opOwns || w.producer.Locked?
  }

  /** An operation that was started is only dropped once its receiver was completed. */
  predicate Enabled<T>(w: World<T>, step: Step) {
    match step
    case Connect(_) => w.senderOwns && w.consumer.Unconnected?
    case DropSender => w.senderOwns
    case Start => w.consumer.Connected?
    case DropOperation => w.consumer.Connected? || (w.consumer.Started? && w.calls != [])
    case Lock => w.producer.NotCalled?
    case Deliver => w.producer.Locked?
  }

  function After<T>(w: World<T>, step: Step, outcome: Outcome<T>): World<T>
    requires Enabled(w, step)
  {
    match step
    case Connect(move) => w.(senderOwns := !move, opOwns := true, consumer := Connected)
    case DropSender => w.(senderOwns := false)
    case Start =>
      var now := Immediate(w.completion);
      w.(completion := Received(w.completion), opOwns := now.None?, consumer := Started,
         calls := w.calls + if now.Some? then [now.value] else [])
    case DropOperation => w.(opOwns := false, consumer := Dropped)
    case Lock => w.(producer := if Alive(w) then Locked else Missed)
    case Deliver =>
      w.(completion := Delivered(w.completion, outcome), producer := Done,
         calls := w.calls + if w.completion.OnResult? then [outcome] else [])
  }

  /** A run in which the producer's one call has the given outcome. */
  ghost predicate IsRun<T(!new)>(run: seq<World<T>>, steps: seq<Step>, outcome: Outcome<T>) {
    && |run| == |steps| + 1 && run[0] == Listen()
    && forall i :: 0 <= i < |steps| ==> Enabled(run[i], steps[i]) && run[i + 1] == After(run[i], steps[i], outcome)
  }

  // ---------------------------------------------------------------- the invariant

  /** The state says which side has acted, and the receiver was called exactly when both have. */
  ghost predicate Inv<T(!new)>(w: World<T>, outcome: Outcome<T>, started: bool) {
    && w.completion == (if started && (!w.producer.Done? || w.completion.OnResult?) then OnResult
                        else if w.producer.Done? then Delivered(AwaitingResult, outcome) else AwaitingResult)
    && w.calls == (if started && w.producer.Done? then [outcome] else [])
    && (w.consumer.Started? ==> started)
    && (w.consumer.Unconnected? || w.consumer.Connected? ==> !started)
    && (w.consumer.Dropped? && started ==> w.producer.Done?)
    && (w.opOwns <==> w.consumer.Connected? || (w.consumer.Started? && w.completion.OnResult?))
    && (w.producer.Missed? ==> !w.senderOwns && !w.opOwns && (w.consumer.Unconnected? || w.consumer.Dropped?))
  }

  lemma {:induction false} StepKeepsInv<T(!new)>(w: World<T>, step: Step, outcome: Outcome<T>, started: bool)
    requires Inv(w, outcome, started) && Enabled(w, step)
    ensures Inv(After(w, step, outcome), outcome, started || step == Start)
  {
  }

  /** Start has been taken among the first n steps. */
  ghost predicate StartedBy(steps: seq<Step>, n: nat)
    requires n <= |steps|
  {
    Start in steps[..n]
  }

  lemma {:induction false} RunKeepsInv<T(!new)>(run: seq<World<T>>, steps: seq<Step>, outcome: Outcome<T>, n: nat)
    requires IsRun(run, steps, outcome) && n < |run|
    ensures Inv(run[n], outcome, StartedBy(steps, n))
  {
    if n > 0 {
      RunKeepsInv(run, steps, outcome, n - 1);
      StepKeepsInv(run[n - 1], steps[n - 1], outcome, StartedBy(steps, n - 1));
      assert steps[..n] == steps[..n - 1] + [steps[n - 1]];
    }
  }

  // ---------------------------------------------------------------- what every run guarantees

  /**
    The receiver is completed once, with the producer's outcome, when the operation has been started and the
    producer has delivered; otherwise it has not been completed.  Neither side trips its assertion.
   */
  lemma {:induction false} CompletedOnceIffBoth<T(!new)>(
      run: seq<World<T>>, steps: seq<Step>, outcome: Outcome<T>, n: nat)
    requires IsRun(run, steps, outcome) && n < |run|
    ensures run[n].calls == if StartedBy(steps, n) && Deliver in steps[..n] then [outcome] else []
    ensures Enabled(run[n], Start) ==> !run[n].completion.OnResult?
    ensures Enabled(run[n], Deliver) ==> !run[n].completion.ResultValue? && !run[n].completion.Canceled?
  {
    RunKeepsInv(run, steps, outcome, n);
    DoneIffDelivered(run, steps, outcome, n);
  }

  lemma {:induction false} DoneIffDelivered<T(!new)>(run: seq<World<T>>, steps: seq<Step>, outcome: Outcome<T>, n: nat)
    requires IsRun(run, steps, outcome) && n < |run|
    ensures run[n].producer.Done? <==> Deliver in steps[..n]
  {
    if n > 0 {
      DoneIffDelivered(run, steps, outcome, n - 1);
      assert steps[..n] == steps[..n - 1] + [steps[n - 1]];
    }
  }

  /**
    Once nothing owns the shared state it stays so: the producer's call finds nothing, and the receiver is never
    completed again.
   */
  lemma {:induction false} ExpiredIsFinal<T(!new)>(
      run: seq<World<T>>, steps: seq<Step>, outcome: Outcome<T>, m: nat, n: nat)
    requires IsRun(run, steps, outcome) && m <= n < |run| && !Alive(run[m])
    ensures !Alive(run[n]) && run[n].calls == run[m].calls
  {
    if m < n {
      ExpiredIsFinal(run, steps, outcome, m, n - 1);
      RunKeepsInv(run, steps, outcome, n - 1);
    }
  }

  /** A started operation keeps the state alive, so a call that comes after the start is not missed. */
  lemma {:induction false} StartedIsNotMissed<T(!new)>(
      run: seq<World<T>>, steps: seq<Step>, outcome: Outcome<T>, n: nat)
    requires IsRun(run, steps, outcome) && n < |run| && StartedBy(steps, n)
    ensures !run[n].producer.Missed?
    ensures run[n].calls == [] ==> Alive(run[n])
  {
    RunKeepsInv(run, steps, outcome, n);
  }
}
