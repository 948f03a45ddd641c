/**
  In-order submission of command buffers that worker threads finish in any order
  (src/Teide/GpuExecutor.cpp, src/Teide/Scheduler.h).

  `ScheduleGpu` reserves a slot, a worker later fills it, and every fill hands the
  longest filled prefix of the unsubmitted slots to the queue as one batch.  Each entry
  point runs under the lock of `Synchronized<GpuExecutor>`, so a run is a sequence of
  atomic steps, and every interleaving of workers is such a sequence.
 */
module Submission {
  import opened Wrappers

  datatype Batch<+C, +H> = Batch(buffers: seq<C>, callbacks: seq<H>)

  datatype Executor<+C, +H> = Executor(
    ready: seq<Option<C>>,
    handlers: seq<Option<H>>,
    submitted: nat,
    batches: seq<Batch<C, H>>)
  {
    predicate WellFormed() {
      |ready| == |handlers| && submitted <= |ready|
    }
  }

  /** The buffers that precede the first empty slot. */
  function FilledPrefix<C>(slots: seq<Option<C>>): (r: seq<C>)
    ensures |r| <= |slots|
    ensures forall i :: 0 <= i < |r| ==> slots[i] == Some(r[i])
    ensures |r| == |slots| || slots[|r|].None?
  {
    if slots == [] || slots[0].None? then [] else [slots[0].value] + FilledPrefix(slots[1..])
  }

  /** The handlers that are not null, in slot order. */
  function NonNull<H>(handlers: seq<Option<H>>): seq<H> {
    if handlers == [] then []
    else (if handlers[0].Some? then [handlers[0].value] else []) + NonNull(handlers[1..])
  }

  function Nulls<H>(n: nat): seq<Option<H>> {
    seq(n, _ => None)
  }

  function Empty<C, H>(): Executor<C, H> {
    Executor([], [], 0, [])
  }

  function AddSlot<C, H>(e: Executor<C, H>): Executor<C, H> {
    e.(ready := e.ready + [None], handlers := e.handlers + [None])
  }

  /** Filling a slot, and submitting what became contiguous.  The handlers of *all* unsubmitted slots are moved. */
  function FillSlot<C, H>(e: Executor<C, H>, slot: nat, buffer: C, handler: Option<H>): Executor<C, H>
    requires e.WellFormed() && slot < |e.ready|
  {
    var ready := e.ready[slot := Some(buffer)];
    var handlers := e.handlers[slot := handler];
    var prefix := FilledPrefix(ready[e.submitted..]);
    if prefix == [] then e.(ready := ready, handlers := handlers)
    else Executor(
           ready,
           handlers[..e.submitted] + Nulls(|handlers| - e.submitted),
           e.submitted + |prefix|,
           e.batches + [Batch(prefix, NonNull(handlers[e.submitted..]))])
  }

  // ---------------------------------------------------------------- submission order

  function Concat<C, H>(batches: seq<Batch<C, H>>): seq<C> {
    if batches == [] then [] else Concat(batches[..|batches| - 1]) + batches[|batches| - 1].buffers
  }

  /** Everything submitted so far is exactly the filled prefix, in slot order, and that prefix is maximal. */
  ghost predicate InOrder<C, H>(e: Executor<C, H>) {
    && e.WellFormed()
    && |Concat(e.batches)| == e.submitted
    && (forall i :: 0 <= i < e.submitted ==> e.ready[i] == Some(Concat(e.batches)[i]))
    && (e.submitted < |e.ready| ==> e.ready[e.submitted].None?)
  }

  /** `e'` has at most one batch more than `e`: the buffers between the two submitted counts. */
  ghost predicate Grows<C, H>(e: Executor<C, H>, e': Executor<C, H>) {
    && e'.submitted <= |e'.ready|
    && if |e'.batches| == |e.batches| then e'.batches == e.batches && e'.submitted == e.submitted
       else
         && |e'.batches| == |e.batches| + 1 && e'.batches[..|e.batches|] == e.batches && e.submitted < e'.submitted
         && var buffers := e'.batches[|e.batches|].buffers;
            && |buffers| == e'.submitted - e.submitted
            && forall i :: 0 <= i < |buffers| ==> e'.ready[e.submitted + i] == Some(buffers[i])
  }

  lemma {:induction false} ConcatSnoc<C, H>(batches: seq<Batch<C, H>>, b: Batch<C, H>)
    ensures Concat(batches + [b]) == Concat(batches) + b.buffers
  {
    assert (batches + [b])[..|batches|] == batches;
  }

  lemma {:induction false} FillGrows<C, H>(e: Executor<C, H>, slot: nat, buffer: C, handler: Option<H>)
    requires e.WellFormed() && slot < |e.ready|
    ensures var e' := FillSlot(e, slot, buffer, handler);
            && e'.WellFormed() && Grows(e, e') && e'.ready == e.ready[slot := Some(buffer)]
            && (e'.submitted < |e'.ready| ==> e'.ready[e'.submitted].None?)
  {
    var ready := e.ready[slot := Some(buffer)];
    var rest := ready[e.submitted..];
    assert forall i :: 0 <= i < |rest| ==> rest[i] == ready[e.submitted + i];
  }

  lemma {:induction false} GrowthKeepsOrder<C, H>(e: Executor<C, H>, e': Executor<C, H>)
    requires InOrder(e) && e'.WellFormed() && Grows(e, e') && |e.ready| <= |e'.ready|
    requires forall i :: 0 <= i < e.submitted ==> e'.ready[i] == e.ready[i]
    requires e'.submitted < |e'.ready| ==> e'.ready[e'.submitted].None?
    ensures InOrder(e')
  {
    if |e'.batches| > |e.batches| {
      var b := e'.batches[|e.batches|];
      assert e'.batches == e.batches + [b];
      ConcatSnoc(e.batches, b);
      forall i | e.submitted <= i < e'.submitted ensures e'.ready[i] == Some(b.buffers[i - e.submitted]) {
        assert e'.ready[e.submitted + (i - e.submitted)] == Some(b.buffers[i - e.submitted]);
      }
    }
  }

  lemma {:induction false} FillKeepsOrder<C, H>(e: Executor<C, H>, slot: nat, buffer: C, handler: Option<H>)
    requires InOrder(e) && slot < |e.ready| && e.ready[slot].None?
    ensures var e' := FillSlot(e, slot, buffer, handler);
            InOrder(e') && Grows(e, e') && e'.ready == e.ready[slot := Some(buffer)]
  {
    FillGrows(e, slot, buffer, handler);
    GrowthKeepsOrder(e, FillSlot(e, slot, buffer, handler));
  }

  // ---------------------------------------------------------------- runs

  /** A task fills the slot it reserved, once; it may carry a completion handler or a null one. */
  datatype Step<+C> = Reserve | Fill(slot: nat, buffer: C, handled: bool)

  /** An executor whose handlers are named by their slot, with the number of batches cut before each slot was filled. */
  datatype Tracked<+C> = Tracked(exec: Executor<C, nat>, filledAt: map<nat, nat>, handled: set<nat>)

  predicate Enabled<C>(t: Tracked<C>, step: Step<C>) {
    step.Fill? ==> step.slot < |t.exec.ready| && t.exec.ready[step.slot].None?
  }

  function Next<C>(t: Tracked<C>, step: Step<C>): Tracked<C>
    requires t.exec.WellFormed() && Enabled(t, step)
  {
    match step
    case Reserve => t.(exec := AddSlot(t.exec))
    case Fill(slot, buffer, handled) =>
      Tracked(
        FillSlot(t.exec, slot, buffer, if handled then Some(slot) else None),
        t.filledAt[slot := |t.exec.batches|],
        if handled then t.handled + {slot} else t.handled)
  }

  /** `states` is a run: it starts empty and every state follows from the one before by an enabled step. */
  ghost predicate IsRun<C>(states: seq<Tracked<C>>, steps: seq<Step<C>>) {
    && |states| == |steps| + 1
    && states[0] == Tracked(Empty(), map[], {})
    && forall i :: 0 <= i < |steps| ==>
         && states[i].exec.WellFormed()
         && Enabled(states[i], steps[i])
         && states[i + 1] == Next(states[i], steps[i])
  }

  // ---------------------------------------------------------------- completion handlers

  /** How many slots the first `n` batches cover. */
  function SlotsBefore<C, H>(batches: seq<Batch<C, H>>, n: nat): nat
    requires n <= |batches|
  {
    |Concat(batches[..n])|
  }

  /** The buffer of `slot` went out with batch `b`. */
  ghost predicate SubmittedIn<C, H>(batches: seq<Batch<C, H>>, slot: nat, b: nat) {
    b < |batches| && SlotsBefore(batches, b) <= slot < SlotsBefore(batches, b + 1)
  }

  function Times(s: seq<nat>, x: nat): nat {
    multiset(s)[x]
  }

  /** The handler of `slot` is in batch `b`, once, and in no other batch. */
  ghost predicate CarriedOnlyBy<C>(batches: seq<Batch<C, nat>>, slot: nat, b: nat) {
    && b < |batches|
    && forall k :: 0 <= k < |batches| ==> Times(batches[k].callbacks, slot) == if k == b then 1 else 0
  }

  ghost predicate CarriedByNone<C>(batches: seq<Batch<C, nat>>, slot: nat) {
    forall k :: 0 <= k < |batches| ==> Times(batches[k].callbacks, slot) == 0
  }

  /** A handler waits in its own slot until the first batch cut at or after its slot was filled, which carries it. */
  ghost predicate HandlerAt<C>(t: Tracked<C>, slot: nat)
    requires t.exec.WellFormed() && slot < |t.exec.ready|
  {
    var e := t.exec;
    if e.ready[slot].None? then slot !in t.handled && e.handlers[slot].None? && CarriedByNone(e.batches, slot)
    else
      && slot in t.filledAt && t.filledAt[slot] <= |e.batches|
      && (slot < e.submitted ==> t.filledAt[slot] < |e.batches| && SlotsBefore(e.batches, t.filledAt[slot]) <= slot)
      && (if slot !in t.handled then e.handlers[slot].None? && CarriedByNone(e.batches, slot)
          else if t.filledAt[slot] < |e.batches|
          then e.handlers[slot].None? && CarriedOnlyBy(e.batches, slot, t.filledAt[slot])
          else e.handlers[slot] == Some(slot) && CarriedByNone(e.batches, slot))
  }

  ghost predicate Inv<C>(t: Tracked<C>) {
    && InOrder(t.exec)
    && (forall slot: nat :: slot < |t.exec.ready| ==> HandlerAt(t, slot))
    && (forall slot: nat :: |t.exec.ready| <= slot ==> CarriedByNone(t.exec.batches, slot))
    && (forall slot: nat :: slot in t.handled ==> slot < |t.exec.ready|)
  }

  ghost predicate Increasing(s: seq<nat>) {
    forall i, j :: 0 <= i < j < |s| ==> s[i] < s[j]
  }

  lemma {:induction false} NonNullOf(hs: seq<Option<nat>>, base: nat, x: nat)
    requires forall i :: 0 <= i < |hs| ==> hs[i].None? || hs[i] == Some(base + i)
    ensures Times(NonNull(hs), x) == if base <= x < base + |hs| && hs[x - base].Some? then 1 else 0
    ensures Increasing(NonNull(hs)) && forall i :: 0 <= i < |NonNull(hs)| ==> base <= NonNull(hs)[i]
  {
    if hs != [] {
      var rest := hs[1..];
      assert forall i :: 0 <= i < |rest| ==> rest[i] == hs[i + 1];
      NonNullOf(rest, base + 1, x);
      var head := if hs[0].Some? then [hs[0].value] else [];
      assert multiset(head + NonNull(rest)) == multiset(head) + multiset(NonNull(rest));
    }
  }

  /** The callbacks are exactly the handlers waiting at `n` and above, each once, in the order of their slots. */
  ghost predicate CallsWaiting(callbacks: seq<nat>, hs: seq<Option<nat>>, n: nat) {
    && Increasing(callbacks)
    && forall x: nat :: Times(callbacks, x) == if n <= x < |hs| && hs[x].Some? then 1 else 0
  }

  /** The handlers once the step's slot is filled. */
  function HandlersWith<C>(t: Tracked<C>, slot: nat, handled: bool): seq<Option<nat>>
    requires slot < |t.exec.handlers|
  {
    t.exec.handlers[slot := if handled then Some(slot) else None]
  }

  /** A batch carries exactly the handlers still waiting above the submitted prefix. */
  lemma {:induction false} CutCallbacks<C>(t: Tracked<C>, slot: nat, handled: bool)
    requires Inv(t) && slot < |t.exec.ready| && t.exec.ready[slot].None?
    ensures var hs := HandlersWith(t, slot, handled);
            CallsWaiting(NonNull(hs[t.exec.submitted..]), hs, t.exec.submitted)
  {
    var n, hs := t.exec.submitted, HandlersWith(t, slot, handled);
    forall i | n <= i < |hs| ensures hs[i].None? || hs[i] == Some(i) {
      assert HandlerAt(t, i);
    }
    OwnHandlersCalled(hs, n);
  }

  lemma {:induction false} OwnHandlersCalled(hs: seq<Option<nat>>, n: nat)
    requires n <= |hs| && forall i :: n <= i < |hs| ==> hs[i].None? || hs[i] == Some(i)
    ensures CallsWaiting(NonNull(hs[n..]), hs, n)
  {
    NonNullOf(hs[n..], n, 0);
    forall x: nat ensures Times(NonNull(hs[n..]), x) == if n <= x < |hs| && hs[x].Some? then 1 else 0 {
      NonNullOf(hs[n..], n, x);
    }
  }

  /** What a fill does to the handlers, without the submission arithmetic. */
  ghost predicate FillEffect<C>(t: Tracked<C>, t': Tracked<C>, slot: nat, handled: bool)
    requires t.exec.WellFormed() && slot < |t.exec.ready|
  {
    var e, e' := t.exec, t'.exec;
    var hs := HandlersWith(t, slot, handled);
    && e'.WellFormed() && |e'.ready| == |e.ready| && e.submitted <= e'.submitted
    && e'.ready[slot].Some? && (forall x :: 0 <= x < |e.ready| && x != slot ==> e'.ready[x] == e.ready[x])
    && t'.filledAt == t.filledAt[slot := |e.batches|]
    && t'.handled == (if handled then t.handled + {slot} else t.handled)
    && |e'.batches| == |e.batches| + (if e'.submitted > e.submitted then 1 else 0)
    && (forall k :: 0 <= k < |e.batches| ==> e'.batches[k] == e.batches[k])
    && (forall x :: 0 <= x < |hs| ==>
        e'.handlers[x] == if e'.submitted > e.submitted && x >= e.submitted then None else hs[x])
    && (e'.submitted > e.submitted ==> CallsWaiting(e'.batches[|e.batches|].callbacks, hs, e.submitted))
  }

  lemma {:induction false} FillHasEffect<C>(t: Tracked<C>, step: Step<C>)
    requires Inv(t) && step.Fill? && Enabled(t, step)
    ensures FillEffect(t, Next(t, step), step.slot, step.handled)
  {
    CutCallbacks(t, step.slot, step.handled);
  }

  /** The first `n` batches are the same in both executors, so they cover the same slots. */
  lemma {:induction false} SamePrefix<C, H>(a: seq<Batch<C, H>>, b: seq<Batch<C, H>>, n: nat)
    requires n <= |a| <= |b| && forall k :: 0 <= k < |a| ==> b[k] == a[k]
    ensures SlotsBefore(a, n) == SlotsBefore(b, n)
  {
    assert a[..n] == b[..n];
  }

  lemma {:induction false} EffectOnOther<C>(t: Tracked<C>, t': Tracked<C>, slot: nat, handled: bool, x: nat)
    requires InOrder(t.exec) && InOrder(t'.exec) && slot < |t.exec.ready|
    requires FillEffect(t, t', slot, handled) && x < |t.exec.ready| && HandlerAt(t, x) && x != slot
    ensures HandlerAt(t', x)
  {
    var e, e' := t.exec, t'.exec;
    assert e'.ready[x] == e.ready[x] && (x in t'.handled <==> x in t.handled);
    assert |e'.batches| > |e.batches| ==>
        Times(e'.batches[|e.batches|].callbacks, x) == if e.submitted <= x && e.handlers[x].Some? then 1 else 0;
    if e.ready[x].Some? {
      assert t'.filledAt[x] == t.filledAt[x];
      SamePrefix(e.batches, e'.batches, t.filledAt[x]);
      SlotsBeforeMonotone(e.batches, t.filledAt[x], |e.batches|);
      assert e.batches[..|e.batches|] == e.batches;
    }
  }

  lemma {:induction false} EffectOnFilled<C>(t: Tracked<C>, t': Tracked<C>, slot: nat, handled: bool)
    requires InOrder(t.exec) && InOrder(t'.exec) && slot < |t.exec.ready| && t.exec.ready[slot].None?
    requires FillEffect(t, t', slot, handled) && HandlerAt(t, slot)
    ensures HandlerAt(t', slot)
  {
    var e, e' := t.exec, t'.exec;
    SamePrefix(e.batches, e'.batches, |e.batches|);
    assert e.batches[..|e.batches|] == e.batches;
  }

  lemma {:induction false} StepKeepsInv<C>(t: Tracked<C>, step: Step<C>)
    requires Inv(t) && Enabled(t, step)
    ensures Inv(Next(t, step))
  {
    var t' := Next(t, step);
    if step.Reserve? {
      forall slot: nat | slot < |t'.exec.ready| ensures HandlerAt(t', slot) {
        if slot < |t.exec.ready| { assert HandlerAt(t, slot); }
      }
    } else {
      FillKeepsOrder(t.exec, step.slot, step.buffer, if step.handled then Some(step.slot) else None);
      FillHasEffect(t, step);
      FillKeepsInv(t, t', step.slot, step.handled);
    }
  }

  lemma {:induction false} FillKeepsInv<C>(t: Tracked<C>, t': Tracked<C>, slot: nat, handled: bool)
    requires Inv(t) && InOrder(t'.exec) && slot < |t.exec.ready| && t.exec.ready[slot].None?
    requires FillEffect(t, t', slot, handled)
    ensures Inv(t')
  {
    forall x: nat | x < |t'.exec.ready| ensures HandlerAt(t', x) {
      assert HandlerAt(t, x);
      if x == slot { EffectOnFilled(t, t', slot, handled); } else { EffectOnOther(t, t', slot, handled, x); }
    }
    forall x: nat | |t'.exec.ready| <= x ensures CarriedByNone(t'.exec.batches, x) {
      assert CarriedByNone(t.exec.batches, x);
    }
  }

  lemma {:induction false} RunKeepsInv<C>(states: seq<Tracked<C>>, steps: seq<Step<C>>, n: nat)
    requires IsRun(states, steps) && n < |states|
    ensures Inv(states[n])
  {
    if n == 0 {
      assert Concat(states[0].exec.batches) == [];
    } else {
      RunKeepsInv(states, steps, n - 1);
      StepKeepsInv(states[n - 1], steps[n - 1]);
    }
  }

  /**
    Submission order, over every run: batches concatenate to slots 0..submitted-1, and no filled prefix is held
    back.
   */
  lemma {:induction false} SubmissionOrder<C>(states: seq<Tracked<C>>, steps: seq<Step<C>>, n: nat)
    requires IsRun(states, steps) && n < |states|
    ensures var e := states[n].exec;
            && e.submitted <= |e.ready| && |Concat(e.batches)| == e.submitted
            && (forall i :: 0 <= i < e.submitted ==> e.ready[i] == Some(Concat(e.batches)[i]))
            && (e.submitted < |e.ready| ==> e.ready[e.submitted].None?)
  {
    RunKeepsInv(states, steps, n);
  }

  /** A step fills at most its own slot, with its own buffer and handler. */
  ghost predicate FillsOnly<C>(t: Tracked<C>, step: Step<C>, t': Tracked<C>) {
    && |t.exec.ready| <= |t'.exec.ready|
    && (forall x :: 0 <= x < |t.exec.ready| && !(step.Fill? && x == step.slot) ==> t'.exec.ready[x] == t.exec.ready[x])
    && (forall x :: |t.exec.ready| <= x < |t'.exec.ready| ==> t'.exec.ready[x].None?)
    && (forall x: nat :: !(step.Fill? && x == step.slot) ==> (x in t'.handled <==> x in t.handled))
    && (step.Fill? ==>
          && step.slot < |t'.exec.ready| && t'.exec.ready[step.slot] == Some(step.buffer)
          && (step.slot in t'.handled <==> step.handled || step.slot in t.handled))
  }

  lemma {:induction false} StepFillsOnly<C>(t: Tracked<C>, step: Step<C>)
    requires t.exec.WellFormed() && Enabled(t, step)
    ensures FillsOnly(t, step, Next(t, step))
  {
    if step.Fill? {
      FillGrows(t.exec, step.slot, step.buffer, if step.handled then Some(step.slot) else None);
    }
  }

  /** A fill is remembered: the slot keeps the buffer it was given, and has a handler exactly if one was given. */
  lemma {:induction false} FillIsKept<C>(states: seq<Tracked<C>>, steps: seq<Step<C>>, k: nat, n: nat)
    requires IsRun(states, steps) && k < n < |states| && steps[k].Fill?
    ensures steps[k].slot < |states[n].exec.ready| && states[n].exec.ready[steps[k].slot] == Some(steps[k].buffer)
    ensures steps[k].slot in states[n].handled <==> steps[k].handled
  {
    StepFillsOnly(states[n - 1], steps[n - 1]);
    if k < n - 1 {
      FillIsKept(states, steps, k, n - 1);
    } else {
      RunKeepsInv(states, steps, k);
      assert HandlerAt(states[k], steps[k].slot);
    }
  }

  lemma {:induction false} WasFilled<C>(states: seq<Tracked<C>>, steps: seq<Step<C>>, n: nat, slot: nat)
    returns (k: nat)
    requires IsRun(states, steps) && n < |states|
    requires slot < |states[n].exec.ready| && states[n].exec.ready[slot].Some?
    ensures k < n && steps[k].Fill? && steps[k].slot == slot
  {
    StepFillsOnly(states[n - 1], steps[n - 1]);
    if steps[n - 1].Fill? && steps[n - 1].slot == slot {
      k := n - 1;
    } else {
      k := WasFilled(states, steps, n - 1, slot);
    }
  }

  /** What is submitted at a slot's place is the buffer that slot was filled with, by a fill in the run. */
  lemma {:induction false} SubmitsWhatWasFilled<C>(
      states: seq<Tracked<C>>, steps: seq<Step<C>>, n: nat, slot: nat)
    returns (k: nat)
    requires IsRun(states, steps) && n < |states| && slot < |Concat(states[n].exec.batches)|
    ensures k < n && steps[k].Fill? && steps[k].slot == slot
    ensures Concat(states[n].exec.batches)[slot] == steps[k].buffer
  {
    SubmissionOrder(states, steps, n);
    k := WasFilled(states, steps, n, slot);
    FillIsKept(states, steps, k, n);
  }

  ghost predicate CallsInOrder<C>(batches: seq<Batch<C, nat>>) {
    forall b :: 0 <= b < |batches| ==> Increasing(batches[b].callbacks)
  }

  lemma {:induction false} FillCallsInOrder<C>(t: Tracked<C>, t': Tracked<C>, slot: nat, handled: bool)
    requires t.exec.WellFormed() && slot < |t.exec.ready| && FillEffect(t, t', slot, handled)
    requires CallsInOrder(t.exec.batches)
    ensures CallsInOrder(t'.exec.batches)
  {
  }

  /** Each batch calls its handlers in the order of their slots. */
  lemma {:induction false} HandlersInOrder<C>(states: seq<Tracked<C>>, steps: seq<Step<C>>, n: nat)
    requires IsRun(states, steps) && n < |states|
    ensures CallsInOrder(states[n].exec.batches)
  {
    if n > 0 {
      HandlersInOrder(states, steps, n - 1);
      RunKeepsInv(states, steps, n - 1);
      var t, step := states[n - 1], steps[n - 1];
      if step.Fill? {
        FillHasEffect(t, step);
        FillCallsInOrder(t, Next(t, step), step.slot, step.handled);
      }
    }
  }

  lemma {:induction false} BatchOf<C, H>(batches: seq<Batch<C, H>>, slot: nat, n: nat) returns (b: nat)
    requires n <= |batches| && slot < SlotsBefore(batches, n)
    ensures b < n && SubmittedIn(batches, slot, b)
  {
    b := n - 1;
    if slot < SlotsBefore(batches, b) {
      b := BatchOf(batches, slot, b);
    }
  }

  lemma {:induction false} SlotsBeforeMonotone<C, H>(batches: seq<Batch<C, H>>, m: nat, n: nat)
    requires m <= n <= |batches|
    ensures SlotsBefore(batches, m) <= SlotsBefore(batches, n)
    decreases n - m
  {
    if m < n {
      assert batches[..n][..n - 1] == batches[..n - 1];
      SlotsBeforeMonotone(batches, m, n - 1);
    }
  }

  /**
    Completion handlers, over every run.  The handler of a submitted slot is carried by exactly one
    batch `b`: the first one cut at or after the slot was filled.  `b` is never later than the batch
    of the slot's own buffer, and it is that batch exactly when none was cut in between.
   */
  lemma {:induction false} HandlersCarriedOnce<C>(
      states: seq<Tracked<C>>, steps: seq<Step<C>>, n: nat, slot: nat)
    returns (own: nat)
    requires IsRun(states, steps) && n < |states|
    requires slot in states[n].handled && slot < states[n].exec.submitted
    ensures SubmittedIn(states[n].exec.batches, slot, own)
    ensures slot in states[n].filledAt && CarriedOnlyBy(states[n].exec.batches, slot, states[n].filledAt[slot])
    ensures states[n].filledAt[slot] <= own
  {
    RunKeepsInv(states, steps, n);
    var e := states[n].exec;
    assert HandlerAt(states[n], slot);
    assert e.batches[..|e.batches|] == e.batches;
    own := BatchOf(e.batches, slot, |e.batches|);
    if own < states[n].filledAt[slot] {
      SlotsBeforeMonotone(e.batches, own + 1, states[n].filledAt[slot]);
    }
  }

  /** A handler whose slot is filled but not yet submitted is either still waiting or already carried, never lost. */
  lemma {:induction false} HandlersNeverLost<C>(states: seq<Tracked<C>>, steps: seq<Step<C>>, n: nat, slot: nat)
    requires IsRun(states, steps) && n < |states| && slot in states[n].handled
    ensures slot < |states[n].exec.handlers| && slot in states[n].filledAt
    ensures var e := states[n].exec;
            || (e.handlers[slot] == Some(slot) && CarriedByNone(e.batches, slot))
            || (e.handlers[slot].None? && CarriedOnlyBy(e.batches, slot, states[n].filledAt[slot]))
  {
    RunKeepsInv(states, steps, n);
    assert HandlerAt(states[n], slot);
  }

  /**
    Exactly when a handler leaves ahead of its buffer: a fill that cuts a batch carries every waiting
    handler, and a carried handler's buffer is in the batch iff no empty slot lies below it.
   */
  lemma {:induction false} CarriedWithOwnBufferIff<C>(t: Tracked<C>, step: Step<C>, slot: nat)
    requires Inv(t) && step.Fill? && Enabled(t, step)
    requires Next(t, step).exec.submitted > t.exec.submitted
    requires slot < |t.exec.ready| && (t.exec.handlers[slot].Some? || (slot == step.slot && step.handled))
    ensures var e' := Next(t, step).exec;
            && |e'.ready| == |t.exec.ready|
            && CarriedOnlyBy(e'.batches, slot, |t.exec.batches|)
            && (SubmittedIn(e'.batches, slot, |t.exec.batches|) <==> forall i :: 0 <= i < slot ==> e'.ready[i].Some?)
  {
    StepKeepsInv(t, step);
    FillHasEffect(t, step);
    CutCovers(t, Next(t, step), step.slot, step.handled, slot);
  }

  lemma {:induction false} CutCovers<C>(t: Tracked<C>, t': Tracked<C>, filled: nat, handled: bool, slot: nat)
    requires Inv(t) && Inv(t') && filled < |t.exec.ready| && t.exec.ready[filled].None?
    requires FillEffect(t, t', filled, handled) && t'.exec.submitted > t.exec.submitted
    requires slot < |t.exec.ready| && (t.exec.handlers[slot].Some? || (slot == filled && handled))
    ensures CarriedOnlyBy(t'.exec.batches, slot, |t.exec.batches|)
    ensures SubmittedIn(t'.exec.batches, slot, |t.exec.batches|) <==>
              forall i :: 0 <= i < slot ==> t'.exec.ready[i].Some?
  {
    var e, e' := t.exec, t'.exec;
    assert HandlerAt(t, slot) && HandlerAt(t', slot);
    SamePrefix(e.batches, e'.batches, |e.batches|);
    assert e.batches[..|e.batches|] == e.batches;
    assert e'.batches[..|e'.batches|] == e'.batches;
    assert SubmittedIn(e'.batches, slot, |e.batches|) <==> e.submitted <= slot < e'.submitted;
    if slot >= e'.submitted {
      assert e'.ready[slot].Some?;
      assert e'.ready[e'.submitted].None?;
    }
  }

  /** Three reservations, then slots 2 and 0 are filled. */
  function OutOfOrder(): seq<Tracked<char>> {
    var none: Option<nat> := None;
    [ Tracked(Executor([], [], 0, []), map[], {}),
      Tracked(Executor([None], [none], 0, []), map[], {}),
      Tracked(Executor([None, None], [none, none], 0, []), map[], {}),
      Tracked(Executor([None, None, None], [none, none, none], 0, []), map[], {}),
      Tracked(Executor([None, None, Some('c')], [none, none, Some(2)], 0, []), map[2 := 0], {2}),
      Tracked(Executor([Some('a'), None, Some('c')], [none, none, none], 1, [Batch(['a'], [0, 2])]),
          map[2 := 0, 0 := 0], {2, 0}) ]
  }

  lemma {:induction false} LastFill()
    ensures FillSlot(OutOfOrder()[4].exec, 0, 'a', Some(0)) == OutOfOrder()[5].exec
  {
    var ready := [Some('a'), None, Some('c')];
    assert ready[1..] == [None, Some('c')];
    assert FilledPrefix(ready) == ['a'];
    var hs := [Some(0 as nat), None, Some(2)];
    assert hs[1..] == [None, Some(2)] && hs[1..][1..] == [Some(2)];
    assert NonNull(hs[1..][1..]) == [2];
    assert NonNull(hs[1..]) == [2];
    assert NonNull(hs) == [0, 2];
    var e := OutOfOrder()[4].exec;
    assert e.ready[0 := Some('a')] == ready && ready[0..] == ready;
    assert e.handlers[0 := Some(0)] == hs && hs[0..] == hs;
    assert hs[..0] + Nulls(3) == OutOfOrder()[5].exec.handlers;
  }

  /** Filling slot 2 before slot 0 sends handler 2 with slot 0's batch while slot 1, and so buffer 2, still waits. */
  lemma {:induction false} HandlerLeavesEarly()
    ensures exists steps: seq<Step<char>> :: IsRun(OutOfOrder(), steps)
    ensures var e := OutOfOrder()[5].exec; 2 in e.batches[0].callbacks && 2 >= e.submitted && e.ready[1].None?
  {
    var states := OutOfOrder();
    var steps := [Reserve, Reserve, Reserve, Fill(2, 'c', true), Fill(0, 'a', true)];
    LastFill();
    assert states[3].exec.ready[2 := Some('c')][0..] == states[4].exec.ready;
    forall i | 0 <= i < 5
      ensures states[i].exec.WellFormed() && Enabled(states[i], steps[i]) && states[i + 1] == Next(states[i], steps[i])
    {
    }
    assert IsRun(states, steps);
  }
}
