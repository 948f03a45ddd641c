/**
  Slot numbers as they are: a reservation is handed the lower bits of its number (src/Teide/GpuExecutor.cpp:117
  keeps 32), and later fills the slot of that number.  `word` is how many numbers there are.
 */
module SlotNumbers {
  import opened Wrappers
  import opened Submission

  const UINT32_RANGE := 0x1_0000_0000

  /** The executor, and which buffer was submitted for which reservation. */
  datatype Pipeline = Pipeline(exec: Executor<nat, nat>, buffers: map<nat, nat>)

  datatype Action = NewSlot | FillFor(reservation: nat, buffer: nat, handler: Option<nat>)

  const Start := Pipeline(Executor([], [], 0, []), map[])

  predicate Possible(p: Pipeline, a: Action) {
    p.exec.WellFormed() && (a.FillFor? ==> a.reservation < |p.exec.ready| && a.reservation !in p.buffers)
  }

  function After(p: Pipeline, a: Action, word: nat): Pipeline
    requires word > 0 && Possible(p, a)
  {
    match a
    case NewSlot => p.(exec := AddSlot(p.exec))
    case FillFor(r, b, h) => Pipeline(FillSlot(p.exec, Slot(r, word), b, h), p.buffers[r := b])
  }

  function Slot(reservation: nat, word: nat): (slot: nat)
    requires word > 0
    ensures slot <= reservation && slot < word && (reservation < word ==> slot == reservation)
  {
    reservation % word
  }

  ghost predicate IsRun(run: seq<Pipeline>, actions: seq<Action>, word: nat)
    requires word > 0
  {
    && |run| == |actions| + 1 && run[0] == Start
    && forall i :: 0 <= i < |actions| ==> Possible(run[i], actions[i]) && run[i + 1] == After(run[i], actions[i], word)
  }

  // ---------------------------------------------------------------- order

  /** The queue has received the buffers of reservations 0, 1, 2, ... */
  ghost predicate InReservationOrder(p: Pipeline) {
    forall k :: 0 <= k < |Concat(p.exec.batches)| ==> k in p.buffers && Concat(p.exec.batches)[k] == p.buffers[k]
  }

  /** Slots and reservations coincide. */
  ghost predicate Matching(p: Pipeline) {
    && InOrder(p.exec)
    && (forall r :: r in p.buffers ==> r < |p.exec.ready|)
    && forall k :: 0 <= k < |p.exec.ready| ==>
         p.exec.ready[k] == if k in p.buffers then Some(p.buffers[k]) else None
  }

  lemma {:induction false} MatchingStep(p: Pipeline, a: Action, word: nat)
    requires word > 0 && Matching(p) && Possible(p, a) && (a.FillFor? ==> a.reservation < word)
    ensures Matching(After(p, a, word))
  {
    if a.FillFor? {
      FillKeepsOrder(p.exec, a.reservation, a.buffer, a.handler);
    } else {
      assert Concat(AddSlot(p.exec).batches) == Concat(p.exec.batches);
    }
  }

  /** While no more than `word` slots are reserved, slots and reservations coincide. */
  lemma {:induction false} MatchingRun(run: seq<Pipeline>, actions: seq<Action>, word: nat, n: nat)
    requires word > 0 && IsRun(run, actions, word) && n < |run| && |run[n].exec.ready| <= word
    ensures Matching(run[n])
  {
    if n > 0 {
      assert run[n] == After(run[n - 1], actions[n - 1], word);
      MatchingRun(run, actions, word, n - 1);
      MatchingStep(run[n - 1], actions[n - 1], word);
    }
  }

  // ---------------------------------------------------------------- one reservation too many

  /** After k reservations and nothing else. */
  function Reserved(k: nat): Pipeline {
    Pipeline(Executor(Nulls(k), Nulls(k), 0, []), map[])
  }

  function Reservations(word: nat): (run: seq<Pipeline>)
    ensures |run| == word + 2
  {
    seq(word + 2, k requires 0 <= k => Reserved(k))
  }

  /** The buffer of the reservation after the last number goes out first, before that of reservation 0. */
  lemma {:induction false} OvertakenRun(word: nat, buffer: nat) returns (run: seq<Pipeline>, actions: seq<Action>)
    requires word > 0
    ensures IsRun(run, actions, word) && |run[|run| - 1].exec.ready| == word + 1
    ensures Concat(run[|run| - 1].exec.batches) == [buffer] && run[|run| - 1].buffers == map[word := buffer]
  {
    var all := Reserved(word + 1);
    var last := After(all, FillFor(word, buffer, None), word);
    var reserves := seq(word + 1, _ => NewSlot);
    run, actions := Reservations(word) + [last], reserves + [FillFor(word, buffer, None)];
    assert Nulls<nat>(0) == [];
    forall i | 0 <= i < |actions|
      ensures Possible(run[i], actions[i]) && run[i + 1] == After(run[i], actions[i], word)
    {
    }
    FirstGoesOut(word, buffer);
  }

  lemma {:induction false} FirstGoesOut(word: nat, buffer: nat)
    requires word > 0
    ensures Slot(word, word) == 0
    ensures var e := FillSlot(Reserved(word + 1).exec, 0, buffer, None);
            |e.ready| == word + 1 && Concat(e.batches) == [buffer]
  {
    assert word % word == 0;
    var ready := Nulls<nat>(word + 1)[0 := Some(buffer)];
    assert ready[0..] == ready && ready[1].None? && ready[1..][0] == ready[1];
    assert FilledPrefix(ready) == [buffer];
    var e := FillSlot(Reserved(word + 1).exec, 0, buffer, None);
    ConcatSnoc([], e.batches[0]);
    assert e.batches == [] + [e.batches[0]];
    assert Concat<nat, nat>([]) == [];
  }

  // ---------------------------------------------------------------- the exact condition

  /** Whatever is filled when, with at most n reservations buffers go out in reservation order. */
  ghost predicate AlwaysInOrder(n: nat, word: nat)
    requires word > 0
  {
    forall run: seq<Pipeline>, actions :: IsRun(run, actions, word) && |run[|run| - 1].exec.ready| <= n ==>
      InReservationOrder(run[|run| - 1])
  }

  /** Order holds exactly as long as there are no more reservations than numbers. */
  lemma {:induction false} OrderIff(n: nat, word: nat)
    requires word > 0
    ensures AlwaysInOrder(n, word) <==> n <= word
  {
    if n <= word {
      forall run: seq<Pipeline>, actions | IsRun(run, actions, word) && |run[|run| - 1].exec.ready| <= n
        ensures InReservationOrder(run[|run| - 1])
      {
        MatchingRun(run, actions, word, |run| - 1);
      }
    } else {
      var run, actions := OvertakenRun(word, 7);
      var p := run[|run| - 1];
      assert Concat(p.exec.batches)[0] == 7 && 0 !in p.buffers;
      assert !InReservationOrder(p);
    }
  }

  /** In the code there are 2^32 numbers. */
  lemma {:induction false} SubmissionOrderIff(n: nat)
    ensures AlwaysInOrder(n, UINT32_RANGE) <==> n <= UINT32_RANGE
  {
    OrderIff(n, UINT32_RANGE);
  }

  /** And beyond that nothing more goes out: no slot from `word` on is ever filled or submitted. */
  lemma {:induction false} NothingPastLastNumber(run: seq<Pipeline>, actions: seq<Action>, word: nat, n: nat)
    requires word > 0 && IsRun(run, actions, word) && n < |run|
    ensures run[n].exec.WellFormed() && run[n].exec.submitted <= word
    ensures forall k :: word <= k < |run[n].exec.ready| ==> run[n].exec.ready[k].None?
  {
    if n > 0 {
      NothingPastLastNumber(run, actions, word, n - 1);
      var p, a := run[n - 1], actions[n - 1];
      assert run[n] == After(p, a, word);
      if a.FillFor? {
        FillGrows(p.exec, Slot(a.reservation, word), a.buffer, a.handler);
        StaysBelow(p.exec, run[n].exec, word);
      }
    }
  }

  lemma {:induction false} StaysBelow(e: Executor<nat, nat>, e': Executor<nat, nat>, word: nat)
    requires Grows(e, e') && e.submitted <= word && |e'.ready| >= e'.submitted
    requires forall k :: word <= k < |e'.ready| ==> e'.ready[k].None?
    ensures e'.submitted <= word
  {
    if |e'.batches| != |e.batches| {
      var buffers := e'.batches[|e.batches|].buffers;
      var last := |buffers| - 1;
      assert e'.ready[e.submitted + last] == Some(buffers[last]);
    }
  }
}
