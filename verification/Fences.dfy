/**
  Fence recycling in the submission queue (src/Teide/Queue.cpp): every submit takes a fence, and Flush
  calls back the submits whose fence is signalled, resets their fences and keeps them for later submits.
  The device finishes submits at any time, also between two polls of one Flush.  Submit and Flush exclude
  each other by the queue's mutex.
 */
module Fences {
  import opened Wrappers
  import opened Polling

  datatype InFlight = InFlight(fence: nat, submit: nat)

  /** What the queue holds: `flush` is the position of a Flush that holds the mutex. */
  datatype Queue = Queue(inFlight: seq<Option<InFlight>>, unused: seq<nat>, flush: Option<nat>, called: seq<nat>)

  /**
    What the device knows: fences created, the submit each pending fence belongs to, signalled fences, finished
    submits.
   */
  datatype Device = Device(created: nat, submits: nat, pending: map<nat, nat>, signalled: set<nat>, finished: set<nat>)

  datatype State = State(queue: Queue, device: Device)

  datatype Step = Submit | Finish(fence: nat) | FlushBegin | FlushItem | FlushEnd

  const Initial := State(Queue([], [], None, []), Device(0, 0, map[], {}, {}))

  // ---------------------------------------------------------------- the steps

  /** The fence a submit gets: the first unused one, or a new one. */
  function NextFence(unused: seq<nat>, created: nat): nat {
    if unused == [] then created else unused[0]
  }

  function Submitted(s: State): State {
    var f, id := NextFence(s.queue.unused, s.device.created), s.device.submits;
    State(s.queue.(inFlight := s.queue.inFlight + [Some(InFlight(f, id))],
                   unused := if s.queue.unused == [] then [] else s.queue.unused[1..]),
          s.device.(created := if s.queue.unused == [] then f + 1 else s.device.created,
                    submits := id + 1, pending := s.device.pending[f := id]))
  }

  function Finished(d: Device, f: nat): Device
    requires f in d.pending
  {
    d.(pending := d.pending - {f}, signalled := d.signalled + {f}, finished := d.finished + {d.pending[f]})
  }

  /** Flush polls one entry; it asks the device about its fence, so there must be one. */
  function Flushed(s: State, k: nat): State
    requires k < |s.queue.inFlight| && s.queue.inFlight[k].Some?
  {
    var e := s.queue.inFlight[k].value;
    if e.fence in s.device.signalled
    then State(s.queue.(inFlight := s.queue.inFlight[k := None], unused := s.queue.unused + [e.fence],
                        flush := Some(k + 1), called := s.queue.called + [e.submit]),
               s.device.(signalled := s.device.signalled - {e.fence}))
    else s.(queue := s.queue.(flush := Some(k + 1)))
  }

  ghost predicate Enabled(s: State, step: Step) {
    match step
    case Submit => s.queue.flush.None?
    case Finish(f) => f in s.device.pending
    case FlushBegin => s.queue.flush.None?
    case FlushItem => s.queue.flush.Some? && s.queue.flush.value < |s.queue.inFlight|
    case FlushEnd => s.queue.flush.Some? && s.queue.flush.value == |s.queue.inFlight|
  }

  ghost predicate Next(s: State, step: Step, s': State) {
    && Enabled(s, step)
    && match step
       case Submit => s' == Submitted(s)
       case Finish(f) => s' == s.(device := Finished(s.device, f))
       case FlushBegin => s' == s.(queue := s.queue.(flush := Some(0)))
       case FlushItem => s.queue.inFlight[s.queue.flush.value].Some? && s' == Flushed(s, s.queue.flush.value)
       case FlushEnd => s' == s.(queue := s.queue.(inFlight := Compact<InFlight>(s.queue.inFlight), flush := None))
  }

  ghost predicate IsRun(run: seq<State>, steps: seq<Step>) {
    && |run| == |steps| + 1
    && forall i :: 0 <= i < |steps| ==> Next(run[i], steps[i], run[i + 1])
  }

  // ---------------------------------------------------------------- the invariant

  ghost predicate Holds(inFlight: seq<Option<InFlight>>, f: nat) {
    exists i :: 0 <= i < |inFlight| && inFlight[i].Some? && inFlight[i].value.fence == f
  }

  ghost predicate Awaited(inFlight: seq<Option<InFlight>>, id: nat) {
    exists i :: 0 <= i < |inFlight| && inFlight[i].Some? && inFlight[i].value.submit == id
  }

  ghost predicate Distinct(fences: seq<nat>) {
    forall i, j :: 0 <= i < j < |fences| ==> fences[i] != fences[j]
  }

  /** No fence and no submit is in flight twice; no empty entry lies ahead of Flush. */
  ghost predicate ListOk(inFlight: seq<Option<InFlight>>, flush: Option<nat>) {
    && (flush.Some? ==> flush.value <= |inFlight|)
    && (forall i :: 0 <= i < |inFlight| && inFlight[i].None? ==> flush.Some? && i < flush.value)
    && (forall i, j :: 0 <= i < j < |inFlight| && inFlight[i].Some? && inFlight[j].Some? ==>
          inFlight[i].value.fence != inFlight[j].value.fence && inFlight[i].value.submit != inFlight[j].value.submit)
  }

  /** Each fence created is either in flight or unused, and not both. */
  ghost predicate Partitioned(inFlight: seq<Option<InFlight>>, unused: seq<nat>, created: nat) {
    && Distinct(unused)
    && (forall f: nat :: f in unused ==> f < created && !Holds(inFlight, f))
    && (forall f: nat :: Holds(inFlight, f) ==> f < created)
    && (forall f: nat :: f < created ==> f in unused || Holds(inFlight, f))
  }

  /** A fence in flight is pending for its own submit, or signalled with that submit finished. */
  ghost predicate EntryOk(e: InFlight, d: Device) {
    && e.submit < d.submits
    && (e.fence in d.pending <==> e.fence !in d.signalled)
    && (e.fence in d.pending ==> d.pending[e.fence] == e.submit && e.submit !in d.finished)
    && (e.fence in d.signalled ==> e.submit in d.finished)
  }

  ghost predicate DeviceOk(q: Queue, d: Device) {
    && (forall i :: 0 <= i < |q.inFlight| && q.inFlight[i].Some? ==> EntryOk(q.inFlight[i].value, d))
    && (forall f: nat :: f in d.signalled || f in d.pending ==> Holds(q.inFlight, f))
    && (forall id: nat :: id in d.finished ==> id < d.submits)
  }

  /** The callbacks made are those of the submits no longer in flight, each made once, all finished. */
  ghost predicate CallsOk(q: Queue, d: Device) {
    && Distinct(q.called)
    && (forall id: nat :: id in q.called ==> id in d.finished && id < d.submits && !Awaited(q.inFlight, id))
    && (forall id: nat :: id < d.submits ==> id in q.called || Awaited(q.inFlight, id))
  }

  function Count(inFlight: seq<Option<InFlight>>): nat {
    if inFlight == [] then 0 else (if inFlight[0].Some? then 1 else 0) + Count(inFlight[1..])
  }

  ghost predicate Inv(s: State) {
    && ListOk(s.queue.inFlight, s.queue.flush)
    && Partitioned(s.queue.inFlight, s.queue.unused, s.device.created)
    && DeviceOk(s.queue, s.device)
    && CallsOk(s.queue, s.device)
    && Count(s.queue.inFlight) + |s.queue.unused| == s.device.created
  }

  // ---------------------------------------------------------------- how the list changes

  lemma {:induction false} AppendHolds(inFlight: seq<Option<InFlight>>, e: InFlight)
    ensures forall f: nat :: Holds(inFlight + [Some(e)], f) <==> Holds(inFlight, f) || f == e.fence
    ensures forall id: nat :: Awaited(inFlight + [Some(e)], id) <==> Awaited(inFlight, id) || id == e.submit
  {
    var list := inFlight + [Some(e)];
    assert list[|inFlight|] == Some(e);
    forall f: nat | Holds(inFlight, f) ensures Holds(list, f) {
      var i :| 0 <= i < |inFlight| && inFlight[i].Some? && inFlight[i].value.fence == f;
      assert list[i] == inFlight[i];
    }
    forall id: nat | Awaited(inFlight, id) ensures Awaited(list, id) {
      var i :| 0 <= i < |inFlight| && inFlight[i].Some? && inFlight[i].value.submit == id;
      assert list[i] == inFlight[i];
    }
  }

  lemma {:induction false} EmptyHolds(inFlight: seq<Option<InFlight>>, flush: Option<nat>, k: nat)
    requires ListOk(inFlight, flush) && k < |inFlight| && inFlight[k].Some?
    ensures forall f: nat :: Holds(inFlight[k := None], f) <==> Holds(inFlight, f) && f != inFlight[k].value.fence
    ensures forall id: nat :: Awaited(inFlight[k := None], id) <==>
              Awaited(inFlight, id) && id != inFlight[k].value.submit
  {
    var list := inFlight[k := None];
    forall f: nat | Holds(inFlight, f) && f != inFlight[k].value.fence ensures Holds(list, f) {
      var i :| 0 <= i < |inFlight| && inFlight[i].Some? && inFlight[i].value.fence == f;
      assert list[i] == inFlight[i];
    }
    forall id: nat | Awaited(inFlight, id) && id != inFlight[k].value.submit ensures Awaited(list, id) {
      var i :| 0 <= i < |inFlight| && inFlight[i].Some? && inFlight[i].value.submit == id;
      assert list[i] == inFlight[i];
    }
  }

  lemma {:induction false} CompactHolds(inFlight: seq<Option<InFlight>>)
    ensures forall f: nat :: Holds(Compact<InFlight>(inFlight), f) <==> Holds(inFlight, f)
    ensures forall id: nat :: Awaited(Compact<InFlight>(inFlight), id) <==> Awaited(inFlight, id)
  {
    CompactMembers<InFlight>(inFlight);
    var list := Compact<InFlight>(inFlight);
    forall i | 0 <= i < |list| ensures list[i].Some? && list[i] in inFlight {
      assert list[i] in list;
    }
    forall i | 0 <= i < |inFlight| && inFlight[i].Some? ensures inFlight[i] in list {
      assert inFlight[i] in inFlight;
    }
    forall f: nat | Holds(list, f) ensures Holds(inFlight, f) {
      var i :| 0 <= i < |list| && list[i].Some? && list[i].value.fence == f;
      var j :| 0 <= j < |inFlight| && inFlight[j] == list[i];
    }
    forall id: nat | Awaited(list, id) ensures Awaited(inFlight, id) {
      var i :| 0 <= i < |list| && list[i].Some? && list[i].value.submit == id;
      var j :| 0 <= j < |inFlight| && inFlight[j] == list[i];
    }
    forall f: nat | Holds(inFlight, f) ensures Holds(list, f) {
      var i :| 0 <= i < |inFlight| && inFlight[i].Some? && inFlight[i].value.fence == f;
      var j :| 0 <= j < |list| && list[j] == inFlight[i];
    }
    forall id: nat | Awaited(inFlight, id) ensures Awaited(list, id) {
      var i :| 0 <= i < |inFlight| && inFlight[i].Some? && inFlight[i].value.submit == id;
      var j :| 0 <= j < |list| && list[j] == inFlight[i];
    }
  }

  lemma {:induction false} CountAppend(inFlight: seq<Option<InFlight>>, e: InFlight)
    ensures Count(inFlight + [Some(e)]) == Count(inFlight) + 1
  {
    if inFlight != [] {
      assert (inFlight + [Some(e)])[1..] == inFlight[1..] + [Some(e)];
      CountAppend(inFlight[1..], e);
    } else {
      assert (inFlight + [Some(e)])[1..] == [];
    }
  }

  lemma {:induction false} CountEmpty(inFlight: seq<Option<InFlight>>, k: nat)
    requires k < |inFlight| && inFlight[k].Some?
    ensures Count(inFlight[k := None]) == Count(inFlight) - 1
  {
    if k > 0 {
      assert inFlight[k := None][1..] == inFlight[1..][k - 1 := None];
      CountEmpty(inFlight[1..], k - 1);
    } else {
      assert inFlight[k := None][1..] == inFlight[1..];
    }
  }

  lemma {:induction false} CountCompact(inFlight: seq<Option<InFlight>>)
    ensures Count(Compact<InFlight>(inFlight)) == Count(inFlight)
  {
    if inFlight != [] {
      CountCompact(inFlight[1..]);
      if inFlight[0].Some? {
        assert Compact<InFlight>(inFlight)[1..] == Compact<InFlight>(inFlight[1..]);
      } else {
        assert Compact<InFlight>(inFlight) == Compact<InFlight>(inFlight[1..]);
      }
    }
  }

  // ---------------------------------------------------------------- each step keeps the invariant

  /** What vkQueueSubmit asks of the fence it is given: unsignalled, and not pending for another submit. */
  ghost predicate SubmitAllowed(s: State) {
    var f := NextFence(s.queue.unused, s.device.created);
    f !in s.device.signalled && f !in s.device.pending
  }

  lemma {:induction false} NewFencePartition(list: seq<Option<InFlight>>, created: nat, e: InFlight)
    requires Partitioned(list, [], created) && e.fence == created
    ensures Partitioned(list + [Some(e)], [], created + 1)
  {
    AppendHolds(list, e);
    var list' := list + [Some(e)];
    forall g: nat | g < created + 1 ensures Holds(list', g) {
      if g < created { assert Holds(list, g); }
    }
  }

  lemma {:induction false} OldFencePartition(list: seq<Option<InFlight>>, unused: seq<nat>, created: nat, e: InFlight)
    requires Partitioned(list, unused, created) && unused != [] && e.fence == unused[0]
    ensures Partitioned(list + [Some(e)], unused[1..], created)
  {
    AppendHolds(list, e);
    var list', rest := list + [Some(e)], unused[1..];
    assert unused == [e.fence] + rest;
    assert e.fence !in rest;
    forall g: nat | g in rest ensures g < created && !Holds(list', g) {
      assert g in unused;
    }
    forall g: nat | g < created ensures g in rest || Holds(list', g) {
      assert g in unused || Holds(list, g);
    }
    forall g: nat | Holds(list', g) ensures g < created {
      assert Holds(list, g) || g in unused;
    }
  }

  lemma {:induction false} SubmitKeepsPartition(s: State)
    requires Inv(s) && s.queue.flush.None?
    ensures var s' := Submitted(s); Partitioned(s'.queue.inFlight, s'.queue.unused, s'.device.created)
  {
    var e := InFlight(NextFence(s.queue.unused, s.device.created), s.device.submits);
    if s.queue.unused == [] {
      NewFencePartition(s.queue.inFlight, s.device.created, e);
    } else {
      OldFencePartition(s.queue.inFlight, s.queue.unused, s.device.created, e);
    }
  }

  lemma {:induction false} SubmitKeepsList(s: State)
    requires Inv(s) && s.queue.flush.None?
    ensures var s' := Submitted(s); ListOk(s'.queue.inFlight, s'.queue.flush)
  {
    var s' := Submitted(s);
    var was, list := s.queue.inFlight, s'.queue.inFlight;
    forall i, j | 0 <= i < j < |list| && list[i].Some? && list[j].Some?
      ensures list[i].value.fence != list[j].value.fence && list[i].value.submit != list[j].value.submit
    {
      assert list[i] == was[i];
      if j == |was| {
        assert Holds(was, was[i].value.fence);
        assert EntryOk(was[i].value, s.device);
      } else {
        assert list[j] == was[j];
      }
    }
  }

  lemma {:induction false} SubmitKeepsDevice(s: State)
    requires Inv(s) && s.queue.flush.None?
    ensures var s' := Submitted(s); DeviceOk(s'.queue, s'.device) && CallsOk(s'.queue, s'.device)
  {
    var s' := Submitted(s);
    var e := InFlight(NextFence(s.queue.unused, s.device.created), s.device.submits);
    AppendHolds(s.queue.inFlight, e);
    forall i | 0 <= i < |s'.queue.inFlight| && s'.queue.inFlight[i].Some?
      ensures EntryOk(s'.queue.inFlight[i].value, s'.device)
    {
      if i < |s.queue.inFlight| {
        assert s'.queue.inFlight[i] == s.queue.inFlight[i];
        assert EntryOk(s.queue.inFlight[i].value, s.device);
        assert Holds(s.queue.inFlight, s.queue.inFlight[i].value.fence);
      } else {
        assert s'.queue.inFlight[i].value == e;
        assert e.submit !in s.device.finished;
      }
    }
  }

  lemma {:induction false} FinishKeepsDevice(q: Queue, d: Device, f: nat)
    requires ListOk(q.inFlight, q.flush) && DeviceOk(q, d) && f in d.pending
    ensures DeviceOk(q, Finished(d, f))
  {
    var list := q.inFlight;
    assert Holds(list, f);
    var k :| 0 <= k < |list| && list[k].Some? && list[k].value.fence == f;
    assert EntryOk(list[k].value, d);
    forall i | 0 <= i < |list| && list[i].Some? ensures EntryOk(list[i].value, Finished(d, f)) {
      assert EntryOk(list[i].value, d);
    }
  }

  lemma {:induction false} FinishKeepsInv(s: State, f: nat)
    requires Inv(s) && f in s.device.pending
    ensures Inv(s.(device := Finished(s.device, f)))
  {
    FinishKeepsDevice(s.queue, s.device, f);
    assert CallsOk(s.queue, Finished(s.device, f));
  }

  lemma {:induction false} AppendDistinct(fences: seq<nat>, f: nat)
    requires Distinct(fences) && f !in fences
    ensures Distinct(fences + [f]) && forall x: nat :: x in fences + [f] <==> x in fences || x == f
  {
  }

  lemma {:induction false} EmptyKeepsPartition(
      list: seq<Option<InFlight>>, flush: Option<nat>, k: nat, unused: seq<nat>, created: nat)
    requires ListOk(list, flush) && k < |list| && list[k].Some? && Partitioned(list, unused, created)
    ensures Partitioned(list[k := None], unused + [list[k].value.fence], created)
  {
    var f := list[k].value.fence;
    EmptyHolds(list, flush, k);
    assert Holds(list, f);
    AppendDistinct(unused, f);
    var list', unused' := list[k := None], unused + [f];
    forall g: nat | Holds(list', g) ensures g < created {
      assert Holds(list, g);
    }
    forall g: nat | g in unused' ensures g < created && !Holds(list', g) {
      assert g in unused || g == f;
    }
    forall g: nat | g < created ensures g in unused' || Holds(list', g) {
      assert g in unused || Holds(list, g);
      assert g in unused ==> g in unused';
      assert unused'[|unused|] == f;
    }
  }

  lemma {:induction false} FlushKeepsLists(s: State, k: nat)
    requires Inv(s) && s.queue.flush == Some(k) && k < |s.queue.inFlight| && s.queue.inFlight[k].Some?
    ensures var s' := Flushed(s, k);
            && ListOk(s'.queue.inFlight, s'.queue.flush)
            && Partitioned(s'.queue.inFlight, s'.queue.unused, s'.device.created)
            && Count(s'.queue.inFlight) + |s'.queue.unused| == s'.device.created
  {
    EmptyKeepsPartition(s.queue.inFlight, s.queue.flush, k, s.queue.unused, s.device.created);
    CountEmpty(s.queue.inFlight, k);
  }

  lemma {:induction false} FlushKeepsDevice(s: State, k: nat)
    requires Inv(s) && s.queue.flush == Some(k) && k < |s.queue.inFlight| && s.queue.inFlight[k].Some?
    ensures var s' := Flushed(s, k); DeviceOk(s'.queue, s'.device) && CallsOk(s'.queue, s'.device)
  {
    var e, s' := s.queue.inFlight[k].value, Flushed(s, k);
    assert EntryOk(e, s.device);
    if e.fence in s.device.signalled {
      EmptyHolds(s.queue.inFlight, s.queue.flush, k);
      assert Awaited(s.queue.inFlight, e.submit);
      AppendDistinct(s.queue.called, e.submit);
      forall i | 0 <= i < |s'.queue.inFlight| && s'.queue.inFlight[i].Some?
        ensures EntryOk(s'.queue.inFlight[i].value, s'.device)
      {
        assert i != k && s'.queue.inFlight[i] == s.queue.inFlight[i];
        assert EntryOk(s.queue.inFlight[i].value, s.device);
        assert s.queue.inFlight[i].value.fence != e.fence by {
          if i < k { assert s.queue.inFlight[i].value.fence != s.queue.inFlight[k].value.fence; }
        }
      }
    }
  }

  lemma {:induction false} CompactKeepsInv(s: State)
    requires Inv(s)
    ensures Inv(s.(queue := s.queue.(inFlight := Compact<InFlight>(s.queue.inFlight), flush := None)))
  {
    CompactHolds(s.queue.inFlight);
    CountCompact(s.queue.inFlight);
    CompactKeepsList(s.queue.inFlight, s.queue.flush);
    CompactMembers<InFlight>(s.queue.inFlight);
    var list := Compact<InFlight>(s.queue.inFlight);
    forall i | 0 <= i < |list| && list[i].Some? ensures EntryOk(list[i].value, s.device) {
      assert list[i] in list;
      assert list[i] in s.queue.inFlight;
    }
  }

  lemma {:induction false} CompactKeepsList(list: seq<Option<InFlight>>, flush: Option<nat>)
    requires ListOk(list, flush)
    ensures ListOk(Compact<InFlight>(list), None)
  {
    CompactMembers<InFlight>(list);
    var kept := Compact<InFlight>(list);
    forall i | 0 <= i < |kept| ensures kept[i].Some? && kept[i] in list {
      assert kept[i] in kept;
    }
    assert forall i, j :: 0 <= i < j < |list| && list[i].Some? ==> list[i] != list[j];
    forall i, j | 0 <= i < j < |kept|
      ensures kept[i].value.fence != kept[j].value.fence && kept[i].value.submit != kept[j].value.submit
    {
      assert kept[i] != kept[j];
      var a :| 0 <= a < |list| && list[a] == kept[i];
      var b :| 0 <= b < |list| && list[b] == kept[j];
    }
  }

  lemma {:induction false} StepKeepsInv(s: State, step: Step, s': State)
    requires Inv(s) && Next(s, step, s')
    ensures Inv(s')
  {
    match step
    case Submit =>
      SubmitKeepsPartition(s);
      SubmitKeepsList(s);
      SubmitKeepsDevice(s);
      CountAppend(s.queue.inFlight, InFlight(NextFence(s.queue.unused, s.device.created), s.device.submits));
    case Finish(f) => FinishKeepsInv(s, f);
    case FlushBegin =>
    case FlushItem =>
      FlushKeepsLists(s, s.queue.flush.value);
      FlushKeepsDevice(s, s.queue.flush.value);
    case FlushEnd => CompactKeepsInv(s);
  }

  lemma {:induction false} RunKeepsInv(run: seq<State>, steps: seq<Step>, n: nat)
    requires IsRun(run, steps) && run[0] == Initial && n < |run|
    ensures Inv(run[n])
  {
    if n > 0 {
      RunKeepsInv(run, steps, n - 1);
      StepKeepsInv(run[n - 1], steps[n - 1], run[n]);
    } else {
      assert Partitioned([], [], 0);
    }
  }

  // ---------------------------------------------------------------- what every run guarantees

  /**
    In every run each fence is in exactly one of the two lists and at one place in it, no unused fence is
    signalled or pending, and a submit is always given a fence the device allows.
   */
  lemma {:induction false} FencesRecycled(run: seq<State>, steps: seq<Step>, n: nat, f: nat)
    requires IsRun(run, steps) && run[0] == Initial && n < |run|
    ensures f < run[n].device.created <==> f in run[n].queue.unused || Holds(run[n].queue.inFlight, f)
    ensures !(f in run[n].queue.unused && Holds(run[n].queue.inFlight, f))
    ensures Distinct(run[n].queue.unused) && ListOk(run[n].queue.inFlight, run[n].queue.flush)
    ensures f in run[n].queue.unused ==> f !in run[n].device.signalled && f !in run[n].device.pending
    ensures SubmitAllowed(run[n])
  {
    RunKeepsInv(run, steps, n);
  }

  /** No callback is made twice, none before the device has finished its own submit, and none is dropped. */
  lemma {:induction false} CallbackOnceAfterFinish(run: seq<State>, steps: seq<Step>, n: nat, id: nat)
    requires IsRun(run, steps) && run[0] == Initial && n < |run|
    ensures Distinct(run[n].queue.called)
    ensures id in run[n].queue.called ==> id in run[n].device.finished
    ensures id < run[n].device.submits ==> (id in run[n].queue.called <==> !Awaited(run[n].queue.inFlight, id))
  {
    RunKeepsInv(run, steps, n);
  }

  function InFlightCount(s: State): nat {
    Count(s.queue.inFlight)
  }

  /** A step creates a fence only when every existing one is in flight. */
  lemma {:induction false} CreatedOnlyAtPeak(s: State, step: Step, s': State)
    requires Inv(s) && Next(s, step, s')
    ensures s.device.created <= s'.device.created
    ensures s'.device.created == s.device.created || InFlightCount(s') == s'.device.created
  {
    StepKeepsInv(s, step, s');
  }

  /** The fences ever created are as many as the most submits that were ever in flight at once. */
  lemma {:induction false} CreatedIsHighWater(run: seq<State>, steps: seq<Step>, n: nat)
    requires IsRun(run, steps) && run[0] == Initial && n < |run|
    ensures forall i :: 0 <= i <= n ==> InFlightCount(run[i]) <= run[n].device.created
    ensures exists i :: 0 <= i <= n && InFlightCount(run[i]) == run[n].device.created
  {
    RunKeepsInv(run, steps, n);
    if n > 0 {
      CreatedIsHighWater(run, steps, n - 1);
      RunKeepsInv(run, steps, n - 1);
      CreatedOnlyAtPeak(run[n - 1], steps[n - 1], run[n]);
    } else {
      assert InFlightCount(run[0]) == 0;
    }
  }

  /** Flush has passed no entry whose submit had finished when it began. */
  ghost predicate ServedSoFar(q: Queue, finished: set<nat>) {
    q.flush.Some? && forall i :: 0 <= i < |q.inFlight| && i < q.flush.value && q.inFlight[i].Some? ==>
                       q.inFlight[i].value.submit !in finished
  }

  lemma {:induction false} ServedGrows(s: State, step: Step, s': State, finished: set<nat>)
    requires Inv(s) && Next(s, step, s') && ServedSoFar(s.queue, finished) && finished <= s.device.finished
    requires step != FlushEnd
    ensures ServedSoFar(s'.queue, finished) && finished <= s'.device.finished
  {
    if step == FlushItem {
      var k := s.queue.flush.value;
      assert EntryOk(s.queue.inFlight[k].value, s.device);
    }
  }

  lemma {:induction false} FlushInProgress(run: seq<State>, steps: seq<Step>, i: nat, n: nat)
    requires IsRun(run, steps) && run[0] == Initial && i < n < |run| && steps[i] == FlushBegin
    requires forall j :: i < j < n ==> steps[j] != FlushEnd
    ensures ServedSoFar(run[n].queue, run[i].device.finished) && run[i].device.finished <= run[n].device.finished
  {
    assert Next(run[n - 1], steps[n - 1], run[n]);
    if i == n - 1 {
      FlushBegins(run[i], run[n]);
    } else {
      FlushInProgress(run, steps, i, n - 1);
      RunKeepsInv(run, steps, n - 1);
      ServedGrows(run[n - 1], steps[n - 1], run[n], run[i].device.finished);
    }
  }

  lemma {:induction false} FlushBegins(s: State, s': State)
    requires Next(s, FlushBegin, s')
    ensures ServedSoFar(s'.queue, s.device.finished) && s.device.finished <= s'.device.finished
  {
  }

  /** When a Flush is over, every submit that had finished when it began has been called back. */
  lemma {:induction false} FlushCallsFinished(run: seq<State>, steps: seq<Step>, i: nat, n: nat, id: nat)
    requires IsRun(run, steps) && run[0] == Initial && i < n < |steps| && steps[i] == FlushBegin && steps[n] == FlushEnd
    requires forall j :: i < j < n ==> steps[j] != FlushEnd
    requires id in run[i].device.finished
    ensures id in run[n + 1].queue.called
  {
    FlushInProgress(run, steps, i, n);
    RunKeepsInv(run, steps, n);
    assert Next(run[n], steps[n], run[n + 1]);
    assert id < run[n].device.submits;
    assert !Awaited(run[n].queue.inFlight, id);
  }

  // ---------------------------------------------------------------- a Flush as one pass over the list

  function FencesOf(entries: seq<InFlight>): (r: seq<nat>) {
    seq(|entries|, i requires 0 <= i < |entries| => entries[i].fence)
  }

  function SubmitsOf(entries: seq<InFlight>): (r: seq<nat>) {
    seq(|entries|, i requires 0 <= i < |entries| => entries[i].submit)
  }

  ghost predicate AllThere(list: seq<Option<InFlight>>) {
    forall i :: 0 <= i < |list| ==> list[i].Some?
  }

  /** A Flush that began with `q0` has polled as many entries as `ready` has answers. */
  ghost predicate FlushedTo(q0: Queue, q: Queue, ready: seq<bool>) {
    && AllThere(q0.inFlight) && |ready| <= |q0.inFlight| && q.flush == Some(|ready|)
    && var list := q0.inFlight[..|ready|];
       && q.inFlight == Emptied(list, ready) + q0.inFlight[|ready|..]
       && q.called == q0.called + SubmitsOf(Taken(list, ready))
       && q.unused == q0.unused + FencesOf(Taken(list, ready))
  }

  lemma {:induction false} FlushStarts(q: Queue)
    requires ListOk(q.inFlight, None)
    ensures FlushedTo(q, q.(flush := Some(0)), [])
  {
    var list := q.inFlight[..0];
    assert list == [] && Emptied(list, []) == [];
    assert Taken(list, []) == [];
  }

  lemma {:induction false} PolledOne(q0: Queue, q: Queue, ready: seq<bool>, answer: bool)
    requires FlushedTo(q0, q, ready) && |ready| < |q0.inFlight|
    ensures var k := |ready|;
            && k < |q.inFlight| && q.inFlight[k] == q0.inFlight[k]
            && q0.inFlight[..k + 1] == q0.inFlight[..k] + [q0.inFlight[k]]
            && Emptied(q0.inFlight[..k + 1], ready + [answer]) + q0.inFlight[k + 1..] ==
               (if answer then q.inFlight[k := None] else q.inFlight)
  {
    var k := |ready|;
    var list, list' := q0.inFlight[..k], q0.inFlight[..k + 1];
    assert Emptied(list', ready + [answer])[..k] == Emptied(list, ready);
    assert q0.inFlight[k..] == [q0.inFlight[k]] + q0.inFlight[k + 1..];
  }

  lemma {:induction false} TakenOne(list: seq<Option<InFlight>>, e: Option<InFlight>, ready: seq<bool>, answer: bool)
    requires AllThere(list) && e.Some? && |ready| == |list|
    ensures AllThere(list + [e])
    ensures Taken(list + [e], ready + [answer]) == Taken(list, ready) + if answer then [e.value] else []
  {
    var k := |list|;
    var list', ready' := list + [e], ready + [answer];
    TakenExtends(list', ready', k);
    assert list'[..k + 1] == list' && list'[..k] == list && ready'[..k + 1] == ready' && ready'[..k] == ready;
  }

  lemma {:induction false} FlushAdvances(q0: Queue, s: State, s': State, ready: seq<bool>) returns (answer: bool)
    requires FlushedTo(q0, s.queue, ready) && |ready| < |q0.inFlight| && Next(s, FlushItem, s')
    ensures FlushedTo(q0, s'.queue, ready + [answer])
  {
    var k := |ready|;
    answer := s.queue.inFlight[k].value.fence in s.device.signalled;
    PolledOne(q0, s.queue, ready, answer);
    TakenOne(q0.inFlight[..k], q0.inFlight[k], ready, answer);
    var before, after := Taken(q0.inFlight[..k], ready), Taken(q0.inFlight[..k + 1], ready + [answer]);
    var e := q0.inFlight[k].value;
    assert SubmitsOf(after) == SubmitsOf(before) + if answer then [e.submit] else [];
    assert FencesOf(after) == FencesOf(before) + if answer then [e.fence] else [];
  }

  lemma {:induction false} FlushPolls(run: seq<State>, steps: seq<Step>, i: nat, n: nat) returns (ready: seq<bool>)
    requires IsRun(run, steps) && run[0] == Initial && i < n < |run| && steps[i] == FlushBegin
    requires forall j :: i < j < n ==> steps[j] != FlushEnd
    ensures FlushedTo(run[i].queue, run[n].queue, ready)
  {
    assert Next(run[n - 1], steps[n - 1], run[n]);
    if i == n - 1 {
      RunKeepsInv(run, steps, i);
      FlushStarts(run[i].queue);
      ready := [];
    } else {
      ready := FlushPolls(run, steps, i, n - 1);
      if steps[n - 1] == FlushItem {
        var answer := FlushAdvances(run[i].queue, run[n - 1], run[n], ready);
        ready := ready + [answer];
      }
    }
  }

  /** What a pass with the given answers makes of a queue. */
  ghost predicate Pass(q: Queue, ready: seq<bool>, q': Queue) {
    && AllThere(q.inFlight) && |ready| == |q.inFlight|
    && q'.inFlight == Compact<InFlight>(Emptied(q.inFlight, ready))
    && q'.called == q.called + SubmitsOf(Taken(q.inFlight, ready))
    && q'.unused == q.unused + FencesOf(Taken(q.inFlight, ready))
  }

  /** However the device interferes, a Flush from its begin to its end is one pass with the answers it got. */
  lemma {:induction false} FlushIsPass(run: seq<State>, steps: seq<Step>, i: nat, n: nat) returns (ready: seq<bool>)
    requires IsRun(run, steps) && run[0] == Initial && i < n < |steps| && steps[i] == FlushBegin && steps[n] == FlushEnd
    requires forall j :: i < j < n ==> steps[j] != FlushEnd
    ensures Pass(run[i].queue, ready, run[n + 1].queue)
  {
    ready := FlushPolls(run, steps, i, n);
    assert Next(run[n], steps[n], run[n + 1]);
    var list := run[i].queue.inFlight;
    assert |run[n].queue.inFlight| == |list|;
    assert list[..|list|] == list;
    assert Emptied(list, ready) + [] == Emptied(list, ready);
  }
}
