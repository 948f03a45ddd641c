/**
  The submission queue of src/Teide/Queue.cpp as it updates its lists in place.  The device appears as the
  number of fences it has created and the answers it gives when a fence is polled.
 */
module SubmitQueue {
  import opened Wrappers
  import opened Polling
  import opened Fences

  class CommandQueue {
    var inFlight: seq<Option<InFlight>>
    var unused: seq<nat>
    var created: nat
    var submits: nat
    var called: seq<nat>

    /** Outside the mutex every entry has its fence and its callback. */
    ghost predicate Valid()
      reads this
    {
      forall i :: 0 <= i < |inFlight| ==> inFlight[i].Some?
    }

    /** What the protocol sees while no Flush is under way. */
    ghost function Model(): Fences.Queue
      reads this
    {
      Fences.Queue(inFlight, unused, None, called)
    }

    constructor ()
      ensures Valid() && inFlight == [] && unused == [] && created == 0 && submits == 0 && called == []
    {
      inFlight, unused, created, submits, called := [], [], 0, 0, [];
    }

    /** A fence is created only when none is unused; otherwise the one unused longest is taken. */
    method GetFence() returns (fence: nat)
      modifies this`unused, this`created
      ensures fence == NextFence(old(unused), old(created))
      ensures old(unused) == [] ==> unused == [] && created == old(created) + 1
      ensures old(unused) != [] ==> [fence] + unused == old(unused) && created == old(created)
    {
      if unused == [] {
        fence, created := created, created + 1;
      } else {
        fence, unused := unused[0], unused[1..];
      }
    }

    /** Takes the step the protocol calls Submitted. */
    method Submit()
      requires Valid()
      modifies this`inFlight, this`unused, this`created, this`submits
      ensures Valid() && submits == old(submits) + 1
      ensures inFlight == old(inFlight) + [Some(InFlight(NextFence(old(unused), old(created)), old(submits)))]
      ensures |unused| + |inFlight| - created == old(|unused| + |inFlight| - created)
      ensures forall d: Device :: d.created == old(created) && d.submits == old(submits) ==>
                Submitted(State(old(Model()), d)).queue == Model()
    {
      var fence := GetFence();
      inFlight := inFlight + [Some(InFlight(fence, submits))];
      submits := submits + 1;
    }

    /** Calls back, in list order, every submit whose fence is found signalled, and keeps those fences for reuse. */
    method Flush(ready: seq<bool>)
      requires Valid() && |ready| == |inFlight|
      modifies this`inFlight, this`unused, this`called
      ensures Valid() && Pass(old(Model()), ready, Model())
    {
      ghost var list := inFlight;
      var i := 0;
      while i < |inFlight|
        invariant 0 <= i <= |inFlight| == |list|
        invariant inFlight[..i] == Emptied(list, ready)[..i] && inFlight[i..] == list[i..]
        invariant called == old(called) + SubmitsOf(Taken(list[..i], ready[..i]))
        invariant unused == old(unused) + FencesOf(Taken(list[..i], ready[..i]))
      {
        TakenExtends(list, ready, i);
        assert inFlight[i] == inFlight[i..][0] == list[i];
        ghost var before := inFlight;
        if ready[i] {
          var entry := inFlight[i].value;
          called := called + [entry.submit];
          unused := unused + [entry.fence];
          inFlight := inFlight[i := None];
        }
        assert inFlight[i + 1..] == before[i..][1..];
        assert inFlight[..i + 1] == before[..i] + [inFlight[i]];
        i := i + 1;
      }
      assert list[..i] == list && ready[..i] == ready && inFlight == Emptied(list, ready);
      inFlight := EraseEmpty<InFlight>(inFlight);
    }

    method GetInFlightFences() returns (fences: seq<nat>)
      requires Valid()
      ensures |fences| == |inFlight| && forall i :: 0 <= i < |fences| ==> fences[i] == inFlight[i].value.fence
    {
      fences := [];
      var i := 0;
      while i < |inFlight|
        invariant 0 <= i <= |inFlight| && |fences| == i
        invariant forall j :: 0 <= j < i ==> fences[j] == inFlight[j].value.fence
      {
        fences := fences + [inFlight[i].value.fence];
        i := i + 1;
      }
    }
  }
}
