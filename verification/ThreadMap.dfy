/**
  Per-thread entries claimed without a lock (src/Teide/Util/ThreadUtils.h, ThreadMap).  A thread looks for
  its own entry among those in use and otherwise claims the next one by an atomic increment; a claim beyond
  the capacity is rolled back.  Every load, comparison, increment, publication and roll-back is a step of
  its own, and the steps of all threads interleave freely.
 */
module ThreadMaps {
  /** Where a thread is in GetCurrentObject; `used` is the size it loaded, `at` the entry it compares next. */
  datatype Pc = Outside | Searching(used: nat, at: nat) | Claimed(index: nat) | Overflowed

  datatype Claim = Claim(thread: nat, index: nat)

  /** `ids` are the thread ids stored in the entries; `claims` and `results` record what was issued and returned. */
  datatype ThreadMap = ThreadMap(size: nat, ids: seq<nat>, pcs: map<nat, Pc>, claims: seq<Claim>, results: seq<Claim>)

  datatype Step =
    | Load(thread: nat)
    | Compare(thread: nat)
    | FetchAdd(thread: nat)
    | Publish(thread: nat)
    | RollBack(thread: nat)

  /** The constructor stores the id of the building thread in every entry. */
  function Built(capacity: nat, builder: nat): ThreadMap {
    ThreadMap(0, seq(capacity, i => builder), map[], [], [])
  }

  method Construct(capacity: nat, builder: nat) returns (m: ThreadMap)
    ensures m == Built(capacity, builder)
  {
    var ids: seq<nat> := [];
    while |ids| < capacity
      invariant |ids| <= capacity && forall i :: 0 <= i < |ids| ==> ids[i] == builder
    {
      ids := ids + [builder];
    }
    m := ThreadMap(0, ids, map[], [], []);
  }

  // ---------------------------------------------------------------- the steps

  function PcOf(m: ThreadMap, t: nat): Pc {
    if t in m.pcs then m.pcs[t] else Outside
  }

  function Min(a: nat, b: nat): nat {
    if a < b then a else b
  }

  function At(m: ThreadMap, t: nat, pc: Pc): ThreadMap {
    m.(pcs := m.pcs[t := pc])
  }

  predicate Enabled(m: ThreadMap, step: Step) {
    match step
    case Load(t) => PcOf(m, t).Outside?
    case Compare(t) => PcOf(m, t).Searching? && PcOf(m, t).at < PcOf(m, t).used <= |m.ids|
    case FetchAdd(t) => PcOf(m, t).Searching? && PcOf(m, t).at >= PcOf(m, t).used
    case Publish(t) => PcOf(m, t).Claimed? && PcOf(m, t).index < |m.ids|
    case RollBack(t) => PcOf(m, t).Overflowed? && m.size > 0
  }

  function After(m: ThreadMap, step: Step): ThreadMap
    requires Enabled(m, step)
  {
    match step
    case Load(t) => At(m, t, Searching(Min(m.size, |m.ids|), 0))
    case Compare(t) =>
      var pc := PcOf(m, t);
      if m.ids[pc.at] == t then At(m, t, Outside).(results := m.results + [Claim(t, pc.at)])
      else At(m, t, Searching(pc.used, pc.at + 1))
    case FetchAdd(t) =>
      if m.size >= |m.ids| then At(m, t, Overflowed).(size := m.size + 1)
      else At(m, t, Claimed(m.size)).(size := m.size + 1, claims := m.claims + [Claim(t, m.size)])
    case Publish(t) =>
      var i := PcOf(m, t).index;
      At(m, t, Outside).(ids := m.ids[i := t], results := m.results + [Claim(t, i)])
    case RollBack(t) => At(m, t, Outside).(size := m.size - 1)
  }

  ghost predicate Next(m: ThreadMap, step: Step, m': ThreadMap) {
    Enabled(m, step) && m' == After(m, step)
  }

  ghost predicate IsRun(run: seq<ThreadMap>, steps: seq<Step>) {
    && |run| == |steps| + 1
    && forall i :: 0 <= i < |steps| ==> Next(run[i], steps[i], run[i + 1])
  }

  /** A run of a fresh map, whichever threads call it. */
  ghost predicate IsRunFrom(run: seq<ThreadMap>, steps: seq<Step>, capacity: nat, builder: nat) {
    IsRun(run, steps) && run[0] == Built(capacity, builder)
  }

  /** Only these threads take steps. */
  ghost predicate StepsBy(steps: seq<Step>, threads: set<nat>) {
    forall i :: 0 <= i < |steps| ==> steps[i].thread in threads
  }

  // ---------------------------------------------------------------- the invariant

  ghost function Overflowing(m: ThreadMap): set<nat> {
    set t | t in m.pcs && m.pcs[t].Overflowed?
  }

  /** Overflowing claims are on the counter on top of the entries issued, and only once all are issued. */
  ghost predicate CounterOk(m: ThreadMap) {
    && m.size == |m.claims| + |Overflowing(m)|
    && |m.claims| <= |m.ids|
    && (Overflowing(m) != {} ==> |m.claims| == |m.ids|)
  }

  /** Entries are issued in order, each to a different thread. */
  ghost predicate ClaimsOk(claims: seq<Claim>) {
    && (forall i :: 0 <= i < |claims| ==> claims[i].index == i)
    && (forall i, j :: 0 <= i < j < |claims| ==> claims[i].thread != claims[j].thread)
  }

  /** An entry shows its thread once published; until then, and while unclaimed, it shows the builder. */
  ghost predicate EntriesOk(m: ThreadMap, builder: nat) {
    && (forall i :: 0 <= i < |m.claims| && i < |m.ids| ==> OwnerOk(m, i, builder))
    && (forall i :: |m.claims| <= i < |m.ids| ==> m.ids[i] == builder)
  }

  ghost predicate OwnerOk(m: ThreadMap, i: nat, builder: nat)
    requires i < |m.claims| && i < |m.ids|
  {
    var pc := PcOf(m, m.claims[i].thread);
    if pc.Claimed? then pc.index == i && m.ids[i] == builder
    else m.ids[i] == m.claims[i].thread && !pc.Overflowed? && (pc.Searching? ==> pc.at <= i < pc.used)
  }

  ghost predicate PcsOk(m: ThreadMap) {
    forall t :: t in m.pcs ==>
      && (m.pcs[t].Claimed? ==> m.pcs[t].index < |m.claims| && m.claims[m.pcs[t].index].thread == t)
      && (m.pcs[t].Searching? ==> m.pcs[t].used <= |m.claims|)
  }

  ghost predicate ResultsOk(m: ThreadMap) {
    forall k :: 0 <= k < |m.results| ==> m.results[k].index < |m.claims|
  }

  ghost predicate Inv(m: ThreadMap, builder: nat) {
    CounterOk(m) && ClaimsOk(m.claims) && EntriesOk(m, builder) && PcsOk(m) && ResultsOk(m)
  }

  // ---------------------------------------------------------------- each step keeps it

  lemma {:induction false} MoveOverflow(m: ThreadMap, t: nat, pc: Pc)
    ensures Overflowing(At(m, t, pc)) == if pc.Overflowed? then Overflowing(m) + {t} else Overflowing(m) - {t}
  {
  }

  /** A claim makes its thread's first appearance: a thread with an entry always finds it before its search ends. */
  lemma {:induction false} FreshClaim(m: ThreadMap, t: nat, builder: nat)
    requires Inv(m, builder) && Enabled(m, FetchAdd(t))
    ensures forall i :: 0 <= i < |m.claims| ==> m.claims[i].thread != t
  {
    forall i | 0 <= i < |m.claims| ensures m.claims[i].thread != t {
      assert OwnerOk(m, i, builder);
    }
  }

  lemma {:induction false} StepKeepsCounter(m: ThreadMap, step: Step, builder: nat)
    requires Inv(m, builder) && Enabled(m, step)
    ensures CounterOk(After(m, step))
  {
    var t := step.thread;
    MoveOverflow(m, t, PcOf(After(m, step), t));
    if step.RollBack? || step.FetchAdd? {
      assert t in Overflowing(m) <==> step.RollBack?;
    } else {
      assert t !in Overflowing(m);
      assert Overflowing(m) - {t} == Overflowing(m);
    }
  }

  lemma {:induction false} StepKeepsClaims(m: ThreadMap, step: Step, builder: nat)
    requires Inv(m, builder) && Enabled(m, step)
    ensures ClaimsOk(After(m, step).claims)
  {
    if step.FetchAdd? { FreshClaim(m, step.thread, builder); }
  }

  lemma {:induction false} StepKeepsOwner(m: ThreadMap, step: Step, builder: nat, i: nat)
    requires Inv(m, builder) && Enabled(m, step)
    requires i < |After(m, step).claims| && i < |m.ids|
    ensures OwnerOk(After(m, step), i, builder)
  {
    if i < |m.claims| {
      assert OwnerOk(m, i, builder);
      if m.claims[i].thread != step.thread {
        assert PcOf(After(m, step), m.claims[i].thread) == PcOf(m, m.claims[i].thread);
        if step.Publish? {
          assert PcOf(m, step.thread).index != i;
        }
      }
    } else {
      assert step.FetchAdd?;
    }
  }

  lemma {:induction false} StepKeepsInv(m: ThreadMap, step: Step, m': ThreadMap, builder: nat)
    requires Inv(m, builder) && Next(m, step, m')
    ensures Inv(m', builder) && |m'.ids| == |m.ids|
  {
    StepKeepsCounter(m, step, builder);
    StepKeepsClaims(m, step, builder);
    forall i | 0 <= i < |m'.claims| && i < |m'.ids| ensures OwnerOk(m', i, builder) {
      StepKeepsOwner(m, step, builder, i);
    }
  }

  lemma {:induction false} RunKeepsInv(run: seq<ThreadMap>, steps: seq<Step>, capacity: nat, builder: nat, n: nat)
    requires IsRunFrom(run, steps, capacity, builder) && n < |run|
    ensures Inv(run[n], builder) && |run[n].ids| == capacity
  {
    if n > 0 {
      RunKeepsInv(run, steps, capacity, builder, n - 1);
      StepKeepsInv(run[n - 1], steps[n - 1], run[n], builder);
    } else {
      assert Overflowing(run[0]) == {};
    }
  }

  // ---------------------------------------------------------------- what every run guarantees

  /** No entry is issued twice, and none beyond the capacity, however often overflowing claims move the counter. */
  lemma {:induction false} IssuedOnce(run: seq<ThreadMap>, steps: seq<Step>, capacity: nat, builder: nat, n: nat)
    requires IsRunFrom(run, steps, capacity, builder) && n < |run|
    ensures |run[n].claims| <= capacity && ClaimsOk(run[n].claims)
    ensures run[n].size == |run[n].claims| + |Overflowing(run[n])|
  {
    RunKeepsInv(run, steps, capacity, builder, n);
  }

  /** A claim overflows only when all entries have been issued, none of them to the thread that fails. */
  lemma {:induction false} OverflowOnlyWhenFull(
      run: seq<ThreadMap>, steps: seq<Step>, capacity: nat, builder: nat, n: nat, t: nat)
    requires IsRunFrom(run, steps, capacity, builder) && n < |run| && PcOf(run[n], t).Overflowed?
    ensures |run[n].claims| == capacity && forall i :: 0 <= i < capacity ==> run[n].claims[i].thread != t
  {
    RunKeepsInv(run, steps, capacity, builder, n);
    assert t in Overflowing(run[n]);
    forall i | 0 <= i < capacity ensures run[n].claims[i].thread != t {
      assert OwnerOk(run[n], i, builder);
    }
  }

  /** Every thread can always take its next step: no comparison is out of range, no roll-back goes below zero. */
  lemma {:induction false} NeverStuck(
      run: seq<ThreadMap>, steps: seq<Step>, capacity: nat, builder: nat, n: nat, t: nat)
    requires IsRunFrom(run, steps, capacity, builder) && n < |run|
    ensures exists step: Step :: step.thread == t && Enabled(run[n], step)
  {
    RunKeepsInv(run, steps, capacity, builder, n);
    var m := run[n];
    var step := match PcOf(m, t) {
      case Outside => Load(t)
      case Searching(used, at) => if at < used then Compare(t) else FetchAdd(t)
      case Claimed(_) => Publish(t)
      case Overflowed => RollBack(t)
    };
    if PcOf(m, t).Overflowed? {
      assert t in Overflowing(m);
    }
    assert Enabled(m, step);
  }

  // ---------------------------------------------------------------- whose entry a call returns

  /** The entry a result names was claimed by the thread that got it. */
  ghost predicate OwnedAt(m: ThreadMap, k: nat) {
    k < |m.results| && m.results[k].index < |m.claims| ==> m.claims[m.results[k].index].thread == m.results[k].thread
  }

  /** The builder is about to compare with an entry that another thread has claimed but not yet published. */
  ghost predicate MeetsUnpublished(m: ThreadMap, step: Step, builder: nat) {
    && step == Compare(builder) && Enabled(m, step) && PcOf(m, builder).at < |m.claims|
    && PcOf(m, m.claims[PcOf(m, builder).at].thread).Claimed?
  }

  /**
    For every thread, the builder included: a step that returns an entry returns it to the thread that
    claimed it, except exactly when the builder meets an entry claimed but not yet published.
   */
  lemma {:induction false} ReturnedToOwnerUnless(m: ThreadMap, step: Step, m': ThreadMap, builder: nat)
    requires Inv(m, builder) && Next(m, step, m')
    ensures |m.results| <= |m'.results| <= |m.results| + 1
    ensures MeetsUnpublished(m, step, builder) <==> !OwnedAt(m', |m.results|)
    ensures forall k :: 0 <= k < |m.results| && OwnedAt(m, k) ==> OwnedAt(m', k)
    ensures forall k :: 0 <= k < |m.results| && !OwnedAt(m, k) ==> !OwnedAt(m', k)
  {
    if step.Compare? {
      assert OwnerOk(m, PcOf(m, step.thread).at, builder);
    }
    forall k | 0 <= k < |m.results| ensures OwnedAt(m, k) == OwnedAt(m', k) {
      assert m'.results[k] == m.results[k];
    }
  }

  /** Over a whole run: all entries went to their owners exactly if the builder never met an unpublished one. */
  lemma {:induction false} AllOwnedIff(run: seq<ThreadMap>, steps: seq<Step>, capacity: nat, builder: nat, n: nat)
    requires IsRunFrom(run, steps, capacity, builder) && n < |run|
    ensures (forall k: nat :: OwnedAt(run[n], k)) <==>
            forall i :: 0 <= i < n ==> !MeetsUnpublished(run[i], steps[i], builder)
  {
    if n > 0 {
      AllOwnedIff(run, steps, capacity, builder, n - 1);
      RunKeepsInv(run, steps, capacity, builder, n - 1);
      ReturnedToOwnerUnless(run[n - 1], steps[n - 1], run[n], builder);
    }
  }

  // ---------------------------------------------------------------- exclusivity

  /** Two calls returned the same entry exactly when the same thread made them. */
  ghost predicate Exclusive(m: ThreadMap) {
    forall j, k :: 0 <= j < |m.results| && 0 <= k < |m.results| ==>
      (m.results[j].index == m.results[k].index <==> m.results[j].thread == m.results[k].thread)
  }

  lemma {:induction false} OwnedIsExclusive(m: ThreadMap, builder: nat)
    requires Inv(m, builder) && forall k: nat :: OwnedAt(m, k)
    ensures Exclusive(m)
  {
    forall j, k | 0 <= j < |m.results| && 0 <= k < |m.results|
      ensures m.results[j].index == m.results[k].index <==> m.results[j].thread == m.results[k].thread
    {
      assert OwnedAt(m, j) && OwnedAt(m, k);
    }
  }

  /** Whenever the builder's comparisons meet no unpublished entry, entries are exclusive. */
  lemma {:induction false} EntriesAreExclusive(
      run: seq<ThreadMap>, steps: seq<Step>, capacity: nat, builder: nat, n: nat)
    requires IsRunFrom(run, steps, capacity, builder) && n < |run|
    requires forall i :: 0 <= i < n ==> !MeetsUnpublished(run[i], steps[i], builder)
    ensures Exclusive(run[n])
  {
    AllOwnedIff(run, steps, capacity, builder, n);
    RunKeepsInv(run, steps, capacity, builder, n);
    OwnedIsExclusive(run[n], builder);
  }

  /** At most one thread is inside GetCurrentObject. */
  ghost predicate OneInside(m: ThreadMap) {
    forall t, u :: t in m.pcs && u in m.pcs && !m.pcs[t].Outside? && !m.pcs[u].Outside? ==> t == u
  }

  /** So a map that is only called under a mutex is exclusive for every thread, its builder included. */
  lemma {:induction false} LockedCallsAreExclusive(
      run: seq<ThreadMap>, steps: seq<Step>, capacity: nat, builder: nat, n: nat)
    requires IsRunFrom(run, steps, capacity, builder) && n < |run|
    requires forall i :: 0 <= i < |run| ==> OneInside(run[i])
    ensures Exclusive(run[n])
  {
    forall i | 0 <= i < n ensures !MeetsUnpublished(run[i], steps[i], builder) {
      assert OneInside(run[i]);
    }
    EntriesAreExclusive(run, steps, capacity, builder, n);
  }

  // ---------------------------------------------------------------- the exact condition

  /** Whatever these threads do, no entry is shared. */
  ghost predicate AlwaysExclusive(capacity: nat, builder: nat, threads: set<nat>) {
    forall run, steps :: IsRunFrom(run, steps, capacity, builder) && StepsBy(steps, threads) ==>
      Exclusive(run[|run| - 1])
  }

  /** Claims are made by threads that take steps. */
  lemma {:induction false} ClaimedByCallers(
      run: seq<ThreadMap>, steps: seq<Step>, capacity: nat, builder: nat, threads: set<nat>, n: nat)
    requires IsRunFrom(run, steps, capacity, builder) && StepsBy(steps, threads) && n < |run|
    ensures forall i :: 0 <= i < |run[n].claims| ==> run[n].claims[i].thread in threads
  {
    if n > 0 {
      ClaimedByCallers(run, steps, capacity, builder, threads, n - 1);
      assert Next(run[n - 1], steps[n - 1], run[n]);
      assert steps[n - 1].thread in threads;
    }
  }

  lemma {:induction false} NoMeeting(
      run: seq<ThreadMap>, steps: seq<Step>, capacity: nat, builder: nat, threads: set<nat>, n: nat)
    requires IsRunFrom(run, steps, capacity, builder) && StepsBy(steps, threads) && n < |steps|
    requires builder !in threads || threads <= {builder} || capacity == 0
    ensures !MeetsUnpublished(run[n], steps[n], builder)
  {
    ClaimedByCallers(run, steps, capacity, builder, threads, n);
    RunKeepsInv(run, steps, capacity, builder, n);
    assert steps[n].thread in threads;
  }

  /** With room for an entry, the builder can always be made to share one with any other thread. */
  lemma {:induction false} BuilderSharesEntry(capacity: nat, builder: nat, t: nat)
    returns (run: seq<ThreadMap>, steps: seq<Step>)
    requires capacity > 0 && t != builder
    ensures IsRunFrom(run, steps, capacity, builder) && StepsBy(steps, {builder, t})
    ensures run[|run| - 1].results == [Claim(builder, 0), Claim(t, 0)]
  {
    var m0 := Built(capacity, builder);
    steps := [Load(t), FetchAdd(t), Load(builder), Compare(builder), Publish(t)];
    var m1 := After(m0, steps[0]);
    var m2 := After(m1, steps[1]);
    var m3 := After(m2, steps[2]);
    var m4 := After(m3, steps[3]);
    var m5 := After(m4, steps[4]);
    run := [m0, m1, m2, m3, m4, m5];
    assert IsRun(run, steps);
  }

  /**
    Exactly when entries are exclusive in every run: the builder does not call, or no other thread does, or
    there is no entry to share.
   */
  lemma {:induction false} ExclusiveIff(capacity: nat, builder: nat, threads: set<nat>)
    ensures AlwaysExclusive(capacity, builder, threads) <==>
            builder !in threads || threads <= {builder} || capacity == 0
  {
    if builder !in threads || threads <= {builder} || capacity == 0 {
      forall run, steps | IsRunFrom(run, steps, capacity, builder) && StepsBy(steps, threads)
        ensures Exclusive(run[|run| - 1])
      {
        forall i | 0 <= i < |steps| ensures !MeetsUnpublished(run[i], steps[i], builder) {
          NoMeeting(run, steps, capacity, builder, threads, i);
        }
        EntriesAreExclusive(run, steps, capacity, builder, |run| - 1);
      }
    } else {
      var t :| t in threads && t != builder;
      var run, steps := BuilderSharesEntry(capacity, builder, t);
      assert StepsBy(steps, threads);
      SharedIsNotExclusive(run[|run| - 1], builder, t);
    }
  }

  lemma {:induction false} SharedIsNotExclusive(m: ThreadMap, builder: nat, t: nat)
    requires m.results == [Claim(builder, 0), Claim(t, 0)] && t != builder
    ensures !Exclusive(m)
  {
    assert m.results[0].index == m.results[1].index && m.results[0].thread != m.results[1].thread;
  }
}
