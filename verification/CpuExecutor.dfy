/**
  The scheduler list of src/Teide/CpuExecutor.h and one pass of the scanner's loop in
  src/Teide/CpuExecutor.cpp, as they update the list in place.  Launches are steps of the protocol in
  CpuTasks; a scan is a pass, which CpuTasks.ScanIsPass proves of every scan of the protocol.
 */
module CpuExecution {
  import opened Wrappers
  import opened Polling
  import opened CpuTasks

  /** The tasks after those listed have been handed to the pool. */
  ghost function Queueing(tasks: seq<Task>, taken: seq<nat>): (r: seq<Task>)
    ensures |r| == |tasks|
  {
    seq(|tasks|, t requires 0 <= t < |tasks| => if t in taken then tasks[t].(status := Queued) else tasks[t])
  }

  lemma {:induction false} QueueOne(tasks: seq<Task>, taken: seq<nat>, t: nat)
    requires t < |tasks|
    ensures Queueing(tasks, taken + [t]) == SetStatus(Queueing(tasks, taken), t, Queued)
  {
  }

  /** `count` tasks have been launched; the ghost fields are what the protocol knows of them. */
  class CpuExecutor {
    var scheduled: seq<Option<nat>>
    var pool: seq<nat>
    var count: nat
    ghost var tasks: seq<Task>
    ghost var signalled: set<nat>
    ghost var log: seq<Event>
    ghost var waiter: Waiter

    /** The state of the protocol while the scanner does not hold the mutex. */
    ghost function Model(): Executor
      reads this
    {
      Executor(tasks, scheduled, None, signalled, log, waiter)
    }

    /** The list holds exactly the waiting tasks, each once, and no empty entry. */
    ghost predicate Valid()
      reads this
    {
      count == |tasks| && ListOk(tasks, scheduled, None)
    }

    constructor ()
      ensures Valid() && Model() == Initial && pool == []
    {
      scheduled, pool, count := [], [], 0;
      tasks, signalled, log, waiter := [], {}, [], Away;
    }

    /** A task without dependency goes straight to the pool. */
    method LaunchTask() returns (task: nat)
      requires Valid()
      modifies this`pool, this`count, this`tasks
      ensures Valid() && Next(old(Model()), Launch, Model())
      ensures task == old(|tasks|) && pool == old(pool) + [task]
    {
      task := count;
      ghost var before := Model();
      pool, count := pool + [task], count + 1;
      tasks := tasks + [Task(NoDependency, Queued)];
      StepKeepsList(before, Launch, Model());
    }

    /** A task with a dependency waits in the list, under a number no earlier task has. */
    method LaunchTaskAfter(dep: Dependency) returns (task: nat)
      requires Valid() && Enabled(Model(), LaunchAfter(dep))
      modifies this`scheduled, this`count, this`tasks
      ensures Valid() && Next(old(Model()), LaunchAfter(dep), Model())
      ensures task == old(|tasks|)
    {
      task := count;
      ghost var before := Model();
      scheduled, count := scheduled + [Some(task)], count + 1;
      tasks := tasks + [Task(dep, Waiting)];
      StepKeepsList(before, LaunchAfter(dep), Model());
    }

    /** One pass under the mutex; `ready` is what each entry's future answers when it is polled. */
    method Scan(ready: seq<bool>)
      requires Valid() && |ready| == |scheduled|
      modifies this`scheduled, this`pool, this`tasks
      ensures Valid() && scheduled == Compact<nat>(Emptied(old(scheduled), ready))
      ensures pool == old(pool) + Taken(old(scheduled), ready)
      ensures tasks == Queueing(old(tasks), Taken(old(scheduled), ready))
    {
      ghost var list, pool0, tasks0 := scheduled, pool, tasks;
      var i := 0;
      PassStarts(list, ready, pool, tasks);
      while i < |scheduled|
        invariant 0 <= i <= |scheduled| == |list| && count == |tasks|
        invariant PassAt(list, ready, i, scheduled, pool0, pool, tasks0, tasks) && ListOk(tasks, scheduled, Some(i))
      {
        Poll(list, ready, i, pool0, tasks0);
        i := i + 1;
      }
      PassEnds(list, ready, scheduled, pool0, pool, tasks0, tasks);
      CompactKeepsList(tasks, scheduled, Some(i));
      scheduled := EraseEmpty<nat>(scheduled);
    }

    /** The scanner looks at one entry and, if its future is ready, moves the task to the pool. */
    method Poll(ghost list: seq<Option<nat>>, ready: seq<bool>, i: nat, ghost pool0: seq<nat>, ghost tasks0: seq<Task>)
      requires i < |scheduled| == |list| && PassAt(list, ready, i, scheduled, pool0, pool, tasks0, tasks)
      requires ListOk(tasks, scheduled, Some(i))
      modifies this`scheduled, this`pool, this`tasks
      ensures PassAt(list, ready, i + 1, scheduled, pool0, pool, tasks0, tasks)
      ensures ListOk(tasks, scheduled, Some(i + 1)) && |tasks| == old(|tasks|) && |scheduled| == |list|
    {
      TakeKeepsList(tasks, scheduled, i);
      PassAdvances(list, ready, i, scheduled, pool0, pool, tasks0, tasks);
      if ready[i] {
        var task := scheduled[i].value;
        scheduled := scheduled[i := None];
        pool := pool + [task];
        tasks := SetStatus(tasks, task, Queued);
      }
    }
  }

  lemma {:induction false} PassEnds(
      list: seq<Option<nat>>, ready: seq<bool>, scheduled: seq<Option<nat>>,
      pool0: seq<nat>, pool: seq<nat>, tasks0: seq<Task>, tasks: seq<Task>)
    requires PassAt(list, ready, |list|, scheduled, pool0, pool, tasks0, tasks)
    ensures scheduled == Emptied(list, ready) && pool == pool0 + Taken(list, ready)
    ensures tasks == Queueing(tasks0, Taken(list, ready))
  {
    assert list[..|list|] == list && ready[..|list|] == ready;
  }

  /** The first `i` entries of `list` have been polled: list, pool and tasks show exactly the answers so far. */
  ghost predicate PassAt(list: seq<Option<nat>>, ready: seq<bool>, i: nat, scheduled: seq<Option<nat>>,
                         pool0: seq<nat>, pool: seq<nat>, tasks0: seq<Task>, tasks: seq<Task>) {
    && |ready| == |list| && i <= |list| && (forall k :: 0 <= k < |list| ==> list[k].Some?)
    && scheduled == Emptied(list, ready)[..i] + list[i..]
    && pool == pool0 + Taken(list[..i], ready[..i])
    && tasks == Queueing(tasks0, Taken(list[..i], ready[..i]))
  }

  lemma {:induction false} PassStarts(list: seq<Option<nat>>, ready: seq<bool>, pool: seq<nat>, tasks: seq<Task>)
    requires |ready| == |list| && forall k :: 0 <= k < |list| ==> list[k].Some?
    ensures PassAt(list, ready, 0, list, pool, pool, tasks, tasks)
  {
    assert list[..0] == [] && ready[..0] == [];
    assert Taken<nat>([], []) == [];
    assert Queueing(tasks, []) == tasks;
  }

  lemma {:induction false} PassAdvances(
      list: seq<Option<nat>>, ready: seq<bool>, i: nat, scheduled: seq<Option<nat>>,
      pool0: seq<nat>, pool: seq<nat>, tasks0: seq<Task>, tasks: seq<Task>)
    requires PassAt(list, ready, i, scheduled, pool0, pool, tasks0, tasks) && i < |list|
    requires |scheduled| == |list| && scheduled[i].Some? && scheduled[i].value < |tasks0|
    ensures scheduled[i] == list[i]
    ensures if ready[i]
            then PassAt(list, ready, i + 1, scheduled[i := None], pool0, pool + [list[i].value],
                        tasks0, SetStatus(tasks, list[i].value, Queued))
            else PassAt(list, ready, i + 1, scheduled, pool0, pool, tasks0, tasks)
  {
    TakenExtends(list, ready, i);
    var taken := Taken(list[..i], ready[..i]);
    QueueOne(tasks0, taken, list[i].value);
    var all := Emptied(list, ready);
    assert all[..i + 1] == all[..i] + [all[i]] && list[i..] == [list[i]] + list[i + 1..];
    assert taken + [] == taken;
  }

  /** Polling an entry, whatever its answer, keeps the list and the waiting tasks in step. */
  lemma {:induction false} TakeKeepsList(tasks: seq<Task>, scheduled: seq<Option<nat>>, k: nat)
    requires ListOk(tasks, scheduled, Some(k)) && k < |scheduled|
    ensures scheduled[k].Some? && scheduled[k].value < |tasks|
    ensures ListOk(SetStatus(tasks, scheduled[k].value, Queued), scheduled[k := None], Some(k + 1))
    ensures ListOk(tasks, scheduled, Some(k + 1))
  {
    var tasks', scheduled' := SetStatus(tasks, scheduled[k].value, Queued), scheduled[k := None];
    forall t | 0 <= t < |tasks'| && tasks'[t].status.Waiting? ensures Some(t) in scheduled' {
      assert Some(t) in scheduled;
      var i :| 0 <= i < |scheduled| && scheduled[i] == Some(t);
      assert scheduled'[i] == Some(t);
    }
  }
}
