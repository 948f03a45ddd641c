/**
  The CPU executor (src/Teide/CpuExecutor.h, src/Teide/CpuExecutor.cpp): tasks scheduled on a future are
  polled by one scanner thread, handed to a worker pool once their future is ready, and waited for by
  WaitForTasks.  Launching threads, workers, the scanner, a waiting thread and the outside world that
  fulfils other futures interleave freely; the scheduler mutex is held for the whole of a scan.
 */
module CpuTasks {
  import opened Wrappers
  import opened Polling

  /** The future a task waits for: none, that of another task, or one fulfilled elsewhere. */
  datatype Dependency = NoDependency | OnTask(task: nat) | OnExternal(future: nat)

  /** Fulfilled: the promise is set but the pool has not yet retired it. */
  datatype Status = Waiting | Queued | Running | Fulfilled | Done

  datatype Task = Task(dep: Dependency, status: Status)

  datatype Event = Started(task: nat) | Completed(task: nat) | Signalled(future: nat)

  /**
    Where the thread in WaitForTasks is; `called` and `seen` count the tasks launched at the call and at the check
    that found no scheduled task.
   */
  datatype Waiter =
    | Away
    | FirstDrain(called: nat)
    | Checking(called: nat)
    | Polling(called: nat)
    | LastDrain(called: nat, seen: nat)
    | Returned(called: nat, seen: nat)

  /**
    `scheduled` holds None where the scan has taken a task out; `scan` is the scanner's position while it holds
    the mutex.
   */
  datatype Executor = Executor(tasks: seq<Task>, scheduled: seq<Option<nat>>, scan: Option<nat>,
                               signalled: set<nat>, log: seq<Event>, waiter: Waiter)

  datatype Step =
    | Launch
    | LaunchAfter(dep: Dependency)
    | ScanBegin
    | ScanItem
    | ScanEnd
    | Start(task: nat)
    | Fulfil(task: nat)
    | Retire(task: nat)
    | Signal(future: nat)
    | WaitCall
    | WaitDrained
    | WaitCheck

  const Initial := Executor([], [], None, {}, [], Away)

  // ---------------------------------------------------------------- the steps

  predicate HasResult(task: Task) {
    task.status.Fulfilled? || task.status.Done?
  }

  predicate Met(tasks: seq<Task>, signalled: set<nat>, dep: Dependency) {
    match dep
    case NoDependency => true
    case OnTask(d) => d < |tasks| && HasResult(tasks[d])
    case OnExternal(e) => e in signalled
  }

  function SetStatus(tasks: seq<Task>, t: nat, status: Status): seq<Task>
    requires t < |tasks|
  {
    tasks[t := tasks[t].(status := status)]
  }

  ghost predicate Drained(tasks: seq<Task>) {
    forall t :: 0 <= t < |tasks| ==> tasks[t].status.Waiting? || tasks[t].status.Done?
  }

  ghost predicate Enabled(s: Executor, step: Step) {
    match step
    case Launch => true
    case LaunchAfter(dep) => s.scan.None? && !dep.NoDependency? && (dep.OnTask? ==> dep.task < |s.tasks|)
    case ScanBegin => s.scan.None?
    case ScanItem => s.scan.Some? && s.scan.value < |s.scheduled|
    case ScanEnd => s.scan.Some? && s.scan.value == |s.scheduled|
    case Start(t) => t < |s.tasks| && s.tasks[t].status.Queued?
    case Fulfil(t) => t < |s.tasks| && s.tasks[t].status.Running?
    case Retire(t) => t < |s.tasks| && s.tasks[t].status.Fulfilled?
    case Signal(e) => e !in s.signalled
    case WaitCall => s.waiter.Away? || s.waiter.Returned?
    case WaitDrained => Drained(s.tasks) && (s.waiter.FirstDrain? || s.waiter.Polling? || s.waiter.LastDrain?)
    case WaitCheck => s.waiter.Checking? && s.scan.None?
  }

  /** The scanner looks at one entry; it dereferences it, so there must be one. */
  function ScanOne(s: Executor, k: nat): Executor
    requires k < |s.scheduled| && s.scheduled[k].Some? && s.scheduled[k].value < |s.tasks|
  {
    var t := s.scheduled[k].value;
    if Met(s.tasks, s.signalled, s.tasks[t].dep)
    then s.(tasks := SetStatus(s.tasks, t, Queued), scheduled := s.scheduled[k := None], scan := Some(k + 1))
    else s.(scan := Some(k + 1))
  }

  function AfterDrain(w: Waiter): Waiter {
    match w
    case FirstDrain(called) => Checking(called)
    case Polling(called) => Checking(called)
    case LastDrain(called, seen) => Returned(called, seen)
    case _ => w
  }

  ghost predicate Next(s: Executor, step: Step, s': Executor) {
    && Enabled(s, step)
    && match step
       case Launch => s' == s.(tasks := s.tasks + [Task(NoDependency, Queued)])
       case LaunchAfter(dep) =>
         s' == s.(tasks := s.tasks + [Task(dep, Waiting)], scheduled := s.scheduled + [Some(|s.tasks|)])
       case ScanBegin => s' == s.(scan := Some(0))
       case ScanItem =>
         var k := s.scan.value;
         s.scheduled[k].Some? && s.scheduled[k].value < |s.tasks| && s' == ScanOne(s, k)
       case ScanEnd => s' == s.(scheduled := Compact<nat>(s.scheduled), scan := None)
       case Start(t) => s' == s.(tasks := SetStatus(s.tasks, t, Running), log := s.log + [Started(t)])
       case Fulfil(t) => s' == s.(tasks := SetStatus(s.tasks, t, Fulfilled), log := s.log + [Completed(t)])
       case Retire(t) => s' == s.(tasks := SetStatus(s.tasks, t, Done))
       case Signal(e) => s' == s.(signalled := s.signalled + {e}, log := s.log + [Signalled(e)])
       case WaitCall => s' == s.(waiter := FirstDrain(|s.tasks|))
       case WaitDrained => s' == s.(waiter := AfterDrain(s.waiter))
       case WaitCheck =>
         s' == s.(waiter := if s.scheduled == [] then LastDrain(s.waiter.called, |s.tasks|)
             else Polling(s.waiter.called))
  }

  ghost predicate IsRun(run: seq<Executor>, steps: seq<Step>) {
    && |run| == |steps| + 1
    && forall i :: 0 <= i < |steps| ==> Next(run[i], steps[i], run[i + 1])
  }

  // ---------------------------------------------------------------- the invariant

  predicate HasStarted(task: Task) {
    task.status.Running? || HasResult(task)
  }

  /** The list: exactly the waiting tasks, each once, with no empty entry ahead of the scanner. */
  ghost predicate ListOk(tasks: seq<Task>, scheduled: seq<Option<nat>>, scan: Option<nat>) {
    && (scan.Some? ==> scan.value <= |scheduled|)
    && (forall i :: 0 <= i < |scheduled| && scheduled[i].None? ==> scan.Some? && i < scan.value)
    && (forall i :: 0 <= i < |scheduled| && scheduled[i].Some? ==>
          scheduled[i].value < |tasks| && tasks[scheduled[i].value].status.Waiting?)
    && (forall i, j :: 0 <= i < j < |scheduled| && scheduled[i].Some? ==> scheduled[i] != scheduled[j])
    && (forall t :: 0 <= t < |tasks| && tasks[t].status.Waiting? ==> Some(t) in scheduled)
  }

  /** A task depends on an earlier one, and leaves the list only with its dependency met. */
  ghost predicate DepsOk(tasks: seq<Task>, signalled: set<nat>) {
    forall t :: 0 <= t < |tasks| ==>
      && (tasks[t].dep.OnTask? ==> tasks[t].dep.task < t)
      && (!tasks[t].status.Waiting? ==> Met(tasks, signalled, tasks[t].dep))
  }

  /** The log says what the statuses say. */
  ghost predicate LogOk(tasks: seq<Task>, signalled: set<nat>, log: seq<Event>) {
    && (forall t: nat :: Started(t) in log <==> t < |tasks| && HasStarted(tasks[t]))
    && (forall t: nat :: Completed(t) in log <==> t < |tasks| && HasResult(tasks[t]))
    && (forall e: nat :: Signalled(e) in log <==> e in signalled)
  }

  ghost predicate Once(log: seq<Event>) {
    forall i, j :: 0 <= i < j < |log| ==> log[i] != log[j]
  }

  /** Everything the dependency asks for is in the log before position `i`. */
  ghost predicate MetBefore(log: seq<Event>, i: nat, dep: Dependency)
    requires i <= |log|
  {
    match dep
    case NoDependency => true
    case OnTask(d) => Completed(d) in log[..i]
    case OnExternal(e) => Signalled(e) in log[..i]
  }

  ghost predicate InOrder(tasks: seq<Task>, log: seq<Event>) {
    forall i :: 0 <= i < |log| && log[i].Started? ==> log[i].task < |tasks| && MetBefore(log, i, tasks[log[i].task].dep)
  }

  ghost predicate WaiterOk(tasks: seq<Task>, w: Waiter) {
    match w
    case Away => true
    case FirstDrain(called) => called <= |tasks|
    case Checking(called) => called <= |tasks|
    case Polling(called) => called <= |tasks|
    case LastDrain(called, seen) => called <= seen <= |tasks| && forall t :: 0 <= t < seen ==> !tasks[t].status.Waiting?
    case Returned(called, seen) => called <= seen <= |tasks| && forall t :: 0 <= t < seen ==> tasks[t].status.Done?
  }

  ghost predicate Inv(s: Executor) {
    && ListOk(s.tasks, s.scheduled, s.scan)
    && DepsOk(s.tasks, s.signalled)
    && LogOk(s.tasks, s.signalled, s.log)
    && Once(s.log)
    && InOrder(s.tasks, s.log)
    && WaiterOk(s.tasks, s.waiter)
  }

  // ---------------------------------------------------------------- each part is kept

  lemma {:induction false} StepKeepsList(s: Executor, step: Step, s': Executor)
    requires ListOk(s.tasks, s.scheduled, s.scan) && Next(s, step, s')
    ensures ListOk(s'.tasks, s'.scheduled, s'.scan)
  {
    match step
    case LaunchAfter(dep) => LaunchKeepsList(s.tasks, dep, s.scheduled);
    case ScanItem => ScanKeepsList(s, s.scan.value);
    case ScanEnd => CompactKeepsList(s.tasks, s.scheduled, s.scan);
    case Start(t) => StatusKeepsList(s.tasks, t, Running, s.scheduled, s.scan);
    case Fulfil(t) => StatusKeepsList(s.tasks, t, Fulfilled, s.scheduled, s.scan);
    case Retire(t) => StatusKeepsList(s.tasks, t, Done, s.scheduled, s.scan);
    case _ =>
  }

  lemma {:induction false} LaunchKeepsList(tasks: seq<Task>, dep: Dependency, scheduled: seq<Option<nat>>)
    requires ListOk(tasks, scheduled, None)
    ensures ListOk(tasks + [Task(dep, Waiting)], scheduled + [Some(|tasks|)], None)
  {
    var tasks', scheduled' := tasks + [Task(dep, Waiting)], scheduled + [Some(|tasks|)];
    forall t | 0 <= t < |tasks'| && tasks'[t].status.Waiting? ensures Some(t) in scheduled' {
      if t < |tasks| { assert Some(t) in scheduled; } else { assert scheduled'[|scheduled|] == Some(t); }
    }
  }

  lemma {:induction false} StatusKeepsList(
      tasks: seq<Task>, t: nat, status: Status, scheduled: seq<Option<nat>>, scan: Option<nat>)
    requires ListOk(tasks, scheduled, scan) && t < |tasks| && !tasks[t].status.Waiting? && !status.Waiting?
    ensures ListOk(SetStatus(tasks, t, status), scheduled, scan)
  {
  }

  lemma {:induction false} CompactKeepsList(tasks: seq<Task>, scheduled: seq<Option<nat>>, scan: Option<nat>)
    requires ListOk(tasks, scheduled, scan)
    ensures ListOk(tasks, Compact<nat>(scheduled), None)
  {
    CompactMembers<nat>(scheduled);
    var list := Compact<nat>(scheduled);
    forall i | 0 <= i < |list|
      ensures list[i].Some? && list[i].value < |tasks| && tasks[list[i].value].status.Waiting?
    {
      assert list[i] in scheduled;
    }
  }

  lemma {:induction false} ScanKeepsList(s: Executor, k: nat)
    requires ListOk(s.tasks, s.scheduled, s.scan) && s.scan == Some(k) && k < |s.scheduled|
    requires s.scheduled[k].Some? && s.scheduled[k].value < |s.tasks|
    ensures var s' := ScanOne(s, k); ListOk(s'.tasks, s'.scheduled, s'.scan)
  {
    var s' := ScanOne(s, k);
    forall t | 0 <= t < |s'.tasks| && s'.tasks[t].status.Waiting? ensures Some(t) in s'.scheduled {
      assert Some(t) in s.scheduled;
      var i :| 0 <= i < |s.scheduled| && s.scheduled[i] == Some(t);
      assert s'.scheduled[i] == Some(t);
    }
  }

  lemma {:induction false} StepKeepsDeps(s: Executor, step: Step, s': Executor)
    requires DepsOk(s.tasks, s.signalled) && ListOk(s.tasks, s.scheduled, s.scan) && Next(s, step, s')
    ensures DepsOk(s'.tasks, s'.signalled)
  {
    forall t | 0 <= t < |s'.tasks|
      ensures s'.tasks[t].dep.OnTask? ==> s'.tasks[t].dep.task < t
      ensures !s'.tasks[t].status.Waiting? ==> Met(s'.tasks, s'.signalled, s'.tasks[t].dep)
    {
      if t < |s.tasks| && s'.tasks[t].dep.OnTask? {
        assert s'.tasks[t].dep == s.tasks[t].dep;
        var d := s.tasks[t].dep.task;
        assert HasResult(s.tasks[d]) ==> HasResult(s'.tasks[d]);
      }
    }
  }

  lemma {:induction false} StepKeepsLog(s: Executor, step: Step, s': Executor)
    requires LogOk(s.tasks, s.signalled, s.log) && Once(s.log) && Next(s, step, s')
    requires ListOk(s.tasks, s.scheduled, s.scan)
    ensures LogOk(s'.tasks, s'.signalled, s'.log) && Once(s'.log)
  {
    match step
    case Start(t) =>
      assert Started(t) !in s.log;
    case Fulfil(t) =>
      assert Completed(t) !in s.log;
    case Signal(e) =>
      assert Signalled(e) !in s.log;
    case Retire(t) =>
      SilentKeepsLog(s.tasks, s'.tasks, s.signalled, s.log);
    case ScanItem =>
      SilentKeepsLog(s.tasks, s'.tasks, s.signalled, s.log);
    case Launch =>
      SilentKeepsLog(s.tasks, s'.tasks, s.signalled, s.log);
    case LaunchAfter(_) =>
      SilentKeepsLog(s.tasks, s'.tasks, s.signalled, s.log);
    case _ =>
  }

  /** A step that logs nothing neither starts nor completes a task. */
  lemma {:induction false} SilentKeepsLog(tasks: seq<Task>, tasks': seq<Task>, signalled: set<nat>, log: seq<Event>)
    requires LogOk(tasks, signalled, log) && |tasks| <= |tasks'|
    requires forall t :: 0 <= t < |tasks'| ==>
               && HasStarted(tasks'[t]) == (t < |tasks| && HasStarted(tasks[t]))
               && HasResult(tasks'[t]) == (t < |tasks| && HasResult(tasks[t]))
    ensures LogOk(tasks', signalled, log)
  {
  }

  lemma {:induction false} StepKeepsOrder(s: Executor, step: Step, s': Executor)
    requires LogOk(s.tasks, s.signalled, s.log) && DepsOk(s.tasks, s.signalled) && InOrder(s.tasks, s.log)
    requires Next(s, step, s')
    ensures InOrder(s'.tasks, s'.log)
  {
    forall i | 0 <= i < |s'.log| && s'.log[i].Started?
      ensures s'.log[i].task < |s'.tasks| && MetBefore(s'.log, i, s'.tasks[s'.log[i].task].dep)
    {
      var t := s'.log[i].task;
      if i < |s.log| {
        assert s.log[i] == s'.log[i];
        assert s'.log[..i] == s.log[..i];
        assert s'.tasks[t].dep == s.tasks[t].dep;
      } else {
        assert s'.log[..i] == s.log;
        assert Met(s.tasks, s.signalled, s.tasks[t].dep);
      }
    }
  }

  lemma {:induction false} StepKeepsInv(s: Executor, step: Step, s': Executor)
    requires Inv(s) && Next(s, step, s')
    ensures Inv(s')
  {
    StepKeepsList(s, step, s');
    StepKeepsDeps(s, step, s');
    StepKeepsLog(s, step, s');
    StepKeepsOrder(s, step, s');
  }

  lemma {:induction false} InitialInv()
    ensures Inv(Initial)
  {
    assert LogOk([], {}, []);
  }

  lemma {:induction false} RunKeepsInv(run: seq<Executor>, steps: seq<Step>, n: nat)
    requires IsRun(run, steps) && run[0] == Initial && n < |run|
    ensures Inv(run[n])
  {
    if n == 0 {
      InitialInv();
    } else {
      RunKeepsInv(run, steps, n - 1);
      StepKeepsInv(run[n - 1], steps[n - 1], run[n]);
    }
  }

  // ---------------------------------------------------------------- what every run guarantees

  /** In every run no task starts or completes twice, and a task starts only after what it depends on has completed. */
  lemma {:induction false} TasksRunOnceInOrder(run: seq<Executor>, steps: seq<Step>, n: nat, i: nat, t: nat)
    requires IsRun(run, steps) && run[0] == Initial && n < |run|
    requires i < |run[n].log| && run[n].log[i] == Started(t)
    ensures t < |run[n].tasks| && MetBefore(run[n].log, i, run[n].tasks[t].dep)
    ensures forall j :: 0 <= j < |run[n].log| && j != i ==> run[n].log[j] != Started(t)
  {
    RunKeepsInv(run, steps, n);
  }

  /** A task keeps, in every later state, the dependency it was launched with. */
  lemma {:induction false} KeepsDependency(run: seq<Executor>, steps: seq<Step>, i: nat, n: nat)
    requires IsRun(run, steps) && i < n < |run|
    ensures |run[i].tasks| <= |run[n].tasks|
    ensures steps[i].LaunchAfter? ==>
              |run[i].tasks| < |run[n].tasks| && run[n].tasks[|run[i].tasks|].dep == steps[i].dep
    ensures steps[i] == Launch ==>
              |run[i].tasks| < |run[n].tasks| && run[n].tasks[|run[i].tasks|].dep == NoDependency
  {
    assert Next(run[n - 1], steps[n - 1], run[n]);
    if i < n - 1 { KeepsDependency(run, steps, i, n - 1); }
  }

  /** So a task launched on a future starts only after that very future was fulfilled, whatever else happens. */
  lemma {:induction false} StartsAfterItsFuture(run: seq<Executor>, steps: seq<Step>, i: nat, n: nat, j: nat)
    requires IsRun(run, steps) && run[0] == Initial && i < n < |run| && steps[i].LaunchAfter?
    requires j < |run[n].log| && run[n].log[j] == Started(|run[i].tasks|)
    ensures match steps[i].dep
            case NoDependency => false
            case OnTask(d) => Completed(d) in run[n].log[..j]
            case OnExternal(e) => Signalled(e) in run[n].log[..j]
  {
    TasksRunOnceInOrder(run, steps, n, j, |run[i].tasks|);
    KeepsDependency(run, steps, i, n);
    assert Enabled(run[i], steps[i]) by { assert Next(run[i], steps[i], run[i + 1]); }
  }

  /** The scanner never dereferences an entry it has emptied, and every task it finds is known. */
  lemma {:induction false} ScanFindsTasks(run: seq<Executor>, steps: seq<Step>, n: nat)
    requires IsRun(run, steps) && run[0] == Initial && n < |run| && Enabled(run[n], ScanItem)
    ensures var s := run[n]; s.scheduled[s.scan.value].Some? && s.scheduled[s.scan.value].value < |s.tasks|
  {
    RunKeepsInv(run, steps, n);
  }

  /** The least waiting task. */
  lemma {:induction false} LeastWaiting(tasks: seq<Task>, n: nat) returns (t: nat)
    requires n <= |tasks| && exists k :: 0 <= k < n && tasks[k].status.Waiting?
    ensures t < n && tasks[t].status.Waiting? && forall k :: 0 <= k < t ==> !tasks[k].status.Waiting?
  {
    t := 0;
    while !tasks[t].status.Waiting?
      invariant t < n && forall k :: 0 <= k < t ==> !tasks[k].status.Waiting?
      decreases n - t
    {
      t := t + 1;
    }
  }

  /** A scheduled task can be launched, or waits directly for something outside the executor. */
  ghost predicate CanMove(s: Executor, k: nat) {
    && k < |s.scheduled| && s.scheduled[k].Some? && s.scheduled[k].value < |s.tasks|
    && var dep := s.tasks[s.scheduled[k].value].dep;
       Met(s.tasks, s.signalled, dep) || (dep.OnExternal? && dep.future !in s.signalled)
  }

  lemma {:induction false} SomeTaskCanMove(s: Executor) returns (k: nat)
    requires Inv(s) && Drained(s.tasks) && exists t :: 0 <= t < |s.tasks| && s.tasks[t].status.Waiting?
    ensures CanMove(s, k)
  {
    var t := LeastWaiting(s.tasks, |s.tasks|);
    assert Some(t) in s.scheduled;
    k :| 0 <= k < |s.scheduled| && s.scheduled[k] == Some(t);
    var dep := s.tasks[t].dep;
    if dep.OnTask? {
      assert !s.tasks[dep.task].status.Waiting?;
    }
  }

  /**
    No deadlock: when the pool is drained but tasks are scheduled, one of them can move, whatever chain the
    dependencies form.
   */
  lemma {:induction false} NoDeadlock(run: seq<Executor>, steps: seq<Step>, n: nat)
    requires IsRun(run, steps) && run[0] == Initial && n < |run|
    requires run[n].scan == None && run[n].scheduled != [] && Drained(run[n].tasks)
    ensures exists k :: CanMove(run[n], k)
  {
    RunKeepsInv(run, steps, n);
    assert run[n].tasks[run[n].scheduled[0].value].status.Waiting?;
    var k := SomeTaskCanMove(run[n]);
  }

  function Called(w: Waiter): Option<nat> {
    if w.Away? then None else Some(w.called)
  }

  lemma {:induction false} CallRemembered(run: seq<Executor>, steps: seq<Step>, i: nat, n: nat)
    requires IsRun(run, steps) && i < n < |run| && steps[i] == WaitCall
    requires forall j :: i < j < n ==> steps[j] != WaitCall
    ensures Called(run[n].waiter) == Some(|run[i].tasks|)
  {
    assert Next(run[n - 1], steps[n - 1], run[n]);
    if i < n - 1 {
      CallRemembered(run, steps, i, n - 1);
    }
  }

  /**
    When a call of WaitForTasks has returned, every task launched before that call has finished, including
    those that were still scheduled, and whatever was launched meanwhile.
   */
  lemma {:induction false} WaitForTasksWaits(run: seq<Executor>, steps: seq<Step>, i: nat, n: nat, t: nat)
    requires IsRun(run, steps) && run[0] == Initial && i < n < |run|
    requires steps[i] == WaitCall && (forall j :: i < j < n ==> steps[j] != WaitCall) && run[n].waiter.Returned?
    requires t < |run[i].tasks|
    ensures t < |run[n].tasks| && run[n].tasks[t].status.Done?
  {
    CallRemembered(run, steps, i, n);
    RunKeepsInv(run, steps, n);
  }

  // ---------------------------------------------------------------- a scan as one pass over the list

  /** A scan that began with `list` has polled as many entries as `ready` has answers, and queued the ready ones. */
  ghost predicate ScannedTo(list: seq<Option<nat>>, s: Executor, ready: seq<bool>) {
    && |ready| <= |list| && s.scan == Some(|ready|)
    && s.scheduled == Emptied(list[..|ready|], ready) + list[|ready|..]
    && forall k :: 0 <= k < |ready| && ready[k] ==>
        list[k].Some? && list[k].value < |s.tasks| && !s.tasks[list[k].value].status.Waiting?
  }

  lemma {:induction false} ScanAdvances(
      list: seq<Option<nat>>, s: Executor, step: Step, s': Executor, ready: seq<bool>)
    returns (ready': seq<bool>)
    requires ScannedTo(list, s, ready) && Next(s, step, s') && step != ScanEnd
    ensures ScannedTo(list, s', ready')
    ensures ready' == if step == ScanItem && |ready| < |list| then ready + [MetEntry(s, list[|ready|])] else ready
  {
    ready' := ready;
    forall k | 0 <= k < |ready| && ready[k]
      ensures list[k].value < |s'.tasks| && !s'.tasks[list[k].value].status.Waiting?
    {
    }
    if step == ScanItem {
      var answer := MetEntry(s, s.scheduled[|ready|]);
      ready' := ready + [answer];
    }
  }

  ghost predicate MetEntry(s: Executor, entry: Option<nat>) {
    entry.Some? && entry.value < |s.tasks| && Met(s.tasks, s.signalled, s.tasks[entry.value].dep)
  }

  /** Between `i` and `n` the scanner polled entry `k`, and the answer was whether its dependency was met just then. */
  ghost predicate Polled(
      run: seq<Executor>, steps: seq<Step>, i: nat, n: nat, list: seq<Option<nat>>, k: nat, answer: bool)
    requires |run| == |steps| + 1 && n < |run| && k < |list|
  {
    exists j :: i < j < n && steps[j] == ScanItem && run[j].scan == Some(k) && answer == MetEntry(run[j], list[k])
  }

  lemma {:induction false} ScanPolls(run: seq<Executor>, steps: seq<Step>, i: nat, n: nat) returns (ready: seq<bool>)
    requires IsRun(run, steps) && i < n < |run| && steps[i] == ScanBegin
    requires forall j :: i < j < n ==> steps[j] != ScanEnd
    ensures ScannedTo(run[i].scheduled, run[n], ready)
    ensures forall k :: 0 <= k < |ready| ==> Polled(run, steps, i, n, run[i].scheduled, k, ready[k])
  {
    if i == n - 1 {
      ready := [];
      ScanStarts(run[i], run[n]);
    } else {
      ready := ScanPolls(run, steps, i, n - 1);
      ready := ScanPollsOn(run, steps, i, n, ready);
    }
  }

  lemma {:induction false} ScanStarts(s: Executor, s': Executor)
    requires Next(s, ScanBegin, s')
    ensures ScannedTo(s.scheduled, s', [])
  {
    assert Emptied(s.scheduled[..0], []) == [];
  }

  lemma {:induction false} ScanPollsOn(
      run: seq<Executor>, steps: seq<Step>, i: nat, n: nat, before: seq<bool>)
    returns (ready: seq<bool>)
    requires IsRun(run, steps) && i < n - 1 < |steps| && steps[n - 1] != ScanEnd
    requires ScannedTo(run[i].scheduled, run[n - 1], before)
    requires forall k :: 0 <= k < |before| ==> Polled(run, steps, i, n - 1, run[i].scheduled, k, before[k])
    ensures ScannedTo(run[i].scheduled, run[n], ready)
    ensures forall k :: 0 <= k < |ready| ==> Polled(run, steps, i, n, run[i].scheduled, k, ready[k])
  {
    ready := ScanAdvances(run[i].scheduled, run[n - 1], steps[n - 1], run[n], before);
    forall k | 0 <= k < |ready| ensures Polled(run, steps, i, n, run[i].scheduled, k, ready[k]) {
      if k < |before| {
        PolledStays(run, steps, i, n, run[i].scheduled, k, ready[k]);
      } else {
        assert steps[n - 1] == ScanItem && run[n - 1].scan == Some(k);
      }
    }
  }

  lemma {:induction false} PolledStays(
      run: seq<Executor>, steps: seq<Step>, i: nat, n: nat, list: seq<Option<nat>>, k: nat, answer: bool)
    requires |run| == |steps| + 1 && 0 < n < |run| && k < |list| && Polled(run, steps, i, n - 1, list, k, answer)
    ensures Polled(run, steps, i, n, list, k, answer)
  {
    var j :| i < j < n - 1 && steps[j] == ScanItem && run[j].scan == Some(k) && answer == MetEntry(run[j], list[k]);
  }

  /**
    However launches, workers and outside futures interfere, a whole scan is one pass: each entry is polled,
    answered by whether its dependency is met at that moment, and launched or kept accordingly, in order.
   */
  lemma {:induction false} ScanIsPass(run: seq<Executor>, steps: seq<Step>, i: nat, n: nat) returns (ready: seq<bool>)
    requires IsRun(run, steps) && i < n < |steps| && steps[i] == ScanBegin && steps[n] == ScanEnd
    requires forall j :: i < j < n ==> steps[j] != ScanEnd
    ensures |ready| == |run[i].scheduled| && run[n + 1].scheduled == Compact<nat>(Emptied(run[i].scheduled, ready))
    ensures ScannedTo(run[i].scheduled, run[n], ready)
    ensures forall k :: 0 <= k < |ready| ==> Polled(run, steps, i, n, run[i].scheduled, k, ready[k])
  {
    ready := ScanPolls(run, steps, i, n);
    assert Next(run[n], steps[n], run[n + 1]);
    var list := run[i].scheduled;
    assert |run[n].scheduled| == |list|;
    assert list[..|list|] == list;
    assert Emptied(list, ready) + [] == Emptied(list, ready);
  }

  /** What has been met stays met. */
  lemma {:induction false} MetStays(s: Executor, step: Step, s': Executor, entry: Option<nat>)
    requires ListOk(s.tasks, s.scheduled, s.scan) && Next(s, step, s') && MetEntry(s, entry)
    ensures MetEntry(s', entry)
  {
    assert s'.tasks[entry.value].dep == s.tasks[entry.value].dep;
  }

  lemma {:induction false} MetLater(run: seq<Executor>, steps: seq<Step>, i: nat, j: nat, entry: Option<nat>)
    requires IsRun(run, steps) && run[0] == Initial && i <= j < |run| && MetEntry(run[i], entry)
    ensures MetEntry(run[j], entry)
  {
    if i < j {
      MetLater(run, steps, i, j - 1, entry);
      MetStep(run, steps, j - 1, entry);
    }
  }

  lemma {:induction false} MetStep(run: seq<Executor>, steps: seq<Step>, j: nat, entry: Option<nat>)
    requires IsRun(run, steps) && run[0] == Initial && j < |steps| && MetEntry(run[j], entry)
    ensures MetEntry(run[j + 1], entry)
  {
    RunKeepsInv(run, steps, j);
    MetStays(run[j], steps[j], run[j + 1], entry);
  }

  /** When a scan ends, every scheduled task whose dependency was met when it began has been launched. */
  lemma {:induction false} ScanLaunchesReady(run: seq<Executor>, steps: seq<Step>, i: nat, n: nat, t: nat)
    requires IsRun(run, steps) && run[0] == Initial
    requires i < n < |steps| && steps[i] == ScanBegin && steps[n] == ScanEnd
    requires forall j :: i < j < n ==> steps[j] != ScanEnd
    requires Some(t) in run[i].scheduled && MetEntry(run[i], Some(t))
    ensures t < |run[n + 1].tasks| && !run[n + 1].tasks[t].status.Waiting?
  {
    var ready := ScanIsPass(run, steps, i, n);
    var list := run[i].scheduled;
    var k :| 0 <= k < |list| && list[k] == Some(t);
    assert Polled(run, steps, i, n, list, k, ready[k]);
    var j :| i < j < n && steps[j] == ScanItem && run[j].scan == Some(k) && ready[k] == MetEntry(run[j], list[k]);
    MetLater(run, steps, i, j, Some(t));
    assert Next(run[n], steps[n], run[n + 1]);
  }

  // ---------------------------------------------------------------- every task can finish

  ghost predicate Reaches(s: Executor, s': Executor) {
    exists run, steps :: IsRun(run, steps) && run[0] == s && run[|run| - 1] == s'
  }

  lemma {:induction false} ReachesSelf(s: Executor)
    ensures Reaches(s, s)
  {
    assert IsRun([s], []);
  }

  lemma {:induction false} ReachesBy(s: Executor, step: Step, s1: Executor, s2: Executor)
    requires Next(s, step, s1) && Reaches(s1, s2)
    ensures Reaches(s, s2)
  {
    var run, steps :| IsRun(run, steps) && run[0] == s1 && run[|run| - 1] == s2;
    var run', steps' := [s] + run, [step] + steps;
    forall i | 0 <= i < |steps'| ensures Next(run'[i], steps'[i], run'[i + 1]) {
      if i > 0 { assert Next(run[i - 1], steps[i - 1], run[i]); }
    }
    assert IsRun(run', steps');
    assert run'[|run'| - 1] == run[|run| - 1];
  }

  function Weight(status: Status): nat {
    match status
    case Waiting => 4
    case Queued => 3
    case Running => 2
    case Fulfilled => 1
    case Done => 0
  }

  /** How many status changes are still to come. */
  function Work(tasks: seq<Task>): nat {
    if tasks == [] then 0 else Weight(tasks[0].status) + Work(tasks[1..])
  }

  lemma {:induction false} WorkChanges(tasks: seq<Task>, t: nat, status: Status)
    requires t < |tasks|
    ensures Work(SetStatus(tasks, t, status)) + Weight(tasks[t].status) == Work(tasks) + Weight(status)
  {
    var tasks' := SetStatus(tasks, t, status);
    if t == 0 {
      assert tasks'[1..] == tasks[1..];
    } else {
      assert tasks'[1..] == SetStatus(tasks[1..], t - 1, status);
      WorkChanges(tasks[1..], t - 1, status);
    }
  }

  /** Every future from outside that a task still waits for has been fulfilled. */
  ghost predicate Supplied(s: Executor) {
    forall t :: 0 <= t < |s.tasks| && s.tasks[t].dep.OnExternal? ==> s.tasks[t].dep.future in s.signalled
  }

  ghost predicate AllDone(tasks: seq<Task>) {
    forall t :: 0 <= t < |tasks| ==> tasks[t].status.Done?
  }

  /** The entry at `k` is ready and the scanner has not passed it. */
  ghost predicate Aimed(s: Executor, k: nat) {
    && s.scan.Some? && s.scan.value <= k < |s.scheduled|
    && s.scheduled[k].Some? && s.scheduled[k].value < |s.tasks|
    && Met(s.tasks, s.signalled, s.tasks[s.scheduled[k].value].dep)
  }

  /** What the pool does next with a task it holds. */
  ghost function PoolStep(tasks: seq<Task>, t: nat): Step
    requires t < |tasks|
  {
    match tasks[t].status
    case Running => Fulfil(t)
    case Fulfilled => Retire(t)
    case _ => Start(t)
  }

  lemma {:induction false} PoolMoves(s: Executor, t: nat) returns (s': Executor)
    requires Inv(s) && t < |s.tasks| && !s.tasks[t].status.Waiting? && !s.tasks[t].status.Done?
    ensures Next(s, PoolStep(s.tasks, t), s') && Inv(s')
    ensures Work(s'.tasks) < Work(s.tasks) && |s'.tasks| == |s.tasks| && (Supplied(s) ==> Supplied(s'))
    ensures s'.waiter == s.waiter
  {
    var status := match s.tasks[t].status { case Running => Fulfilled case Fulfilled => Done case _ => Running };
    var log := match s.tasks[t].status { case Running => [Completed(t)] case Fulfilled => [] case _ => [Started(t)] };
    s' := s.(tasks := SetStatus(s.tasks, t, status), log := s.log + log);
    WorkChanges(s.tasks, t, status);
    StepKeepsInv(s, PoolStep(s.tasks, t), s');
  }

  lemma {:induction false} ScanMoves(s: Executor) returns (s': Executor)
    requires Inv(s) && Enabled(s, ScanItem)
    ensures Next(s, ScanItem, s') && Inv(s') && |s'.tasks| == |s.tasks| && (Supplied(s) ==> Supplied(s'))
    ensures s'.waiter == s.waiter
    ensures Work(s'.tasks) < Work(s.tasks) || (!Aimed(s, s.scan.value) && s' == s.(scan := Some(s.scan.value + 1)))
  {
    var k := s.scan.value;
    s' := ScanOne(s, k);
    WorkChanges(s.tasks, s.scheduled[k].value, Queued);
    StepKeepsInv(s, ScanItem, s');
  }

  lemma {:induction false} Finishes(s: Executor, aim: Option<nat>) returns (s': Executor)
    requires Inv(s) && Supplied(s) && (aim.Some? ==> Aimed(s, aim.value))
    ensures Reaches(s, s') && |s'.tasks| == |s.tasks| && AllDone(s'.tasks)
    ensures Inv(s') && s'.scan.None? && s'.waiter == s.waiter
    decreases Work(s.tasks), if aim.Some? then 0 else if s.scan.None? then 1 else 2,
              if s.scan.Some? then |s.scheduled| - s.scan.value else 0
  {
    if aim.Some? {
      var s1 := ScanMoves(s);
      s' := Finishes(s1, if Work(s1.tasks) < Work(s.tasks) then None else aim);
      ReachesBy(s, ScanItem, s1, s');
    } else if t :| 0 <= t < |s.tasks| && !s.tasks[t].status.Waiting? && !s.tasks[t].status.Done? {
      var s1 := PoolMoves(s, t);
      s' := Finishes(s1, None);
      ReachesBy(s, PoolStep(s.tasks, t), s1, s');
    } else if s.scan.Some? && s.scan.value < |s.scheduled| {
      var s1 := ScanMoves(s);
      s' := Finishes(s1, None);
      ReachesBy(s, ScanItem, s1, s');
    } else if s.scan.Some? {
      var s1 := s.(scheduled := Compact<nat>(s.scheduled), scan := None);
      StepKeepsInv(s, ScanEnd, s1);
      s' := Finishes(s1, None);
      ReachesBy(s, ScanEnd, s1, s');
    } else if AllDone(s.tasks) {
      s' := s;
      ReachesSelf(s);
    } else {
      var k := SomeTaskCanMove(s);
      var s1 := s.(scan := Some(0));
      StepKeepsInv(s, ScanBegin, s1);
      s' := Finishes(s1, Some(k));
      ReachesBy(s, ScanBegin, s1, s');
    }
  }

  /**
    Whatever has happened so far, once the outside futures that tasks wait for are fulfilled, every task
    launched can still finish, without a further launch.
   */
  lemma {:induction false} AllTasksCanFinish(run: seq<Executor>, steps: seq<Step>, n: nat)
    requires IsRun(run, steps) && run[0] == Initial && n < |run| && Supplied(run[n])
    ensures exists s' :: Reaches(run[n], s') && |s'.tasks| == |run[n].tasks| && AllDone(s'.tasks)
  {
    RunKeepsInv(run, steps, n);
    var s' := Finishes(run[n], None);
  }

  // ---------------------------------------------------------------- every wait can end

  ghost predicate InWait(w: Waiter) {
    !w.Away? && !w.Returned?
  }

  lemma {:induction false} ReachesTrans(a: Executor, b: Executor, c: Executor)
    requires Reaches(a, b) && Reaches(b, c)
    ensures Reaches(a, c)
  {
    var run, steps :| IsRun(run, steps) && run[0] == a && run[|run| - 1] == b;
    ReachesAlong(run, steps, c);
  }

  lemma {:induction false} ReachesAlong(run: seq<Executor>, steps: seq<Step>, c: Executor)
    requires IsRun(run, steps) && Reaches(run[|run| - 1], c)
    ensures Reaches(run[0], c)
    decreases |steps|
  {
    if steps != [] {
      var run', steps' := run[1..], steps[1..];
      forall i | 0 <= i < |steps'| ensures Next(run'[i], steps'[i], run'[i + 1]) {
        assert Next(run[i + 1], steps[i + 1], run[i + 2]);
      }
      ReachesAlong(run', steps', c);
      ReachesBy(run[0], steps[0], run[1], c);
    }
  }

  lemma {:induction false} ScheduledIsWaiting(tasks: seq<Task>, scheduled: seq<Option<nat>>)
    requires ListOk(tasks, scheduled, None)
    ensures AllDone(tasks) ==> scheduled == []
  {
    if scheduled != [] {
      assert scheduled[0].Some? && tasks[scheduled[0].value].status.Waiting?;
    }
  }

  /** With all tasks finished and no scan under way, a wait goes through its remaining drains and its check. */
  lemma {:induction false} WaitReturns(s: Executor) returns (s': Executor)
    requires Inv(s) && AllDone(s.tasks) && s.scan.None? && InWait(s.waiter)
    ensures Reaches(s, s') && s'.tasks == s.tasks && s'.waiter.Returned? && s'.waiter.called == s.waiter.called
    decreases match s.waiter { case LastDrain(_, _) => 0 case Checking(_) => 1 case _ => 2 }
  {
    if s.waiter.Checking? {
      ScheduledIsWaiting(s.tasks, s.scheduled);
      var s1 := s.(waiter := LastDrain(s.waiter.called, |s.tasks|));
      StepKeepsInv(s, WaitCheck, s1);
      s' := WaitReturns(s1);
      ReachesBy(s, WaitCheck, s1, s');
    } else {
      var s1 := s.(waiter := AfterDrain(s.waiter));
      StepKeepsInv(s, WaitDrained, s1);
      if s1.waiter.Returned? {
        s' := s1;
        ReachesSelf(s1);
      } else {
        s' := WaitReturns(s1);
      }
      ReachesBy(s, WaitDrained, s1, s');
    }
  }

  /** WaitForTasks is never stuck: wherever a call is, once the outside futures are fulfilled, that call can return. */
  lemma {:induction false} WaitForTasksCanReturn(run: seq<Executor>, steps: seq<Step>, n: nat)
    returns (s': Executor)
    requires IsRun(run, steps) && run[0] == Initial && n < |run| && Supplied(run[n]) && InWait(run[n].waiter)
    ensures Reaches(run[n], s') && |s'.tasks| == |run[n].tasks|
    ensures s'.waiter.Returned? && s'.waiter.called == run[n].waiter.called
  {
    RunKeepsInv(run, steps, n);
    var done := Finishes(run[n], None);
    s' := WaitReturns(done);
    ReachesTrans(run[n], done, s');
  }

  // ---------------------------------------------------------------- only so much work is left

  ghost predicate NoLaunch(steps: seq<Step>, i: nat, n: nat)
    requires n <= |steps|
  {
    forall j :: i <= j < n ==> !steps[j].Launch? && !steps[j].LaunchAfter?
  }

  /** How many of the steps from `i` to `n` change the status of a task. */
  ghost function Moves(run: seq<Executor>, i: nat, n: nat): nat
    requires i <= n < |run|
  {
    if i == n then 0 else Moves(run, i, n - 1) + if run[n].tasks == run[n - 1].tasks then 0 else 1
  }

  /** A step either launches, or leaves all statuses alone, or moves one task on by one. */
  lemma {:induction false} StepMovesOne(s: Executor, step: Step, s': Executor)
    requires ListOk(s.tasks, s.scheduled, s.scan) && Next(s, step, s') && !step.Launch? && !step.LaunchAfter?
    ensures s'.tasks == s.tasks || Work(s'.tasks) + 1 == Work(s.tasks)
    ensures |s'.tasks| == |s.tasks|
  {
    match step
    case Start(t) => WorkChanges(s.tasks, t, Running);
    case Fulfil(t) => WorkChanges(s.tasks, t, Fulfilled);
    case Retire(t) => WorkChanges(s.tasks, t, Done);
    case ScanItem => WorkChanges(s.tasks, s.scheduled[s.scan.value].value, Queued);
    case _ =>
  }

  /** In any continuation without launches every change of a task's status uses up one unit of the work left. */
  lemma {:induction false} WorkIsUsedUp(run: seq<Executor>, steps: seq<Step>, i: nat, n: nat)
    requires IsRun(run, steps) && run[0] == Initial && i <= n < |run| && NoLaunch(steps, i, n)
    ensures Moves(run, i, n) + Work(run[n].tasks) == Work(run[i].tasks) && |run[n].tasks| == |run[i].tasks|
  {
    if i < n {
      WorkIsUsedUp(run, steps, i, n - 1);
      RunKeepsInv(run, steps, n - 1);
      StepMovesOne(run[n - 1], steps[n - 1], run[n]);
      SomethingMoved(run[n - 1].tasks, run[n].tasks);
    }
  }

  lemma {:induction false} SomethingMoved(tasks: seq<Task>, tasks': seq<Task>)
    requires tasks' == tasks || Work(tasks') + 1 == Work(tasks)
    ensures tasks' == tasks <==> Work(tasks') == Work(tasks)
  {
  }

  lemma {:induction false} WorkLeft(tasks: seq<Task>)
    ensures Work(tasks) <= 4 * |tasks| && (Work(tasks) == 0 <==> AllDone(tasks))
  {
    if tasks != [] {
      WorkLeft(tasks[1..]);
      assert AllDone(tasks) <==> tasks[0].status.Done? && AllDone(tasks[1..]);
    }
  }

  /** So at most four changes for each task launched remain, and none remain exactly when all have finished. */
  lemma {:induction false} MovesAreBounded(run: seq<Executor>, steps: seq<Step>, i: nat, n: nat)
    requires IsRun(run, steps) && run[0] == Initial && i <= n < |run| && NoLaunch(steps, i, n)
    ensures Moves(run, i, n) <= Work(run[i].tasks) <= 4 * |run[i].tasks|
    ensures Moves(run, i, n) == Work(run[i].tasks) <==> AllDone(run[n].tasks)
  {
    WorkIsUsedUp(run, steps, i, n);
    WorkLeft(run[i].tasks);
    WorkLeft(run[n].tasks);
  }

  /**
    Nothing gets stuck before that: once the outside futures are fulfilled, a whole scan that starts with
    a drained pool and in which no status changes finds every task finished.
   */
  lemma {:induction false} QuietScanMeansFinished(run: seq<Executor>, steps: seq<Step>, i: nat, n: nat)
    requires IsRun(run, steps) && run[0] == Initial
    requires i < n < |steps| && steps[i] == ScanBegin && steps[n] == ScanEnd
    requires (forall j :: i < j < n ==> steps[j] != ScanEnd) && NoLaunch(steps, i, n + 1)
    requires Drained(run[i].tasks) && Supplied(run[i])
    ensures Moves(run, i, n + 1) == 0 ==> AllDone(run[n + 1].tasks)
  {
    UnmovedAreEqual(run, i, n + 1);
    if !AllDone(run[i].tasks) {
      ScanMakesProgress(run, steps, i, n);
    }
  }

  /** A whole scan over a drained pool with unfinished tasks launches one of them. */
  lemma {:induction false} ScanMakesProgress(run: seq<Executor>, steps: seq<Step>, i: nat, n: nat)
    requires IsRun(run, steps) && run[0] == Initial
    requires i < n < |steps| && steps[i] == ScanBegin && steps[n] == ScanEnd
    requires forall j :: i < j < n ==> steps[j] != ScanEnd
    requires Drained(run[i].tasks) && Supplied(run[i]) && !AllDone(run[i].tasks)
    ensures run[n + 1].tasks != run[i].tasks
  {
    var t := SuppliedTaskIsMet(run, steps, i);
    ScanLaunchesReady(run, steps, i, n, t);
  }

  lemma {:induction false} SuppliedTaskIsMet(run: seq<Executor>, steps: seq<Step>, i: nat) returns (t: nat)
    requires IsRun(run, steps) && run[0] == Initial && i < |run|
    requires Drained(run[i].tasks) && Supplied(run[i]) && !AllDone(run[i].tasks)
    ensures Some(t) in run[i].scheduled && MetEntry(run[i], Some(t)) && run[i].tasks[t].status.Waiting?
  {
    RunKeepsInv(run, steps, i);
    var k := SomeTaskCanMove(run[i]);
    t := run[i].scheduled[k].value;
    assert run[i].scheduled[k] == Some(t);
  }

  lemma {:induction false} UnmovedAreEqual(run: seq<Executor>, i: nat, n: nat)
    requires i <= n < |run|
    ensures Moves(run, i, n) == 0 ==> run[n].tasks == run[i].tasks
  {
    if i < n { UnmovedAreEqual(run, i, n - 1); }
  }
}
