/**
 * The dependency-ordered startup-task scheduler (Foundations.Bootstrap/StartupTasker.cs).
 *
 * Task identities are a type parameter `Id` with equality. The `[Dependency]` attributes
 * of a task type become the function `deps`, fixed when the scheduler is built. Resolving a
 * task through the service locator and calling its `Execute` becomes the function
 * `completes`: false when either throws.
 */
module Bootstrap {
  import opened Wrappers
  import opened EnumerableExtensions

  /** How RunTasks ends: normally, or with the exception that stopped it. */
  datatype Outcome<Id> =
    | Completed
    | MissingDependency(dependent: Id, missing: Id)   // MissingDependencyException
    | CircularDependency                              // CircularDependencyException
    | TaskFailed(task: Id)                            // resolving or executing the task threw

  /** What one pass of the loop body does with the task it dequeued. */
  datatype Step<Id> =
    | Run(task: Id)
    | Fail(task: Id)
    | Requeue(task: Id)
    | Missing(task: Id, dependency: Id)

  /** The state after RunTasks, with the number of dequeues it made. */
  datatype Drained<Id> = Drained(
    outcome: Outcome<Id>,
    queue: seq<Id>,
    executed: seq<Id>,
    trace: seq<Id>,
    dequeues: nat)

  /**
   * The first unmet dependency that is not waiting in the queue either (lines 69-81):
   * the one the `foreach` throws for.
   */
  function FirstMissing<Id(==)>(dependencies: seq<Id>, executed: seq<Id>, queue: seq<Id>): Option<Id> {
    if |dependencies| == 0 then None
    else if dependencies[0] !in executed && dependencies[0] !in queue then Some(dependencies[0])
    else FirstMissing(dependencies[1..], executed, queue)
  }

  /**
   * FirstMissing finds nothing exactly when every dependency has run or is queued; otherwise
   * it names the first dependency, in declaration order, that is neither.
   */
  lemma {:induction false} FirstMissingFinds<Id>(dependencies: seq<Id>, executed: seq<Id>, queue: seq<Id>)
    ensures var r := FirstMissing(dependencies, executed, queue);
      && (r.None? <==> forall d :: d in dependencies ==> d in executed || d in queue)
      && (r.Some? ==>
            exists k :: (0 <= k < |dependencies| && dependencies[k] == r.value
                         && forall j :: 0 <= j < k ==> dependencies[j] in executed || dependencies[j] in queue))
      && (r.Some? ==> r.value in dependencies && r.value !in executed && r.value !in queue)
  {
    if |dependencies| > 0 && !(dependencies[0] !in executed && dependencies[0] !in queue) {
      var rest := dependencies[1..];
      FirstMissingFinds(rest, executed, queue);
      assert dependencies == [dependencies[0]] + rest;
      var r := FirstMissing(rest, executed, queue);
      if r.Some? {
        var k :| 0 <= k < |rest| && rest[k] == r.value
                 && forall j :: 0 <= j < k ==> rest[j] in executed || rest[j] in queue;
        assert dependencies[k + 1] == r.value;
        assert forall j :: 0 <= j < k + 1 ==> dependencies[j] in executed || dependencies[j] in queue by {
          forall j | 0 <= j < k + 1
            ensures dependencies[j] in executed || dependencies[j] in queue
          {
            if j > 0 {
              assert dependencies[j] == rest[j - 1];
            }
          }
        }
      }
    }
  }

  /**
   * One pass of the loop body on a non-empty queue (lines 53-87): dequeue the front task;
   * run it when every dependency has run, otherwise fail on a dependency that is neither
   * executed nor queued, otherwise put the task back.
   */
  function NextStep<Id(==)>(deps: Id -> seq<Id>, completes: Id -> bool, queue: seq<Id>, executed: seq<Id>): (s: Step<Id>)
    requires |queue| > 0
    ensures s.task == queue[0]
  {
    var task := queue[0];
    var dependencies := deps(task);
    if |dependencies| == 0 || IsSubsetOf(dependencies, executed) then
      if completes(task) then Run(task) else Fail(task)
    else
      match FirstMissing(dependencies, executed, queue[1..])
      case Some(d) => Missing(task, d)
      case None => Requeue(task)
  }

  /**
   * What decides the pass: the dequeued task runs, or its execution throws, exactly when
   * all its dependencies have run; MissingDependencyException is raised exactly when one
   * of them has neither run nor is still queued, and it names such a dependency.
   */
  lemma NextStepDecides<Id>(deps: Id -> seq<Id>, completes: Id -> bool, queue: seq<Id>, executed: seq<Id>)
    requires |queue| > 0
    ensures var s := NextStep(deps, completes, queue, executed);
      && ((s.Run? || s.Fail?) <==> forall d :: d in deps(queue[0]) ==> d in executed)
      && (s.Run? ==> completes(queue[0]))
      && (s.Fail? ==> !completes(queue[0]))
      && (s.Missing? <==> exists d :: d in deps(queue[0]) && d !in executed && d !in queue[1..])
      && (s.Missing? ==> s.dependency in deps(queue[0]) && s.dependency !in executed && s.dependency !in queue[1..])
  {
    FirstMissingFinds(deps(queue[0]), executed, queue[1..]);
  }

  /**
   * The `while` loop of RunTasks from the state where `iterations` passes have been
   * counted (lines 46-90).
   */
  function Drain<Id(==)>(deps: Id -> seq<Id>, completes: Id -> bool, threshold: int, iterations: nat,
                         queue: seq<Id>, executed: seq<Id>, trace: seq<Id>): Drained<Id>
    decreases if iterations <= threshold then threshold + 1 - iterations else 0
  {
    if |queue| == 0 then Drained(Completed, queue, executed, trace, iterations)
    else if iterations > threshold then Drained(CircularDependency, queue, executed, trace, iterations)
    else
      match NextStep(deps, completes, queue, executed)
      case Run(t) => Drain(deps, completes, threshold, iterations + 1, queue[1..], executed + [t], trace + [t])
      case Fail(t) => Drained(TaskFailed(t), queue[1..], executed, trace + [t], iterations + 1)
      case Requeue(t) => Drain(deps, completes, threshold, iterations + 1, queue[1..] + [t], executed, trace)
      case Missing(t, d) => Drained(MissingDependency(t, d), queue[1..], executed, trace, iterations + 1)
  }

  /** Every task in `run` has each of its dependencies in `before` or earlier in `run`. */
  ghost predicate ReadyOrder<Id>(deps: Id -> seq<Id>, before: seq<Id>, run: seq<Id>) {
    forall k, d :: 0 <= k < |run| && d in deps(run[k]) ==> d in before + run[..k]
  }

  const DefaultCircularDependencyThreshold := 500

  class StartupTasker<Id(==)> {
    const deps: Id -> seq<Id>
    const circularDependencyThreshold: int
    var taskQueue: seq<Id>
    var executedStartupTaskTypes: seq<Id>
    /** Every task whose resolution and Execute were attempted, in order. */
    ghost var trace: seq<Id>

    /** Each executed task ran after all its dependencies. */
    ghost predicate Valid()
      reads this
    {
      ReadyOrder(deps, [], executedStartupTaskTypes)
    }

    constructor (deps: Id -> seq<Id>, circularDependencyThreshold: int := DefaultCircularDependencyThreshold)
      ensures Valid()
      ensures this.deps == deps && this.circularDependencyThreshold == circularDependencyThreshold
      ensures taskQueue == [] && executedStartupTaskTypes == [] && trace == []
    {
      this.deps := deps;
      this.circularDependencyThreshold := circularDependencyThreshold;
      taskQueue := [];
      executedStartupTaskTypes := [];
      trace := [];
    }

    /** Enqueue one task at the back (lines 23-27). */
    method AddStartupTask(task: Id)
      requires Valid()
      modifies this
      ensures Valid()
      ensures taskQueue == old(taskQueue) + [task]
      ensures executedStartupTaskTypes == old(executedStartupTaskTypes) && trace == old(trace)
    {
      taskQueue := taskQueue + [task];
    }

    /**
     * Enqueue, in order, the exported types of the given assemblies that pass the
     * startup-task filter (lines 29-40).
     */
    method AddAssemblyStartupTasks(assemblies: seq<seq<Id>>, isStartupTask: Id -> bool)
      requires Valid()
      modifies this
      ensures Valid()
      ensures taskQueue == old(taskQueue) + StartupTaskTypes(assemblies, isStartupTask)
      ensures executedStartupTaskTypes == old(executedStartupTaskTypes) && trace == old(trace)
    {
      var startupTaskTypes := StartupTaskTypes(assemblies, isStartupTask);
      for i := 0 to |startupTaskTypes|
        invariant taskQueue == old(taskQueue) + startupTaskTypes[..i]
        invariant executedStartupTaskTypes == old(executedStartupTaskTypes) && trace == old(trace)
      {
        taskQueue := taskQueue + [startupTaskTypes[i]];
      }
    }

    /** Drain the queue (lines 42-91); the iteration counter starts again at 0 on every call. */
    method RunTasks(completes: Id -> bool) returns (outcome: Outcome<Id>)
      requires Valid()
      modifies this
      ensures Valid()
      ensures var r := Drain(deps, completes, circularDependencyThreshold, 0,
                             old(taskQueue), old(executedStartupTaskTypes), old(trace));
        outcome == r.outcome && taskQueue == r.queue && executedStartupTaskTypes == r.executed && trace == r.trace
      ensures |old(executedStartupTaskTypes)| <= |executedStartupTaskTypes|
      ensures executedStartupTaskTypes[..|old(executedStartupTaskTypes)|] == old(executedStartupTaskTypes)
      ensures outcome.Completed? ==> taskQueue == []
    {
      ghost var result := Drain(deps, completes, circularDependencyThreshold, 0,
                                taskQueue, executedStartupTaskTypes, trace);
      DrainKeepsDependencyOrder(deps, completes, circularDependencyThreshold, 0,
                                taskQueue, executedStartupTaskTypes, trace);
      var numberOfQueueIterations := 0;
      while |taskQueue| != 0
        invariant Drain(deps, completes, circularDependencyThreshold, numberOfQueueIterations,
                        taskQueue, executedStartupTaskTypes, trace) == result
        decreases if numberOfQueueIterations <= circularDependencyThreshold
                  then circularDependencyThreshold + 1 - numberOfQueueIterations else 0
      {
        if numberOfQueueIterations > circularDependencyThreshold {
          return CircularDependency;
        }
        ghost var step := NextStep(deps, completes, taskQueue, executedStartupTaskTypes);
        var taskType := taskQueue[0];
        taskQueue := taskQueue[1..];
        var dependencies := deps(taskType);
        if |dependencies| == 0 || IsSubsetOf(dependencies, executedStartupTaskTypes) {
          trace := trace + [taskType];
          if !completes(taskType) {
            assert step == Fail(taskType);
            return TaskFailed(taskType);
          }
          assert step == Run(taskType);
          executedStartupTaskTypes := executedStartupTaskTypes + [taskType];
        } else {
          var missing := FindMissingDependency(dependencies, executedStartupTaskTypes, taskQueue);
          if missing.Some? {
            assert step == Missing(taskType, missing.value);
            return MissingDependency(taskType, missing.value);
          }
          assert step == Requeue(taskType);
          taskQueue := taskQueue + [taskType];
        }
        numberOfQueueIterations := numberOfQueueIterations + 1;
      }
      return Completed;
    }
  }

  /** The `foreach` over the unmet dependencies (lines 69-81): the first one not queued. */
  method FindMissingDependency<Id(==)>(dependencies: seq<Id>, executed: seq<Id>, queue: seq<Id>) returns (missing: Option<Id>)
    ensures missing == FirstMissing(dependencies, executed, queue)
  {
    for i := 0 to |dependencies|
      invariant FirstMissing(dependencies[i..], executed, queue) == FirstMissing(dependencies, executed, queue)
    {
      var dependency := dependencies[i];
      assert dependencies[i..][1..] == dependencies[i + 1..];
      if dependency !in executed && dependency !in queue {
        return Some(dependency);
      }
    }
    return None;
  }

  /** `SelectMany(a => a.ExportedTypes)`: the types of all assemblies, assembly by assembly. */
  function ExportedTypes<Id>(assemblies: seq<seq<Id>>): (r: seq<Id>)
    ensures forall x :: x in r ==> exists i :: 0 <= i < |assemblies| && x in assemblies[i]
    ensures forall i, x :: 0 <= i < |assemblies| && x in assemblies[i] ==> x in r
  {
    if |assemblies| == 0 then []
    else
      var rest := ExportedTypes(assemblies[1..]);
      assert forall i :: 1 <= i < |assemblies| ==> assemblies[i] == assemblies[1..][i - 1];
      assemblies[0] + rest
  }

  /** `Where(pred)`: the elements that pass, in order. */
  function Filter<Id>(s: seq<Id>, pred: Id -> bool): (r: seq<Id>)
    ensures |r| <= |s|
    ensures forall x :: x in r ==> x in s && pred(x)
    ensures forall x :: x in s && pred(x) ==> x in r
  {
    if |s| == 0 then []
    else (if pred(s[0]) then [s[0]] else []) + Filter(s[1..], pred)
  }

  /** The startup tasks found in the assemblies (lines 31-34); the filter is a parameter. */
  function StartupTaskTypes<Id>(assemblies: seq<seq<Id>>, isStartupTask: Id -> bool): (r: seq<Id>)
    ensures forall x :: x in r ==> isStartupTask(x) && exists i :: 0 <= i < |assemblies| && x in assemblies[i]
    ensures forall i, x :: 0 <= i < |assemblies| && x in assemblies[i] && isStartupTask(x) ==> x in r
  {
    Filter(ExportedTypes(assemblies), isStartupTask)
  }

  lemma {:induction false} ExportedTypesAppend<Id>(first: seq<seq<Id>>, second: seq<seq<Id>>)
    ensures ExportedTypes(first + second) == ExportedTypes(first) + ExportedTypes(second)
  {
    if |first| > 0 {
      assert (first + second)[1..] == first[1..] + second;
      ExportedTypesAppend(first[1..], second);
    } else {
      assert first + second == second;
    }
  }

  lemma {:induction false} FilterAppend<Id>(first: seq<Id>, second: seq<Id>, pred: Id -> bool)
    ensures Filter(first + second, pred) == Filter(first, pred) + Filter(second, pred)
  {
    if |first| > 0 {
      assert (first + second)[1..] == first[1..] + second;
      FilterAppend(first[1..], second, pred);
    } else {
      assert first + second == second;
    }
  }

  /**
   * Discovery keeps the order of the assemblies: the startup tasks of a list of assemblies
   * are those of its first part followed by those of the rest (lines 31-39).
   */
  lemma StartupTaskTypesInAssemblyOrder<Id>(first: seq<seq<Id>>, second: seq<seq<Id>>, isStartupTask: Id -> bool)
    ensures StartupTaskTypes(first + second, isStartupTask)
            == StartupTaskTypes(first, isStartupTask) + StartupTaskTypes(second, isStartupTask)
  {
    ExportedTypesAppend(first, second);
    FilterAppend(ExportedTypes(first), ExportedTypes(second), isStartupTask);
  }

  lemma ReadyOrderAppend<Id>(deps: Id -> seq<Id>, executed: seq<Id>, all: seq<Id>)
    requires ReadyOrder(deps, [], executed)
    requires |executed| <= |all| && all[..|executed|] == executed
    requires ReadyOrder(deps, executed, all[|executed|..])
    ensures ReadyOrder(deps, [], all)
  {
    forall k, d | 0 <= k < |all| && d in deps(all[k])
      ensures d in all[..k]
    {
      if k < |executed| {
        assert all[k] == executed[k];
        assert d in executed[..k];
        assert executed[..k] == all[..k];
      } else {
        var j := k - |executed|;
        assert all[|executed|..][j] == all[k];
        assert d in executed + all[|executed|..][..j];
        assert executed + all[|executed|..][..j] == all[..k];
      }
    }
  }

  /**
   * What RunTasks promises about its new state: the executed list grows only at the end
   * and stays in dependency order, and a normal return leaves the queue empty.
   */
  lemma DrainKeepsDependencyOrder<Id>(deps: Id -> seq<Id>, completes: Id -> bool, threshold: int,
                                      iterations: nat, queue: seq<Id>, executed: seq<Id>, trace: seq<Id>)
    requires ReadyOrder(deps, [], executed)
    ensures var r := Drain(deps, completes, threshold, iterations, queue, executed, trace);
      && |executed| <= |r.executed| && r.executed[..|executed|] == executed
      && ReadyOrder(deps, [], r.executed)
      && (r.outcome.Completed? ==> r.queue == [])
  {
    var r := Drain(deps, completes, threshold, iterations, queue, executed, trace);
    DrainKeepsExecuted(deps, completes, threshold, iterations, queue, executed, trace);
    DrainExecutesOnlyReady(deps, completes, threshold, iterations, queue, executed, trace);
    ReadyOrderAppend(deps, executed, r.executed);
    DrainIterationBound(deps, completes, threshold, iterations, queue, executed, trace);
  }

  /**
   * A task is run only once each of its dependencies has run: the tasks executed by one
   * call, and the task whose execution failed, are in dependency order after the tasks
   * executed before (lines 59-65).
   */
  lemma {:induction false} DrainExecutesOnlyReady<Id>(deps: Id -> seq<Id>, completes: Id -> bool, threshold: int,
                                                     iterations: nat, queue: seq<Id>, executed: seq<Id>, trace: seq<Id>)
    ensures var r := Drain(deps, completes, threshold, iterations, queue, executed, trace);
      |executed| <= |r.executed|
      && ReadyOrder(deps, executed, r.executed[|executed|..])
      && (r.outcome.TaskFailed? ==> ReadyOrder(deps, executed, r.executed[|executed|..] + [r.outcome.task]))
    decreases if iterations <= threshold then threshold + 1 - iterations else 0
  {
    DrainKeepsExecuted(deps, completes, threshold, iterations, queue, executed, trace);
    if |queue| > 0 && iterations <= threshold {
      NextStepDecides(deps, completes, queue, executed);
      match NextStep(deps, completes, queue, executed)
      case Run(t) =>
        var r := Drain(deps, completes, threshold, iterations + 1, queue[1..], executed + [t], trace + [t]);
        DrainExecutesOnlyReady(deps, completes, threshold, iterations + 1, queue[1..], executed + [t], trace + [t]);
        DrainKeepsExecuted(deps, completes, threshold, iterations + 1, queue[1..], executed + [t], trace + [t]);
        assert |executed + [t]| == |executed| + 1;
        assert r.executed[|executed| + 1..] + [] == r.executed[|executed| + 1..];
        ReadyOrderRun(deps, executed, t, r.executed, []);
        assert r.executed[|executed|..] + [] == r.executed[|executed|..];
        if r.outcome.TaskFailed? {
          ReadyOrderRun(deps, executed, t, r.executed, [r.outcome.task]);
        }
      case Fail(t) =>
        assert ReadyOrder(deps, executed, [t]);
      case Requeue(t) =>
        DrainExecutesOnlyReady(deps, completes, threshold, iterations + 1, queue[1..] + [t], executed, trace);
      case Missing(t, d) =>
    }
  }

  /** A task whose dependencies have all run may go first in front of a ready run. */
  lemma ReadyOrderRun<Id>(deps: Id -> seq<Id>, executed: seq<Id>, t: Id, after: seq<Id>, tail: seq<Id>)
    requires forall d :: d in deps(t) ==> d in executed
    requires |executed| + 1 <= |after| && after[..|executed| + 1] == executed + [t]
    requires ReadyOrder(deps, executed + [t], after[|executed| + 1..] + tail)
    ensures ReadyOrder(deps, executed, after[|executed|..] + tail)
  {
    var rest := after[|executed| + 1..];
    assert after[|executed|..] == [t] + rest;
    ReadyOrderCons(deps, executed, t, rest + tail);
    assert after[|executed|..] + tail == [t] + (rest + tail);
  }

  lemma ReadyOrderCons<Id>(deps: Id -> seq<Id>, executed: seq<Id>, t: Id, rest: seq<Id>)
    requires forall d :: d in deps(t) ==> d in executed
    requires ReadyOrder(deps, executed + [t], rest)
    ensures ReadyOrder(deps, executed, [t] + rest)
  {
    var run := [t] + rest;
    forall k, d | 0 <= k < |run| && d in deps(run[k])
      ensures d in executed + run[..k]
    {
      if k > 0 {
        assert run[k] == rest[k - 1];
        assert executed + [t] + rest[..k - 1] == executed + run[..k];
      }
    }
  }

  /** The queue entry an error took out of the queue without running it. */
  function Dropped<Id>(outcome: Outcome<Id>): multiset<Id> {
    match outcome
    case TaskFailed(t) => multiset{t}
    case MissingDependency(t, _) => multiset{t}
    case _ => multiset{}
  }

  /**
   * One pass: a threshold already exceeded throws before any dequeue (lines 48-51); a
   * ready task is run and appended to the executed list (lines 60-65); a task that is not
   * ready and has no missing dependency goes back, unchanged, to the back of the queue,
   * and nothing else is added (lines 66-87).
   */
  lemma DrainOneStep<Id>(deps: Id -> seq<Id>, completes: Id -> bool, threshold: int, iterations: nat,
                         queue: seq<Id>, executed: seq<Id>, trace: seq<Id>)
    requires |queue| > 0
    ensures iterations > threshold ==>
      Drain(deps, completes, threshold, iterations, queue, executed, trace)
      == Drained(CircularDependency, queue, executed, trace, iterations)
    ensures iterations <= threshold && NextStep(deps, completes, queue, executed).Run? ==>
      Drain(deps, completes, threshold, iterations, queue, executed, trace)
      == Drain(deps, completes, threshold, iterations + 1, queue[1..], executed + [queue[0]], trace + [queue[0]])
    ensures iterations <= threshold && NextStep(deps, completes, queue, executed).Requeue? ==>
      Drain(deps, completes, threshold, iterations, queue, executed, trace)
      == Drain(deps, completes, threshold, iterations + 1, queue[1..] + [queue[0]], executed, trace)
  {
  }

  /**
   * Every attempted execution is recorded in the trace, in order: the tasks appended to the
   * executed list, then the task whose resolution or Execute threw, if any.
   */
  lemma {:induction false} DrainTracesExecutions<Id>(deps: Id -> seq<Id>, completes: Id -> bool, threshold: int,
                                                   iterations: nat, queue: seq<Id>, executed: seq<Id>, trace: seq<Id>)
    ensures var r := Drain(deps, completes, threshold, iterations, queue, executed, trace);
      |executed| <= |r.executed|
      && r.trace == trace + r.executed[|executed|..] + Attempted(r.outcome)
    decreases if iterations <= threshold then threshold + 1 - iterations else 0
  {
    DrainKeepsExecuted(deps, completes, threshold, iterations, queue, executed, trace);
    if |queue| > 0 && iterations <= threshold {
      match NextStep(deps, completes, queue, executed)
      case Run(t) =>
        var r := Drain(deps, completes, threshold, iterations + 1, queue[1..], executed + [t], trace + [t]);
        DrainTracesExecutions(deps, completes, threshold, iterations + 1, queue[1..], executed + [t], trace + [t]);
        DrainKeepsExecuted(deps, completes, threshold, iterations + 1, queue[1..], executed + [t], trace + [t]);
        TraceOfRun(executed, t, r.executed, trace, Attempted(r.outcome));
      case Fail(t) =>
        assert executed[|executed|..] == [];
      case Requeue(t) =>
        DrainTracesExecutions(deps, completes, threshold, iterations + 1, queue[1..] + [t], executed, trace);
      case Missing(t, d) =>
        assert executed[|executed|..] == [];
    }
  }

  /** A run of `t` after `executed` is recorded in the trace where it is in the executed list. */
  lemma TraceOfRun<Id>(executed: seq<Id>, t: Id, all: seq<Id>, trace: seq<Id>, attempted: seq<Id>)
    requires |executed + [t]| <= |all| && all[..|executed + [t]|] == executed + [t]
    ensures trace + [t] + all[|executed + [t]|..] + attempted == trace + all[|executed|..] + attempted
  {
    assert all[|executed|..] == [t] + all[|executed| + 1..];
  }

  /** The task an error took out after its resolution or Execute was attempted, if any. */
  function Attempted<Id>(outcome: Outcome<Id>): seq<Id> {
    if outcome.TaskFailed? then [outcome.task] else []
  }

  /** The executed list only grows at the end: earlier entries are never removed or reordered. */
  lemma {:induction false} DrainKeepsExecuted<Id>(deps: Id -> seq<Id>, completes: Id -> bool, threshold: int,
                                                iterations: nat, queue: seq<Id>, executed: seq<Id>, trace: seq<Id>)
    ensures var r := Drain(deps, completes, threshold, iterations, queue, executed, trace);
      |executed| <= |r.executed| && r.executed[..|executed|] == executed
    decreases if iterations <= threshold then threshold + 1 - iterations else 0
  {
    if |queue| > 0 && iterations <= threshold {
      match NextStep(deps, completes, queue, executed)
      case Run(t) =>
        var r := Drain(deps, completes, threshold, iterations + 1, queue[1..], executed + [t], trace + [t]);
        DrainKeepsExecuted(deps, completes, threshold, iterations + 1, queue[1..], executed + [t], trace + [t]);
        assert r.executed[..|executed|] == r.executed[..|executed| + 1][..|executed|];
      case Fail(t) =>
      case Requeue(t) =>
        DrainKeepsExecuted(deps, completes, threshold, iterations + 1, queue[1..] + [t], executed, trace);
      case Missing(t, d) =>
    }
  }

  /**
   * Nothing is lost or invented: each queue entry is still queued, has been executed, or
   * is the one an error took out.
   */
  lemma {:induction false} DrainConservesTasks<Id>(deps: Id -> seq<Id>, completes: Id -> bool, threshold: int,
                                                 iterations: nat, queue: seq<Id>, executed: seq<Id>, trace: seq<Id>)
    ensures var r := Drain(deps, completes, threshold, iterations, queue, executed, trace);
      multiset(queue) + multiset(executed) == multiset(r.queue) + multiset(r.executed) + Dropped(r.outcome)
    decreases if iterations <= threshold then threshold + 1 - iterations else 0
  {
    if |queue| > 0 && iterations <= threshold {
      assert queue == [queue[0]] + queue[1..];
      assert multiset(queue) == multiset{queue[0]} + multiset(queue[1..]);
      match NextStep(deps, completes, queue, executed)
      case Run(t) =>
        DrainConservesTasks(deps, completes, threshold, iterations + 1, queue[1..], executed + [t], trace + [t]);
      case Fail(t) =>
      case Requeue(t) =>
        DrainConservesTasks(deps, completes, threshold, iterations + 1, queue[1..] + [t], executed, trace);
      case Missing(t, d) =>
    }
  }

  lemma MultisetCancel<Id>(a: multiset<Id>, b: multiset<Id>, c: multiset<Id>)
    requires a + b == b + c
    ensures a == c
  {
    assert a == (a + b) - b;
    assert c == (b + c) - b;
  }

  /** On a normal return every queue entry has run exactly once: twice if queued twice. */
  lemma DrainCompletedRunsEachEntryOnce<Id>(deps: Id -> seq<Id>, completes: Id -> bool, threshold: int,
                                            iterations: nat, queue: seq<Id>, executed: seq<Id>, trace: seq<Id>)
    requires Drain(deps, completes, threshold, iterations, queue, executed, trace).outcome.Completed?
    ensures var r := Drain(deps, completes, threshold, iterations, queue, executed, trace);
      |executed| <= |r.executed| && r.queue == [] && multiset(r.executed[|executed|..]) == multiset(queue)
  {
    var r := Drain(deps, completes, threshold, iterations, queue, executed, trace);
    DrainConservesTasks(deps, completes, threshold, iterations, queue, executed, trace);
    DrainKeepsExecuted(deps, completes, threshold, iterations, queue, executed, trace);
    DrainIterationBound(deps, completes, threshold, iterations, queue, executed, trace);
    assert r.executed == executed + r.executed[|executed|..];
    assert multiset(r.executed) == multiset(executed) + multiset(r.executed[|executed|..]);
    assert Dropped(r.outcome) == multiset{} && multiset(r.queue) == multiset{};
    MultisetCancel(multiset(queue), multiset(executed), multiset(r.executed[|executed|..]));
    assert r.queue == [];
  }

  /**
   * The counter bounds the work: at most threshold + 1 dequeues in all; a normal return
   * leaves the queue empty (line 46); CircularDependencyException leaves a non-empty queue
   * after exactly threshold + 1 dequeues (lines 44-51, 89).
   */
  lemma {:induction false} DrainIterationBound<Id>(deps: Id -> seq<Id>, completes: Id -> bool, threshold: int,
                                                 iterations: nat, queue: seq<Id>, executed: seq<Id>, trace: seq<Id>)
    ensures var r := Drain(deps, completes, threshold, iterations, queue, executed, trace);
      && iterations <= r.dequeues <= (if iterations <= threshold then threshold + 1 else iterations)
      && (r.outcome.Completed? ==> r.queue == [])
      && (r.outcome.CircularDependency? ==>
            |r.queue| > 0 && r.dequeues == (if iterations <= threshold then threshold + 1 else iterations))
    decreases if iterations <= threshold then threshold + 1 - iterations else 0
  {
    if |queue| > 0 && iterations <= threshold {
      match NextStep(deps, completes, queue, executed)
      case Run(t) =>
        DrainIterationBound(deps, completes, threshold, iterations + 1, queue[1..], executed + [t], trace + [t]);
      case Fail(t) =>
      case Requeue(t) =>
        DrainIterationBound(deps, completes, threshold, iterations + 1, queue[1..] + [t], executed, trace);
      case Missing(t, d) =>
    }
  }

  /**
   * MissingDependencyException(t, d) is raised only for a dependency d that t declares,
   * that never ran and that is not waiting in the queue (lines 69-81).
   */
  lemma {:induction false} DrainMissingDependency<Id>(deps: Id -> seq<Id>, completes: Id -> bool, threshold: int,
                                                    iterations: nat, queue: seq<Id>, executed: seq<Id>, trace: seq<Id>)
    ensures var r := Drain(deps, completes, threshold, iterations, queue, executed, trace);
      r.outcome.MissingDependency? ==>
        && r.outcome.missing in deps(r.outcome.dependent)
        && r.outcome.missing !in r.executed
        && r.outcome.missing !in r.queue
    decreases if iterations <= threshold then threshold + 1 - iterations else 0
  {
    if |queue| > 0 && iterations <= threshold {
      NextStepDecides(deps, completes, queue, executed);
      match NextStep(deps, completes, queue, executed)
      case Run(t) =>
        DrainMissingDependency(deps, completes, threshold, iterations + 1, queue[1..], executed + [t], trace + [t]);
      case Fail(t) =>
      case Requeue(t) =>
        DrainMissingDependency(deps, completes, threshold, iterations + 1, queue[1..] + [t], executed, trace);
      case Missing(t, d) =>
    }
  }

  /**
   * Tasks that are ready when dequeued run in queue order (first in, first out): a prefix of
   * the queue each of whose tasks has its dependencies executed before it, or earlier in the
   * prefix, runs entry by entry, whatever follows it; an identity queued twice runs twice.
   */
  lemma {:induction false} DrainReadyTasksInQueueOrder<Id>(deps: Id -> seq<Id>, completes: Id -> bool, threshold: int,
                                                         iterations: nat, ready: seq<Id>, rest: seq<Id>,
                                                         executed: seq<Id>, trace: seq<Id>)
    requires forall t :: t in ready ==> completes(t)
    requires ReadyOrder(deps, executed, ready)
    requires iterations + |ready| <= threshold + 1
    ensures Drain(deps, completes, threshold, iterations, ready + rest, executed, trace)
            == Drain(deps, completes, threshold, iterations + |ready|, rest, executed + ready, trace + ready)
    ensures rest == [] ==>
      Drain(deps, completes, threshold, iterations, ready, executed, trace)
      == Drained(Completed, [], executed + ready, trace + ready, iterations + |ready|)
    decreases |ready|
  {
    if |ready| == 0 {
      assert ready + rest == rest && executed + ready == executed && trace + ready == trace;
    } else {
      var t, later := ready[0], ready[1..];
      var queue := ready + rest;
      assert queue[0] == t && queue[1..] == later + rest;
      assert forall d :: d in deps(t) ==> d in executed by {
        assert ready[..0] == [];
      }
      NextStepDecides(deps, completes, queue, executed);
      DrainOneStep(deps, completes, threshold, iterations, queue, executed, trace);
      ReadyOrderTail(deps, executed, ready);
      DrainReadyTasksInQueueOrder(deps, completes, threshold, iterations + 1, later, rest, executed + [t], trace + [t]);
      assert executed + [t] + later == executed + ready;
      assert trace + [t] + later == trace + ready;
    }
    if rest == [] {
      assert ready + rest == ready;
    }
  }

  /** Once the first task of a ready run has been executed, the rest of the run is ready. */
  lemma ReadyOrderTail<Id>(deps: Id -> seq<Id>, executed: seq<Id>, run: seq<Id>)
    requires |run| > 0 && ReadyOrder(deps, executed, run)
    ensures ReadyOrder(deps, executed + [run[0]], run[1..])
  {
    forall k, d | 0 <= k < |run| - 1 && d in deps(run[1..][k])
      ensures d in executed + [run[0]] + run[1..][..k]
    {
      assert run[1..][k] == run[k + 1];
      assert executed + run[..k + 1] == executed + [run[0]] + run[1..][..k];
    }
  }

  /** Every dependency of a queued task is another task that has run or is queued. */
  ghost predicate Closed<Id>(deps: Id -> seq<Id>, queue: seq<Id>, executed: seq<Id>) {
    forall x, d :: x in queue && d in deps(x) ==> d != x && (d in executed || d in queue)
  }

  /** All dependencies of `t` have run: the test at lines 60-61 lets it execute. */
  ghost predicate Ready<Id>(deps: Id -> seq<Id>, executed: seq<Id>, t: Id) {
    forall d :: d in deps(t) ==> d in executed
  }

  lemma ClosedSameMembers<Id>(deps: Id -> seq<Id>, queue: seq<Id>, other: seq<Id>, executed: seq<Id>)
    requires Closed(deps, queue, executed)
    requires forall x :: x in other <==> x in queue
    ensures Closed(deps, other, executed)
  {
  }

  /** Running the front task of a closed queue leaves the rest closed. */
  lemma ClosedAfterRun<Id>(deps: Id -> seq<Id>, queue: seq<Id>, executed: seq<Id>)
    requires |queue| > 0 && Closed(deps, queue, executed)
    ensures Closed(deps, queue[1..], executed + [queue[0]])
  {
    forall x, d | x in queue[1..] && d in deps(x)
      ensures d != x && (d in executed + [queue[0]] || d in queue[1..])
    {
      assert queue == [queue[0]] + queue[1..];
      assert x in queue;
      assert d in queue ==> d == queue[0] || d in queue[1..];
    }
  }

  /** The front task of a closed queue that is not ready goes to the back (lines 84-87). */
  lemma DrainRequeuesUnready<Id>(deps: Id -> seq<Id>, completes: Id -> bool, threshold: int,
                                 iterations: nat, queue: seq<Id>, executed: seq<Id>, trace: seq<Id>)
    requires |queue| > 0 && Closed(deps, queue, executed) && !Ready(deps, executed, queue[0])
    requires iterations <= threshold
    ensures Drain(deps, completes, threshold, iterations, queue, executed, trace)
            == Drain(deps, completes, threshold, iterations + 1, queue[1..] + [queue[0]], executed, trace)
  {
    assert queue == [queue[0]] + queue[1..];
    NextStepDecides(deps, completes, queue, executed);
    assert NextStep(deps, completes, queue, executed).Requeue?;
    DrainOneStep(deps, completes, threshold, iterations, queue, executed, trace);
  }

  /** The front task that is ready and executes is recorded (lines 60-65). */
  lemma DrainRunsReady<Id>(deps: Id -> seq<Id>, completes: Id -> bool, threshold: int,
                           iterations: nat, queue: seq<Id>, executed: seq<Id>, trace: seq<Id>)
    requires |queue| > 0 && Ready(deps, executed, queue[0]) && completes(queue[0])
    requires iterations <= threshold
    ensures Drain(deps, completes, threshold, iterations, queue, executed, trace)
            == Drain(deps, completes, threshold, iterations + 1, queue[1..], executed + [queue[0]], trace + [queue[0]])
  {
    NextStepDecides(deps, completes, queue, executed);
    DrainOneStep(deps, completes, threshold, iterations, queue, executed, trace);
  }

  /** A queue rotated by `j` is closed when the queue is. */
  lemma ClosedRotated<Id>(deps: Id -> seq<Id>, queue: seq<Id>, executed: seq<Id>, j: nat)
    requires j <= |queue| && Closed(deps, queue, executed)
    ensures Closed(deps, queue[j..] + queue[..j], executed)
  {
    assert queue == queue[..j] + queue[j..];
    assert forall x :: x in queue[j..] + queue[..j] <==> x in queue;
    ClosedSameMembers(deps, queue, queue[j..] + queue[..j], executed);
  }

  /** Sending the front of a queue rotated by `j` to the back rotates it by `j + 1`. */
  lemma RotateOnce<Id>(queue: seq<Id>, j: nat)
    requires j < |queue|
    ensures (queue[j..] + queue[..j])[0] == queue[j]
    ensures (queue[j..] + queue[..j])[1..] == queue[j + 1..] + queue[..j]
    ensures (queue[j..] + queue[..j])[1..] + [queue[j]] == queue[j + 1..] + queue[..j + 1]
  {
    assert queue[..j + 1] == queue[..j] + [queue[j]];
  }

  /**
   * When every dependency of every queued task is another registered task, the
   * MissingDependencyException of lines 75-79 is never raised.
   */
  lemma {:induction false} DrainClosedNeverMissing<Id>(deps: Id -> seq<Id>, completes: Id -> bool, threshold: int,
                                                     iterations: nat, queue: seq<Id>, executed: seq<Id>, trace: seq<Id>)
    requires Closed(deps, queue, executed)
    ensures !Drain(deps, completes, threshold, iterations, queue, executed, trace).outcome.MissingDependency?
    decreases if iterations <= threshold then threshold + 1 - iterations else 0
  {
    if |queue| > 0 && iterations <= threshold {
      var t := queue[0];
      assert queue == [t] + queue[1..];
      NextStepDecides(deps, completes, queue, executed);
      assert !NextStep(deps, completes, queue, executed).Missing?;
      match NextStep(deps, completes, queue, executed)
      case Run(_) =>
        ClosedAfterRun(deps, queue, executed);
        DrainClosedNeverMissing(deps, completes, threshold, iterations + 1, queue[1..], executed + [t], trace + [t]);
      case Fail(_) =>
      case Requeue(_) =>
        ClosedSameMembers(deps, queue, queue[1..] + [t], executed);
        DrainClosedNeverMissing(deps, completes, threshold, iterations + 1, queue[1..] + [t], executed, trace);
    }
  }

  /** 1 + 2 + ... + n: the passes a queue of n tasks may need in the worst case. */
  function Triangle(n: nat): (r: nat)
    ensures r >= n
  {
    if n == 0 then 0 else n + Triangle(n - 1)
  }

  /** A queued task of least rank. */
  lemma LeastRank<Id>(queue: seq<Id>, rank: Id -> nat) returns (i: nat)
    requires |queue| > 0
    ensures i < |queue| && forall j :: 0 <= j < |queue| ==> rank(queue[i]) <= rank(queue[j])
  {
    i := 0;
    for k := 1 to |queue|
      invariant i < k && forall j :: 0 <= j < k ==> rank(queue[i]) <= rank(queue[j])
    {
      if rank(queue[k]) < rank(queue[i]) {
        i := k;
      }
    }
  }

  /** The first queued task that is ready, given that some task at or before `i` is. */
  lemma FirstReady<Id>(deps: Id -> seq<Id>, executed: seq<Id>, queue: seq<Id>, i: nat) returns (j: nat)
    requires i < |queue| && Ready(deps, executed, queue[i])
    ensures j <= i && Ready(deps, executed, queue[j])
    ensures forall k :: 0 <= k < j ==> !Ready(deps, executed, queue[k])
  {
    j := 0;
    while !Ready(deps, executed, queue[j])
      invariant j <= i
      invariant forall k :: 0 <= k < j ==> !Ready(deps, executed, queue[k])
      decreases i - j
    {
      j := j + 1;
    }
  }

  /**
   * Tasks at the front of a closed queue that are not ready go to the back one by one
   * (lines 84-87), so after j passes the queue is rotated by j.
   */
  lemma {:induction false} DrainRotatesUnready<Id>(deps: Id -> seq<Id>, completes: Id -> bool, threshold: int,
                                                 iterations: nat, queue: seq<Id>, executed: seq<Id>, trace: seq<Id>, j: nat)
    requires j <= |queue| && Closed(deps, queue, executed)
    requires forall k :: 0 <= k < j ==> !Ready(deps, executed, queue[k])
    requires iterations + j <= threshold + 1
    ensures Drain(deps, completes, threshold, iterations, queue, executed, trace)
            == Drain(deps, completes, threshold, iterations + j, queue[j..] + queue[..j], executed, trace)
    decreases j
  {
    if j == 0 {
      assert queue[0..] + queue[..0] == queue;
    } else {
      DrainRotatesUnready(deps, completes, threshold, iterations, queue, executed, trace, j - 1);
      DrainRequeuesRotated(deps, completes, threshold, iterations + j, queue, executed, trace, j);
    }
  }

  /**
   * The pass that takes a closed queue from being rotated by `j - 1`, with a front that
   * is not ready, to being rotated by `j`; `passes` counts the passes after it.
   */
  lemma DrainRequeuesRotated<Id>(deps: Id -> seq<Id>, completes: Id -> bool, threshold: int,
                                 passes: nat, queue: seq<Id>, executed: seq<Id>, trace: seq<Id>, j: nat)
    requires 0 < j <= |queue| && Closed(deps, queue, executed) && !Ready(deps, executed, queue[j - 1])
    requires 0 < passes <= threshold + 1
    ensures Drain(deps, completes, threshold, passes - 1, queue[j - 1..] + queue[..j - 1], executed, trace)
            == Drain(deps, completes, threshold, passes, queue[j..] + queue[..j], executed, trace)
  {
    ClosedRotated(deps, queue, executed, j - 1);
    RotateOnce(queue, j - 1);
    DrainRequeuesUnready(deps, completes, threshold, passes - 1, queue[j - 1..] + queue[..j - 1], executed, trace);
  }

  /** A rank that falls along every dependency of a queued task: the dependencies have no cycle. */
  ghost predicate Ranked<Id>(deps: Id -> seq<Id>, rank: Id -> nat, queue: seq<Id>) {
    forall x, d :: x in queue && d in deps(x) ==> rank(d) < rank(x)
  }

  /** Every queued task resolves and executes without throwing. */
  ghost predicate AllComplete<Id>(completes: Id -> bool, queue: seq<Id>) {
    forall t :: t in queue ==> completes(t)
  }

  /** What holds for the tasks of a queue holds for those of the queue rotated by `j`, less its front. */
  lemma RotatedTail<Id>(deps: Id -> seq<Id>, completes: Id -> bool, rank: Id -> nat, queue: seq<Id>, j: nat)
    requires j < |queue| && Ranked(deps, rank, queue) && AllComplete(completes, queue)
    ensures Ranked(deps, rank, (queue[j..] + queue[..j])[1..])
    ensures AllComplete(completes, (queue[j..] + queue[..j])[1..])
    ensures completes(queue[j])
  {
    assert queue == queue[..j] + queue[j..];
    assert forall x :: x in (queue[j..] + queue[..j])[1..] ==> x in queue;
  }

  /** In a closed, ranked queue a task of least rank has all its dependencies executed. */
  lemma LeastRankIsReady<Id>(deps: Id -> seq<Id>, rank: Id -> nat, queue: seq<Id>, executed: seq<Id>) returns (i: nat)
    requires |queue| > 0 && Closed(deps, queue, executed) && Ranked(deps, rank, queue)
    ensures i < |queue| && Ready(deps, executed, queue[i])
  {
    i := LeastRank(queue, rank);
    forall d | d in deps(queue[i])
      ensures d in executed
    {
      if d !in executed {
        assert false;
      }
    }
  }

  /**
   * Requeueing sorts itself out: when every dependency is another registered task, the
   * dependencies have no cycle (a rank falls along every dependency) and every task
   * executes, the queue drains normally within 1 + 2 + ... + n passes for n queued tasks.
   */
  lemma DrainCompletesAcyclic<Id>(deps: Id -> seq<Id>, completes: Id -> bool, rank: Id -> nat, threshold: int,
                                  iterations: nat, queue: seq<Id>, executed: seq<Id>, trace: seq<Id>)
    requires Closed(deps, queue, executed) && Ranked(deps, rank, queue) && AllComplete(completes, queue)
    requires iterations + Triangle(|queue|) <= threshold + 1
    ensures Drain(deps, completes, threshold, iterations, queue, executed, trace).outcome == Completed
    decreases |queue|
  {
    if |queue| > 0 {
      var j, rest := DrainAdvances(deps, completes, rank, threshold, iterations, queue, executed, trace);
      DrainCompletesAcyclic(deps, completes, rank, threshold, iterations + j + 1, rest, executed + [queue[j]], trace + [queue[j]]);
    }
  }

  /**
   * Some pass of a closed, ranked queue runs a task: the first ready one, after the
   * unready ones before it have gone to the back.
   */
  lemma DrainAdvances<Id>(deps: Id -> seq<Id>, completes: Id -> bool, rank: Id -> nat, threshold: int,
                          iterations: nat, queue: seq<Id>, executed: seq<Id>, trace: seq<Id>)
    returns (j: nat, rest: seq<Id>)
    requires |queue| > 0
    requires Closed(deps, queue, executed) && Ranked(deps, rank, queue) && AllComplete(completes, queue)
    requires iterations + |queue| <= threshold + 1
    ensures j < |queue| && |rest| == |queue| - 1
    ensures Drain(deps, completes, threshold, iterations, queue, executed, trace)
            == Drain(deps, completes, threshold, iterations + j + 1, rest, executed + [queue[j]], trace + [queue[j]])
    ensures Closed(deps, rest, executed + [queue[j]]) && Ranked(deps, rank, rest) && AllComplete(completes, rest)
  {
    var least := LeastRankIsReady(deps, rank, queue, executed);
    j := FirstReady(deps, executed, queue, least);
    RotatedTail(deps, completes, rank, queue, j);
    DrainRunsFirstReady(deps, completes, threshold, iterations, queue, executed, trace, j);
    var rotated := queue[j..] + queue[..j];
    rest := rotated[1..];
    ClosedRotated(deps, queue, executed, j);
    RotateOnce(queue, j);
    ClosedAfterRun(deps, rotated, executed);
  }

  /**
   * The unready tasks before the first ready one go to the back (lines 84-87), then the
   * ready one runs (lines 60-65).
   */
  lemma DrainRunsFirstReady<Id>(deps: Id -> seq<Id>, completes: Id -> bool, threshold: int,
                                iterations: nat, queue: seq<Id>, executed: seq<Id>, trace: seq<Id>, j: nat)
    requires j < |queue| && Closed(deps, queue, executed)
    requires forall k :: 0 <= k < j ==> !Ready(deps, executed, queue[k])
    requires Ready(deps, executed, queue[j]) && completes(queue[j])
    requires iterations + j <= threshold
    ensures Drain(deps, completes, threshold, iterations, queue, executed, trace)
            == Drain(deps, completes, threshold, iterations + j + 1, (queue[j..] + queue[..j])[1..],
                     executed + [queue[j]], trace + [queue[j]])
  {
    DrainRotatesUnready(deps, completes, threshold, iterations, queue, executed, trace, j);
    RotateOnce(queue, j);
    DrainRunsReady(deps, completes, threshold, iterations + j, queue[j..] + queue[..j], executed, trace);
  }

}
