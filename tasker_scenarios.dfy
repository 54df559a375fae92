/**
 * The scheduler on concrete registrations: the cases of Foundations.Test/TaskerTests.cs,
 * a two-task cycle, and an acyclic chain that a low threshold rejects.
 */
module TaskerScenarios {
  import opened Bootstrap

  /**
   * The startup tasks the test assembly declares: the three of Foundations.Test/TaskerTests.cs
   * and TestStartupTask of Foundations.Test/Mocks/TestStartupTask.cs.
   */
  datatype TestTask = DummyStartupTask | DummyStartupTaskWithDependency | DummyStartupTaskWithAnotherDependency
                    | TestStartupTask

  /** Their `[Dependency]` attributes (TaskerTests.cs lines 146 and 162-163). */
  function TestDependencies(t: TestTask): seq<TestTask> {
    match t
    case DummyStartupTask => []
    case DummyStartupTaskWithDependency => [DummyStartupTask]
    case DummyStartupTaskWithAnotherDependency => [DummyStartupTaskWithDependency, DummyStartupTask]
    case TestStartupTask => []
  }

  /** Every test task resolves and executes without throwing. */
  function AlwaysCompletes<Id>(t: Id): bool {
    true
  }

  /** Registered alone, Dummy runs in one pass. */
  lemma DummyRunsAlone()
    ensures Drain(TestDependencies, AlwaysCompletes, DefaultCircularDependencyThreshold, 0, [DummyStartupTask], [], [])
         == Drained(Completed, [], [DummyStartupTask], [DummyStartupTask], 1)
  {
    assert NextStep(TestDependencies, AlwaysCompletes, [DummyStartupTask], []) == Run(DummyStartupTask);
  }

  /** ExecutingTaskWithNoDependenciesExecutes, through the class's methods. */
  method NoDependenciesTest() returns (outcome: Outcome<TestTask>, executed: seq<TestTask>)
    ensures outcome == Completed && executed == [DummyStartupTask]
  {
    var tasker := new StartupTasker(TestDependencies);
    tasker.AddStartupTask(DummyStartupTask);
    assert tasker.taskQueue == [DummyStartupTask];
    DummyRunsAlone();
    outcome := tasker.RunTasks(AlwaysCompletes);
    executed := tasker.executedStartupTaskTypes;
  }

  /** One pass of the mixed-dependencies registration, from `queue` and `executed`. */
  function MixedPass(iterations: nat, queue: seq<TestTask>, executed: seq<TestTask>): Drained<TestTask> {
    Drain(TestDependencies, AlwaysCompletes, DefaultCircularDependencyThreshold, iterations, queue, executed, executed)
  }

  /** Passes 1 and 2: WithAnotherDependency and WithDependency go back, as Dummy is still queued. */
  lemma MixedDependenciesRequeueBoth()
    ensures MixedPass(0, [DummyStartupTaskWithAnotherDependency, DummyStartupTaskWithDependency, DummyStartupTask], [])
         == MixedPass(2, [DummyStartupTask, DummyStartupTaskWithAnotherDependency, DummyStartupTaskWithDependency], [])
  {
    var d, wd, wa := DummyStartupTask, DummyStartupTaskWithDependency, DummyStartupTaskWithAnotherDependency;
    var deps, ok, t := TestDependencies, AlwaysCompletes, DefaultCircularDependencyThreshold;
    NextStepDecides(deps, ok, [wa, wd, d], []);
    assert NextStep(deps, ok, [wa, wd, d], []) == Requeue(wa);
    assert [wa, wd, d][1..] + [wa] == [wd, d, wa];
    DrainOneStep(deps, ok, t, 0, [wa, wd, d], [], []);
    NextStepDecides(deps, ok, [wd, d, wa], []);
    assert NextStep(deps, ok, [wd, d, wa], []) == Requeue(wd);
    assert [wd, d, wa][1..] + [wd] == [d, wa, wd];
    DrainOneStep(deps, ok, t, 1, [wd, d, wa], [], []);
  }

  /** Pass 3: Dummy has no dependency and runs. */
  lemma MixedDependenciesRunDummy()
    ensures MixedPass(2, [DummyStartupTask, DummyStartupTaskWithAnotherDependency, DummyStartupTaskWithDependency], [])
         == MixedPass(3, [DummyStartupTaskWithAnotherDependency, DummyStartupTaskWithDependency], [DummyStartupTask])
  {
    var d, wd, wa := DummyStartupTask, DummyStartupTaskWithDependency, DummyStartupTaskWithAnotherDependency;
    var deps, ok, t := TestDependencies, AlwaysCompletes, DefaultCircularDependencyThreshold;
    assert NextStep(deps, ok, [d, wa, wd], []) == Run(d);
    assert [d, wa, wd][1..] == [wa, wd] && [] + [d] == [d];
    DrainOneStep(deps, ok, t, 2, [d, wa, wd], [], []);
  }

  /** Pass 4: WithAnotherDependency goes back once more, as WithDependency is still queued. */
  lemma MixedDependenciesRequeueAgain()
    ensures MixedPass(3, [DummyStartupTaskWithAnotherDependency, DummyStartupTaskWithDependency], [DummyStartupTask])
         == MixedPass(4, [DummyStartupTaskWithDependency, DummyStartupTaskWithAnotherDependency], [DummyStartupTask])
  {
    var d, wd, wa := DummyStartupTask, DummyStartupTaskWithDependency, DummyStartupTaskWithAnotherDependency;
    var deps, ok, t := TestDependencies, AlwaysCompletes, DefaultCircularDependencyThreshold;
    NextStepDecides(deps, ok, [wa, wd], [d]);
    assert NextStep(deps, ok, [wa, wd], [d]) == Requeue(wa);
    assert [wa, wd][1..] + [wa] == [wd, wa];
    DrainOneStep(deps, ok, t, 3, [wa, wd], [d], [d]);
  }

  /** Passes 5 and 6: WithDependency runs, then WithAnotherDependency. */
  lemma MixedDependenciesRunRest()
    ensures MixedPass(4, [DummyStartupTaskWithDependency, DummyStartupTaskWithAnotherDependency], [DummyStartupTask])
         == Drained(Completed, [],
                    [DummyStartupTask, DummyStartupTaskWithDependency, DummyStartupTaskWithAnotherDependency],
                    [DummyStartupTask, DummyStartupTaskWithDependency, DummyStartupTaskWithAnotherDependency], 6)
  {
    var d, wd, wa := DummyStartupTask, DummyStartupTaskWithDependency, DummyStartupTaskWithAnotherDependency;
    var deps, ok, t := TestDependencies, AlwaysCompletes, DefaultCircularDependencyThreshold;
    assert NextStep(deps, ok, [wd, wa], [d]) == Run(wd);
    assert [wd, wa][1..] == [wa] && [d] + [wd] == [d, wd];
    DrainOneStep(deps, ok, t, 4, [wd, wa], [d], [d]);
    assert NextStep(deps, ok, [wa], [d, wd]) == Run(wa);
    assert [wa][1..] == [] && [d, wd] + [wa] == [d, wd, wa];
    DrainOneStep(deps, ok, t, 5, [wa], [d, wd], [d, wd]);
  }

  /** Registered as WithAnotherDependency, WithDependency, Dummy, they run in reverse order. */
  lemma MixedDependenciesRunInDependencyOrder()
    ensures var r := Drain(TestDependencies, AlwaysCompletes, DefaultCircularDependencyThreshold, 0,
                           [DummyStartupTaskWithAnotherDependency, DummyStartupTaskWithDependency, DummyStartupTask], [], []);
      r.outcome == Completed
      && r.executed == [DummyStartupTask, DummyStartupTaskWithDependency, DummyStartupTaskWithAnotherDependency]
      && r.dequeues == 6
  {
    MixedDependenciesRequeueBoth();
    MixedDependenciesRunDummy();
    MixedDependenciesRequeueAgain();
    MixedDependenciesRunRest();
  }

  /** Registered as WithDependency, Dummy, Dummy runs first. */
  lemma DependencyRunsFirst()
    ensures var r := Drain(TestDependencies, AlwaysCompletes, DefaultCircularDependencyThreshold, 0,
                           [DummyStartupTaskWithDependency, DummyStartupTask], [], []);
      r.outcome == Completed && r.executed == [DummyStartupTask, DummyStartupTaskWithDependency]
  {
    var d, wd := DummyStartupTask, DummyStartupTaskWithDependency;
    var deps, ok := TestDependencies, AlwaysCompletes;
    NextStepDecides(deps, ok, [wd, d], []);
    assert NextStep(deps, ok, [wd, d], []) == Requeue(wd);
    assert NextStep(deps, ok, [d, wd], []) == Run(d);
    assert NextStep(deps, ok, [wd], [d]) == Run(wd);
  }

  /** Registered alone, WithDependency fails on its unregistered dependency and nothing runs. */
  lemma UnregisteredDependencyIsMissing()
    ensures var r := Drain(TestDependencies, AlwaysCompletes, DefaultCircularDependencyThreshold, 0,
                           [DummyStartupTaskWithDependency], [], []);
      r.outcome == MissingDependency(DummyStartupTaskWithDependency, DummyStartupTask) && r.executed == []
  {
    assert NextStep(TestDependencies, AlwaysCompletes, [DummyStartupTaskWithDependency], [])
           == Missing(DummyStartupTaskWithDependency, DummyStartupTask);
  }

  /** The same registrations through the class, as the tests make them. */
  method MixedDependenciesTest() returns (outcome: Outcome<TestTask>, executed: seq<TestTask>)
    ensures outcome == Completed
    ensures executed == [DummyStartupTask, DummyStartupTaskWithDependency, DummyStartupTaskWithAnotherDependency]
  {
    var tasker := new StartupTasker(TestDependencies);
    tasker.AddStartupTask(DummyStartupTaskWithAnotherDependency);
    tasker.AddStartupTask(DummyStartupTaskWithDependency);
    tasker.AddStartupTask(DummyStartupTask);
    assert tasker.taskQueue == [DummyStartupTaskWithAnotherDependency, DummyStartupTaskWithDependency, DummyStartupTask];
    MixedDependenciesRunInDependencyOrder();
    outcome := tasker.RunTasks(AlwaysCompletes);
    executed := tasker.executedStartupTaskTypes;
  }

  method MissingDependencyTest() returns (outcome: Outcome<TestTask>, executed: seq<TestTask>)
    ensures outcome == MissingDependency(DummyStartupTaskWithDependency, DummyStartupTask)
    ensures executed == []
  {
    var tasker := new StartupTasker(TestDependencies);
    tasker.AddStartupTask(DummyStartupTaskWithDependency);
    assert tasker.taskQueue == [DummyStartupTaskWithDependency];
    UnregisteredDependencyIsMissing();
    outcome := tasker.RunTasks(AlwaysCompletes);
    executed := tasker.executedStartupTaskTypes;
  }

  /** A rank that falls along every test dependency. */
  function TestRank(t: TestTask): nat {
    match t
    case DummyStartupTask => 0
    case DummyStartupTaskWithDependency => 1
    case DummyStartupTaskWithAnotherDependency => 2
    case TestStartupTask => 0
  }

  /** The three tasks of TaskerTests.cs, each once, in any order. */
  ghost predicate DummyTasks(queue: seq<TestTask>) {
    multiset(queue) == multiset{DummyStartupTask, DummyStartupTaskWithDependency, DummyStartupTaskWithAnotherDependency}
  }

  /** Every startup task of the test assembly, each once, in any order. */
  ghost predicate AllTestTasks(queue: seq<TestTask>) {
    multiset(queue)
    == multiset{DummyStartupTask, DummyStartupTaskWithDependency, DummyStartupTaskWithAnotherDependency, TestStartupTask}
  }

  /**
   * The names the test's queue of names receives from a run: each executed task but
   * TestStartupTask, whose Execute only counts its calls (Mocks/TestStartupTask.cs:8-11).
   */
  function Recorded(run: seq<TestTask>): (r: seq<TestTask>)
    ensures forall x :: x in r ==> x in run && x != TestStartupTask
    ensures forall x :: x in run && x != TestStartupTask ==> x in r
    ensures multiset(r) == multiset(run)[TestStartupTask := 0]
  {
    if |run| == 0 then []
    else
      var before, last := run[..|run| - 1], run[|run| - 1];
      assert run == before + [last];
      var rest := Recorded(before);
      if last == TestStartupTask then rest else rest + [last]
  }

  /** No test task depends on TestStartupTask, so leaving it out keeps a dependency order. */
  lemma {:induction false} RecordedKeepsOrder(run: seq<TestTask>)
    requires ReadyOrder(TestDependencies, [], run)
    ensures ReadyOrder(TestDependencies, [], Recorded(run))
  {
    if |run| > 0 {
      var before, last := run[..|run| - 1], run[|run| - 1];
      forall k, d | 0 <= k < |before| && d in TestDependencies(before[k])
        ensures d in [] + before[..k]
      {
        assert before[k] == run[k] && before[..k] == run[..k];
      }
      RecordedKeepsOrder(before);
      var rest := Recorded(before);
      if last != TestStartupTask {
        var all := rest + [last];
        forall k, d | 0 <= k < |all| && d in TestDependencies(all[k])
          ensures d in [] + all[..k]
        {
          if k < |rest| {
            assert all[k] == rest[k] && all[..k] == rest[..k];
          } else {
            assert d in [] + run[..|run| - 1];
            assert all[..k] == rest;
          }
        }
      }
    }
  }

  /** The only order of the three tasks of TaskerTests.cs in which each runs after its dependencies. */
  lemma TestDependencyOrderIsForced(run: seq<TestTask>)
    requires DummyTasks(run) && ReadyOrder(TestDependencies, [], run)
    ensures run == [DummyStartupTask, DummyStartupTaskWithDependency, DummyStartupTaskWithAnotherDependency]
  {
    var d, wd, wa := DummyStartupTask, DummyStartupTaskWithDependency, DummyStartupTaskWithAnotherDependency;
    assert |run| == 3;
    assert run == [run[0], run[1], run[2]];
    assert multiset(run) == multiset{run[0], run[1], run[2]};
    assert run[..0] == [] && run[..1] == [run[0]];
    // Nothing has run before the first task, so it is the one without dependencies.
    var first, second := run[0], run[1];
    assert first != TestStartupTask && (first == wd || first == wa ==> d in TestDependencies(first));
    assert first == d;
    // Only Dummy has run before the second, which is not Dummy again.
    assert multiset(run)[d] == 1 && second != TestStartupTask;
    assert second == wa ==> wd in TestDependencies(second);
    assert second == wd;
  }

  /** The four startup tasks of the test assembly depend only on each other, without a cycle. */
  lemma TestTasksAreAcyclic(queue: seq<TestTask>)
    requires AllTestTasks(queue)
    ensures |queue| == 4
    ensures Closed(TestDependencies, queue, []) && Ranked(TestDependencies, TestRank, queue)
    ensures AllComplete(AlwaysCompletes, queue)
  {
    forall x: TestTask
      ensures x in queue
    {
      assert x == DummyStartupTask || x == DummyStartupTaskWithDependency
          || x == DummyStartupTaskWithAnotherDependency || x == TestStartupTask;
      assert x in multiset(queue);
    }
  }

  /**
   * Whatever order discovery yields the four startup tasks of the test assembly in, the
   * default threshold runs each once, and the three that record their names record them as
   * Dummy, WithDependency, WithAnotherDependency: the dependency chain forces the order
   * that ExecutingTaskWithManyDependenciesExecutesInCorrectOrder expects.
   */
  lemma AnyDiscoveryOrderRunsInDependencyOrder(queue: seq<TestTask>)
    requires AllTestTasks(queue)
    ensures var r := Drain(TestDependencies, AlwaysCompletes, DefaultCircularDependencyThreshold, 0, queue, [], []);
      r.outcome == Completed
      && multiset(r.executed) == multiset(queue)
      && Recorded(r.executed) == [DummyStartupTask, DummyStartupTaskWithDependency, DummyStartupTaskWithAnotherDependency]
  {
    var deps, ok, t := TestDependencies, AlwaysCompletes, DefaultCircularDependencyThreshold;
    TestTasksAreAcyclic(queue);
    assert Triangle(4) == 10;
    DrainCompletesAcyclic(deps, ok, TestRank, t, 0, queue, [], []);
    var r := Drain(deps, ok, t, 0, queue, [], []);
    DrainCompletedRunsEachEntryOnce(deps, ok, t, 0, queue, [], []);
    DrainExecutesOnlyReady(deps, ok, t, 0, queue, [], []);
    assert r.executed[0..] == r.executed;
    RecordedKeepsOrder(r.executed);
    TestDependencyOrderIsForced(Recorded(r.executed));
  }

  /**
   * ExecutingTaskWithManyDependenciesExecutesInCorrectOrder: the test assembly is given
   * as its exported types and the startup-task filter; only what they yield is
   * constrained: the four startup tasks, each once, in an order reflection leaves open.
   */
  method ManyDependenciesTest(assemblies: seq<seq<TestTask>>, isStartupTask: TestTask -> bool)
    returns (outcome: Outcome<TestTask>, executed: seq<TestTask>)
    requires AllTestTasks(StartupTaskTypes(assemblies, isStartupTask))
    ensures outcome == Completed
    ensures AllTestTasks(executed)
    ensures Recorded(executed) == [DummyStartupTask, DummyStartupTaskWithDependency, DummyStartupTaskWithAnotherDependency]
  {
    var tasker := new StartupTasker(TestDependencies);
    tasker.AddAssemblyStartupTasks(assemblies, isStartupTask);
    assert tasker.taskQueue == StartupTaskTypes(assemblies, isStartupTask);
    AnyDiscoveryOrderRunsInDependencyOrder(tasker.taskQueue);
    outcome := tasker.RunTasks(AlwaysCompletes);
    executed := tasker.executedStartupTaskTypes;
  }

  /**
   * A task that depends only on itself is not treated as a cycle: once dequeued it is no
   * longer in the queue, so it is reported as its own missing dependency.
   */
  lemma SelfDependencyIsMissing<Id>(deps: Id -> seq<Id>, completes: Id -> bool, threshold: nat, t: Id)
    requires deps(t) == [t]
    ensures Drain(deps, completes, threshold, 0, [t], [], []).outcome == MissingDependency(t, t)
  {
    assert NextStep(deps, completes, [t], []) == Missing(t, t);
  }

  /** Two tasks that depend on each other. */
  datatype CycleTask = P | Q

  function CycleDependencies(t: CycleTask): seq<CycleTask> {
    if t == P then [Q] else [P]
  }

  /** Each pass sends the front task back behind the other, which is still queued. */
  lemma {:induction false} CycleKeepsRequeueing(completes: CycleTask -> bool, threshold: int, iterations: nat,
                                                front: CycleTask, trace: seq<CycleTask>)
    requires iterations <= threshold + 1
    ensures var r := Drain(CycleDependencies, completes, threshold, iterations,
                           [front, CycleDependencies(front)[0]], [], trace);
      r.outcome == CircularDependency && r.executed == [] && r.trace == trace
      && r.dequeues == threshold + 1 && multiset(r.queue) == multiset{P, Q}
    decreases threshold + 1 - iterations
  {
    var other := CycleDependencies(front)[0];
    var queue := [front, other];
    if iterations <= threshold {
      NextStepDecides(CycleDependencies, completes, queue, []);
      assert NextStep(CycleDependencies, completes, queue, []) == Requeue(front);
      assert queue[1..] + [front] == [other, CycleDependencies(other)[0]];
      CycleKeepsRequeueing(completes, threshold, iterations + 1, other, trace);
    }
  }

  /**
   * A cycle is reported as CircularDependencyException after exactly threshold + 1
   * dequeues, with neither task run.
   */
  lemma CycleIsReportedAfterThreshold(completes: CycleTask -> bool, threshold: nat)
    ensures var r := Drain(CycleDependencies, completes, threshold, 0, [P, Q], [], []);
      r.outcome == CircularDependency && r.executed == [] && r.trace == [] && r.dequeues == threshold + 1
  {
    CycleKeepsRequeueing(completes, threshold, 0, P, []);
  }

  /** An acyclic chain: C depends on B, B on A. */
  datatype ChainTask = A | B | C

  function ChainDependencies(t: ChainTask): seq<ChainTask> {
    match t
    case A => []
    case B => [A]
    case C => [B]
  }

  /** The first two passes of C, B, A: C and B go back, as A has not run. */
  lemma ChainRequeuesTwice(threshold: int)
    requires threshold >= 2
    ensures Drain(ChainDependencies, AlwaysCompletes, threshold, 0, [C, B, A], [], [])
         == Drain(ChainDependencies, AlwaysCompletes, threshold, 2, [A, C, B], [], [])
  {
    var deps, ok := ChainDependencies, AlwaysCompletes;
    NextStepDecides(deps, ok, [C, B, A], []);
    assert NextStep(deps, ok, [C, B, A], []) == Requeue(C);
    assert [C, B, A][1..] + [C] == [B, A, C];
    DrainOneStep(deps, ok, threshold, 0, [C, B, A], [], []);
    NextStepDecides(deps, ok, [B, A, C], []);
    assert NextStep(deps, ok, [B, A, C], []) == Requeue(B);
    assert [B, A, C][1..] + [B] == [A, C, B];
    DrainOneStep(deps, ok, threshold, 1, [B, A, C], [], []);
  }

  /** The first three passes of C, B, A: C and B go back, then A runs. */
  lemma ChainFirstPasses(threshold: int)
    requires threshold >= 2
    ensures Drain(ChainDependencies, AlwaysCompletes, threshold, 0, [C, B, A], [], [])
         == Drain(ChainDependencies, AlwaysCompletes, threshold, 3, [C, B], [A], [A])
  {
    var deps, ok := ChainDependencies, AlwaysCompletes;
    ChainRequeuesTwice(threshold);
    assert NextStep(deps, ok, [A, C, B], []) == Run(A);
    assert [A, C, B][1..] == [C, B] && [] + [A] == [A];
    DrainOneStep(deps, ok, threshold, 2, [A, C, B], [], []);
  }

  /** The last three passes of C, B, A under the default threshold: C goes back, B and C run. */
  lemma ChainLastPasses()
    ensures Drain(ChainDependencies, AlwaysCompletes, DefaultCircularDependencyThreshold, 3, [C, B], [A], [A])
         == Drained(Completed, [], [A, B, C], [A, B, C], 6)
  {
    var deps, ok, t := ChainDependencies, AlwaysCompletes, DefaultCircularDependencyThreshold;
    NextStepDecides(deps, ok, [C, B], [A]);
    assert NextStep(deps, ok, [C, B], [A]) == Requeue(C);
    assert [C, B][1..] + [C] == [B, C];
    DrainOneStep(deps, ok, t, 3, [C, B], [A], [A]);
    assert NextStep(deps, ok, [B, C], [A]) == Run(B);
    assert [B, C][1..] == [C] && [A] + [B] == [A, B];
    DrainOneStep(deps, ok, t, 4, [B, C], [A], [A]);
    assert NextStep(deps, ok, [C], [A, B]) == Run(C);
    assert [C][1..] == [] && [A, B] + [C] == [A, B, C];
    DrainOneStep(deps, ok, t, 5, [C], [A, B], [A, B]);
  }

  /**
   * The threshold is a heuristic: registered as C, B, A, the acyclic chain needs six
   * passes, so threshold 2 rejects it as circular after running A, while the default
   * threshold runs all three in dependency order.
   */
  lemma ChainNeedsEnoughPasses()
    ensures var r := Drain(ChainDependencies, AlwaysCompletes, 2, 0, [C, B, A], [], []);
      r.outcome == CircularDependency && r.executed == [A] && r.queue == [C, B]
    ensures var r := Drain(ChainDependencies, AlwaysCompletes, DefaultCircularDependencyThreshold, 0, [C, B, A], [], []);
      r.outcome == Completed && r.executed == [A, B, C]
  {
    ChainFirstPasses(2);
    DrainOneStep(ChainDependencies, AlwaysCompletes, 2, 3, [C, B], [A], [A]);
    ChainFirstPasses(DefaultCircularDependencyThreshold);
    ChainLastPasses();
  }
}
