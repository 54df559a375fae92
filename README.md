# Foundations startup-task scheduler, in Dafny

This project models the core of the Foundations library (C#) and proves properties of it:

- `StartupTasker` (Foundations.Bootstrap). It holds a FIFO queue of startup-task types, the
  list of task types already executed, and an iteration threshold (default 500).
  `RunTasks` drains the queue. A task runs once all its `[Dependency]` types have run. A task
  whose unmet dependency is neither executed nor queued raises `MissingDependencyException`.
  Any other task that is not ready goes back to the end of the queue. A counter of passes
  raises `CircularDependencyException` once it exceeds the threshold while tasks remain.
  The model proves that every call ends within threshold + 1 passes, and that the call
  accepts every acyclic set of registered, executable tasks, queued in any order, once the
  threshold is large enough for it.
- `EnumerableExtensions.IsSubsetOf`, the readiness test, and `IntersectIsEmptySet`.
- `ListExtensions.AddUnique`, which appends to a list the distinct items it lacks.
- `TypeMapper.MapTypes`, which matches an argument type against a parameter type. It binds
  generic parameters to concrete types in a dictionary, and a conflicting binding throws.

Files:

- `wrappers.dfy`: the `Option` type.
- `enumerable_extensions.dfy`: module `EnumerableExtensions`.
- `list_extensions.dfy`: module `ListExtensions`. A .NET `List<T>` is the class `List` with a
  `seq` field. `AddUnique` is a method that changes it in place.
- `type_mapper.dfy`: module `TypeMapping`. .NET types are the datatype `Ty` (generic
  parameter, generic type with type arguments, other type with a base type). The class
  `TypeMapper` holds the dictionary as a `map` field. Its recursive method `MapTypes` is proved
  equal to the function `Map`.
- `startup_tasker.dfy`: module `Bootstrap`. The class `StartupTasker` has the queue and the
  executed list as `seq` fields. A ghost `trace` records every attempted execution.
  `RunTasks` is the `while` loop of the source. It is proved equal to the function `Drain`,
  which is built from the one-pass function `NextStep`.
- `tasker_scenarios.dfy`: the cases of `TaskerTests.cs`, a two-task cycle, a self-dependency
  and an acyclic chain that a low threshold rejects.

Modelling choices:

- Task identities are a type parameter `Id` with equality.
- The `[Dependency]` attributes become a function `deps: Id -> seq<Id>`, given when the
  scheduler is built, because attributes are fixed per type.
- Resolving a task through the service locator and calling `Execute` become a function
  `completes: Id -> bool`. False means one of them threw. The exception then leaves
  `RunTasks` with the task dequeued and not recorded (outcome `TaskFailed`).
- Exceptions are values of `Outcome` and `MapError`, or the `Outcome` of `AddUnique`.
- The code keeps the executed list in an instance field. So it persists across repeated
  `RunTasks` calls on the same object, and a later call treats those tasks as already run.
  The pass counter is local to each call.

## Model

| member | source | states |
|---|---|---|
| `EnumerableExtensions.IsSubsetOf` | Foundations/Extensions/EnumerableExtensions.cs:29-34 | true exactly when every element of the first collection occurs in the second |
| `EnumerableExtensions.IntersectIsEmptySet` | Foundations/Extensions/EnumerableExtensions.cs:15-20 | true exactly when some element of the first collection is missing from the second |
| `EnumerableExtensions.IntersectionIsEmpty` | Foundations/Extensions/EnumerableExtensions.cs:9-14 | the documented meaning: true exactly when no element of the first collection is in the second |
| `EnumerableExtensions.IsSubsetOfEmptyAndReflexive` | Foundations/Extensions/EnumerableExtensions.cs:33 | the empty collection is a subset of anything; every collection is a subset of itself |
| `EnumerableExtensions.IsSubsetOfDependsOnlyOnMembership` | Foundations/Extensions/EnumerableExtensions.cs:33 | collections with the same members give the same answer, whatever the order or duplicates |
| `EnumerableExtensions.IsSubsetOfTransitive` | Foundations/Extensions/EnumerableExtensions.cs:29-34 | the relation is transitive |
| `EnumerableExtensions.IntersectIsEmptySetIsNotSubset` | Foundations/Extensions/EnumerableExtensions.cs:15-20 | IntersectIsEmptySet is exactly the negation of IsSubsetOf |
| `EnumerableExtensions.IntersectIsEmptySetMisreports` | Foundations/Extensions/EnumerableExtensions.cs:14-19 | IntersectIsEmptySet answers "empty" for [1, 2] and [1], which share 1, and "not empty" for [] and [3], which share nothing |
| `ListExtensions.Distinct` | Foundations/Extensions/ListExtensions.cs:24-25 | the result has the same members as the input and no duplicates |
| `ListExtensions.Without` | Foundations/Extensions/ListExtensions.cs:26 | the result holds exactly the input's elements that are not in the list; a duplicate-free input gives a duplicate-free result |
| `ListExtensions.List.constructor` | Foundations/Extensions/ListExtensions.cs:16-17 | a list holding the given items |
| `ListExtensions.AddUnique` | Foundations/Extensions/ListExtensions.cs:15-29 | a null list raises NullReferenceException; a null item list raises ArgumentNullException and changes nothing; otherwise the old contents stay as a prefix, followed by the distinct new items in first-occurrence order |
| `ListExtensions.AddRangeFiltered` | Foundations/Extensions/ListExtensions.cs:24-28 | the list as `AddRange` grows it over the lazy filter, each item tested against the list so far; its contract is AddRangeFilteredIsUnique |
| `ListExtensions.AddRangeFilteredIsUnique` | Foundations/Extensions/ListExtensions.cs:24-28 | testing each item against the list as `AddRange` grows it appends the same items as Distinct followed by a filter against the list before the call |
| `ListExtensions.UniqueNewItems` | Foundations/Extensions/ListExtensions.cs:24-26 | an item is appended exactly when it is among the items to add and not in the list before; none is appended twice |
| `ListExtensions.AllItemsPresentAfter` | Foundations/Extensions/ListExtensions.cs:24-28 | after the call every item to add is in the list |
| `ListExtensions.NoDuplicatesPreserved` | Foundations/Extensions/ListExtensions.cs:24-28 | a list without duplicates has none after the call |
| `ListExtensions.AddUniqueIdempotent` | Foundations/Extensions/ListExtensions.cs:24-28 | a second call with the same items appends nothing |
| `TypeMapping.TypeMapper.constructor` | Foundations/Extensions/TypeMapper.cs:12-13 | the dictionary starts empty |
| `TypeMapping.TypeMapper.MapTypes` | Foundations/Extensions/TypeMapper.cs:15-59 | the new dictionary and the exception raised (if any) are those of the function Map on the old dictionary; bindings made before an exception stay |
| `TypeMapping.Map` | Foundations/Extensions/TypeMapper.cs:15-59 | the new dictionary and the exception of one MapTypes call; its contract is MapNullArgument, MapGenericParameter, MapOtherParameter, MapViaBaseType, MapGrows, MapStable and MapPairwise |
| `TypeMapping.MapPairs` | Foundations/Extensions/TypeMapper.cs:53-56 | the loop over the type arguments from a given index; its contract is MapPairsGrows, MapPairsStable and MapPairsBinds |
| `TypeMapping.MapNullArgument` | Foundations/Extensions/TypeMapper.cs:19-22 | a null argument type leaves the dictionary unchanged |
| `TypeMapping.MapGenericParameter` | Foundations/Extensions/TypeMapper.cs:24-37 | an unbound generic parameter is bound to the argument; one bound to the same type changes nothing; one bound to another type raises ArgumentException |
| `TypeMapping.MapOtherParameter` | Foundations/Extensions/TypeMapper.cs:39 | a parameter that is neither a generic parameter nor a generic type binds nothing |
| `TypeMapping.MapViaBaseType` | Foundations/Extensions/TypeMapper.cs:41-44 | a generic parameter type against a non-generic argument is matched against the argument's base type |
| `TypeMapping.MapGrows` | Foundations/Extensions/TypeMapper.cs:26-37 | existing entries are never removed or overwritten, even when an exception ends the call; every new key is a generic parameter |
| `TypeMapping.MapPairsGrows` | Foundations/Extensions/TypeMapper.cs:53-56 | the same for the loop over the type arguments from any index on |
| `TypeMapping.MapStable` | Foundations/Extensions/TypeMapper.cs:15-59 | a successful match repeated on any dictionary that keeps its bindings succeeds and adds nothing; in particular repeating it is a no-op |
| `TypeMapping.MapPairsStable` | Foundations/Extensions/TypeMapper.cs:53-56 | the same for the loop over the type arguments |
| `TypeMapping.MapPairwise` | Foundations/Extensions/TypeMapper.cs:47-56 | when both types are generic and the match succeeds, the argument has at least as many type arguments, and each generic parameter among the parameter's type arguments is bound to the argument's type argument at the same index |
| `TypeMapping.MapPairsBinds` | Foundations/Extensions/TypeMapper.cs:53-56 | the same from any loop index on |
| `Bootstrap.FirstMissing` | Foundations.Bootstrap/StartupTasker.cs:69-81 | the first unmet dependency that is not queued, if any; its contract is FirstMissingFinds |
| `Bootstrap.FirstMissingFinds` | Foundations.Bootstrap/StartupTasker.cs:69-81 | FirstMissing finds nothing exactly when every dependency is executed or queued; otherwise it names the first dependency, in declaration order, that is neither |
| `Bootstrap.NextStep` | Foundations.Bootstrap/StartupTasker.cs:53-57 | a pass acts on the task at the front of the queue |
| `Bootstrap.NextStepDecides` | Foundations.Bootstrap/StartupTasker.cs:59-87 | the dequeued task runs (or its execution throws) exactly when all its dependencies are executed; MissingDependency is raised exactly when one of them is neither executed nor in the rest of the queue, and names such a dependency |
| `Bootstrap.FindMissingDependency` | Foundations.Bootstrap/StartupTasker.cs:69-81 | the `foreach` loop returns the dependency FirstMissing specifies |
| `Bootstrap.StartupTasker.constructor` | Foundations.Bootstrap/StartupTasker.cs:18-21 | empty queue and executed list; the threshold is the argument, 500 by default |
| `Bootstrap.StartupTasker.AddStartupTask` | Foundations.Bootstrap/StartupTasker.cs:23-27 | appends one identity to the back of the queue and changes nothing else |
| `Bootstrap.StartupTasker.AddAssemblyStartupTasks` | Foundations.Bootstrap/StartupTasker.cs:29-40 | appends the discovered startup tasks in discovery order and changes nothing else |
| `Bootstrap.StartupTasker.RunTasks` | Foundations.Bootstrap/StartupTasker.cs:42-91 | outcome and new state are those of Drain from counter 0; the executed list only grows at the end; a normal return leaves the queue empty; the executed list stays in dependency order |
| `Bootstrap.DrainKeepsDependencyOrder` | Foundations.Bootstrap/StartupTasker.cs:46-90 | an executed list in dependency order stays in dependency order and only grows at the end; a normal return leaves the queue empty |
| `Bootstrap.ExportedTypes` | Foundations.Bootstrap/StartupTasker.cs:31-32 | the result holds exactly the types of the given assemblies |
| `Bootstrap.Filter` | Foundations.Bootstrap/StartupTasker.cs:33 | the result holds exactly the elements that pass, and is no longer than the input |
| `Bootstrap.StartupTaskTypes` | Foundations.Bootstrap/StartupTasker.cs:31-34 | a type is discovered exactly when some given assembly exports it and it passes the startup-task filter |
| `Bootstrap.StartupTaskTypesInAssemblyOrder` | Foundations.Bootstrap/StartupTasker.cs:31-39 | discovery keeps assembly order: the tasks of a concatenation are those of the first part followed by those of the second |
| `Bootstrap.Drain` | Foundations.Bootstrap/StartupTasker.cs:46-90 | the `while` loop of RunTasks from a given pass count; its contract is the Drain lemmas below and RunTasks' ensures |
| `Bootstrap.DrainOneStep` | Foundations.Bootstrap/StartupTasker.cs:46-89 | an exceeded threshold throws before any dequeue; a ready task is appended to the executed list; a task that is not ready goes back unchanged to the back of the queue and nothing else is added |
| `Bootstrap.DrainKeepsExecuted` | Foundations.Bootstrap/StartupTasker.cs:59-65 | the executed list only grows at the end: no entry is removed or reordered |
| `Bootstrap.DrainExecutesOnlyReady` | Foundations.Bootstrap/StartupTasker.cs:59-65 | each task executed during the call, or whose execution threw, had all its dependencies executed before it |
| `Bootstrap.DrainTracesExecutions` | Foundations.Bootstrap/StartupTasker.cs:63-64 | the trace of attempted executions grows by exactly the tasks added to the executed list, plus the task whose execution threw, if any |
| `Bootstrap.DrainConservesTasks` | Foundations.Bootstrap/StartupTasker.cs:53-84 | no queue entry is lost or invented: each is still queued, executed, or the one an exception took out |
| `Bootstrap.DrainCompletedRunsEachEntryOnce` | Foundations.Bootstrap/StartupTasker.cs:46-90 | on a normal return the queue is empty and each queue entry has run exactly once, so an identity queued twice runs twice |
| `Bootstrap.DrainIterationBound` | Foundations.Bootstrap/StartupTasker.cs:44-51 | at most threshold + 1 dequeues (none for a negative threshold); a normal return leaves the queue empty; CircularDependencyException leaves tasks queued after exactly that many dequeues |
| `Bootstrap.DrainMissingDependency` | Foundations.Bootstrap/StartupTasker.cs:69-81 | MissingDependencyException(t, d) is raised only when d is a declared dependency of t that never ran and is not queued |
| `Bootstrap.DrainReadyTasksInQueueOrder` | Foundations.Bootstrap/StartupTasker.cs:46-65 | a front part of the queue whose tasks are each ready once the tasks before them have run (and whose execution succeeds) runs entry by entry in queue order, whatever is queued behind it, taking one pass per entry; an identity queued twice runs twice |
| `Bootstrap.DrainClosedNeverMissing` | Foundations.Bootstrap/StartupTasker.cs:69-81 | when every dependency of every queued task is another task that is executed or queued, MissingDependencyException is never raised |
| `Bootstrap.DrainRotatesUnready` | Foundations.Bootstrap/StartupTasker.cs:83-89 | in such a queue, the tasks in front of the first ready one each go to the back, one pass each, leaving the queue rotated |
| `Bootstrap.DrainCompletesAcyclic` | Foundations.Bootstrap/StartupTasker.cs:44-90 | when, in addition, a rank falls along every dependency (no cycle) and every task executes, the call returns normally, whatever the order of the queue, once the threshold allows 1 + 2 + ... + n passes for n queued tasks |
| `TaskerScenarios.DummyRunsAlone` | Foundations.Test/TaskerTests.cs:17-31 | Dummy alone runs in one pass and the call returns normally |
| `TaskerScenarios.NoDependenciesTest` | Foundations.Test/TaskerTests.cs:17-31 | the same registration through the class's methods executes Dummy |
| `TaskerScenarios.MixedDependenciesRunInDependencyOrder` | Foundations.Test/TaskerTests.cs:33-58 | queued as WithAnotherDependency, WithDependency, Dummy, the tasks run as Dummy, WithDependency, WithAnotherDependency, in six dequeues |
| `TaskerScenarios.DependencyRunsFirst` | Foundations.Test/TaskerTests.cs:60-80 | queued as WithDependency, Dummy, the tasks run as Dummy, WithDependency |
| `TaskerScenarios.TestDependencyOrderIsForced` | Foundations.Test/TaskerTests.cs:94-104 | Dummy, WithDependency, WithAnotherDependency is the only order of the three tasks of TaskerTests.cs in which each follows its dependencies |
| `TaskerScenarios.Recorded` | Foundations.Test/Mocks/TestStartupTask.cs:5-11 | the names a run records are exactly its executed tasks other than TestStartupTask, whose `Execute` only counts calls, in the same order and number |
| `TaskerScenarios.RecordedKeepsOrder` | Foundations.Test/TaskerTests.cs:146-163 | no test task depends on TestStartupTask, so leaving it out of a run in dependency order leaves a run in dependency order |
| `TaskerScenarios.TestTasksAreAcyclic` | Foundations.Test/TaskerTests.cs:131-163 | the four startup tasks of the test assembly depend only on each other, and a rank falls along every dependency |
| `TaskerScenarios.AnyDiscoveryOrderRunsInDependencyOrder` | Foundations.Test/TaskerTests.cs:82-105 | the four startup tasks of the test assembly (the three of TaskerTests.cs and TestStartupTask), queued in any order, complete under the default threshold; each runs once, and the names recorded are Dummy, WithDependency, WithAnotherDependency |
| `TaskerScenarios.ManyDependenciesTest` | Foundations.Test/TaskerTests.cs:82-105 | the same through the class's methods, for any assemblies and filter whose discovery yields those four tasks, once each, in any order |
| `TaskerScenarios.UnregisteredDependencyIsMissing` | Foundations.Test/TaskerTests.cs:107-116 | WithDependency alone raises MissingDependency(WithDependency, Dummy) and nothing runs |
| `TaskerScenarios.MixedDependenciesTest` | Foundations.Test/TaskerTests.cs:33-58 | the same registration through the class's methods completes in that order |
| `TaskerScenarios.MissingDependencyTest` | Foundations.Test/TaskerTests.cs:107-116 | the same registration through the class's methods raises MissingDependency with nothing executed |
| `TaskerScenarios.SelfDependencyIsMissing` | Foundations.Bootstrap/StartupTasker.cs:72-80 | a task that depends only on itself is reported as its own missing dependency, not as a cycle |
| `TaskerScenarios.CycleIsReportedAfterThreshold` | Foundations.Bootstrap/StartupTasker.cs:44-51 | two tasks that depend on each other raise CircularDependencyException after exactly threshold + 1 dequeues, with neither run |
| `TaskerScenarios.ChainNeedsEnoughPasses` | Foundations.Bootstrap/StartupTasker.cs:44-51 | an acyclic chain queued in reverse is rejected as circular with threshold 2 after running only its first task, and runs fully in dependency order with the default threshold |

## Left out

- Bootstrap.StartupTasker.RunTasks: the pass counter is unbounded. In the source it is a 32-bit `int`, and with a threshold of `int.MaxValue` it would wrap after 2^31 passes and never throw. The model always throws after threshold + 1 passes.
- Bootstrap.StartupTasker.RunTasks: whether resolving and executing a task succeeds is a function of the identity (`completes`). What `Execute` does is not modelled. A task that succeeds once and throws the next time is not modelled either.
- Bootstrap.StartupTasker.AddAssemblyStartupTasks: the exported types of each assembly and the `IsInstantiableConcreteImplementation` filter are parameters, because both come from reflection. The test that discovers the tasks of the test assembly (TaskerTests.cs:82-105) therefore takes the discovery result as given: the four public, concrete startup tasks that assembly declares (the three of TaskerTests.cs and TestStartupTask of Mocks/TestStartupTask.cs), once each, in any order. The reflection that finds them is not modelled.
- Bootstrap.StartupTasker.RunTasks: a null service locator is not modelled separately. It throws only when a task runs, and `completes` returning false covers that case.
- The order of the `[Dependency]` attributes that .NET reflection reports is taken as given by `deps`. The order matters only for which missing dependency is named first.
- TypeMapping.MapTypes: `BaseType` of a generic parameter or of a generic type is taken as null. Argument types come from `GetType()` on values, so they are never generic parameters, and the base type of a generic argument is never asked for. A null parameter type, which would throw NullReferenceException, is not modelled. Type identity is structural equality of `Ty` values.
- The caller of `MapTypes` in Foundations/Extensions/TypeExtensions.cs (building a generic method from the bindings) is not part of this model.
- ListExtensions.AddUnique: `AddRange` grows the list one item at a time while the lazy filter runs. The model tests each item against a local copy of the growing list and stores it once at the end. No other code runs in between, so the appended items are the same. The hash set inside `Distinct` is not modelled: every item it has already yielded is in the list by then, so the list test rejects it too. The item list is read once at the start. When it is the same list as the target, nothing is appended in either version.
- EnumerableExtensions.IsSubsetOf, EnumerableExtensions.IntersectIsEmptySet and Bootstrap.StartupTasker.AddAssemblyStartupTasks: null collections are not modelled, because sequences cannot be null. In the source a null first collection makes `IsSubsetOf` and `IntersectIsEmptySet` throw ArgumentNullException (EnumerableExtensions.cs:19,33). A null second collection throws only once an element is tested, so an empty first collection still gives true. A null assembly list makes `SelectMany` throw ArgumentNullException (StartupTasker.cs:31-32). Every caller in the repository passes non-null values.
- The rest of the repository is not part of this model: container wiring, HTTP, serialization, cryptography, and reflection helpers. These are I/O, wrappers over external libraries, or `System.Reflection` behaviour.

## Findings

| source | as written | input that shows it | evidently intended | confidence | as-written member | corrected member |
|---|---|---|---|---|---|---|
| Foundations/Extensions/EnumerableExtensions.cs:15-20 | `IntersectIsEmptySet` returns `!instance.All(set.Contains)`: true when some element of `instance` is missing from `set` | `[1, 2]` and `[1]` give true although both hold 1; `[]` and `[3]` give false although they share nothing | true exactly when the two collections share no element, as the name and doc comment (lines 9-14) say | not executed; high that the code disagrees with its documentation, and the method has no caller in the repository | `EnumerableExtensions.IntersectIsEmptySetMisreports` | `EnumerableExtensions.IntersectionIsEmpty` |
