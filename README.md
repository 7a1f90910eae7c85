# Task scheduler admission controller in Dafny

This project models the core of `TaskSchedulerImpl`, a scheduler that
admits tasks according to two rules at once:

- a readers-writer lock: any number of READ tasks may run together, but a
  WRITE runs alone;
- a mutex per group identifier (GID): two tasks of one group never run at
  the same time, whatever their kinds.

The scheduler keeps three pieces of lock state: the set of locked groups
(`activeGIDs`) and the counts of running READs and WRITEs. Around them sit:

- a FIFO ingress queue, filled by `submitTask`;
- a map from task UUID to result, read by `getResult`;
- a dispatcher thread. It takes the queue head, waits until `canExecute`
  holds, calls `markAsRunning` and hands the task to an executor. The
  executor's completion callback stores the result and calls
  `markAsFinished`.

Files:

- `task_types.dfy` (module `TaskTypes`): operation kinds, tasks and results.
- `admission.dfy` (module `Admission`): the lock state as a value. It
  defines `canExecute` (`CanExecute`) and the effects of `markAsRunning`
  and `markAsFinished` (`Acquired`, `Released`). It also relates the lock
  state to the tasks running at a moment:
  - `Abstraction` summarises a sequence of running tasks as a lock state;
  - `Exclusive` says that no two running tasks conflict;
  - the lemmas show that `CanExecute` admits a task exactly when the task
    can join the running ones without a conflict, and that admitting or
    finishing a task keeps the lock fields equal to the summary.
- `scheduler.dfy` (module `Scheduler`): class `TaskSchedulerImpl`. Its
  fields are `taskQueue`, `resultMap`, `activeGIDs`, `activeReadCount`,
  `activeWriteCount` and `candidate`. Its methods change those fields in
  place. The dispatcher loop is split into atomic steps, matching its
  critical sections:
  - `Take` is `taskQueue.take()`. The task taken becomes `candidate`,
    which is the loop's local `task`.
  - `TryAdmit` is one evaluation of `while (!canExecute(task))`. When the
    condition allows, it calls `markAsRunning`.
  - `Complete` is the completion callback.

  Any interleaving of the threads is a sequence of calls to these steps
  and to `SubmitTask`, and every step preserves `Valid()`. Ghost fields
  record what the threads do:
  - `submitted`: every task submitted, in order;
  - `admitted`: every task admitted, in order;
  - `running`: the tasks with the executor;
  - `completed`: the callbacks that have run, each with its task and the
    result it delivered.

  `Valid()` says four things:
  - the running tasks are exclusive;
  - the lock fields summarise the running tasks;
  - `admitted` followed by the pending tasks equals `submitted`, so
    admission follows FIFO order;
  - the result map is exactly what the completion callbacks stored, in
    order, a later callback for a UUID overwriting an earlier one.
- `scenarios.dfy` (module `Scenarios`): client runs that follow the
  project's tests. They prove their outcome from the step contracts alone.

Modelling choices:

- `OperationType.java` is not part of this model. `OperationType` has
  `Read` and `Write`, plus `Other`, which stands for any further non-null
  constant of the enumeration. `Other` exercises the `default` branches:
  such a task is never admitted and changes no counter. A null kind is not
  modelled (see "## Left out").
- UUIDs are natural numbers.
- A task's `execute` is opaque. The result it produces is a parameter of
  `Complete`.
- The code accepts tasks of an unknown kind at submission, and the
  dispatcher then waits on such a task forever. The model keeps this
  behaviour: `UnknownKindStalls` shows the stall.

## Model

| member | source | states |
|---|---|---|
| `Admission.CanExecute` | src/main/java/com/example/taskscheduler/core/TaskSchedulerImpl.java:69-81 | a task whose group is locked is refused whatever its kind; a kind other than READ/WRITE is refused; an admitted task sees no active WRITE, and an admitted WRITE also sees no active READ |
| `Admission.CanExecuteExactlyWhenSafe` | src/main/java/com/example/taskscheduler/core/TaskSchedulerImpl.java:69-81 | for exclusive running tasks, `canExecute` on their summary holds if and only if the task can join them and keep them exclusive: nothing safe is refused, nothing unsafe admitted |
| `Admission.Acquired` | src/main/java/com/example/taskscheduler/core/TaskSchedulerImpl.java:83-94 | the lock state after `markAsRunning`: the task's group is locked and no other group changes; the counter of the task's kind goes up by one and the other counter is unchanged; a kind other than READ/WRITE changes no counter |
| `Admission.Released` | src/main/java/com/example/taskscheduler/core/TaskSchedulerImpl.java:96-107 | the lock state after `markAsFinished`: the task's group is unlocked and no other group changes; its counters are undone by `Acquired` of the same task |
| `Admission.AcquiredRefusesConflict` | src/main/java/com/example/taskscheduler/core/TaskSchedulerImpl.java:69-93 | after `markAsRunning` of a READ or WRITE, every task incompatible with it (same group, or either one a WRITE) is refused |
| `Admission.AcquireReleaseRoundTrip` | src/main/java/com/example/taskscheduler/core/TaskSchedulerImpl.java:83-107 | `markAsFinished` after `markAsRunning` of a task whose group was free restores the group set and both counters exactly |
| `Admission.AdmittedTaskRoundTrip` | src/main/java/com/example/taskscheduler/core/TaskSchedulerImpl.java:48-53 | the round trip holds for every task `canExecute` admits |
| `Admission.ReleaseOfHeldGroupUnlocksIt` | src/main/java/com/example/taskscheduler/core/TaskSchedulerImpl.java:97 | without the free-group condition the round trip fails: the release unlocks a group another task still holds |
| `Admission.ExclusiveCounts` | src/main/java/com/example/taskscheduler/core/TaskSchedulerImpl.java:24-25 | for exclusive running tasks, at most one is a WRITE, and none is a READ when one is a WRITE |
| `Admission.AbstractionAppend` | src/main/java/com/example/taskscheduler/core/TaskSchedulerImpl.java:83-94 | `markAsRunning` changes the summary of the running tasks exactly as appending the task to them does |
| `Admission.AdmitKeepsExclusive` | src/main/java/com/example/taskscheduler/core/TaskSchedulerImpl.java:48-53 | admitting a task that passes `canExecute` keeps the running tasks exclusive and keeps the lock state equal to their summary |
| `Admission.FinishKeepsExclusive` | src/main/java/com/example/taskscheduler/core/TaskSchedulerImpl.java:96-107 | finishing any running task keeps the rest exclusive; the lock state after `markAsFinished` is the summary of the tasks still running |
| `Scheduler.TaskSchedulerImpl.constructor` | src/main/java/com/example/taskscheduler/core/TaskSchedulerImpl.java:17-25 | a new scheduler has an empty queue, result map and group set, both counters 0, and satisfies the invariant |
| `Scheduler.TaskSchedulerImpl.ExclusionHolds` | src/main/java/com/example/taskscheduler/core/TaskSchedulerImpl.java:19-25 | in every reachable state `activeWriteCount` is 0 or 1, `activeReadCount` is 0 while a WRITE runs, no two running tasks share a group, and `activeGIDs` is exactly the groups of the running tasks |
| `Scheduler.TaskSchedulerImpl.FifoAdmission` | src/main/java/com/example/taskscheduler/core/TaskSchedulerImpl.java:44-53 | the admitted tasks are the oldest submitted ones in order; the oldest task not yet admitted is the dispatcher's candidate or the queue head |
| `Scheduler.StoredResults` | src/main/java/com/example/taskscheduler/core/TaskSchedulerImpl.java:55-56 | the result map built by a log of callbacks has as keys exactly the UUIDs of the logged tasks |
| `Scheduler.StoredResultOfUniqueUuid` | src/main/java/com/example/taskscheduler/core/TaskSchedulerImpl.java:55-56 | a callback whose UUID occurs once in the log left its own result in the map |
| `Scheduler.TaskSchedulerImpl.ResultOfCompletedTask` | src/main/java/com/example/taskscheduler/core/TaskSchedulerImpl.java:39-41 | in every reachable state, `getResult` of a completed task whose UUID no other completed task shares answers the result its callback delivered |
| `Scheduler.TaskSchedulerImpl.SubmitTask` | src/main/java/com/example/taskscheduler/core/TaskSchedulerImpl.java:34-36 | the task is appended at the tail of the queue; nothing else changes |
| `Scheduler.TaskSchedulerImpl.GetResult` | src/main/java/com/example/taskscheduler/core/TaskSchedulerImpl.java:39-41 | answers the stored result for a known UUID and `None` (Java's null) otherwise |
| `Scheduler.TaskSchedulerImpl.MarkAsRunning` | src/main/java/com/example/taskscheduler/core/TaskSchedulerImpl.java:83-94 | adds the group to `activeGIDs` and increments exactly the counter of the task's kind (neither for another kind) |
| `Scheduler.TaskSchedulerImpl.MarkAsFinished` | src/main/java/com/example/taskscheduler/core/TaskSchedulerImpl.java:96-107 | removes the group from `activeGIDs` and decrements exactly the counter of the task's kind |
| `Scheduler.TaskSchedulerImpl.Take` | src/main/java/com/example/taskscheduler/core/TaskSchedulerImpl.java:46 | with no candidate and a non-empty queue the head becomes the candidate; otherwise nothing changes; the order of pending tasks is kept |
| `Scheduler.TaskSchedulerImpl.TryAdmit` | src/main/java/com/example/taskscheduler/core/TaskSchedulerImpl.java:48-53 | admits a task if and only if there is a candidate and it passes `canExecute`; only the oldest pending task is ever admitted; it is marked running; otherwise nothing changes; the invariant is kept |
| `Scheduler.TaskSchedulerImpl.Complete` | src/main/java/com/example/taskscheduler/core/TaskSchedulerImpl.java:55-61 | stores the result under the task's UUID, so `getResult` answers it, and logs the callback; then releases the task's group and counter; the task leaves the running ones; the invariant is kept |
| `Scenarios.ResultRetrieval` | src/test/java/com/example/taskscheduler/TaskSchedulerImplTest.java:34-42 | a submitted READ runs, and after its callback `getResult` answers its result and the lock is free again |
| `Scenarios.ConcurrentReads` | src/test/java/com/example/taskscheduler/TaskSchedulerImplTest.java:136-167 | two READs of different groups are both admitted and run at the same time |
| `Scenarios.ConflictWaits` | src/test/java/com/example/taskscheduler/TaskSchedulerImplTest.java:62-133 | of two conflicting tasks (same group, or a WRITE involved), the second is refused while the first runs |
| `Scenarios.ConflictAdmittedAfterRelease` | src/main/java/com/example/taskscheduler/core/TaskSchedulerImpl.java:48-60 | the waiting task is admitted on the next check after the first task's callback, and the first task's result is stored |
| `Scenarios.HeadOfLineBlocking` | src/main/java/com/example/taskscheduler/core/TaskSchedulerImpl.java:46-53 | a WRITE waiting behind a READ holds up a later READ of another group, although that READ passes `canExecute` |
| `Scenarios.UnknownKindStalls` | src/main/java/com/example/taskscheduler/core/TaskSchedulerImpl.java:78-79 | a task of an unknown kind is never admitted; it stays the candidate and the tasks behind it stay queued |

## Left out

- Threads: the daemon dispatcher thread, `synchronized (lock)`,
  `wait`/`notifyAll` and interrupts. Each critical section is one atomic
  method. A blocked `take()` or `wait()` is a step that changes nothing,
  and interleavings are arbitrary sequences of steps.
- Complete: it joins two steps of the callback into one, the
  unsynchronised `resultMap.put` (TaskSchedulerImpl.java:56) and the
  synchronised release (:57-60). This is sound: the put touches no lock
  field, and `getResult` reads none. The model does not show the moment
  between the two, when the result is visible but the group still held.
- Interrupt handling (`InterruptedException`, TaskSchedulerImpl.java:63-64):
  out of scope with the threads. The model does not capture what an
  interrupt does. An interrupt during `wait()` drops the candidate. The
  catch also sets the interrupt flag again, so every later `take()` throws
  at once: the dispatcher then spins forever and admits nothing more.
- Null values: UUIDs, groups, kinds and results are never null in the
  model, and `Complete` always releases. In the code:
  - `submitTask(null)` throws at :35;
  - `getResult(null)` throws at :40;
  - a task with a null group or kind throws inside `canExecute` (:70,
    :73). Only `InterruptedException` is caught (:63), so the dispatcher
    thread dies and no later task is admitted;
  - a null UUID or a null result from `execute` makes `resultMap.put`
    throw at :56, before `markAsFinished` at :58, so the group and
    counter stay held forever.
- The concurrent collections (`LinkedBlockingQueue`, `ConcurrentHashMap`):
  modelled by a sequence, a map and a set.
- `SimpleExecutor` and the worker pool: "running" is the ghost sequence of
  admitted tasks whose callback has not yet run. Execution failures are
  not modelled: an `execute` that throws skips the callback, and its group
  and counter stay held.
- `SampleTask`, `Thread.sleep` and `UUID.randomUUID`: a task is its UUID,
  group and kind. Its result is supplied to `Complete`.
- Liveness: that every submitted task eventually gets a result. The model
  proves the steps safe. `ConflictAdmittedAfterRelease` shows one
  unblocking run but not progress in general.
- MarkAsRunning: Java's `int` counters could wrap past 2^31 - 1 running
  READs. The model uses unbounded integers, since the number of running
  READs is bounded by the threads in practice.
- The timing-based test harness (sleeps, latches, thread pools) and the
  FIFO test at TaskSchedulerImplTest.java:169-194. That test asserts only
  that all three tasks ran; `FifoAdmission` states the order instead.
