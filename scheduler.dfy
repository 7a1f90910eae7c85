/**
 * The scheduler object: the ingress queue, the result map and the lock
 * state, with the operations of TaskSchedulerImpl.
 *
 * The dispatcher thread's loop is split into its atomic steps, each a
 * method that runs under the monitor in one piece: `Take` (taking the
 * queue head), `TryAdmit` (one evaluation of the wait loop's condition,
 * followed by markAsRunning when it holds) and `Complete` (the completion
 * callback). Any interleaving of threads is a sequence of calls to these
 * methods and `SubmitTask`, and each preserves `Valid()`.
 */
module Scheduler {
  import opened TaskTypes
  import opened Admission

  /** The result map that the callbacks in `log` build, in order, each
      one putting its result under its task's UUID. */
  function StoredResults(log: seq<Completion>): (m: map<Uuid, Result>)
    ensures m.Keys == set i | 0 <= i < |log| :: log[i].task.uuid
  {
    if log == [] then map[]
    else
      var prefix := log[..|log| - 1];
      var last := log[|log| - 1];
      assert forall i :: 0 <= i < |prefix| ==> prefix[i] == log[i];
      StoredResults(prefix)[last.task.uuid := last.result]
  }

  /** One more callback puts its result over what the earlier ones stored. */
  lemma StoredResultsAppend(log: seq<Completion>, c: Completion)
    ensures StoredResults(log + [c]) == StoredResults(log)[c.task.uuid := c.result]
  {
    assert (log + [c])[..|log|] == log;
  }

  /** A callback whose UUID occurs once in the log left its own result in
      the map: no other callback overwrote it. */
  lemma {:induction false} StoredResultOfUniqueUuid(log: seq<Completion>, i: nat)
    requires i < |log|
    requires forall j :: 0 <= j < |log| && j != i ==> log[j].task.uuid != log[i].task.uuid
    ensures log[i].task.uuid in StoredResults(log)
    ensures StoredResults(log)[log[i].task.uuid] == log[i].result
  {
    if i < |log| - 1 {
      var prefix := log[..|log| - 1];
      assert prefix[i] == log[i];
      assert forall j :: 0 <= j < |prefix| && j != i ==> prefix[j] == log[j];
      StoredResultOfUniqueUuid(prefix, i);
    }
  }

  class TaskSchedulerImpl {
    var taskQueue: seq<Task>
    var resultMap: map<Uuid, Result>
    var activeGIDs: set<Gid>
    var activeReadCount: int
    var activeWriteCount: int
    /** The dispatch loop's local `task`: taken from the queue and waiting
        for admission. */
    var candidate: Option<Task>

    /** Every task ever submitted, in submission order. */
    ghost var submitted: seq<Task>
    /** Every task admitted so far, in admission order. */
    ghost var admitted: seq<Task>
    /** The tasks handed to the executor whose callback has not yet run. */
    ghost var running: seq<Task>
    /** The completion callbacks that have run, in that order. */
    ghost var completed: seq<Completion>

    /** The lock state held in the three lock fields. */
    function Lock(): LockState
      reads this
    {
      LockState(activeGIDs, activeReadCount, activeWriteCount)
    }

    /** The tasks submitted but not yet admitted, oldest first. */
    function Pending(): seq<Task>
      reads this
    {
      (if candidate.Some? then [candidate.value] else []) + taskQueue
    }

    /** The scheduler's invariant:
        - no two running tasks conflict (readers-writer plus group mutex);
        - the lock fields are exactly the summary of the running tasks;
        - admission order is submission order: what was admitted, followed
          by what is pending, is what was submitted;
        - the result map is exactly what the completion callbacks stored,
          a later callback for a UUID overwriting an earlier one. */
    ghost predicate Valid()
      reads this
    {
      && Exclusive(running)
      && Lock() == Abstraction(running)
      && submitted == admitted + Pending()
      && resultMap == StoredResults(completed)
    }

    constructor ()
      ensures Valid()
      ensures taskQueue == [] && resultMap == map[] && candidate == None
      ensures Lock() == LockState({}, 0, 0)
      ensures submitted == [] && admitted == [] && running == [] && completed == []
    {
      taskQueue := [];
      resultMap := map[];
      activeGIDs := {};
      activeReadCount := 0;
      activeWriteCount := 0;
      candidate := None;
      submitted := [];
      admitted := [];
      running := [];
      completed := [];
    }

    /** Under the invariant the counters obey the readers-writer rule and no
        group is held twice. */
    lemma ExclusionHolds()
      requires Valid()
      ensures 0 <= activeWriteCount <= 1 && 0 <= activeReadCount
      ensures activeWriteCount > 0 ==> activeReadCount == 0
      ensures forall i, j :: 0 <= i < j < |running| ==> running[i].gid != running[j].gid
      ensures activeGIDs == Gids(running)
    {
      ExclusiveCounts(running);
    }

    /** Admission is strictly in submission order: the admitted tasks are
        the oldest submitted ones, and the oldest task not yet admitted is
        the dispatcher's candidate or, without one, the queue head. */
    lemma FifoAdmission()
      requires Valid()
      ensures |admitted| <= |submitted|
      ensures forall i :: 0 <= i < |admitted| ==> admitted[i] == submitted[i]
      ensures |admitted| < |submitted| ==>
                submitted[|admitted|] == (if candidate.Some? then candidate.value else taskQueue[0])
    {
      assert submitted[|admitted|..] == Pending();
    }

    /** A task whose UUID no other completed task shares can be looked up
        with getResult, which answers the result its callback delivered. */
    lemma ResultOfCompletedTask(i: nat)
      requires Valid()
      requires i < |completed|
      requires forall j :: 0 <= j < |completed| && j != i ==> completed[j].task.uuid != completed[i].task.uuid
      ensures GetResult(completed[i].task.uuid) == Some(completed[i].result)
    {
      StoredResultOfUniqueUuid(completed, i);
    }

    /** submitTask: append the task at the tail of the queue. */
    method SubmitTask(task: Task)
      requires Valid()
      modifies this`taskQueue, this`submitted
      ensures Valid()
      ensures taskQueue == old(taskQueue) + [task]
      ensures submitted == old(submitted) + [task]
    {
      taskQueue := taskQueue + [task];
      submitted := submitted + [task];
    }

    /** getResult: the stored result, `None` where Java answers null. */
    function GetResult(uuid: Uuid): (r: Option<Result>)
      reads this
      ensures r.Some? <==> uuid in resultMap
      ensures r.Some? ==> r.value == resultMap[uuid]
    {
      if uuid in resultMap then Some(resultMap[uuid]) else None
    }

    /** markAsRunning: lock the task's group and count it. */
    method MarkAsRunning(task: Task)
      modifies this`activeGIDs, this`activeReadCount, this`activeWriteCount
      ensures Lock() == Acquired(old(Lock()), task)
    {
      activeGIDs := activeGIDs + {task.gid};
      match task.kind
      case Read => activeReadCount := activeReadCount + 1;
      case Write => activeWriteCount := activeWriteCount + 1;
      case Other =>
    }

    /** markAsFinished: unlock the task's group and uncount it. */
    method MarkAsFinished(task: Task)
      modifies this`activeGIDs, this`activeReadCount, this`activeWriteCount
      ensures Lock() == Released(old(Lock()), task)
    {
      activeGIDs := activeGIDs - {task.gid};
      match task.kind
      case Read => activeReadCount := activeReadCount - 1;
      case Write => activeWriteCount := activeWriteCount - 1;
      case Other =>
    }

    /** The dispatcher's `taskQueue.take()`: when it holds no candidate and
        the queue is not empty, the head becomes the candidate. Otherwise
        the dispatcher is blocked (or busy waiting) and nothing changes.
        Either way the pending tasks keep their order. */
    method Take() returns (took: bool)
      requires Valid()
      modifies this`taskQueue, this`candidate
      ensures Valid()
      ensures took <==> old(candidate).None? && old(taskQueue) != []
      ensures took ==> candidate == Some(old(taskQueue)[0]) && taskQueue == old(taskQueue)[1..]
      ensures !took ==> candidate == old(candidate) && taskQueue == old(taskQueue)
      ensures Pending() == old(Pending())
    {
      if candidate.None? && taskQueue != [] {
        candidate := Some(taskQueue[0]);
        taskQueue := taskQueue[1..];
        took := true;
      } else {
        took := false;
      }
    }

    /** One pass of the dispatcher's critical section: if the candidate can
        execute, mark it running and hand it to the executor; otherwise the
        dispatcher waits and nothing changes. Only the candidate, the oldest
        pending task, is ever considered. */
    method TryAdmit() returns (started: Option<Task>)
      requires Valid()
      modifies this`activeGIDs, this`activeReadCount, this`activeWriteCount
      modifies this`candidate, this`admitted, this`running
      ensures Valid()
      ensures started.Some? <==> old(candidate).Some? && CanExecute(old(Lock()), old(candidate).value)
      ensures started.Some? ==>
                && started == old(candidate)
                && started.value == old(Pending())[0]
                && candidate == None
                && Lock() == Acquired(old(Lock()), started.value)
                && admitted == old(admitted) + [started.value]
                && running == old(running) + [started.value]
      ensures started.None? ==>
                && candidate == old(candidate)
                && Lock() == old(Lock())
                && admitted == old(admitted)
                && running == old(running)
    {
      if candidate.Some? && CanExecute(Lock(), candidate.value) {
        var t := candidate.value;
        AdmitKeepsExclusive(running, t);
        MarkAsRunning(t);
        candidate := None;
        admitted := admitted + [t];
        running := running + [t];
        started := Some(t);
      } else {
        started := None;
      }
    }

    /** The completion callback for a running task: store its result, then
        mark it finished. */
    method Complete(t: Task, result: Result) returns (ghost at: nat)
      requires Valid()
      requires t in running
      modifies this`resultMap, this`activeGIDs, this`activeReadCount, this`activeWriteCount
      modifies this`running, this`completed
      ensures Valid()
      ensures resultMap == old(resultMap)[t.uuid := result]
      ensures GetResult(t.uuid) == Some(result)
      ensures Lock() == Released(old(Lock()), t)
      ensures at < |old(running)| && old(running)[at] == t && running == RemoveAt(old(running), at)
      ensures completed == old(completed) + [Completion(t, result)]
    {
      resultMap := resultMap[t.uuid := result];
      at :| 0 <= at < |running| && running[at] == t;
      FinishKeepsExclusive(running, at);
      MarkAsFinished(t);
      running := RemoveAt(running, at);
      StoredResultsAppend(completed, Completion(t, result));
      completed := completed + [Completion(t, result)];
    }
  }
}
