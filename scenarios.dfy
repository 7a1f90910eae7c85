/**
 * Client runs of the scheduler that follow its tests and the behaviour
 * of its dispatch loop. Each drives the atomic steps in one particular
 * interleaving and states, from the step contracts alone, what the
 * scheduler does.
 */
module Scenarios {
  import opened TaskTypes
  import opened Admission
  import opened Scheduler

  /** A fresh scheduler in which `t` was submitted and admitted. */
  method StartOne(t: Task) returns (s: TaskSchedulerImpl)
    requires t.kind != Other
    ensures fresh(s) && s.Valid()
    ensures s.running == [t] && s.candidate == None && s.taskQueue == []
    ensures s.Lock() == Acquired(LockState({}, 0, 0), t)
  {
    s := new TaskSchedulerImpl();
    s.SubmitTask(t);
    var _ := s.Take();
    var started := s.TryAdmit();
    assert started == Some(t);
  }

  /** A submitted READ is admitted, and once its callback has run its
      result can be retrieved by its identifier. */
  method ResultRetrieval(t: Task, result: Result) returns (s: TaskSchedulerImpl)
    requires t.kind == Read
    ensures s.Valid()
    ensures s.GetResult(t.uuid) == Some(result)
    ensures s.running == [] && s.Lock() == LockState({}, 0, 0)
  {
    s := StartOne(t);
    AdmittedTaskRoundTrip(LockState({}, 0, 0), t);
    ghost var _ := s.Complete(t, result);
  }

  /** Two READs of different groups, with no WRITE about, both start and
      run at the same time. */
  method ConcurrentReads(r1: Task, r2: Task) returns (s: TaskSchedulerImpl)
    requires r1.kind == Read && r2.kind == Read && r1.gid != r2.gid
    ensures s.Valid()
    ensures s.running == [r1, r2]
    ensures s.activeReadCount == 2 && s.activeWriteCount == 0
  {
    s := StartOne(r1);
    s.SubmitTask(r2);
    var _ := s.Take();
    assert s.candidate == Some(r2);
    var second := s.TryAdmit();
    assert second == Some(r2);
  }

  /** Conflicting tasks, those of one group or pairs with a WRITE, never
      overlap: while the first runs, the second is refused. */
  method ConflictWaits(t1: Task, t2: Task) returns (s: TaskSchedulerImpl, whileRunning: Option<Task>)
    requires t1.kind != Other
    requires !Compatible(t1, t2)
    ensures s.Valid()
    ensures whileRunning == None
    ensures s.running == [t1] && s.candidate == Some(t2) && s.taskQueue == []
    ensures fresh(s)
    ensures s.Lock() == Acquired(LockState({}, 0, 0), t1)
  {
    s := StartOne(t1);
    s.SubmitTask(t2);
    var _ := s.Take();
    assert s.candidate == Some(t2);
    AcquiredRefusesConflict(LockState({}, 0, 0), t1, t2);
    whileRunning := s.TryAdmit();
  }

  /** No deadlock under release: once the first of two conflicting tasks
      has completed, its result is stored and the waiting task is
      admitted on the dispatcher's next check. */
  method ConflictAdmittedAfterRelease(t1: Task, t2: Task, result: Result)
    returns (s: TaskSchedulerImpl, whileRunning: Option<Task>, afterRelease: Option<Task>)
    requires t1.kind != Other && t2.kind != Other
    requires !Compatible(t1, t2)
    ensures s.Valid()
    ensures whileRunning == None
    ensures afterRelease == Some(t2)
    ensures s.running == [t2]
    ensures s.GetResult(t1.uuid) == Some(result)
  {
    s, whileRunning := ConflictWaits(t1, t2);
    AdmittedTaskRoundTrip(LockState({}, 0, 0), t1);
    ghost var at := s.Complete(t1, result);
    assert s.running == [] && s.Lock() == LockState({}, 0, 0);
    afterRelease := s.TryAdmit();
  }

  /** Head-of-line blocking: a WRITE waiting behind a running READ holds up
      a later READ of a third group even though that READ could run now. */
  method HeadOfLineBlocking(r1: Task, w: Task, r2: Task)
    returns (s: TaskSchedulerImpl, blocked: Option<Task>)
    requires r1.kind == Read && w.kind == Write && r2.kind == Read
    requires r1.gid != r2.gid
    ensures s.Valid()
    ensures blocked == None
    ensures s.candidate == Some(w) && s.taskQueue == [r2]
    ensures s.running == [r1]
    ensures CanExecute(s.Lock(), r2)
  {
    s, blocked := ConflictWaits(r1, w);
    s.SubmitTask(r2);
    var took := s.Take();
    assert !took;
    blocked := s.TryAdmit();
  }

  /** A task of an unrecognised kind is never admitted, so it stays the
      dispatcher's candidate and every task behind it stays queued. */
  method UnknownKindStalls(t: Task, later: Task) returns (s: TaskSchedulerImpl, attempt: Option<Task>)
    requires t.kind == Other
    ensures s.Valid()
    ensures attempt == None
    ensures s.candidate == Some(t) && s.taskQueue == [later]
    ensures s.running == [] && s.admitted == []
  {
    s := new TaskSchedulerImpl();
    s.SubmitTask(t);
    s.SubmitTask(later);
    var _ := s.Take();
    attempt := s.TryAdmit();
    var _ := s.Take();
    attempt := s.TryAdmit();
  }
}
