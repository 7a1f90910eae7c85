/**
 * The admission rule of the scheduler: a readers-writer lock (any number
 * of READs, or one WRITE) combined with a mutex per group identifier.
 *
 * The lock state is the triple (activeGIDs, activeReadCount,
 * activeWriteCount). `CanExecute` is the admission predicate and
 * `Acquired` / `Released` are the effects of markAsRunning and
 * markAsFinished on that triple. The second half of the module relates
 * the triple to the tasks that are running at a moment: `Abstraction`
 * summarises a sequence of running tasks, `Exclusive` says that no two of
 * them conflict, and the lemmas show that admission is exactly the
 * condition under which a new task can join without a conflict.
 */
module Admission {
  import opened TaskTypes

  /** The lock state guarded by the scheduler's monitor. */
  datatype LockState = LockState(activeGIDs: set<Gid>, activeReadCount: int, activeWriteCount: int)

  /** canExecute: may `task` start in lock state `a`? It depends on the
      three lock fields and the task's group and kind, nothing else. */
  function CanExecute(a: LockState, task: Task): (b: bool)
    ensures task.gid in a.activeGIDs ==> !b
    ensures task.kind == Other ==> !b
    ensures b ==> a.activeWriteCount == 0
    ensures b && task.kind == Write ==> a.activeReadCount == 0
  {
    if task.gid in a.activeGIDs then false
    else
      match task.kind
      case Read => a.activeWriteCount == 0
      case Write => a.activeWriteCount == 0 && a.activeReadCount == 0
      case Other => false
  }

  /** The lock state after markAsRunning(task): the group is locked and the
      counter of the task's kind goes up; a kind outside READ and WRITE
      touches no counter. */
  function Acquired(a: LockState, task: Task): (r: LockState)
    ensures task.gid in r.activeGIDs
    ensures forall g :: g != task.gid ==> (g in r.activeGIDs <==> g in a.activeGIDs)
    ensures r.activeReadCount + r.activeWriteCount
              == a.activeReadCount + a.activeWriteCount + (if task.kind == Other then 0 else 1)
    ensures task.kind != Read ==> r.activeReadCount == a.activeReadCount
    ensures task.kind != Write ==> r.activeWriteCount == a.activeWriteCount
  {
    LockState(
      a.activeGIDs + {task.gid},
      if task.kind == Read then a.activeReadCount + 1 else a.activeReadCount,
      if task.kind == Write then a.activeWriteCount + 1 else a.activeWriteCount)
  }

  /** The lock state after markAsFinished(task): the group is unlocked and
      the counter of the task's kind goes down. */
  function Released(a: LockState, task: Task): (r: LockState)
    ensures task.gid !in r.activeGIDs
    ensures forall g :: g != task.gid ==> (g in r.activeGIDs <==> g in a.activeGIDs)
    ensures Acquired(r, task).activeReadCount == a.activeReadCount
    ensures Acquired(r, task).activeWriteCount == a.activeWriteCount
  {
    LockState(
      a.activeGIDs - {task.gid},
      if task.kind == Read then a.activeReadCount - 1 else a.activeReadCount,
      if task.kind == Write then a.activeWriteCount - 1 else a.activeWriteCount)
  }

  /** Releasing a task right after acquiring it gives back the lock state
      exactly, provided its group was free, which admission guarantees. */
  lemma AcquireReleaseRoundTrip(a: LockState, task: Task)
    requires task.gid !in a.activeGIDs
    ensures Released(Acquired(a, task), task) == a
  {
    assert (a.activeGIDs + {task.gid}) - {task.gid} == a.activeGIDs;
  }

  /** Without the free-group condition the round trip fails: releasing a
      second task of a held group unlocks the group although the first
      task still holds it. */
  lemma ReleaseOfHeldGroupUnlocksIt(a: LockState, task: Task)
    requires task.gid in a.activeGIDs
    ensures task.gid !in Released(Acquired(a, task), task).activeGIDs
    ensures Released(Acquired(a, task), task) != a
  {
  }

  /** CanExecute admits every task that Acquired can then account for:
      admission implies the group is free, so the round trip holds. */
  lemma AdmittedTaskRoundTrip(a: LockState, task: Task)
    requires CanExecute(a, task)
    ensures Released(Acquired(a, task), task) == a
  {
    AcquireReleaseRoundTrip(a, task);
  }

  /** Once a READ or WRITE has been marked running, every task that is not
      compatible with it is refused, whatever else holds the lock. */
  lemma AcquiredRefusesConflict(a: LockState, t1: Task, t2: Task)
    requires a.activeReadCount >= 0 && a.activeWriteCount >= 0
    requires t1.kind != Other
    requires !Compatible(t1, t2)
    ensures !CanExecute(Acquired(a, t1), t2)
  {
  }

  // ---------------------------------------------------------------------
  // The lock state as a summary of the running tasks.
  // ---------------------------------------------------------------------

  /** The number of tasks of kind `k` in `s`. */
  function CountKind(s: seq<Task>, k: OperationType): nat
  {
    if s == [] then 0 else (if s[0].kind == k then 1 else 0) + CountKind(s[1..], k)
  }

  /** The groups of the tasks in `s`. */
  function Gids(s: seq<Task>): set<Gid>
  {
    set i | 0 <= i < |s| :: s[i].gid
  }

  /** `s` with the element at index `i` taken out. */
  function RemoveAt(s: seq<Task>, i: nat): seq<Task>
    requires i < |s|
  {
    s[..i] + s[i + 1..]
  }

  /** The lock state that describes the tasks `running`. */
  function Abstraction(running: seq<Task>): LockState
  {
    LockState(Gids(running), CountKind(running, Read), CountKind(running, Write))
  }

  /** Two tasks may run at the same time when they lock different groups
      and neither of them writes. */
  predicate Compatible(t1: Task, t2: Task)
  {
    t1.gid != t2.gid && t1.kind == Read && t2.kind == Read
  }

  /** The safety property of the scheduler, stated on the running tasks
      themselves: each is a READ or a WRITE, and every two of them are
      compatible (no shared group, no WRITE beside anything else). */
  ghost predicate Exclusive(running: seq<Task>)
  {
    && (forall i :: 0 <= i < |running| ==> running[i].kind != Other)
    && (forall i, j :: 0 <= i < j < |running| ==> Compatible(running[i], running[j]))
  }

  lemma {:induction false} CountKindAppend(s: seq<Task>, t: Task, k: OperationType)
    ensures CountKind(s + [t], k) == CountKind(s, k) + (if t.kind == k then 1 else 0)
  {
    if s == [] {
      assert s + [t] == [t];
    } else {
      assert (s + [t])[1..] == s[1..] + [t];
      CountKindAppend(s[1..], t, k);
    }
  }

  lemma {:induction false} CountKindRemoveAt(s: seq<Task>, i: nat, k: OperationType)
    requires i < |s|
    ensures CountKind(RemoveAt(s, i), k) == CountKind(s, k) - (if s[i].kind == k then 1 else 0)
  {
    if i == 0 {
      assert RemoveAt(s, 0) == s[1..];
    } else {
      var r := RemoveAt(s[1..], i - 1);
      assert RemoveAt(s, i) == [s[0]] + r;
      assert ([s[0]] + r)[1..] == r;
      CountKindRemoveAt(s[1..], i - 1, k);
    }
  }

  /** No task of kind `k` occurs in `s` exactly when the count is zero. */
  lemma {:induction false} CountKindZero(s: seq<Task>, k: OperationType)
    ensures CountKind(s, k) == 0 <==> forall i :: 0 <= i < |s| ==> s[i].kind != k
  {
    if s != [] {
      CountKindZero(s[1..], k);
      assert forall i :: 1 <= i < |s| ==> s[i] == s[1..][i - 1];
    }
  }

  lemma GidsAppend(s: seq<Task>, t: Task)
    ensures Gids(s + [t]) == Gids(s) + {t.gid}
  {
    var u := s + [t];
    forall g | g in Gids(u) ensures g in Gids(s) + {t.gid} {
      var i :| 0 <= i < |u| && u[i].gid == g;
      if i < |s| { assert u[i] == s[i]; }
    }
    forall g | g in Gids(s) ensures g in Gids(u) {
      var i :| 0 <= i < |s| && s[i].gid == g;
      assert u[i] == s[i];
    }
    assert u[|s|] == t;
  }

  /** Taking out a task whose group no other task shares removes exactly
      that group. */
  lemma GidsRemoveAt(s: seq<Task>, i: nat)
    requires i < |s|
    requires forall j :: 0 <= j < |s| && j != i ==> s[j].gid != s[i].gid
    ensures Gids(RemoveAt(s, i)) == Gids(s) - {s[i].gid}
  {
    var r := RemoveAt(s, i);
    assert |r| == |s| - 1;
    assert forall j :: 0 <= j < |r| ==> r[j] == if j < i then s[j] else s[j + 1];
    forall g | g in Gids(r) ensures g in Gids(s) - {s[i].gid} {
      var j :| 0 <= j < |r| && r[j].gid == g;
      if j < i { assert r[j] == s[j]; } else { assert r[j] == s[j + 1]; }
    }
    forall g | g in Gids(s) - {s[i].gid} ensures g in Gids(r) {
      var j :| 0 <= j < |s| && s[j].gid == g;
      if j < i { assert r[j] == s[j]; } else { assert r[j - 1] == s[j]; }
    }
  }

  /** Among exclusive running tasks, a first task with a successor reads. */
  lemma ExclusiveHeadReads(running: seq<Task>)
    requires Exclusive(running)
    ensures |running| > 1 ==> running[0].kind == Read
  {
    if |running| > 1 {
      assert Compatible(running[0], running[1]);
    }
  }

  /** The counters kept by the scheduler obey the readers-writer rule
      whenever the running tasks are exclusive: at most one WRITE, and no
      READ beside a WRITE. */
  lemma ExclusiveCounts(running: seq<Task>)
    requires Exclusive(running)
    ensures CountKind(running, Write) <= 1
    ensures CountKind(running, Write) > 0 ==> CountKind(running, Read) == 0
  {
    ExclusiveHeadReads(running);
    if running != [] {
      if running[0].kind == Write {
        assert running[1..] == [];
      } else {
        assert forall j :: 1 <= j < |running| ==> Compatible(running[0], running[j]);
        CountKindZero(running, Write);
      }
    }
  }

  /** Admission is exactly right: a task passes CanExecute on the summary
      of the running tasks if and only if it could join them without a
      conflict. Nothing safe is refused and nothing unsafe is admitted. */
  lemma CanExecuteExactlyWhenSafe(running: seq<Task>, t: Task)
    requires Exclusive(running)
    ensures CanExecute(Abstraction(running), t) <==> Exclusive(running + [t])
  {
    var u := running + [t];
    assert forall i :: 0 <= i < |running| ==> u[i] == running[i];
    assert u[|running|] == t;
    CountKindZero(running, Read);
    CountKindZero(running, Write);
    if t.kind == Read {
      if CanExecute(Abstraction(running), t) {
        forall i, j | 0 <= i < j < |u| ensures Compatible(u[i], u[j]) {
          if j == |running| {
            assert running[i].gid in Gids(running);
          }
        }
      }
      if Exclusive(u) {
        forall g | g in Gids(running) ensures g != t.gid {
          var i :| 0 <= i < |running| && running[i].gid == g;
          assert Compatible(u[i], u[|running|]);
        }
        forall i | 0 <= i < |running| ensures running[i].kind != Write {
          assert Compatible(u[i], u[|running|]);
        }
      }
    } else if t.kind == Write {
      assert forall i :: 0 <= i < |running| ==> !Compatible(u[i], u[|running|]);
    }
  }

  /** The lock state follows the running tasks on admission: appending a
      task to the running ones is what markAsRunning does to the summary. */
  lemma AbstractionAppend(running: seq<Task>, t: Task)
    ensures Abstraction(running + [t]) == Acquired(Abstraction(running), t)
  {
    CountKindAppend(running, t, Read);
    CountKindAppend(running, t, Write);
    GidsAppend(running, t);
  }

  /** Admission preserves exclusivity and keeps the lock state in step with
      the running tasks. */
  lemma AdmitKeepsExclusive(running: seq<Task>, t: Task)
    requires Exclusive(running)
    requires CanExecute(Abstraction(running), t)
    ensures Exclusive(running + [t])
    ensures Abstraction(running + [t]) == Acquired(Abstraction(running), t)
  {
    CanExecuteExactlyWhenSafe(running, t);
    AbstractionAppend(running, t);
  }

  /** Finishing any running task preserves exclusivity, and the lock state
      after markAsFinished is the summary of the tasks still running. */
  lemma FinishKeepsExclusive(running: seq<Task>, i: nat)
    requires Exclusive(running)
    requires i < |running|
    ensures Exclusive(RemoveAt(running, i))
    ensures Abstraction(RemoveAt(running, i)) == Released(Abstraction(running), running[i])
  {
    var r := RemoveAt(running, i);
    assert |r| == |running| - 1;
    assert forall j :: 0 <= j < |r| ==> r[j] == if j < i then running[j] else running[j + 1];
    forall j | 0 <= j < |running| && j != i ensures running[j].gid != running[i].gid {
      if j < i { assert Compatible(running[j], running[i]); }
      else { assert Compatible(running[i], running[j]); }
    }
    GidsRemoveAt(running, i);
    CountKindRemoveAt(running, i, Read);
    CountKindRemoveAt(running, i, Write);
  }
}
