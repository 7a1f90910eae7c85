/**
 * The values the scheduler works with: tasks, their operation kind and
 * the result a finished task produces.
 */
module TaskTypes {

  /** The access mode of a task. READ is shared, WRITE is exclusive.
      `Other` stands for any further constant of the enumeration: the
      scheduler's `default` branches handle it. */
  datatype OperationType = Read | Write | Other

  /** Task identifiers: abstract, distinct per task. */
  type Uuid = nat

  /** Group identifiers: the logical resource a task touches. */
  type Gid = string

  /** A task's outcome: a success flag and an opaque value. */
  datatype Result = SimpleResult(success: bool, value: string)

  /** A unit of work as the scheduler sees it: identity, group and kind.
      What `execute` does is opaque; its result is supplied on completion. */
  datatype Task = Task(uuid: Uuid, gid: Gid, kind: OperationType)

  /** One run of the completion callback: the task and the result that
      the executor delivered for it. */
  datatype Completion = Completion(task: Task, result: Result)

  /** `getResult` answers null for an unknown or unfinished task. */
  datatype Option<T> = None | Some(value: T)
}
