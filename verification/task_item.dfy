/** The task record kept by the backend. */
module TaskItems {
  import opened Outcomes
  import opened Int32

  /** A task identifier (a `Guid` on the server); only equality is ever used. */
  type Id = int

  /** A point in time as a tick count (`DateTime`). */
  type Time = int

  /** A stored task. `priority` is any 32-bit value: the enum declares the levels
      0, 1 and 2, but the service casts any `int` to it without checking. */
  datatype TaskItem = TaskItem(
    id: Id,
    title: string,
    description: string,
    isCompleted: bool,
    order: int32,
    priority: int32,
    createdAt: Time,
    completedAt: Option<Time>)

  /** The key a record is filed under. */
  function IdOf(t: TaskItem): Id {
    t.id
  }

  /** The intended invariant: a completion time is recorded exactly when the
      task is completed. */
  predicate CompletionConsistent(t: TaskItem) {
    t.isCompleted <==> t.completedAt.Some?
  }
}
