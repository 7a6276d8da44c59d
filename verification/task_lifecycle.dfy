/** Sequences of service calls, and the completion-time invariant they keep once
    the two defects of the service are corrected. */
module TaskLifecycle {
  import opened Outcomes
  import opened Int32
  import opened TaskItems
  import Service = TaskService

  type Store = Service.Store

  /** One call into the service, with the clock reading and the fresh id it uses. */
  datatype Command =
    | CreateTask(dto: Service.CreateTaskDto, newId: Id, now: Time)
    | UpdateTask(id: Id, update: Service.UpdateTaskDto, now: Time)
    | ToggleTask(id: Id, now: Time)
    | ReorderTasks(batch: seq<Service.ReorderTaskDto>)
    | DeleteTask(id: Id)

  /** Every stored task has a completion time exactly when it is completed. */
  ghost predicate AllConsistent(s: Store) {
    forall id :: id in s ==> CompletionConsistent(s[id])
  }

  /** Runs one command on the corrected service (checked creation, update that
      looks at the prior flag) and returns the store afterwards. A created task
      is placed after every task already stored. */
  method Step(s: Store, c: Command) returns (next: Store)
    ensures AllConsistent(s) ==> AllConsistent(next)
    ensures c.DeleteTask? ==> next.Keys == s.Keys - {c.id}
    ensures c.ReorderTasks? || c.ToggleTask? || c.UpdateTask? ==> next.Keys == s.Keys
    ensures c.CreateTask? ==> next.Keys == s.Keys || next.Keys == s.Keys + {c.newId}
    ensures c.CreateTask? && c.newId !in s && c.newId in next ==>
      forall id :: id in s ==> s[id].order < next[c.newId].order
  {
    match c
    case CreateTask(dto, newId, now) =>
      var r := Service.CreateChecked(s, dto, newId, now);
      next := r.store;
    case UpdateTask(id, update, now) =>
      if id in s {
        Service.UpdateCorrectedKeepsConsistency(s, id, update, now);
      }
      next := Service.UpdateCorrected(s, id, update, now).store;
    case ToggleTask(id, now) =>
      next := Service.Toggle(s, id, now).store;
    case ReorderTasks(batch) =>
      next := Service.Reorder(s, batch);
    case DeleteTask(id) =>
      next := Service.Delete(s, id).store;
  }

  /** Runs the commands in order; the invariant holds after every one of them. */
  method Run(s: Store, cs: seq<Command>) returns (final: Store)
    ensures AllConsistent(s) ==> AllConsistent(final)
  {
    final := s;
    var i := 0;
    while i < |cs|
      invariant 0 <= i <= |cs|
      invariant AllConsistent(s) ==> AllConsistent(final)
    {
      final := Step(final, cs[i]);
      i := i + 1;
    }
  }

  /** The update as written breaks the invariant: a consistent store with one
      pending task is left with a completed task that has no completion time. */
  lemma AsWrittenUpdateBreaksConsistency(s: Store, id: Id, update: Service.UpdateTaskDto, now: Time)
    requires AllConsistent(s) && id in s && !s[id].isCompleted
    requires update.isCompleted
    ensures !AllConsistent(Service.Update(s, id, update, now).store)
  {
    Service.UpdateNeverStamps(s, id, update, now);
  }
}
