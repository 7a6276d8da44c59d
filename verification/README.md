# Task manager: ordering and completion state

A Dafny model of the core of a small task-list manager. The backend keeps task
records in a database table. A domain service layers rules on top of it: new
tasks are appended after the largest manual order, completion times are kept
in step with the completion flag, and reorder batches skip unknown ids. A
browser-side store mirrors the task list. It offers pending, completed and
sorted views and applies each server reply to its local copy. Reorders are
optimistic: the new arrangement is shown at once and rolled back if the
server call fails.

Modules. `TaskRepository`, `TaskService` and `TaskStore` follow the program's three
core files; the others hold shared definitions and cross-cutting properties:

- `Outcomes` (`outcomes.dfy`): `Option`, and `Result` with the failures `NotFound`, `DuplicateKey` and `Overflow`.
- `Int32` (`int32.dfy`): C#'s `int` as a subset type, and the wrap-around of unchecked addition.
- `Seqs` (`seqs.dfy`): `filter`, distinctness of keys (`DistinctBy`), and the "interleaving" relation used to state that a split keeps every element once and in order.
- `TaskItems` (`task_item.dfy`): the `TaskItem` record and the completion-time invariant.
- `TaskRepository` (`task_repository.dfy`): the table as a map from id to record, keyed by the record's own id.
- `TaskService` (`task_service.dfy`): the domain service. `Update` is modelled as written; `UpdateCorrected` and `CreateChecked` are the corrected variants (see Findings).
- `TaskLifecycle` (`task_lifecycle.dfy`): runs sequences of service calls, using the corrected variants, and proves that the completion-time invariant survives every call.
- `TaskStore` (`task_store.dfy`): the client store. Each operation is a pure transition from the state and the remote outcome to the new state.
- `TaskSync` (`task_sync.dfy`): links the client's reorder request to the server's reorder.

Nondeterminism becomes parameters. The clock (`DateTime.UtcNow`) is `now`, the
new `Guid` is `newId`, and each remote call's result is a `Remote` value
(`Resolved(v)` or `Rejected(message)`). Ids are plain integers compared for
equality. Timestamps are integer tick counts. On the client, `createdAt` is
the instant the timestamp text denotes.

Three places where the code does less than its own surroundings suggest. The
model follows the code:

- **Update never stamps a completion time.** The guard at `TaskService.cs:63` tests for a pending-to-completed transition that would record the current time, but line 60 has already overwritten the flag, so the branch never runs (Findings, first row).
- **Priority is any `int`.** The enum at `TaskItem.cs:21-26` declares three levels (0, 1 and 2). The service casts any `int` to it without checking.
- **Delete of a missing id.** The service does not fail. It returns `false`, and the controller (`TasksController.cs:100-106`) turns that into the 404.

## Model

| member | source | states |
|---|---|---|
| `Int32.Wrap` | Backend/TaskManager.Domain/Entities/TaskItem.cs:12 | the stored `int` is the unique 32-bit value congruent to the exact result modulo 2^32, and equals it whenever the exact result fits |
| `Int32.WrapPastMax` | Backend/TaskManager.Application/Services/TaskService.cs:43 | one past the largest `int` wraps to the smallest |
| `TaskRepository.GetAll` | Backend/TaskManager.Infrastructure/Data/Repositories/TaskRepository.cs:20-23 | the list holds every stored record exactly once and nothing else, ascending by order (ties in any order) |
| `TaskRepository.GetById` | Backend/TaskManager.Infrastructure/Data/Repositories/TaskRepository.cs:25-28 | a record comes back exactly when the id is stored, and it is the record filed under that id |
| `TaskRepository.Create` | Backend/TaskManager.Infrastructure/Data/Repositories/TaskRepository.cs:30-35 | a new id adds exactly that record, leaves the rest and returns it; a stored id fails and changes nothing |
| `TaskRepository.CreateThenGet` | Backend/TaskManager.Infrastructure/Data/Repositories/TaskRepository.cs:30-35 | after inserting a record under a new id, reading that id yields the record |
| `TaskRepository.Update` | Backend/TaskManager.Infrastructure/Data/Repositories/TaskRepository.cs:37-42 | the record with the same id is overwritten and every other record is unchanged; a missing id fails and changes nothing |
| `TaskRepository.UpdateThenGet` | Backend/TaskManager.Infrastructure/Data/Repositories/TaskRepository.cs:37-42 | after updating a stored record, reading its id yields the new record |
| `TaskRepository.Delete` | Backend/TaskManager.Infrastructure/Data/Repositories/TaskRepository.cs:44-53 | returns true exactly when the id was stored; removes exactly that record and keeps every other one |
| `TaskRepository.DeleteAbsent` | Backend/TaskManager.Infrastructure/Data/Repositories/TaskRepository.cs:44-48 | deleting an id that is not stored returns false and leaves the store as it was |
| `TaskRepository.DeleteThenGet` | Backend/TaskManager.Infrastructure/Data/Repositories/TaskRepository.cs:44-53 | after a delete the id can no longer be read |
| `TaskService.MapToDto` | Backend/TaskManager.Application/Services/TaskService.cs:103-116 | every field is carried over, so the record can be read back from the DTO |
| `TaskService.MapToDtoInjective` | Backend/TaskManager.Application/Services/TaskService.cs:103-116 | the external representation loses nothing: different records give different DTOs |
| `TaskService.GetAllTasks` | Backend/TaskManager.Application/Services/TaskService.cs:20-24 | the reply lists the DTO of every stored task exactly once, ascending by order |
| `TaskService.GetTaskById` | Backend/TaskManager.Application/Services/TaskService.cs:26-30 | a DTO comes back exactly when the id is stored, and it is that task's DTO; absence is not an error |
| `TaskService.MaxOrder` | Backend/TaskManager.Application/Services/TaskService.cs:35 | the result bounds every order in the list and is one of them |
| `TaskService.StoredMaxOrder` | Backend/TaskManager.Application/Services/TaskService.cs:34-35 | 0 for an empty store; otherwise the largest stored order |
| `TaskService.Create` | Backend/TaskManager.Application/Services/TaskService.cs:32-50 | a fresh id adds one task and changes no other; the new task copies title, description and priority, is pending with no completion time, was created at `now`, and has order 1 in an empty store; while no order is the largest `int`, its order is one past the largest stored order and so above all of them; otherwise it wraps to the smallest `int`; a colliding id fails with the store unchanged |
| `TaskService.WrappedOrderSortsFirst` | Backend/TaskManager.Application/Services/TaskService.cs:34-43 | once some order is the largest `int`, the next created task gets an order below an existing task's |
| `TaskService.CreateChecked` | Backend/TaskManager.Application/Services/TaskService.cs:32-50 | corrected creation: fails with `Overflow` (store unchanged) exactly when the order cannot be appended; whenever it succeeds, the new order is 1 in an empty store and otherwise one more than the largest stored order, so above every one of them |
| `TaskService.Update` | Backend/TaskManager.Application/Services/TaskService.cs:52-70 | a missing id fails with NotFound and changes nothing; otherwise title, description, flag and priority come from the request, id, order and creation time are kept, no other task changes, the completion time is cleared when the request says pending and otherwise kept exactly as it was |
| `TaskService.UpdateNeverStamps` | Backend/TaskManager.Application/Services/TaskService.cs:60-66 | a pending task without completion time, updated to completed, ends completed with no completion time |
| `TaskService.UpdateCorrected` | Backend/TaskManager.Application/Services/TaskService.cs:58-66 | as `Update`, but a pending task updated to completed gets `now` as its completion time |
| `TaskService.UpdateCorrectedKeepsConsistency` | Backend/TaskManager.Application/Services/TaskService.cs:63-66 | the corrected update keeps "completion time present exactly when completed" |
| `TaskService.Toggle` | Backend/TaskManager.Application/Services/TaskService.cs:72-83 | a missing id fails with NotFound and changes nothing; otherwise the flag flips, the completion time is `now` when completed and absent when pending, no other field and no other task changes |
| `TaskService.ToggleTwice` | Backend/TaskManager.Application/Services/TaskService.cs:78-79 | toggling twice restores the flag; a task that started pending ends with no completion time, and a consistent pending task gives back the original store |
| `TaskService.LastOrder` | Backend/TaskManager.Application/Services/TaskService.cs:87-95 | the order a batch assigns to an id is that of the last pair naming it, or the current order when none does |
| `TaskService.Reorder` | Backend/TaskManager.Application/Services/TaskService.cs:85-96 | no task is added or removed, and only the order field of any task can change |
| `TaskService.ReorderLastPairWins` | Backend/TaskManager.Application/Services/TaskService.cs:85-96 | applying the pairs one by one gives each stored task the order of the last pair naming it; tasks no pair names keep their order; unknown ids are skipped |
| `TaskService.LastOrderOfDistinct` | Backend/TaskManager.Application/Services/TaskService.cs:87-95 | in a batch naming each id once, every pair's order is the one applied |
| `TaskService.ReorderSkipsUnknown` | Backend/TaskManager.Application/Services/TaskService.cs:89-94 | a batch with one stored id and one unknown id moves the stored task and changes nothing else |
| `TaskService.Delete` | Backend/TaskManager.Application/Services/TaskService.cs:98-101 | returns true exactly when the id was stored; afterwards it is absent and every other task is unchanged |
| `TaskLifecycle.Step` | Backend/TaskManager.Application/Services/TaskService.cs:32-101 | every call of the corrected service keeps every task's completion time present exactly when it is completed; a created task comes after every stored task; each call adds or removes only the id it names |
| `TaskLifecycle.Run` | Backend/TaskManager.Application/Services/TaskService.cs:32-101 | any sequence of calls keeps that invariant |
| `TaskLifecycle.AsWrittenUpdateBreaksConsistency` | Backend/TaskManager.Application/Services/TaskService.cs:60-66 | the update as written can break the invariant in a store where it held |
| `TaskStore.InitialShowsNothing` | Frontend/src/stores/taskStore.ts:10-14 | the store starts with both views empty, no error, and sorting by manual order, ascending |
| `TaskStore.PendingTasks` | Frontend/src/stores/taskStore.ts:123-125 | holds exactly the tasks of the list that are not completed |
| `TaskStore.CompletedTasks` | Frontend/src/stores/taskStore.ts:130-132 | holds exactly the tasks of the list that are completed |
| `TaskStore.PendingCompletedPartition` | Frontend/src/stores/taskStore.ts:123-132 | the list is an interleaving of the two views: each task is in exactly one, in its original relative order |
| `TaskStore.Compare` | Frontend/src/stores/taskStore.ts:141-157 | each comparator is the difference of the effective keys: manual order ascending in either direction, creation time or priority negated for descending; negative or zero exactly when the first key is smaller or equal |
| `TaskStore.Sort` | Frontend/src/stores/taskStore.ts:141-157 | the result is a permutation of the input with no pair out of order for the comparator |
| `TaskStore.SortedPendingTasks` | Frontend/src/stores/taskStore.ts:137-161 | a permutation of the pending tasks; ascending by manual order whatever the direction setting; non-decreasing (ascending) or non-increasing (descending) in creation time or priority |
| `TaskStore.SortKeepsSorted` | Frontend/src/stores/taskStore.ts:141-157 | a list already in comparator order is left exactly as it is |
| `TaskStore.UpdateSort` | Frontend/src/stores/taskStore.ts:166-169 | sets key and direction, leaves the list and the error alone |
| `TaskStore.FetchTasks` | Frontend/src/stores/taskStore.ts:19-29 | success replaces the list and clears the error; failure keeps the list and records the error |
| `TaskStore.CreateTask` | Frontend/src/stores/taskStore.ts:34-46 | success appends the server's task after the unchanged list and clears the error; failure keeps the list and records the error |
| `TaskStore.FindIndex` | Frontend/src/stores/taskStore.ts:54 | the first position holding the id, or -1 exactly when no task has it |
| `TaskStore.ReplaceFirst` | Frontend/src/stores/taskStore.ts:54-57 | the length is kept; only the first task with the id is replaced; with no such task nothing changes |
| `TaskStore.MergeResult` | Frontend/src/stores/taskStore.ts:53-60 | success merges the server's copy by `ReplaceFirst` and leaves the error; failure keeps the list and records the error |
| `TaskStore.ToggleTask` | Frontend/src/stores/taskStore.ts:51-62 | the length is kept; success replaces the first task with the id and no other; without such a task, or on failure, the list is unchanged; failure records the toggle error |
| `TaskStore.UpdateTask` | Frontend/src/stores/taskStore.ts:67-78 | the same merge as toggling, recording the update error on failure |
| `TaskStore.DeleteTask` | Frontend/src/stores/taskStore.ts:110-118 | success keeps exactly the tasks with another id, in their original order (the removed ones interleave with them to give the old list); failure keeps the list and records the error |
| `TaskStore.ReorderPayload` | Frontend/src/stores/taskStore.ts:88-91 | one entry per arranged task: its id and its 1-based position |
| `TaskStore.Renumber` | Frontend/src/stores/taskStore.ts:96-99 | the arranged sequence with orders 1..n, every other field and the id sequence unchanged |
| `TaskStore.BeginReorder` | Frontend/src/stores/taskStore.ts:84-85 | the arranged list is shown at once and the previous list is kept as the snapshot |
| `TaskStore.SettleReorder` | Frontend/src/stores/taskStore.ts:93-103 | on success the arranged list with dense orders 1..n and every other field kept; on failure the snapshot is back and the error is recorded; sort settings untouched |
| `TaskStore.ReorderTasks` | Frontend/src/stores/taskStore.ts:83-105 | success shows the arranged sequence with dense orders 1..n and nothing else changed; failure restores the pre-call state exactly, except that the error is recorded |
| `TaskStore.RollbackRestoresSnapshot` | Frontend/src/stores/taskStore.ts:84-101 | although the arranged list was shown in between, a failed reorder returns to the snapshot and only the error differs |
| `TaskStore.ReorderedViewFollowsArrangement` | Frontend/src/stores/taskStore.ts:96-99 | after a successful reorder, the manual-order view lists the pending tasks in exactly the arranged sequence |
| `TaskSync.ServerMatchesMirror` | Frontend/src/stores/taskStore.ts:88-99 | for an arranged list naming each task once, the server's reorder of the request gives every stored task the order the client shows, and leaves unnamed tasks untouched |

## Findings

| source | as written | input that shows it | evidently intended | confidence | as-written member | corrected member |
|---|---|---|---|---|---|---|
| Backend/TaskManager.Application/Services/TaskService.cs:60-64 | the completion flag is overwritten before the test `IsCompleted && !task.IsCompleted`, which therefore never holds, so the update never records a completion time | a pending task with no completion time, updated with `isCompleted = true`: it ends completed with no completion time | record `now` when a pending task is updated to completed, keeping "completion time present exactly when completed" | high (not executed) | `TaskService.UpdateNeverStamps` | `TaskService.UpdateCorrected` |
| Backend/TaskManager.Application/Services/TaskService.cs:43 | `maxOrder + 1` is unchecked `int` arithmetic | a store in which a reorder has set some order to 2147483647: the next created task gets -2147483648 and lists first | a new task always comes after every existing task, or creation fails | medium (not executed) | `TaskService.WrappedOrderSortsFirst` | `TaskService.CreateChecked` |

`TaskLifecycle.Step` and `TaskLifecycle.Run` use the corrected members. `TaskService.Update` and `TaskService.Create` model the code exactly as written.

## Left out

- HTTP routing (`TasksController.cs`) is not part of this model. Its only logic maps a missing task or a `false` delete to a 404 response.
- Application start-up, dependency injection, CORS and API documentation (`Program.cs`) are not part of this model.
- The Entity Framework column mapping (`TaskDbContext.cs`) is not part of this model. Its length limits on title and description are not enforced by the service.
- The `fetch` calls (`api.ts`) are not modelled. Each is replaced by the `Remote` outcome it produces.
- The theme toggling (`useTheme.ts`) is not part of this model. It has nothing to do with tasks.
- Concurrency is not modelled: async interleavings, the `loading` flags, and last-writer-wins races between clients. Each operation is one atomic transition.
- The rethrow: after recording an error, the client store rethrows it to its caller (except when fetching). The model returns only the resulting state.
- JSON serialisation and date-text parsing are not modelled. A `createdAt` text that fails to parse would give `NaN` in the browser; the model uses an integer instant.
- Entity Framework change tracking is not modelled. Loading a tracked record, mutating it and saving it is modelled as replacing the record in the map.
- `TaskRepository.GetAll`: the database's `ORDER BY` does not fix an order among equal orders, so the contract promises only a sorted listing of every record.
- `TaskStore.Sort`: JavaScript's sort is stable, but the contract promises only a sorted permutation, so the order of ties is not stated. `TaskStore.SortKeepsSorted` does give an already sorted list back unchanged.
- `TaskStore.SortedPendingTasks`: JavaScript's sort is stable, but the contract promises only a sorted permutation. The order of ties is not stated.
