/** The client's mirror of the server's task list: derived views, and the local
    transition of each operation given what the remote call returned. */
module TaskStore {
  import opened Outcomes
  import opened Seqs
  import TaskItems

  type Id = TaskItems.Id

  /** A task as the client holds it. `createdAt` is the instant the server's
      timestamp text denotes (what `new Date(...).getTime()` reads from it). */
  datatype Task = Task(
    id: Id,
    title: string,
    description: string,
    isCompleted: bool,
    order: int,
    priority: int,
    createdAt: int,
    completedAt: Option<int>)

  /** The id a client task carries. */
  function IdOf(t: Task): Id {
    t.id
  }

  datatype SortBy = Created | UserDefined | Priority
  datatype SortOrder = Asc | Desc

  /** The store's state; the `loading` flag is not modelled. */
  datatype State = State(tasks: seq<Task>, error: Option<string>, sortBy: SortBy, sortOrder: SortOrder)

  const Initial: State := State([], None, UserDefined, Asc)

  /** The start state shows no task and no error, and sorts by manual order, ascending. */
  lemma InitialShowsNothing()
    ensures PendingTasks(Initial.tasks) == [] && CompletedTasks(Initial.tasks) == []
    ensures SortedPendingTasks(Initial) == []
    ensures Initial.error == None
    ensures Initial.sortBy == UserDefined && Initial.sortOrder == Asc
  {
  }

  /** What a remote call came back with: a value, or a rejection carrying the
      message of the thrown `Error` (`None` when something else was thrown). */
  datatype Remote<+T> = Resolved(value: T) | Rejected(message: Option<string>)

  /** The error text the store records: the thrown error's message, or the
      operation's fallback text. */
  function ErrorText(message: Option<string>, fallback: string): string {
    match message
    case Some(m) => m
    case None => fallback
  }

  const FETCH_FAILED: string := "Failed to fetch tasks"
  const CREATE_FAILED: string := "Failed to create task"
  const TOGGLE_FAILED: string := "Failed to toggle task"
  const UPDATE_FAILED: string := "Failed to update task"
  const REORDER_FAILED: string := "Failed to reorder tasks"
  const DELETE_FAILED: string := "Failed to delete task"

  // ----- Derived views -----

  predicate IsPending(t: Task) { !t.isCompleted }
  predicate IsCompleted(t: Task) { t.isCompleted }

  /** The tasks not yet completed, in list order. */
  function PendingTasks(ts: seq<Task>): (r: seq<Task>)
    ensures forall t :: t in r <==> t in ts && !t.isCompleted
  {
    Filter(ts, IsPending)
  }

  /** The completed tasks, in list order. */
  function CompletedTasks(ts: seq<Task>): (r: seq<Task>)
    ensures forall t :: t in r <==> t in ts && t.isCompleted
  {
    Filter(ts, IsCompleted)
  }

  /** The two views split the list: every task is in exactly one of them, and
      each keeps the list's relative order. */
  lemma PendingCompletedPartition(ts: seq<Task>)
    ensures Interleaves(ts, PendingTasks(ts), CompletedTasks(ts))
    ensures multiset(ts) == multiset(PendingTasks(ts)) + multiset(CompletedTasks(ts))
  {
    FilterSplits(ts, IsPending, IsCompleted);
    InterleavingKeepsElements(ts, PendingTasks(ts), CompletedTasks(ts));
  }

  /** The comparator the view sorts with, as written: by manual order (always
      ascending), or by creation time or priority in the chosen direction. */
  function Compare(a: Task, b: Task, key: SortBy, dir: SortOrder): (r: int)
    ensures r == Rank(a, key, dir) - Rank(b, key, dir)
    ensures r < 0 <==> Rank(a, key, dir) < Rank(b, key, dir)
    ensures r == 0 <==> Rank(a, key, dir) == Rank(b, key, dir)
  {
    match key
    case UserDefined => a.order - b.order
    case Created => if dir == Asc then a.createdAt - b.createdAt else b.createdAt - a.createdAt
    case Priority => if dir == Asc then a.priority - b.priority else b.priority - a.priority
  }

  /** The key the comparator effectively compares, negated for descending order. */
  function Rank(t: Task, key: SortBy, dir: SortOrder): int {
    match key
    case UserDefined => t.order
    case Created => if dir == Asc then t.createdAt else -t.createdAt
    case Priority => if dir == Asc then t.priority else -t.priority
  }

  /** `Compare`'s first postcondition for all pairs at once, for proofs that
      reason about ranks. */
  lemma CompareIsRankDifference(key: SortBy, dir: SortOrder)
    ensures forall a, b :: Compare(a, b, key, dir) == Rank(a, key, dir) - Rank(b, key, dir)
  {
  }

  /** No pair of the list is out of order for the comparator. */
  ghost predicate SortedFor(ts: seq<Task>, key: SortBy, dir: SortOrder) {
    forall i, j :: 0 <= i < j < |ts| ==> Compare(ts[i], ts[j], key, dir) <= 0
  }

  /** A task ranked no higher than every element of a sorted list can lead it. */
  lemma PrependSorted(h: Task, rest: seq<Task>, key: SortBy, dir: SortOrder)
    requires SortedFor(rest, key, dir)
    requires forall x :: x in rest ==> Rank(h, key, dir) <= Rank(x, key, dir)
    ensures SortedFor([h] + rest, key, dir)
  {
    CompareIsRankDifference(key, dir);
    var r := [h] + rest;
    forall i, j | 0 <= i < j < |r|
      ensures Compare(r[i], r[j], key, dir) <= 0
    {
      assert r[j] == rest[j - 1];
      if i > 0 {
        assert r[i] == rest[i - 1];
      } else {
        assert rest[j - 1] in rest;
      }
    }
  }

  /** Inserts `t` into a sorted list in front of the first element it does not
      come after. */
  function Insert(t: Task, ts: seq<Task>, key: SortBy, dir: SortOrder): (r: seq<Task>)
    requires SortedFor(ts, key, dir)
    ensures SortedFor(r, key, dir)
    ensures multiset(r) == multiset(ts) + multiset{t}
  {
    if |ts| == 0 || Compare(t, ts[0], key, dir) <= 0 then
      InsertFront(t, ts, key, dir);
      [t] + ts
    else
      var rest := Insert(t, ts[1..], key, dir);
      InsertBehind(t, ts, rest, key, dir);
      [ts[0]] + rest
  }

  /** A task that does not come after the head of a sorted list can lead it. */
  lemma InsertFront(t: Task, ts: seq<Task>, key: SortBy, dir: SortOrder)
    requires SortedFor(ts, key, dir)
    requires |ts| == 0 || Compare(t, ts[0], key, dir) <= 0
    ensures SortedFor([t] + ts, key, dir)
  {
  }

  /** A task that comes after the head of a sorted list goes behind it: the head
      can lead the sorted rest with the task inserted. */
  lemma InsertBehind(t: Task, ts: seq<Task>, rest: seq<Task>, key: SortBy, dir: SortOrder)
    requires SortedFor(ts, key, dir) && |ts| > 0
    requires Compare(t, ts[0], key, dir) > 0
    requires SortedFor(rest, key, dir)
    requires multiset(rest) == multiset(ts[1..]) + multiset{t}
    ensures SortedFor([ts[0]] + rest, key, dir)
    ensures multiset([ts[0]] + rest) == multiset(ts) + multiset{t}
  {
    CompareIsRankDifference(key, dir);
    forall x | x in rest
      ensures Rank(ts[0], key, dir) <= Rank(x, key, dir)
    {
      assert x in multiset(rest);
      if x != t {
        assert x in ts[1..];
        var k :| 0 <= k < |ts[1..]| && ts[1..][k] == x;
        assert Compare(ts[0], ts[k + 1], key, dir) <= 0;
      }
    }
    PrependSorted(ts[0], rest, key, dir);
    assert ts == [ts[0]] + ts[1..];
  }

  /** Insertion sort by the comparator. */
  function Sort(ts: seq<Task>, key: SortBy, dir: SortOrder): (r: seq<Task>)
    ensures SortedFor(r, key, dir)
    ensures multiset(r) == multiset(ts)
  {
    if |ts| == 0 then []
    else
      assert ts == [ts[0]] + ts[1..];
      Insert(ts[0], Sort(ts[1..], key, dir), key, dir)
  }

  /** The pending tasks, sorted by the selected key. Ties may come out in any
      order. */
  function SortedPendingTasks(st: State): (r: seq<Task>)
    ensures multiset(r) == multiset(PendingTasks(st.tasks))
    ensures forall t :: t in r ==> t in st.tasks && !t.isCompleted
    ensures st.sortBy == UserDefined ==> forall i, j :: 0 <= i < j < |r| ==> r[i].order <= r[j].order
    ensures st.sortBy == Created && st.sortOrder == Asc ==>
      forall i, j :: 0 <= i < j < |r| ==> r[i].createdAt <= r[j].createdAt
    ensures st.sortBy == Created && st.sortOrder == Desc ==>
      forall i, j :: 0 <= i < j < |r| ==> r[i].createdAt >= r[j].createdAt
    ensures st.sortBy == Priority && st.sortOrder == Asc ==>
      forall i, j :: 0 <= i < j < |r| ==> r[i].priority <= r[j].priority
    ensures st.sortBy == Priority && st.sortOrder == Desc ==>
      forall i, j :: 0 <= i < j < |r| ==> r[i].priority >= r[j].priority
  {
    var r := Sort(PendingTasks(st.tasks), st.sortBy, st.sortOrder);
    assert forall t :: t in r ==> t in PendingTasks(st.tasks) by {
      forall t | t in r ensures t in PendingTasks(st.tasks) {
        assert t in multiset(r);
      }
    }
    r
  }

  /** A list already in comparator order is left exactly as it is. */
  lemma {:induction false} SortKeepsSorted(ts: seq<Task>, key: SortBy, dir: SortOrder)
    requires SortedFor(ts, key, dir)
    ensures Sort(ts, key, dir) == ts
    decreases |ts|
  {
    if |ts| > 0 {
      SortKeepsSorted(ts[1..], key, dir);
      assert ts == [ts[0]] + ts[1..];
    }
  }

  /** Changes the sort settings and nothing else. */
  function UpdateSort(st: State, key: SortBy, dir: SortOrder): (r: State)
    ensures r.sortBy == key && r.sortOrder == dir
    ensures r.tasks == st.tasks && r.error == st.error
  {
    st.(sortBy := key, sortOrder := dir)
  }

  // ----- Operations -----

  /** Replaces the whole list with the server's on success; keeps it on failure.
      The error is cleared before the call. */
  function FetchTasks(st: State, outcome: Remote<seq<Task>>): (r: State)
    ensures r.sortBy == st.sortBy && r.sortOrder == st.sortOrder
    ensures outcome.Resolved? ==> r.tasks == outcome.value && r.error == None
    ensures outcome.Rejected? ==> r.tasks == st.tasks && r.error == Some(ErrorText(outcome.message, FETCH_FAILED))
  {
    var cleared := st.(error := None);
    match outcome
    case Resolved(ts) => cleared.(tasks := ts)
    case Rejected(m) => cleared.(error := Some(ErrorText(m, FETCH_FAILED)))
  }

  /** Appends the server's new task on success; the error is cleared before the call. */
  function CreateTask(st: State, outcome: Remote<Task>): (r: State)
    ensures r.sortBy == st.sortBy && r.sortOrder == st.sortOrder
    ensures outcome.Resolved? ==>
      && |r.tasks| == |st.tasks| + 1
      && r.tasks[..|st.tasks|] == st.tasks
      && r.tasks[|st.tasks|] == outcome.value
      && r.error == None
    ensures outcome.Rejected? ==> r.tasks == st.tasks && r.error == Some(ErrorText(outcome.message, CREATE_FAILED))
  {
    var cleared := st.(error := None);
    match outcome
    case Resolved(t) => cleared.(tasks := st.tasks + [t])
    case Rejected(m) => cleared.(error := Some(ErrorText(m, CREATE_FAILED)))
  }

  /** `i` is the first position holding a task with this id. */
  ghost predicate IsFirstWithId(ts: seq<Task>, id: Id, i: int) {
    0 <= i < |ts| && ts[i].id == id && forall k :: 0 <= k < i ==> ts[k].id != id
  }

  /** `findIndex`: the first position with this id, or -1. */
  function FindIndex(ts: seq<Task>, id: Id): (i: int)
    ensures -1 <= i < |ts|
    ensures i == -1 <==> forall k :: 0 <= k < |ts| ==> ts[k].id != id
    ensures i != -1 ==> IsFirstWithId(ts, id, i)
  {
    if |ts| == 0 then -1
    else if ts[0].id == id then 0
    else
      var j := FindIndex(ts[1..], id);
      if j == -1 then -1 else j + 1
  }

  /** Puts `u` in place of the first task with this id; without one, nothing changes. */
  function ReplaceFirst(ts: seq<Task>, id: Id, u: Task): (r: seq<Task>)
    ensures |r| == |ts|
    ensures (forall k :: 0 <= k < |ts| ==> ts[k].id != id) ==> r == ts
    ensures forall i :: IsFirstWithId(ts, id, i) ==> r == ts[i := u]
  {
    var i := FindIndex(ts, id);
    if i != -1 then ts[i := u] else ts
  }

  /** The shared merge of toggle and update: the server's copy replaces the
      first local task with the id; a failure only records the error. */
  function MergeResult(st: State, id: Id, outcome: Remote<Task>, fallback: string): (r: State)
    ensures r.sortBy == st.sortBy && r.sortOrder == st.sortOrder
    ensures outcome.Resolved? ==> r.tasks == ReplaceFirst(st.tasks, id, outcome.value) && r.error == st.error
    ensures outcome.Rejected? ==> r.tasks == st.tasks && r.error == Some(ErrorText(outcome.message, fallback))
  {
    match outcome
    case Resolved(u) => st.(tasks := ReplaceFirst(st.tasks, id, u))
    case Rejected(m) => st.(error := Some(ErrorText(m, fallback)))
  }

  /** The local side of a toggle: the server's copy replaces the first task with
      the id; a failure records the error. Nothing else in the state changes. */
  function ToggleTask(st: State, id: Id, outcome: Remote<Task>): (r: State)
    ensures r.sortBy == st.sortBy && r.sortOrder == st.sortOrder
    ensures outcome.Resolved? ==> r.error == st.error
    ensures |r.tasks| == |st.tasks|
    ensures outcome.Resolved? ==> forall i :: IsFirstWithId(st.tasks, id, i) ==> r.tasks == st.tasks[i := outcome.value]
    ensures (forall k :: 0 <= k < |st.tasks| ==> st.tasks[k].id != id) ==> r.tasks == st.tasks
    ensures outcome.Rejected? ==> r.tasks == st.tasks && r.error == Some(ErrorText(outcome.message, TOGGLE_FAILED))
  {
    MergeResult(st, id, outcome, TOGGLE_FAILED)
  }

  /** The local side of an update: the server's copy replaces the first task with
      the id; a failure records the error. Nothing else in the state changes. */
  function UpdateTask(st: State, id: Id, outcome: Remote<Task>): (r: State)
    ensures r.sortBy == st.sortBy && r.sortOrder == st.sortOrder
    ensures outcome.Resolved? ==> r.error == st.error
    ensures |r.tasks| == |st.tasks|
    ensures outcome.Resolved? ==> forall i :: IsFirstWithId(st.tasks, id, i) ==> r.tasks == st.tasks[i := outcome.value]
    ensures (forall k :: 0 <= k < |st.tasks| ==> st.tasks[k].id != id) ==> r.tasks == st.tasks
    ensures outcome.Rejected? ==> r.tasks == st.tasks && r.error == Some(ErrorText(outcome.message, UPDATE_FAILED))
  {
    MergeResult(st, id, outcome, UPDATE_FAILED)
  }

  function HasId(id: Id): Task -> bool {
    (t: Task) => t.id == id
  }

  function LacksId(id: Id): Task -> bool {
    (t: Task) => t.id != id
  }

  /** Removes every task with this id on success, keeping the rest in order. */
  function DeleteTask(st: State, id: Id, outcome: Remote<()>): (r: State)
    ensures r.sortBy == st.sortBy && r.sortOrder == st.sortOrder
    ensures outcome.Resolved? ==>
      && (forall t :: t in r.tasks <==> t in st.tasks && t.id != id)
      && Interleaves(st.tasks, r.tasks, Filter(st.tasks, HasId(id)))
      && r.error == st.error
    ensures outcome.Rejected? ==> r.tasks == st.tasks && r.error == Some(ErrorText(outcome.message, DELETE_FAILED))
  {
    match outcome
    case Resolved(_) =>
      FilterSplits(st.tasks, LacksId(id), HasId(id));
      st.(tasks := Filter(st.tasks, LacksId(id)))
    case Rejected(m) => st.(error := Some(ErrorText(m, DELETE_FAILED)))
  }

  // ----- Optimistic reorder -----

  datatype ReorderTask = ReorderTask(id: Id, order: int)

  /** The request body: each task's id with its 1-based position. */
  function ReorderPayload(reordered: seq<Task>): (p: seq<ReorderTask>)
    ensures |p| == |reordered|
    ensures forall i :: 0 <= i < |p| ==> p[i].id == reordered[i].id && p[i].order == i + 1
  {
    seq(|reordered|, i requires 0 <= i < |reordered| => ReorderTask(reordered[i].id, i + 1))
  }

  /** The list in its new sequence with dense orders 1..n; every other field and
      the sequence of ids are unchanged. */
  function Renumber(reordered: seq<Task>): (r: seq<Task>)
    ensures |r| == |reordered|
    ensures forall i :: 0 <= i < |r| ==> r[i].order == i + 1 && r[i].(order := reordered[i].order) == reordered[i]
  {
    seq(|reordered|, i requires 0 <= i < |reordered| => reordered[i].(order := i + 1))
  }

  /** A reorder whose remote call has not yet come back: the new sequence is
      already shown, and the list it replaced is kept for a rollback. */
  datatype InFlightReorder = InFlightReorder(shown: State, snapshot: seq<Task>, reordered: seq<Task>, payload: seq<ReorderTask>)

  /** The optimistic step: the arranged list is shown at once, the list it
      replaces is kept, and the request body is prepared. */
  function BeginReorder(st: State, reordered: seq<Task>): (f: InFlightReorder)
    ensures f.shown.tasks == reordered && f.snapshot == st.tasks
    ensures f.reordered == reordered
    ensures f.shown == st.(tasks := reordered)
    ensures f.payload == ReorderPayload(reordered)
  {
    InFlightReorder(st.(tasks := reordered), st.tasks, reordered, ReorderPayload(reordered))
  }

  /** The reply to an in-flight reorder: on success the arranged list with dense
      orders 1..n and every other field kept; on failure the snapshot comes back
      and the error is recorded. The sort settings are not touched. */
  function SettleReorder(f: InFlightReorder, outcome: Remote<()>): (r: State)
    ensures r.sortBy == f.shown.sortBy && r.sortOrder == f.shown.sortOrder
    ensures outcome.Resolved? ==>
      && |r.tasks| == |f.reordered|
      && (forall i :: 0 <= i < |r.tasks| ==> r.tasks[i].order == i + 1)
      && (forall i :: 0 <= i < |r.tasks| ==> r.tasks[i].(order := f.reordered[i].order) == f.reordered[i])
      && r.error == f.shown.error
    ensures outcome.Rejected? ==>
      && r.tasks == f.snapshot
      && r.error == Some(ErrorText(outcome.message, REORDER_FAILED))
  {
    match outcome
    case Resolved(_) => f.shown.(tasks := Renumber(f.reordered))
    case Rejected(m) => f.shown.(tasks := f.snapshot, error := Some(ErrorText(m, REORDER_FAILED)))
  }

  /** The whole reorder: on success the new sequence with dense orders; on failure
      exactly the list from before the call, with the error recorded. */
  function ReorderTasks(st: State, reordered: seq<Task>, outcome: Remote<()>): (r: State)
    ensures r.sortBy == st.sortBy && r.sortOrder == st.sortOrder
    ensures outcome.Resolved? ==>
      && |r.tasks| == |reordered|
      && (forall i :: 0 <= i < |r.tasks| ==> r.tasks[i].order == i + 1)
      && (forall i :: 0 <= i < |r.tasks| ==> r.tasks[i].(order := reordered[i].order) == reordered[i])
      && r.error == st.error
    ensures outcome.Rejected? ==> r == st.(error := Some(ErrorText(outcome.message, REORDER_FAILED)))
  {
    SettleReorder(BeginReorder(st, reordered), outcome)
  }

  /** Rollback undoes the optimistic step exactly: whatever was shown in between,
      the list returns to the snapshot and only the error changes. */
  lemma RollbackRestoresSnapshot(st: State, reordered: seq<Task>, m: Option<string>)
    ensures BeginReorder(st, reordered).shown.tasks == reordered
    ensures SettleReorder(BeginReorder(st, reordered), Rejected(m)).tasks == st.tasks
    ensures SettleReorder(BeginReorder(st, reordered), Rejected(m)).(error := st.error) == st
  {
  }

  ghost predicate StrictlyOrdered(ts: seq<Task>) {
    forall i, j :: 0 <= i < j < |ts| ==> ts[i].order < ts[j].order
  }

  /** Dropping tasks from a strictly ordered list leaves it strictly ordered. */
  lemma {:induction false} FilterKeepsStrictOrder(ts: seq<Task>, p: Task -> bool)
    requires StrictlyOrdered(ts)
    ensures StrictlyOrdered(Filter(ts, p))
    decreases |ts|
  {
    if |ts| > 0 {
      FilterKeepsStrictOrder(ts[1..], p);
      if p(ts[0]) {
        var rest := Filter(ts[1..], p);
        forall x | x in rest
          ensures ts[0].order < x.order
        {
          var k :| 0 <= k < |ts[1..]| && ts[1..][k] == x;
          assert ts[k + 1] == x;
        }
        PrependStrict(ts[0], rest);
      }
    }
  }

  /** A task with an order below every order of a strictly ordered list can lead it. */
  lemma PrependStrict(h: Task, rest: seq<Task>)
    requires StrictlyOrdered(rest)
    requires forall x :: x in rest ==> h.order < x.order
    ensures StrictlyOrdered([h] + rest)
  {
  }

  /** After a successful reorder the manual-order view shows the pending tasks
      in exactly the sequence the user arranged. */
  lemma ReorderedViewFollowsArrangement(st: State, reordered: seq<Task>, dir: SortOrder)
    ensures var after := ReorderTasks(st, reordered, Resolved(()));
      Sort(PendingTasks(after.tasks), UserDefined, dir) == PendingTasks(Renumber(reordered))
  {
    var renumbered := Renumber(reordered);
    FilterKeepsStrictOrder(renumbered, IsPending);
    SortKeepsSorted(PendingTasks(renumbered), UserDefined, dir);
  }
}
