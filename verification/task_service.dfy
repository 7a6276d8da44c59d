/** The domain service: the rules for ordering and completion state, applied on
    top of the repository. `DateTime.UtcNow` and `Guid.NewGuid()` become the
    parameters `now` and `newId`. */
module TaskService {
  import opened Outcomes
  import opened Int32
  import opened TaskItems
  import Repo = TaskRepository

  type Store = Repo.Store
  type Reply<T> = Repo.Reply<T>

  datatype CreateTaskDto = CreateTaskDto(title: string, description: string, priority: int32)
  datatype UpdateTaskDto = UpdateTaskDto(title: string, description: string, isCompleted: bool, priority: int32)
  datatype ReorderTaskDto = ReorderTaskDto(id: Id, order: int32)
  datatype TaskItemDto = TaskItemDto(
    id: Id,
    title: string,
    description: string,
    isCompleted: bool,
    order: int32,
    priority: int32,
    createdAt: Time,
    completedAt: Option<Time>)

  /** The record a DTO describes, field by field. */
  function FromDto(d: TaskItemDto): TaskItem {
    TaskItem(d.id, d.title, d.description, d.isCompleted, d.order, d.priority, d.createdAt, d.completedAt)
  }

  /** The external representation of a record: every field copied, the priority as
      its number, so the record can be read back from it. */
  function MapToDto(t: TaskItem): (d: TaskItemDto)
    ensures FromDto(d) == t
    ensures d.id == t.id && d.order == t.order
  {
    TaskItemDto(t.id, t.title, t.description, t.isCompleted, t.order, t.priority, t.createdAt, t.completedAt)
  }

  /** No information is lost on the way out: different records give different DTOs. */
  lemma MapToDtoInjective(a: TaskItem, b: TaskItem)
    ensures MapToDto(a) == MapToDto(b) ==> a == b
  {
  }

  // ----- Reading -----

  /** Every task exactly once, ascending by `order`, as DTOs. */
  method GetAllTasks(s: Store) returns (ds: seq<TaskItemDto>)
    ensures |ds| == |s|
    ensures forall i :: 0 <= i < |ds| ==> ds[i].id in s && ds[i] == MapToDto(s[ds[i].id])
    ensures forall id :: id in s ==> MapToDto(s[id]) in ds
    ensures forall i, j :: 0 <= i < j < |ds| ==> ds[i].id != ds[j].id && ds[i].order <= ds[j].order
  {
    var ts := Repo.GetAll(s);
    ds := seq(|ts|, i requires 0 <= i < |ts| => MapToDto(ts[i]));
    forall id | id in s
      ensures MapToDto(s[id]) in ds
    {
      var i :| 0 <= i < |ts| && ts[i] == s[id];
      assert ds[i] == MapToDto(s[id]);
    }
  }

  /** The task with this id, or nothing when it is absent (not an error). */
  function GetTaskById(s: Store, id: Id): (r: Option<TaskItemDto>)
    ensures r.Some? <==> id in s
    ensures r.Some? ==> r.value.id == id && r.value == MapToDto(s[id])
  {
    match Repo.GetById(s, id)
    case None => None
    case Some(t) => Some(MapToDto(t))
  }

  // ----- Creating -----

  /** The largest order in a non-empty list of tasks. */
  function MaxOrder(ts: seq<TaskItem>): (m: int32)
    requires |ts| > 0
    ensures forall i :: 0 <= i < |ts| ==> ts[i].order <= m
    ensures exists i :: 0 <= i < |ts| && ts[i].order == m
  {
    if |ts| == 1 then ts[0].order
    else
      var rest := MaxOrder(ts[1..]);
      if ts[0].order < rest then rest else ts[0].order
  }

  /** The fields a newly created task starts with. */
  ghost predicate StartsFrom(t: TaskItem, dto: CreateTaskDto, newId: Id, now: Time) {
    && t.id == newId
    && t.title == dto.title
    && t.description == dto.description
    && t.priority == dto.priority
    && !t.isCompleted
    && t.completedAt == None
    && t.createdAt == now
  }

  /** The largest stored order, or 0 in an empty store, found by listing every
      task and taking the maximum of their orders. */
  method StoredMaxOrder(s: Store) returns (m: int32)
    ensures |s| == 0 ==> m == 0
    ensures forall id :: id in s ==> s[id].order <= m
    ensures |s| > 0 ==> exists id :: id in s && s[id].order == m
  {
    var all := Repo.GetAll(s);
    m := if |all| > 0 then MaxOrder(all) else 0;
    if |all| > 0 {
      var i :| 0 <= i < |all| && all[i].order == m;
      assert all[i] in all;
      forall id | id in s
        ensures s[id].order <= m
      {
        var j :| 0 <= j < |all| && all[j] == s[id];
      }
    }
  }

  /** Creates a task after every existing one: its order is one past the largest
      stored order (1 in an empty store), computed in unchecked 32-bit arithmetic.
      A colliding id fails in the store. */
  method Create(s: Store, dto: CreateTaskDto, newId: Id, now: Time) returns (r: Reply<Result<TaskItemDto>>)
    ensures newId in s ==> r == Repo.Reply(s, Err(DuplicateKey))
    ensures newId !in s ==>
      && r.store.Keys == s.Keys + {newId}
      && (forall id :: id in s ==> r.store[id] == s[id])
      && StartsFrom(r.store[newId], dto, newId, now)
      && r.value == Ok(MapToDto(r.store[newId]))
    ensures newId !in s ==> IsAppendOrder(s, r.store[newId].order)
  {
    var maxOrder := StoredMaxOrder(s);
    if maxOrder == MAX {
      WrapPastMax();
    }
    var task := TaskItem(newId, dto.title, dto.description, false, Wrap(maxOrder as int + 1), dto.priority, now, None);
    var saved := Repo.Create(s, task);
    r := Repo.Reply(saved.store, saved.value.MapOk(MapToDto));
  }

  /** Once a reorder has given some task the largest `int` as its order, the next
      created task wraps around and is placed before that task instead of after it. */
  lemma WrappedOrderSortsFirst(s: Store, o: int32)
    requires IsAppendOrder(s, o)
    requires exists id :: id in s && s[id].order == MAX
    ensures exists id :: id in s && o < s[id].order
  {
  }

  /** Creation with checked arithmetic, as evidently intended: it fails with
      `Overflow` rather than place the new task before existing ones. */
  method CreateChecked(s: Store, dto: CreateTaskDto, newId: Id, now: Time) returns (r: Reply<Result<TaskItemDto>>)
    ensures (newId in s || exists id :: id in s && s[id].order == MAX) ==> r.store == s && r.value.Err?
    ensures newId in s ==> r.value == Err(DuplicateKey)
    ensures newId !in s && (exists id :: id in s && s[id].order == MAX) ==> r.value == Err(Overflow)
    ensures r.value.Ok? ==>
      && newId !in s
      && r.store.Keys == s.Keys + {newId}
      && (forall id :: id in s ==> r.store[id] == s[id])
      && StartsFrom(r.store[newId], dto, newId, now)
      && (forall id :: id in s ==> s[id].order < r.store[newId].order)
      && r.value == Ok(MapToDto(r.store[newId]))
    ensures r.value.Ok? ==> IsAppendOrder(s, r.store[newId].order)
    ensures newId !in s && (forall id :: id in s ==> s[id].order < MAX) ==> r.value.Ok?
  {
    if newId in s {
      return Repo.Reply(s, Err(DuplicateKey));
    }
    var maxOrder := StoredMaxOrder(s);
    if maxOrder == MAX {
      return Repo.Reply(s, Err(Overflow));
    }
    var task := TaskItem(newId, dto.title, dto.description, false, maxOrder + 1, dto.priority, now, None);
    var saved := Repo.Create(s, task);
    r := Repo.Reply(saved.store, saved.value.MapOk(MapToDto));
  }

  /** `o` is the order a task created in `s` must receive: 1 in an empty store;
      otherwise, while no stored order is the largest `int`, one more than the
      largest stored order (so above every one of them); and the wrapped-around
      smallest `int` once some stored order is the largest. */
  ghost predicate IsAppendOrder(s: Store, o: int32) {
    && (|s| == 0 ==> o == 1)
    && ((forall id :: id in s ==> s[id].order < MAX) ==>
         && (forall id :: id in s ==> s[id].order < o)
         && (|s| > 0 ==> exists id :: id in s && o == s[id].order + 1))
    && ((exists id :: id in s && s[id].order == MAX) ==> o == MIN)
  }

  // ----- Updating -----

  /** The four fields an update overwrites; everything else is kept. */
  function Edit(t: TaskItem, dto: UpdateTaskDto): TaskItem {
    t.(title := dto.title, description := dto.description, isCompleted := dto.isCompleted, priority := dto.priority)
  }

  /** `after` is `before` with the four update fields taken from `dto`; id,
      order and creation time are untouched. */
  ghost predicate EditedFrom(after: TaskItem, before: TaskItem, dto: UpdateTaskDto) {
    && after.id == before.id
    && after.order == before.order
    && after.createdAt == before.createdAt
    && after.title == dto.title
    && after.description == dto.description
    && after.isCompleted == dto.isCompleted
    && after.priority == dto.priority
  }

  /** A full update, as the code is written. The completion flag is overwritten
      before the test that should detect a pending task becoming completed, so
      that test always fails: a completion time is never recorded here. */
  function Update(s: Store, id: Id, dto: UpdateTaskDto, now: Time): (r: Reply<Result<TaskItemDto>>)
    ensures id !in s ==> r == Repo.Reply(s, Err(NotFound))
    ensures id in s ==>
      && r.store.Keys == s.Keys
      && (forall k :: k in s && k != id ==> r.store[k] == s[k])
      && EditedFrom(r.store[id], s[id], dto)
      && r.store[id].completedAt == (if dto.isCompleted then s[id].completedAt else None)
      && r.value == Ok(MapToDto(r.store[id]))
  {
    match Repo.GetById(s, id)
    case None => Repo.Reply(s, Err(NotFound))
    case Some(task) =>
      var edited := Edit(task, dto);
      var stamped :=
        if dto.isCompleted && !edited.isCompleted then edited.(completedAt := Some(now))
        else if !dto.isCompleted then edited.(completedAt := None)
        else edited;
      var saved := Repo.Update(s, stamped);
      Repo.Reply(saved.store, saved.value.MapOk(MapToDto))
  }

  /** A pending task updated to completed is left without a completion time. */
  lemma UpdateNeverStamps(s: Store, id: Id, dto: UpdateTaskDto, now: Time)
    requires id in s && !s[id].isCompleted && s[id].completedAt == None
    requires dto.isCompleted
    ensures Update(s, id, dto, now).store[id].isCompleted
    ensures !CompletionConsistent(Update(s, id, dto, now).store[id])
  {
  }

  /** The update as evidently intended: the transition test looks at the flag the
      task had before the edit. */
  function UpdateCorrected(s: Store, id: Id, dto: UpdateTaskDto, now: Time): (r: Reply<Result<TaskItemDto>>)
    ensures id !in s ==> r == Repo.Reply(s, Err(NotFound))
    ensures id in s ==>
      && r.store.Keys == s.Keys
      && (forall k :: k in s && k != id ==> r.store[k] == s[k])
      && EditedFrom(r.store[id], s[id], dto)
      && (dto.isCompleted && !s[id].isCompleted ==> r.store[id].completedAt == Some(now))
      && (dto.isCompleted && s[id].isCompleted ==> r.store[id].completedAt == s[id].completedAt)
      && (!dto.isCompleted ==> r.store[id].completedAt == None)
      && r.value == Ok(MapToDto(r.store[id]))
  {
    match Repo.GetById(s, id)
    case None => Repo.Reply(s, Err(NotFound))
    case Some(task) =>
      var edited := Edit(task, dto);
      var stamped :=
        if dto.isCompleted && !task.isCompleted then edited.(completedAt := Some(now))
        else if !dto.isCompleted then edited.(completedAt := None)
        else edited;
      var saved := Repo.Update(s, stamped);
      Repo.Reply(saved.store, saved.value.MapOk(MapToDto))
  }

  /** The corrected update keeps a consistent record consistent. */
  lemma UpdateCorrectedKeepsConsistency(s: Store, id: Id, dto: UpdateTaskDto, now: Time)
    requires id in s
    ensures CompletionConsistent(s[id]) ==> CompletionConsistent(UpdateCorrected(s, id, dto, now).store[id])
  {
  }

  // ----- Toggling -----

  /** Flips completion and records `now` as the completion time exactly when the
      task becomes completed. */
  function Toggle(s: Store, id: Id, now: Time): (r: Reply<Result<TaskItemDto>>)
    ensures id !in s ==> r == Repo.Reply(s, Err(NotFound))
    ensures id in s ==>
      && r.store.Keys == s.Keys
      && (forall k :: k in s && k != id ==> r.store[k] == s[k])
      && r.store[id].isCompleted == !s[id].isCompleted
      && CompletionConsistent(r.store[id])
      && (r.store[id].isCompleted ==> r.store[id].completedAt == Some(now))
      && r.store[id].(isCompleted := s[id].isCompleted, completedAt := s[id].completedAt) == s[id]
      && r.value == Ok(MapToDto(r.store[id]))
  {
    match Repo.GetById(s, id)
    case None => Repo.Reply(s, Err(NotFound))
    case Some(task) =>
      var flipped := task.(isCompleted := !task.isCompleted);
      var stamped := flipped.(completedAt := if flipped.isCompleted then Some(now) else None);
      var saved := Repo.Update(s, stamped);
      Repo.Reply(saved.store, saved.value.MapOk(MapToDto))
  }

  /** Toggling twice restores the flag; a task that started pending gets back
      exactly its original record. */
  lemma ToggleTwice(s: Store, id: Id, now1: Time, now2: Time)
    requires id in s
    ensures Toggle(Toggle(s, id, now1).store, id, now2).store[id].isCompleted == s[id].isCompleted
    ensures !s[id].isCompleted ==> Toggle(Toggle(s, id, now1).store, id, now2).store[id].completedAt == None
    ensures !s[id].isCompleted && s[id].completedAt == None ==> Toggle(Toggle(s, id, now1).store, id, now2).store == s
  {
  }

  // ----- Reordering -----

  /** The order a task ends with after a reorder batch: the order of the last pair
      naming it, or `current` when no pair does. */
  function LastOrder(batch: seq<ReorderTaskDto>, id: Id, current: int32): (o: int32)
    ensures (forall i :: 0 <= i < |batch| ==> batch[i].id != id) ==> o == current
    ensures (exists i :: 0 <= i < |batch| && batch[i].id == id) ==>
      exists i :: 0 <= i < |batch| && batch[i].id == id && o == batch[i].order &&
        forall j :: i < j < |batch| ==> batch[j].id != id
    decreases |batch|
  {
    if |batch| == 0 then current
    else if batch[|batch| - 1].id == id then batch[|batch| - 1].order
    else LastOrder(batch[..|batch| - 1], id, current)
  }

  /** Applies the pairs one by one; a pair whose id is not stored is skipped. */
  function Reorder(s: Store, batch: seq<ReorderTaskDto>): (r: Store)
    ensures r.Keys == s.Keys
    ensures forall id :: id in s ==> r[id] == s[id].(order := r[id].order)
    decreases |batch|
  {
    if |batch| == 0 then s
    else
      var pair := batch[0];
      var next :=
        match Repo.GetById(s, pair.id)
        case None => s
        case Some(task) => Repo.Update(s, task.(order := pair.order)).store;
      Reorder(next, batch[1..])
  }

  /** Looking at the batch from the end or from the front gives the same answer. */
  lemma {:induction false} LastOrderFront(batch: seq<ReorderTaskDto>, id: Id, current: int32)
    requires |batch| > 0
    ensures LastOrder(batch, id, current) ==
      LastOrder(batch[1..], id, if batch[0].id == id then batch[0].order else current)
    decreases |batch|
  {
  }

  /** Reorder sets each stored task's order to that of the last pair naming it,
      and leaves the tasks no pair names untouched. */
  lemma {:induction false} ReorderLastPairWins(s: Store, batch: seq<ReorderTaskDto>)
    ensures forall id :: id in s ==> Reorder(s, batch)[id].order == LastOrder(batch, id, s[id].order)
    decreases |batch|
  {
    if |batch| > 0 {
      var pair := batch[0];
      var next :=
        match Repo.GetById(s, pair.id)
        case None => s
        case Some(task) => Repo.Update(s, task.(order := pair.order)).store;
      ReorderLastPairWins(next, batch[1..]);
      forall id | id in s
        ensures Reorder(s, batch)[id].order == LastOrder(batch, id, s[id].order)
      {
        LastOrderFront(batch, id, s[id].order);
      }
    }
  }

  /** In a batch that names each id at most once, every pair's order is the one applied. */
  lemma LastOrderOfDistinct(batch: seq<ReorderTaskDto>, i: nat, current: int32)
    requires forall j, k :: 0 <= j < k < |batch| ==> batch[j].id != batch[k].id
    requires i < |batch|
    ensures LastOrder(batch, batch[i].id, current) == batch[i].order
  {
  }

  /** A reorder batch naming one stored task and one unknown id moves only the
      stored task and adds nothing. */
  lemma ReorderSkipsUnknown(s: Store, known: Id, unknown: Id, o1: int32, o2: int32)
    requires known in s && unknown !in s
    ensures Reorder(s, [ReorderTaskDto(known, o1), ReorderTaskDto(unknown, o2)]) == s[known := s[known].(order := o1)]
  {
    var batch := [ReorderTaskDto(known, o1), ReorderTaskDto(unknown, o2)];
    var r := Reorder(s, batch);
    ReorderLastPairWins(s, batch);
    forall id | id in s
      ensures r[id] == s[known := s[known].(order := o1)][id]
    {
      if id != known {
        assert LastOrder(batch, id, s[id].order) == s[id].order;
      }
    }
  }

  // ----- Deleting -----

  /** Removes the task and reports whether it existed. */
  function Delete(s: Store, id: Id): (r: Reply<bool>)
    ensures r.value <==> id in s
    ensures id !in r.store && r.store.Keys == s.Keys - {id}
    ensures forall k :: k in r.store ==> r.store[k] == s[k]
  {
    Repo.Delete(s, id)
  }
}
