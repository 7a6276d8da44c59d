/** The task table, seen as a finite map from id to record. Entity Framework's
    change tracking and `SaveChanges` collapse into replacing the map. */
module TaskRepository {
  import opened Outcomes
  import opened Int32
  import opened TaskItems
  import opened Seqs

  /** Every record is filed under its own id, the table's primary key. */
  type Store = m: map<Id, TaskItem> | forall id :: id in m ==> m[id].id == id
    witness map[]

  /** The table after an operation, together with what the operation returned. */
  datatype Reply<+T> = Reply(store: Store, value: T)

  ghost predicate SortedByOrder(ts: seq<TaskItem>) {
    forall i, j :: 0 <= i < j < |ts| ==> ts[i].order <= ts[j].order
  }

  /** `ts` holds every stored record exactly once and nothing else. */
  ghost predicate ListsExactly(ts: seq<TaskItem>, s: Store) {
    && (forall t :: t in ts ==> t.id in s && s[t.id] == t)
    && (forall id :: id in s ==> s[id] in ts)
    && DistinctBy(ts, IdOf)
  }

  /** Where `t` goes in a list sorted by `order`: after every record whose order
      does not exceed its own, before every record whose order does. */
  function InsertionPoint(t: TaskItem, ts: seq<TaskItem>): (k: nat)
    requires SortedByOrder(ts)
    ensures k <= |ts|
    ensures forall i :: 0 <= i < k ==> ts[i].order <= t.order
    ensures forall i :: k <= i < |ts| ==> t.order < ts[i].order
  {
    if |ts| == 0 || t.order < ts[0].order then 0
    else 1 + InsertionPoint(t, ts[1..])
  }

  /** Placing `t` at its insertion point keeps the list sorted, adds exactly `t`,
      and keeps ids distinct when `t`'s id is new. */
  lemma InsertAtPoint(t: TaskItem, ts: seq<TaskItem>, k: nat)
    requires SortedByOrder(ts) && DistinctBy(ts, IdOf)
    requires k == InsertionPoint(t, ts)
    requires forall x :: x in ts ==> x.id != t.id
    ensures SortedByOrder(ts[..k] + [t] + ts[k..])
    ensures DistinctBy(ts[..k] + [t] + ts[k..], IdOf)
    ensures forall x :: x in ts[..k] + [t] + ts[k..] <==> x in ts || x == t
    ensures |ts[..k] + [t] + ts[k..]| == |ts| + 1
  {
    InsertPositions(t, ts, k);
    InsertSorted(t, ts, k);
    InsertDistinct(t, ts, k);
    assert ts == ts[..k] + ts[k..];
  }

  /** Position by position, the list with `t` inserted at `k`. */
  lemma InsertPositions(t: TaskItem, ts: seq<TaskItem>, k: nat)
    requires k <= |ts|
    ensures |ts[..k] + [t] + ts[k..]| == |ts| + 1
    ensures forall i :: 0 <= i <= |ts| ==> (ts[..k] + [t] + ts[k..])[i] == At(t, ts, k, i)
  {
  }

  /** Inserting at the insertion point keeps the list sorted by `order`. */
  lemma InsertSorted(t: TaskItem, ts: seq<TaskItem>, k: nat)
    requires SortedByOrder(ts)
    requires k == InsertionPoint(t, ts)
    requires |ts[..k] + [t] + ts[k..]| == |ts| + 1
    requires forall i :: 0 <= i <= |ts| ==> (ts[..k] + [t] + ts[k..])[i] == At(t, ts, k, i)
    ensures SortedByOrder(ts[..k] + [t] + ts[k..])
  {
    var next := ts[..k] + [t] + ts[k..];
    forall i, j | 0 <= i < j < |next|
      ensures next[i].order <= next[j].order
    {
      assert next[i] == At(t, ts, k, i) && next[j] == At(t, ts, k, j);
    }
  }

  /** Inserting a record whose id is new keeps the ids distinct. */
  lemma InsertDistinct(t: TaskItem, ts: seq<TaskItem>, k: nat)
    requires DistinctBy(ts, IdOf)
    requires k <= |ts|
    requires forall x :: x in ts ==> x.id != t.id
    requires |ts[..k] + [t] + ts[k..]| == |ts| + 1
    requires forall i :: 0 <= i <= |ts| ==> (ts[..k] + [t] + ts[k..])[i] == At(t, ts, k, i)
    ensures DistinctBy(ts[..k] + [t] + ts[k..], IdOf)
  {
    var next := ts[..k] + [t] + ts[k..];
    forall i, j | 0 <= i < j < |next|
      ensures next[i].id != next[j].id
    {
      assert next[i] == At(t, ts, k, i) && next[j] == At(t, ts, k, j);
      if i == k {
        assert ts[j - 1] in ts;
      } else if j == k {
        assert ts[i] in ts;
      }
    }
  }

  /** The element at position `i` of `ts` with `t` inserted at position `k`. */
  function At(t: TaskItem, ts: seq<TaskItem>, k: nat, i: nat): TaskItem
    requires k <= |ts| && i <= |ts|
  {
    if i < k then ts[i] else if i == k then t else ts[i - 1]
  }

  /** `ts` lists, sorted and once each, exactly the records whose ids have left
      `remaining`. */
  ghost predicate ListedSoFar(s: Store, ts: seq<TaskItem>, remaining: set<Id>) {
    && remaining <= s.Keys
    && (forall t :: t in ts ==> t.id in s && s[t.id] == t && t.id !in remaining)
    && (forall id :: id in s && id !in remaining ==> s[id] in ts)
    && DistinctBy(ts, IdOf)
    && SortedByOrder(ts)
    && |ts| == |s.Keys - remaining|
  }

  /** Inserting the record of one more id at its insertion point lists it too. */
  lemma ListOneMore(s: Store, ts: seq<TaskItem>, remaining: set<Id>, id: Id)
    requires ListedSoFar(s, ts, remaining) && id in remaining
    ensures ListedSoFar(s, Place(s[id], ts), remaining - {id})
  {
    var t := s[id];
    var k := InsertionPoint(t, ts);
    InsertAtPoint(t, ts, k);
    assert s.Keys - (remaining - {id}) == (s.Keys - remaining) + {id};
  }

  /** `ts` with `t` at its insertion point. */
  function Place(t: TaskItem, ts: seq<TaskItem>): seq<TaskItem>
    requires SortedByOrder(ts)
  {
    var k := InsertionPoint(t, ts);
    ts[..k] + [t] + ts[k..]
  }

  /** All records, ascending by `order`; the order among equal `order` values is
      left open, as it is for the database's `ORDER BY`. */
  method GetAll(s: Store) returns (ts: seq<TaskItem>)
    ensures ListsExactly(ts, s)
    ensures SortedByOrder(ts)
    ensures |ts| == |s|
  {
    ts := [];
    var remaining := s.Keys;
    while remaining != {}
      invariant ListedSoFar(s, ts, remaining)
      decreases remaining
    {
      var id :| id in remaining;
      ListOneMore(s, ts, remaining, id);
      ts := Place(s[id], ts);
      remaining := remaining - {id};
    }
    assert s.Keys - remaining == s.Keys;
  }

  /** The record with this id, or nothing (`FindAsync` returning `null`). */
  function GetById(s: Store, id: Id): (r: Option<TaskItem>)
    ensures r.Some? <==> id in s
    ensures r.Some? ==> r.value.id == id && r.value == s[id]
  {
    if id in s then Some(s[id]) else None
  }

  /** Inserts a new record; inserting an id that is already stored fails. */
  function Create(s: Store, t: TaskItem): (r: Reply<Result<TaskItem>>)
    ensures t.id in s ==> r == Reply(s, Err(DuplicateKey))
    ensures t.id !in s ==> r.value == Ok(t) && r.store.Keys == s.Keys + {t.id}
    ensures t.id !in s ==> r.store[t.id] == t && forall id :: id in s ==> r.store[id] == s[id]
  {
    if t.id in s then Reply(s, Err(DuplicateKey)) else Reply(s[t.id := t], Ok(t))
  }

  /** Overwrites the record with the same id; a missing row fails to update. */
  function Update(s: Store, t: TaskItem): (r: Reply<Result<TaskItem>>)
    ensures t.id !in s ==> r == Reply(s, Err(NotFound))
    ensures t.id in s ==> r.value == Ok(t) && r.store.Keys == s.Keys && r.store[t.id] == t
    ensures t.id in s ==> forall id :: id in s && id != t.id ==> r.store[id] == s[id]
  {
    if t.id in s then Reply(s[t.id := t], Ok(t)) else Reply(s, Err(NotFound))
  }

  /** Removes the record with this id and reports whether there was one. */
  function Delete(s: Store, id: Id): (r: Reply<bool>)
    ensures r.value <==> id in s
    ensures r.store.Keys == s.Keys - {id}
    ensures forall k :: k in r.store ==> r.store[k] == s[k]
  {
    match GetById(s, id)
    case None => Reply(s, false)
    case Some(_) => Reply(s - {id}, true)
  }

  /** After a successful insert the record can be read back by its id. */
  lemma CreateThenGet(s: Store, t: TaskItem)
    requires t.id !in s
    ensures Create(s, t).value.Ok?
    ensures GetById(Create(s, t).store, t.id) == Some(t)
  {
  }

  /** After an update the record can be read back by its id. */
  lemma UpdateThenGet(s: Store, t: TaskItem)
    requires t.id in s
    ensures GetById(Update(s, t).store, t.id) == Some(t)
  {
  }

  /** Deleting an id that is not stored changes nothing. */
  lemma DeleteAbsent(s: Store, id: Id)
    requires id !in s
    ensures Delete(s, id) == Reply(s, false)
  {
  }

  /** After a delete the id can no longer be read, whether or not it was there. */
  lemma DeleteThenGet(s: Store, id: Id)
    ensures GetById(Delete(s, id).store, id) == None
  {
  }
}
