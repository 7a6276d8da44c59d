/** How the client's reorder request and the server's reorder fit together. */
module TaskSync {
  import opened Int32
  import opened TaskItems
  import Client = TaskStore
  import Service = TaskService
  import opened Seqs

  /** The request body as the server reads it (each order must fit an `int`). */
  function ToServer(p: seq<Client.ReorderTask>): (b: seq<Service.ReorderTaskDto>)
    requires forall i :: 0 <= i < |p| ==> MIN <= p[i].order <= MAX
    ensures |b| == |p|
    ensures forall i :: 0 <= i < |b| ==> b[i].id == p[i].id && b[i].order as int == p[i].order
  {
    seq(|p|, i requires 0 <= i < |p| => Service.ReorderTaskDto(p[i].id, p[i].order as int32))
  }

  /** The reorder request for an arranged list, as the server receives it. */
  function Request(reordered: seq<Client.Task>): (b: seq<Service.ReorderTaskDto>)
    requires |reordered| <= MAX
    ensures |b| == |reordered|
    ensures forall i :: 0 <= i < |b| ==> b[i].id == reordered[i].id && b[i].order as int == i + 1
  {
    ToServer(Client.ReorderPayload(reordered))
  }

  /** When the arranged list names each task once, the server, applying the
      request, gives every stored task the order the client shows for it after
      a successful reorder, and leaves the tasks the list does not name as they were. */
  lemma ServerMatchesMirror(s: Service.Store, st: Client.State, reordered: seq<Client.Task>)
    requires DistinctBy(reordered, Client.IdOf)
    requires |reordered| <= MAX
    ensures Service.Reorder(s, Request(reordered)).Keys == s.Keys
    ensures forall i :: 0 <= i < |reordered| && reordered[i].id in s ==>
      Service.Reorder(s, Request(reordered))[reordered[i].id].order as int ==
      Client.ReorderTasks(st, reordered, Client.Resolved(())).tasks[i].order
    ensures forall id :: id in s && (forall i :: 0 <= i < |reordered| ==> reordered[i].id != id) ==>
      Service.Reorder(s, Request(reordered))[id] == s[id]
  {
    var shown := Client.ReorderTasks(st, reordered, Client.Resolved(())).tasks;
    var batch := Request(reordered);
    var stored := Service.Reorder(s, batch);
    Service.ReorderLastPairWins(s, batch);
    forall i | 0 <= i < |reordered| && reordered[i].id in s
      ensures stored[reordered[i].id].order as int == shown[i].order
    {
      Service.LastOrderOfDistinct(batch, i, s[reordered[i].id].order);
    }
    forall id | id in s && (forall i :: 0 <= i < |reordered| ==> reordered[i].id != id)
      ensures stored[id] == s[id]
    {
      assert forall i :: 0 <= i < |batch| ==> batch[i].id != id;
    }
  }
}
