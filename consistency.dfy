/** How the front end's list and the service's file relate. The store
    replaces and deletes every entry with an id; the service only the
    first. While ids are unique the two agree, and each side keeps ids
    unique, so a client list that mirrors the file keeps mirroring it
    after every successful round trip. */
module Consistency {
  import opened TaskModel
  import ClientStore
  import FileStorage
  import DragDrop

  /** Under unique ids, replacing every match is replacing the first. */
  lemma ReplaceAgreesWhenUnique(tasks: seq<Task>, updated: Task)
    requires UniqueIds(tasks)
    ensures ClientStore.ReplaceById(tasks, updated) == FileStorage.ReplaceFirstById(tasks, updated)
  {
    var a := ClientStore.ReplaceById(tasks, updated);
    var b := FileStorage.ReplaceFirstById(tasks, updated);
    var k := IndexOfId(tasks, updated.id);
    forall i | 0 <= i < |tasks| ensures a[i] == b[i] {
      if tasks[i].id == updated.id {
        assert i == k;
      }
    }
  }

  lemma {:induction false} RemoveByIdConcat(a: seq<Task>, b: seq<Task>, id: string)
    ensures ClientStore.RemoveById(a + b, id) == ClientStore.RemoveById(a, id) + ClientStore.RemoveById(b, id)
  {
    if a != [] {
      RemoveByIdConcat(a[1..], b, id);
      assert (a + b)[1..] == a[1..] + b;
    } else {
      assert a + b == b;
    }
  }

  /** Under unique ids, removing every match is splicing out the first. */
  lemma RemoveAgreesWhenUnique(tasks: seq<Task>, id: string)
    requires UniqueIds(tasks)
    ensures ClientStore.RemoveById(tasks, id) == FileStorage.RemoveFirstById(tasks, id)
  {
    var k := IndexOfId(tasks, id);
    if k == |tasks| {
      ClientStore.RemoveAbsentIsIdentity(tasks, id);
    } else {
      RemoveOnlyMatch(tasks, id, k);
    }
  }

  /** Removing an id held at `k` alone splices out position `k`. */
  lemma RemoveOnlyMatch(tasks: seq<Task>, id: string, k: nat)
    requires k < |tasks| && tasks[k].id == id
    requires forall j :: 0 <= j < |tasks| && j != k ==> tasks[j].id != id
    ensures ClientStore.RemoveById(tasks, id) == tasks[..k] + tasks[k + 1..]
  {
    var before, after := tasks[..k], tasks[k + 1..];
    assert tasks == before + ([tasks[k]] + after);
    RemoveByIdConcat(before, [tasks[k]] + after, id);
    RemoveByIdConcat([tasks[k]], after, id);
    assert !HasId(before, id);
    ClientStore.RemoveAbsentIsIdentity(before, id);
    assert !HasId(after, id) by {
      forall j | 0 <= j < |after| ensures after[j].id != id {
        assert after[j] == tasks[k + 1 + j];
      }
    }
    ClientStore.RemoveAbsentIsIdentity(after, id);
    assert ClientStore.RemoveById([tasks[k]], id) == [];
  }

  /** With a duplicated id the two differ: the store replaces the second
      copy too, the service leaves it. */
  lemma ReplaceDiffersOnDuplicates(tasks: seq<Task>, updated: Task, i: nat, j: nat)
    requires i < j < |tasks| && tasks[i].id == updated.id && tasks[j].id == updated.id
    requires tasks[j] != updated
    ensures ClientStore.ReplaceById(tasks, updated) != FileStorage.ReplaceFirstById(tasks, updated)
  {
    assert ClientStore.ReplaceById(tasks, updated)[j] == updated;
    assert IndexOfId(tasks, updated.id) <= i;
  }

  /** Appending a task whose id is not yet used keeps ids unique. */
  lemma AppendFreshKeepsUnique(tasks: seq<Task>, t: Task)
    requires UniqueIds(tasks) && !HasId(tasks, t.id)
    ensures UniqueIds(tasks + [t])
  {
    var r := tasks + [t];
    forall i, j | 0 <= i < j < |r| ensures r[i].id != r[j].id {
      if j == |tasks| {
        assert r[i] == tasks[i];
      } else {
        assert r[i] == tasks[i] && r[j] == tasks[j];
      }
    }
  }

  /** The service's three writes keep ids unique, given a fresh id for
      each added task. */
  lemma StorageKeepsUniqueIds(tasks: seq<Task>, added: Task, updated: Task, id: string)
    requires UniqueIds(tasks)
    requires !HasId(tasks, added.id)
    ensures UniqueIds(tasks + [added])
    ensures UniqueIds(FileStorage.ReplaceFirstById(tasks, updated))
    ensures UniqueIds(FileStorage.RemoveFirstById(tasks, id))
  {
    AppendFreshKeepsUnique(tasks, added);
    var r := FileStorage.ReplaceFirstById(tasks, updated);
    var k := IndexOfId(tasks, updated.id);
    forall i | 0 <= i < |r| ensures r[i].id == tasks[i].id {
      if i == k { assert r[i] == updated; }
    }
    SubsequenceUniqueIds(FileStorage.RemoveFirstById(tasks, id), tasks);
  }

  /** The store's update and delete keep ids unique. */
  lemma StoreKeepsUniqueIds(tasks: seq<Task>, updated: Task, id: string)
    requires UniqueIds(tasks)
    ensures UniqueIds(ClientStore.ReplaceById(tasks, updated))
    ensures UniqueIds(ClientStore.RemoveById(tasks, id))
  {
    ClientStore.ReplaceKeepsIds(tasks, updated);
    SubsequenceUniqueIds(ClientStore.RemoveById(tasks, id), tasks);
  }

  /** A drag that yields an update, sent to the service whose file holds
      the same list (the path id is the task's own id) and reconciled with
      the service's reply, changes exactly one entry of the list: the
      dragged task gets the destination status and a fresh update time, and
      every other entry and the length stay. */
  lemma DragRoundTrip(tasks: seq<Task>, d: DragDrop.DropResult, now: int)
    requires UniqueIds(tasks)
    requires DragDrop.HandleDragEnd(tasks, d).Some?
    ensures var u := DragDrop.HandleDragEnd(tasks, d).value;
      var reply := FileStorage.UpdatedRecord(tasks, u, now);
      var k := IndexOfId(tasks, d.draggableId);
      k < |tasks| &&
      FileStorage.ReplaceFirstById(tasks, reply) == ClientStore.ReplaceById(tasks, reply) &&
      ClientStore.ReplaceById(tasks, reply) ==
        tasks[k := tasks[k].(status := d.destination.value.droppableId, updatedAt := Some(now))]
  {
    var u := DragDrop.HandleDragEnd(tasks, d).value;
    var reply := FileStorage.UpdatedRecord(tasks, u, now);
    var k := IndexOfId(tasks, d.draggableId);
    assert tasks[k].id == u.id;
    assert HasId(tasks, u.id);
    ReplaceAgreesWhenUnique(tasks, reply);
  }
}
