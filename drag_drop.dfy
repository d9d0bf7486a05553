/** The drag-end rule of the board: which status change, if any, a drop
    asks the store to make. */
module DragDrop {
  import opened TaskModel

  /** A column (its droppable id is the status it shows) and a card index in it. */
  datatype Location = Location(droppableId: Status, index: int)

  datatype DropResult = DropResult(source: Location, destination: Option<Location>, draggableId: string)

  /** The drop leaves the card where it was picked up. */
  predicate SamePlace(d: DropResult) {
    d.destination.Some? &&
    d.destination.value.droppableId == d.source.droppableId &&
    d.destination.value.index == d.source.index
  }

  /** `handleDragEnd`: the task handed to `updateTask`, or none. */
  function HandleDragEnd(tasks: seq<Task>, d: DropResult): (r: Option<Task>)
    ensures r.None? <==> d.destination.None? || SamePlace(d) || !HasId(tasks, d.draggableId)
    ensures r.Some? ==>
      var k := IndexOfId(tasks, d.draggableId);
      k < |tasks| && tasks[k].id == d.draggableId &&
      (forall j :: 0 <= j < k ==> tasks[j].id != d.draggableId) &&
      SameExceptStatus(r.value, tasks[k]) &&
      r.value.status == d.destination.value.droppableId
  {
    match d.destination
    case None => None
    case Some(dest) =>
      if dest.droppableId == d.source.droppableId && dest.index == d.source.index then None
      else
        var k := IndexOfId(tasks, d.draggableId);
        if k == |tasks| then None
        else Some(tasks[k].(status := dest.droppableId))
  }

  /** A move within one column to another index still issues an update,
      and the update carries the status the task already had. */
  lemma ReorderInColumnStillUpdates(tasks: seq<Task>, d: DropResult)
    requires d.destination.Some? && d.destination.value.droppableId == d.source.droppableId
    requires d.destination.value.index != d.source.index
    requires HasId(tasks, d.draggableId)
    requires tasks[IndexOfId(tasks, d.draggableId)].status == d.source.droppableId
    ensures HandleDragEnd(tasks, d) == Some(tasks[IndexOfId(tasks, d.draggableId)])
  {
  }
}
