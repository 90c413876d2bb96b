/**
  The drag gesture as the drag-and-drop library reports it when a drag ends,
  and the single move request both board pages derive from it.
 */
module DragDrop {
  import opened Basics

  /** A slot in a droppable list: the list's id and a 0-based index. */
  datatype Location = Location(droppableId: string, index: nat)

  /** A finished drag: which item, where it was picked up, and where it was
      dropped (`None` when it was released outside every droppable list). */
  datatype DropResult = DropResult(draggableId: string, source: Location, destination: Option<Location>)

  /** The body of a move request. `toPosition` is 1-based, as the move
      endpoint expects. */
  datatype MoveRequest = MoveRequest(taskId: string, toColumnId: string, toPosition: int)

  /** The guard every drag handler starts with: a cancelled drag, or a drop
      on the very slot the item came from. */
  predicate IsNoOpDrop(r: DropResult) {
    || r.destination.None?
    || (r.destination.value.droppableId == r.source.droppableId
        && r.destination.value.index == r.source.index)
  }

  /** The move request `onDragEnd` issues, if any. */
  function MoveIntent(r: DropResult): (m: Option<MoveRequest>)
    ensures m.None? <==> r.destination.None? || r.destination == Some(r.source)
    ensures m.Some? ==> m.value.taskId == r.draggableId
    ensures m.Some? ==> m.value.toColumnId == r.destination.value.droppableId
    ensures m.Some? ==> m.value.toPosition >= 1 && m.value.toPosition - 1 == r.destination.value.index
  {
    if IsNoOpDrop(r) then None
    else Some(MoveRequest(r.draggableId, r.destination.value.droppableId, r.destination.value.index + 1))
  }

  /** The gesture that carries the item straight back to where it came from. */
  function DragBack(r: DropResult): DropResult
    requires r.destination.Some?
  {
    DropResult(r.draggableId, r.destination.value, Some(r.source))
  }

  /** Dragging back is a move exactly when the original drag was one, and it
      asks for the original 1-based position. */
  lemma DragBackIntent(r: DropResult)
    requires r.destination.Some?
    ensures MoveIntent(DragBack(r)).Some? <==> MoveIntent(r).Some?
    ensures MoveIntent(r).Some? ==>
      MoveIntent(DragBack(r)) == Some(MoveRequest(r.draggableId, r.source.droppableId, r.source.index + 1))
  {
  }
}
