/**
  The events the server-backed board page records after each successful
  task mutation, and what the timeline then shows for them.
 */
module BoardEvents {
  import opened Basics
  import opened DragDrop
  import opened OverlayStore
  import opened Timeline
  import opened BoardHelpers

  /** A mutation the server acknowledged. `Created` carries the id the
      server gave the new task and the column it was created in. */
  datatype Mutation =
    | Created(taskId: string, columnId: string)
    | Updated(taskId: string)
    | Deleted(taskId: string)
    | Moved(req: MoveRequest)

  function KindOf(m: Mutation): EventKind {
    match m
    case Created(_, _) => TaskCreated
    case Updated(_) => TaskUpdated
    case Deleted(_) => TaskDeleted
    case Moved(_) => TaskMoved
  }

  function TaskOf(m: Mutation): string {
    if m.Moved? then m.req.taskId else m.taskId
  }

  /** The payload as the page builds it: kind, task id and board id only,
      for a move as for every other mutation. */
  function EventOf(m: Mutation, boardId: string): (p: EventPayload)
    ensures p.kind == KindOf(m) && p.taskId == TaskOf(m) && p.boardId == Some(boardId)
    ensures p.title.None? && p.fromColumnId.None? && p.toColumnId.None? && p.toPosition.None?
    ensures p.timestamp.None?
  {
    EventPayload(KindOf(m), TaskOf(m), None, None, None, None, Some(boardId), None)
  }

  /** Whatever column a task is moved to, its timeline item reports the
      move as one to "Direncanakan". */
  lemma MovedAlwaysPlanned(req: MoveRequest, boardId: string, freshId: string, now: Time,
                           titles: map<string, string>, labels: map<string, seq<string>>)
    ensures var it := EventItem(MakeEvent(EventOf(Moved(req), boardId), freshId, now), titles, labels);
      it.statusKey == "planned" && MovedLabel(it.statusKey) == "Direncanakan"
  {
    MoveWithoutTargetIsPlanned(MakeEvent(EventOf(Moved(req), boardId), freshId, now), titles, labels);
  }

  /** A task dragged into "done" is shown as moved to "Direncanakan". */
  lemma MovedToDoneShownPlanned()
    ensures var req := MoveRequest("t1", "done", 1);
      var it := EventItem(MakeEvent(EventOf(Moved(req), "b1"), "e1", 0), map[], map[]);
      it.statusKey != req.toColumnId && MovedLabel(it.statusKey) != MovedLabel(req.toColumnId)
  {
    MovedAlwaysPlanned(MoveRequest("t1", "done", 1), "b1", "e1", 0, map[], map[]);
  }

  /** The payload with the move's target column and position included. */
  function EventOfFixed(m: Mutation, boardId: string): (p: EventPayload)
    ensures p.kind == KindOf(m) && p.taskId == TaskOf(m) && p.boardId == Some(boardId)
    ensures p.title.None? && p.fromColumnId.None? && p.timestamp.None?
    ensures m.Moved? ==> p.toColumnId == Some(m.req.toColumnId) && p.toPosition == Some(m.req.toPosition)
    ensures !m.Moved? ==> p == EventOf(m, boardId)
  {
    if m.Moved? then EventOf(m, boardId).(toColumnId := Some(m.req.toColumnId), toPosition := Some(m.req.toPosition))
    else EventOf(m, boardId)
  }

  /** With the target recorded, a move's item reports the column the task
      went to, and its text ends with that column's label. */
  lemma MovedShowsTarget(req: MoveRequest, boardId: string, freshId: string, now: Time,
                         titles: map<string, string>, labels: map<string, seq<string>>)
    ensures var it := EventItem(MakeEvent(EventOfFixed(Moved(req), boardId), freshId, now), titles, labels);
      var lab := MovedLabel(req.toColumnId);
      && it.statusKey == req.toColumnId
      && |lab| + 1 <= |it.content|
      && it.content[|it.content| - |lab| - 1..] == lab + "\""
  {
    MovedContentEnds(MakeEvent(EventOfFixed(Moved(req), boardId), freshId, now), titles, labels);
  }

  /** Recording an acknowledged mutation as the page does it: its event
      goes first on the overlay's event list, without a target column even
      for a move; notes, titles and labels stay as they were. */
  function Record(st: Overlay, m: Mutation, boardId: string, freshId: string, now: Time): (r: Overlay)
    ensures |r.events| == Min(|st.events| + 1, MaxEvents)
    ensures r.events[0].id == freshId && r.events[0].timestamp == now
    ensures r.events[0].kind == KindOf(m) && r.events[0].taskId == TaskOf(m)
    ensures r.events[0].boardId == Some(boardId) && r.events[0].toColumnId.None?
    ensures r.events[1..] == st.events[..|r.events| - 1]
    ensures r.notes == st.notes && r.taskTitles == st.taskTitles && r.taskLabels == st.taskLabels
  {
    AddEvent(st, EventOf(m, boardId), freshId, now)
  }

  /** As recorded, every drag that moves a task shows on the timeline as a
      move to "Direncanakan", wherever the task was dropped. */
  lemma DragShowsPlanned(st: Overlay, r: DropResult, boardId: string, freshId: string, now: Time)
    requires MoveIntent(r).Some?
    ensures var it := EventItem(Record(st, Moved(MoveIntent(r).value), boardId, freshId, now).events[0],
                                st.taskTitles, st.taskLabels);
      it.statusKey == "planned" && it.header == "Tugas dipindahkan"
  {
    MovedAlwaysPlanned(MoveIntent(r).value, boardId, freshId, now, st.taskTitles, st.taskLabels);
  }

  /** Recording with the move's target included: the same as `Record`,
      except that a move's event names the column and position. */
  function RecordFixed(st: Overlay, m: Mutation, boardId: string, freshId: string, now: Time): (r: Overlay)
    ensures |r.events| == Min(|st.events| + 1, MaxEvents)
    ensures r.events[0].id == freshId && r.events[0].timestamp == now
    ensures r.events[0].kind == KindOf(m) && r.events[0].taskId == TaskOf(m)
    ensures r.events[0].boardId == Some(boardId)
    ensures m.Moved? ==> r.events[0].toColumnId == Some(m.req.toColumnId)
    ensures !m.Moved? ==> r == Record(st, m, boardId, freshId, now)
    ensures r.events[1..] == st.events[..|r.events| - 1]
    ensures r.notes == st.notes && r.taskTitles == st.taskTitles && r.taskLabels == st.taskLabels
  {
    AddEvent(st, EventOfFixed(m, boardId), freshId, now)
  }

  /** With the target recorded, a drag that moves a task ends up on the
      timeline as a move to the column it was dropped in. */
  lemma DragShowsDestination(st: Overlay, r: DropResult, boardId: string, freshId: string, now: Time)
    requires MoveIntent(r).Some?
    ensures var it := EventItem(RecordFixed(st, Moved(MoveIntent(r).value), boardId, freshId, now).events[0],
                                st.taskTitles, st.taskLabels);
      it.statusKey == r.destination.value.droppableId && it.header == "Tugas dipindahkan"
  {
  }

  /** Removing the event just recorded, under a fresh id and below the cap,
      gives the overlay back as it was, for either way of recording. */
  lemma RecordUndone(st: Overlay, m: Mutation, boardId: string, freshId: string, now: Time)
    requires forall e :: e in st.events ==> e.id != freshId
    requires |st.events| < MaxEvents
    ensures RemoveEvent(Record(st, m, boardId, freshId, now), freshId) == st
    ensures RemoveEvent(RecordFixed(st, m, boardId, freshId, now), freshId) == st
  {
    RemoveUndoesAddEvent(st, EventOf(m, boardId), freshId, now);
    RemoveUndoesAddEvent(st, EventOfFixed(m, boardId), freshId, now);
  }

  /** `newPriorityByCol[columnId] ?? "medium"`: the priority a created task
      starts with. */
  function CreatedPriority(chosen: map<string, Priority>, columnId: string): (p: Priority)
    ensures columnId in chosen ==> p == chosen[columnId]
    ensures columnId !in chosen ==> p == Medium
  {
    if columnId in chosen then chosen[columnId] else Medium
  }

  /** Choosing a priority in one column does not change what tasks created
      in another column start with. */
  lemma CreatedPriorityPerColumn(chosen: map<string, Priority>, col: string, p: Priority, other: string)
    requires other != col
    ensures CreatedPriority(chosen[col := p], col) == p
    ensures CreatedPriority(chosen[col := p], other) == CreatedPriority(chosen, other)
  {
  }
}
