/**
  The client-side overlay store: free-form notes, the timeline of task
  events, and per-task titles and labels kept next to the server data.
  Persistence is left out: the state below is what the store holds in
  memory, and every operation is the pure state transition its setter
  performs. The fresh id and the current time are parameters.
 */
module OverlayStore {
  import opened Basics

  /** Timestamps are milliseconds since the epoch. */
  type Time = int

  datatype Note = Note(id: string, content: string, timestamp: Time)

  datatype EventKind = TaskCreated | TaskUpdated | TaskDeleted | TaskMoved

  /** One timeline event. The source types each kind with a subset of the
      optional fields; here every kind carries all of them, absent ones as
      `None`. */
  datatype TimelineEvent = TimelineEvent(
    id: string,
    kind: EventKind,
    taskId: string,
    title: Option<string>,
    fromColumnId: Option<string>,
    toColumnId: Option<string>,
    toPosition: Option<int>,
    boardId: Option<string>,
    timestamp: Time)

  /** What a caller hands to `addEvent`: an event without id, and with an
      optional timestamp. */
  datatype EventPayload = EventPayload(
    kind: EventKind,
    taskId: string,
    title: Option<string>,
    fromColumnId: Option<string>,
    toColumnId: Option<string>,
    toPosition: Option<int>,
    boardId: Option<string>,
    timestamp: Option<Time>)

  datatype Overlay = Overlay(
    notes: seq<Note>,
    events: seq<TimelineEvent>,
    taskTitles: map<string, string>,
    taskLabels: map<string, seq<string>>)

  const MaxNotes := 1000
  const MaxEvents := 2000

  /** `[x, ...s].slice(0, cap)`: `x` first, then the newest entries of `s`,
      the oldest ones dropped once the cap is reached. */
  function PrependCapped<T>(x: T, s: seq<T>, cap: nat): (r: seq<T>)
    requires cap >= 1
    ensures |r| == Min(|s| + 1, cap)
    ensures r[0] == x
    ensures r[1..] == s[..|r| - 1]
  {
    var full := [x] + s;
    assert full[1..] == s;
    full[..Min(|full|, cap)]
  }

  /** The store with no notes, events, titles or labels. */
  function Empty(): Overlay {
    Overlay([], [], map[], map[])
  }

  function NoteOthers(id: string): Note -> bool {
    (n: Note) => n.id != id
  }

  function EventOthers(id: string): TimelineEvent -> bool {
    (e: TimelineEvent) => e.id != id
  }

  /** `addNote`: the new note first, at most 1000 kept; nothing else changes. */
  function AddNote(st: Overlay, content: string, freshId: string, now: Time): (r: Overlay)
    ensures |r.notes| == Min(|st.notes| + 1, MaxNotes)
    ensures r.notes[0] == Note(freshId, content, now)
    ensures r.notes[1..] == st.notes[..|r.notes| - 1]
    ensures r.events == st.events && r.taskTitles == st.taskTitles && r.taskLabels == st.taskLabels
  {
    st.(notes := PrependCapped(Note(freshId, content, now), st.notes, MaxNotes))
  }

  /** `removeNote`: exactly the notes with that id go, the rest keep their order. */
  function RemoveNote(st: Overlay, id: string): (r: Overlay)
    ensures forall n :: n in r.notes <==> n in st.notes && n.id != id
    ensures forall n :: multiset(r.notes)[n] == if n.id == id then 0 else multiset(st.notes)[n]
    ensures Subseq(r.notes, st.notes)
    ensures r.events == st.events && r.taskTitles == st.taskTitles && r.taskLabels == st.taskLabels
  {
    FilterCount(st.notes, NoteOthers(id));
    FilterSubseq(st.notes, NoteOthers(id));
    st.(notes := Filter(st.notes, NoteOthers(id)))
  }

  /** `clearNotes` */
  function ClearNotes(st: Overlay): (r: Overlay)
    ensures r.notes == []
    ensures r.events == st.events && r.taskTitles == st.taskTitles && r.taskLabels == st.taskLabels
  {
    st.(notes := [])
  }

  /** The event `addEvent` records: a fresh id, the payload's fields, and the
      payload's timestamp or else the current time. */
  function MakeEvent(p: EventPayload, freshId: string, now: Time): (e: TimelineEvent)
    ensures e.id == freshId && e.kind == p.kind && e.taskId == p.taskId
    ensures e.title == p.title && e.toColumnId == p.toColumnId && e.fromColumnId == p.fromColumnId
    ensures e.toPosition == p.toPosition && e.boardId == p.boardId
    ensures p.timestamp.Some? ==> e.timestamp == p.timestamp.value
    ensures p.timestamp.None? ==> e.timestamp == now
  {
    TimelineEvent(freshId, p.kind, p.taskId, p.title, p.fromColumnId, p.toColumnId,
                  p.toPosition, p.boardId, p.timestamp.GetOr(now))
  }

  /** `addEvent`: the new event first, at most 2000 kept, the oldest dropped. */
  function AddEvent(st: Overlay, p: EventPayload, freshId: string, now: Time): (r: Overlay)
    ensures |r.events| == Min(|st.events| + 1, MaxEvents)
    ensures r.events[0] == MakeEvent(p, freshId, now)
    ensures r.events[1..] == st.events[..|r.events| - 1]
    ensures r.notes == st.notes && r.taskTitles == st.taskTitles && r.taskLabels == st.taskLabels
  {
    st.(events := PrependCapped(MakeEvent(p, freshId, now), st.events, MaxEvents))
  }

  /** `removeEvent`: exactly the events with that id go, the rest keep their order. */
  function RemoveEvent(st: Overlay, id: string): (r: Overlay)
    ensures forall e :: e in r.events <==> e in st.events && e.id != id
    ensures forall e :: multiset(r.events)[e] == if e.id == id then 0 else multiset(st.events)[e]
    ensures Subseq(r.events, st.events)
    ensures r.notes == st.notes && r.taskTitles == st.taskTitles && r.taskLabels == st.taskLabels
  {
    FilterCount(st.events, EventOthers(id));
    FilterSubseq(st.events, EventOthers(id));
    st.(events := Filter(st.events, EventOthers(id)))
  }

  /** `clearEvents` */
  function ClearEvents(st: Overlay): (r: Overlay)
    ensures r.events == []
    ensures r.notes == st.notes && r.taskTitles == st.taskTitles && r.taskLabels == st.taskLabels
  {
    st.(events := [])
  }

  /** Removing the note just added, under a fresh id and below the cap,
      gives the notes back as they were. */
  lemma RemoveUndoesAddNote(st: Overlay, content: string, freshId: string, now: Time)
    requires forall n :: n in st.notes ==> n.id != freshId
    requires |st.notes| < MaxNotes
    ensures RemoveNote(AddNote(st, content, freshId, now), freshId) == st
  {
    var added := AddNote(st, content, freshId, now).notes;
    assert added == [Note(freshId, content, now)] + st.notes;
    assert added[1..] == st.notes;
    FilterAllKept(st.notes, NoteOthers(freshId));
  }

  /** Removing the event just added, under a fresh id and below the cap,
      gives the events back as they were. */
  lemma RemoveUndoesAddEvent(st: Overlay, p: EventPayload, freshId: string, now: Time)
    requires forall e :: e in st.events ==> e.id != freshId
    requires |st.events| < MaxEvents
    ensures RemoveEvent(AddEvent(st, p, freshId, now), freshId) == st
  {
    var added := AddEvent(st, p, freshId, now).events;
    assert added == [MakeEvent(p, freshId, now)] + st.events;
    assert added[1..] == st.events;
    FilterAllKept(st.events, EventOthers(freshId));
  }

  /** Clearing the notes forgets every earlier note operation: an add or a
      remove before a clear leaves no trace, removing from a cleared store
      does nothing, and the next note added is the only one. */
  lemma ClearNotesAbsorbs(st: Overlay, content: string, freshId: string, now: Time, id: string)
    ensures ClearNotes(AddNote(st, content, freshId, now)) == ClearNotes(st)
    ensures ClearNotes(RemoveNote(st, id)) == ClearNotes(st)
    ensures ClearNotes(ClearNotes(st)) == ClearNotes(st)
    ensures RemoveNote(ClearNotes(st), id) == ClearNotes(st)
    ensures AddNote(ClearNotes(st), content, freshId, now).notes == [Note(freshId, content, now)]
    ensures ClearNotes(st) == st <==> st.notes == []
  {
  }

  /** The same for events: a clear forgets every earlier event operation. */
  lemma ClearEventsAbsorbs(st: Overlay, p: EventPayload, freshId: string, now: Time, id: string)
    ensures ClearEvents(AddEvent(st, p, freshId, now)) == ClearEvents(st)
    ensures ClearEvents(RemoveEvent(st, id)) == ClearEvents(st)
    ensures ClearEvents(ClearEvents(st)) == ClearEvents(st)
    ensures RemoveEvent(ClearEvents(st), id) == ClearEvents(st)
    ensures AddEvent(ClearEvents(st), p, freshId, now).events == [MakeEvent(p, freshId, now)]
    ensures ClearEvents(st) == st <==> st.events == []
  {
  }

  /** Once full, adding an event keeps the count at 2000 and drops exactly
      the oldest one. */
  lemma AddEventAtCap(st: Overlay, p: EventPayload, freshId: string, now: Time)
    requires |st.events| == MaxEvents
    ensures AddEvent(st, p, freshId, now).events
         == [MakeEvent(p, freshId, now)] + st.events[..MaxEvents - 1]
  {
    var r := AddEvent(st, p, freshId, now).events;
    assert r == [r[0]] + r[1..];
  }

  /** `setTaskTitle`: one key set, every other key as it was. */
  function SetTaskTitle(st: Overlay, taskId: string, title: string): (r: Overlay)
    ensures r.taskTitles.Keys == st.taskTitles.Keys + {taskId}
    ensures r.taskTitles[taskId] == title
    ensures forall k :: k in st.taskTitles && k != taskId ==> r.taskTitles[k] == st.taskTitles[k]
    ensures r.notes == st.notes && r.events == st.events && r.taskLabels == st.taskLabels
  {
    st.(taskTitles := st.taskTitles[taskId := title])
  }

  /** `bulkSetTaskTitles`: the incoming titles laid over the stored ones,
      the incoming title winning where both have one. */
  function BulkSetTaskTitles(st: Overlay, incoming: map<string, string>): (r: Overlay)
    ensures r.taskTitles.Keys == st.taskTitles.Keys + incoming.Keys
    ensures forall k :: k in incoming ==> r.taskTitles[k] == incoming[k]
    ensures forall k :: k in st.taskTitles && k !in incoming ==> r.taskTitles[k] == st.taskTitles[k]
    ensures r.notes == st.notes && r.events == st.events && r.taskLabels == st.taskLabels
  {
    st.(taskTitles := st.taskTitles + incoming)
  }

  /** Setting titles in bulk from a one-entry map is setting that one title. */
  lemma BulkOfOne(st: Overlay, taskId: string, title: string)
    ensures BulkSetTaskTitles(st, map[taskId := title]) == SetTaskTitle(st, taskId, title)
  {
  }

  /** Applying the same titles twice changes nothing more. */
  lemma BulkIdempotent(st: Overlay, incoming: map<string, string>)
    ensures BulkSetTaskTitles(BulkSetTaskTitles(st, incoming), incoming) == BulkSetTaskTitles(st, incoming)
  {
  }

  /** `taskLabels[taskId] ?? []` */
  function LabelsOf(st: Overlay, taskId: string): seq<string> {
    if taskId in st.taskLabels then st.taskLabels[taskId] else []
  }

  /** `addTaskLabel`: a label already present leaves the store as it was;
      a new one is appended to that task's labels and nothing else changes. */
  function AddTaskLabel(st: Overlay, taskId: string, tag: string): (r: Overlay)
    ensures tag in LabelsOf(st, taskId) ==> r == st
    ensures tag !in LabelsOf(st, taskId) ==> LabelsOf(r, taskId) == LabelsOf(st, taskId) + [tag]
    ensures tag in LabelsOf(r, taskId)
    ensures r.taskLabels.Keys <= st.taskLabels.Keys + {taskId}
    ensures forall k :: k != taskId ==> LabelsOf(r, k) == LabelsOf(st, k)
    ensures forall k :: k in st.taskLabels ==> k in r.taskLabels
    ensures r.notes == st.notes && r.events == st.events && r.taskTitles == st.taskTitles
  {
    var cur := LabelsOf(st, taskId);
    if tag in cur then st
    else st.(taskLabels := st.taskLabels[taskId := cur + [tag]])
  }

  /** Adding a label twice is adding it once. */
  lemma AddTaskLabelIdempotent(st: Overlay, taskId: string, tag: string)
    ensures AddTaskLabel(AddTaskLabel(st, taskId, tag), taskId, tag) == AddTaskLabel(st, taskId, tag)
  {
  }

  /** Adding labels never introduces a duplicate. */
  lemma AddTaskLabelDistinct(st: Overlay, taskId: string, tag: string)
    requires Distinct(LabelsOf(st, taskId))
    ensures Distinct(LabelsOf(AddTaskLabel(st, taskId, tag), taskId))
  {
    var cur := LabelsOf(st, taskId);
    if tag !in cur {
      var next := cur + [tag];
      forall i, j | 0 <= i < j < |next|
        ensures next[i] != next[j]
      {
        if j == |cur| {
          assert next[i] == cur[i];
        }
      }
    }
  }

  function NotLabel(tag: string): string -> bool {
    (l: string) => l != tag
  }

  /** `removeTaskLabel`: every occurrence of the label leaves that task's
      list, the other labels keep their order, and the task gets an entry
      (an empty one if it had none); other tasks are untouched. */
  function RemoveTaskLabel(st: Overlay, taskId: string, tag: string): (r: Overlay)
    ensures taskId in r.taskLabels
    ensures r.taskLabels.Keys == st.taskLabels.Keys + {taskId}
    ensures tag !in r.taskLabels[taskId]
    ensures forall l :: l != tag ==> multiset(r.taskLabels[taskId])[l] == multiset(LabelsOf(st, taskId))[l]
    ensures Subseq(r.taskLabels[taskId], LabelsOf(st, taskId))
    ensures forall k :: k in st.taskLabels && k != taskId ==> r.taskLabels[k] == st.taskLabels[k]
    ensures r.notes == st.notes && r.events == st.events && r.taskTitles == st.taskTitles
  {
    FilterCount(LabelsOf(st, taskId), NotLabel(tag));
    FilterSubseq(LabelsOf(st, taskId), NotLabel(tag));
    st.(taskLabels := st.taskLabels[taskId := Filter(LabelsOf(st, taskId), NotLabel(tag))])
  }

  /** Removing a label that was just added restores the task's labels. */
  lemma RemoveUndoesAddLabel(st: Overlay, taskId: string, tag: string)
    requires tag !in LabelsOf(st, taskId)
    ensures LabelsOf(RemoveTaskLabel(AddTaskLabel(st, taskId, tag), taskId, tag), taskId) == LabelsOf(st, taskId)
  {
    var cur := LabelsOf(st, taskId);
    FilterAppend(cur, [tag], NotLabel(tag));
    FilterAllKept(cur, NotLabel(tag));
    assert [tag][1..] == [];
  }
}
