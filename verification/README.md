# Fe-Ambis-Solving Kanban client — a Dafny model of its data core

Fe-Ambis-Solving is a React/TypeScript Kanban client. Its logic is a set of
pure data transformations sitting inside stores, page handlers and the API
client. This project models them as total functions over immutable
sequences and maps and proves what they promise:

- **LocalBoard** (`features/auth/store/boardStore.ts`): the in-memory board.
  It covers `addTask`, `updateTask`, `deleteTask` and the drag-and-drop
  splice reducer `handleDragEnd`.
- **DragDrop**: the drag result the drag-and-drop library reports, and the
  single move request (`taskId`, `toColumnId`, 1-based `toPosition`) that both
  server-backed board pages derive from it.
- **BoardView**: the displayed column order, the per-column task lists
  (`tasksByCol` of `features/board`, the grouping map of `features/auth`),
  the rendered lanes, and the create/update decision of the task form.
- **BoardHelpers** (`features/board/pages/BoardPage.tsx`): `isHex24`,
  `useSafeBoardId` as a pure function of prop, route parameter, query and
  path, `nextPriority` and `columnStatus`.
- **OverlayStore** (`shared/store/boardStore.ts`): the client-local notes,
  timeline events, task titles and task labels.
- **Timeline** (`features/timeline/pages/TimeLinePage.tsx`): events and notes
  turned into display items, merged, sorted newest first and grouped by
  calendar day.
- **BoardEvents**: the timeline events the server-backed board page records
  after each acknowledged mutation.
- **TaskTimeline** (`features/auth/pages/TimeLinePage.tsx`): the flatten-then-
  reverse task timeline of the local board.
- **ApiClient** (`shared/services/api.ts`): token and user-id extraction,
  login error mapping, the register endpoint fallback loop, and task-list
  normalisation.

Some inputs are parameters rather than computed values:

- The clock (`new Date()`, `Date.now()`) is a `now: Time` parameter.
- Id generation (`uid()`, `crypto.randomUUID`) is a `freshId` parameter.
- Each HTTP call is an `HttpOutcome` value: a body, or an error carrying a
  message and an optional response.
- The calendar-day function (`startOfDay`) is a parameter
  `day: Time -> Time`. The grouping proofs assume only that it is monotone.
- JavaScript's `sort` is stable, and is modelled by the stable insertion
  sort `Sorting.SortBy` on an integer key. A descending comparator becomes
  an ascending sort on the negated key.
- `undefined`/`null` become `Option.None`; a thrown error becomes
  `Result.Failure`.

## Model

| member | source | states |
|---|---|---|
| LocalBoard.FindColumn | Fe-Ambis-Solving/src/features/auth/store/boardStore.ts:83-85 | `find` by id: absent exactly when no column has the id, otherwise the first column carrying it |
| LocalBoard.AddTask | Fe-Ambis-Solving/src/features/auth/store/boardStore.ts:55-61 | the named column gets exactly one new task `{freshId, content}` appended at its end; every other column, and every id and title, is unchanged |
| LocalBoard.UpdateTask | Fe-Ambis-Solving/src/features/auth/store/boardStore.ts:63-69 | in the named column only, tasks with the id get the new content; ids, positions and lengths are kept; other columns are unchanged |
| LocalBoard.DeleteTask | Fe-Ambis-Solving/src/features/auth/store/boardStore.ts:71-75 | the named column keeps, in order, exactly its tasks with another id; other columns are unchanged |
| LocalBoard.DeleteTaskCount | Fe-Ambis-Solving/src/features/auth/store/boardStore.ts:73 | after the delete, a task with the id occurs zero times in that column and every other task as often as before |
| LocalBoard.DeleteUndoesAdd | Fe-Ambis-Solving/src/features/auth/store/boardStore.ts:55-75 | deleting the task just added under a fresh id gives back the board |
| LocalBoard.DeleteAfterUpdate | Fe-Ambis-Solving/src/features/auth/store/boardStore.ts:63-75 | editing a task and then deleting it is the same as deleting it |
| LocalBoard.RemoveAt | Fe-Ambis-Solving/src/features/auth/store/boardStore.ts:91 | `splice(i, 1)`: one shorter, the element at `i` removed, the others in order |
| LocalBoard.InsertAt | Fe-Ambis-Solving/src/features/auth/store/boardStore.ts:92 | `splice(i, 0, x)`: `x` at `min(i, length)`, with the others shifted and the multiset grown by `x` |
| LocalBoard.RemoveInsert | Fe-Ambis-Solving/src/features/auth/store/boardStore.ts:91-92 | removing what was just inserted gives back the list |
| LocalBoard.InsertRemove | Fe-Ambis-Solving/src/features/auth/store/boardStore.ts:91-92 | reinserting a removed element where it was gives back the list |
| LocalBoard.MoveWithin | Fe-Ambis-Solving/src/features/auth/store/boardStore.ts:90-92 | a same-column move is a permutation that puts the moved task at the (clamped) destination |
| LocalBoard.MoveWithinBack | Fe-Ambis-Solving/src/features/auth/store/boardStore.ts:90-92 | moving back from the destination to the source undoes a same-column move |
| LocalBoard.DropWithin | Fe-Ambis-Solving/src/features/auth/store/boardStore.ts:89-94 | only the column with the source id changes; column ids and order are kept |
| LocalBoard.DropAcross | Fe-Ambis-Solving/src/features/auth/store/boardStore.ts:95-108 | only the source and destination columns change; column ids and order are kept |
| LocalBoard.HandleDragEnd | Fe-Ambis-Solving/src/features/auth/store/boardStore.ts:77-112 | a cancelled or same-place drop, or an unknown source or destination column, leaves the board unchanged; otherwise only the two named columns change, and column ids and order are kept |
| LocalBoard.DragWithinColumn | Fe-Ambis-Solving/src/features/auth/store/boardStore.ts:89-94 | a same-column drag keeps the column's length and multiset and puts the dragged task at the destination index |
| LocalBoard.DragAcrossColumns | Fe-Ambis-Solving/src/features/auth/store/boardStore.ts:95-102 | a cross-column drag shrinks the source by one, grows the destination by one, and puts the removed task at the destination index |
| LocalBoard.DragKeepsAllTasks | Fe-Ambis-Solving/src/features/auth/store/boardStore.ts:77-112 | on a board with distinct column ids, a drag keeps the multiset of all tasks on the board |
| LocalBoard.DragBackRestores | Fe-Ambis-Solving/src/features/auth/store/boardStore.ts:77-112 | dragging the task straight back to where it came from restores the board |
| LocalBoard.SpliceMatchesMoveIntent | Fe-Ambis-Solving/src/features/auth/store/boardStore.ts:77-112 | the local reducer and the server move request agree: the dragged task ends up in the requested column at 1-based position `toPosition` |
| DragDrop.MoveIntent | Fe-Ambis-Solving/src/features/board/pages/BoardPage.tsx:265-279 | no move without a destination or on the source slot; otherwise exactly one move with `taskId = draggableId`, `toColumnId = destination.droppableId`, `toPosition = destination.index + 1` |
| DragDrop.DragBackIntent | Fe-Ambis-Solving/src/features/auth/pages/BoardPage.tsx:88-94 | dragging back is a move exactly when the drag was one, and it asks for the original 1-based position |
| BoardView.DisplayedColumns | Fe-Ambis-Solving/src/features/board/pages/BoardPage.tsx:253-256 | the displayed columns are a permutation of the board's columns sorted ascending by order |
| BoardView.DisplayedColumnsStable | Fe-Ambis-Solving/src/features/auth/pages/BoardPage.tsx:143-144 | columns with equal order keep the board's order |
| BoardView.TasksByCol | Fe-Ambis-Solving/src/features/board/pages/BoardPage.tsx:258-262 | exactly the tasks of that column, each as often as in the input, sorted ascending by order with a missing order as 0 |
| BoardView.TasksByColStable | Fe-Ambis-Solving/src/features/board/pages/BoardPage.tsx:258-262 | tasks with equal order keep their input order |
| BoardView.TaskInOneColumn | Fe-Ambis-Solving/src/features/auth/pages/BoardPage.tsx:100-102 | a task lands in the list of its own column id and in no other, with all its copies |
| BoardView.GroupTasks | Fe-Ambis-Solving/src/features/auth/pages/BoardPage.tsx:97-105 | the keys are the board's column ids plus every task's column id, and each list equals the `tasksByCol` of that key |
| BoardView.PushAll | Fe-Ambis-Solving/src/features/auth/pages/BoardPage.tsx:100-102 | after the push loop each list holds, in input order, exactly the tasks of its key |
| BoardView.EmptyLists | Fe-Ambis-Solving/src/features/auth/pages/BoardPage.tsx:99 | every board column gets an empty list, and there are no other keys |
| BoardView.Lanes | Fe-Ambis-Solving/src/features/auth/pages/BoardPage.tsx:143-163 | one lane per board column, in display order, showing the grouped list of its id or nothing |
| BoardView.LaneContents | Fe-Ambis-Solving/src/features/auth/pages/BoardPage.tsx:143-163 | with the page's grouping, a task is drawn in a lane exactly when it belongs to that lane's column |
| BoardView.UnknownColumnHidden | Fe-Ambis-Solving/src/features/auth/pages/BoardPage.tsx:143-163 | a task whose column id is not a board column appears in no lane |
| BoardView.Submit | Fe-Ambis-Solving/src/features/auth/pages/BoardPage.tsx:108-112 | an update when a task is being edited; else a creation when a target column is set; else nothing |
| BoardView.SubmitAfterOpen | Fe-Ambis-Solving/src/features/auth/pages/BoardPage.tsx:108-126 | a form opened with `openEdit` submits a title update of that task; one opened with `openCreate` creates a task in that column, or nothing for an empty column id |
| BoardHelpers.IsHex24 | Fe-Ambis-Solving/src/features/board/pages/BoardPage.tsx:28 | true exactly for 24 characters, each a hex digit of either case |
| BoardHelpers.Split | Fe-Ambis-Solving/src/features/board/pages/BoardPage.tsx:128 | `split("/")`: the pieces hold no separator and join back to the string |
| BoardHelpers.SplitJoin | Fe-Ambis-Solving/src/features/board/pages/BoardPage.tsx:128 | splitting a join of separator-free pieces gives the pieces back |
| BoardHelpers.Segments | Fe-Ambis-Solving/src/features/board/pages/BoardPage.tsx:128 | exactly the non-empty pieces of `split("/")`, each as often as it occurs there and in path order; none holds a `/` |
| BoardHelpers.SegmentsOfJoin | Fe-Ambis-Solving/src/features/board/pages/BoardPage.tsx:128 | a path joined from slash-free pieces has the non-empty pieces as its segments |
| BoardHelpers.FindBoardWord | Fe-Ambis-Solving/src/features/board/pages/BoardPage.tsx:129 | the first segment that lower-cases to `boards` or `board`, or none when there is no such segment |
| BoardHelpers.SafeBoardId | Fe-Ambis-Solving/src/features/board/pages/BoardPage.tsx:112-136 | only 24-hex ids come out, taken from the prop, then the route parameter, then the query, then the segment after `boards`/`board`, then the last segment, else none; each source is used exactly when every earlier one is invalid |
| BoardHelpers.BoardWordBeatsLast | Fe-Ambis-Solving/src/features/board/pages/BoardPage.tsx:128-133 | on `/boards/<h1>/<h2>` with two valid ids, the id after `boards` is chosen, not the last segment |
| BoardHelpers.BoardRouteId | Fe-Ambis-Solving/src/features/board/pages/BoardPage.tsx:128-130 | on `/boards/<hex24>` with nothing else given, the id is read from the path |
| BoardHelpers.NextPriority | Fe-Ambis-Solving/src/features/board/pages/BoardPage.tsx:95-96 | the next priority always differs, and it is low exactly after high |
| BoardHelpers.PriorityCycle | Fe-Ambis-Solving/src/features/board/pages/BoardPage.tsx:95-96 | three clicks give back the priority |
| BoardHelpers.Contains | Fe-Ambis-Solving/src/features/board/pages/BoardPage.tsx:42-43 | `includes`: true exactly when the keyword occurs at some position |
| BoardHelpers.AnyKey | Fe-Ambis-Solving/src/features/board/pages/BoardPage.tsx:42-43 | `some`: true exactly when some keyword equals the id or occurs in the name |
| BoardHelpers.ColumnStatus | Fe-Ambis-Solving/src/features/board/pages/BoardPage.tsx:33-45 | done when a done keyword matches the lower-cased id or name; else in progress when an in-progress keyword matches; else todo |
| BoardHelpers.DoneIdWins | Fe-Ambis-Solving/src/features/board/pages/BoardPage.tsx:42 | a column with id `done` is done whatever its name says |
| OverlayStore.PrependCapped | Fe-Ambis-Solving/src/shared/store/boardStore.ts:104 | `[x, ...s].slice(0, cap)`: `x` first, then the oldest-dropped prefix of `s`, at most `cap` long |
| OverlayStore.AddNote | Fe-Ambis-Solving/src/shared/store/boardStore.ts:102-107 | the new note first, at most 1000 kept, earlier notes in their order; the rest of the state is unchanged |
| OverlayStore.RemoveNote | Fe-Ambis-Solving/src/shared/store/boardStore.ts:108-112 | exactly the notes with that id go, every other note stays as often as before, and the remaining notes keep their order (a subsequence of the old list) |
| OverlayStore.ClearNotes | Fe-Ambis-Solving/src/shared/store/boardStore.ts:113 | no notes are left; nothing else changes |
| OverlayStore.MakeEvent | Fe-Ambis-Solving/src/shared/store/boardStore.ts:117 | the event carries the payload's fields and the fresh id, and the supplied timestamp when given, else now |
| OverlayStore.AddEvent | Fe-Ambis-Solving/src/shared/store/boardStore.ts:116-121 | the new event first, at most 2000 kept, the oldest dropped |
| OverlayStore.RemoveEvent | Fe-Ambis-Solving/src/shared/store/boardStore.ts:122-126 | exactly the events with that id go, every other event stays as often as before, and the remaining events keep their order (a subsequence of the old list) |
| OverlayStore.ClearEvents | Fe-Ambis-Solving/src/shared/store/boardStore.ts:127 | no events are left; nothing else changes |
| OverlayStore.ClearNotesAbsorbs | Fe-Ambis-Solving/src/shared/store/boardStore.ts:102-113 | a clear erases the effect of any earlier add or remove of notes, is idempotent, makes a later remove a no-op, and leaves a later add as the only note |
| OverlayStore.ClearEventsAbsorbs | Fe-Ambis-Solving/src/shared/store/boardStore.ts:116-127 | the same for events: a clear erases every earlier event add or remove, and a later add is the only event |
| OverlayStore.RemoveUndoesAddNote | Fe-Ambis-Solving/src/shared/store/boardStore.ts:102-112 | below the cap, removing the note just added under a fresh id restores the state |
| OverlayStore.RemoveUndoesAddEvent | Fe-Ambis-Solving/src/shared/store/boardStore.ts:116-126 | below the cap, removing the event just added under a fresh id restores the state |
| OverlayStore.AddEventAtCap | Fe-Ambis-Solving/src/shared/store/boardStore.ts:118 | at the cap, the oldest event is the one dropped |
| OverlayStore.SetTaskTitle | Fe-Ambis-Solving/src/shared/store/boardStore.ts:131-135 | only that task's title changes (or is added) |
| OverlayStore.BulkSetTaskTitles | Fe-Ambis-Solving/src/shared/store/boardStore.ts:136-140 | the incoming map is overlaid: incoming titles win, other titles stay |
| OverlayStore.BulkOfOne | Fe-Ambis-Solving/src/shared/store/boardStore.ts:131-140 | a bulk set of one title is `setTaskTitle` |
| OverlayStore.BulkIdempotent | Fe-Ambis-Solving/src/shared/store/boardStore.ts:136-140 | overlaying the same map twice is overlaying it once |
| OverlayStore.AddTaskLabel | Fe-Ambis-Solving/src/shared/store/boardStore.ts:144-150 | an existing label leaves the state unchanged; a new one is appended; other tasks' labels are unchanged |
| OverlayStore.AddTaskLabelIdempotent | Fe-Ambis-Solving/src/shared/store/boardStore.ts:144-150 | adding a label twice is adding it once |
| OverlayStore.AddTaskLabelDistinct | Fe-Ambis-Solving/src/shared/store/boardStore.ts:144-150 | a label list without repeats stays without repeats |
| OverlayStore.RemoveTaskLabel | Fe-Ambis-Solving/src/shared/store/boardStore.ts:151-156 | every occurrence of the label goes from that task, other labels keep their counts and their order, other tasks are unchanged |
| OverlayStore.RemoveUndoesAddLabel | Fe-Ambis-Solving/src/shared/store/boardStore.ts:144-156 | removing a label just added gives back the task's labels |
| Timeline.StatusMap | Fe-Ambis-Solving/src/features/timeline/pages/TimeLinePage.tsx:13-18 | the table knows exactly `done`, `in-progress`, `planned` and `todo`, each with a non-empty label |
| Timeline.MetaFor | Fe-Ambis-Solving/src/features/timeline/pages/TimeLinePage.tsx:46 | an unknown key falls back to the planned entry |
| Timeline.EventTitle | Fe-Ambis-Solving/src/features/timeline/pages/TimeLinePage.tsx:44 | the event's own title, else the stored title of the task, else none |
| Timeline.EventItem | Fe-Ambis-Solving/src/features/timeline/pages/TimeLinePage.tsx:43-90 | id, timestamp and header follow the event; the status key is `toColumnId` or `planned`; labels default to empty |
| Timeline.EventItemContent | Fe-Ambis-Solving/src/features/timeline/pages/TimeLinePage.tsx:53-85 | the text is the title, else `Task #<id>` (with ` dihapus` for a delete), followed for a move by ` dipindah ke "<label>"` |
| Timeline.MovedContentEnds | Fe-Ambis-Solving/src/features/timeline/pages/TimeLinePage.tsx:75 | a move's text ends with the quoted label of its status key |
| Timeline.MoveWithoutTargetIsPlanned | Fe-Ambis-Solving/src/features/timeline/pages/TimeLinePage.tsx:45 | a move without a target column reads as a move to "Direncanakan" |
| Timeline.NoteItem | Fe-Ambis-Solving/src/features/timeline/pages/TimeLinePage.tsx:92-97 | a note item keeps the note's id, content and timestamp |
| Timeline.EventItems | Fe-Ambis-Solving/src/features/timeline/pages/TimeLinePage.tsx:43 | one item per event, in event order |
| Timeline.NoteItems | Fe-Ambis-Solving/src/features/timeline/pages/TimeLinePage.tsx:92 | one item per note, in note order |
| Timeline.Feed | Fe-Ambis-Solving/src/features/timeline/pages/TimeLinePage.tsx:99 | the feed is as long as events and notes together |
| Timeline.FeedContents | Fe-Ambis-Solving/src/features/timeline/pages/TimeLinePage.tsx:92-99 | the feed holds every event item and every note item exactly as often as they occur |
| Timeline.FeedNewestFirst | Fe-Ambis-Solving/src/features/timeline/pages/TimeLinePage.tsx:99 | the feed is ordered by timestamp, newest first |
| Timeline.FeedStable | Fe-Ambis-Solving/src/features/timeline/pages/TimeLinePage.tsx:99 | items with the same timestamp keep their merge order |
| Timeline.SubmitNote | Fe-Ambis-Solving/src/features/timeline/pages/TimeLinePage.tsx:10 | content of fewer than 3 characters leaves the store unchanged; otherwise the store's `addNote` runs, so the note goes first and earlier notes, events, titles and labels are kept |
| Timeline.DayKeys | Fe-Ambis-Solving/src/features/timeline/pages/TimeLinePage.tsx:21-27 | the map's keys: each day of an item exactly once |
| Timeline.GroupByDay | Fe-Ambis-Solving/src/features/timeline/pages/TimeLinePage.tsx:20-31 | the one-pass map filling, entry sort and `.map` compute one group per distinct day, newest day first, each holding that day's items newest first |
| Timeline.CollectDays | Fe-Ambis-Solving/src/features/timeline/pages/TimeLinePage.tsx:21-27 | the loop leaves, for each day met, the items of that day in input order |
| Timeline.GroupDaysDescending | Fe-Ambis-Solving/src/features/timeline/pages/TimeLinePage.tsx:28-29 | groups come strictly newest day first |
| Timeline.GroupItemsOnDay | Fe-Ambis-Solving/src/features/timeline/pages/TimeLinePage.tsx:20-30 | every item of a group is an item of the input and falls on the group's day |
| Timeline.EveryItemGrouped | Fe-Ambis-Solving/src/features/timeline/pages/TimeLinePage.tsx:20-27 | every item has a group for its day |
| Timeline.GroupByDayFlatten | Fe-Ambis-Solving/src/features/timeline/pages/TimeLinePage.tsx:20-31 | for a newest-first input and a monotone day function, the groups read in order give the input back, so every item is in exactly one group |
| Timeline.FeedGroupsFlatten | Fe-Ambis-Solving/src/features/timeline/pages/TimeLinePage.tsx:99-100 | grouping the page's feed and reading the groups in order gives the feed |
| TaskTimeline.PageStatus | Fe-Ambis-Solving/src/features/auth/pages/TimeLinePage.tsx:6-10 | the table knows exactly `done`, `in-progress` and `planned` |
| TaskTimeline.StatusName | Fe-Ambis-Solving/src/features/auth/pages/TimeLinePage.tsx:21 | the table's label, and `Lainnya` exactly for an id outside the table |
| TaskTimeline.AllEntries | Fe-Ambis-Solving/src/features/auth/pages/TimeLinePage.tsx:17-23 | the timeline is the reverse of the column-by-column concatenation |
| TaskTimeline.TimelineShowsAllTasks | Fe-Ambis-Solving/src/features/auth/pages/TimeLinePage.tsx:17-23 | the timeline holds exactly the board's tasks, with multiplicity, so its length is the total task count |
| TaskTimeline.EntryOnTimeline | Fe-Ambis-Solving/src/features/auth/pages/TimeLinePage.tsx:17-22 | an entry is on the timeline exactly when it pairs a task of some column with that column's id and status name |
| TaskTimeline.TimelineStartsWithLastTask | Fe-Ambis-Solving/src/features/auth/pages/TimeLinePage.tsx:23 | the first entry is the last task of the last column |
| TaskTimeline.EmptyTimeline | Fe-Ambis-Solving/src/features/auth/pages/TimeLinePage.tsx:47 | the "no tasks" message shows exactly when no column holds a task |
| TaskTimeline.Marker | Fe-Ambis-Solving/src/features/auth/pages/TimeLinePage.tsx:34 | icon and colour of the status, falling back to the planned entry |
| TaskTimeline.UnknownStatusDrawnAsPlanned | Fe-Ambis-Solving/src/features/auth/pages/TimeLinePage.tsx:21-34 | a task of a column outside the table is drawn with the grey hourglass while its text says `Lainnya` |
| TaskTimeline.KnownStatusConsistent | Fe-Ambis-Solving/src/features/auth/pages/TimeLinePage.tsx:21-34 | for a column in the table, the marker's label and the entry's text agree |
| BoardEvents.EventOf | Fe-Ambis-Solving/src/features/board/pages/BoardPage.tsx:211-246 | each acknowledged mutation records its kind, task id and board id, and no target column, even for a move |
| BoardEvents.MovedAlwaysPlanned | Fe-Ambis-Solving/src/features/board/pages/BoardPage.tsx:238-246 | as recorded, every move shows on the timeline as a move to "Direncanakan" |
| BoardEvents.MovedToDoneShownPlanned | Fe-Ambis-Solving/src/features/board/pages/BoardPage.tsx:238-246 | a move into `done` is shown with another status key and another label than `done` |
| BoardEvents.EventOfFixed | Fe-Ambis-Solving/src/features/board/pages/BoardPage.tsx:238-246 | the corrected payload records the move's target column and position, and nothing else changes |
| BoardEvents.MovedShowsTarget | Fe-Ambis-Solving/src/features/board/pages/BoardPage.tsx:238-246 | with the corrected payload, a move shows its target column and its text ends with that column's label |
| BoardEvents.Record | Fe-Ambis-Solving/src/features/board/pages/BoardPage.tsx:211-246 | as written: the mutation's event goes first on the event list, with its kind, task and board and no target column; nothing else changes |
| BoardEvents.DragShowsPlanned | Fe-Ambis-Solving/src/features/board/pages/BoardPage.tsx:238-246 | as written: every drag that moves a task appears on the timeline as a move to `planned`, wherever it was dropped |
| BoardEvents.RecordFixed | Fe-Ambis-Solving/src/features/board/pages/BoardPage.tsx:211-246 | corrected variant (see Findings): as `Record`, but a move's event carries its target column; other mutations are recorded exactly as `Record` does |
| BoardEvents.DragShowsDestination | Fe-Ambis-Solving/src/features/board/pages/BoardPage.tsx:265-279 | corrected variant (see Findings): with `RecordFixed`, a drag that moves a task appears on the timeline as a move to the column it was dropped in |
| BoardEvents.RecordUndone | Fe-Ambis-Solving/src/features/board/pages/BoardPage.tsx:211-246 | removing the just-recorded event, under a fresh id and below the cap, restores the overlay, for both recordings |
| BoardEvents.CreatedPriority | Fe-Ambis-Solving/src/features/board/pages/BoardPage.tsx:216 | the priority chosen for the column, else medium |
| BoardEvents.CreatedPriorityPerColumn | Fe-Ambis-Solving/src/features/board/pages/BoardPage.tsx:216 | choosing a priority for one column does not change the start priority in another |
| ApiClient.FirstPresent | Fe-Ambis-Solving/src/shared/services/api.ts:5-14 | a `??` chain: the value at the first path that is neither absent nor null, else null |
| ApiClient.ExtractToken | Fe-Ambis-Solving/src/shared/services/api.ts:5-14 | the value at the first of `token`, `accessToken`, `access_token`, `jwt`, `data.token` that is neither absent nor null; none exactly when all five are |
| ApiClient.ExtractUserId | Fe-Ambis-Solving/src/shared/services/api.ts:16-18 | the value at the first of `userId`, `user.id`, `data.userId` that is neither absent nor null; none exactly when all three are |
| ApiClient.TokenPrecedence | Fe-Ambis-Solving/src/shared/services/api.ts:5-14 | a non-null top-level `token` wins; `data.token` is used only when the four top-level spellings are all absent or null |
| ApiClient.UserIdPrecedence | Fe-Ambis-Solving/src/shared/services/api.ts:16-18 | `userId` first, then `user.id`, then `data.userId`, else null |
| ApiClient.ErrorMessage | Fe-Ambis-Solving/src/shared/services/api.ts:44-49 | the body's `error` if truthy, else its `message` if truthy, else `HTTP <status>` |
| ApiClient.ErrorMessageIgnoresStatus | Fe-Ambis-Solving/src/shared/services/api.ts:44-49 | a truthy `error` or `message` in the body decides the message, whatever the status |
| ApiClient.LoginUser | Fe-Ambis-Solving/src/shared/services/api.ts:29-53 | success exactly for a body with a truthy token, returning that token and the extracted user id; a server error gives the error message; a failure without a response and a body without a truthy token both give the network/CORS message |
| ApiClient.LoginMissingTokenLooksLikeNetwork | Fe-Ambis-Solving/src/shared/services/api.ts:37-51 | for every body without a truthy token, the login result equals that of a request that got no response |
| ApiClient.LoginEmptyBodyIsNetwork | Fe-Ambis-Solving/src/shared/services/api.ts:37-51 | a 200 response with body `{}`, or with `{"token": ""}`, gives the network/CORS message |
| ApiClient.LoginUserFixed | Fe-Ambis-Solving/src/shared/services/api.ts:29-53 | as `LoginUser`, with the same success and server-error cases |
| ApiClient.LoginFixedBlamesNetworkOnlyWithoutResponse | Fe-Ambis-Solving/src/shared/services/api.ts:37-51 | corrected: the network message appears exactly when no response came back, and a missing token says so |
| ApiClient.LoginFixedAgrees | Fe-Ambis-Solving/src/shared/services/api.ts:29-53 | the correction changes only the missing-token case |
| ApiClient.RegisterError | Fe-Ambis-Solving/src/shared/services/api.ts:86-110 | 409 and 403 give their fixed messages; `HTTP <status>` only for a non-zero status; without a response, the error's own message or else `Gagal registrasi`; for status 0, the body's `error`/`message` if truthy, else the same fallback |
| ApiClient.RegisterErrorAgreesWithLogin | Fe-Ambis-Solving/src/shared/services/api.ts:44-49 | for a response whose status is not 409, 403 or 0, register and login report the same message |
| ApiClient.RegisterUser | Fe-Ambis-Solving/src/shared/services/api.ts:66-125 | the candidates are tried in their fixed order, moving on only after a 404; the first other outcome decides (a success returns its body); four 404s give the not-found message |
| ApiClient.NormalizeTasks | Fe-Ambis-Solving/src/shared/services/api.ts:170-175 | a bare array is the list, else the body's `items` array, else empty; the cursor is the body's `nextCursor` |
| ApiClient.NormalizeShapesAgree | Fe-Ambis-Solving/src/shared/services/api.ts:170-175 | a bare array and an `{items, nextCursor}` object with the same tasks normalise to the same list |

## Left out

- Persistence: `localStorage` reads and writes are left out, and the store state is the model. `load` returns `{}`, not `[]`, for a missing key (`shared/store/boardStore.ts:83`), so the `?? []` fallbacks at lines 101 and 115 never fire and a fresh store starts with a non-array "list". The model starts from empty lists instead.
- The priority map's persistence (`loadPriorityMap`/`savePriorityMap`) and `setTaskPriority` are left out; only the priority a new task starts with is modelled (`BoardEvents.CreatedPriority`).
- Clock and ids: `new Date()`, `Date.now()`, `uid()` and `crypto.randomUUID` are parameters. Id freshness is a precondition of the lemmas that need it.
- Dates: `startOfDay` is an arbitrary monotone function. `formatRelative` and `toLocaleDateString` are display-only and left out. The model does not use `day(t) <= t`.
- OverlayStore.MakeEvent: a payload whose `timestamp` key is present but `undefined` overwrites the default with `undefined`, because the spread comes after it. The model treats such a key as absent.
- HTTP: axios, its interceptors (including the 401 redirect), React Query caching and invalidation, and the socket clients are left out. A call is its outcome.
- ApiClient.LoginUser: an exception from `saveAuthLocally` inside the `try` would also be reported as the network message. Storage is not modelled, so this case is left out.
- ApiClient.RegisterUser: the final `lastErr?.message || "Gagal registrasi. Periksa konfigurasi server."` throw is modelled but cannot be reached. The loop leaves only after four 404s, so the last error is always a 404.
- ApiClient.ErrorMessage: a non-string value from the body is kept as a JSON value rather than converted with `String()`. `HTTP <status>` is kept as the status number, not formatted as text.
- ApiClient.Get: property lookups reach only the object's own fields. Inherited prototype properties are not modelled.
- Plain-object lookups throughout: the source indexes plain objects with ids and keys from data, and a key naming an `Object.prototype` member (`constructor`, `toString`, `__proto__`, …) finds the inherited member rather than nothing. Maps in the model have no such keys, so the lines below hold only for keys that are not `Object.prototype` member names.
- Timeline.MetaFor: for a status key such as `constructor`, `statusMap[key] ?? statusMap.planned` yields the `Object` function, not the planned entry, and the item gets no icon or colour.
- Timeline.EventTitle: for a task id such as `constructor`, `taskTitles[id]` yields a function, which then becomes the item's text.
- Timeline.LabelsFor: for a task id such as `constructor`, `taskLabels[id] ?? []` yields a function instead of an empty list.
- TaskTimeline.Marker: for a task status such as `constructor`, `statusMap[status] || statusMap.planned` yields the `Object` function, so the marker has no icon or colour.
- TaskTimeline.UnknownStatusDrawnAsPlanned: holds only for statuses that are not `Object.prototype` member names, as for `Marker`.
- BoardView.GroupTasks: for a column id such as `toString`, `map[id] ||= []` keeps the inherited function and the following `push` throws; `__proto__` as a column id rewires the object's prototype instead of adding a key.
- BoardEvents.CreatedPriority: for a column id such as `constructor`, `newPriorityByCol[id] ?? "medium"` yields a function, not `medium`.
- OverlayStore.AddTaskLabel: for a task id such as `constructor`, `s.taskLabels[id] ?? []` yields a function and `includes` throws; the same holds for `OverlayStore.RemoveTaskLabel` with `filter`.
- LocalBoard.HandleDragEnd: the source index must lie inside the source column when a move happens. The drag-and-drop library guarantees this; an out-of-range index would make the source remove nothing and insert `undefined`.
- BoardHelpers.ColumnStatus: lower-casing is ASCII only. JavaScript also lower-cases non-ASCII letters, e.g. the Kelvin sign to `k`.
- Timeline.SubmitNote: the length check counts characters, whereas zod counts UTF-16 code units. The two differ for characters outside the Basic Multilingual Plane.
- BoardHelpers.SafeBoardId: reading the route parameters, query string and path is I/O; they are arguments. The dynamic `require` of the router is treated as returning the route parameter or nothing.
- BoardView.DisplayedColumns: the `features/board` page sorts by `a.order - b.order` with `order` typed as required. The model uses the `?? 0` form of the `features/auth` page for both pages, so a missing order counts as 0.
- BoardView.Submit: the zod minimum-length check of the task title runs before `submit` and is not part of the model.
- Rendering: `toneClass`, `taskCardClasses`, `priorityChip`, `priorityLabel`, opening and closing the modal, the form's other state, routing, layout, theme toggling, `LoginPage.tsx` and `BoardsPage.tsx` are left out.
- The todo keywords of `COLUMN_KEYS` never decide anything, because todo is the default; the model leaves them out.

## Findings

| source | as written | input that shows it | evidently intended | confidence | as-written member | corrected member |
|---|---|---|---|---|---|---|
| Fe-Ambis-Solving/src/shared/services/api.ts:37-51 | the "Token tidak ditemukan pada respons login" error is thrown inside the `try`; having no `response`, the `catch` replaces it with the network/CORS message | a 200 login response whose body is `{}` | a reached server without a token reports the missing token; the network message is kept for requests that got no response | not executed | ApiClient.LoginEmptyBodyIsNetwork | ApiClient.LoginFixedBlamesNetworkOnlyWithoutResponse |
| Fe-Ambis-Solving/src/features/board/pages/BoardPage.tsx:238-246 | the `task_moved` event is recorded without `toColumnId`, so the timeline's `toColumnId ?? 'planned'` always reads "planned" | moving task `t1` to column `done` | the event records the target column, so the timeline shows "dipindah ke \"Selesai\"" | not executed | BoardEvents.MovedToDoneShownPlanned | BoardEvents.MovedShowsTarget |
