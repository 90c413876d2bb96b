/**
  The in-memory Kanban board of `features/auth/store/boardStore.ts`: a list of
  columns, each holding an ordered list of tasks, and the four state
  transitions of that store (add, update, delete, and the drag-and-drop
  splice). Task ids minted from the clock are a parameter here.
 */
module LocalBoard {
  import opened Basics
  import opened DragDrop

  datatype Task = Task(id: string, content: string)
  datatype Column = Column(id: string, title: string, tasks: seq<Task>)
  type Board = seq<Column>

  /** No two columns share an id. */
  ghost predicate DistinctIds(board: Board) {
    forall i, j :: 0 <= i < j < |board| ==> board[i].id != board[j].id
  }

  /** Every task of the board, counted with multiplicity. */
  function AllTasks(board: Board): multiset<Task> {
    if |board| == 0 then multiset{}
    else multiset(board[0].tasks) + AllTasks(board[1..])
  }

  /** `Array.prototype.find` by column id: the first column carrying `id`. */
  function FindColumn(board: Board, id: string): (r: Option<Column>)
    ensures r.None? <==> forall i :: 0 <= i < |board| ==> board[i].id != id
    ensures r.Some? ==> r.value.id == id
    ensures r.Some? ==> exists i :: 0 <= i < |board| && board[i] == r.value && forall j :: 0 <= j < i ==> board[j].id != id
  {
    if |board| == 0 then None
    else if board[0].id == id then Some(board[0])
    else
      var r := FindColumn(board[1..], id);
      assert r.Some? ==> exists i :: 0 <= i < |board[1..]| && board[1..][i] == r.value && forall j :: 0 <= j < i ==> board[1..][j].id != id;
      assert r.Some? ==> exists i :: 1 <= i < |board| && board[i] == r.value && forall j :: 0 <= j < i ==> board[j].id != id;
      r
  }

  /** With distinct ids, the column found is the one at the id's index. */
  lemma FindDistinct(board: Board, i: int)
    requires DistinctIds(board)
    requires 0 <= i < |board|
    ensures FindColumn(board, board[i].id) == Some(board[i])
  {
  }

  /** A board with the same column ids, in the same order, finds the same slots. */
  lemma FindSameIds(board: Board, b: Board, k: int)
    requires DistinctIds(board)
    requires |b| == |board| && forall i :: 0 <= i < |board| ==> b[i].id == board[i].id
    requires 0 <= k < |board|
    ensures FindColumn(b, board[k].id) == Some(b[k])
  {
    FindDistinct(b, k);
  }

  /** `s.splice(i, 1)` for an index inside `s`. */
  function RemoveAt<T>(s: seq<T>, i: nat): (r: seq<T>)
    requires i < |s|
    ensures |r| == |s| - 1
    ensures multiset(r) + multiset{s[i]} == multiset(s)
    ensures forall j :: 0 <= j < i ==> r[j] == s[j]
    ensures forall j :: i <= j < |r| ==> r[j] == s[j + 1]
  {
    assert s == s[..i] + [s[i]] + s[i + 1..];
    s[..i] + s[i + 1..]
  }

  /** `s.splice(i, 0, x)`: an index past the end inserts at the end. */
  function InsertAt<T>(s: seq<T>, i: nat, x: T): (r: seq<T>)
    ensures |r| == |s| + 1
    ensures r[Min(i, |s|)] == x
    ensures multiset(r) == multiset(s) + multiset{x}
    ensures forall j :: 0 <= j < Min(i, |s|) ==> r[j] == s[j]
    ensures forall j :: Min(i, |s|) < j < |r| ==> r[j] == s[j - 1]
  {
    var k := Min(i, |s|);
    assert s == s[..k] + s[k..];
    s[..k] + [x] + s[k..]
  }

  lemma RemoveInsert<T>(s: seq<T>, i: nat, x: T)
    ensures RemoveAt(InsertAt(s, i, x), Min(i, |s|)) == s
  {
  }

  lemma InsertRemove<T>(s: seq<T>, i: nat)
    requires i < |s|
    ensures InsertAt(RemoveAt(s, i), i, s[i]) == s
  {
  }

  /** The same-column splice: take the task out at `from`, put it back at `to`. */
  function MoveWithin(s: seq<Task>, from: nat, to: nat): (r: seq<Task>)
    requires from < |s|
    ensures |r| == |s|
    ensures multiset(r) == multiset(s)
    ensures r[Min(to, |s| - 1)] == s[from]
    ensures RemoveAt(r, Min(to, |s| - 1)) == RemoveAt(s, from)
  {
    var rest := RemoveAt(s, from);
    RemoveInsert(rest, to, s[from]);
    InsertAt(rest, to, s[from])
  }

  /** Moving a task and moving it back restores the column. */
  lemma MoveWithinBack(s: seq<Task>, from: nat, to: nat)
    requires from < |s| && to < |s|
    ensures MoveWithin(MoveWithin(s, from, to), to, from) == s
  {
    var r := MoveWithin(s, from, to);
    InsertRemove(s, from);
  }

  /** The `map` of the store: every column whose id is `c.id` becomes `c`. */
  function Replace(board: Board, c: Column): (r: Board)
    ensures |r| == |board|
    ensures forall i :: 0 <= i < |board| ==> r[i] == if board[i].id == c.id then c else board[i]
  {
    seq(|board|, i requires 0 <= i < |board| => if board[i].id == c.id then c else board[i])
  }

  /** The two-way `map` of the cross-column branch. */
  function ReplaceTwo(board: Board, a: Column, b: Column): (r: Board)
    ensures |r| == |board|
    ensures forall i :: 0 <= i < |board| ==>
      r[i] == if board[i].id == a.id then a else if board[i].id == b.id then b else board[i]
  {
    seq(|board|, i requires 0 <= i < |board| =>
      if board[i].id == a.id then a else if board[i].id == b.id then b else board[i])
  }

  /** `addTask`: append a task with the fresh id to the named column. */
  function AddTask(board: Board, columnId: string, content: string, freshId: string): (r: Board)
    ensures |r| == |board|
    ensures forall i :: 0 <= i < |board| ==> r[i].id == board[i].id && r[i].title == board[i].title
    ensures forall i :: 0 <= i < |board| && board[i].id != columnId ==> r[i] == board[i]
    ensures forall i :: 0 <= i < |board| && board[i].id == columnId ==>
      |r[i].tasks| == |board[i].tasks| + 1
      && r[i].tasks[..|board[i].tasks|] == board[i].tasks
      && r[i].tasks[|board[i].tasks|] == Task(freshId, content)
  {
    seq(|board|, i requires 0 <= i < |board| =>
      if board[i].id == columnId then board[i].(tasks := board[i].tasks + [Task(freshId, content)])
      else board[i])
  }

  function WithContent(t: Task, taskId: string, content: string): Task {
    if t.id == taskId then t.(content := content) else t
  }

  /** The inner `map` of `updateTask`. */
  function UpdateContents(ts: seq<Task>, taskId: string, content: string): (r: seq<Task>)
    ensures |r| == |ts|
    ensures forall j :: 0 <= j < |ts| ==> r[j] == WithContent(ts[j], taskId, content)
  {
    if |ts| == 0 then []
    else [WithContent(ts[0], taskId, content)] + UpdateContents(ts[1..], taskId, content)
  }

  /** `updateTask`: new content for the tasks with that id in the named column. */
  function UpdateTask(board: Board, columnId: string, taskId: string, content: string): (r: Board)
    ensures |r| == |board|
    ensures forall i :: 0 <= i < |board| ==> r[i].id == board[i].id && r[i].title == board[i].title
    ensures forall i :: 0 <= i < |board| && board[i].id != columnId ==> r[i] == board[i]
    ensures forall i :: 0 <= i < |board| ==> |r[i].tasks| == |board[i].tasks|
    ensures forall i, j :: 0 <= i < |board| && 0 <= j < |board[i].tasks| ==>
      && r[i].tasks[j].id == board[i].tasks[j].id
      && r[i].tasks[j].content
         == if board[i].id == columnId && board[i].tasks[j].id == taskId then content
            else board[i].tasks[j].content
  {
    seq(|board|, i requires 0 <= i < |board| =>
      if board[i].id == columnId then board[i].(tasks := UpdateContents(board[i].tasks, taskId, content))
      else board[i])
  }

  function KeepOthers(taskId: string): Task -> bool {
    (t: Task) => t.id != taskId
  }

  /** `deleteTask`: drop the tasks with that id from the named column. */
  function DeleteTask(board: Board, columnId: string, taskId: string): (r: Board)
    ensures |r| == |board|
    ensures forall i :: 0 <= i < |board| ==> r[i].id == board[i].id && r[i].title == board[i].title
    ensures forall i :: 0 <= i < |board| && board[i].id != columnId ==> r[i] == board[i]
    ensures forall i :: 0 <= i < |board| && board[i].id == columnId ==>
      r[i].tasks == Filter(board[i].tasks, KeepOthers(taskId))
  {
    seq(|board|, i requires 0 <= i < |board| =>
      if board[i].id == columnId then board[i].(tasks := Filter(board[i].tasks, KeepOthers(taskId)))
      else board[i])
  }

  /** In the named column exactly the tasks with that id are gone; every
      other task stays as often as it was there. */
  lemma DeleteTaskCount(board: Board, columnId: string, taskId: string, i: int)
    requires 0 <= i < |board| && board[i].id == columnId
    ensures forall t ::
      multiset(DeleteTask(board, columnId, taskId)[i].tasks)[t] == if t.id == taskId then 0 else multiset(board[i].tasks)[t]
  {
    FilterCount(board[i].tasks, KeepOthers(taskId));
  }

  /** Deleting the task just added (its id being fresh in that column)
      gives back the board as it was. */
  lemma DeleteUndoesAdd(board: Board, columnId: string, content: string, freshId: string)
    requires forall i, j :: 0 <= i < |board| && board[i].id == columnId && 0 <= j < |board[i].tasks| ==> board[i].tasks[j].id != freshId
    ensures DeleteTask(AddTask(board, columnId, content, freshId), columnId, freshId) == board
  {
    var added := AddTask(board, columnId, content, freshId);
    var r := DeleteTask(added, columnId, freshId);
    forall i | 0 <= i < |board|
      ensures r[i] == board[i]
    {
      if board[i].id == columnId {
        var ts := board[i].tasks;
        assert added[i].tasks == ts + [Task(freshId, content)];
        FilterAppend(ts, [Task(freshId, content)], KeepOthers(freshId));
        FilterAllKept(ts, KeepOthers(freshId));
        assert Filter([Task(freshId, content)], KeepOthers(freshId)) == [];
      }
    }
  }

  /** Deleting a task after editing it is the same as deleting it outright:
      an edit touches nothing but the tasks carrying that id. */
  lemma DeleteAfterUpdate(board: Board, columnId: string, taskId: string, content: string)
    ensures DeleteTask(UpdateTask(board, columnId, taskId, content), columnId, taskId) == DeleteTask(board, columnId, taskId)
  {
    var u := UpdateTask(board, columnId, taskId, content);
    var r := DeleteTask(u, columnId, taskId);
    var d := DeleteTask(board, columnId, taskId);
    forall i | 0 <= i < |board|
      ensures r[i] == d[i]
    {
      if board[i].id == columnId {
        FilterUpdated(board[i].tasks, taskId, content);
      }
    }
  }

  lemma {:induction false} FilterUpdated(ts: seq<Task>, taskId: string, content: string)
    ensures Filter(UpdateContents(ts, taskId, content), KeepOthers(taskId)) == Filter(ts, KeepOthers(taskId))
  {
    if |ts| > 0 {
      var us := UpdateContents(ts, taskId, content);
      assert us[1..] == UpdateContents(ts[1..], taskId, content);
      FilterUpdated(ts[1..], taskId, content);
    }
  }

  /** Every move the store can perform keeps the source index in range:
      the drag library only reports slots of items it rendered. */
  predicate SourceInRange(board: Board, r: DropResult) {
    || IsNoOpDrop(r)
    || match FindColumn(board, r.source.droppableId)
       case Some(c) => r.source.index < |c.tasks|
       case None => true
  }

  /** The same-column branch of `handleDragEnd`. */
  function DropWithin(board: Board, start: Column, from: nat, to: nat): (b: Board)
    requires from < |start.tasks|
    ensures |b| == |board|
    ensures forall i :: 0 <= i < |board| ==> b[i].id == board[i].id
    ensures forall i :: 0 <= i < |board| && board[i].id != start.id ==> b[i] == board[i]
  {
    Replace(board, start.(tasks := MoveWithin(start.tasks, from, to)))
  }

  /** The cross-column branch of `handleDragEnd`. */
  function DropAcross(board: Board, start: Column, finish: Column, from: nat, to: nat): (b: Board)
    requires from < |start.tasks|
    ensures |b| == |board|
    ensures forall i :: 0 <= i < |board| ==> b[i].id == board[i].id
    ensures forall i :: 0 <= i < |board| && board[i].id != start.id && board[i].id != finish.id ==> b[i] == board[i]
  {
    ReplaceTwo(board,
               start.(tasks := RemoveAt(start.tasks, from)),
               finish.(tasks := InsertAt(finish.tasks, to, start.tasks[from])))
  }

  /** `handleDragEnd`. The store compares the two columns it found by
      identity; since each was found by id, they are the same object exactly
      when the two droppable ids are equal. */
  function HandleDragEnd(board: Board, r: DropResult): (b: Board)
    requires SourceInRange(board, r)
    ensures |b| == |board|
    ensures forall i :: 0 <= i < |board| ==> b[i].id == board[i].id
    ensures forall i :: 0 <= i < |board| && board[i].id != r.source.droppableId
                        && (r.destination.None? || board[i].id != r.destination.value.droppableId)
                        ==> b[i] == board[i]
    ensures IsNoOpDrop(r) ==> b == board
    ensures FindColumn(board, r.source.droppableId).None? ==> b == board
    ensures r.destination.Some? && FindColumn(board, r.destination.value.droppableId).None? ==> b == board
  {
    if IsNoOpDrop(r) then board
    else
      var start := FindColumn(board, r.source.droppableId);
      var finish := FindColumn(board, r.destination.value.droppableId);
      if start.None? || finish.None? then board
      else if r.source.droppableId == r.destination.value.droppableId then
        DropWithin(board, start.value, r.source.index, r.destination.value.index)
      else
        DropAcross(board, start.value, finish.value, r.source.index, r.destination.value.index)
  }

  /** A drop inside one column permutes that column: same length, same
      tasks, the dragged task now at the drop index, and the other tasks in
      their old relative order. */
  lemma DragWithinColumn(board: Board, r: DropResult, start: Column)
    requires SourceInRange(board, r)
    requires !IsNoOpDrop(r)
    requires r.destination.value.droppableId == r.source.droppableId
    requires FindColumn(board, r.source.droppableId) == Some(start)
    ensures r.source.index < |start.tasks|
    ensures forall i :: 0 <= i < |board| && board[i].id == r.source.droppableId ==>
      var to := Min(r.destination.value.index, |start.tasks| - 1);
      var b := HandleDragEnd(board, r);
      && |b[i].tasks| == |start.tasks|
      && multiset(b[i].tasks) == multiset(start.tasks)
      && b[i].tasks[to] == start.tasks[r.source.index]
      && RemoveAt(b[i].tasks, to) == RemoveAt(start.tasks, r.source.index)
  {
  }

  /** A drop into another column takes the task out of the source column
      and puts it at the drop index of the destination column; the other
      tasks of both columns keep their order. */
  lemma DragAcrossColumns(board: Board, r: DropResult, start: Column, finish: Column)
    requires SourceInRange(board, r)
    requires r.destination.Some?
    requires r.destination.value.droppableId != r.source.droppableId
    requires FindColumn(board, r.source.droppableId) == Some(start)
    requires FindColumn(board, r.destination.value.droppableId) == Some(finish)
    ensures r.source.index < |start.tasks|
    ensures forall i :: 0 <= i < |board| && board[i].id == r.source.droppableId ==>
      var b := HandleDragEnd(board, r);
      && |b[i].tasks| == |start.tasks| - 1
      && multiset(b[i].tasks) + multiset{start.tasks[r.source.index]} == multiset(start.tasks)
      && b[i].tasks == RemoveAt(start.tasks, r.source.index)
    ensures forall i :: 0 <= i < |board| && board[i].id == r.destination.value.droppableId ==>
      var at := Min(r.destination.value.index, |finish.tasks|);
      var b := HandleDragEnd(board, r);
      && |b[i].tasks| == |finish.tasks| + 1
      && b[i].tasks[at] == start.tasks[r.source.index]
      && RemoveAt(b[i].tasks, at) == finish.tasks
  {
    assert !IsNoOpDrop(r);
    var at := Min(r.destination.value.index, |finish.tasks|);
    RemoveInsert(finish.tasks, at, start.tasks[r.source.index]);
  }

  /** The board-wide bookkeeping: changing one column changes the board's
      task multiset by exactly that column's difference. */
  lemma {:induction false} AllTasksUpdate(a: Board, b: Board, k: int)
    requires |a| == |b| && 0 <= k < |a|
    requires forall i :: 0 <= i < |a| && i != k ==> a[i] == b[i]
    ensures AllTasks(b) + multiset(a[k].tasks) == AllTasks(a) + multiset(b[k].tasks)
  {
    if k == 0 {
      assert a[1..] == b[1..];
    } else {
      assert a[0] == b[0];
      assert forall i :: 0 <= i < |a[1..]| && i != k - 1 ==> a[1..][i] == a[i + 1] && b[1..][i] == b[i + 1];
      AllTasksUpdate(a[1..], b[1..], k - 1);
      assert a[1..][k - 1] == a[k] && b[1..][k - 1] == b[k];
      assert AllTasks(a) == multiset(a[0].tasks) + AllTasks(a[1..]);
      assert AllTasks(b) == multiset(b[0].tasks) + AllTasks(b[1..]);
      forall t
        ensures (AllTasks(b) + multiset(a[k].tasks))[t] == (AllTasks(a) + multiset(b[k].tasks))[t]
      {
        assert (AllTasks(b[1..]) + multiset(a[1..][k - 1].tasks))[t] == (AllTasks(a[1..]) + multiset(b[1..][k - 1].tasks))[t];
      }
    }
  }

  /** Changing one column for one holding the same tasks keeps the board's
      tasks. */
  lemma AllTasksSame(a: Board, b: Board, k: int)
    requires |a| == |b| && 0 <= k < |a|
    requires forall i :: 0 <= i < |a| && i != k ==> a[i] == b[i]
    requires multiset(a[k].tasks) == multiset(b[k].tasks)
    ensures AllTasks(b) == AllTasks(a)
  {
    AllTasksUpdate(a, b, k);
    forall t
      ensures AllTasks(b)[t] == AllTasks(a)[t]
    {
      assert (AllTasks(b) + multiset(a[k].tasks))[t] == (AllTasks(a) + multiset(b[k].tasks))[t];
    }
  }

  /** Taking `x` out of column `s` and putting it into column `d` keeps the
      board's tasks. */
  lemma AllTasksMove(a: Board, b: Board, s: int, d: int, x: Task)
    requires |a| == |b| && 0 <= s < |a| && 0 <= d < |a| && s != d
    requires forall i :: 0 <= i < |a| && i != s && i != d ==> a[i] == b[i]
    requires multiset(b[s].tasks) + multiset{x} == multiset(a[s].tasks)
    requires multiset(b[d].tasks) == multiset(a[d].tasks) + multiset{x}
    ensures AllTasks(b) == AllTasks(a)
  {
    var mid := a[s := b[s]];
    assert forall i :: 0 <= i < |a| && i != s ==> mid[i] == a[i];
    AllTasksUpdate(a, mid, s);
    assert forall i :: 0 <= i < |a| && i != d ==> mid[i] == b[i];
    AllTasksUpdate(mid, b, d);
    forall t
      ensures AllTasks(b)[t] == AllTasks(a)[t]
    {
      assert (AllTasks(mid) + multiset(a[s].tasks))[t] == (AllTasks(a) + multiset(b[s].tasks))[t];
      assert (AllTasks(b) + multiset(mid[d].tasks))[t] == (AllTasks(mid) + multiset(b[d].tasks))[t];
      assert (multiset(b[s].tasks) + multiset{x})[t] == multiset(a[s].tasks)[t];
      assert multiset(b[d].tasks)[t] == (multiset(a[d].tasks) + multiset{x})[t];
    }
  }

  lemma DropWithinKeepsAllTasks(board: Board, k: int, from: nat, to: nat)
    requires DistinctIds(board)
    requires 0 <= k < |board| && from < |board[k].tasks|
    ensures AllTasks(DropWithin(board, board[k], from, to)) == AllTasks(board)
  {
    var b := DropWithin(board, board[k], from, to);
    assert b[k].tasks == MoveWithin(board[k].tasks, from, to);
    forall i | 0 <= i < |board| && i != k
      ensures b[i] == board[i]
    {
      assert board[i].id != board[k].id;
    }
    AllTasksSame(board, b, k);
  }

  lemma DropAcrossKeepsAllTasks(board: Board, s: int, d: int, from: nat, to: nat)
    requires DistinctIds(board)
    requires 0 <= s < |board| && 0 <= d < |board| && s != d
    requires from < |board[s].tasks|
    ensures AllTasks(DropAcross(board, board[s], board[d], from, to)) == AllTasks(board)
  {
    var b := DropAcross(board, board[s], board[d], from, to);
    var moved := board[s].tasks[from];
    assert b[s].tasks == RemoveAt(board[s].tasks, from);
    assert b[d].tasks == InsertAt(board[d].tasks, to, moved);
    AllTasksMove(board, b, s, d, moved);
  }

  /** On a board whose column ids are distinct, no drop creates or loses a
      task: the board's multiset of tasks is unchanged. */
  lemma DragKeepsAllTasks(board: Board, r: DropResult)
    requires SourceInRange(board, r)
    requires DistinctIds(board)
    ensures AllTasks(HandleDragEnd(board, r)) == AllTasks(board)
  {
    if !IsNoOpDrop(r) {
      var fs := FindColumn(board, r.source.droppableId);
      var fd := FindColumn(board, r.destination.value.droppableId);
      if fs.Some? && fd.Some? {
        var s :| 0 <= s < |board| && board[s] == fs.value;
        var d :| 0 <= d < |board| && board[d] == fd.value;
        if r.source.droppableId == r.destination.value.droppableId {
          DropWithinKeepsAllTasks(board, s, r.source.index, r.destination.value.index);
        } else {
          DropAcrossKeepsAllTasks(board, s, d, r.source.index, r.destination.value.index);
        }
      }
    }
  }

  lemma DropWithinBack(board: Board, k: int, from: nat, to: nat)
    requires DistinctIds(board)
    requires 0 <= k < |board| && from < |board[k].tasks| && to < |board[k].tasks|
    ensures var b := DropWithin(board, board[k], from, to);
      to < |b[k].tasks| && DropWithin(b, b[k], to, from) == board
  {
    var b := DropWithin(board, board[k], from, to);
    MoveWithinBack(board[k].tasks, from, to);
    var back := DropWithin(b, b[k], to, from);
    assert forall i :: 0 <= i < |board| ==> back[i] == board[i];
  }

  lemma DropAcrossBack(board: Board, s: int, d: int, from: nat, to: nat)
    requires DistinctIds(board)
    requires 0 <= s < |board| && 0 <= d < |board| && s != d
    requires from < |board[s].tasks| && to <= |board[d].tasks|
    ensures var b := DropAcross(board, board[s], board[d], from, to);
      to < |b[d].tasks| && DropAcross(b, b[d], b[s], to, from) == board
  {
    var b := DropAcross(board, board[s], board[d], from, to);
    var moved := board[s].tasks[from];
    RemoveInsert(board[d].tasks, to, moved);
    InsertRemove(board[s].tasks, from);
    assert b[d].tasks[to] == moved;
    var back := DropAcross(b, b[d], b[s], to, from);
    forall i | 0 <= i < |board|
      ensures back[i] == board[i]
    {
      if i != s && i != d {
        assert board[i].id != board[s].id && board[i].id != board[d].id;
      }
    }
  }

  lemma HandleWithin(board: Board, r: DropResult, k: int)
    requires !IsNoOpDrop(r)
    requires r.destination.value.droppableId == r.source.droppableId
    requires 0 <= k < |board| && FindColumn(board, r.source.droppableId) == Some(board[k])
    requires r.source.index < |board[k].tasks|
    ensures SourceInRange(board, r)
    ensures HandleDragEnd(board, r) == DropWithin(board, board[k], r.source.index, r.destination.value.index)
  {
  }

  lemma HandleAcross(board: Board, r: DropResult, s: int, d: int)
    requires !IsNoOpDrop(r)
    requires r.destination.value.droppableId != r.source.droppableId
    requires 0 <= s < |board| && FindColumn(board, r.source.droppableId) == Some(board[s])
    requires 0 <= d < |board| && FindColumn(board, r.destination.value.droppableId) == Some(board[d])
    requires r.source.index < |board[s].tasks|
    ensures SourceInRange(board, r)
    ensures HandleDragEnd(board, r) == DropAcross(board, board[s], board[d], r.source.index, r.destination.value.index)
  {
  }

  lemma DragBackWithin(board: Board, r: DropResult, k: int)
    requires DistinctIds(board)
    requires !IsNoOpDrop(r)
    requires r.destination.value.droppableId == r.source.droppableId
    requires 0 <= k < |board| && FindColumn(board, r.source.droppableId) == Some(board[k])
    requires r.source.index < |board[k].tasks| && r.destination.value.index < |board[k].tasks|
    ensures SourceInRange(HandleDragEnd(board, r), DragBack(r))
      && HandleDragEnd(HandleDragEnd(board, r), DragBack(r)) == board
  {
    HandleWithin(board, r, k);
    var b := DropWithin(board, board[k], r.source.index, r.destination.value.index);
    DropWithinBack(board, k, r.source.index, r.destination.value.index);
    FindSameIds(board, b, k);
    HandleWithin(b, DragBack(r), k);
  }

  lemma DragBackAcross(board: Board, r: DropResult, s: int, d: int)
    requires DistinctIds(board)
    requires !IsNoOpDrop(r)
    requires r.destination.value.droppableId != r.source.droppableId
    requires 0 <= s < |board| && FindColumn(board, r.source.droppableId) == Some(board[s])
    requires 0 <= d < |board| && FindColumn(board, r.destination.value.droppableId) == Some(board[d])
    requires r.source.index < |board[s].tasks| && r.destination.value.index <= |board[d].tasks|
    ensures SourceInRange(HandleDragEnd(board, r), DragBack(r))
      && HandleDragEnd(HandleDragEnd(board, r), DragBack(r)) == board
  {
    var from := r.source.index;
    var to := r.destination.value.index;
    HandleAcross(board, r, s, d);
    var b := DropAcross(board, board[s], board[d], from, to);
    DropAcrossBack(board, s, d, from, to);
    FindSameIds(board, b, s);
    FindSameIds(board, b, d);
    var back := DragBack(r);
    assert !IsNoOpDrop(back);
    HandleAcross(b, back, d, s);
    assert HandleDragEnd(b, back) == DropAcross(b, b[d], b[s], to, from);
  }

  /** Dragging a task and then dragging it straight back restores the board,
      when the column ids are distinct and the drop index was a real slot. */
  lemma DragBackRestores(board: Board, r: DropResult)
    requires DistinctIds(board)
    requires !IsNoOpDrop(r)
    requires FindColumn(board, r.source.droppableId).Some?
    requires FindColumn(board, r.destination.value.droppableId).Some?
    requires r.source.index < |FindColumn(board, r.source.droppableId).value.tasks|
    requires r.destination.value.index <
      |FindColumn(board, r.destination.value.droppableId).value.tasks|
      + (if r.destination.value.droppableId == r.source.droppableId then 0 else 1)
    ensures SourceInRange(HandleDragEnd(board, r), DragBack(r))
      && HandleDragEnd(HandleDragEnd(board, r), DragBack(r)) == board
  {
    var s :| 0 <= s < |board| && board[s] == FindColumn(board, r.source.droppableId).value;
    var d :| 0 <= d < |board| && board[d] == FindColumn(board, r.destination.value.droppableId).value;
    if r.source.droppableId == r.destination.value.droppableId {
      DragBackWithin(board, r, s);
    } else {
      DragBackAcross(board, r, s, d);
    }
  }

  /** The local splice honours the move request the page would send: after
      the drop, the dragged task sits at 0-based index `toPosition - 1` of
      the destination column, provided it was the task at the source slot
      and the drop index was a real slot. */
  lemma SpliceMatchesMoveIntent(board: Board, r: DropResult)
    requires SourceInRange(board, r)
    requires r.destination.Some?
    requires FindColumn(board, r.source.droppableId).Some?
    requires FindColumn(board, r.destination.value.droppableId).Some?
    requires r.source.index < |FindColumn(board, r.source.droppableId).value.tasks|
    requires FindColumn(board, r.source.droppableId).value.tasks[r.source.index].id == r.draggableId
    requires r.destination.value.index <
      |FindColumn(board, r.destination.value.droppableId).value.tasks|
      + (if r.destination.value.droppableId == r.source.droppableId then 0 else 1)
    ensures MoveIntent(r).None? ==> HandleDragEnd(board, r) == board
    ensures MoveIntent(r).Some? ==>
      var m := MoveIntent(r).value;
      var b := HandleDragEnd(board, r);
      forall i :: 0 <= i < |board| && board[i].id == m.toColumnId ==>
        0 <= m.toPosition - 1 < |b[i].tasks| && b[i].tasks[m.toPosition - 1].id == m.taskId
  {
    if !IsNoOpDrop(r) {
      var m := MoveIntent(r).value;
      forall i | 0 <= i < |board| && board[i].id == m.toColumnId
        ensures 0 <= m.toPosition - 1 < |HandleDragEnd(board, r)[i].tasks|
        ensures HandleDragEnd(board, r)[i].tasks[m.toPosition - 1].id == m.taskId
      {
        if r.destination.value.droppableId == r.source.droppableId {
          SpliceWithinAt(board, r, i);
        } else {
          SpliceAcrossAt(board, r, i);
        }
      }
    }
  }

  lemma SpliceWithinAt(board: Board, r: DropResult, i: int)
    requires SourceInRange(board, r)
    requires !IsNoOpDrop(r)
    requires r.destination.value.droppableId == r.source.droppableId
    requires FindColumn(board, r.source.droppableId).Some?
    requires r.source.index < |FindColumn(board, r.source.droppableId).value.tasks|
    requires FindColumn(board, r.source.droppableId).value.tasks[r.source.index].id == r.draggableId
    requires r.destination.value.index < |FindColumn(board, r.source.droppableId).value.tasks|
    requires 0 <= i < |board| && board[i].id == r.source.droppableId
    ensures r.destination.value.index < |HandleDragEnd(board, r)[i].tasks|
    ensures HandleDragEnd(board, r)[i].tasks[r.destination.value.index].id == r.draggableId
  {
    DragWithinColumn(board, r, FindColumn(board, r.source.droppableId).value);
  }

  lemma SpliceAcrossAt(board: Board, r: DropResult, i: int)
    requires SourceInRange(board, r)
    requires r.destination.Some?
    requires r.destination.value.droppableId != r.source.droppableId
    requires FindColumn(board, r.source.droppableId).Some?
    requires FindColumn(board, r.destination.value.droppableId).Some?
    requires r.source.index < |FindColumn(board, r.source.droppableId).value.tasks|
    requires FindColumn(board, r.source.droppableId).value.tasks[r.source.index].id == r.draggableId
    requires r.destination.value.index <= |FindColumn(board, r.destination.value.droppableId).value.tasks|
    requires 0 <= i < |board| && board[i].id == r.destination.value.droppableId
    ensures r.destination.value.index < |HandleDragEnd(board, r)[i].tasks|
    ensures HandleDragEnd(board, r)[i].tasks[r.destination.value.index].id == r.draggableId
  {
    DragAcrossColumns(board, r, FindColumn(board, r.source.droppableId).value,
                      FindColumn(board, r.destination.value.droppableId).value);
  }
}
