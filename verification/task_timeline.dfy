/**
  The task timeline of the local (non-server) board: every task of every
  column, tagged with its column's id as status and a readable status name,
  listed newest first, where "newest" means later column, later position.
 */
module TaskTimeline {
  import opened Basics
  import opened LocalBoard
  import opened Timeline

  /** This page's own status table: three columns, no `todo`. */
  function PageStatus(key: string): (m: Option<StatusMeta>)
    ensures m.Some? <==> key in {"done", "in-progress", "planned"}
    ensures m.Some? ==> m.value.name != "Lainnya" && m.value.name != ""
  {
    if key == "done" then Some(StatusMeta(CheckCircle, "bg-green-500", "Selesai"))
    else if key == "in-progress" then Some(StatusMeta(Zap, "bg-yellow-500", "Dikerjakan"))
    else if key == "planned" then Some(StatusMeta(Hourglass, "bg-gray-400", "Direncanakan"))
    else None
  }

  const OtherName := "Lainnya"

  /** `statusMap[id]?.label || 'Lainnya'` */
  function StatusName(key: string): (r: string)
    ensures r == OtherName <==> PageStatus(key).None?
    ensures PageStatus(key).Some? ==> r == PageStatus(key).value.name
  {
    if PageStatus(key).Some? then PageStatus(key).value.name else OtherName
  }

  /** A task spread with the status fields the page adds. */
  datatype Entry = Entry(task: Task, status: string, statusName: string)

  function ColumnEntries(c: Column): (r: seq<Entry>)
    ensures |r| == |c.tasks|
  {
    seq(|c.tasks|, i requires 0 <= i < |c.tasks| => Entry(c.tasks[i], c.id, StatusName(c.id)))
  }

  /** `boardData.flatMap(...)`: the entries column after column. */
  function FlatEntries(board: Board): seq<Entry> {
    if |board| == 0 then [] else ColumnEntries(board[0]) + FlatEntries(board[1..])
  }

  /** The page's list: the flattened entries, reversed. */
  function AllEntries(board: Board): (r: seq<Entry>)
    ensures Reverse(r) == FlatEntries(board)
  {
    ReverseReverse(FlatEntries(board));
    Reverse(FlatEntries(board))
  }

  function TasksOf(es: seq<Entry>): (r: seq<Task>)
    ensures |r| == |es|
    ensures forall i :: 0 <= i < |es| ==> r[i] == es[i].task
  {
    seq(|es|, i requires 0 <= i < |es| => es[i].task)
  }

  lemma TasksOfAppend(a: seq<Entry>, b: seq<Entry>)
    ensures TasksOf(a + b) == TasksOf(a) + TasksOf(b)
  {
  }

  /** The flattened entries carry exactly the board's tasks. */
  lemma {:induction false} FlatTasks(board: Board)
    ensures multiset(TasksOf(FlatEntries(board))) == AllTasks(board)
  {
    if |board| > 0 {
      FlatTasks(board[1..]);
      TasksOfAppend(ColumnEntries(board[0]), FlatEntries(board[1..]));
      assert TasksOf(ColumnEntries(board[0])) == board[0].tasks;
    }
  }

  /** The timeline shows every task of the board, each as often as it is
      on the board, and nothing else. */
  lemma TimelineShowsAllTasks(board: Board)
    ensures multiset(TasksOf(AllEntries(board))) == AllTasks(board)
    ensures |AllEntries(board)| == |AllTasks(board)|
  {
    var f := FlatEntries(board);
    FlatTasks(board);
    assert TasksOf(Reverse(f)) == Reverse(TasksOf(f));
    ReverseReverse(TasksOf(f));
  }

  /** Every entry comes from a column holding its task and carries that
      column's id and name. */
  lemma {:induction false} FlatEntryOrigin(board: Board, k: nat)
    requires k < |FlatEntries(board)|
    ensures exists i :: 0 <= i < |board| && FlatEntries(board)[k].task in board[i].tasks
              && FlatEntries(board)[k] == Entry(FlatEntries(board)[k].task, board[i].id, StatusName(board[i].id))
  {
    var head := ColumnEntries(board[0]);
    if k < |head| {
      assert FlatEntries(board)[k] == head[k];
      assert board[0].tasks[k] in board[0].tasks;
    } else {
      assert FlatEntries(board)[k] == FlatEntries(board[1..])[k - |head|];
      FlatEntryOrigin(board[1..], k - |head|);
      var i :| 0 <= i < |board[1..]| && FlatEntries(board[1..])[k - |head|].task in board[1..][i].tasks
                && FlatEntries(board[1..])[k - |head|]
                   == Entry(FlatEntries(board[1..])[k - |head|].task, board[1..][i].id, StatusName(board[1..][i].id));
      assert board[1..][i] == board[i + 1];
    }
  }

  /** Every task of every column is on the timeline with that column's id
      and name. */
  lemma {:induction false} FlatEntryPresent(board: Board, i: nat, t: Task)
    requires i < |board| && t in board[i].tasks
    ensures Entry(t, board[i].id, StatusName(board[i].id)) in FlatEntries(board)
  {
    if i == 0 {
      var j :| 0 <= j < |board[0].tasks| && board[0].tasks[j] == t;
      assert ColumnEntries(board[0])[j] == Entry(t, board[0].id, StatusName(board[0].id));
    } else {
      assert board[1..][i - 1] == board[i];
      FlatEntryPresent(board[1..], i - 1, t);
    }
  }

  /** The entry pairs a task of some column with that column's id and name. */
  predicate FromColumn(board: Board, e: Entry) {
    exists i :: 0 <= i < |board| && e.task in board[i].tasks && e == Entry(e.task, board[i].id, StatusName(board[i].id))
  }

  /** Reversing keeps the same entries. */
  lemma ReverseSameEntries(f: seq<Entry>, e: Entry)
    ensures e in Reverse(f) <==> e in f
  {
    var r := Reverse(f);
    if e in r {
      var k :| 0 <= k < |r| && r[k] == e;
      assert f[|f| - 1 - k] == e;
    }
    if e in f {
      var k :| 0 <= k < |f| && f[k] == e;
      assert r[|f| - 1 - k] == e;
    }
  }

  lemma FlatEntryIff(board: Board, e: Entry)
    ensures e in FlatEntries(board) <==> FromColumn(board, e)
  {
    var f := FlatEntries(board);
    if e in f {
      var k :| 0 <= k < |f| && f[k] == e;
      FlatEntryOrigin(board, k);
    }
    if FromColumn(board, e) {
      var i :| 0 <= i < |board| && e.task in board[i].tasks && e == Entry(e.task, board[i].id, StatusName(board[i].id));
      FlatEntryPresent(board, i, e.task);
    }
  }

  /** An entry is on the timeline exactly when it pairs a task of some
      column with that column's id and name. */
  lemma EntryOnTimeline(board: Board, e: Entry)
    ensures e in AllEntries(board) <==> FromColumn(board, e)
  {
    ReverseSameEntries(FlatEntries(board), e);
    FlatEntryIff(board, e);
  }

  /** Newest first: the first entry is the last task of the last column. */
  lemma TimelineStartsWithLastTask(board: Board)
    requires |board| > 0 && |board[|board| - 1].tasks| > 0
    ensures |AllEntries(board)| > 0
    ensures AllEntries(board)[0].task == board[|board| - 1].tasks[|board[|board| - 1].tasks| - 1]
  {
    FlatLast(board);
  }

  lemma {:induction false} FlatLast(board: Board)
    requires |board| > 0 && |board[|board| - 1].tasks| > 0
    ensures |FlatEntries(board)| > 0
    ensures FlatEntries(board)[|FlatEntries(board)| - 1].task == board[|board| - 1].tasks[|board[|board| - 1].tasks| - 1]
  {
    if |board| > 1 {
      assert board[1..][|board[1..]| - 1] == board[|board| - 1];
      FlatLast(board[1..]);
    }
  }

  /** The "no tasks yet" message shows exactly when no column holds a task. */
  lemma {:induction false} EmptyTimeline(board: Board)
    ensures |AllEntries(board)| == 0 <==> forall i :: 0 <= i < |board| ==> |board[i].tasks| == 0
  {
    TimelineShowsAllTasks(board);
    AllTasksEmpty(board);
  }

  lemma {:induction false} AllTasksEmpty(board: Board)
    ensures |AllTasks(board)| == 0 <==> forall i :: 0 <= i < |board| ==> |board[i].tasks| == 0
  {
    if |board| > 0 {
      AllTasksEmpty(board[1..]);
      assert forall i :: 1 <= i < |board| ==> board[i] == board[1..][i - 1];
      if |board[0].tasks| > 0 {
        assert board[0].tasks[0] in multiset(board[0].tasks);
      }
    }
  }

  /** `statusMap[task.status] || statusMap.planned`: icon and colour. */
  function Marker(e: Entry): (m: StatusMeta)
    ensures PageStatus(e.status).Some? ==> m == PageStatus(e.status).value
    ensures PageStatus(e.status).None? ==> m == PageStatus("planned").value
  {
    PageStatus(e.status).GetOr(PageStatus("planned").value)
  }

  /** A task in a column outside the table is drawn with the "planned"
      hourglass in grey while its text says "Lainnya". */
  lemma UnknownStatusDrawnAsPlanned(board: Board)
    ensures forall e :: e in AllEntries(board) && PageStatus(e.status).None? ==>
      Marker(e).icon == Hourglass && Marker(e).color == "bg-gray-400" && e.statusName == OtherName
  {
    forall e | e in AllEntries(board) && PageStatus(e.status).None?
      ensures e.statusName == OtherName
    {
      EntryOnTimeline(board, e);
    }
  }

  /** For a column in the table the marker and the text agree. */
  lemma KnownStatusConsistent(board: Board)
    ensures forall e :: e in AllEntries(board) && PageStatus(e.status).Some? ==> Marker(e).name == e.statusName
  {
    forall e | e in AllEntries(board) && PageStatus(e.status).Some?
      ensures Marker(e).name == e.statusName
    {
      EntryOnTimeline(board, e);
    }
  }
}
