/**
  What the two server-backed board pages derive from the board and task
  lists the API returns: the displayed column order, the per-column task
  lists, the lanes that are actually rendered, and the mutation the task
  form submits.

  The page under `features/board` computes one list per column on demand
  (`TasksByCol`); the page under `features/auth` builds a map from column id
  to list in one pass (`GroupTasks`). Both sort by `order`, a missing order
  counting as 0, and `GroupTasks` is proved to agree with `TasksByCol` on
  every key.
 */
module BoardView {
  import opened Basics
  import opened Sorting

  /** A column as the board endpoint returns it. */
  datatype ApiColumn = ApiColumn(id: string, name: string, order: Option<int>)

  /** A task as the task-list endpoint returns it. */
  datatype ApiTask = ApiTask(id: string, title: string, columnId: string, order: Option<int>)

  /** `a.order ?? 0` */
  function ColumnOrder(c: ApiColumn): int {
    c.order.GetOr(0)
  }

  /** `t.order ?? 0` */
  function TaskOrder(t: ApiTask): int {
    t.order.GetOr(0)
  }

  function InColumn(columnId: string): ApiTask -> bool {
    (t: ApiTask) => t.columnId == columnId
  }

  function ColumnIds(columns: seq<ApiColumn>): set<string> {
    set c | c in columns :: c.id
  }

  function TaskColumnIds(tasks: seq<ApiTask>): set<string> {
    set t | t in tasks :: t.columnId
  }

  /** The columns in display order: a rearrangement of the board's columns,
      ascending by order, ties kept in the board's order. */
  function DisplayedColumns(columns: seq<ApiColumn>): (r: seq<ApiColumn>)
    ensures multiset(r) == multiset(columns)
    ensures SortedBy(r, ColumnOrder)
  {
    SortBy(columns, ColumnOrder)
  }

  /** Columns with the same order are displayed in the board's order. */
  lemma DisplayedColumnsStable(columns: seq<ApiColumn>, k: int)
    ensures WithKey(DisplayedColumns(columns), ColumnOrder, k) == WithKey(columns, ColumnOrder, k)
  {
    WithKeyKept(columns, ColumnOrder, k);
  }

  /** The tasks shown in column `columnId`: exactly the tasks carrying that
      column id, each as often as in the input, ascending by order. */
  function TasksByCol(tasks: seq<ApiTask>, columnId: string): (r: seq<ApiTask>)
    ensures forall t :: t in r <==> t in tasks && t.columnId == columnId
    ensures forall t :: multiset(r)[t] == if t.columnId == columnId then multiset(tasks)[t] else 0
    ensures SortedBy(r, TaskOrder)
  {
    FilterCount(tasks, InColumn(columnId));
    SortBy(Filter(tasks, InColumn(columnId)), TaskOrder)
  }

  /** Tasks of one column with the same order keep the order of the task list. */
  lemma TasksByColStable(tasks: seq<ApiTask>, columnId: string, k: int)
    ensures WithKey(TasksByCol(tasks, columnId), TaskOrder, k)
         == WithKey(Filter(tasks, InColumn(columnId)), TaskOrder, k)
  {
    WithKeyKept(Filter(tasks, InColumn(columnId)), TaskOrder, k);
  }

  /** Each task is listed under its own column and under no other. */
  lemma TaskInOneColumn(tasks: seq<ApiTask>, t: ApiTask, columnId: string)
    requires t in tasks
    ensures t in TasksByCol(tasks, columnId) <==> columnId == t.columnId
    ensures multiset(TasksByCol(tasks, t.columnId))[t] == multiset(tasks)[t]
  {
  }

  /** The one-pass grouping: every board column gets a list, even an empty
      one; then each task is pushed onto the list of its own column id,
      which is created on the spot for an id the board does not have;
      finally every list is sorted by order. */
  method GroupTasks(columns: seq<ApiColumn>, tasks: seq<ApiTask>) returns (m: map<string, seq<ApiTask>>)
    ensures m.Keys == ColumnIds(columns) + TaskColumnIds(tasks)
    ensures forall k :: k in m ==> m[k] == TasksByCol(tasks, k)
  {
    var lists := EmptyLists(columns);
    lists := PushAll(ColumnIds(columns), lists, tasks);
    m := map k | k in lists :: SortBy(lists[k], TaskOrder);
  }

  /** The first loop: an empty list for every board column. */
  method EmptyLists(columns: seq<ApiColumn>) returns (m: map<string, seq<ApiTask>>)
    ensures m.Keys == ColumnIds(columns)
    ensures forall k :: k in m ==> m[k] == []
  {
    m := map[];
    var i := 0;
    while i < |columns|
      invariant 0 <= i <= |columns|
      invariant m.Keys == ColumnIds(columns[..i])
      invariant forall k :: k in m ==> m[k] == []
    {
      assert columns[..i + 1] == columns[..i] + [columns[i]];
      m := m[columns[i].id := []];
      i := i + 1;
    }
    assert columns[..i] == columns;
  }

  /** The second loop: each task pushed onto the list of its column id. */
  method PushAll(base: set<string>, start: map<string, seq<ApiTask>>, tasks: seq<ApiTask>) returns (m: map<string, seq<ApiTask>>)
    requires start.Keys == base
    requires forall k :: k in start ==> start[k] == []
    ensures m.Keys == base + TaskColumnIds(tasks)
    ensures forall k :: k in m ==> m[k] == Filter(tasks, InColumn(k))
  {
    m := start;
    var j := 0;
    assert tasks[..0] == [];
    while j < |tasks|
      invariant 0 <= j <= |tasks|
      invariant m.Keys == base + TaskColumnIds(tasks[..j])
      invariant forall k :: k in m ==> m[k] == Filter(tasks[..j], InColumn(k))
    {
      assert tasks[..j + 1] == tasks[..j] + [tasks[j]];
      PushKeys(m, base, tasks[..j], tasks[j]);
      PushKeepsGrouping(m, base, tasks[..j], tasks[j]);
      m := Push(m, tasks[j]);
      j := j + 1;
    }
    assert tasks[..j] == tasks;
  }

  /** `(map[t.columnId] ||= []).push(t)` */
  function Push(m: map<string, seq<ApiTask>>, t: ApiTask): map<string, seq<ApiTask>> {
    m[t.columnId := (if t.columnId in m then m[t.columnId] else []) + [t]]
  }

  /** One push step keeps every list equal to the tasks of its column seen
      so far. */
  lemma PushKeepsGrouping(m: map<string, seq<ApiTask>>, base: set<string>, seen: seq<ApiTask>, t: ApiTask)
    requires m.Keys == base + TaskColumnIds(seen)
    requires forall k :: k in m ==> m[k] == Filter(seen, InColumn(k))
    ensures forall k :: k in Push(m, t) ==> Push(m, t)[k] == Filter(seen + [t], InColumn(k))
  {
    if t.columnId !in m {
      forall i | 0 <= i < |seen|
        ensures seen[i].columnId != t.columnId
      {
        assert seen[i] in seen;
      }
      FilterNone(seen, InColumn(t.columnId));
    }
    var p := Push(m, t);
    forall k | k in p
      ensures p[k] == Filter(seen + [t], InColumn(k))
    {
      FilterAppend(seen, [t], InColumn(k));
      assert [t][1..] == [];
      if k == t.columnId {
        assert Filter([t], InColumn(k)) == [t];
      } else {
        assert Filter([t], InColumn(k)) == [];
        assert p[k] == m[k];
      }
    }
  }

  lemma PushKeys(m: map<string, seq<ApiTask>>, base: set<string>, seen: seq<ApiTask>, t: ApiTask)
    requires m.Keys == base + TaskColumnIds(seen)
    ensures Push(m, t).Keys == base + TaskColumnIds(seen + [t])
  {
    TaskColumnIdsSnoc(seen, t);
  }

  lemma TaskColumnIdsSnoc(seen: seq<ApiTask>, t: ApiTask)
    ensures TaskColumnIds(seen + [t]) == TaskColumnIds(seen) + {t.columnId}
  {
    forall id | id in TaskColumnIds(seen + [t])
      ensures id in TaskColumnIds(seen) + {t.columnId}
    {
      var x :| x in seen + [t] && x.columnId == id;
      if x != t {
        assert x in seen;
      }
    }
    assert t in seen + [t];
    forall id | id in TaskColumnIds(seen)
      ensures id in TaskColumnIds(seen + [t])
    {
      var x :| x in seen && x.columnId == id;
      assert x in seen + [t];
    }
  }

  /** A rendered column and the tasks drawn in it. */
  datatype Lane = Lane(column: ApiColumn, tasks: seq<ApiTask>)

  /** The lanes of the `features/auth` page: one per board column in display
      order, each showing the grouped list for its id, or nothing. */
  function Lanes(columns: seq<ApiColumn>, grouped: map<string, seq<ApiTask>>): (r: seq<Lane>)
    ensures |r| == |columns|
    ensures forall i :: 0 <= i < |r| ==> r[i].column == DisplayedColumns(columns)[i]
    ensures forall i :: 0 <= i < |r| ==>
      r[i].tasks == if r[i].column.id in grouped then grouped[r[i].column.id] else []
  {
    var shown := DisplayedColumns(columns);
    seq(|shown|, i requires 0 <= i < |shown| =>
      Lane(shown[i], if shown[i].id in grouped then grouped[shown[i].id] else []))
  }

  /** With the grouping of `GroupTasks`, a task is drawn in a lane exactly
      when it belongs to that lane's column. */
  lemma LaneContents(columns: seq<ApiColumn>, tasks: seq<ApiTask>, grouped: map<string, seq<ApiTask>>, i: int)
    requires grouped.Keys == ColumnIds(columns) + TaskColumnIds(tasks)
    requires forall k :: k in grouped ==> grouped[k] == TasksByCol(tasks, k)
    requires 0 <= i < |columns|
    ensures forall t :: t in Lanes(columns, grouped)[i].tasks <==> t in tasks && t.columnId == Lanes(columns, grouped)[i].column.id
  {
    var lane := Lanes(columns, grouped)[i];
    if lane.column.id !in grouped {
      forall t | t in tasks
        ensures t.columnId != lane.column.id
      {
        assert t.columnId in TaskColumnIds(tasks);
      }
    }
  }

  /** A task whose column id is not a board column is drawn in no lane. */
  lemma UnknownColumnHidden(columns: seq<ApiColumn>, grouped: map<string, seq<ApiTask>>, t: ApiTask)
    requires forall k :: k in grouped ==> forall x :: x in grouped[k] ==> x.columnId == k
    requires t.columnId !in ColumnIds(columns)
    ensures forall lane :: lane in Lanes(columns, grouped) ==> t !in lane.tasks
  {
    var r := Lanes(columns, grouped);
    var shown := DisplayedColumns(columns);
    forall lane | lane in r
      ensures t !in lane.tasks
    {
      var i :| 0 <= i < |r| && r[i] == lane;
      assert shown[i] in multiset(columns);
      assert shown[i].id in ColumnIds(columns);
    }
  }

  /** What the task form of the `features/auth` page sends. */
  datatype TaskMutation =
    | UpdateTitle(taskId: string, title: string)
    | CreateTask(title: string, columnId: string)

  /** Submitting the form: an edit when a task is being edited, otherwise a
      creation in the target column when one is set (an empty column id is
      falsy and counts as unset), otherwise nothing. */
  function Submit(editing: Option<ApiTask>, target: Option<string>, title: string): (r: Option<TaskMutation>)
    ensures r.None? <==> editing.None? && (target.None? || target.value == "")
    ensures r.Some? && r.value.UpdateTitle? <==> editing.Some?
    ensures r.Some? ==> r.value.title == title
    ensures r.Some? && r.value.UpdateTitle? ==> r.value.taskId == editing.value.id
    ensures r.Some? && r.value.CreateTask? ==> target.Some? && r.value.columnId == target.value
  {
    if editing.Some? then Some(UpdateTitle(editing.value.id, title))
    else if target.Some? && target.value != "" then Some(CreateTask(title, target.value))
    else None
  }

  /** The task form's state: the task being edited, the column a new task
      goes to, the title field, and whether the modal is open. */
  datatype TaskForm = TaskForm(editing: Option<ApiTask>, target: Option<string>, title: string, open: bool)

  /** `openCreate`: no task under edit, the column as target, an empty title. */
  function OpenCreate(columnId: string): TaskForm {
    TaskForm(None, Some(columnId), "", true)
  }

  /** `openEdit`: the task under edit, no target column, its title prefilled. */
  function OpenEdit(t: ApiTask): TaskForm {
    TaskForm(Some(t), None, t.title, true)
  }

  /** Submitting after opening the form: a form opened on a task updates that
      task's title; a form opened on a column creates a task there, unless the
      column id is empty; the title sent is the one typed. */
  lemma SubmitAfterOpen(columnId: string, t: ApiTask, title: string)
    ensures var f := OpenEdit(t); Submit(f.editing, f.target, title) == Some(UpdateTitle(t.id, title))
    ensures var f := OpenCreate(columnId);
      Submit(f.editing, f.target, title) == if columnId == "" then None else Some(CreateTask(title, columnId))
  {
  }
}
