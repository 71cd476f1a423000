/**
 * src/components/Task/TaskList.js: the task list screen, the table of tasks in `order`
 * (numbered from 1), the four-state status cycle behind a click on a status badge, and
 * the titles of the views that are not built yet.
 */
module TaskList {
  import opened Wrappers
  import opened Dates
  import opened Seqs
  import opened Types
  import opened ProjectContext
  import opened Schedule

  // ---------------------------------------------------------------------------------
  // changeTaskStatus

  /** The status after one click: the next of the four statuses, wrapping round, and
      `planned` for a status that is not one of them (`indexOf` gives -1). */
  function NextStatus(status: string): (next: string)
    ensures next in StatusKeys
    ensures status !in StatusKeys ==> next == "planned"
  {
    NextKey(StatusKeys, status)
  }

  /** The cycle: planned, in progress, completed, blocked, and back to planned. */
  lemma StatusCycle()
    ensures NextStatus("planned") == "in-progress"
    ensures NextStatus("in-progress") == "completed"
    ensures NextStatus("completed") == "blocked"
    ensures NextStatus("blocked") == "planned"
  {
    StatusKeysDistinct();
    NextKeyStep(StatusKeys, 0);
    NextKeyStep(StatusKeys, 1);
    NextKeyStep(StatusKeys, 2);
    NextKeyStep(StatusKeys, 3);
  }

  /** `n` clicks in a row on the badge of a task whose status starts at `status`. */
  function Clicks(status: string, n: nat): string {
    Advance(StatusKeys, status, n)
  }

  /** Four successor steps round a cycle of four come back to the start. */
  lemma FourStepsComeBack(j: int)
    requires 0 <= j < 4
    ensures AdvanceIndex(j, 4, 4) == j
  {
    if j == 0 { assert AdvanceIndex(0, 4, 4) == 0; }
    else if j == 1 { assert AdvanceIndex(1, 4, 4) == 1; }
    else if j == 2 { assert AdvanceIndex(2, 4, 4) == 2; }
    else { assert AdvanceIndex(3, 4, 4) == 3; }
  }

  /** Four clicks bring a known status back to itself. */
  lemma FourClicksComeBack(status: string)
    requires status in StatusKeys
    ensures Clicks(status, 4) == status
  {
    var j := IndexOf(StatusKeys, status);
    StatusKeysDistinct();
    AdvanceAlongCycle(StatusKeys, j, 4);
    FourStepsComeBack(j);
  }

  /** Any status, known or not, is one of the four after a single click, and from there
      every fourth click returns to it. */
  lemma ClicksSettleInCycle(status: string)
    ensures Clicks(status, 1) in StatusKeys
    ensures Clicks(status, 5) == Clicks(status, 1)
  {
    var first := NextStatus(status);
    assert Clicks(status, 1) == first;
    FourClicksComeBack(first);
  }

  /** `changeTaskStatus(projectId, taskId, currentStatus, actions)`: the dispatched update. */
  function ChangeTaskStatus(projectId: Id, taskId: Id, currentStatus: string): (a: Action)
    ensures a.UpdateTask? && a.projectId == projectId && a.taskId == taskId
    ensures a.updates.status == Some(NextStatus(currentStatus))
    ensures a.updates.order.None?
  {
    UpdateTask(projectId, taskId, StatusPatch(NextStatus(currentStatus)))
  }

  /** Dispatching the status change sets the next status on the tasks with that id, in the
      projects with that id, and changes nothing else. */
  lemma ChangeTaskStatusEffect(s: State, projectId: Id, taskId: Id, currentStatus: string)
    ensures var r := Reduce(s, ChangeTaskStatus(projectId, taskId, currentStatus));
      && r.currentProjectId == s.currentProjectId && r.currentView == s.currentView
      && |r.projects| == |s.projects|
      && forall k :: 0 <= k < |s.projects| ==>
           var p, q := s.projects[k], r.projects[k];
           && (p.id != projectId ==> q == p)
           && (p.id == projectId ==>
                 && q.(tasks := []) == p.(tasks := [])
                 && |q.tasks| == |p.tasks|
                 && forall j :: 0 <= j < |p.tasks| ==>
                      q.tasks[j] == if p.tasks[j].id == taskId
                                    then p.tasks[j].(status := NextStatus(currentStatus))
                                    else p.tasks[j])
  {
    var u := StatusPatch(NextStatus(currentStatus));
    UpdateTaskOnlyMatching(s, projectId, taskId, u);
    forall t: Task ensures Merge(t, u) == t.(status := NextStatus(currentStatus)) {
      StatusPatchChangesOnlyStatus(t, NextStatus(currentStatus));
    }
  }

  // ---------------------------------------------------------------------------------
  // TaskTable

  /** One row of the table: its number and its task. */
  datatype TaskRow = TaskRow(number: int, task: Task)

  datatype TaskTableView = EmptyTable | Table(rows: seq<TaskRow>)

  /** The cells of a row, left to right after the number and the name. */
  function CategoryCell(row: TaskRow): Option<string> { CategoryName(row.task.category) }
  function StartCell(row: TaskRow): string { FormatDate(row.task.startDate) }
  function EndCell(row: TaskRow): string { FormatDate(row.task.endDate) }
  function ProfitIsGreen(row: TaskRow): bool { row.task.profit >= 0 }
  function StatusCell(row: TaskRow): Option<string> { StatusName(row.task.status) }

  /** The tasks of the rows, top to bottom. */
  function RowTasks(rows: seq<TaskRow>): (ts: seq<Task>)
    ensures |ts| == |rows| && forall k :: 0 <= k < |rows| ==> ts[k] == rows[k].task
  {
    seq(|rows|, k requires 0 <= k < |rows| => rows[k].task)
  }

  /** `TaskTable`: the empty state for a project without tasks; else one row per task,
      ascending by `order` and numbered 1..n. */
  function TaskTable(p: ProjectData): (v: TaskTableView)
    ensures v.EmptyTable? <==> p.tasks == []
    ensures v.Table? ==>
      && |v.rows| == |p.tasks|
      && multiset(RowTasks(v.rows)) == multiset(p.tasks)
      && (forall i, j :: 0 <= i < j < |v.rows| ==> v.rows[i].task.order <= v.rows[j].task.order)
      && (forall k :: 0 <= k < |v.rows| ==> v.rows[k].number == k + 1)
  {
    if p.tasks == [] then EmptyTable
    else
      var sorted := SortedByOrder(p.tasks);
      var rows := seq(|sorted|, k requires 0 <= k < |sorted| => TaskRow(k + 1, sorted[k]));
      assert RowTasks(rows) == sorted;
      Table(rows)
  }

  /** With dense orders 0..n-1, the number shown in each row is the task's order plus one. */
  lemma RowNumberIsOrderPlusOne(p: ProjectData)
    requires DenseOrders(p.tasks) && p.tasks != []
    ensures var v := TaskTable(p);
      forall k :: 0 <= k < |v.rows| ==> v.rows[k].number == v.rows[k].task.order + 1
  {
    SortedByOrderIsByIndex(p.tasks);
  }

  /** A date cell shows `-` exactly where the date is missing. */
  lemma DateCellsDashIffMissing(row: TaskRow)
    ensures row.task.startDate.None? <==> StartCell(row) == "-"
    ensures row.task.endDate.None? <==> EndCell(row) == "-"
  {
    FormatDateDashIffMissing(row.task.startDate);
    FormatDateDashIffMissing(row.task.endDate);
  }

  /** The category and status cells show a name exactly for the keys of their tables. */
  lemma NameCells(row: TaskRow)
    ensures CategoryCell(row).Some? <==> row.task.category in CategoryKeys
    ensures StatusCell(row).Some? <==> row.task.status in StatusKeys
  {
  }

  // ---------------------------------------------------------------------------------
  // The screen

  /** The titles of `getViewTitle`. */
  const ViewKeys: seq<string> := ["gantt", "calendar", "kanban-category", "kanban-status", "list"]
  const ViewTitles: seq<string> := ["🏊‍♂️ 甘特圖", "📅 日曆視圖", "🏗️ 工程看板", "📋 進度看板", "📝 列表視圖"]

  /** No view key occurs twice. */
  lemma ViewKeysDistinct()
    ensures NoDuplicates(ViewKeys)
  {
  }

  /** `getViewTitle(view)`: each view's own title, or the fallback for a view it does not know. */
  function GetViewTitle(view: string): (title: string)
    ensures view !in ViewKeys ==> title == "未知視圖"
    ensures forall i :: 0 <= i < |ViewKeys| && ViewKeys[i] == view ==> title == ViewTitles[i]
  {
    ViewKeysDistinct();
    KeyLookup(ViewKeys, ViewTitles, view).GetOr("未知視圖")
  }

  /** What `TaskList` shows. */
  datatype TaskListScreen =
    | SelectProject
    | ListScreen(projectName: string, table: TaskTableView)
    | Placeholder(title: string, projectName: string)

  /** `TaskList()`: a prompt without a current project, the table in the list view, and a
      placeholder titled after any other view. */
  function TaskListView(s: State): (screen: TaskListScreen)
    ensures CurrentProject(s).None? <==> screen.SelectProject?
    ensures screen.ListScreen? <==> CurrentProject(s).Some? && s.currentView == "list"
    ensures screen.ListScreen? ==> screen.table == TaskTable(CurrentProject(s).value)
    ensures screen.Placeholder? ==> screen.title == GetViewTitle(s.currentView)
  {
    match CurrentProject(s)
    case None => SelectProject
    case Some(p) =>
      if s.currentView == "list" then ListScreen(p.name, TaskTable(p))
      else Placeholder(GetViewTitle(s.currentView), p.name)
  }

  /** The placeholder's button dispatches `setCurrentView('list')`, after which the same
      project is shown as a list. */
  lemma BackToListShowsTable(s: State)
    requires TaskListView(s).Placeholder?
    ensures TaskListView(Reduce(s, SetCurrentView("list"))).ListScreen?
  {
    var r := Reduce(s, SetCurrentView("list"));
    assert CurrentProject(r) == CurrentProject(s) by {
      assert r.projects == s.projects && r.currentProjectId == s.currentProjectId;
    }
    assert r.currentView == "list";
  }
}
