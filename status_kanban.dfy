/**
 * src/components/Views/StatusKanban.js: the board with one column per status, in the
 * fixed order planned, in progress, completed, blocked, each with its task count; a
 * click on a card moves the task one step along the status cycle.
 */
module StatusKanban {
  import opened Wrappers
  import opened Seqs
  import opened Types
  import opened ProjectContext
  import opened TaskList
  import CategoryKanban

  /** The titles of `statusColumns`, in the order of `StatusKeys`. */
  const StatusTitles: seq<string> := ["📋 計劃中", "🔄 進行中", "✅ 已完成", "⚠️ 阻塞"]

  /** One column: its status key, its title, its cards (in project order) and the count
      shown in its header. */
  datatype StatusColumn = StatusColumn(key: string, title: string, tasks: seq<Task>, count: nat)

  /** `task => task.status === key`. */
  function HasStatus(key: string): Task -> bool {
    (t: Task) => t.status == key
  }

  /** `tasks.filter(task => task.status === column.key)`. */
  function StatusTasks(ts: seq<Task>, key: string): (r: seq<Task>)
    ensures forall k :: 0 <= k < |r| ==> r[k].status == key
  {
    var r := Filter(ts, HasStatus(key));
    assert forall k :: 0 <= k < |r| ==> HasStatus(key)(r[k]);
    r
  }

  /** A column holds every task with its status as often as the project does, and no
      other task. */
  lemma StatusTasksCount(ts: seq<Task>, key: string, t: Task)
    ensures multiset(StatusTasks(ts, key))[t] == if t.status == key then multiset(ts)[t] else 0
  {
    FilterMultiset(ts, HasStatus(key));
  }

  /** `statusColumns.map(...)`: the four columns, each counting its own cards. */
  function StatusColumns(ts: seq<Task>): (cols: seq<StatusColumn>)
    ensures |cols| == |StatusKeys|
    ensures forall i :: 0 <= i < |cols| ==>
      && cols[i].key == StatusKeys[i]
      && cols[i].title == StatusTitles[i]
      && cols[i].tasks == StatusTasks(ts, StatusKeys[i])
      && cols[i].count == |cols[i].tasks|
  {
    seq(|StatusKeys|, i requires 0 <= i < |StatusKeys| =>
      var tasks := StatusTasks(ts, StatusKeys[i]);
      StatusColumn(StatusKeys[i], StatusTitles[i], tasks, |tasks|))
  }

  /** A task with one of the four statuses is in exactly the column of its status, as often
      as it occurs in the project; a task with any other status is in no column. */
  lemma StatusColumnsPartition(ts: seq<Task>, t: Task)
    requires t in ts
    ensures var cols := StatusColumns(ts);
      && ((exists i :: 0 <= i < |cols| && t in cols[i].tasks) <==> t.status in StatusKeys)
      && (forall i :: 0 <= i < |cols| && t in cols[i].tasks ==> cols[i].key == t.status)
      && (forall i, j :: 0 <= i < |cols| && 0 <= j < |cols| && t in cols[i].tasks && t in cols[j].tasks ==> i == j)
      && (forall i :: 0 <= i < |cols| && cols[i].key == t.status ==> multiset(cols[i].tasks)[t] == multiset(ts)[t])
  {
    var cols := StatusColumns(ts);
    StatusKeysDistinct();
    forall i | 0 <= i < |cols| ensures multiset(cols[i].tasks)[t] == if cols[i].key == t.status then multiset(ts)[t] else 0 {
      StatusTasksCount(ts, StatusKeys[i], t);
    }
    assert t in multiset(ts);
    if t.status in StatusKeys {
      var i := IndexOf(StatusKeys, t.status);
      assert t in multiset(cols[i].tasks);
    }
  }

  /** The tasks whose status is one of the four. */
  function KnownStatusTasks(ts: seq<Task>): seq<Task> {
    Filter(ts, (t: Task) => t.status in StatusKeys)
  }

  /** The sum of the four header counts. */
  function CountSum(cols: seq<StatusColumn>): int {
    if cols == [] then 0 else CountSum(cols[..|cols| - 1]) + cols[|cols| - 1].count
  }

  /** The four header counts add up to the number of tasks with a known status: no task is
      counted twice and none with a known status is missed. */
  lemma {:induction false} CountsAddUp(ts: seq<Task>)
    ensures CountSum(StatusColumns(ts)) == |KnownStatusTasks(ts)|
    decreases |ts|
  {
    var cols := StatusColumns(ts);
    if ts == [] {
      assert CountSum(cols) == 0 by {
        ColumnCountsOfEmpty(cols);
      }
    } else {
      var init, last := ts[..|ts| - 1], ts[|ts| - 1];
      CountsAddUp(init);
      var before := StatusColumns(init);
      forall i | 0 <= i < 4
        ensures cols[i].count == before[i].count + if last.status == StatusKeys[i] then 1 else 0
      {
        assert StatusTasks(ts, StatusKeys[i]) == Filter(ts, HasStatus(StatusKeys[i]));
      }
      StatusKeysDistinct();
      CountSumOfFour(cols);
      CountSumOfFour(before);
    }
  }

  /** Columns of an empty project count nothing. */
  lemma ColumnCountsOfEmpty(cols: seq<StatusColumn>)
    requires forall i :: 0 <= i < |cols| ==> cols[i].count == 0
    ensures CountSum(cols) == 0
    decreases |cols|
  {
    if cols != [] {
      ColumnCountsOfEmpty(cols[..|cols| - 1]);
    }
  }

  /** The sum of four counts, written out. */
  lemma CountSumOfFour(cols: seq<StatusColumn>)
    requires |cols| == 4
    ensures CountSum(cols) == cols[0].count + cols[1].count + cols[2].count + cols[3].count
  {
    var c3, c2, c1 := cols[..3], cols[..2], cols[..1];
    assert c3[..2] == c2 && c2[..1] == c1 && c1[..0] == [];
    assert CountSum(c1) == cols[0].count;
    assert CountSum(c2) == CountSum(c1) + cols[1].count;
    assert CountSum(c3) == CountSum(c2) + cols[2].count;
  }

  /** A click on a card: the same update as the status badge of the category board, and
      nothing for an id no task has. */
  function CardClick(p: ProjectData, taskId: Id): (a: Option<Action>)
    ensures a.None? <==> forall k :: 0 <= k < |p.tasks| ==> p.tasks[k].id != taskId
    ensures a.Some? ==> a.value.UpdateTask? && a.value.projectId == p.id && a.value.taskId == taskId
    ensures a.Some? ==> a.value.updates == StatusPatch(NextStatus(p.tasks[FindIndex(p.tasks, taskId)].status))
  {
    CategoryKanban.StatusClick(p, taskId)
  }

  /** What the view shows. */
  datatype StatusBoard = NoProject | Board(projectName: string, columns: seq<StatusColumn>)

  /** `StatusKanban()`: a prompt without a current project, else its four columns. */
  function StatusKanbanView(s: State): (v: StatusBoard)
    ensures v.NoProject? <==> CurrentProject(s).None?
    ensures v.Board? ==>
      && v.projectName == CurrentProject(s).value.name
      && v.columns == StatusColumns(CurrentProject(s).value.tasks)
  {
    match CurrentProject(s)
    case None => NoProject
    case Some(p) => Board(p.name, StatusColumns(p.tasks))
  }
}
