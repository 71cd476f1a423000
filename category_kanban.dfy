/**
 * src/components/Views/CategoryKanban.js: the board with one column per category, each
 * holding that category's tasks ascending by `order`, and the status badge whose click
 * moves a task one step along the status cycle.
 */
module CategoryKanban {
  import opened Wrappers
  import opened Dates
  import opened Seqs
  import opened Types
  import opened ProjectContext
  import opened Schedule
  import opened TaskList

  /** One column of the board: the category key, its display name and its cards. */
  datatype CategoryColumn = CategoryColumn(key: string, name: string, tasks: seq<Task>)

  /** `task => task.category === key`. */
  function HasCategory(key: string): Task -> bool {
    (t: Task) => t.category == key
  }

  /** `tasks.filter(task => task.category === key).sort((a, b) => a.order - b.order)`. */
  function CategoryTasks(ts: seq<Task>, key: string): (r: seq<Task>)
    ensures forall k :: 0 <= k < |r| ==> r[k].category == key
    ensures forall i, j :: 0 <= i < j < |r| ==> r[i].order <= r[j].order
  {
    var f := Filter(ts, HasCategory(key));
    var r := SortedByOrder(f);
    forall k | 0 <= k < |r| ensures r[k].category == key {
      assert r[k] in multiset(f);
      assert HasCategory(key)(r[k]);
    }
    r
  }

  /** A column holds every task of its category as often as the project does, and no
      other task. */
  lemma CategoryTasksCount(ts: seq<Task>, key: string, t: Task)
    ensures multiset(CategoryTasks(ts, key))[t] == if t.category == key then multiset(ts)[t] else 0
  {
    FilterMultiset(ts, HasCategory(key));
  }

  /** `Object.entries(CATEGORIES).map(...)`: the columns, in the order of the keys. */
  function CategoryColumns(ts: seq<Task>): (cols: seq<CategoryColumn>)
    ensures |cols| == |CategoryKeys|
    ensures forall i :: 0 <= i < |cols| ==>
      && cols[i].key == CategoryKeys[i]
      && cols[i].name == CategoryNames[i]
      && cols[i].tasks == CategoryTasks(ts, CategoryKeys[i])
  {
    seq(|CategoryKeys|, i requires 0 <= i < |CategoryKeys| =>
      CategoryColumn(CategoryKeys[i], CategoryNames[i], CategoryTasks(ts, CategoryKeys[i])))
  }

  /** A task of the project shows on the board exactly when its category is a key of
      `CATEGORIES`, and then in that category's column only, as often as it occurs. */
  lemma CategoryColumnsPartition(ts: seq<Task>, t: Task)
    requires t in ts
    ensures var cols := CategoryColumns(ts);
      && ((exists i :: 0 <= i < |cols| && t in cols[i].tasks) <==> t.category in CategoryKeys)
      && (forall i :: 0 <= i < |cols| && t in cols[i].tasks ==> cols[i].key == t.category)
      && (forall i, j :: 0 <= i < |cols| && 0 <= j < |cols| && t in cols[i].tasks && t in cols[j].tasks ==> i == j)
      && (forall i :: 0 <= i < |cols| && cols[i].key == t.category ==> multiset(cols[i].tasks)[t] == multiset(ts)[t])
  {
    var cols := CategoryColumns(ts);
    assert t in multiset(ts);
    forall i | 0 <= i < |cols|
      ensures t in cols[i].tasks <==> cols[i].key == t.category
      ensures cols[i].key == t.category ==> multiset(cols[i].tasks)[t] == multiset(ts)[t]
    {
      CategoryTasksCount(ts, CategoryKeys[i], t);
      assert t in cols[i].tasks <==> t in multiset(cols[i].tasks);
    }
    CategoryKeysDistinct();
    if t.category in CategoryKeys {
      var i := IndexOf(CategoryKeys, t.category);
      assert t in cols[i].tasks;
    }
  }

  /** The part of a name after its last space: `name.replace(/.*\s/, '')`. */
  function AfterLastSpace(s: string): (r: string)
    ensures ' ' !in r
    ensures |r| <= |s| && r == s[|s| - |r|..]
    ensures ' ' !in s ==> r == s
    ensures ' ' in s ==> s[|s| - |r| - 1] == ' '
    decreases |s|
  {
    if s == [] then []
    else if s[|s| - 1] == ' ' then []
    else
      var init := s[..|s| - 1];
      var r := AfterLastSpace(init) + [s[|s| - 1]];
      assert ' ' in s ==> ' ' in init by {
        if ' ' in s {
          var k :| 0 <= k < |s| && s[k] == ' ';
          assert init[k] == ' ';
        }
      }
      r
  }

  /** The text of an empty column: `暫無` and the column's name without its emoji. */
  function EmptyColumnText(col: CategoryColumn): (text: string)
    ensures |text| >= 2 && text[..2] == "暫無"
    ensures ' ' !in text[2..] && |text[2..]| <= |col.name| && text[2..] == col.name[|col.name| - |text[2..]|..]
    ensures ' ' !in col.name ==> text == "暫無" + col.name
  {
    "暫無" + AfterLastSpace(col.name)
  }

  /** What a card shows for the schedule: `start ~ end`, or `尚未排程` without a start. */
  function CardSchedule(t: Task): (text: string)
    ensures t.startDate.None? ==> text == "尚未排程"
    ensures t.startDate.Some? ==> text == FormatDate(t.startDate) + " ~ " + FormatDate(t.endDate)
  {
    if t.startDate.Some? then FormatDate(t.startDate) + " ~ " + FormatDate(t.endDate)
    else "尚未排程"
  }

  /** The unscheduled text is shown exactly for a task without a start date. */
  lemma CardScheduleUnscheduled(t: Task)
    ensures CardSchedule(t) == "尚未排程" <==> t.startDate.None?
  {
    if t.startDate.Some? {
      var text := CardSchedule(t);
      var n := |FormatDate(t.startDate)|;
      assert text[n + 1] == '~';
      assert forall k :: 0 <= k < |"尚未排程"| ==> "尚未排程"[k] != '~';
    }
  }

  /** `getStatusText(status)`: the status's name, or the status itself when it has none. */
  function GetStatusText(status: string): (text: string)
    ensures status !in StatusKeys ==> text == status
    ensures forall i :: 0 <= i < |StatusKeys| && StatusKeys[i] == status ==> text == StatusNames[i]
  {
    StatusKeysDistinct();
    StatusName(status).GetOr(status)
  }

  /** `changeTaskStatus(taskId)` on the current project: nothing for an id no task has;
      otherwise the update the task list dispatches for the first task with that id. */
  function StatusClick(p: ProjectData, taskId: Id): (a: Option<Action>)
    ensures a.None? <==> forall k :: 0 <= k < |p.tasks| ==> p.tasks[k].id != taskId
    ensures a.Some? ==>
      var i := FindIndex(p.tasks, taskId);
      && a.value == ChangeTaskStatus(p.id, taskId, p.tasks[i].status)
      && a.value.updates.status == Some(NextStatus(p.tasks[i].status))
  {
    var i := FindIndex(p.tasks, taskId);
    if i == -1 then None
    else Some(ChangeTaskStatus(p.id, taskId, p.tasks[i].status))
  }

  /** What the view shows. */
  datatype CategoryBoard = NoProject | Board(columns: seq<CategoryColumn>)

  /** `CategoryKanban()`: a prompt without a current project, else the columns of its tasks. */
  function CategoryKanbanView(s: State): (v: CategoryBoard)
    ensures v.NoProject? <==> CurrentProject(s).None?
    ensures v.Board? ==> v.columns == CategoryColumns(CurrentProject(s).value.tasks)
  {
    match CurrentProject(s)
    case None => NoProject
    case Some(p) => Board(CategoryColumns(p.tasks))
  }
}
