/**
 * src/context/ProjectContext.js: the application state, `projectReducer` over all its
 * action cases, `createTestProject`, and the current-project lookup the views use.
 *
 * The reducer is a pure function from state and action to the next state. The cases
 * that go through `new Project(project)` and a mutating `Project` method use the task-list
 * functions of module Types, against which those methods are proved. Values the source
 * draws from the clock or from `Math.random()` (fresh ids, today's date) arrive in the
 * action.
 */
module ProjectContext {
  import opened Wrappers
  import opened Dates
  import opened Seqs
  import opened Types

  datatype State = State(
    projects: seq<ProjectData>,
    currentProjectId: Option<Id>,
    currentView: string,
    loading: bool,
    error: Option<string>)

  /** `initialState`. */
  const InitialState: State := State([], None, "list", false, None)

  /** The keys an `updates` object may carry into `{ ...task, ...updates }`; `None` is a
      key the object does not have. A date key may carry `null`, hence `Option<Option<Day>>`. */
  datatype TaskPatch = TaskPatch(
    category: Option<string>,
    name: Option<string>,
    duration: Option<int>,
    cost: Option<int>,
    price: Option<int>,
    profit: Option<int>,
    order: Option<int>,
    startDate: Option<Option<Day>>,
    endDate: Option<Option<Day>>,
    status: Option<string>)

  /** An update that sets the status only (what the status badges and cards send). */
  function StatusPatch(status: string): TaskPatch {
    TaskPatch(None, None, None, None, None, None, None, None, None, Some(status))
  }

  /** `{ ...task, ...updates }`: the patch's keys win. `profit` is copied, not re-derived. */
  function Merge(t: Task, u: TaskPatch): (r: Task)
    ensures r.id == t.id && r.projectId == t.projectId
    ensures u.profit.None? ==> r.profit == t.profit
    ensures u.order.None? ==> r.order == t.order
    ensures u.status.Some? ==> r.status == u.status.value
  {
    Task(t.id, t.projectId,
      if u.category.Some? then u.category.value else t.category,
      if u.name.Some? then u.name.value else t.name,
      if u.duration.Some? then u.duration.value else t.duration,
      if u.cost.Some? then u.cost.value else t.cost,
      if u.price.Some? then u.price.value else t.price,
      if u.profit.Some? then u.profit.value else t.profit,
      if u.order.Some? then u.order.value else t.order,
      if u.startDate.Some? then u.startDate.value else t.startDate,
      if u.endDate.Some? then u.endDate.value else t.endDate,
      if u.status.Some? then u.status.value else t.status)
  }

  /** A status-only update changes the status and nothing else, so a consistent profit stays
      consistent. */
  lemma StatusPatchChangesOnlyStatus(t: Task, status: string)
    ensures Merge(t, StatusPatch(status)) == t.(status := status)
    ensures ProfitConsistent(t) ==> ProfitConsistent(Merge(t, StatusPatch(status)))
  {
  }

  /** Because `profit` is copied, a patch of the cost alone leaves a stale profit behind. */
  lemma CostPatchLeavesProfitStale(t: Task, cost: int)
    requires ProfitConsistent(t) && cost != t.cost
    ensures !ProfitConsistent(Merge(t, TaskPatch(None, None, None, Some(cost), None, None, None, None, None, None)))
  {
  }

  datatype Action =
    | SetLoading(loading: bool)
    | SetError(error: Option<string>)
    | SetProjects(projects: seq<ProjectData>)
    | AddProject(project: ProjectData)
    | UpdateProject(project: ProjectData)
    | DeleteProject(projectId: Id)
    | SetCurrentProject(selected: Option<Id>)
    | AddTask(projectId: Id, taskData: TaskData, freshId: Id)
    | UpdateTask(projectId: Id, taskId: Id, updates: TaskPatch)
    | DeleteTask(projectId: Id, taskId: Id)
    | ReorderTasks(projectId: Id, draggedId: Id, targetId: Id)
    | SetCurrentView(view: string)
      /** `createTestProject()` draws the project id, one id per task, and today's date. */
    | GenerateTestData(projectId: Id, taskIds: nat -> Id, today: Day)
      /** Any other `type`. */
    | Unknown

  /** `state.projects.map(p => p.id === projectId ? f(p) : p)`. */
  function MapProjects(ps: seq<ProjectData>, projectId: Id, f: ProjectData -> ProjectData): (r: seq<ProjectData>)
    ensures |r| == |ps|
    ensures forall k :: 0 <= k < |ps| ==> r[k] == if ps[k].id == projectId then f(ps[k]) else ps[k]
  {
    seq(|ps|, k requires 0 <= k < |ps| => if ps[k].id == projectId then f(ps[k]) else ps[k])
  }

  /** `project.tasks.map(task => task.id === taskId ? { ...task, ...updates } : task)`. */
  function MapTasks(ts: seq<Task>, taskId: Id, u: TaskPatch): (r: seq<Task>)
    ensures |r| == |ts|
    ensures forall k :: 0 <= k < |ts| ==> r[k] == if ts[k].id == taskId then Merge(ts[k], u) else ts[k]
  {
    seq(|ts|, k requires 0 <= k < |ts| => if ts[k].id == taskId then Merge(ts[k], u) else ts[k])
  }

  // ---------------------------------------------------------------------------------
  // createTestProject

  function TD(category: string, name: string, duration: int, cost: int, price: int, status: string): TaskData {
    TaskData(None, None, Some(category), Some(name), Some(duration), Some(cost), Some(price), None, None, None, Some(status))
  }

  /** The 24 sample tasks, five trades in turn. */
  const TestTasks: seq<TaskData> := [
    TD("water-electric", "配電箱安裝", 2, 15000, 22000, "completed"),
    TD("water-electric", "電路配線", 3, 25000, 35000, "completed"),
    TD("water-electric", "給水管路配置", 2, 18000, 28000, "in-progress"),
    TD("water-electric", "排水管路安裝", 2, 16000, 24000, "planned"),
    TD("water-electric", "電氣測試驗收", 1, 8000, 12000, "planned"),
    TD("masonry", "牆面打毛處理", 1, 12000, 18000, "planned"),
    TD("masonry", "水泥粉刷", 4, 32000, 48000, "planned"),
    TD("masonry", "地磚鋪設", 5, 45000, 68000, "planned"),
    TD("masonry", "牆磚貼附", 3, 28000, 42000, "planned"),
    TD("masonry", "填縫收尾", 2, 15000, 22000, "planned"),
    TD("carpentry", "天花板骨架", 3, 22000, 35000, "planned"),
    TD("carpentry", "櫥櫃製作安裝", 6, 85000, 125000, "planned"),
    TD("carpentry", "木地板安裝", 4, 55000, 78000, "planned"),
    TD("carpentry", "門窗框製作", 3, 38000, 55000, "planned"),
    TD("carpentry", "收邊條安裝", 2, 18000, 26000, "planned"),
    TD("painting", "牆面批土", 2, 16000, 24000, "planned"),
    TD("painting", "底漆塗刷", 2, 14000, 21000, "planned"),
    TD("painting", "面漆塗刷", 3, 22000, 32000, "planned"),
    TD("painting", "特殊塗料處理", 2, 18000, 28000, "planned"),
    TD("flooring", "地面整平", 2, 20000, 30000, "planned"),
    TD("flooring", "防潮層施作", 1, 12000, 18000, "planned"),
    TD("flooring", "超耐磨地板", 4, 65000, 95000, "planned"),
    TD("flooring", "踢腳板安裝", 2, 15000, 22000, "planned"),
    TD("flooring", "清潔保養", 1, 8000, 12000, "planned")
  ]

  /** The constructor argument of the test project: a name, a description, today. */
  function TestProjectInput(today: Day): ProjectInput {
    ProjectInput(None, Some("測試建築專案"), Some("這是一個包含各類工程的測試專案"), Some(today), None, None, None)
  }

  /** The task list after calling `addTask` with each of `datas` in turn on an empty project. */
  function AddedTasks(datas: seq<TaskData>, projectId: Id, taskIds: nat -> Id): (ts: seq<Task>)
    ensures |ts| == |datas|
    decreases |datas|
  {
    if datas == [] then []
    else
      var n := |datas| - 1;
      WithTaskAdded(AddedTasks(datas[..n], projectId, taskIds), datas[n], projectId, taskIds(n))
  }

  /** Adding one more data item to a prefix adds its task at the end. */
  lemma AddedTasksStep(datas: seq<TaskData>, projectId: Id, taskIds: nat -> Id, i: int)
    requires 0 <= i < |datas|
    ensures AddedTasks(datas[..i + 1], projectId, taskIds)
         == WithTaskAdded(AddedTasks(datas[..i], projectId, taskIds), datas[i], projectId, taskIds(i))
  {
    assert datas[..i + 1][..i] == datas[..i];
  }

  /** The k-th added task is the k-th data item, numbered k and tied to the project. */
  lemma {:induction false} AddedTaskAt(datas: seq<TaskData>, projectId: Id, taskIds: nat -> Id, k: int)
    requires 0 <= k < |datas|
    ensures AddedTasks(datas, projectId, taskIds)[k]
         == NewTask(datas[k].(projectId := Some(projectId), order := Some(k)), taskIds(k))
    decreases |datas|
  {
    var n := |datas| - 1;
    if k < n {
      AddedTaskAt(datas[..n], projectId, taskIds, k);
    }
  }

  /** `createTestProject()` as a value. */
  function TestProject(projectId: Id, taskIds: nat -> Id, today: Day): ProjectData {
    NewProject(TestProjectInput(today), projectId).(tasks := AddedTasks(TestTasks, projectId, taskIds))
  }

  /** The test project starts today, skips Sundays only, and holds the 24 sample tasks in
      order 0..23, each with a consistent profit and tied to the project. */
  lemma TestProjectShape(projectId: Id, taskIds: nat -> Id, today: Day)
    ensures var p := TestProject(projectId, taskIds, today);
      && p.id == projectId && p.startDate == Some(today)
      && !p.skipSaturday && p.skipSunday
      && |p.tasks| == 24
      && (forall k :: 0 <= k < 24 ==>
            && p.tasks[k].order == k
            && p.tasks[k].projectId == Some(projectId)
            && p.tasks[k].id == taskIds(k)
            && p.tasks[k].name == TestTasks[k].name.GetOr("")
            && ProfitConsistent(p.tasks[k]))
      && DenseOrders(p.tasks)
  {
    var p := TestProject(projectId, taskIds, today);
    forall k | 0 <= k < 24
      ensures p.tasks[k].order == k && p.tasks[k].projectId == Some(projectId)
      ensures p.tasks[k].id == taskIds(k) && p.tasks[k].name == TestTasks[k].name.GetOr("")
      ensures ProfitConsistent(p.tasks[k])
    {
      AddedTaskAt(TestTasks, projectId, taskIds, k);
    }
  }

  /** The loop of `createTestProject`: a new project, then `addTask` once per sample task. */
  method CreateTestProject(projectId: Id, taskIds: nat -> Id, today: Day) returns (p: Project)
    ensures fresh(p)
    ensures p.Data() == TestProject(projectId, taskIds, today)
  {
    p := new Project(TestProjectInput(today), projectId);
    ghost var base := p.Data();
    for i := 0 to |TestTasks|
      invariant p.id == projectId
      invariant p.Data() == base.(tasks := p.tasks)
      invariant p.tasks == AddedTasks(TestTasks[..i], projectId, taskIds)
    {
      var _ := p.AddTask(TestTasks[i], taskIds(i));
      AddedTasksStep(TestTasks, projectId, taskIds, i);
    }
    assert TestTasks[..|TestTasks|] == TestTasks;
  }

  // ---------------------------------------------------------------------------------
  // projectReducer

  /** `projectReducer(state, action)`. */
  function Reduce(s: State, a: Action): (r: State)
    ensures a.Unknown? ==> r == s
    ensures a.SetError? || a.SetProjects? ==> !r.loading
    ensures !(a.SetLoading? || a.SetError? || a.SetProjects?) ==> r.loading == s.loading
    ensures !a.SetError? ==> r.error == s.error
    ensures !a.SetCurrentView? ==> r.currentView == s.currentView
    ensures a.AddProject? || a.DeleteProject? || a.SetCurrentProject? || a.GenerateTestData?
         || r.currentProjectId == s.currentProjectId
    ensures a.SetLoading? || a.SetError? || a.SetCurrentProject? || a.SetCurrentView? ==> r.projects == s.projects
  {
    match a
    case SetLoading(loading) => s.(loading := loading)
    case SetError(error) => s.(error := error, loading := false)
    case SetProjects(projects) => s.(projects := projects, loading := false)
    case AddProject(p) => s.(projects := s.projects + [p], currentProjectId := Some(p.id))
    case UpdateProject(p) => s.(projects := MapProjects(s.projects, p.id, _ => p))
    case DeleteProject(id) =>
      var remaining := Filter(s.projects, (p: ProjectData) => p.id != id);
      s.(projects := remaining,
         currentProjectId :=
           if s.currentProjectId == Some(id) then
             (if |remaining| > 0 then Some(remaining[0].id) else None)
           else s.currentProjectId)
    case SetCurrentProject(selected) => s.(currentProjectId := selected)
    case AddTask(pid, data, freshId) =>
      s.(projects := MapProjects(s.projects, pid,
           (p: ProjectData) => p.(tasks := WithTaskAdded(p.tasks, data, p.id, freshId))))
    case UpdateTask(pid, taskId, updates) =>
      s.(projects := MapProjects(s.projects, pid, (p: ProjectData) => p.(tasks := MapTasks(p.tasks, taskId, updates))))
    case DeleteTask(pid, taskId) =>
      s.(projects := MapProjects(s.projects, pid, (p: ProjectData) => p.(tasks := WithTaskRemoved(p.tasks, taskId))))
    case ReorderTasks(pid, draggedId, targetId) =>
      s.(projects := MapProjects(s.projects, pid,
           (p: ProjectData) => p.(tasks := WithTasksReordered(p.tasks, draggedId, targetId))))
    case SetCurrentView(view) => s.(currentView := view)
    case GenerateTestData(pid, taskIds, today) =>
      var t := TestProject(pid, taskIds, today);
      s.(projects := s.projects + [t], currentProjectId := Some(t.id))
    case Unknown => s
  }

  // ---------------------------------------------------------------------------------
  // getCurrentProject

  /** `projects.findIndex(p => p.id === id)`. */
  function ProjectIndex(ps: seq<ProjectData>, id: Id): (r: int)
    ensures -1 <= r < |ps|
    ensures r == -1 <==> forall k :: 0 <= k < |ps| ==> ps[k].id != id
    ensures r >= 0 ==> ps[r].id == id && forall k :: 0 <= k < r ==> ps[k].id != id
  {
    if ps == [] then -1
    else if ps[0].id == id then 0
    else
      var r := ProjectIndex(ps[1..], id);
      if r == -1 then -1 else r + 1
  }

  /** `state.projects.find(p => p.id === state.currentProjectId) || null`. */
  function CurrentProject(s: State): (r: Option<ProjectData>)
    ensures r.Some? ==> r.value in s.projects && s.currentProjectId == Some(r.value.id)
    ensures r.None? <==>
      s.currentProjectId.None? || forall k :: 0 <= k < |s.projects| ==> s.projects[k].id != s.currentProjectId.value
  {
    if s.currentProjectId.None? then None
    else
      var k := ProjectIndex(s.projects, s.currentProjectId.value);
      if k == -1 then None else Some(s.projects[k])
  }

  /** Lists with the same ids at the same positions find a given id at the same position. */
  lemma {:induction false} ProjectIndexSameIds(ps: seq<ProjectData>, qs: seq<ProjectData>, id: Id)
    requires |ps| == |qs|
    requires forall k :: 0 <= k < |ps| ==> ps[k].id == qs[k].id
    ensures ProjectIndex(ps, id) == ProjectIndex(qs, id)
    decreases |ps|
  {
    if ps != [] && ps[0].id != id {
      ProjectIndexSameIds(ps[1..], qs[1..], id);
    }
  }

  // ---------------------------------------------------------------------------------
  // Properties of the reducer

  /** `ADD_PROJECT` appends the project and selects it; with a new id, the current project
      is then exactly that project. */
  lemma AddProjectSelectsIt(s: State, p: ProjectData)
    ensures var r := Reduce(s, AddProject(p));
      && r.projects == s.projects + [p]
      && r.currentProjectId == Some(p.id)
      && ((forall k :: 0 <= k < |s.projects| ==> s.projects[k].id != p.id) ==> CurrentProject(r) == Some(p))
  {
    var r := Reduce(s, AddProject(p));
    assert r.projects[|s.projects|] == p;
    if forall k :: 0 <= k < |s.projects| ==> s.projects[k].id != p.id {
      assert ProjectIndex(r.projects, p.id) == |s.projects|;
    }
  }

  /** `UPDATE_PROJECT` replaces every project with the payload's id by the payload and keeps
      the list's length, order and ids; a current project with that id becomes the payload. */
  lemma UpdateProjectReplaces(s: State, p: ProjectData)
    ensures var r := Reduce(s, UpdateProject(p));
      && |r.projects| == |s.projects|
      && (forall k :: 0 <= k < |s.projects| ==>
            && r.projects[k].id == s.projects[k].id
            && r.projects[k] == (if s.projects[k].id == p.id then p else s.projects[k]))
      && (s.currentProjectId == Some(p.id) && CurrentProject(s).Some? ==> CurrentProject(r) == Some(p))
  {
    var r := Reduce(s, UpdateProject(p));
    if s.currentProjectId == Some(p.id) && CurrentProject(s).Some? {
      ProjectIndexSameIds(s.projects, r.projects, p.id);
    }
  }

  /** `DELETE_PROJECT` drops every project with the id and keeps the others in order; the
      selection moves to the first remaining project (or to none) only when the deleted
      project was selected. */
  lemma DeleteProjectOutcome(s: State, id: Id)
    ensures var r := Reduce(s, DeleteProject(id));
      && (forall k :: 0 <= k < |r.projects| ==> r.projects[k].id != id)
      && (forall q :: q in s.projects && q.id != id <==> q in r.projects)
      && r.projects == Filter(s.projects, (q: ProjectData) => q.id != id)
      && (s.currentProjectId != Some(id) ==> r.currentProjectId == s.currentProjectId)
      && (s.currentProjectId == Some(id) && r.projects == [] ==> r.currentProjectId.None?)
      && (s.currentProjectId == Some(id) && r.projects != [] ==>
            r.currentProjectId == Some(r.projects[0].id) && CurrentProject(r) == Some(r.projects[0]))
  {
    var r := Reduce(s, DeleteProject(id));
    var keep := (q: ProjectData) => q.id != id;
    forall k | 0 <= k < |r.projects| ensures r.projects[k].id != id {
      assert keep(r.projects[k]);
    }
  }

  /** `UPDATE_TASK` merges the updates into the tasks with the id, in the projects with the
      id; every other project and every other task stays exactly as it was. */
  lemma UpdateTaskOnlyMatching(s: State, projectId: Id, taskId: Id, u: TaskPatch)
    ensures var r := Reduce(s, UpdateTask(projectId, taskId, u));
      && |r.projects| == |s.projects|
      && forall k :: 0 <= k < |s.projects| ==>
           var p, q := s.projects[k], r.projects[k];
           && (p.id != projectId ==> q == p)
           && (p.id == projectId ==>
                 && q.(tasks := []) == p.(tasks := [])
                 && |q.tasks| == |p.tasks|
                 && forall j :: 0 <= j < |p.tasks| ==>
                      q.tasks[j] == if p.tasks[j].id == taskId then Merge(p.tasks[j], u) else p.tasks[j])
  {
  }

  /** `ADD_TASK`, `DELETE_TASK` and `REORDER_TASKS` give the projects with the id the task
      list of the corresponding `Project` method, and leave every other project as it was. */
  lemma TaskActionsOnlyMatching(s: State, a: Action)
    requires a.AddTask? || a.DeleteTask? || a.ReorderTasks?
    ensures var r := Reduce(s, a);
      && |r.projects| == |s.projects|
      && forall k :: 0 <= k < |s.projects| ==>
           var p, q := s.projects[k], r.projects[k];
           && (p.id != a.projectId ==> q == p)
           && (p.id == a.projectId ==>
                 && q.(tasks := []) == p.(tasks := [])
                 && q.tasks == match a
                      case AddTask(_, data, freshId) => WithTaskAdded(p.tasks, data, p.id, freshId)
                      case DeleteTask(_, taskId) => WithTaskRemoved(p.tasks, taskId)
                      case ReorderTasks(_, d, t) => WithTasksReordered(p.tasks, d, t))
  {
  }

  /** `GENERATE_TEST_DATA` appends the test project and selects it. */
  lemma GenerateTestDataAppends(s: State, projectId: Id, taskIds: nat -> Id, today: Day)
    ensures var r := Reduce(s, GenerateTestData(projectId, taskIds, today));
      && r.projects == s.projects + [TestProject(projectId, taskIds, today)]
      && r.currentProjectId == Some(projectId)
      && |r.projects[|s.projects|].tasks| == 24
      && DenseOrders(r.projects[|s.projects|].tasks)
  {
    TestProjectShape(projectId, taskIds, today);
  }

  // ---------------------------------------------------------------------------------
  // The state invariant

  /** A selected project id always names a project, and every project's task orders are
      dense. */
  ghost predicate Invariant(s: State) {
    && (s.currentProjectId.Some? ==> CurrentProject(s).Some?)
    && forall k :: 0 <= k < |s.projects| ==> DenseOrders(s.projects[k].tasks)
  }

  /** What an action's payload must satisfy for the invariant to survive it: a replaced
      project list must contain the selection, a selection must name a project, a new or
      replacement project must have dense orders, and a task update must not set `order`. */
  ghost predicate Admissible(s: State, a: Action) {
    match a
    case SetProjects(ps) =>
      && (forall k :: 0 <= k < |ps| ==> DenseOrders(ps[k].tasks))
      && (s.currentProjectId.Some? ==> CurrentProject(s.(projects := ps)).Some?)
    case SetCurrentProject(selected) => selected.Some? ==> CurrentProject(s.(currentProjectId := selected)).Some?
    case AddProject(p) => DenseOrders(p.tasks)
    case UpdateProject(p) => DenseOrders(p.tasks)
    case UpdateTask(_, _, u) => u.order.None?
    case _ => true
  }

  /** Two task lists with the same orders position by position. */
  lemma SameOrdersDense(a: seq<Task>, b: seq<Task>)
    requires |a| == |b| && forall k :: 0 <= k < |a| ==> a[k].order == b[k].order
    requires DenseOrders(a)
    ensures DenseOrders(b)
  {
  }

  /** A list the reducer maps keeps the selection valid when the map keeps the ids. */
  lemma MapKeepsSelection(s: State, r: State)
    requires s.currentProjectId.Some? ==> CurrentProject(s).Some?
    requires r.currentProjectId == s.currentProjectId && |r.projects| == |s.projects|
    requires forall k :: 0 <= k < |s.projects| ==> r.projects[k].id == s.projects[k].id
    ensures r.currentProjectId.Some? ==> CurrentProject(r).Some?
  {
    if s.currentProjectId.Some? {
      ProjectIndexSameIds(s.projects, r.projects, s.currentProjectId.value);
    }
  }

  lemma AddProjectKeepsInvariant(s: State, p: ProjectData)
    requires Invariant(s) && DenseOrders(p.tasks)
    ensures Invariant(Reduce(s, AddProject(p)))
  {
    var r := Reduce(s, AddProject(p));
    assert r.projects[|s.projects|] == p;
    forall k | 0 <= k < |r.projects| ensures DenseOrders(r.projects[k].tasks) {
      if k < |s.projects| { assert r.projects[k] == s.projects[k]; }
    }
    assert ProjectIndex(r.projects, p.id) >= 0;
  }

  lemma DeleteProjectKeepsInvariant(s: State, id: Id)
    requires Invariant(s)
    ensures Invariant(Reduce(s, DeleteProject(id)))
  {
    var r := Reduce(s, DeleteProject(id));
    DeleteProjectOutcome(s, id);
    forall k | 0 <= k < |r.projects| ensures DenseOrders(r.projects[k].tasks) {
      assert r.projects[k] in s.projects;
    }
    if r.currentProjectId.Some? && s.currentProjectId != Some(id) {
      var q := CurrentProject(s).value;
      assert q in r.projects;
      var j :| 0 <= j < |r.projects| && r.projects[j] == q;
      assert r.projects[j].id == r.currentProjectId.value;
    }
  }

  /** A state whose project list is mapped from s, keeping the selection, the length and the
      ids, keeps the invariant when every mapped project's orders stay dense. */
  lemma MappedKeepsInvariant(s: State, r: State)
    requires Invariant(s)
    requires r.currentProjectId == s.currentProjectId && |r.projects| == |s.projects|
    requires forall k :: 0 <= k < |s.projects| ==> r.projects[k].id == s.projects[k].id
    requires forall k :: 0 <= k < |r.projects| ==> DenseOrders(r.projects[k].tasks)
    ensures Invariant(r)
  {
    MapKeepsSelection(s, r);
  }

  lemma AddTaskKeepsInvariant(s: State, pid: Id, data: TaskData, freshId: Id)
    requires Invariant(s)
    ensures Invariant(Reduce(s, AddTask(pid, data, freshId)))
  {
    var r := Reduce(s, AddTask(pid, data, freshId));
    forall k | 0 <= k < |s.projects|
      ensures r.projects[k].id == s.projects[k].id && DenseOrders(r.projects[k].tasks)
    {
      if s.projects[k].id == pid {
        AddKeepsOrdersDense(s.projects[k].tasks, data, s.projects[k].id, freshId);
      }
    }
    MappedKeepsInvariant(s, r);
  }

  lemma UpdateTaskKeepsInvariant(s: State, pid: Id, taskId: Id, u: TaskPatch)
    requires Invariant(s) && u.order.None?
    ensures Invariant(Reduce(s, UpdateTask(pid, taskId, u)))
  {
    var r := Reduce(s, UpdateTask(pid, taskId, u));
    forall k | 0 <= k < |s.projects|
      ensures r.projects[k].id == s.projects[k].id && DenseOrders(r.projects[k].tasks)
    {
      if s.projects[k].id == pid {
        SameOrdersDense(s.projects[k].tasks, r.projects[k].tasks);
      }
    }
    MappedKeepsInvariant(s, r);
  }

  lemma DeleteTaskKeepsInvariant(s: State, pid: Id, taskId: Id)
    requires Invariant(s)
    ensures Invariant(Reduce(s, DeleteTask(pid, taskId)))
  {
    var r := Reduce(s, DeleteTask(pid, taskId));
    forall k | 0 <= k < |s.projects|
      ensures r.projects[k].id == s.projects[k].id && DenseOrders(r.projects[k].tasks)
    {
      if s.projects[k].id == pid && FindIndex(s.projects[k].tasks, taskId) >= 0 {
        RemoveKeepsOrdersDense(s.projects[k].tasks, taskId);
      }
    }
    MappedKeepsInvariant(s, r);
  }

  lemma ReorderTasksKeepsInvariant(s: State, pid: Id, draggedId: Id, targetId: Id)
    requires Invariant(s)
    ensures Invariant(Reduce(s, ReorderTasks(pid, draggedId, targetId)))
  {
    var r := Reduce(s, ReorderTasks(pid, draggedId, targetId));
    forall k | 0 <= k < |s.projects|
      ensures r.projects[k].id == s.projects[k].id && DenseOrders(r.projects[k].tasks)
    {
      if s.projects[k].id == pid {
        ReorderKeepsOrdersDense(s.projects[k].tasks, draggedId, targetId);
      }
    }
    MappedKeepsInvariant(s, r);
  }

  /** The invariant reads only the project list and the selection. */
  lemma SameProjectsKeepInvariant(s: State, r: State)
    requires Invariant(s)
    requires r.projects == s.projects && r.currentProjectId == s.currentProjectId
    ensures Invariant(r)
  {
    assert CurrentProject(r) == CurrentProject(s);
  }

  lemma UpdateProjectKeepsInvariant(s: State, p: ProjectData)
    requires Invariant(s) && DenseOrders(p.tasks)
    ensures Invariant(Reduce(s, UpdateProject(p)))
  {
    var r := Reduce(s, UpdateProject(p));
    UpdateProjectReplaces(s, p);
    MappedKeepsInvariant(s, r);
  }

  lemma SetProjectsKeepsInvariant(s: State, ps: seq<ProjectData>)
    requires Invariant(s) && Admissible(s, SetProjects(ps))
    ensures Invariant(Reduce(s, SetProjects(ps)))
  {
    assert CurrentProject(Reduce(s, SetProjects(ps))) == CurrentProject(s.(projects := ps));
  }

  lemma SetCurrentProjectKeepsInvariant(s: State, selected: Option<Id>)
    requires Invariant(s) && Admissible(s, SetCurrentProject(selected))
    ensures Invariant(Reduce(s, SetCurrentProject(selected)))
  {
    assert CurrentProject(Reduce(s, SetCurrentProject(selected))) == CurrentProject(s.(currentProjectId := selected));
  }

  /** Every admissible action keeps the invariant. */
  lemma ReducePreservesInvariant(s: State, a: Action)
    requires Invariant(s) && Admissible(s, a)
    ensures Invariant(Reduce(s, a))
  {
    match a
    case SetLoading(_) => SameProjectsKeepInvariant(s, Reduce(s, a));
    case SetError(_) => SameProjectsKeepInvariant(s, Reduce(s, a));
    case SetProjects(ps) => SetProjectsKeepsInvariant(s, ps);
    case AddProject(p) => AddProjectKeepsInvariant(s, p);
    case UpdateProject(p) => UpdateProjectKeepsInvariant(s, p);
    case DeleteProject(id) => DeleteProjectKeepsInvariant(s, id);
    case SetCurrentProject(selected) => SetCurrentProjectKeepsInvariant(s, selected);
    case AddTask(pid, data, freshId) => AddTaskKeepsInvariant(s, pid, data, freshId);
    case UpdateTask(pid, taskId, u) => UpdateTaskKeepsInvariant(s, pid, taskId, u);
    case DeleteTask(pid, taskId) => DeleteTaskKeepsInvariant(s, pid, taskId);
    case ReorderTasks(pid, draggedId, targetId) => ReorderTasksKeepsInvariant(s, pid, draggedId, targetId);
    case SetCurrentView(_) => SameProjectsKeepInvariant(s, Reduce(s, a));
    case GenerateTestData(pid, taskIds, today) =>
      TestProjectShape(pid, taskIds, today);
      AddProjectKeepsInvariant(s, TestProject(pid, taskIds, today));
    case Unknown =>
  }

  /** The initial state satisfies the invariant. */
  lemma InitialStateInvariant()
    ensures Invariant(InitialState)
    ensures CurrentProject(InitialState).None?
  {
  }
}
