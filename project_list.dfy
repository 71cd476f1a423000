/**
 * src/components/Project/ProjectList.js: the list of projects with their statistics. A
 * `Project` instance reports its own `getStats()`; a plain object (a project read back
 * from storage) gets the same figures computed by hand, with a missing cost, price or
 * order read as 0.
 */
module ProjectList {
  import opened Wrappers
  import opened Dates
  import opened Seqs
  import opened Types
  import opened ProjectContext
  import opened Schedule

  /** A task as a plain object: the fields the statistics read, each possibly undefined. */
  datatype PlainTask = PlainTask(cost: Option<int>, price: Option<int>, order: Option<int>, endDate: Option<Day>)

  /** A project as a plain object, without `getStats`. */
  datatype PlainProject = PlainProject(
    id: Id,
    name: string,
    description: string,
    startDate: Option<Day>,
    tasks: Option<seq<PlainTask>>)

  /** An entry of `projects`: a `Project` instance or a plain object. */
  datatype ListedProject = Instance(project: ProjectData) | Plain(plain: PlainProject)

  /** `tasks.reduce((sum, task) => sum + (task.cost || 0), 0)`. */
  function PlainCost(ts: seq<PlainTask>): (total: int)
    ensures ts == [] ==> total == 0
    ensures |ts| == 1 ==> total == ts[0].cost.GetOr(0)
    decreases |ts|
  {
    if ts == [] then 0 else PlainCost(ts[..|ts| - 1]) + ts[|ts| - 1].cost.GetOr(0)
  }

  /** `tasks.reduce((sum, task) => sum + (task.price || 0), 0)`. */
  function PlainPrice(ts: seq<PlainTask>): (total: int)
    ensures ts == [] ==> total == 0
    ensures |ts| == 1 ==> total == ts[0].price.GetOr(0)
    decreases |ts|
  {
    if ts == [] then 0 else PlainPrice(ts[..|ts| - 1]) + ts[|ts| - 1].price.GetOr(0)
  }

  /** The hand-summed totals split over a concatenation. */
  lemma {:induction false} PlainTotalsAppend(a: seq<PlainTask>, b: seq<PlainTask>)
    ensures PlainCost(a + b) == PlainCost(a) + PlainCost(b)
    ensures PlainPrice(a + b) == PlainPrice(a) + PlainPrice(b)
    decreases |b|
  {
    if b == [] {
      assert a + b == a;
    } else {
      var init := b[..|b| - 1];
      PlainTotalsAppend(a, init);
      assert (a + b)[..|a + b| - 1] == a + init;
      assert (a + b)[|a + b| - 1] == b[|b| - 1];
    }
  }

  /** The sort key `(a.order || 0)`. */
  function PlainOrder(t: PlainTask): int {
    t.order.GetOr(0)
  }

  /** The last task after sorting by `order || 0`. */
  function PlainLast(ts: seq<PlainTask>): (t: PlainTask)
    requires ts != []
    ensures t in ts
    ensures forall k :: 0 <= k < |ts| ==> PlainOrder(ts[k]) <= PlainOrder(t)
  {
    var sorted := SortBy(ts, PlainOrder);
    assert sorted[|sorted| - 1] in multiset(ts);
    forall k | 0 <= k < |ts| ensures PlainOrder(ts[k]) <= PlainOrder(sorted[|sorted| - 1]) {
      assert ts[k] in multiset(sorted);
    }
    sorted[|sorted| - 1]
  }

  /** The hand-computed statistics of a plain project. */
  function FallbackStats(q: PlainProject): (st: ProjectStats)
    ensures st.totalTasks == if q.tasks.Some? then |q.tasks.value| else 0
    ensures st.totalProfit == st.totalPrice - st.totalCost
    ensures q.tasks.None? ==> st.totalCost == 0 && st.totalPrice == 0
    ensures q.tasks.Some? ==> st.totalCost == PlainCost(q.tasks.value) && st.totalPrice == PlainPrice(q.tasks.value)
    ensures st.endDate.Some? <==>
      q.tasks.Some? && q.tasks.value != [] && q.startDate.Some? && PlainLast(q.tasks.value).endDate.Some?
    ensures st.endDate.Some? ==>
      && st.endDate == PlainLast(q.tasks.value).endDate
      && st.totalDays == st.endDate.value - q.startDate.value + 1
    ensures st.endDate.None? ==> st.totalDays == 0
  {
    var ts := q.tasks.GetOr([]);
    var cost, price := PlainCost(ts), PlainPrice(ts);
    if q.tasks.Some? && ts != [] && q.startDate.Some? && PlainLast(ts).endDate.Some? then
      var end := PlainLast(ts).endDate.value;
      ProjectStats(|ts|, cost, price, price - cost, end - q.startDate.value + 1, Some(end))
    else
      ProjectStats(|ts|, cost, price, price - cost, 0, None)
  }

  /** `calculateStats(project)`: `getStats()` where the project has it, else the fallback. */
  function CalculateStats(lp: ListedProject): (st: ProjectStats)
    ensures st.totalProfit == st.totalPrice - st.totalCost
    ensures st.totalTasks == match lp
      case Instance(p) => |p.tasks|
      case Plain(q) => if q.tasks.Some? then |q.tasks.value| else 0
    ensures st.endDate.None? ==> st.totalDays == 0
  {
    match lp
    case Instance(p) => GetStats(p)
    case Plain(q) => FallbackStats(q)
  }

  /** A task written out as a plain object. */
  function PlainTaskOf(t: Task): PlainTask {
    PlainTask(Some(t.cost), Some(t.price), Some(t.order), t.endDate)
  }

  /** A project written out as a plain object. */
  function PlainOf(p: ProjectData): PlainProject {
    PlainProject(p.id, p.name, p.description, p.startDate, Some(Map(p.tasks, PlainTaskOf)))
  }

  /** The hand-summed cost and price of a written-out task list are its totals. */
  lemma {:induction false} PlainTotalsOfTasks(ts: seq<Task>)
    ensures PlainCost(Map(ts, PlainTaskOf)) == TotalCost(ts)
    ensures PlainPrice(Map(ts, PlainTaskOf)) == TotalPrice(ts)
    decreases |ts|
  {
    if ts != [] {
      var init := ts[..|ts| - 1];
      PlainTotalsOfTasks(init);
      assert Map(ts, PlainTaskOf)[..|ts| - 1] == Map(init, PlainTaskOf);
    }
  }

  /** The last written-out task by `order || 0` is the written-out last task by `order`. */
  lemma PlainLastOfTasks(ts: seq<Task>)
    requires ts != []
    ensures PlainLast(Map(ts, PlainTaskOf)) == PlainTaskOf(LastByOrder(ts))
  {
    SortByMap(ts, PlainTaskOf, OrderKey, PlainOrder);
  }

  /** A project written out as a plain object gets the same figures from the fallback as
      from `getStats()`. */
  lemma FallbackAgreesWithGetStats(p: ProjectData)
    ensures CalculateStats(Plain(PlainOf(p))) == CalculateStats(Instance(p))
  {
    PlainTotalsOfTasks(p.tasks);
    if p.tasks != [] {
      PlainLastOfTasks(p.tasks);
    }
  }

  /** The id and the name of an entry. */
  function ListedId(lp: ListedProject): Id {
    match lp
    case Instance(p) => p.id
    case Plain(q) => q.id
  }

  function ListedName(lp: ListedProject): string {
    match lp
    case Instance(p) => p.name
    case Plain(q) => q.name
  }

  /** One entry as shown: its statistics, whether it is the current project, and the
      formatted end date after `預計完工` when there is one. */
  datatype ProjectItem = ProjectItem(id: Id, name: string, stats: ProjectStats, active: bool, finish: Option<string>)

  /** What the list shows: the empty state (with the test-data button) or the entries. */
  datatype ProjectListScreen = NoProjects | Items(items: seq<ProjectItem>)

  function Item(lp: ListedProject, current: Option<Id>): ProjectItem {
    var st := CalculateStats(lp);
    ProjectItem(ListedId(lp), ListedName(lp), st, current == Some(ListedId(lp)),
      if st.endDate.Some? then Some(FormatDate(st.endDate)) else None)
  }

  /** `ProjectList()`. */
  function ProjectListView(projects: seq<ListedProject>, current: Option<Id>): (v: ProjectListScreen)
    ensures v.NoProjects? <==> projects == []
    ensures v.Items? ==> |v.items| == |projects| && forall k :: 0 <= k < |projects| ==>
      && v.items[k].id == ListedId(projects[k])
      && v.items[k].stats == CalculateStats(projects[k])
      && (v.items[k].active <==> current == Some(ListedId(projects[k])))
      && (v.items[k].finish.Some? <==> v.items[k].stats.endDate.Some?)
      && (v.items[k].finish.Some? ==> v.items[k].finish.value == FormatDate(v.items[k].stats.endDate))
  {
    if projects == [] then NoProjects
    else Items(seq(|projects|, k requires 0 <= k < |projects| => Item(projects[k], current)))
  }

  /** Clicking an entry dispatches `setCurrentProject(project.id)`; afterwards a project
      with that id is the current one and the list is unchanged. */
  lemma ClickSelectsProject(s: State, k: int)
    requires 0 <= k < |s.projects|
    ensures var r := Reduce(s, SetCurrentProject(Some(s.projects[k].id)));
      && r.projects == s.projects
      && r.currentProjectId == Some(s.projects[k].id)
      && CurrentProject(r).Some? && CurrentProject(r).value.id == s.projects[k].id
  {
  }

  /** The button of the empty list generates the test project, which is then listed,
      current, with its 24 tasks. */
  lemma EmptyListButton(s: State, projectId: Id, taskIds: nat -> Id, today: Day)
    requires s.projects == []
    ensures var r := Reduce(s, GenerateTestData(projectId, taskIds, today));
      && |r.projects| == 1
      && CurrentProject(r) == Some(r.projects[0])
      && GetStats(r.projects[0]).totalTasks == 24
  {
    GenerateTestDataAppends(s, projectId, taskIds, today);
    var r := Reduce(s, GenerateTestData(projectId, taskIds, today));
    assert ProjectIndex(r.projects, projectId) == 0;
  }
}
