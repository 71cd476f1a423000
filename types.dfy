/**
 * The data model of src/types/index.js: tasks, projects, the category/status/view key
 * tables, and the order bookkeeping that keeps a project's task orders a dense
 * permutation of 0..n-1. The pure functions below say what `Project.addTask`,
 * `removeTask` and `reorderTasks` do to the task list; class `Project` performs the
 * same updates in place and is proved against them.
 */
module Types {
  import opened Wrappers
  import opened Dates
  import opened Seqs

  /** Ids are generated as non-empty strings, so `id || generateId()` keeps any given id. */
  type Id = s: string | s != "" witness "?"

  /** The keys of `CATEGORIES`, in declaration order. */
  const CategoryKeys: seq<string> := ["water-electric", "masonry", "carpentry", "painting", "flooring"]

  /** The keys of `TASK_STATUS`, in declaration order (also the order of the status cycle). */
  const StatusKeys: seq<string> := ["planned", "in-progress", "completed", "blocked"]

  /** The values of `CATEGORIES`, in the order of their keys. */
  const CategoryNames: seq<string> := ["💧 水電工程", "🧱 泥作工程", "🪵 木工工程", "🎨 油漆工程", "🏠 地板工程"]

  /** The values of `TASK_STATUS`, in the order of their keys. */
  const StatusNames: seq<string> := ["計劃中", "進行中", "已完成", "阻塞"]

  /** `table[key]` for a key table given as parallel key and value lists: the value of the
      key, or `undefined` for a key the table does not have. */
  function KeyLookup(keys: seq<string>, values: seq<string>, key: string): (r: Option<string>)
    requires |keys| == |values|
    ensures r.Some? <==> key in keys
    ensures forall i :: 0 <= i < |keys| && keys[i] == key && key !in keys[..i] ==> r == Some(values[i])
  {
    var i := IndexOf(keys, key);
    if i >= 0 then Some(values[i]) else None
  }

  /** `CATEGORIES[category]`. */
  function CategoryName(category: string): Option<string> {
    KeyLookup(CategoryKeys, CategoryNames, category)
  }

  /** `TASK_STATUS[status]`. */
  function StatusName(status: string): Option<string> {
    KeyLookup(StatusKeys, StatusNames, status)
  }

  /** No key occurs twice in `CATEGORIES`. */
  lemma CategoryKeysDistinct()
    ensures NoDuplicates(CategoryKeys)
  {
  }

  /** No key occurs twice in `TASK_STATUS`. */
  lemma StatusKeysDistinct()
    ensures NoDuplicates(StatusKeys)
  {
  }

  datatype Task = Task(
    id: Id,
    projectId: Option<Id>,
    category: string,
    name: string,
    duration: int,
    cost: int,
    price: int,
    profit: int,
    order: int,
    startDate: Option<Day>,
    endDate: Option<Day>,
    status: string)

  /** The object handed to `new Task({...})`; `None` is a field left undefined. */
  datatype TaskData = TaskData(
    id: Option<Id>,
    projectId: Option<Id>,
    category: Option<string>,
    name: Option<string>,
    duration: Option<int>,
    cost: Option<int>,
    price: Option<int>,
    order: Option<int>,
    startDate: Option<Day>,
    endDate: Option<Day>,
    status: Option<string>)

  /** A field-by-field snapshot of a `Project` (timestamps are not modelled). */
  datatype ProjectData = ProjectData(
    id: Id,
    name: string,
    description: string,
    startDate: Option<Day>,
    skipSaturday: bool,
    skipSunday: bool,
    tasks: seq<Task>)

  /** The object handed to `new Project({...})`; `None` is a field left undefined. */
  datatype ProjectInput = ProjectInput(
    id: Option<Id>,
    name: Option<string>,
    description: Option<string>,
    startDate: Option<Day>,
    skipSaturday: Option<bool>,
    skipSunday: Option<bool>,
    tasks: Option<seq<Task>>)

  /** `new Project(data)`: defaults fill the undefined fields, `freshId` stands for
      `generateId()`. A new project works Saturdays and skips Sundays. */
  function NewProject(input: ProjectInput, freshId: Id): (p: ProjectData)
    ensures p.id == (if input.id.Some? then input.id.value else freshId)
    ensures p.startDate == input.startDate
    ensures input.name.Some? ==> p.name == input.name.value
    ensures input.description.Some? ==> p.description == input.description.value
    ensures input.skipSaturday.Some? ==> p.skipSaturday == input.skipSaturday.value
    ensures input.skipSunday.Some? ==> p.skipSunday == input.skipSunday.value
    ensures input.tasks.Some? ==> p.tasks == input.tasks.value
    ensures input.name.None? ==> p.name == ""
    ensures input.description.None? ==> p.description == ""
    ensures input.skipSaturday.None? ==> !p.skipSaturday
    ensures input.skipSunday.None? ==> p.skipSunday
    ensures input.tasks.None? ==> p.tasks == []
  {
    ProjectData(
      if input.id.Some? then input.id.value else freshId,
      input.name.GetOr(""),
      input.description.GetOr(""),
      input.startDate,
      input.skipSaturday.GetOr(false),
      input.skipSunday.GetOr(true),
      input.tasks.GetOr([]))
  }

  /** A project handed back to the constructor, every field present (`new Project(project)`). */
  function InputOf(p: ProjectData): ProjectInput {
    ProjectInput(Some(p.id), Some(p.name), Some(p.description), p.startDate,
                 Some(p.skipSaturday), Some(p.skipSunday), Some(p.tasks))
  }

  /** Copying a project through the constructor reproduces it, whatever id would be generated. */
  lemma CopyProjectIsIdentity(p: ProjectData, freshId: Id)
    ensures NewProject(InputOf(p), freshId) == p
  {
  }

  /** `profit` is derived from the two amounts. */
  predicate ProfitConsistent(t: Task) {
    t.profit == t.price - t.cost
  }

  /** `new Task(data)`: defaults fill the undefined fields, `freshId` stands for `generateId()`. */
  function NewTask(data: TaskData, freshId: Id): (t: Task)
    ensures ProfitConsistent(t)
    ensures t.id == (if data.id.Some? then data.id.value else freshId)
    ensures t.projectId == data.projectId
    ensures t.startDate == data.startDate && t.endDate == data.endDate
    ensures data.category.Some? ==> t.category == data.category.value
    ensures data.name.Some? ==> t.name == data.name.value
    ensures data.duration.Some? ==> t.duration == data.duration.value
    ensures data.cost.Some? ==> t.cost == data.cost.value
    ensures data.price.Some? ==> t.price == data.price.value
    ensures data.order.Some? ==> t.order == data.order.value
    ensures data.status.Some? ==> t.status == data.status.value
    ensures data.category.None? ==> t.category == "water-electric"
    ensures data.name.None? ==> t.name == ""
    ensures data.duration.None? ==> t.duration == 1
    ensures data.cost.None? ==> t.cost == 0
    ensures data.price.None? ==> t.price == 0
    ensures data.order.None? ==> t.order == 0
    ensures data.status.None? ==> t.status == "planned"
  {
    var cost := data.cost.GetOr(0);
    var price := data.price.GetOr(0);
    Task(
      if data.id.Some? then data.id.value else freshId,
      data.projectId,
      data.category.GetOr("water-electric"),
      data.name.GetOr(""),
      data.duration.GetOr(1),
      cost,
      price,
      price - cost,
      data.order.GetOr(0),
      data.startDate,
      data.endDate,
      data.status.GetOr("planned"))
  }

  /** `task.updateProfit()`: re-derives `profit`, touching no other field. */
  function UpdateProfit(t: Task): (r: Task)
    ensures ProfitConsistent(r)
    ensures r.(profit := t.profit) == t
  {
    t.(profit := t.price - t.cost)
  }

  /** The sort key of `(a, b) => a.order - b.order`. */
  function OrderKey(t: Task): int {
    t.order
  }

  /** The tasks sorted ascending by `order` (a stable sort of a copy). */
  function SortedByOrder(ts: seq<Task>): (r: seq<Task>)
    ensures multiset(r) == multiset(ts)
    ensures |r| == |ts|
    ensures forall i, j :: 0 <= i < j < |r| ==> r[i].order <= r[j].order
  {
    SortBy(ts, OrderKey)
  }

  /** The orders of the tasks are exactly 0..n-1, each once. */
  ghost predicate DenseOrders(ts: seq<Task>) {
    && (forall k :: 0 <= k < |ts| ==> 0 <= ts[k].order < |ts|)
    && (forall a, b :: 0 <= a < b < |ts| ==> ts[a].order != ts[b].order)
  }

  /** Two tasks that differ at most in `order`. */
  predicate SameButOrder(a: Task, b: Task) {
    a.(order := 0) == b.(order := 0)
  }

  /** `tasks.findIndex(t => t.id === id)`: the first index with that id, or -1. */
  function FindIndex(ts: seq<Task>, id: Id): (r: int)
    ensures -1 <= r < |ts|
    ensures r == -1 <==> forall k :: 0 <= k < |ts| ==> ts[k].id != id
    ensures r >= 0 ==> ts[r].id == id && forall k :: 0 <= k < r ==> ts[k].id != id
  {
    if ts == [] then -1
    else if ts[0].id == id then 0
    else
      var r := FindIndex(ts[1..], id);
      if r == -1 then -1 else r + 1
  }

  // ---------------------------------------------------------------------------------
  // Project.addTask

  /** The task list after `addTask(data)` on a project with id `projectId`. */
  function WithTaskAdded(ts: seq<Task>, data: TaskData, projectId: Id, freshId: Id): (r: seq<Task>)
    ensures |r| == |ts| + 1 && r[..|ts|] == ts
    ensures r[|ts|].order == |ts| && r[|ts|].projectId == Some(projectId)
    ensures ProfitConsistent(r[|ts|])
  {
    ts + [NewTask(data.(projectId := Some(projectId), order := Some(|ts|)), freshId)]
  }

  /** Appending with order n keeps dense orders 0..n-1 dense as 0..n. */
  lemma AddKeepsOrdersDense(ts: seq<Task>, data: TaskData, projectId: Id, freshId: Id)
    requires DenseOrders(ts)
    ensures DenseOrders(WithTaskAdded(ts, data, projectId, freshId))
  {
    var r := WithTaskAdded(ts, data, projectId, freshId);
    forall a, b | 0 <= a < b < |r| ensures r[a].order != r[b].order {
      if b == |ts| {
        assert r[a] == ts[a];
      } else {
        assert r[a] == ts[a] && r[b] == ts[b];
      }
    }
    forall k | 0 <= k < |r| ensures 0 <= r[k].order < |r| {
      if k < |ts| {
        assert r[k] == ts[k];
      }
    }
  }

  // ---------------------------------------------------------------------------------
  // Project.removeTask

  /** One step of the renumbering `forEach`: orders above the deleted one move down. */
  function ClosedGap(t: Task, deletedOrder: int): Task {
    if t.order > deletedOrder then t.(order := t.order - 1) else t
  }

  /** The task list after `removeTask(taskId)`. */
  function WithTaskRemoved(ts: seq<Task>, taskId: Id): (r: seq<Task>)
    ensures FindIndex(ts, taskId) == -1 ==> r == ts
    ensures FindIndex(ts, taskId) >= 0 ==> |r| == |ts| - 1
  {
    var i := FindIndex(ts, taskId);
    if i == -1 then ts
    else
      var rest := ts[..i] + ts[i + 1..];
      seq(|rest|, k requires 0 <= k < |rest| => ClosedGap(rest[k], ts[i].order))
  }

  /** Under dense orders, distinct positions hold distinct orders. */
  lemma DistinctOrders(ts: seq<Task>, a: int, b: int)
    requires DenseOrders(ts) && 0 <= a < |ts| && 0 <= b < |ts| && a != b
    ensures ts[a].order != ts[b].order
  {
    if b < a {
      assert ts[b].order != ts[a].order;
    }
  }

  /** Position k of the list after removing the task at position i came from here. */
  function SourceIndex(i: int, k: int): int {
    if k < i then k else k + 1
  }

  /** Position k of the list after removing a present task. */
  lemma RemovedAt(ts: seq<Task>, taskId: Id, k: int)
    requires FindIndex(ts, taskId) >= 0 && 0 <= k < |ts| - 1
    ensures var i := FindIndex(ts, taskId);
      WithTaskRemoved(ts, taskId)[k] == ClosedGap(ts[SourceIndex(i, k)], ts[i].order)
  {
    var i := FindIndex(ts, taskId);
    assert (ts[..i] + ts[i + 1..])[k] == ts[SourceIndex(i, k)];
  }

  /** Removing a present task drops exactly that one task, moves every order above the
      removed one down by one and leaves everything else as it was. */
  lemma RemoveShape(ts: seq<Task>, taskId: Id)
    requires FindIndex(ts, taskId) >= 0
    ensures var i, r := FindIndex(ts, taskId), WithTaskRemoved(ts, taskId);
      && |r| == |ts| - 1
      && forall k :: 0 <= k < |r| ==>
           && SameButOrder(r[k], ts[SourceIndex(i, k)])
           && r[k].order == (if ts[SourceIndex(i, k)].order > ts[i].order
                             then ts[SourceIndex(i, k)].order - 1 else ts[SourceIndex(i, k)].order)
  {
    var r := WithTaskRemoved(ts, taskId);
    forall k | 0 <= k < |r| {
      RemovedAt(ts, taskId, k);
    }
  }

  /** Closing the gap keeps an order other than the deleted one within 0..n-2. */
  lemma ClosedGapInRange(t: Task, deletedOrder: int, n: int)
    requires 0 <= t.order < n && 0 <= deletedOrder < n && t.order != deletedOrder
    ensures 0 <= ClosedGap(t, deletedOrder).order < n - 1
  {
  }

  /** Closing the gap keeps two distinct orders, both other than the deleted one, distinct. */
  lemma ClosedGapKeepsDistinct(x: Task, y: Task, deletedOrder: int)
    requires x.order != y.order && x.order != deletedOrder && y.order != deletedOrder
    ensures ClosedGap(x, deletedOrder).order != ClosedGap(y, deletedOrder).order
  {
  }

  /** Under dense orders, each remaining task gets an order in 0..n-2. */
  lemma RemovedOrderInRange(ts: seq<Task>, taskId: Id, k: int)
    requires DenseOrders(ts) && FindIndex(ts, taskId) >= 0 && 0 <= k < |ts| - 1
    ensures 0 <= WithTaskRemoved(ts, taskId)[k].order < |ts| - 1
  {
    var i := FindIndex(ts, taskId);
    RemovedAt(ts, taskId, k);
    DistinctOrders(ts, SourceIndex(i, k), i);
    assert 0 <= ts[i].order < |ts| && 0 <= ts[SourceIndex(i, k)].order < |ts|;
    ClosedGapInRange(ts[SourceIndex(i, k)], ts[i].order, |ts|);
  }

  /** Under dense orders, two remaining tasks keep distinct orders. */
  lemma RemovedOrdersDiffer(ts: seq<Task>, taskId: Id, a: int, b: int)
    requires DenseOrders(ts) && FindIndex(ts, taskId) >= 0 && 0 <= a < b < |ts| - 1
    ensures WithTaskRemoved(ts, taskId)[a].order != WithTaskRemoved(ts, taskId)[b].order
  {
    var i := FindIndex(ts, taskId);
    var sa, sb := SourceIndex(i, a), SourceIndex(i, b);
    RemovedAt(ts, taskId, a);
    RemovedAt(ts, taskId, b);
    DistinctOrders(ts, sa, sb);
    DistinctOrders(ts, sa, i);
    DistinctOrders(ts, sb, i);
    ClosedGapKeepsDistinct(ts[sa], ts[sb], ts[i].order);
  }

  /** Removing a present task turns dense orders 0..n-1 into dense orders 0..n-2. */
  lemma RemoveKeepsOrdersDense(ts: seq<Task>, taskId: Id)
    requires FindIndex(ts, taskId) >= 0
    requires DenseOrders(ts)
    ensures DenseOrders(WithTaskRemoved(ts, taskId))
  {
    var r := WithTaskRemoved(ts, taskId);
    forall k | 0 <= k < |r| ensures 0 <= r[k].order < |r| {
      RemovedOrderInRange(ts, taskId, k);
    }
    forall a, b | 0 <= a < b < |r| ensures r[a].order != r[b].order {
      RemovedOrdersDiffer(ts, taskId, a, b);
    }
  }

  // ---------------------------------------------------------------------------------
  // Project.reorderTasks

  /** One step of the shifting `forEach` when the task at order `from` moves to order `to`. */
  function Shifted(t: Task, from: int, to: int): Task {
    if from < to then
      (if from < t.order <= to then t.(order := t.order - 1) else t)
    else
      (if to <= t.order < from then t.(order := t.order + 1) else t)
  }

  /** The task list after `reorderTasks(draggedId, targetId)`. */
  function WithTasksReordered(ts: seq<Task>, draggedId: Id, targetId: Id): (r: seq<Task>)
    ensures FindIndex(ts, draggedId) == -1 || FindIndex(ts, targetId) == -1 ==> r == ts
    ensures |r| == |ts|
  {
    var i, j := FindIndex(ts, draggedId), FindIndex(ts, targetId);
    if i == -1 || j == -1 then ts
    else
      var from, to := ts[i].order, ts[j].order;
      seq(|ts|, k requires 0 <= k < |ts| =>
        if k == i then ts[k].(order := to) else Shifted(ts[k], from, to))
  }

  /** Position k of the list after a reorder of two present tasks. */
  lemma ReorderedAt(ts: seq<Task>, draggedId: Id, targetId: Id, k: int)
    requires FindIndex(ts, draggedId) >= 0 && FindIndex(ts, targetId) >= 0 && 0 <= k < |ts|
    ensures var i, j := FindIndex(ts, draggedId), FindIndex(ts, targetId);
      WithTasksReordered(ts, draggedId, targetId)[k]
      == if k == i then ts[k].(order := ts[j].order) else Shifted(ts[k], ts[i].order, ts[j].order)
  {
  }

  /** The dragged task takes the target's order; moving forward, orders in (from, to] drop
      by one; moving backward, orders in [to, from) rise by one; every other order and
      every other field stays as it was. */
  lemma ReorderShiftsRange(ts: seq<Task>, draggedId: Id, targetId: Id)
    requires FindIndex(ts, draggedId) >= 0 && FindIndex(ts, targetId) >= 0
    ensures var i, j, r := FindIndex(ts, draggedId), FindIndex(ts, targetId), WithTasksReordered(ts, draggedId, targetId);
      var from, to := ts[i].order, ts[j].order;
      && r[i].order == to
      && (forall k :: 0 <= k < |ts| ==> SameButOrder(r[k], ts[k]))
      && (forall k :: 0 <= k < |ts| && k != i ==>
            r[k].order == (if from < to && from < ts[k].order <= to then ts[k].order - 1
                           else if to < from && to <= ts[k].order < from then ts[k].order + 1
                           else ts[k].order))
  {
    forall k | 0 <= k < |ts| {
      ReorderedOrderAt(ts, draggedId, targetId, k);
    }
  }

  /** The new order at one position of a reorder. */
  lemma ReorderedOrderAt(ts: seq<Task>, draggedId: Id, targetId: Id, k: int)
    requires FindIndex(ts, draggedId) >= 0 && FindIndex(ts, targetId) >= 0 && 0 <= k < |ts|
    ensures var i, j, r := FindIndex(ts, draggedId), FindIndex(ts, targetId), WithTasksReordered(ts, draggedId, targetId);
      var from, to := ts[i].order, ts[j].order;
      && (k == i ==> r[k].order == to)
      && SameButOrder(r[k], ts[k])
      && (k != i ==>
            r[k].order == (if from < to && from < ts[k].order <= to then ts[k].order - 1
                           else if to < from && to <= ts[k].order < from then ts[k].order + 1
                           else ts[k].order))
  {
    ReorderedAt(ts, draggedId, targetId, k);
  }

  /** Dropping a task on itself changes nothing. */
  lemma ReorderOntoItselfIsNoop(ts: seq<Task>, id: Id)
    ensures WithTasksReordered(ts, id, id) == ts
  {
    var i := FindIndex(ts, id);
    if i != -1 {
      var r := WithTasksReordered(ts, id, id);
      assert forall k :: 0 <= k < |ts| ==> r[k] == ts[k];
    }
  }

  /** Shifting every task, then giving the dragged one the target's order, is the reorder. */
  lemma ReorderedFromShifted(ts: seq<Task>, draggedId: Id, targetId: Id, shifted: seq<Task>)
    requires FindIndex(ts, draggedId) >= 0 && FindIndex(ts, targetId) >= 0 && |shifted| == |ts|
    requires var from, to := ts[FindIndex(ts, draggedId)].order, ts[FindIndex(ts, targetId)].order;
      forall k :: 0 <= k < |ts| ==> shifted[k] == Shifted(ts[k], from, to)
    ensures var i, j := FindIndex(ts, draggedId), FindIndex(ts, targetId);
      shifted[i := shifted[i].(order := ts[j].order)] == WithTasksReordered(ts, draggedId, targetId)
  {
    var i := FindIndex(ts, draggedId);
    var j := FindIndex(ts, targetId);
    var r := shifted[i := shifted[i].(order := ts[j].order)];
    forall k | 0 <= k < |ts| ensures r[k] == WithTasksReordered(ts, draggedId, targetId)[k] {
      ReorderedAt(ts, draggedId, targetId, k);
    }
  }

  /** A shift from `from` to `to` keeps an order other than `from` within 0..n-1 and away
      from `to`. */
  lemma ShiftAvoidsTarget(t: Task, from: int, to: int, n: int)
    requires 0 <= t.order < n && 0 <= from < n && 0 <= to < n && t.order != from
    ensures Shifted(t, from, to).order != to && 0 <= Shifted(t, from, to).order < n
  {
  }

  /** A shift keeps two distinct orders, both other than `from`, distinct. */
  lemma ShiftKeepsDistinct(x: Task, y: Task, from: int, to: int)
    requires x.order != y.order && x.order != from && y.order != from
    ensures Shifted(x, from, to).order != Shifted(y, from, to).order
  {
  }

  /** Under dense orders, a task other than the dragged one gets an order in range that
      differs from the target's: its old order differs from the dragged task's. */
  lemma ReorderedOrderInRange(ts: seq<Task>, draggedId: Id, targetId: Id, k: int)
    requires DenseOrders(ts)
    requires FindIndex(ts, draggedId) >= 0 && FindIndex(ts, targetId) >= 0
    requires 0 <= k < |ts| && k != FindIndex(ts, draggedId)
    ensures var r := WithTasksReordered(ts, draggedId, targetId);
      r[k].order != ts[FindIndex(ts, targetId)].order && 0 <= r[k].order < |ts|
  {
    var i, j := FindIndex(ts, draggedId), FindIndex(ts, targetId);
    ReorderedAt(ts, draggedId, targetId, k);
    DistinctOrders(ts, k, i);
    assert 0 <= ts[i].order < |ts| && 0 <= ts[j].order < |ts| && 0 <= ts[k].order < |ts|;
    ShiftAvoidsTarget(ts[k], ts[i].order, ts[j].order, |ts|);
  }

  /** Under dense orders, two positions keep distinct orders through a reorder. */
  lemma ReorderedOrdersDiffer(ts: seq<Task>, draggedId: Id, targetId: Id, a: int, b: int)
    requires DenseOrders(ts)
    requires FindIndex(ts, draggedId) >= 0 && FindIndex(ts, targetId) >= 0
    requires 0 <= a < b < |ts|
    ensures var r := WithTasksReordered(ts, draggedId, targetId);
      r[a].order != r[b].order
  {
    var i := FindIndex(ts, draggedId);
    ReorderedAt(ts, draggedId, targetId, a);
    ReorderedAt(ts, draggedId, targetId, b);
    if a == i {
      ReorderedOrderInRange(ts, draggedId, targetId, b);
    } else if b == i {
      ReorderedOrderInRange(ts, draggedId, targetId, a);
    } else {
      DistinctOrders(ts, a, b);
      DistinctOrders(ts, a, i);
      DistinctOrders(ts, b, i);
      ShiftKeepsDistinct(ts[a], ts[b], ts[i].order, ts[FindIndex(ts, targetId)].order);
    }
  }

  /** Reordering keeps dense orders 0..n-1 dense. */
  lemma ReorderKeepsOrdersDense(ts: seq<Task>, draggedId: Id, targetId: Id)
    requires DenseOrders(ts)
    ensures DenseOrders(WithTasksReordered(ts, draggedId, targetId))
  {
    var i, j := FindIndex(ts, draggedId), FindIndex(ts, targetId);
    if i != -1 && j != -1 {
      var r := WithTasksReordered(ts, draggedId, targetId);
      forall k | 0 <= k < |r| ensures 0 <= r[k].order < |r| {
        if k == i {
          ReorderedAt(ts, draggedId, targetId, k);
        } else {
          ReorderedOrderInRange(ts, draggedId, targetId, k);
        }
      }
      forall a, b | 0 <= a < b < |r| ensures r[a].order != r[b].order {
        ReorderedOrdersDiffer(ts, draggedId, targetId, a, b);
      }
    }
  }

  // ---------------------------------------------------------------------------------
  // Dense orders under sorting

  /** Two equal values at distinct positions occur at least twice. */
  lemma CountAtLeastTwo<T>(s: seq<T>, x: int, y: int)
    requires 0 <= x < y < |s| && s[x] == s[y]
    ensures multiset(s)[s[x]] >= 2
  {
    assert s == s[..y] + s[y..];
    assert s[x] == s[..y][x];
    assert s[y] == s[y..][0];
  }

  /** A value found at exactly one position occurs once. */
  lemma CountOne<T>(s: seq<T>, i: int)
    requires 0 <= i < |s| && forall j :: 0 <= j < |s| && j != i ==> s[j] != s[i]
    ensures multiset(s)[s[i]] == 1
  {
    assert s == s[..i] + [s[i]] + s[i + 1..];
    assert s[i] !in s[..i] by {
      forall j | 0 <= j < i ensures s[..i][j] != s[i] { assert s[..i][j] == s[j]; }
    }
    assert s[i] !in s[i + 1..] by {
      var t := s[i + 1..];
      forall j | 0 <= j < |t| ensures t[j] != s[i] { assert t[j] == s[i + 1 + j]; }
    }
  }

  /** A permutation of a task list with dense orders has dense orders. */
  lemma DenseOrdersPermuted(a: seq<Task>, b: seq<Task>)
    requires multiset(a) == multiset(b) && DenseOrders(a)
    ensures DenseOrders(b)
  {
    assert |a| == |multiset(a)| == |multiset(b)| == |b|;
    forall k | 0 <= k < |b| ensures exists i :: 0 <= i < |a| && a[i] == b[k] {
      assert b[k] in multiset(b);
      assert b[k] in a;
    }
    forall x, y | 0 <= x < y < |b| ensures b[x].order != b[y].order {
      var i :| 0 <= i < |a| && a[i] == b[x];
      var j :| 0 <= j < |a| && a[j] == b[y];
      if b[x].order == b[y].order {
        if i != j {
          DistinctOrders(a, i, j);
        } else {
          forall m | 0 <= m < |a| && m != i ensures a[m] != a[i] {
            DistinctOrders(a, m, i);
          }
          CountOne(a, i);
          CountAtLeastTwo(b, x, y);
        }
      }
    }
  }

  /** In a list with dense orders sorted by order, each order is its position. */
  lemma SortedDenseOrdersAreIndices(s: seq<Task>, k: int)
    requires DenseOrders(s) && 0 <= k < |s|
    requires forall i, j :: 0 <= i < j < |s| ==> s[i].order <= s[j].order
    ensures s[k].order == k
  {
    OrderAtLeastIndex(s, k);
    OrderAtMostIndex(s, k);
  }

  lemma {:induction false} OrderAtLeastIndex(s: seq<Task>, k: int)
    requires DenseOrders(s) && 0 <= k < |s|
    requires forall i, j :: 0 <= i < j < |s| ==> s[i].order <= s[j].order
    ensures s[k].order >= k
  {
    if k > 0 {
      OrderAtLeastIndex(s, k - 1);
      assert s[k - 1].order != s[k].order;
    }
  }

  lemma {:induction false} OrderAtMostIndex(s: seq<Task>, k: int)
    requires DenseOrders(s) && 0 <= k < |s|
    requires forall i, j :: 0 <= i < j < |s| ==> s[i].order <= s[j].order
    ensures s[k].order <= k
    decreases |s| - k
  {
    if k < |s| - 1 {
      OrderAtMostIndex(s, k + 1);
      assert s[k].order != s[k + 1].order;
    }
  }

  /** Sorting a task list with dense orders puts the task of order k at position k. */
  lemma SortedByOrderIsByIndex(ts: seq<Task>)
    requires DenseOrders(ts)
    ensures forall k :: 0 <= k < |ts| ==> SortedByOrder(ts)[k].order == k
  {
    var s := SortedByOrder(ts);
    DenseOrdersPermuted(ts, s);
    forall k | 0 <= k < |s| ensures s[k].order == k {
      SortedDenseOrdersAreIndices(s, k);
    }
  }

  // ---------------------------------------------------------------------------------
  // Project.getStats

  datatype ProjectStats = ProjectStats(
    totalTasks: nat,
    totalCost: int,
    totalPrice: int,
    totalProfit: int,
    totalDays: int,
    endDate: Option<Day>)

  /** `tasks.reduce((sum, task) => sum + task.cost, 0)`. */
  function TotalCost(ts: seq<Task>): (total: int)
    ensures ts == [] ==> total == 0
    ensures |ts| == 1 ==> total == ts[0].cost
    decreases |ts|
  {
    if ts == [] then 0 else TotalCost(ts[..|ts| - 1]) + ts[|ts| - 1].cost
  }

  /** `tasks.reduce((sum, task) => sum + task.price, 0)`. */
  function TotalPrice(ts: seq<Task>): (total: int)
    ensures ts == [] ==> total == 0
    ensures |ts| == 1 ==> total == ts[0].price
    decreases |ts|
  {
    if ts == [] then 0 else TotalPrice(ts[..|ts| - 1]) + ts[|ts| - 1].price
  }

  /** Tasks that cost nothing negative and sell for nothing negative have non-negative totals. */
  lemma {:induction false} TotalsNonNegative(ts: seq<Task>)
    requires forall k :: 0 <= k < |ts| ==> ts[k].cost >= 0 && ts[k].price >= 0
    ensures TotalCost(ts) >= 0 && TotalPrice(ts) >= 0
    decreases |ts|
  {
    if ts != [] {
      var init := ts[..|ts| - 1];
      assert forall k :: 0 <= k < |init| ==> init[k] == ts[k];
      TotalsNonNegative(init);
    }
  }

  /** Totals split over a concatenation. */
  lemma {:induction false} TotalsAppend(a: seq<Task>, b: seq<Task>)
    ensures TotalCost(a + b) == TotalCost(a) + TotalCost(b)
    ensures TotalPrice(a + b) == TotalPrice(a) + TotalPrice(b)
    decreases |b|
  {
    if b != [] {
      var b' := b[..|b| - 1];
      TotalsAppend(a, b');
      assert (a + b)[..|a + b| - 1] == a + b';
      assert (a + b)[|a + b| - 1] == b[|b| - 1];
      assert TotalCost(a + b) == TotalCost(a + b') + b[|b| - 1].cost;
      assert TotalCost(b) == TotalCost(b') + b[|b| - 1].cost;
    } else {
      assert a + b == a;
    }
  }

  /** With consistent profits the total profit is the sum of the task profits. */
  lemma {:induction false} TotalProfitIsSumOfProfits(ts: seq<Task>)
    requires forall k :: 0 <= k < |ts| ==> ProfitConsistent(ts[k])
    ensures TotalPrice(ts) - TotalCost(ts) == TotalProfit(ts)
    decreases |ts|
  {
    if ts != [] {
      TotalProfitIsSumOfProfits(ts[..|ts| - 1]);
    }
  }

  /** The sum of the `profit` fields. */
  function TotalProfit(ts: seq<Task>): int {
    if ts == [] then 0 else TotalProfit(ts[..|ts| - 1]) + ts[|ts| - 1].profit
  }

  /** The last task of the tasks sorted by order. */
  function LastByOrder(ts: seq<Task>): (t: Task)
    requires ts != []
    ensures t in ts
    ensures forall k :: 0 <= k < |ts| ==> ts[k].order <= t.order
  {
    var sorted := SortedByOrder(ts);
    assert sorted[|sorted| - 1] in multiset(ts);
    forall k | 0 <= k < |ts| ensures ts[k].order <= sorted[|sorted| - 1].order {
      assert ts[k] in multiset(sorted);
    }
    sorted[|sorted| - 1]
  }

  /** `project.getStats()`. */
  function GetStats(p: ProjectData): (st: ProjectStats)
    ensures st.totalTasks == |p.tasks|
    ensures st.totalCost == TotalCost(p.tasks) && st.totalPrice == TotalPrice(p.tasks)
    ensures st.totalProfit == st.totalPrice - st.totalCost
    ensures st.endDate.Some? <==>
      p.tasks != [] && p.startDate.Some? && LastByOrder(p.tasks).endDate.Some?
    ensures st.endDate.Some? ==>
      && st.endDate == LastByOrder(p.tasks).endDate
      && st.totalDays == st.endDate.value - p.startDate.value + 1
    ensures st.endDate.None? ==> st.totalDays == 0
  {
    var cost, price := TotalCost(p.tasks), TotalPrice(p.tasks);
    if p.tasks != [] && p.startDate.Some? && LastByOrder(p.tasks).endDate.Some? then
      var end := LastByOrder(p.tasks).endDate.value;
      ProjectStats(|p.tasks|, cost, price, price - cost, end - p.startDate.value + 1, Some(end))
    else
      ProjectStats(|p.tasks|, cost, price, price - cost, 0, None)
  }

  // ---------------------------------------------------------------------------------
  // class Project: the same updates, done in place.

  class Project {
    var id: Id
    var name: string
    var description: string
    var startDate: Option<Day>
    var skipSaturday: bool
    var skipSunday: bool
    var tasks: seq<Task>

    /** The current field values. */
    function Data(): ProjectData
      reads this
    {
      ProjectData(id, name, description, startDate, skipSaturday, skipSunday, tasks)
    }

    /** `new Project(data)`; `freshId` stands for `generateId()`. */
    constructor (input: ProjectInput, freshId: Id)
      ensures Data() == NewProject(input, freshId)
    {
      id := if input.id.Some? then input.id.value else freshId;
      name := input.name.GetOr("");
      description := input.description.GetOr("");
      startDate := input.startDate;
      skipSaturday := input.skipSaturday.GetOr(false);
      skipSunday := input.skipSunday.GetOr(true);
      tasks := input.tasks.GetOr([]);
    }

    /** `addTask(taskData)`: appends one new task whose order is the old task count. */
    method AddTask(data: TaskData, freshId: Id) returns (task: Task)
      modifies this`tasks
      ensures tasks == WithTaskAdded(old(tasks), data, id, freshId)
      ensures task == tasks[|tasks| - 1]
      ensures old(DenseOrders(tasks)) ==> DenseOrders(tasks)
    {
      if DenseOrders(tasks) {
        AddKeepsOrdersDense(tasks, data, id, freshId);
      }
      task := NewTask(data.(projectId := Some(id), order := Some(|tasks|)), freshId);
      tasks := tasks + [task];
    }

    /** `removeTask(taskId)`: splices the task out, then closes the gap in the orders. */
    method RemoveTask(taskId: Id) returns (removed: bool)
      modifies this`tasks
      ensures removed <==> FindIndex(old(tasks), taskId) != -1
      ensures tasks == WithTaskRemoved(old(tasks), taskId)
      ensures old(DenseOrders(tasks)) ==> DenseOrders(tasks)
    {
      var taskIndex := FindIndex(tasks, taskId);
      if taskIndex == -1 {
        return false;
      }
      if DenseOrders(tasks) {
        RemoveKeepsOrdersDense(tasks, taskId);
      }
      var deletedOrder := tasks[taskIndex].order;
      tasks := tasks[..taskIndex] + tasks[taskIndex + 1..];
      CloseGap(deletedOrder);
      removed := true;
    }

    /** The renumbering `forEach` of `removeTask`: every order above the deleted one moves
        down by one. */
    method CloseGap(deletedOrder: int)
      modifies this`tasks
      ensures |tasks| == |old(tasks)|
      ensures forall j :: 0 <= j < |tasks| ==> tasks[j] == ClosedGap(old(tasks)[j], deletedOrder)
    {
      var k := 0;
      while k < |tasks|
        invariant 0 <= k <= |tasks| == |old(tasks)|
        invariant forall j :: 0 <= j < k ==> tasks[j] == ClosedGap(old(tasks)[j], deletedOrder)
        invariant forall j :: k <= j < |tasks| ==> tasks[j] == old(tasks)[j]
      {
        var task := tasks[k];
        if task.order > deletedOrder {
          task := task.(order := task.order - 1);
        }
        tasks := tasks[k := task];
        k := k + 1;
      }
    }

    /** The shifting `forEach` of `reorderTasks`: with the dragged task at order `from` and
        the target at order `to`, moves every order strictly between them, and `to`, one
        step towards `from`. */
    method ShiftOrders(from: int, to: int)
      modifies this`tasks
      ensures |tasks| == |old(tasks)|
      ensures forall j :: 0 <= j < |tasks| ==> tasks[j] == Shifted(old(tasks)[j], from, to)
    {
      var k := 0;
      while k < |tasks|
        invariant 0 <= k <= |tasks| == |old(tasks)|
        invariant forall j :: 0 <= j < k ==> tasks[j] == Shifted(old(tasks)[j], from, to)
        invariant forall j :: k <= j < |tasks| ==> tasks[j] == old(tasks)[j]
      {
        var task := tasks[k];
        if from < to {
          if task.order > from && task.order <= to {
            task := task.(order := task.order - 1);
          }
        } else {
          if task.order >= to && task.order < from {
            task := task.(order := task.order + 1);
          }
        }
        tasks := tasks[k := task];
        k := k + 1;
      }
    }

    /** `reorderTasks(draggedId, targetId)`: shifts the orders between the two tasks by one
        and gives the dragged task the target's order. */
    method ReorderTasks(draggedId: Id, targetId: Id) returns (moved: bool)
      modifies this`tasks
      ensures moved <==> FindIndex(old(tasks), draggedId) != -1 && FindIndex(old(tasks), targetId) != -1
      ensures tasks == WithTasksReordered(old(tasks), draggedId, targetId)
      ensures old(DenseOrders(tasks)) ==> DenseOrders(tasks)
    {
      var dragged := FindIndex(tasks, draggedId);
      var target := FindIndex(tasks, targetId);
      if dragged == -1 || target == -1 {
        return false;
      }
      if DenseOrders(tasks) {
        ReorderKeepsOrdersDense(tasks, draggedId, targetId);
      }
      ghost var before := tasks;
      var draggedOrder := tasks[dragged].order;
      var targetOrder := tasks[target].order;
      ShiftOrders(draggedOrder, targetOrder);
      ReorderedFromShifted(before, draggedId, targetId, tasks);
      tasks := tasks[dragged := tasks[dragged].(order := targetOrder)];
      moved := true;
    }
  }
}
