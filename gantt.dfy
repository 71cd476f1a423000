/**
 * src/components/Views/GanttChart.js: what the swim-lane Gantt chart derives from the
 * current project — the scheduled tasks, the day columns, the weekend shading, one lane
 * per category, and the position and width of each task bar (40 pixels per day).
 */
module Gantt {
  import opened Wrappers
  import opened Dates
  import opened Seqs
  import opened Types
  import opened Schedule

  /** Pixels per day column. */
  const DayWidth: int := 40

  /** The most day columns the chart shows (`generateDateRange`'s default cap). */
  const MaxDays: int := 60

  datatype GanttData = GanttData(scheduledTasks: seq<Task>, dateRange: seq<Day>)

  /** The `useMemo` derivation: nothing without a project, a start date and tasks; else the
      schedule, and days from the project start to the last scheduled task's end. */
  function GanttView(project: Option<ProjectData>): (g: GanttData)
    ensures project.None? || project.value.startDate.None? || project.value.tasks == []
            ==> g.scheduledTasks == [] && g.dateRange == []
    ensures project.Some? && project.value.startDate.Some? && project.value.tasks != [] ==>
      var p := project.value;
      && g.scheduledTasks == Schedule.Schedule(p.tasks, p.startDate, p.skipSaturday, p.skipSunday)
      && |g.scheduledTasks| == |p.tasks|
      && 1 <= |g.dateRange| <= MaxDays
      && (var span := g.scheduledTasks[|g.scheduledTasks| - 1].endDate.GetOr(p.startDate.value) - p.startDate.value + 1;
          |g.dateRange| == if span < MaxDays then span else MaxDays)
      && forall k :: 0 <= k < |g.dateRange| ==> g.dateRange[k] == p.startDate.value + k
  {
    if project.None? || project.value.startDate.None? || |project.value.tasks| == 0 then
      GanttData([], [])
    else
      var p := project.value;
      var start := p.startDate.value;
      var scheduled := Schedule.Schedule(p.tasks, p.startDate, p.skipSaturday, p.skipSunday);
      ScheduleShape(p.tasks, p.startDate, p.skipSaturday, p.skipSunday);
      var last := scheduled[|scheduled| - 1];
      var end := last.endDate.GetOr(start);
      assert start <= end by {
        AssignDatesFit(SortedByOrder(p.tasks), start, p.skipSaturday, p.skipSunday);
      }
      GanttData(scheduled, DateRange(start, end, MaxDays))
  }

  /** Every scheduled task lies between the project start and the last task's end, and the
      day columns number that span, capped at `MaxDays`: they cover every task exactly when
      the span is at most `MaxDays` days. */
  lemma GanttRangeCoversTasks(p: ProjectData)
    requires p.startDate.Some? && p.tasks != []
    ensures var g := GanttView(Some(p));
      var r := g.scheduledTasks;
      var start := p.startDate.value;
      var end := r[|r| - 1].endDate.GetOr(start);
      && r[|r| - 1].endDate.Some?
      && (forall k :: 0 <= k < |r| ==>
            && r[k].startDate.Some? && r[k].endDate.Some?
            && start <= r[k].startDate.value <= r[k].endDate.value <= end)
      && |g.dateRange| == (if end - start + 1 < MaxDays then end - start + 1 else MaxDays)
  {
    var sorted := SortedByOrder(p.tasks);
    forall k | 0 <= k < |sorted| {
      AssignedTaskWithinLast(sorted, p.startDate.value, p.skipSaturday, p.skipSunday, k);
    }
  }

  /** One task of the sequential assignment lies between the cursor and the last task's end. */
  lemma AssignedTaskWithinLast(ts: seq<Task>, cursor: Day, skipSaturday: bool, skipSunday: bool, k: int)
    requires 0 <= k < |ts|
    ensures var r := AssignDates(ts, cursor, skipSaturday, skipSunday);
      && r[k].startDate.Some? && r[k].endDate.Some? && r[|r| - 1].endDate.Some?
      && cursor <= r[k].startDate.value <= r[k].endDate.value <= r[|r| - 1].endDate.value
  {
    var r := AssignDates(ts, cursor, skipSaturday, skipSunday);
    AssignDatesFit(ts, cursor, skipSaturday, skipSunday);
    assert FitsDuration(r[k], skipSaturday, skipSunday);
    if k < |r| - 1 {
      AssignDatesNoOverlap(ts, cursor, skipSaturday, skipSunday, k, |r| - 1);
      assert FitsDuration(r[|r| - 1], skipSaturday, skipSunday);
    }
  }

  /** The `weekend` class of a day column. */
  predicate IsWeekendColumn(d: Day, skipSaturday: bool, skipSunday: bool) {
    (skipSunday && Weekday(d) == 0) || (skipSaturday && Weekday(d) == 6)
  }

  /** A column is shaded exactly when the scheduler skips that day. */
  lemma WeekendColumnIsRestDay(d: Day, skipSaturday: bool, skipSunday: bool)
    ensures IsWeekendColumn(d, skipSaturday, skipSunday) <==> !IsWorkingDay(d, skipSaturday, skipSunday)
  {
  }


  /** `[...new Set(scheduledTasks.map(t => t.category))]`: the lanes. */
  function Lanes(ts: seq<Task>): (lanes: seq<string>)
    ensures forall c :: c in lanes <==> exists k :: 0 <= k < |ts| && ts[k].category == c
    ensures forall i, j :: 0 <= i < j < |lanes| ==> lanes[i] != lanes[j]
  {
    var cats := seq(|ts|, k requires 0 <= k < |ts| => ts[k].category);
    assert forall c :: c in cats <==> exists k :: 0 <= k < |ts| && ts[k].category == c by {
      forall c | c in cats ensures exists k :: 0 <= k < |ts| && ts[k].category == c {
        var k :| 0 <= k < |cats| && cats[k] == c;
        assert ts[k].category == c;
      }
      forall c | exists k :: 0 <= k < |ts| && ts[k].category == c ensures c in cats {
        var k :| 0 <= k < |ts| && ts[k].category == c;
        assert cats[k] == c;
      }
    }
    Distinct(cats)
  }

  /** `scheduledTasks.filter(t => t.category === category)`: the bars of one lane. */
  function LaneTasks(ts: seq<Task>, category: string): (r: seq<Task>)
    ensures forall t :: t in r <==> t in ts && t.category == category
  {
    Filter(ts, (t: Task) => t.category == category)
  }

  /** Every task sits in exactly one lane, the lane of its category. */
  lemma LanesPartitionTasks(ts: seq<Task>, k: int)
    requires 0 <= k < |ts|
    ensures var lanes := Lanes(ts);
      && (exists i :: 0 <= i < |lanes| && lanes[i] == ts[k].category)
      && forall i :: 0 <= i < |lanes| ==> (ts[k] in LaneTasks(ts, lanes[i]) <==> lanes[i] == ts[k].category)
  {
    var lanes := Lanes(ts);
    assert ts[k].category in lanes;
  }

  /** A task bar: `left` and `width` in pixels. */
  datatype Bar = Bar(left: int, width: int)

  /** The bar of one task, or `null` when it starts before the project or past the last
      column. A missing date counts as day 0, as `null` does in date subtraction. */
  function TaskBar(projectStart: Day, t: Task, columns: int): (bar: Option<Bar>)
    ensures var startDay := t.startDate.GetOr(0) - projectStart;
      && (bar.Some? <==> 0 <= startDay < columns)
      && (bar.Some? ==>
            && bar.value.left == startDay * DayWidth
            && 0 <= bar.value.left < columns * DayWidth
            && bar.value.left + bar.value.width <= columns * DayWidth)
  {
    var startDay := t.startDate.GetOr(0) - projectStart;
    var endDay := t.endDate.GetOr(0) - projectStart;
    var duration := endDay - startDay + 1;
    if startDay < 0 || startDay >= columns then None
    else
      var width := if duration * DayWidth < (columns - startDay) * DayWidth
                   then duration * DayWidth else (columns - startDay) * DayWidth;
      Some(Bar(startDay * DayWidth, width))
  }

  /** A bar spans, 40 pixels each, exactly the task's days that have a column: from its start
      through its end, or through the last column when the task runs past it. */
  lemma BarCoversVisibleDays(projectStart: Day, t: Task, columns: int)
    requires t.startDate.Some? && t.endDate.Some? && t.startDate.value <= t.endDate.value
    requires 0 <= t.startDate.value - projectStart < columns
    ensures var bar := TaskBar(projectStart, t, columns);
      var lastShown := if t.endDate.value - projectStart < columns then t.endDate.value - projectStart else columns - 1;
      && bar.Some?
      && bar.value.width == (lastShown - (t.startDate.value - projectStart) + 1) * DayWidth
      && bar.value.width >= DayWidth
  {
  }
}
