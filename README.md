# Construction project scheduler — a verified model

This is a model of the core of a React application for planning renovation and construction projects. A project holds an ordered list of tasks. Each task has:

- a trade category (water and electricity, masonry, carpentry, painting, flooring);
- a duration in working days;
- a cost and a price;
- a status (planned, in progress, completed, blocked).

The application derives five views from that one list:

- a swim-lane Gantt chart;
- a month calendar;
- a task table;
- a board by category;
- a board by status.

A list of projects shows each project's statistics.

The model covers these parts of the source:

- **The business-day scheduler.** It lays the tasks end to end in `order`, skipping Sundays and optionally Saturdays. It also formats dates and builds the Gantt chart's day columns.
- **The data model.** The `Task` constructor and the `Project` class. `Project`'s `addTask`, `removeTask` and `reorderTasks` keep the `order` fields a dense numbering.
- **The application state.** `projectReducer` in all its cases, `createTestProject` and the current-project lookup.
- **What each view computes.** Bar geometry and lanes in the Gantt chart. The month grid, the tasks of a day and month navigation in the calendar. The status cycle, the sorted table and view titles in the task list. The column partitions of both boards. The statistics fallback of the project list.

Modelling choices:

- **Dates** are whole day numbers (`Dates.Day`, day 0 = 1970-01-01). The civil calendar (`Dates.CivilDate`: year, month 0..11, day) is the proleptic Gregorian calendar that JavaScript's `Date` uses.
- **Pure values.** Tasks and projects are values (`Types.Task`, `Types.ProjectData`). The reducer is a pure function `ProjectContext.Reduce`.
- **Mutating code stays imperative.** Code that mutates is modelled as such:
  - `Types.Project` is a class whose methods reassign its `tasks` field. Each method is proved against a pure function of the old task list, and the reducer uses those same functions.
  - The scheduler's cursor loops are methods with loop invariants: `Schedule.CalculateProjectSchedule`, `Schedule.CountOffWorkingDays` and `Schedule.SkipToWorkingDay`.
  - So are `generateDateRange` (`Schedule.GenerateDateRange`), the calendar's three filling loops (`Calendar.FillMonth`) and the `addTask` loop of `createTestProject` (`ProjectContext.CreateTestProject`).
- **Inputs from the environment.** Values the source takes from the clock or from `Math.random()` are parameters: fresh ids, and "today" for the test project and the calendar's reset.

Modules, one per file:

| Module | File | Contents |
|---|---|---|
| `Wrappers` | wrappers.dfy | `Option` |
| `Dates` | dates.dfy | day numbers, weekdays, month lengths, civil dates |
| `Seqs` | seqs.dfy | `filter`, a stable `sort`, `indexOf`, `map`, distinct values, the key cycle |
| `Types` | types.dfy | src/types/index.js |
| `Schedule` | schedule.dfy | src/utils/scheduleCalculator.js |
| `ProjectContext` | context.dfy | src/context/ProjectContext.js |
| `Gantt` | gantt.dfy | src/components/Views/GanttChart.js |
| `Calendar` | calendar.dfy | src/components/Views/Calendar.js |
| `TaskList` | tasklist.dfy | src/components/Task/TaskList.js |
| `CategoryKanban` | category_kanban.dfy | src/components/Views/CategoryKanban.js |
| `StatusKanban` | status_kanban.dfy | src/components/Views/StatusKanban.js |
| `ProjectList` | project_list.dfy | src/components/Project/ProjectList.js |

## Model

| member | source | states |
|---|---|---|
| Dates.Weekday | src/utils/scheduleCalculator.js:5 | `getDay()` of a date is a weekday 0 (Sunday) to 6 (Saturday) |
| Dates.WeekdayNext | src/utils/scheduleCalculator.js:31 | moving a date on by one day moves its weekday on by one, from Saturday back to Sunday |
| Dates.DaysInMonth | src/components/Views/Calendar.js:49 | a month has 28 to 31 days, and 29 exactly for February of a leap year |
| Dates.MonthStartNext | src/components/Views/Calendar.js:48-49 | the first of the next month (January of the next year after December) follows the last day of this month |
| Dates.DayNumberNormal | src/components/Views/Calendar.js:63 | `new Date(year, month, day)`: day d is d − 1 days after the first, and day d of month m + 1 counts on from the end of month m |
| Dates.CivilOf | src/components/Views/Calendar.js:45-46 | every day number has a valid civil date (year, month 0..11, day within the month) that denotes it |
| Dates.CivilRoundTrip | src/components/Views/Calendar.js:45-46 | turning a valid civil date into a day number and back returns the same date |
| Dates.DayOfInjective | src/components/Views/Calendar.js:45-46 | two valid civil dates with the same day number are the same date |
| Dates.CivilOfInMonth | src/components/Views/Calendar.js:62-65 | a day lying within month m of year y reads back as that year and month, with day of month = offset + 1 |
| Dates.AddMonths | src/components/Views/Calendar.js:39 | adding n months normalises to a month 0..11 exactly n months later |
| Dates.SetMonth | src/components/Views/Calendar.js:39 | `setMonth` always yields a valid calendar date |
| Dates.SetMonthKeepsDay | src/components/Views/Calendar.js:39 | when the target month has the day, `setMonth(m + n)` lands on that day of the month n months later |
| Dates.LastDayOfMonth | src/components/Views/Calendar.js:49 | `new Date(year, month + 1, 0)` is the last day of the month, and its `getDate()` is the month's length |
| Seqs.Filter | src/components/Views/CategoryKanban.js:72-73 | `filter` keeps exactly the elements satisfying the predicate, never more than the input |
| Seqs.FilterAppend | src/components/Views/StatusKanban.js:63 | filtering a concatenation filters each part and concatenates the results, so the kept elements stay in their input order |
| Seqs.FilterNone | src/components/Views/Calendar.js:79 | filtering keeps nothing when no element satisfies the predicate |
| Seqs.FilterAtMostOne | src/components/Views/Calendar.js:79 | when no two positions both satisfy the predicate, the filter keeps at most one element |
| Seqs.FilterCons | src/components/Views/StatusKanban.js:63 | a head is kept, in front of the filtered rest, exactly when it satisfies the predicate |
| Seqs.FilterMultiset | src/components/Views/StatusKanban.js:63 | `filter` keeps every satisfying element as many times as it occurs, and no other |
| Seqs.SortBy | src/utils/scheduleCalculator.js:15 | the sort by an integer key returns a permutation of its input in ascending key order |
| Seqs.SortSortedIsIdentity | src/utils/scheduleCalculator.js:15 | sorting a list already in key order leaves it unchanged |
| Seqs.InsertKeyClass | src/utils/scheduleCalculator.js:15 | inserting an element keeps the elements of any one key in their order, with the inserted one in front of its key's elements |
| Seqs.SortByStable | src/utils/scheduleCalculator.js:15 | the sort is stable: the elements sharing any one key come out in their input order |
| Seqs.SortByMap | src/components/Project/ProjectList.js:39 | sorting commutes with a map that keeps the sort key |
| Seqs.IndexOf | src/components/Task/TaskList.js:146 | `indexOf` is −1 exactly for an absent value, else the first position holding it |
| Seqs.CyclicSuccIsMod | src/components/Task/TaskList.js:147 | the next position in the cycle is `(index + 1) % length`, including from −1 (not found) |
| Seqs.NextKey | src/components/Task/TaskList.js:145-148 | the value after x in a cycle of keys is a key, and the first key when x is not one |
| Seqs.NextKeyStep | src/components/Task/TaskList.js:146-148 | among distinct keys, the key at position j is followed by the key at the next position round the cycle |
| Seqs.AdvanceAlongCycle | src/components/Task/TaskList.js:144-150 | n steps from the key at position j reach the key n positions further round the cycle |
| Seqs.Distinct | src/components/Views/GanttChart.js:62 | `[...new Set(s)]` holds each value of s, and each once |
| Seqs.DistinctInFirstAppearanceOrder | src/components/Views/GanttChart.js:62 | the distinct values come in the order of their first occurrence |
| Types.KeyLookup | src/types/index.js:2-16 | looking up a key in `CATEGORIES` or `TASK_STATUS` finds a name exactly for the keys of the table, and the name listed with that key |
| Types.CategoryKeysDistinct | src/types/index.js:2-8 | no category key occurs twice |
| Types.StatusKeysDistinct | src/types/index.js:11-16 | no status key occurs twice |
| Types.NewTask | src/types/index.js:29-54 | a new task has profit = price − cost; it takes the given id (else the fresh one), the given project id and dates, and every given category, name, duration, cost, price, order and status; a field not given defaults to category `water-electric`, name empty, duration 1, cost 0, price 0, order 0 and status `planned` |
| Types.UpdateProfit | src/types/index.js:61-63 | `updateProfit` restores profit = price − cost and changes nothing else |
| Types.NewProject | src/types/index.js:68-88 | the project constructor takes the given id (else the fresh one) and start date, keeps every given name, description, skip flag and task list, and defaults to an empty name and description, not skipping Saturday, skipping Sunday and no tasks |
| Types.CopyProjectIsIdentity | src/types/index.js:68-88 | `new Project(project)` reproduces the project, whatever id would have been generated |
| Types.FindIndex | src/types/index.js:138 | `findIndex` is −1 exactly when no task has the id, else the first task with it |
| Types.WithTaskAdded | src/types/index.js:125-134 | `addTask` appends one task after the untouched old ones, with order = old task count, the project's id and a consistent profit |
| Types.AddKeepsOrdersDense | src/types/index.js:125-134 | after `addTask`, orders 0..n−1 without repeats become 0..n without repeats |
| Types.WithTaskRemoved | src/types/index.js:137-139 | `removeTask` of an unknown id changes nothing; a known id removes exactly one task |
| Types.RemoveShape | src/types/index.js:141-149 | after a removal, each remaining task is the old one at its shifted position, with its order lowered by one exactly when it was above the removed task's order |
| Types.RemoveKeepsOrdersDense | src/types/index.js:141-149 | removal turns dense orders 0..n−1 into dense orders 0..n−2 |
| Types.WithTasksReordered | src/types/index.js:157-160 | `reorderTasks` changes nothing when either id is missing, and always keeps the task count |
| Types.ReorderShiftsRange | src/types/index.js:162-179 | the dragged task takes the target's order; moving forward lowers the orders in (dragged, target] by one, moving back raises [target, dragged) by one; all other orders and every other field stay |
| Types.ReorderOntoItselfIsNoop | src/types/index.js:172-179 | reordering a task onto itself leaves the list unchanged |
| Types.ReorderKeepsOrdersDense | src/types/index.js:162-179 | reordering keeps the orders a dense permutation 0..n−1 |
| Types.SortedByOrder | src/types/index.js:105 | the sort by `order` on a copy returns a permutation of the tasks, ascending by order |
| Types.SortedByOrderIsByIndex | src/components/Task/TaskList.js:82 | with dense orders, the k-th task after sorting has order k |
| Types.DenseOrdersPermuted | src/components/Task/TaskList.js:82 | a permutation of a list with dense orders has dense orders |
| Types.LastByOrder | src/types/index.js:105-106 | the last task after sorting by order is a task of the list with the largest order |
| Types.TotalCost | src/types/index.js:97 | the cost total of no tasks is 0, and of one task its cost |
| Types.TotalPrice | src/types/index.js:98 | the price total of no tasks is 0, and of one task its price |
| Types.TotalsNonNegative | src/types/index.js:97-98 | tasks with no negative cost or price have non-negative totals |
| Types.TotalsAppend | src/types/index.js:97-98 | the cost and price sums split over a concatenation |
| Types.TotalProfitIsSumOfProfits | src/types/index.js:97-99 | when every task's profit is price − cost, the total profit is also the sum of the task profits |
| Types.GetStats | src/types/index.js:95-121 | `getStats`: task count, total cost and total price as the sums over the tasks, total profit = total price − total cost; there is an end date exactly when there are tasks, a start date and a last task (by order) with an end date; then totalDays is the inclusive span from the start to it, and otherwise 0 |
| Types.Project.constructor | src/types/index.js:68-88 | a new `Project` holds the values of the constructor function |
| Types.Project.AddTask | src/types/index.js:125-134 | the method's new task list is `WithTaskAdded` of the old one, it returns the appended task, and it keeps orders dense |
| Types.Project.RemoveTask | src/types/index.js:137-153 | returns whether the id was found; the new list is `WithTaskRemoved` of the old one, with orders kept dense |
| Types.Project.CloseGap | src/types/index.js:145-149 | the renumbering loop lowers each order above the deleted one by one, task by task |
| Types.Project.ShiftOrders | src/types/index.js:165-179 | the shifting loops move each order in the affected range by one, task by task |
| Types.Project.ReorderTasks | src/types/index.js:156-183 | returns whether both ids were found; the new list is `WithTasksReordered` of the old one, with orders kept dense |
| Schedule.IsWorkingDay | src/utils/scheduleCalculator.js:4-9 | a day is not a working day exactly when it is a skipped Sunday or a skipped Saturday |
| Schedule.NoThreeRestDays | src/utils/scheduleCalculator.js:4-9 | of any three consecutive days one is a working day, and Monday to Friday always are |
| Schedule.FirstWorkingDayFrom | src/utils/scheduleCalculator.js:39-41 | the first working day on or after d is at most two days later, with only rest days before it |
| Schedule.NextWorkingDay | src/utils/scheduleCalculator.js:36-41 | the cursor after an end date is the first working day strictly after it, at most three days on |
| Schedule.WorkEnd | src/utils/scheduleCalculator.js:21-32 | the k-th working day from d is a working day, not before d, with exactly k working days from d to it |
| Schedule.EndDate | src/utils/scheduleCalculator.js:21-34 | a task of duration ≥ 1 ends on a working day, not before its start, after exactly `duration` working days; duration ≤ 0 ends on the start |
| Schedule.AssignDates | src/utils/scheduleCalculator.js:18-42 | every task of the list gets its dates: one result task per input task |
| Schedule.Schedule | src/utils/scheduleCalculator.js:12-45 | one task out per task in; no project start returns the tasks unchanged; with a start every task gets both dates, none before the project start, and the first starts on it |
| Schedule.AssignDatesFit | src/utils/scheduleCalculator.js:18-42 | the assignment changes only dates; every task gets dates fitting its duration, none before the cursor, and the first task starts on the cursor itself |
| Schedule.AssignDatesChained | src/utils/scheduleCalculator.js:36-41 | each later task starts on the first working day after the previous task's end |
| Schedule.AssignDatesNoOverlap | src/utils/scheduleCalculator.js:18-42 | every task ends strictly before any later task starts |
| Schedule.AssignDatesIgnoresOldDates | src/utils/scheduleCalculator.js:18-42 | the dates assigned do not depend on the dates the tasks had before |
| Schedule.ScheduleShape | src/utils/scheduleCalculator.js:12-45 | no start date or no tasks returns the input unchanged; otherwise the result is the tasks ascending by order (a permutation, only dates changed), each fitting its duration, and the first starting on the project start even when that is a rest day |
| Schedule.ScheduleNoOverlap | src/utils/scheduleCalculator.js:36-41 | every later task starts on the working day after its predecessor ends, and no two tasks overlap |
| Schedule.ScheduleIdempotent | src/utils/scheduleCalculator.js:18-42 | scheduling the scheduler's own output gives the same list again |
| Schedule.ScheduleExample | src/utils/scheduleCalculator.js:21-41 | with Sundays skipped, a 3-day task from Friday 2025-08-22 skips the Sunday and ends on Monday the 25th |
| Schedule.CountOffWorkingDays | src/utils/scheduleCalculator.js:21-34 | the counting loop ends on `EndDate` of the start and the duration |
| Schedule.SkipToWorkingDay | src/utils/scheduleCalculator.js:36-41 | the cursor loop stops on `NextWorkingDay` of the end date |
| Schedule.CalculateProjectSchedule | src/utils/scheduleCalculator.js:12-45 | the imperative scheduler returns exactly the schedule whose properties the lemmas above state |
| Schedule.DateRange | src/utils/scheduleCalculator.js:60-71 | the range is min(inclusive day count, maxDays) consecutive days from the start, and empty when the end precedes the start |
| Schedule.GenerateDateRange | src/utils/scheduleCalculator.js:60-71 | the pushing loop builds exactly that range |
| Schedule.DecimalRoundTrip | src/utils/scheduleCalculator.js:50 | the decimal digits written for a number read back as that number |
| Schedule.FormatDate | src/utils/scheduleCalculator.js:48-51 | a missing date formats as `-` |
| Schedule.FormatDateReadsBack | src/utils/scheduleCalculator.js:48-51 | a formatted date reads back as exactly its month (1..12) and day of month; `-` reads back as no date |
| Schedule.FormatDateDashIffMissing | src/components/Task/TaskList.js:153-156 | the text is `-` exactly for a missing date |
| Schedule.GetWeekdayName | src/utils/scheduleCalculator.js:54-57 | a name exists exactly for weekdays 0..6 |
| Schedule.WeekdayNamesDistinct | src/utils/scheduleCalculator.js:55 | different weekdays have different names |
| Gantt.GanttView | src/components/Views/GanttChart.js:16-33 | with no project, start date or tasks both lists are empty; otherwise the tasks are the schedule and the columns are consecutive days from the project start, as many as the days from the start to the last scheduled task's end, capped at 60 |
| Gantt.GanttRangeCoversTasks | src/components/Views/GanttChart.js:28-30 | every scheduled task lies between the project start and the last task's end, and there are min(that span in days, 60) columns, so they run to that end whenever it is at most 60 days away |
| Gantt.AssignedTaskWithinLast | src/components/Views/GanttChart.js:28-29 | each scheduled task lies between the start and the last task's end date |
| Gantt.WeekendColumnIsRestDay | src/components/Views/GanttChart.js:72-74 | a column is shaded as weekend exactly when the scheduler skips that day |
| Gantt.Lanes | src/components/Views/GanttChart.js:62 | the lanes are the tasks' categories, each once |
| Gantt.LaneTasks | src/components/Views/GanttChart.js:91 | a lane holds exactly the tasks of its category |
| Gantt.LanesPartitionTasks | src/components/Views/GanttChart.js:62-91 | every task sits in exactly one lane, the lane of its category |
| Gantt.TaskBar | src/components/Views/GanttChart.js:115-126 | a bar is drawn exactly when 0 ≤ startDay < column count; then left = 40 × startDay and the bar ends within the last column |
| Gantt.BarCoversVisibleDays | src/components/Views/GanttChart.js:118-126 | a drawn bar is 40 px per day from the task's start to its end, cut off at the last column, and at least one day wide |
| Calendar.CalendarTasks | src/components/Views/Calendar.js:12-23 | the calendar's schedule is empty without a project, start date or tasks, and the scheduler's output otherwise |
| Calendar.CalendarMatchesGantt | src/components/Views/Calendar.js:12-23 | the calendar shows the same scheduled tasks as the Gantt chart |
| Calendar.DayTasks | src/components/Views/Calendar.js:79-85 | a task is listed on a day exactly when it has both dates and the day lies between them inclusive |
| Calendar.CreateCalendarDay | src/components/Views/Calendar.js:78-95 | a cell carries its date and month flag, is a weekend exactly on Saturday or Sunday (whatever the project skips), and lists the day's tasks |
| Calendar.ScheduledDayHasOneTaskAtMost | src/components/Views/Calendar.js:79-85 | because scheduled tasks never overlap, any two tasks listed on a day of the calendar are the same task |
| Calendar.ScheduledDayListsAtMostOne | src/components/Views/Calendar.js:79-85 | a day of a scheduled project's calendar lists at most one task, and none twice |
| Calendar.CellCount | src/components/Views/Calendar.js:68 | the grid is the least whole number of weeks holding the leading days and the month |
| Calendar.RenderCalendar | src/components/Views/Calendar.js:44-76 | `renderCalendar` returns exactly the cells of the grid of the month the current date is in |
| Calendar.FillMonth | src/components/Views/Calendar.js:52-75 | the three loops fill the cells of the grid: leading days, the month, trailing days, in whole weeks |
| Calendar.GridCell | src/components/Views/Calendar.js:52-75 | cell k is the k-th day from the Sunday before the first of the month; it is flagged as another month's exactly when its date lies outside the month, is a weekend exactly in the first and last column, and lists the tasks running on its date |
| Calendar.GridColumnsAreWeekdays | src/components/Views/Calendar.js:55-59 | cell k falls on weekday k mod 7, so the first cell is a Sunday and columns match the weekday header |
| Calendar.GridShowsEachDayOfMonth | src/components/Views/Calendar.js:62-65 | every day of the month appears in its own cell, in order, flagged as this month |
| Calendar.GridOtherMonthFlag | src/components/Views/Calendar.js:55-73 | a cell is flagged as another month's exactly when its date lies outside the month |
| Calendar.NavigateMonthAsWritten | src/components/Views/Calendar.js:34-42 | as written: 0 goes to today, and any other direction gives a valid date |
| Calendar.ShiftMonthAsWritten | src/components/Views/Calendar.js:39 | as written, the shift always yields a valid calendar date |
| Calendar.ShiftMonthAsWrittenWhenDayExists | src/components/Views/Calendar.js:39 | as written, when the target month has the day, the shift moves by exactly `direction` months and keeps the day |
| Calendar.NextMonthSkipsFebruary | src/components/Views/Calendar.js:39 | as written, "next month" from January 31st of a common year shows March |
| Calendar.PreviousMonthStaysInMarch | src/components/Views/Calendar.js:39 | as written, "previous month" from March 31st of a common year stays in March |
| Calendar.ClampDay | src/components/Views/Calendar.js:39 | the kept day of month is the day itself when the month has it, else the month's last day |
| Calendar.ShiftMonth | src/components/Views/Calendar.js:39 | the corrected shift lands exactly `direction` months away, on a valid date, with the day clamped to that month |
| Calendar.NavigateMonth | src/components/Views/Calendar.js:34-42 | corrected navigation: 0 goes to today, ±n shows the month n months away |
| Calendar.ShiftMonthAgreesWhenDayExists | src/components/Views/Calendar.js:39 | wherever the target month has the day, the corrected shift does what the code does |
| Calendar.NextMonthPresses | src/components/Views/Calendar.js:34-42 | repeated "next month" presses always give a valid date |
| Calendar.NextMonthPressesCount | src/components/Views/Calendar.js:34-42 | n presses of "next month" show the n-th month after the current one |
| ProjectContext.Merge | src/context/ProjectContext.js:91-95 | `{ ...task, ...updates }` keeps id and project, keeps profit and order unless the update names them, and takes the update's status |
| ProjectContext.StatusPatchChangesOnlyStatus | src/context/ProjectContext.js:91-95 | a status-only update changes the status and nothing else, so profit stays consistent |
| ProjectContext.CostPatchLeavesProfitStale | src/context/ProjectContext.js:91-95 | profit is not recomputed: updating only the cost of a consistent task leaves profit ≠ price − cost |
| ProjectContext.MapProjects | src/context/ProjectContext.js:74-81 | the projects with the id are transformed and all others are left as they were, positions unchanged |
| ProjectContext.MapTasks | src/context/ProjectContext.js:91-95 | the tasks with the id are merged with the update and all others are left as they were |
| ProjectContext.AddedTasks | src/context/ProjectContext.js:185-187 | adding a list of task data one by one yields one task per item |
| ProjectContext.AddedTasksStep | src/context/ProjectContext.js:185-187 | adding one more item of task data appends exactly that item's task |
| ProjectContext.AddedTaskAt | src/context/ProjectContext.js:185-187 | the k-th added task is the k-th item, numbered k and tied to the project |
| ProjectContext.TestProjectShape | src/context/ProjectContext.js:147-190 | the test project starts today, skips Sundays only, and holds the 24 sample tasks with orders 0..23, its id and consistent profits |
| ProjectContext.CreateTestProject | src/context/ProjectContext.js:147-190 | the `addTask` loop builds exactly the test project |
| ProjectContext.Reduce | src/context/ProjectContext.js:32-144 | an unknown action changes nothing; `SET_ERROR` and `SET_PROJECTS` clear loading; each field changes only under the actions that write it |
| ProjectContext.ProjectIndex | src/context/ProjectContext.js:283 | the position found is −1 exactly when no project has the id, else the first one with it |
| ProjectContext.CurrentProject | src/context/ProjectContext.js:282-284 | `getCurrentProject()` is a listed project with the current id, and null exactly when there is no current id or no project has it |
| ProjectContext.AddProjectSelectsIt | src/context/ProjectContext.js:43-48 | `ADD_PROJECT` appends the project and selects it; with a new id it is then the current project |
| ProjectContext.UpdateProjectReplaces | src/context/ProjectContext.js:50-56 | `UPDATE_PROJECT` replaces the projects with the id in place, keeping length, order and ids |
| ProjectContext.DeleteProjectOutcome | src/context/ProjectContext.js:58-66 | `DELETE_PROJECT` removes exactly the projects with the id; a deleted current project is replaced by the first remaining one, or none; otherwise the selection stays |
| ProjectContext.UpdateTaskOnlyMatching | src/context/ProjectContext.js:84-102 | `UPDATE_TASK` merges the update into the matching tasks of the matching projects only; everything else is unchanged |
| ProjectContext.TaskActionsOnlyMatching | src/context/ProjectContext.js:71-128 | `ADD_TASK`, `DELETE_TASK` and `REORDER_TASKS` apply the `Project` method's task-list change to the matching projects only |
| ProjectContext.GenerateTestDataAppends | src/context/ProjectContext.js:133-139 | `GENERATE_TEST_DATA` appends the test project with 24 densely ordered tasks and selects it |
| ProjectContext.ReducePreservesInvariant | src/context/ProjectContext.js:32-144 | every action whose payload is admissible keeps the selection pointing at a project and every project's orders dense |
| ProjectContext.InitialStateInvariant | src/context/ProjectContext.js:6-12 | the initial state satisfies the invariant and has no current project |
| TaskList.NextStatus | src/components/Task/TaskList.js:144-148 | the next status is always one of the four, and `planned` for an unknown status |
| TaskList.StatusCycle | src/components/Task/TaskList.js:145-148 | planned → in-progress → completed → blocked → planned |
| TaskList.FourClicksComeBack | src/components/Task/TaskList.js:145-148 | four clicks bring a known status back to itself |
| TaskList.ClicksSettleInCycle | src/components/Task/TaskList.js:146-147 | after one click any status, known or not, is in the cycle, and four more clicks return to it |
| TaskList.ChangeTaskStatus | src/components/Task/TaskList.js:144-151 | the dispatched action is an `UPDATE_TASK` for the given ids, carrying the next status and no order |
| TaskList.ChangeTaskStatusEffect | src/components/Task/TaskList.js:150 | dispatching it sets the next status on the matching tasks and changes nothing else |
| TaskList.TaskTable | src/components/Task/TaskList.js:70-142 | empty state exactly for no tasks; otherwise one row per task, a permutation of the tasks, ascending by order, numbered 1..n |
| TaskList.RowNumberIsOrderPlusOne | src/components/Task/TaskList.js:102-104 | with dense orders each row's number is its task's order + 1 |
| TaskList.DateCellsDashIffMissing | src/components/Task/TaskList.js:113-114 | a date cell shows `-` exactly when the date is missing |
| TaskList.NameCells | src/components/Task/TaskList.js:106 | the category and status cells show a name exactly for known keys |
| TaskList.ViewKeysDistinct | src/components/Task/TaskList.js:158-167 | no view key occurs twice in the title table |
| TaskList.GetViewTitle | src/components/Task/TaskList.js:158-167 | each known view gets its own title from the table, any other view the fallback title |
| TaskList.TaskListView | src/components/Task/TaskList.js:6-68 | without a current project a prompt; in the list view the table of the current project; otherwise a placeholder titled after the view |
| TaskList.BackToListShowsTable | src/components/Task/TaskList.js:55-67 | the placeholder's button leads to the table of the same project |
| CategoryKanban.CategoryTasks | src/components/Views/CategoryKanban.js:72-74 | a column's cards all have its category and are ascending by order |
| CategoryKanban.CategoryTasksCount | src/components/Views/CategoryKanban.js:72-74 | a column holds each task of its category as often as the project does, and no other task |
| CategoryKanban.CategoryColumns | src/components/Views/CategoryKanban.js:71-74 | one column per category, in the declared order, with its name and cards |
| CategoryKanban.CategoryColumnsPartition | src/components/Views/CategoryKanban.js:71-74 | a task appears on the board exactly when its category is known, and then in that one column only, as often as in the project |
| CategoryKanban.AfterLastSpace | src/components/Views/CategoryKanban.js:84 | the name after its last space is a space-free suffix, the whole name when it has no space, and preceded by a space otherwise |
| CategoryKanban.EmptyColumnText | src/components/Views/CategoryKanban.js:82-85 | an empty column reads `暫無` followed by the part of its name after the last space, a space-free suffix of the name; a name without a space is shown whole |
| CategoryKanban.CardSchedule | src/components/Views/CategoryKanban.js:26 | a card shows `start ~ end`, or `尚未排程` without a start date |
| CategoryKanban.CardScheduleUnscheduled | src/components/Views/CategoryKanban.js:26 | the unscheduled text appears exactly for a task without a start date |
| CategoryKanban.GetStatusText | src/components/Views/CategoryKanban.js:58-66 | a known status shows its name, an unmapped status shows itself |
| CategoryKanban.StatusClick | src/components/Views/CategoryKanban.js:46-56 | an unknown task id dispatches nothing; otherwise the update of the first matching task to its next status |
| CategoryKanban.CategoryKanbanView | src/components/Views/CategoryKanban.js:11-18 | a prompt exactly without a current project, otherwise the columns of its tasks |
| StatusKanban.StatusTasks | src/components/Views/StatusKanban.js:63 | a column's cards all have its status |
| StatusKanban.StatusTasksCount | src/components/Views/StatusKanban.js:63 | a column holds each task of its status as often as the project does, and no other task |
| StatusKanban.StatusColumns | src/components/Views/StatusKanban.js:49-69 | four columns in the fixed status order, each with its title and cards, its count being its number of cards |
| StatusKanban.StatusColumnsPartition | src/components/Views/StatusKanban.js:62-63 | a task with a known status is in exactly its status's column, as often as in the project; any other task is in none |
| StatusKanban.CountsAddUp | src/components/Views/StatusKanban.js:69 | the four counts add up to the number of tasks with a known status |
| StatusKanban.CardClick | src/components/Views/StatusKanban.js:37-47 | a card click on an unknown id dispatches nothing; otherwise a status-only update to the next status |
| StatusKanban.StatusKanbanView | src/components/Views/StatusKanban.js:11-18 | a prompt exactly without a current project, otherwise its name and four columns |
| ProjectList.PlainLast | src/components/Project/ProjectList.js:39-40 | the last task sorted by `order` or 0 is a task of the list with the largest such order |
| ProjectList.FallbackStats | src/components/Project/ProjectList.js:30-57 | task count (0 without tasks), cost and price as the hand sums (missing values as 0, no task list as 0), profit = price − cost; an end date exactly when there are tasks, a start and a last task with an end, totalDays being the inclusive span, else 0 |
| ProjectList.CalculateStats | src/components/Project/ProjectList.js:24-58 | delegates to `getStats` for a `Project` and to the fallback for a plain object; profit = price − cost in both |
| ProjectList.PlainCost | src/components/Project/ProjectList.js:31 | the hand-summed cost of no tasks is 0, and of one task its cost, 0 when it has none |
| ProjectList.PlainPrice | src/components/Project/ProjectList.js:32 | the hand-summed price of no tasks is 0, and of one task its price, 0 when it has none |
| ProjectList.PlainTotalsAppend | src/components/Project/ProjectList.js:31-32 | the hand-summed cost and price split over a concatenation |
| ProjectList.PlainTotalsOfTasks | src/components/Project/ProjectList.js:31-32 | the fallback's sums of a written-out task list equal the totals of `getStats` |
| ProjectList.PlainLastOfTasks | src/components/Project/ProjectList.js:39-40 | the fallback's last task is the written-out last task by order |
| ProjectList.FallbackAgreesWithGetStats | src/components/Project/ProjectList.js:24-58 | a project written out as a plain object gets the same statistics as from `getStats` |
| ProjectList.ProjectListView | src/components/Project/ProjectList.js:60-104 | the empty state exactly for no projects; otherwise one entry per project with its id and statistics, active exactly for the current id, and a finish date exactly when there is an end date, formatted |
| ProjectList.ClickSelectsProject | src/components/Project/ProjectList.js:69 | clicking an entry makes it the current project and leaves the list unchanged |
| ProjectList.EmptyListButton | src/components/Project/ProjectList.js:7-21 | the empty list's button creates the test project, listed and current, with 24 tasks |

## Left out

- Drag, resize and cascading of task bars. No file of the application implements them: GanttChart.js has no pointer handlers. Only the browser scripts at the top of the repository exercise them, and those scripts are not modelled. The bar width is the code's 40 pixels per day.
- The browser automation scripts (`*-test.js`, `verify-gantt.js`, `debug-error.js` and the like). They drive a live browser and contain no application logic.
- Persistence through `localStorage`. The React provider, `useEffect`, `useCallback` and all JSX are left out. The action creators are the `ProjectContext.Action` constructors.
- The `updateProject` action creator's merge of partial updates into a found project. The model's `UPDATE_PROJECT` payload is the complete replacement project.
- The forms (TaskForm.js, ProjectForm.js), the header, the error boundary and the version banner. They are UI only.
- Generated ids, timestamps and today's date. `Date.now()`/`Math.random()` ids become parameters that are assumed fresh. `createdAt` and `updatedAt` are not modelled. Today's date for the test project and for the calendar's "today" button is a parameter.
- Types.Project: the `updatedAt` stamp that each method writes is not modelled.
- Aliasing and in-place mutation of shared objects, which the model does not capture:
  - `new Project(project)` shares the old state's `tasks` array, so `addTask`, `removeTask` and `reorderTasks` in the reducer also change the previous state's list.
  - `calculateProjectSchedule` writes `startDate` and `endDate` into the project's own task objects, so dates appear in the table after a chart has been shown.

  The model is value-based: the reducer builds new values, and the scheduler returns dated copies.
- Schedule.CalculateProjectSchedule: the early return gives back the same array object. Its identity is not modelled, only its contents.
- Millisecond date arithmetic, `Math.floor`/`Math.ceil` of millisecond differences, time zones and daylight-saving shifts. A date is modelled as a whole day. Dates are not all at midnight: `createTestProject` starts the test project at the current time (src/context/ProjectContext.js:150), and the project form parses `YYYY-MM-DD` as UTC midnight (src/components/Project/ProjectForm.js:32). Every task date is the project start moved by `setDate`, so differences between task dates and the start are whole days, daylight-saving shifts aside. The local weekday of a start entered in the form depends on the time zone; the model takes the start's local calendar day as given.
- Dates read back from storage as strings (`new Date(project.startDate)` in ProjectList.js). A plain project's dates are already day numbers in the model.
- JavaScript's `||` defaults in the statistics fallback. Only a missing value (modelled by `Option`) is treated as 0; other falsy values (`NaN`, `''`) are not modelled.
- CategoryKanban.AfterLastSpace: only the space character counts as whitespace. The source's `\s` also matches tabs and other blanks, and its `.` stops at line breaks. Category names contain neither.
- Money formatting with `toLocaleString`, CSS class names and the category label on status cards. These are display only.
- The stub `updateProjectSchedule` in TaskList.js. It only logs and shows an alert.
- The Gantt chart's "calculating" state (GanttChart.js:53-60). With a start date and tasks the schedule is never empty (`Gantt.GanttView` keeps the task count), so that state cannot be reached.
- The two copies of `formatDate` in TaskList.js and ProjectList.js. They are the same code as the scheduler's, and `Schedule.FormatDate` models all three.

## Findings

| source | as written | input that shows it | evidently intended | confidence | as-written member | corrected member |
|---|---|---|---|---|---|---|
| src/components/Views/Calendar.js:39 | `navigateMonth` calls `setMonth(getMonth() + direction)` on the current date, keeping its day of month, so `Date` rolls a day the target month lacks over into the following month | the current date is 31 January 2025 and "next month" is pressed: the result is 3 March 2025, so February is skipped. From 31 March 2025, "previous month" also gives 3 March 2025, so the shown month does not move | each press shows the month exactly one away; only the month matters for the grid, so the day can be clamped to the target month's length | not executed | Calendar.ShiftMonthAsWritten (NextMonthSkipsFebruary, PreviousMonthStaysInMarch) | Calendar.ShiftMonth (NavigateMonth, ShiftMonthAgreesWhenDayExists, NextMonthPressesCount) |
