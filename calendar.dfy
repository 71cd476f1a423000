/**
 * src/components/Views/Calendar.js: the month calendar. It schedules the current project
 * the way the Gantt chart does, lays the shown month out as whole weeks starting on a
 * Sunday (trailing days of the previous month, the month itself, leading days of the next),
 * lists on each cell the tasks whose dates cover that day, and moves between months.
 */
module Calendar {
  import opened Wrappers
  import opened Dates
  import opened Seqs
  import opened Types
  import opened Schedule
  import Gantt

  /** The `useMemo` schedule: empty without a project, a start date or tasks. */
  function CalendarTasks(project: Option<ProjectData>): (r: seq<Task>)
    ensures project.None? || project.value.startDate.None? || project.value.tasks == [] ==> r == []
    ensures project.Some? && project.value.startDate.Some? && project.value.tasks != [] ==>
      var p := project.value;
      r == Schedule.Schedule(p.tasks, p.startDate, p.skipSaturday, p.skipSunday)
  {
    if project.None? || project.value.startDate.None? || |project.value.tasks| == 0 then []
    else
      var p := project.value;
      Schedule.Schedule(p.tasks, p.startDate, p.skipSaturday, p.skipSunday)
  }

  /** The calendar and the Gantt chart show the same schedule of the same project. */
  lemma CalendarMatchesGantt(project: Option<ProjectData>)
    ensures CalendarTasks(project) == Gantt.GanttView(project).scheduledTasks
  {
  }

  /** The day filter: the task has both dates and its range covers `date`. */
  function CoversDay(date: Day): Task -> bool {
    (t: Task) => t.startDate.Some? && t.endDate.Some? && t.startDate.value <= date <= t.endDate.value
  }

  /** The tasks listed on one day: those with both dates whose range covers it. */
  function DayTasks(scheduled: seq<Task>, date: Day): (r: seq<Task>)
    ensures forall t :: t in r <==>
      t in scheduled && t.startDate.Some? && t.endDate.Some? && t.startDate.value <= date <= t.endDate.value
  {
    Filter(scheduled, CoversDay(date))
  }

  /** One cell of the month grid. */
  datatype CalendarDay = CalendarDay(date: Day, isOtherMonth: bool, isWeekend: bool, tasks: seq<Task>)

  /** `createCalendarDay`: the weekend flag is Saturday or Sunday whatever days the project skips. */
  function CreateCalendarDay(scheduled: seq<Task>, date: Day, isOtherMonth: bool): (c: CalendarDay)
    ensures c.date == date && c.isOtherMonth == isOtherMonth
    ensures c.isWeekend <==> Weekday(date) == 0 || Weekday(date) == 6
    ensures forall t :: t in c.tasks <==>
      t in scheduled && t.startDate.Some? && t.endDate.Some? && t.startDate.value <= date <= t.endDate.value
  {
    CalendarDay(date, isOtherMonth, Weekday(date) == 0 || Weekday(date) == 6, DayTasks(scheduled, date))
  }

  /** A day of a scheduled project lists at most one task: scheduled tasks never overlap. */
  lemma ScheduledDayHasOneTaskAtMost(project: ProjectData, date: Day, t1: Task, t2: Task)
    requires project.startDate.Some?
    requires var scheduled := CalendarTasks(Some(project));
      t1 in DayTasks(scheduled, date) && t2 in DayTasks(scheduled, date)
    ensures t1 == t2
  {
    var r := CalendarTasks(Some(project));
    ScheduleNoOverlap(project.tasks, project.startDate, project.skipSaturday, project.skipSunday);
    var i :| 0 <= i < |r| && r[i] == t1;
    var j :| 0 <= j < |r| && r[j] == t2;
  }

  /** A day of a scheduled project lists no task twice and never two tasks. */
  lemma ScheduledDayListsAtMostOne(project: ProjectData, date: Day)
    requires project.startDate.Some?
    ensures |DayTasks(CalendarTasks(Some(project)), date)| <= 1
  {
    var r := CalendarTasks(Some(project));
    if project.tasks != [] {
      ScheduleNoOverlap(project.tasks, project.startDate, project.skipSaturday, project.skipSunday);
      forall i, j | 0 <= i < j < |r| && CoversDay(date)(r[i]) ensures !CoversDay(date)(r[j]) {
        assert r[i].endDate.value < r[j].startDate.value;
      }
      FilterAtMostOne(r, CoversDay(date));
    }
  }

  /** The first cell: the Sunday on or before `first`, the first of the month. */
  function GridStart(first: Day): Day {
    first - Weekday(first)
  }

  /** The number of cells for a month of `length` days starting on `first`: the smallest
      whole number of weeks that holds the leading days of the previous month and the month. */
  function CellCount(first: Day, length: int): (count: int)
    requires length >= 0
    ensures count % 7 == 0
    ensures Weekday(first) + length <= count < Weekday(first) + length + 7
  {
    (Weekday(first) + length + 6) / 7 * 7
  }

  /** Cell k of the grid of a month of `length` days starting on `first`. */
  function GridCell(scheduled: seq<Task>, first: Day, length: int, k: int): (c: CalendarDay)
    ensures c.date == GridStart(first) + k
    ensures c.isOtherMonth <==> !(first <= c.date < first + length)
    ensures c.isWeekend <==> k % 7 == 0 || k % 7 == 6
    ensures forall t :: t in c.tasks <==>
      t in scheduled && t.startDate.Some? && t.endDate.Some? && t.startDate.value <= c.date <= t.endDate.value
  {
    var lead := Weekday(first);
    assert (GridStart(first) + 4) % 7 == 0;
    CreateCalendarDay(scheduled, GridStart(first) + k, !(lead <= k < lead + length))
  }

  /** `renderCalendar`: the cells of the month shown, the one `currentDate` falls in. The
      calendar's state is a `Date`, kept here as the civil date its getters report. */
  method RenderCalendar(scheduled: seq<Task>, currentDate: CivilDate) returns (calendarDays: seq<CalendarDay>)
    requires ValidCivil(currentDate)
    ensures var first, length := MonthStart(currentDate.year, currentDate.month), DaysInMonth(currentDate.year, currentDate.month);
      && |calendarDays| == CellCount(first, length)
      && forall k :: 0 <= k < |calendarDays| ==> calendarDays[k] == GridCell(scheduled, first, length, k)
  {
    var year, month := currentDate.year, currentDate.month;
    DayNumberNormal(year, month, 1);
    var firstDay := DayNumber(year, month, 1);
    LastDayOfMonth(year, month);
    var lastDay := DayNumber(year, month + 1, 0);
    calendarDays := FillMonth(scheduled, firstDay, CivilOf(lastDay).day);
  }

  /** The three loops of `renderCalendar` for a month of `lastDate` days whose first day is
      `firstDay`: the days before it back to Sunday, the month itself, then the days after
      it up to a whole number of weeks. */
  method FillMonth(scheduled: seq<Task>, firstDay: Day, lastDate: int) returns (calendarDays: seq<CalendarDay>)
    requires lastDate >= 0
    ensures |calendarDays| == CellCount(firstDay, lastDate)
    ensures forall k :: 0 <= k < |calendarDays| ==> calendarDays[k] == GridCell(scheduled, firstDay, lastDate, k)
  {
    var firstDayWeekday := Weekday(firstDay);
    calendarDays := [];
    var i := firstDayWeekday - 1;
    while i >= 0
      invariant -1 <= i < firstDayWeekday
      invariant |calendarDays| == firstDayWeekday - 1 - i
      invariant forall k :: 0 <= k < |calendarDays| ==> calendarDays[k] == GridCell(scheduled, firstDay, lastDate, k)
    {
      var date := firstDay - i - 1;
      calendarDays := calendarDays + [CreateCalendarDay(scheduled, date, true)];
      i := i - 1;
    }

    var day := 1;
    while day <= lastDate
      invariant 1 <= day <= lastDate + 1
      invariant |calendarDays| == firstDayWeekday + day - 1
      invariant forall k :: 0 <= k < |calendarDays| ==> calendarDays[k] == GridCell(scheduled, firstDay, lastDate, k)
    {
      var date := firstDay + day - 1;
      calendarDays := calendarDays + [CreateCalendarDay(scheduled, date, false)];
      day := day + 1;
    }

    var totalCells := (|calendarDays| + 6) / 7 * 7;
    var remainingCells := totalCells - |calendarDays|;
    day := 1;
    while day <= remainingCells
      invariant 1 <= day <= remainingCells + 1
      invariant |calendarDays| == firstDayWeekday + lastDate + day - 1
      invariant forall k :: 0 <= k < |calendarDays| ==> calendarDays[k] == GridCell(scheduled, firstDay, lastDate, k)
    {
      var date := firstDay + lastDate + day - 1;
      calendarDays := calendarDays + [CreateCalendarDay(scheduled, date, true)];
      day := day + 1;
    }
  }

  /** Cell k sits under the weekday header k % 7, the first under Sunday. */
  lemma GridColumnsAreWeekdays(scheduled: seq<Task>, first: Day, length: int, k: nat)
    ensures Weekday(GridCell(scheduled, first, length, k).date) == k % 7
  {
    var s := GridStart(first);
    assert (s + 4) % 7 == 0;
  }

  /** Day d of month m of year y is shown in cell lead + d - 1, as a cell of this month. */
  lemma GridShowsEachDayOfMonth(scheduled: seq<Task>, y: int, m: int, d: int)
    requires 0 <= m < 12 && 1 <= d <= DaysInMonth(y, m)
    ensures var first, length := MonthStart(y, m), DaysInMonth(y, m);
      var k := Weekday(first) + d - 1;
      && k < CellCount(first, length)
      && GridCell(scheduled, first, length, k).date == DayOf(CivilDate(y, m, d))
      && !GridCell(scheduled, first, length, k).isOtherMonth
  {
  }

  /** A cell is flagged as another month's exactly when its date lies outside the month. */
  lemma GridOtherMonthFlag(scheduled: seq<Task>, y: int, m: int, k: int)
    requires 0 <= m < 12 && 0 <= k < CellCount(MonthStart(y, m), DaysInMonth(y, m))
    ensures var cell := GridCell(scheduled, MonthStart(y, m), DaysInMonth(y, m), k);
      var c := CivilOf(cell.date);
      cell.isOtherMonth <==> MonthIndex(c.year, c.month) != MonthIndex(y, m)
  {
    var cell := GridCell(scheduled, MonthStart(y, m), DaysInMonth(y, m), k);
    var c := CivilOf(cell.date);
    if MonthIndex(c.year, c.month) == MonthIndex(y, m) {
      MonthIndexInjective(c.year, c.month, y, m);
    } else if !cell.isOtherMonth {
      CivilOfInMonth(y, m, cell.date);
    }
  }

  /** `setMonth(getMonth() + direction)` as written: the day of month is kept, and `Date`
      rolls a day past the end of the target month into the month after. */
  function ShiftMonthAsWritten(currentDate: CivilDate, direction: int): (r: CivilDate)
    ensures ValidCivil(r)
  {
    SetMonth(currentDate.year, currentDate.month + direction, currentDate.day)
  }

  /** `navigateMonth` as written: 0 goes to today, any other direction shifts the month. */
  function NavigateMonthAsWritten(currentDate: CivilDate, direction: int, today: CivilDate): (r: CivilDate)
    ensures direction == 0 ==> r == today
    ensures direction != 0 ==> ValidCivil(r)
  {
    if direction == 0 then today else ShiftMonthAsWritten(currentDate, direction)
  }

  /** Where the target month has the day (days 1 to 28 always), the code moves by exactly
      `direction` months and keeps the day of month. */
  lemma ShiftMonthAsWrittenWhenDayExists(y: int, m: int, d: int, direction: int)
    requires 1 <= d
    requires var t := AddMonths(y, m, direction); d <= DaysInMonth(t.0, t.1)
    ensures var t := AddMonths(y, m, direction);
      ShiftMonthAsWritten(CivilDate(y, m, d), direction) == CivilDate(t.0, t.1, d)
  {
    SetMonthKeepsDay(y, m, direction, d);
  }

  /** From January 31st of a common year, "next month" lands on March 3rd, skipping
      February (e.g. 2025). */
  lemma NextMonthSkipsFebruary(y: int)
    requires !IsLeapYear(y)
    ensures var t := ShiftMonthAsWritten(CivilDate(y, 0, 31), 1);
      t == CivilDate(y, 2, 3) && MonthIndex(t.year, t.month) == MonthIndex(y, 0) + 2
  {
    MonthStartNext(y, 1);
    DayNumberNormal(y, 1, 31);
    DayNumberNormal(y, 2, 3);
    assert DayNumber(y, 1, 31) == DayNumber(y, 2, 3);
    SetMonthKeepsDay(y, 2, 0, 3);
  }

  /** From March 31st of a common year, "previous month" also lands on March 3rd: the shown
      month does not change. */
  lemma PreviousMonthStaysInMarch(y: int)
    requires !IsLeapYear(y)
    ensures var t := ShiftMonthAsWritten(CivilDate(y, 2, 31), -1);
      t == CivilDate(y, 2, 3) && MonthIndex(t.year, t.month) == MonthIndex(y, 2)
  {
    MonthStartNext(y, 1);
    DayNumberNormal(y, 1, 31);
    DayNumberNormal(y, 2, 3);
    assert DayNumber(y, 1, 31) == DayNumber(y, 2, 3);
    SetMonthKeepsDay(y, 2, 0, 3);
  }

  /** The day of month kept when moving to month m of year y: clamped to that month's length. */
  function ClampDay(y: int, m: int, day: int): (d: int)
    requires 0 <= m < 12 && 1 <= day
    ensures 1 <= d <= DaysInMonth(y, m) && d <= day
    ensures day <= DaysInMonth(y, m) ==> d == day
    ensures day > DaysInMonth(y, m) ==> d == DaysInMonth(y, m)
  {
    if day <= DaysInMonth(y, m) then day else DaysInMonth(y, m)
  }

  /** The intended month shift: `direction` months away from the shown month, keeping the
      day of month where the target month has it and its last day otherwise. */
  function ShiftMonth(currentDate: CivilDate, direction: int): (r: CivilDate)
    requires ValidCivil(currentDate)
    ensures ValidCivil(r)
    ensures MonthIndex(r.year, r.month) == MonthIndex(currentDate.year, currentDate.month) + direction
    ensures r.day == ClampDay(r.year, r.month, currentDate.day)
  {
    var t := AddMonths(currentDate.year, currentDate.month, direction);
    CivilDate(t.0, t.1, ClampDay(t.0, t.1, currentDate.day))
  }

  /** `navigateMonth` as intended: 0 goes to today, any other direction shifts the month. */
  function NavigateMonth(currentDate: CivilDate, direction: int, today: CivilDate): (r: CivilDate)
    requires ValidCivil(currentDate)
    ensures direction == 0 ==> r == today
    ensures direction != 0 ==>
      && ValidCivil(r)
      && MonthIndex(r.year, r.month) == MonthIndex(currentDate.year, currentDate.month) + direction
  {
    if direction == 0 then today else ShiftMonth(currentDate, direction)
  }

  /** Where the target month has the day, the intended shift is what the code does. */
  lemma ShiftMonthAgreesWhenDayExists(y: int, m: int, d: int, direction: int)
    requires ValidCivil(CivilDate(y, m, d))
    requires var t := AddMonths(y, m, direction); d <= DaysInMonth(t.0, t.1)
    ensures ShiftMonth(CivilDate(y, m, d), direction) == ShiftMonthAsWritten(CivilDate(y, m, d), direction)
  {
    ShiftMonthAsWrittenWhenDayExists(y, m, d, direction);
  }

  /** n presses of "next month" from `currentDate`, with the intended shift. */
  function NextMonthPresses(currentDate: CivilDate, presses: nat): (r: CivilDate)
    requires ValidCivil(currentDate)
    ensures ValidCivil(r)
    decreases presses
  {
    if presses == 0 then currentDate else ShiftMonth(NextMonthPresses(currentDate, presses - 1), 1)
  }

  /** n presses of "next month" show the n-th month after the current one. */
  lemma {:induction false} NextMonthPressesCount(currentDate: CivilDate, presses: nat)
    requires ValidCivil(currentDate)
    ensures var t := NextMonthPresses(currentDate, presses);
      MonthIndex(t.year, t.month) == MonthIndex(currentDate.year, currentDate.month) + presses
    decreases presses
  {
    if presses > 0 {
      NextMonthPressesCount(currentDate, presses - 1);
    }
  }
}
