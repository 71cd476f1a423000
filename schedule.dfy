/**
 * src/utils/scheduleCalculator.js: the working-day predicate, the sequential business-day
 * scheduler, the capped date range of the timeline, and the small date formatters.
 *
 * The pure functions (`IsWorkingDay`, `EndDate`, `AssignDates`, `Schedule`, `DateRange`)
 * say what the schedule is; `CalculateProjectSchedule` and `GenerateDateRange` are the
 * source's loops, proved to compute exactly that.
 */
module Schedule {
  import opened Wrappers
  import opened Dates
  import opened Seqs
  import opened Types

  /** `isWorkingDay(date, skipSaturday, skipSunday)`. */
  function IsWorkingDay(d: Day, skipSaturday: bool, skipSunday: bool): (r: bool)
    ensures !r <==> (skipSunday && Weekday(d) == 0) || (skipSaturday && Weekday(d) == 6)
  {
    if skipSunday && Weekday(d) == 0 then false
    else if skipSaturday && Weekday(d) == 6 then false
    else true
  }

  /** Only Saturday and Sunday can be skipped, so of three consecutive days one is a
      working day, and Monday to Friday always are. */
  lemma NoThreeRestDays(d: Day, skipSaturday: bool, skipSunday: bool)
    ensures IsWorkingDay(d, skipSaturday, skipSunday)
         || IsWorkingDay(d + 1, skipSaturday, skipSunday)
         || IsWorkingDay(d + 2, skipSaturday, skipSunday)
    ensures 1 <= Weekday(d) <= 5 ==> IsWorkingDay(d, skipSaturday, skipSunday)
  {
    WeekdayNext(d);
    WeekdayNext(d + 1);
  }

  /** How many non-working days follow from d on (d included): 0, 1 or 2. */
  function RestRun(d: Day, skipSaturday: bool, skipSunday: bool): (n: nat)
    ensures n <= 2
    ensures IsWorkingDay(d + n, skipSaturday, skipSunday)
    ensures forall x :: d <= x < d + n ==> !IsWorkingDay(x, skipSaturday, skipSunday)
  {
    if IsWorkingDay(d, skipSaturday, skipSunday) then 0
    else if IsWorkingDay(d + 1, skipSaturday, skipSunday) then 1
    else
      NoThreeRestDays(d, skipSaturday, skipSunday);
      2
  }

  /** The first working day on or after d; at most two days are skipped. */
  function FirstWorkingDayFrom(d: Day, skipSaturday: bool, skipSunday: bool): (w: Day)
    ensures d <= w <= d + 2
    ensures IsWorkingDay(w, skipSaturday, skipSunday)
    ensures forall x :: d <= x < w ==> !IsWorkingDay(x, skipSaturday, skipSunday)
    decreases RestRun(d, skipSaturday, skipSunday)
  {
    if IsWorkingDay(d, skipSaturday, skipSunday) then d
    else FirstWorkingDayFrom(d + 1, skipSaturday, skipSunday)
  }

  /** Where the cursor goes after a task ending on `end`: the first working day after it. */
  function NextWorkingDay(end: Day, skipSaturday: bool, skipSunday: bool): (w: Day)
    ensures end < w <= end + 3
    ensures IsWorkingDay(w, skipSaturday, skipSunday)
    ensures forall x :: end < x < w ==> !IsWorkingDay(x, skipSaturday, skipSunday)
  {
    FirstWorkingDayFrom(end + 1, skipSaturday, skipSunday)
  }

  /** The number of working days in [a, b]. */
  function CountWorkingDays(a: Day, b: Day, skipSaturday: bool, skipSunday: bool): nat
    decreases b - a
  {
    if b < a then 0
    else
      var here := if IsWorkingDay(a, skipSaturday, skipSunday) then 1 else 0;
      here + CountWorkingDays(a + 1, b, skipSaturday, skipSunday)
  }

  /** The day on which the k-th working day counted from d (d included) is reached. */
  function WorkEnd(d: Day, k: int, skipSaturday: bool, skipSunday: bool): (e: Day)
    requires k >= 1
    ensures d <= e
    ensures IsWorkingDay(e, skipSaturday, skipSunday)
    ensures CountWorkingDays(d, e, skipSaturday, skipSunday) == k
    decreases k, RestRun(d, skipSaturday, skipSunday)
  {
    if IsWorkingDay(d, skipSaturday, skipSunday) then
      (if k == 1 then d else WorkEnd(d + 1, k - 1, skipSaturday, skipSunday))
    else WorkEnd(d + 1, k, skipSaturday, skipSunday)
  }

  /** The `endDate` the inner loop of the scheduler gives a task starting on `start`. */
  function EndDate(start: Day, duration: int, skipSaturday: bool, skipSunday: bool): (e: Day)
    ensures duration <= 0 ==> e == start
    ensures duration >= 1 ==>
      && start <= e
      && IsWorkingDay(e, skipSaturday, skipSunday)
      && CountWorkingDays(start, e, skipSaturday, skipSunday) == duration
  {
    if duration <= 0 then start else WorkEnd(start, duration, skipSaturday, skipSunday)
  }

  /** A task with its schedule dates cleared: everything the scheduler does not write. */
  function Undated(t: Task): Task {
    t.(startDate := None, endDate := None)
  }

  /** The dates of one scheduled task fit its duration. */
  ghost predicate FitsDuration(t: Task, skipSaturday: bool, skipSunday: bool) {
    && t.startDate.Some? && t.endDate.Some?
    && (t.duration <= 0 ==> t.endDate.value == t.startDate.value)
    && (t.duration >= 1 ==>
          && t.startDate.value <= t.endDate.value
          && IsWorkingDay(t.endDate.value, skipSaturday, skipSunday)
          && CountWorkingDays(t.startDate.value, t.endDate.value, skipSaturday, skipSunday) == t.duration)
  }

  /** The tasks, in the given order, with dates assigned from `cursor` on: each task starts
      at the cursor, and the cursor moves to the first working day after its end. */
  function AssignDates(ts: seq<Task>, cursor: Day, skipSaturday: bool, skipSunday: bool): (r: seq<Task>)
    ensures |r| == |ts|
    decreases |ts|
  {
    if ts == [] then []
    else
      var end := EndDate(cursor, ts[0].duration, skipSaturday, skipSunday);
      var rest := AssignDates(ts[1..], NextWorkingDay(end, skipSaturday, skipSunday), skipSaturday, skipSunday);
      [ts[0].(startDate := Some(cursor), endDate := Some(end))] + rest
  }

  /** `calculateProjectSchedule(tasks, projectStartDate, skipSaturday, skipSunday)`. */
  function Schedule(tasks: seq<Task>, projectStart: Option<Day>, skipSaturday: bool, skipSunday: bool): (r: seq<Task>)
    ensures |r| == |tasks|
    ensures projectStart.None? ==> r == tasks
    ensures projectStart.Some? ==> forall k :: 0 <= k < |r| ==>
      r[k].startDate.Some? && r[k].endDate.Some? && projectStart.value <= r[k].startDate.value
    ensures projectStart.Some? && r != [] ==> r[0].startDate == projectStart
  {
    if projectStart.None? || |tasks| == 0 then tasks
    else
      var r := AssignDates(SortedByOrder(tasks), projectStart.value, skipSaturday, skipSunday);
      AssignDatesFit(SortedByOrder(tasks), projectStart.value, skipSaturday, skipSunday);
      r
  }

  /** Assigning dates changes nothing but the dates; every task gets both dates, fitting its
      duration and none before the cursor, and the first task starts on the cursor itself. */
  lemma {:induction false} AssignDatesFit(ts: seq<Task>, cursor: Day, skipSaturday: bool, skipSunday: bool)
    ensures var r := AssignDates(ts, cursor, skipSaturday, skipSunday);
      && (forall k :: 0 <= k < |r| ==> Undated(r[k]) == Undated(ts[k]))
      && (forall k :: 0 <= k < |r| ==> FitsDuration(r[k], skipSaturday, skipSunday))
      && (forall k :: 0 <= k < |r| ==> r[k].startDate.Some? && cursor <= r[k].startDate.value)
      && (r != [] ==> r[0].startDate == Some(cursor))
    decreases |ts|
  {
    if ts != [] {
      var end := EndDate(cursor, ts[0].duration, skipSaturday, skipSunday);
      AssignDatesFit(ts[1..], NextWorkingDay(end, skipSaturday, skipSunday), skipSaturday, skipSunday);
    }
  }

  /** One step of the assignment: the head takes the cursor, the rest starts after it. */
  lemma AssignDatesStep(ts: seq<Task>, cursor: Day, skipSaturday: bool, skipSunday: bool)
    requires ts != []
    ensures var end := EndDate(cursor, ts[0].duration, skipSaturday, skipSunday);
      AssignDates(ts, cursor, skipSaturday, skipSunday)
      == [ts[0].(startDate := Some(cursor), endDate := Some(end))]
         + AssignDates(ts[1..], NextWorkingDay(end, skipSaturday, skipSunday), skipSaturday, skipSunday)
  {
  }

  /** The scheduler's loop invariant advances by one task: dating the i-th task of the list in
      place extends the finished prefix by that task's assigned entry. */
  lemma AssignDatesPrefixStep(current: seq<Task>, original: seq<Task>, i: int, cursor: Day, start: Day,
                              skipSaturday: bool, skipSunday: bool)
    requires 0 <= i < |original| == |current|
    requires current[i..] == original[i..]
    requires current[..i] + AssignDates(original[i..], cursor, skipSaturday, skipSunday)
          == AssignDates(original, start, skipSaturday, skipSunday)
    ensures var end := EndDate(cursor, original[i].duration, skipSaturday, skipSunday);
      var next := current[i := current[i].(startDate := Some(cursor), endDate := Some(end))];
      && next[i + 1..] == original[i + 1..]
      && next[..i + 1] + AssignDates(original[i + 1..], NextWorkingDay(end, skipSaturday, skipSunday), skipSaturday, skipSunday)
         == AssignDates(original, start, skipSaturday, skipSunday)
  {
    var end := EndDate(cursor, original[i].duration, skipSaturday, skipSunday);
    var dated := original[i].(startDate := Some(cursor), endDate := Some(end));
    var rest := AssignDates(original[i + 1..], NextWorkingDay(end, skipSaturday, skipSunday), skipSaturday, skipSunday);
    assert current[i] == original[i] && current[i + 1..] == original[i + 1..] by {
      assert current[i] == current[i..][0] && original[i] == original[i..][0];
      assert current[i + 1..] == current[i..][1..] && original[i + 1..] == original[i..][1..];
    }
    AssignDatesAt(original, i, cursor, skipSaturday, skipSunday);
    UpdateSplit(current, i, dated, rest);
  }

  /** The assignment from position i on: task i takes the cursor, the rest start after it. */
  lemma AssignDatesAt(ts: seq<Task>, i: int, cursor: Day, skipSaturday: bool, skipSunday: bool)
    requires 0 <= i < |ts|
    ensures var end := EndDate(cursor, ts[i].duration, skipSaturday, skipSunday);
      AssignDates(ts[i..], cursor, skipSaturday, skipSunday)
      == [ts[i].(startDate := Some(cursor), endDate := Some(end))]
         + AssignDates(ts[i + 1..], NextWorkingDay(end, skipSaturday, skipSunday), skipSaturday, skipSunday)
  {
    assert ts[i..][0] == ts[i] && ts[i..][1..] == ts[i + 1..];
    AssignDatesStep(ts[i..], cursor, skipSaturday, skipSunday);
  }

  /** Replacing element i splits the sequence around the new element. */
  lemma UpdateSplit<T>(s: seq<T>, i: int, x: T, rest: seq<T>)
    requires 0 <= i < |s|
    ensures s[i := x][..i + 1] + rest == s[..i] + ([x] + rest)
    ensures s[i := x][i + 1..] == s[i + 1..]
  {
    assert s[i := x][..i + 1] == s[..i] + [x];
  }

  /** Each task after the first starts on the first working day after the previous one ends. */
  lemma {:induction false} AssignDatesChained(ts: seq<Task>, cursor: Day, skipSaturday: bool, skipSunday: bool, k: int)
    requires 0 < k < |ts|
    ensures var r := AssignDates(ts, cursor, skipSaturday, skipSunday);
      r[k - 1].endDate.Some? &&
      r[k].startDate == Some(NextWorkingDay(r[k - 1].endDate.value, skipSaturday, skipSunday))
    decreases |ts|
  {
    var end := EndDate(cursor, ts[0].duration, skipSaturday, skipSunday);
    var next := NextWorkingDay(end, skipSaturday, skipSunday);
    AssignDatesFit(ts[1..], next, skipSaturday, skipSunday);
    if k > 1 {
      AssignDatesChained(ts[1..], next, skipSaturday, skipSunday, k - 1);
    }
  }

  /** Tasks never overlap: every task ends strictly before any later task starts. */
  lemma {:induction false} AssignDatesNoOverlap(ts: seq<Task>, cursor: Day, skipSaturday: bool, skipSunday: bool, i: int, j: int)
    requires 0 <= i < j < |ts|
    ensures var r := AssignDates(ts, cursor, skipSaturday, skipSunday);
      r[i].endDate.Some? && r[j].startDate.Some? && r[i].endDate.value < r[j].startDate.value
    decreases j - i
  {
    var r := AssignDates(ts, cursor, skipSaturday, skipSunday);
    AssignDatesFit(ts, cursor, skipSaturday, skipSunday);
    AssignDatesChained(ts, cursor, skipSaturday, skipSunday, j);
    if i < j - 1 {
      AssignDatesNoOverlap(ts, cursor, skipSaturday, skipSunday, i, j - 1);
      assert FitsDuration(r[j - 1], skipSaturday, skipSunday);
    }
  }

  /** Assigned dates depend on nothing but the undated fields (order of the list, durations). */
  lemma {:induction false} AssignDatesIgnoresOldDates(a: seq<Task>, b: seq<Task>, cursor: Day, skipSaturday: bool, skipSunday: bool)
    requires |a| == |b|
    requires forall k :: 0 <= k < |a| ==> Undated(a[k]) == Undated(b[k])
    ensures AssignDates(a, cursor, skipSaturday, skipSunday) == AssignDates(b, cursor, skipSaturday, skipSunday)
    decreases |a|
  {
    if a != [] {
      assert a[0].duration == Undated(a[0]).duration == Undated(b[0]).duration == b[0].duration;
      var end := EndDate(cursor, a[0].duration, skipSaturday, skipSunday);
      assert a[0].(startDate := Some(cursor), endDate := Some(end))
          == Undated(a[0]).(startDate := Some(cursor), endDate := Some(end));
      assert b[0].(startDate := Some(cursor), endDate := Some(end))
          == Undated(b[0]).(startDate := Some(cursor), endDate := Some(end));
      AssignDatesIgnoresOldDates(a[1..], b[1..], NextWorkingDay(end, skipSaturday, skipSunday), skipSaturday, skipSunday);
    }
  }

  /** What the scheduler returns: an empty list or a missing start date gives the input back;
      otherwise the tasks sorted ascending by order (a permutation of the input) with only
      their dates changed, the first starting on the project start date itself. */
  lemma ScheduleShape(tasks: seq<Task>, projectStart: Option<Day>, skipSaturday: bool, skipSunday: bool)
    ensures var r := Schedule(tasks, projectStart, skipSaturday, skipSunday);
      && |r| == |tasks|
      && (projectStart.None? || tasks == [] ==> r == tasks)
      && (projectStart.Some? && tasks != [] ==>
            && (forall k :: 0 <= k < |r| ==> Undated(r[k]) == Undated(SortedByOrder(tasks)[k]))
            && (forall i, j :: 0 <= i < j < |r| ==> r[i].order <= r[j].order)
            && r[0].startDate == projectStart
            && (forall k :: 0 <= k < |r| ==> FitsDuration(r[k], skipSaturday, skipSunday)))
  {
    var r := Schedule(tasks, projectStart, skipSaturday, skipSunday);
    if projectStart.Some? && tasks != [] {
      var sorted := SortedByOrder(tasks);
      AssignDatesFit(sorted, projectStart.value, skipSaturday, skipSunday);
      forall i, j | 0 <= i < j < |r| ensures r[i].order <= r[j].order {
        assert r[i].order == Undated(r[i]).order == Undated(sorted[i]).order;
        assert r[j].order == Undated(r[j]).order == Undated(sorted[j]).order;
      }
    }
  }

  /** Later tasks start on the first working day after the previous task's end (so on a
      working day), and no two tasks overlap. */
  lemma ScheduleNoOverlap(tasks: seq<Task>, projectStart: Option<Day>, skipSaturday: bool, skipSunday: bool)
    requires projectStart.Some? && tasks != []
    ensures var r := Schedule(tasks, projectStart, skipSaturday, skipSunday);
      && (forall k :: 0 <= k < |r| ==> r[k].startDate.Some? && r[k].endDate.Some?)
      && (forall k :: 0 < k < |r| ==>
            && r[k].startDate == Some(NextWorkingDay(r[k - 1].endDate.value, skipSaturday, skipSunday))
            && IsWorkingDay(r[k].startDate.value, skipSaturday, skipSunday))
      && (forall i, j :: 0 <= i < j < |r| ==> r[i].endDate.value < r[j].startDate.value)
  {
    var sorted := SortedByOrder(tasks);
    var r := Schedule(tasks, projectStart, skipSaturday, skipSunday);
    assert r == AssignDates(sorted, projectStart.value, skipSaturday, skipSunday);
    AssignDatesFit(sorted, projectStart.value, skipSaturday, skipSunday);
    forall k | 0 < k < |r|
      ensures r[k].startDate == Some(NextWorkingDay(r[k - 1].endDate.value, skipSaturday, skipSunday))
      ensures IsWorkingDay(r[k].startDate.value, skipSaturday, skipSunday)
    {
      AssignDatesChained(sorted, projectStart.value, skipSaturday, skipSunday, k);
    }
    forall i, j | 0 <= i < j < |r|
      ensures r[i].endDate.value < r[j].startDate.value
    {
      AssignDatesNoOverlap(sorted, projectStart.value, skipSaturday, skipSunday, i, j);
    }
  }

  /** Rescheduling the scheduler's own output gives the same result. */
  lemma ScheduleIdempotent(tasks: seq<Task>, projectStart: Option<Day>, skipSaturday: bool, skipSunday: bool)
    ensures var r := Schedule(tasks, projectStart, skipSaturday, skipSunday);
      Schedule(r, projectStart, skipSaturday, skipSunday) == r
  {
    if projectStart.Some? && tasks != [] {
      var r := Schedule(tasks, projectStart, skipSaturday, skipSunday);
      ScheduleShape(tasks, projectStart, skipSaturday, skipSunday);
      SortSortedIsIdentity(r, OrderKey);
      AssignDatesFit(SortedByOrder(tasks), projectStart.value, skipSaturday, skipSunday);
      AssignDatesIgnoresOldDates(r, SortedByOrder(tasks), projectStart.value, skipSaturday, skipSunday);
    }
  }

  /** A worked example with Sundays skipped: day 20318 (2025-08-18) is a Monday; a 3-day task from it
      ends on Wednesday the 20th, the next task starts Thursday the 21st, and a 3-day task
      from Friday the 22nd skips Sunday the 24th and ends Monday the 25th. */
  lemma ScheduleExample()
    ensures Weekday(20318) == 1
    ensures EndDate(20318, 3, false, true) == 20320
    ensures NextWorkingDay(20320, false, true) == 20321
    ensures EndDate(20321, 2, false, true) == 20322
    ensures EndDate(20322, 3, false, true) == 20325 && !IsWorkingDay(20324, false, true)
  {
    assert WorkEnd(20319, 2, false, true) == WorkEnd(20320, 1, false, true) == 20320;
    assert FirstWorkingDayFrom(20321, false, true) == 20321;
    assert WorkEnd(20321, 2, false, true) == WorkEnd(20322, 1, false, true) == 20322;
    assert Weekday(20324) == 0;
    assert WorkEnd(20324, 1, false, true) == WorkEnd(20325, 1, false, true) == 20325;
    assert WorkEnd(20322, 3, false, true) == WorkEnd(20323, 2, false, true) == WorkEnd(20324, 1, false, true);
  }

  /** The inner counting loop of `calculateProjectSchedule`: from the task's start, step one
      day at a time until `duration` working days have been counted. */
  method CountOffWorkingDays(startDate: Day, duration: int, skipSaturday: bool, skipSunday: bool)
    returns (endDate: Day)
    ensures endDate == EndDate(startDate, duration, skipSaturday, skipSunday)
  {
    var workDaysAdded := 0;
    endDate := startDate;
    if duration <= 0 {
      return;
    }
    while workDaysAdded < duration
      invariant 0 <= workDaysAdded < duration
      invariant WorkEnd(startDate, duration, skipSaturday, skipSunday)
             == WorkEnd(endDate, duration - workDaysAdded, skipSaturday, skipSunday)
      decreases duration - workDaysAdded, RestRun(endDate, skipSaturday, skipSunday)
    {
      if IsWorkingDay(endDate, skipSaturday, skipSunday) {
        workDaysAdded := workDaysAdded + 1;
        if workDaysAdded == duration {
          break;
        }
      }
      endDate := endDate + 1;
    }
  }

  /** The second inner loop: the day after `endDate`, moved past non-working days. */
  method SkipToWorkingDay(endDate: Day, skipSaturday: bool, skipSunday: bool) returns (currentDate: Day)
    ensures currentDate == NextWorkingDay(endDate, skipSaturday, skipSunday)
  {
    currentDate := endDate + 1;
    while !IsWorkingDay(currentDate, skipSaturday, skipSunday)
      invariant FirstWorkingDayFrom(currentDate, skipSaturday, skipSunday) == NextWorkingDay(endDate, skipSaturday, skipSunday)
      decreases RestRun(currentDate, skipSaturday, skipSunday)
    {
      currentDate := currentDate + 1;
    }
  }

  /** The body of `calculateProjectSchedule`: sorts a copy by order, then walks a cursor date
      forward, writing each task's start and end date. */
  method CalculateProjectSchedule(tasks: seq<Task>, projectStartDate: Option<Day>, skipSaturday: bool, skipSunday: bool)
    returns (scheduled: seq<Task>)
    ensures scheduled == Schedule(tasks, projectStartDate, skipSaturday, skipSunday)
  {
    if projectStartDate.None? || |tasks| == 0 {
      return tasks;
    }
    var sortedTasks := SortedByOrder(tasks);
    ghost var original := sortedTasks;
    var currentDate := projectStartDate.value;
    var i := 0;
    while i < |sortedTasks|
      invariant 0 <= i <= |sortedTasks| == |original|
      invariant sortedTasks[i..] == original[i..]
      invariant sortedTasks[..i] + AssignDates(original[i..], currentDate, skipSaturday, skipSunday)
             == AssignDates(original, projectStartDate.value, skipSaturday, skipSunday)
    {
      var task := sortedTasks[i];
      var startDate := currentDate;
      var endDate := CountOffWorkingDays(startDate, task.duration, skipSaturday, skipSunday);
      AssignDatesPrefixStep(sortedTasks, original, i, startDate, projectStartDate.value, skipSaturday, skipSunday);
      sortedTasks := sortedTasks[i := task.(startDate := Some(startDate), endDate := Some(endDate))];
      currentDate := SkipToWorkingDay(endDate, skipSaturday, skipSunday);
      i := i + 1;
    }
    assert sortedTasks[..i] == sortedTasks;
    scheduled := sortedTasks;
  }

  /** The days of `generateDateRange(startDate, endDate, maxDays)`. */
  function DateRange(startDate: Day, endDate: Day, maxDays: int): (dates: seq<Day>)
    ensures |dates| == if endDate < startDate || maxDays <= 0 then 0
                       else if endDate - startDate + 1 < maxDays then endDate - startDate + 1
                       else maxDays
    ensures forall k :: 0 <= k < |dates| ==> dates[k] == startDate + k
  {
    var totalDays := endDate - startDate + 1;
    var n := if totalDays < maxDays then totalDays else maxDays;
    seq(if n < 0 then 0 else n, k => startDate + k)
  }

  /** The loop of `generateDateRange`: pushes `min(totalDays, maxDays)` consecutive days. */
  method GenerateDateRange(startDate: Day, endDate: Day, maxDays: int) returns (dates: seq<Day>)
    ensures dates == DateRange(startDate, endDate, maxDays)
  {
    dates := [];
    var totalDays := endDate - startDate + 1;
    var limit := if totalDays < maxDays then totalDays else maxDays;
    var i := 0;
    while i < limit
      invariant 0 <= i <= (if limit < 0 then 0 else limit)
      invariant |dates| == i
      invariant forall k :: 0 <= k < i ==> dates[k] == startDate + k
    {
      dates := dates + [startDate + i];
      i := i + 1;
    }
    assert |dates| == |DateRange(startDate, endDate, maxDays)|;
  }

  // ---------------------------------------------------------------------------------
  // formatDate and getWeekdayName

  /** Decimal digits of n, as `${n}` writes them. */
  function DecimalDigits(n: nat): (s: string)
    ensures |s| >= 1
    ensures forall k :: 0 <= k < |s| ==> '0' <= s[k] <= '9'
  {
    if n < 10 then [(n as char) + '0'] else DecimalDigits(n / 10) + [((n % 10) as char) + '0']
  }

  /** The value of a string of decimal digits. */
  function DecimalValue(s: string): nat
    requires forall k :: 0 <= k < |s| ==> '0' <= s[k] <= '9'
  {
    if s == [] then 0 else 10 * DecimalValue(s[..|s| - 1]) + (s[|s| - 1] - '0') as nat
  }

  lemma {:induction false} DecimalRoundTrip(n: nat)
    ensures DecimalValue(DecimalDigits(n)) == n
  {
    if n >= 10 {
      DecimalRoundTrip(n / 10);
      var s := DecimalDigits(n);
      assert s[..|s| - 1] == DecimalDigits(n / 10);
    }
  }

  /** `formatDate(date)`: `'-'` for a missing date, else `${month + 1}/${day}`. */
  function FormatDate(date: Option<Day>): (text: string)
    ensures date.None? ==> text == "-"
  {
    match date
    case None => "-"
    case Some(d) =>
      var c := CivilOf(d);
      DecimalDigits(c.month + 1) + "/" + DecimalDigits(c.day)
  }

  /** Reads back a `month/day` text: two non-empty runs of digits around its first slash. */
  function ReadMonthDay(text: string): Option<(nat, nat)> {
    var k := IndexOf(text, '/');
    if k >= 0 then
      var m, d := text[..k], text[k + 1..];
      if m != [] && d != [] && (forall x :: 0 <= x < |m| ==> '0' <= m[x] <= '9')
         && (forall x :: 0 <= x < |d| ==> '0' <= d[x] <= '9')
      then Some((DecimalValue(m), DecimalValue(d)))
      else None
    else None
  }

  /** A `month/day` text reads back as the two numbers written into it. */
  lemma ReadMonthDayOfDigits(a: nat, b: nat)
    ensures ReadMonthDay(DecimalDigits(a) + "/" + DecimalDigits(b)) == Some((a, b))
  {
    var m, dd := DecimalDigits(a), DecimalDigits(b);
    var text := m + "/" + dd;
    assert text[|m|] == '/';
    var k := IndexOf(text, '/');
    assert k == |m|;
    assert text[..|m|] == m && text[|m| + 1..] == dd;
    DecimalRoundTrip(a);
    DecimalRoundTrip(b);
  }

  /** The formatted text shows exactly the date's month (1..12) and day of month, and a
      missing date shows no date at all. */
  lemma FormatDateReadsBack(d: Day)
    ensures var c := CivilOf(d);
      ReadMonthDay(FormatDate(Some(d))) == Some((c.month + 1, c.day))
      && 1 <= c.month + 1 <= 12 && 1 <= c.day <= 31
    ensures ReadMonthDay(FormatDate(None)) == None
  {
    var c := CivilOf(d);
    assert ValidCivil(c);
    assert FormatDate(Some(d)) == DecimalDigits(c.month + 1) + "/" + DecimalDigits(c.day);
    ReadMonthDayOfDigits(c.month + 1, c.day);
    assert IndexOf("-", '/') == -1;
  }
  /** The text is `-` exactly for a missing date. */
  lemma FormatDateDashIffMissing(date: Option<Day>)
    ensures FormatDate(date) == "-" <==> date.None?
  {
    if date.Some? {
      FormatDateReadsBack(date.value);
    }
  }


  /** The one-character weekday names, Sunday first. */
  const WeekdayNames: seq<string> := ["日", "一", "二", "三", "四", "五", "六"]

  /** `getWeekdayName(dayOfWeek)`: the name, or `undefined` outside 0..6. */
  function GetWeekdayName(dayOfWeek: int): (name: Option<string>)
    ensures name.Some? <==> 0 <= dayOfWeek < 7
  {
    if 0 <= dayOfWeek < 7 then Some(WeekdayNames[dayOfWeek]) else None
  }

  /** Different weekdays get different names. */
  lemma WeekdayNamesDistinct(a: int, b: int)
    requires 0 <= a < 7 && 0 <= b < 7 && a != b
    ensures GetWeekdayName(a) != GetWeekdayName(b)
  {
  }
}
