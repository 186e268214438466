/** The calendar page: the tasks due on the selected day, the month grid
    (whole weeks, from the Sunday on or before the first of the month to the
    Saturday on or after its last day) with each day's tasks and figures,
    and the month summary. */
module Calendar {
  import opened Common
  import opened Time
  import opened Tasks

  /** One square of the grid. */
  datatype DayCell = DayCell(day: int, tasks: seq<Task>, taskCount: nat, completedCount: nat, overdueCount: nat)

  /** `selectedDateTasks`: the tasks due on the selected day, in list order,
      each as often as it occurs in the list. */
  function SelectedDateTasks(tasks: seq<Task>, selectedDay: int): (r: seq<Task>)
    ensures forall t :: t in r <==> t in tasks && t.dueDate.Some? && DayOf(t.dueDate.value) == selectedDay
    ensures multiset(r) <= multiset(tasks)
    ensures Subsequence(r, tasks)
    ensures forall t :: multiset(r)[t] == if DueOn(t, selectedDay) then multiset(tasks)[t] else 0
  {
    var r := Filter(tasks, DueOnDay(selectedDay));
    FilterSubMultiset(tasks, DueOnDay(selectedDay));
    FilterSubsequence(tasks, DueOnDay(selectedDay));
    forall t ensures multiset(r)[t] == if DueOn(t, selectedDay) then multiset(tasks)[t] else 0 {
      FilterMultiplicity(tasks, DueOnDay(selectedDay), t);
    }
    r
  }

  /** The selected day's list is determined by those properties: any
      subsequence of the tasks that holds each task due that day as often
      as the list does, and nothing else, is that list. */
  lemma SelectedDateTasksUnique(tasks: seq<Task>, selectedDay: int, r: seq<Task>)
    requires Subsequence(r, tasks)
    requires forall t :: multiset(r)[t] == if DueOn(t, selectedDay) then multiset(tasks)[t] else 0
    ensures r == SelectedDateTasks(tasks, selectedDay)
  {
    FilterUnique(r, tasks, DueOnDay(selectedDay));
  }

  /** Incomplete and due before the current instant (not before the day of
      the square it is shown in). */
  predicate OverdueNow(t: Task, now: int)
  {
    !t.isComplete && t.dueDate.Some? && t.dueDate.value < now
  }

  /** The filter callback "overdue at `now`". */
  function OverdueAt(now: int): Task -> bool
  {
    t => OverdueNow(t, now)
  }

  function CompletedOrOverdueAt(now: int): Task -> bool
  {
    t => IsCompleted(t) || OverdueNow(t, now)
  }

  /** A completed task is never overdue, so the two figures of a square
      together count at most its tasks. */
  lemma CompletedAndOverdueFit(dayTasks: seq<Task>, now: int)
    ensures Count(dayTasks, IsCompleted) + Count(dayTasks, OverdueAt(now)) <= |dayTasks|
  {
    CountDisjointUnion(dayTasks, IsCompleted, OverdueAt(now), CompletedOrOverdueAt(now));
  }

  /** The square of day `d`: its tasks, how many, how many are complete and
      how many are overdue now. The pending figure the page derives from
      these is never negative. */
  function Cell(tasks: seq<Task>, d: int, now: int): (c: DayCell)
    ensures c.day == d
    ensures forall t :: t in c.tasks <==> t in tasks && DueOn(t, d)
    ensures c.taskCount == |c.tasks|
    ensures c.completedCount == Count(c.tasks, IsCompleted) && c.overdueCount == Count(c.tasks, OverdueAt(now))
    ensures c.completedCount + c.overdueCount <= c.taskCount
  {
    var dayTasks := Filter(tasks, DueOnDay(d));
    CompletedAndOverdueFit(dayTasks, now);
    DayCell(d, dayTasks, |dayTasks|, Count(dayTasks, IsCompleted), Count(dayTasks, OverdueAt(now)))
  }

  /** A square lists what selecting its day lists: the tasks due that day,
      in list order and with their multiplicity. */
  lemma CellListsSelectedDay(tasks: seq<Task>, d: int, now: int)
    ensures Cell(tasks, d, now).tasks == SelectedDateTasks(tasks, d)
  {
  }

  /** A square of a day that ended before now shows every incomplete task
      as overdue. */
  lemma PastDayPendingAreOverdue(tasks: seq<Task>, d: int, now: int)
    requires EndOfDay(d) < now
    ensures var c := Cell(tasks, d, now);
      c.overdueCount == c.taskCount - c.completedCount
  {
    var dayTasks := Filter(tasks, DueOnDay(d));
    forall t | t in dayTasks
      ensures OverdueNow(t, now) == IsPending(t)
    {
      DayOfBounds(t.dueDate.value, d);
    }
    FilterCongruent(dayTasks, OverdueAt(now), IsPending);
    FilterComplement(dayTasks, IsCompleted, IsPending);
  }

  /** A square of a day that starts after now shows nothing overdue. */
  lemma FutureDayHasNoOverdue(tasks: seq<Task>, d: int, now: int)
    requires now < StartOfDay(d)
    ensures Cell(tasks, d, now).overdueCount == 0
  {
    var dayTasks := Filter(tasks, DueOnDay(d));
    forall t | t in dayTasks
      ensures !OverdueNow(t, now)
    {
      DayOfBounds(t.dueDate.value, d);
    }
    CountZero(dayTasks, OverdueAt(now));
  }

  /** The first square: the Sunday on or before the first of the month. */
  function GridStart(y: int, m: int): int
    requires 1 <= m <= 12
  {
    StartOfWeek(StartOfMonth(y, m))
  }

  /** The last square: the Saturday on or after the last of the month. */
  function GridEnd(y: int, m: int): int
    requires 1 <= m <= 12
  {
    EndOfWeek(EndOfMonth(y, m))
  }

  /** From a Sunday to a Saturday is a whole number of weeks. */
  lemma WholeWeeks(start: int, end: int)
    requires Weekday(start) == 0 && Weekday(end) == 6 && start <= end
    ensures (end - start + 1) % 7 == 0
  {
    assert Weekday(end + 1) == 0;
    WeekdayDifference(start, end + 1);
  }

  /** `n` consecutive squares starting with day `start`. */
  function Squares(tasks: seq<Task>, start: int, n: nat, now: int): (g: seq<DayCell>)
    ensures |g| == n
    ensures forall i :: 0 <= i < n ==> g[i] == Cell(tasks, start + i, now)
  {
    seq(n, i requires 0 <= i < n => Cell(tasks, start + i, now))
  }

  /** `monthTasks`: one square per day from the grid's first day to its
      last, in order. The grid is whole weeks and covers every day of the
      month. */
  function MonthGrid(tasks: seq<Task>, y: int, m: int, now: int): (g: seq<DayCell>)
    requires 1 <= m <= 12
    ensures |g| == GridEnd(y, m) - GridStart(y, m) + 1
    ensures |g| % 7 == 0
    ensures forall i :: 0 <= i < |g| ==> g[i] == Cell(tasks, GridStart(y, m) + i, now)
    ensures GridStart(y, m) <= StartOfMonth(y, m) && EndOfMonth(y, m) <= GridEnd(y, m)
  {
    var start, end := GridStart(y, m), GridEnd(y, m);
    WholeWeeks(start, end);
    Squares(tasks, start, end - start + 1, now)
  }

  /** In a row of squares, a dated task whose due day is in range sits in
      exactly the square of that day; an undated task sits in none. */
  lemma SquareOfTask(tasks: seq<Task>, start: int, n: nat, now: int, t: Task)
    requires t in tasks
    ensures var g := Squares(tasks, start, n, now);
      (t.dueDate.None? ==> forall i :: 0 <= i < n ==> t !in g[i].tasks)
      && (t.dueDate.Some? && start <= DayOf(t.dueDate.value) < start + n ==>
            var k := DayOf(t.dueDate.value) - start;
            t in g[k].tasks && forall i :: 0 <= i < n && i != k ==> t !in g[i].tasks)
  {
  }

  /** A dated task inside the grid's range sits in exactly one square, the
      one of its due day; an undated task sits in none. */
  lemma EachTaskInOneCell(tasks: seq<Task>, y: int, m: int, now: int, t: Task)
    requires 1 <= m <= 12
    requires t in tasks
    ensures var g := MonthGrid(tasks, y, m, now);
      (t.dueDate.None? ==> forall i :: 0 <= i < |g| ==> t !in g[i].tasks)
      && (t.dueDate.Some? && GridStart(y, m) <= DayOf(t.dueDate.value) <= GridEnd(y, m) ==>
            var k := DayOf(t.dueDate.value) - GridStart(y, m);
            0 <= k < |g| && t in g[k].tasks
            && forall i :: 0 <= i < |g| && i != k ==> t !in g[i].tasks)
  {
    var start := GridStart(y, m);
    SquareOfTask(tasks, start, GridEnd(y, m) - start + 1, now, t);
  }

  /** The due day of a dated task (0 for an undated one, which the grid
      never counts). */
  function DueDay(t: Task): int
  {
    if t.dueDate.Some? then DayOf(t.dueDate.value) else 0
  }

  predicate HasDueDate(t: Task)
  {
    t.dueDate.Some?
  }

  /** A square holds the dated tasks whose due day is its day. */
  lemma CellIsDatedByDay(tasks: seq<Task>, d: int)
    ensures Filter(tasks, DueOnDay(d)) == Filter(Filter(tasks, HasDueDate), KeyIs(DueDay, d))
  {
    forall x: Task
      ensures DueOnDay(d)(x) == (HasDueDate(x) && KeyIs(DueDay, d)(x))
    {
      assert DueOnDay(d)(x) == DueOn(x, d);
      assert KeyIs(DueDay, d)(x) == (DueDay(x) == d);
    }
    FilterFilter(tasks, HasDueDate, KeyIs(DueDay, d), DueOnDay(d));
  }

  /** The task figures of a row of squares. */
  function TaskCounts(g: seq<DayCell>): (c: seq<nat>)
    ensures |c| == |g|
    ensures forall i :: 0 <= i < |g| ==> c[i] == g[i].taskCount
  {
    seq(|g|, i requires 0 <= i < |g| => g[i].taskCount)
  }

  /** A square's task figure is the histogram entry of its day. */
  lemma CellCountIsPerKey(tasks: seq<Task>, start: int, n: nat, i: int, now: int)
    requires 0 <= i < n
    ensures Cell(tasks, start + i, now).taskCount == PerKey(Filter(tasks, HasDueDate), DueDay, start, n)[i]
  {
    var dated := Filter(tasks, HasDueDate);
    PerKeyAt(dated, DueDay, start, n, i);
    DayCountIsDatedCount(tasks, start + i);
  }

  lemma DayCountIsDatedCount(tasks: seq<Task>, d: int)
    ensures |Filter(tasks, DueOnDay(d))| == Count(Filter(tasks, HasDueDate), KeyIs(DueDay, d))
  {
    CellIsDatedByDay(tasks, d);
  }

  /** The task figures of a row of squares, one per day from `start`, are
      the histogram of the dated tasks' due days over those days. */
  lemma {:induction false} RowCounts(tasks: seq<Task>, g: seq<DayCell>, start: int, now: int)
    requires forall i :: 0 <= i < |g| ==> g[i] == Cell(tasks, start + i, now)
    ensures TaskCounts(g) == PerKey(Filter(tasks, HasDueDate), DueDay, start, |g|)
  {
    var counts := PerKey(Filter(tasks, HasDueDate), DueDay, start, |g|);
    forall i | 0 <= i < |g|
      ensures g[i].taskCount == counts[i]
    {
      CellCountIsPerKey(tasks, start, |g|, i, now);
    }
  }

  /** The squares' task figures are the histogram of the dated tasks' due
      days over the grid's days. */
  lemma {:induction false} GridCounts(tasks: seq<Task>, y: int, m: int, now: int)
    requires 1 <= m <= 12
    ensures TaskCounts(MonthGrid(tasks, y, m, now))
      == PerKey(Filter(tasks, HasDueDate), DueDay, GridStart(y, m), |MonthGrid(tasks, y, m, now)|)
  {
    RowCounts(tasks, MonthGrid(tasks, y, m, now), GridStart(y, m), now);
  }

  /** The squares' task figures add up to the number of dated tasks due
      within the grid's days, so never to more than the tasks. */
  lemma {:induction false} GridTaskTotal(tasks: seq<Task>, y: int, m: int, now: int)
    requires 1 <= m <= 12
    ensures var g := MonthGrid(tasks, y, m, now);
      Sum(TaskCounts(g)) == Count(Filter(tasks, HasDueDate), KeyFrom(DueDay, GridStart(y, m), |g|))
      && Sum(TaskCounts(g)) <= |tasks|
  {
    var g := MonthGrid(tasks, y, m, now);
    GridCounts(tasks, y, m, now);
    HistogramTotal(TaskCounts(g), Filter(tasks, HasDueDate), DueDay, GridStart(y, m), |g|);
  }

  /** The figures of the month summary. */
  datatype Summary = Summary(total: nat, completed: nat, pending: nat, overdue: nat)

  /** "This Month Summary": it is computed over every loaded task (not just
      the month's); completed and pending split the total, and the overdue
      tasks are among the pending ones. */
  function MonthSummary(tasks: seq<Task>, now: int): (s: Summary)
    ensures s.total == |tasks|
    ensures s.completed + s.pending == s.total
    ensures s.overdue <= s.pending
    ensures s.completed == Count(tasks, IsCompleted) && s.overdue == Count(tasks, OverdueAt(now))
  {
    CompletionSplit(tasks);
    CountMonotone(tasks, OverdueAt(now), IsPending);
    Summary(|tasks|, Count(tasks, IsCompleted), Count(tasks, IsPending), Count(tasks, OverdueAt(now)))
  }
}
