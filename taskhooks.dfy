/** The query functions of src/hooks/useTasks.ts: `useTasks` turns a
    repository response into a task list or a thrown error, and
    `useTaskStats` computes the dashboard figures, including a per-day
    series built by a loop over the last seven days. */
module TaskHooks {
  import opened Common
  import opened Time
  import opened Tasks
  import Analytics
  import Dashboard
  import TaskService

  /** How a query function settles: with a value, or by throwing. */
  datatype Settled<T> = Resolved(value: T) | Thrown(message: string)

  datatype PriorityStats = PriorityStats(high: nat, medium: nat, low: nat)

  datatype CompletionStats = CompletionStats(completed: nat, pending: nat, overdue: nat)

  /** One day of `dailyStats`: the tasks created that day and how many of
      them are complete. */
  datatype DailyStat = DailyStat(day: int, created: nat, completed: nat)

  datatype TaskStats = TaskStats(
    total: nat,
    completionRate: nat,
    weeklyCompletionRate: nat,
    priorityStats: PriorityStats,
    completionStats: CompletionStats,
    dailyStats: seq<DailyStat>)

  /** `if (result.error) throw ...; return result.data || []`: a non-empty
      error message is thrown, and missing data reads as no tasks. */
  function LoadTasks(data: Option<seq<Task>>, error: Option<string>): (r: Settled<seq<Task>>)
    ensures r.Thrown? <==> error.Some? && error.value != ""
    ensures r.Thrown? ==> r.message == error.value
    ensures r.Resolved? && data.None? ==> r.value == []
    ensures r.Resolved? && data.Some? ==> r.value == data.value
  {
    if error.Some? && error.value != "" then Thrown(error.value)
    else if data.Some? then Resolved(data.value)
    else Resolved([])
  }

  /** What `useTasks` makes of each repository response: its rows, or its
      message thrown, except that an empty message is falsy and so reads as
      an empty list. */
  lemma LoadServiceResult(r: TaskService.Response<seq<Task>>)
    ensures r.Ok? ==> LoadTasks(TaskService.Envelope(r).0, TaskService.Envelope(r).1) == Resolved(r.data)
    ensures r.Err? && r.error != "" ==> LoadTasks(TaskService.Envelope(r).0, TaskService.Envelope(r).1) == Thrown(r.error)
    ensures r.Err? && r.error == "" ==> LoadTasks(TaskService.Envelope(r).0, TaskService.Envelope(r).1) == Resolved([])
  {
  }

  /** Created on or after `since` (`new Date(task.created_at) >= weekAgo`). */
  function CreatedSince(since: int): Task -> bool
  {
    (t: Task) => t.createdAt >= since
  }

  /** Created on day `d` and complete. */
  function CreatedOnAndComplete(d: int): Task -> bool
  {
    (t: Task) => CreatedDay(t) == d && t.isComplete
  }

  /** The completed tasks created on day `d` are those of the day's created
      tasks that are complete. */
  lemma DayCompletions(tasks: seq<Task>, d: int)
    ensures Count(Filter(tasks, KeyIs(CreatedDay, d)), IsCompleted) == Count(tasks, CreatedOnAndComplete(d))
  {
    assert forall x :: CreatedOnAndComplete(d)(x) == (KeyIs(CreatedDay, d)(x) && IsCompleted(x));
    FilterFilter(tasks, KeyIs(CreatedDay, d), IsCompleted, CreatedOnAndComplete(d));
  }

  /** The seven days that end today, oldest first, each with the tasks
      created on it and the completed ones among them. */
  predicate DailySeries(tasks: seq<Task>, now: int, stats: seq<DailyStat>)
  {
    |stats| == 7
    && (forall k :: 0 <= k < 7 ==> stats[k].day == DayOf(now) - (6 - k))
    && (forall k :: 0 <= k < 7 ==> stats[k].created == Count(tasks, KeyIs(CreatedDay, stats[k].day)))
    && (forall k :: 0 <= k < 7 ==> stats[k].completed == Count(tasks, CreatedOnAndComplete(stats[k].day)))
  }

  /** `dailyStats`: for i from 6 down to 0, the day i days before today,
      the tasks created on it and the completed ones among them. */
  method DailyStats(tasks: seq<Task>, now: int) returns (stats: seq<DailyStat>)
    ensures DailySeries(tasks, now, stats)
    ensures stats[6].day == DayOf(now)
    ensures forall k :: 0 <= k < 7 ==> stats[k].completed <= stats[k].created
  {
    stats := [];
    var i := 6;
    while i >= 0
      invariant -1 <= i <= 6
      invariant |stats| == 6 - i
      invariant forall k :: 0 <= k < |stats| ==> stats[k].day == DayOf(now) - (6 - k)
      invariant forall k :: 0 <= k < |stats| ==> stats[k].created == Count(tasks, KeyIs(CreatedDay, stats[k].day))
      invariant forall k :: 0 <= k < |stats| ==> stats[k].completed == Count(tasks, CreatedOnAndComplete(stats[k].day))
      invariant forall k :: 0 <= k < |stats| ==> stats[k].completed <= stats[k].created
    {
      var date := now - i * MsPerDay;
      DayOfShift(now, i);
      var day := DayOf(date);
      var dayTasks := Filter(tasks, KeyIs(CreatedDay, day));
      var completed := Count(dayTasks, IsCompleted);
      DayCompletions(tasks, day);
      stats := stats + [DailyStat(day, |dayTasks|, completed)];
      i := i - 1;
    }
  }

  /** What each `useTaskStats` figure counts: completed, pending and
      overdue tasks, the tasks of each priority, the completion rates over
      all tasks and over those created in the last seven days, and the
      daily series. */
  predicate IsTaskStats(tasks: seq<Task>, now: int, s: TaskStats)
  {
    var recent := Filter(tasks, CreatedSince(now - 7 * MsPerDay));
    s.total == |tasks|
    && s.completionStats.completed == Count(tasks, IsCompleted)
    && s.completionStats.pending == Count(tasks, IsPending)
    && s.completionStats.overdue == Count(Filter(tasks, IsPending), DueBeforeAt(now))
    && s.priorityStats.high == Count(tasks, Analytics.BucketOf(Analytics.HighPriority))
    && s.priorityStats.medium == Count(tasks, Analytics.BucketOf(Analytics.MediumPriority))
    && s.priorityStats.low == Count(tasks, Analytics.BucketOf(Analytics.LowPriority))
    && s.completionRate == RoundedPercent(s.completionStats.completed, s.total)
    && s.weeklyCompletionRate == RoundedPercent(Count(recent, IsCompleted), |recent|)
    && DailySeries(tasks, now, s.dailyStats)
  }

  /** The `useTaskStats` figures for a loaded task list: each counts what
      its name says, completed and pending split the total, the overdue
      tasks are among the pending ones, the priority figures never exceed
      the total, and the rates are whole percents (0 for no tasks). */
  method ComputeTaskStats(tasks: seq<Task>, now: int) returns (s: TaskStats)
    ensures IsTaskStats(tasks, now, s)
    ensures s.completionStats.completed + s.completionStats.pending == s.total
    ensures s.completionStats.overdue <= s.completionStats.pending
    ensures s.priorityStats.high + s.priorityStats.medium + s.priorityStats.low <= s.total
    ensures s.completionRate <= 100 && (s.total == 0 ==> s.completionRate == 0)
    ensures s.weeklyCompletionRate <= 100
    ensures Filter(tasks, CreatedSince(now - 7 * MsPerDay)) == [] ==> s.weeklyCompletionRate == 0
    ensures s.dailyStats[6].day == DayOf(now)
    ensures forall k :: 0 <= k < 7 ==> s.dailyStats[k].completed <= s.dailyStats[k].created
  {
    var completed := Filter(tasks, IsCompleted);
    var pending := Filter(tasks, IsPending);
    var overdue := Analytics.OverdueOf(pending, now);
    CompletionSplit(tasks);
    var high := Count(tasks, Analytics.BucketOf(Analytics.HighPriority));
    var medium := Count(tasks, Analytics.BucketOf(Analytics.MediumPriority));
    var low := Count(tasks, Analytics.BucketOf(Analytics.LowPriority));
    Analytics.HighOrMediumCount(tasks);
    Analytics.HighToLowCount(tasks);
    var weekAgo := now - 7 * MsPerDay;
    var recent := Filter(tasks, CreatedSince(weekAgo));
    var recentCompleted := Filter(recent, IsCompleted);
    var daily := DailyStats(tasks, now);
    s := TaskStats(
      |tasks|,
      RoundedPercent(|completed|, |tasks|),
      RoundedPercent(|recentCompleted|, |recent|),
      PriorityStats(high, medium, low),
      CompletionStats(|completed|, |pending|, |overdue|),
      daily);
  }

  /** The hook's completion figures agree with the dashboard's cards and,
      for a non-empty list, with the analytics summary. */
  lemma TaskStatsAgree(tasks: seq<Task>, now: int, s: TaskStats)
    requires IsTaskStats(tasks, now, s)
    ensures var cards := Dashboard.DashboardStats(tasks, now);
      s.total == cards.total && s.completionRate == cards.completionRate
      && s.completionStats == CompletionStats(cards.completed, cards.pending, cards.overdue)
    ensures tasks != [] ==>
      var b := Analytics.BasicStats(tasks, now);
      s.completionRate == b.completionRate
      && s.completionStats == CompletionStats(b.completed, b.pending, b.overdue)
  {
  }

  /** The `useTaskStats` query function: the repository's error is thrown,
      otherwise the figures for its rows (none when the data is missing). */
  method UseTaskStats(data: Option<seq<Task>>, error: Option<string>, now: int) returns (r: Settled<TaskStats>)
    ensures r.Thrown? <==> error.Some? && error.value != ""
    ensures r.Thrown? ==> r.message == error.value
    ensures r.Resolved? ==> IsTaskStats(if data.Some? then data.value else [], now, r.value)
    ensures r.Resolved? ==> r.value.completionStats.completed + r.value.completionStats.pending == r.value.total
    ensures r.Resolved? ==> r.value.completionStats.overdue <= r.value.completionStats.pending
  {
    var loaded := LoadTasks(data, error);
    if loaded.Thrown? {
      return Thrown(loaded.message);
    }
    var s := ComputeTaskStats(loaded.value, now);
    r := Resolved(s);
  }
}
