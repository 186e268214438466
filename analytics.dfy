/** The analytics pages: summary figures, the priority and status pies with
    empty slices dropped, the completions of the current week day by day,
    the last 30 days of completions and creations, and the performance
    figures. The standalone page and the one under the dashboard compute
    the same thing (they differ only in chart colours), so one model serves
    both. Rounded figures are whole percents or tenths. */
module Analytics {
  import opened Common
  import opened Time
  import opened Tasks

  datatype PriorityBucket = HighPriority | MediumPriority | LowPriority | NoPriority

  datatype StatusBucket = CompletedStatus | PendingStatus | OverdueStatus

  /** One slice of a pie chart. */
  datatype Slice<K> = Slice(name: K, value: nat)

  /** One day of the weekly chart. */
  datatype WeekPoint = WeekPoint(day: int, completed: nat)

  /** One day of the 30-day chart. */
  datatype MonthPoint = MonthPoint(day: int, completed: nat, created: nat)

  /** The summary figures; `avgTasksPerDay` and `avgCompletionTime` are in
      tenths (a value of 17 is shown as 1.7). */
  datatype Basic = Basic(
    total: nat,
    completed: nat,
    pending: nat,
    overdue: nat,
    completionRate: nat,
    avgTasksPerDay: int,
    avgCompletionTime: int)

  datatype Report = Report(
    basic: Basic,
    priority: seq<Slice<PriorityBucket>>,
    status: seq<Slice<StatusBucket>>,
    weekly: seq<WeekPoint>,
    monthly: seq<MonthPoint>)

  /** The pending tasks whose due date has passed. */
  function OverdueOf(pending: seq<Task>, now: int): seq<Task>
  {
    Filter(pending, DueBeforeAt(now))
  }

  /** Overdue tasks are the pending ones with a due date before now: the
      overdue slice overlaps the pending slice, and is never larger. */
  lemma OverdueWithinPending(tasks: seq<Task>, now: int)
    ensures var overdue := OverdueOf(Filter(tasks, IsPending), now);
      (forall t :: t in overdue <==> t in tasks && !t.isComplete && DueBefore(t, now))
      && |overdue| <= |Filter(tasks, IsPending)|
      && multiset(overdue) <= multiset(Filter(tasks, IsPending))
  {
  }

  /** Which tasks a priority slice counts: 3, 2 and 1 by value, and "no
      priority" for an absent priority or 0. */
  predicate InBucket(b: PriorityBucket, t: Task)
  {
    match b
    case HighPriority => t.priority == Some(3)
    case MediumPriority => t.priority == Some(2)
    case LowPriority => t.priority == Some(1)
    case NoPriority => t.priority.None? || t.priority == Some(0)
  }

  /** The filter callback of bucket `b`. */
  function BucketOf(b: PriorityBucket): Task -> bool
  {
    t => InBucket(b, t)
  }

  function BucketCount(tasks: seq<Task>, b: PriorityBucket): nat
  {
    Count(tasks, BucketOf(b))
  }

  /** A slice is drawn only when its value is positive. */
  predicate Shown<K>(s: Slice<K>)
  {
    s.value > 0
  }

  /** The four priority slices in chart order, before empty ones are dropped. */
  function PriorityCounts(tasks: seq<Task>): seq<Slice<PriorityBucket>>
  {
    [Slice(HighPriority, BucketCount(tasks, HighPriority)),
     Slice(MediumPriority, BucketCount(tasks, MediumPriority)),
     Slice(LowPriority, BucketCount(tasks, LowPriority)),
     Slice(NoPriority, BucketCount(tasks, NoPriority))]
  }

  /** Every bucket has its slice among the four. */
  lemma PriorityCountsCover(tasks: seq<Task>)
    ensures forall b :: Slice(b, BucketCount(tasks, b)) in PriorityCounts(tasks)
  {
    var all := PriorityCounts(tasks);
    forall b: PriorityBucket
      ensures Slice(b, BucketCount(tasks, b)) in all
    {
      var i := match b
        case HighPriority => 0
        case MediumPriority => 1
        case LowPriority => 2
        case NoPriority => 3;
      assert all[i] == Slice(b, BucketCount(tasks, b));
    }
  }

  /** The priority pie: every slice counts its bucket and is non-empty, and
      a bucket has a slice exactly when some task falls in it. */
  function PriorityData(tasks: seq<Task>): (r: seq<Slice<PriorityBucket>>)
    ensures |r| <= 4
    ensures forall s :: s in r ==> s.value > 0 && s.value == BucketCount(tasks, s.name)
    ensures forall b :: Slice(b, BucketCount(tasks, b)) in r <==> BucketCount(tasks, b) > 0
  {
    var all := PriorityCounts(tasks);
    PriorityCountsCover(tasks);
    Filter(all, Shown)
  }

  /** The sum of a pie's values. */
  function SliceTotal<K>(s: seq<Slice<K>>): nat
  {
    if s == [] then 0 else s[0].value + SliceTotal(s[1..])
  }

  /** Dropping empty slices leaves the total unchanged. */
  lemma {:induction false} DroppingEmptySlices<K(!new)>(s: seq<Slice<K>>)
    ensures SliceTotal(Filter(s, Shown)) == SliceTotal(s)
  {
    if s != [] {
      DroppingEmptySlices(s[1..]);
    }
  }

  /** A priority that one of the four buckets counts. */
  predicate KnownPriority(t: Task)
  {
    t.priority.None? || 0 <= t.priority.value <= 3
  }

  predicate HighOrMedium(t: Task)
  {
    t.priority == Some(3) || t.priority == Some(2)
  }

  predicate HighToLow(t: Task)
  {
    t.priority.Some? && 1 <= t.priority.value <= 3
  }

  /** The total of four slices. */
  lemma SliceTotalOfFour<K>(a: Slice<K>, b: Slice<K>, c: Slice<K>, d: Slice<K>)
    ensures SliceTotal([a, b, c, d]) == a.value + b.value + c.value + d.value
  {
    assert [d][1..] == [];
    assert SliceTotal([d]) == d.value;
    assert [c, d][1..] == [d];
    assert SliceTotal([c, d]) == c.value + d.value;
    assert [b, c, d][1..] == [c, d];
    assert SliceTotal([b, c, d]) == b.value + c.value + d.value;
    assert [a, b, c, d][1..] == [b, c, d];
  }

  /** The pie's total is the sum of the four bucket counts. */
  lemma PriorityDataTotal(tasks: seq<Task>)
    ensures SliceTotal(PriorityData(tasks)) == BucketCount(tasks, HighPriority) + BucketCount(tasks, MediumPriority)
      + BucketCount(tasks, LowPriority) + BucketCount(tasks, NoPriority)
  {
    var all := PriorityCounts(tasks);
    assert PriorityData(tasks) == Filter(all, Shown);
    DroppingEmptySlices(all);
    SliceTotalOfFour(all[0], all[1], all[2], all[3]);
    assert all == [all[0], all[1], all[2], all[3]];
  }

  lemma HighOrMediumCount(tasks: seq<Task>)
    ensures Count(tasks, HighOrMedium) == BucketCount(tasks, HighPriority) + BucketCount(tasks, MediumPriority)
  {
    var high, medium := BucketOf(HighPriority), BucketOf(MediumPriority);
    assert forall x :: HighOrMedium(x) == (high(x) || medium(x));
    assert forall x :: !(high(x) && medium(x));
    CountDisjointUnion(tasks, high, medium, HighOrMedium);
  }

  lemma HighToLowCount(tasks: seq<Task>)
    ensures Count(tasks, HighToLow) == Count(tasks, HighOrMedium) + BucketCount(tasks, LowPriority)
  {
    var low := BucketOf(LowPriority);
    assert forall x :: HighToLow(x) == (HighOrMedium(x) || low(x));
    assert forall x :: !(HighOrMedium(x) && low(x));
    CountDisjointUnion(tasks, HighOrMedium, low, HighToLow);
  }

  lemma KnownPriorityCount(tasks: seq<Task>)
    ensures Count(tasks, KnownPriority) == Count(tasks, HighToLow) + BucketCount(tasks, NoPriority)
  {
    var none := BucketOf(NoPriority);
    assert forall x :: KnownPriority(x) == (HighToLow(x) || none(x));
    assert forall x :: !(HighToLow(x) && none(x));
    CountDisjointUnion(tasks, HighToLow, none, KnownPriority);
  }

  /** The buckets never overlap, so the pie adds up to at most the number of
      tasks, and to exactly that number when every priority is absent or one
      of 0, 1, 2, 3. */
  lemma PriorityTotal(tasks: seq<Task>)
    ensures SliceTotal(PriorityData(tasks)) <= |tasks|
    ensures SliceTotal(PriorityData(tasks)) == |tasks| <==> forall t :: t in tasks ==> KnownPriority(t)
  {
    PriorityDataTotal(tasks);
    HighOrMediumCount(tasks);
    HighToLowCount(tasks);
    KnownPriorityCount(tasks);
    CountFull(tasks, KnownPriority);
  }

  /** The slice of one status, or none when its figure is zero. */
  function SliceIfShown(name: StatusBucket, value: nat): seq<Slice<StatusBucket>>
  {
    if value > 0 then [Slice(name, value)] else []
  }

  /** Dropping the empty slices of three keeps the others in order. */
  lemma ShownOfThree(a: Slice<StatusBucket>, b: Slice<StatusBucket>, c: Slice<StatusBucket>)
    ensures Filter([a, b, c], Shown) == SliceIfShown(a.name, a.value) + SliceIfShown(b.name, b.value)
      + SliceIfShown(c.name, c.value)
  {
    assert [c][1..] == [];
    assert Filter([c], Shown) == SliceIfShown(c.name, c.value);
    assert [b, c][1..] == [c];
    assert Filter([b, c], Shown) == SliceIfShown(b.name, b.value) + SliceIfShown(c.name, c.value);
    assert [a, b, c][1..] == [b, c];
  }

  /** The status pie: the completed, pending and overdue slices in that
      order, each present exactly when its figure is positive. */
  function StatusData(completed: nat, pending: nat, overdue: nat): (r: seq<Slice<StatusBucket>>)
    ensures r == SliceIfShown(CompletedStatus, completed) + SliceIfShown(PendingStatus, pending)
      + SliceIfShown(OverdueStatus, overdue)
    ensures |r| <= 3
    ensures forall s :: s in r ==> s.value > 0
    ensures Slice(CompletedStatus, completed) in r <==> completed > 0
    ensures Slice(PendingStatus, pending) in r <==> pending > 0
    ensures Slice(OverdueStatus, overdue) in r <==> overdue > 0
  {
    var all := [Slice(CompletedStatus, completed), Slice(PendingStatus, pending), Slice(OverdueStatus, overdue)];
    ShownOfThree(all[0], all[1], all[2]);
    Filter(all, Shown)
  }

  /** The weekly chart: the seven days from the Sunday that starts the week
      of `now` to the Saturday that ends it, today among them. */
  function WeeklySeries(completed: seq<Task>, now: int): (r: seq<WeekPoint>)
    ensures |r| == 7
    ensures r[0].day == StartOfWeek(DayOf(now)) && r[6].day == EndOfWeek(DayOf(now))
    ensures forall i :: 0 < i < 7 ==> r[i].day == r[i - 1].day + 1
    ensures exists i :: 0 <= i < 7 && r[i].day == DayOf(now)
  {
    var start := StartOfWeek(DayOf(now));
    var counts := PerKey(completed, UpdatedDay, start, 7);
    var r := seq(7, i requires 0 <= i < 7 => WeekPoint(start + i, counts[i]));
    assert r[DayOf(now) - start].day == DayOf(now);
    r
  }

  /** The completions per day of the week of `now`. */
  function WeeklyCounts(r: seq<WeekPoint>): (c: seq<nat>)
    ensures |c| == |r|
  {
    seq(|r|, i requires 0 <= i < |r| => r[i].completed)
  }

  /** Each weekly point counts the completed tasks last updated on its day. */
  lemma WeeklyPointMeaning(completed: seq<Task>, now: int)
    ensures var r := WeeklySeries(completed, now);
      forall i :: 0 <= i < 7 ==> r[i].completed == Count(completed, KeyIs(UpdatedDay, r[i].day))
  {
    var start := StartOfWeek(DayOf(now));
    forall i | 0 <= i < 7
      ensures PerKey(completed, UpdatedDay, start, 7)[i] == Count(completed, KeyIs(UpdatedDay, start + i))
    {
      PerKeyAt(completed, UpdatedDay, start, 7, i);
    }
  }

  /** Together the weekly points count the completed tasks updated this
      week, never more than the completed tasks. */
  lemma WeeklySeriesSum(completed: seq<Task>, now: int)
    ensures var r := WeeklySeries(completed, now);
      Sum(WeeklyCounts(r)) == Count(completed, KeyIn(UpdatedDay, StartOfWeek(DayOf(now)), EndOfWeek(DayOf(now)) + 1))
      && Sum(WeeklyCounts(r)) <= |completed|
  {
    var start := StartOfWeek(DayOf(now));
    var r := WeeklySeries(completed, now);
    var counts := PerKey(completed, UpdatedDay, start, 7);
    assert WeeklyCounts(r) == counts;
    PerKeySum(completed, UpdatedDay, start, 7);
    assert EndOfWeek(DayOf(now)) + 1 == start + 7;
  }

  /** Entry `i` of the 30-day chart: the instant `29 - i` whole days before
      now falls on the day `29 - i` days before today. */
  function MonthPointAt(tasks: seq<Task>, completed: seq<Task>, now: int, i: int): (p: MonthPoint)
    ensures p.day == DayOf(now) - (29 - i)
  {
    var day := DayOf(now - (29 - i) * MsPerDay);
    DayOfShift(now, 29 - i);
    MonthPoint(day, Count(completed, KeyIs(UpdatedDay, day)), Count(tasks, KeyIs(CreatedDay, day)))
  }

  /** The 30-day chart: the completions (by last update) and the creations
      of each of the 30 consecutive days that end today, oldest first. */
  function MonthlySeries(tasks: seq<Task>, completed: seq<Task>, now: int): (r: seq<MonthPoint>)
    ensures |r| == 30
    ensures forall i :: 0 <= i < 30 ==> r[i].day == DayOf(now) - (29 - i)
    ensures r[29].day == DayOf(now)
  {
    seq(30, i requires 0 <= i < 30 => MonthPointAt(tasks, completed, now, i))
  }

  /** The creations per day of the 30-day chart. */
  function CreatedCounts(r: seq<MonthPoint>): (c: seq<nat>)
    ensures |c| == |r|
  {
    seq(|r|, i requires 0 <= i < |r| => r[i].created)
  }

  /** The completions per day of the 30-day chart. */
  function CompletedCounts(r: seq<MonthPoint>): (c: seq<nat>)
    ensures |c| == |r|
  {
    seq(|r|, i requires 0 <= i < |r| => r[i].completed)
  }

  /** The 30-day chart adds up to the tasks created, and the completed tasks
      last updated, within the 30 days that end today. */
  lemma MonthlySeriesSums(tasks: seq<Task>, now: int)
    ensures var completed := Filter(tasks, IsCompleted);
      var r := MonthlySeries(tasks, completed, now);
      var first := DayOf(now) - 29;
      Sum(CreatedCounts(r)) == Count(tasks, KeyIn(CreatedDay, first, DayOf(now) + 1))
      && Sum(CompletedCounts(r)) == Count(completed, KeyIn(UpdatedDay, first, DayOf(now) + 1))
      && Sum(CreatedCounts(r)) <= |tasks|
      && Sum(CompletedCounts(r)) <= |completed|
  {
    var completed := Filter(tasks, IsCompleted);
    var r := MonthlySeries(tasks, completed, now);
    var first := DayOf(now) - 29;
    var created := PerKey(tasks, CreatedDay, first, 30);
    var done := PerKey(completed, UpdatedDay, first, 30);
    forall i | 0 <= i < 30
      ensures r[i].created == created[i] && r[i].completed == done[i]
    {
      PerKeyAt(tasks, CreatedDay, first, 30, i);
      PerKeyAt(completed, UpdatedDay, first, 30, i);
    }
    assert CreatedCounts(r) == created && CompletedCounts(r) == done;
    PerKeySum(tasks, CreatedDay, first, 30);
    PerKeySum(completed, UpdatedDay, first, 30);
  }

  /** `differenceInDays(later, earlier)`: the number of whole days between
      two instants, truncated toward zero (negative when `later` is the
      earlier one). */
  function DiffDays(later: int, earlier: int): (r: int)
    ensures later >= earlier ==> 0 <= r && r * MsPerDay <= later - earlier < (r + 1) * MsPerDay
    ensures later < earlier ==> r <= 0 && -r * MsPerDay <= earlier - later < (-r + 1) * MsPerDay
  {
    if later >= earlier then (later - earlier) / MsPerDay else -((earlier - later) / MsPerDay)
  }

  /** Swapping the instants negates the difference. */
  lemma DiffDaysAntisymmetric(a: int, b: int)
    ensures DiffDays(a, b) == -DiffDays(b, a)
  {
  }

  /** The days from creation to last update, summed over the tasks. */
  function TotalCompletionDays(completed: seq<Task>): int
  {
    if completed == [] then 0
    else DiffDays(completed[0].updatedAt, completed[0].createdAt) + TotalCompletionDays(completed[1..])
  }

  /** Tasks updated no earlier than created add up to a non-negative total. */
  lemma {:induction false} TotalCompletionDaysNonNegative(completed: seq<Task>)
    requires forall t :: t in completed ==> t.createdAt <= t.updatedAt
    ensures TotalCompletionDays(completed) >= 0
  {
    if completed != [] {
      assert completed[0] in completed;
      TotalCompletionDaysNonNegative(completed[1..]);
    }
  }

  /** The mean days to completion in tenths: 0 with nothing completed,
      otherwise the rounded mean. */
  function AvgCompletionTime(completed: seq<Task>): (r: int)
    ensures completed == [] ==> r == 0
    ensures completed != [] ==>
      20 * TotalCompletionDays(completed) - |completed| < 2 * |completed| * r
      <= 20 * TotalCompletionDays(completed) + |completed|
  {
    if completed == [] then 0 else RoundedTenths(TotalCompletionDays(completed), |completed|)
  }

  /** When no task was updated before it was created, the mean is never
      negative. */
  lemma AvgCompletionTimeNonNegative(completed: seq<Task>)
    requires forall t :: t in completed ==> t.createdAt <= t.updatedAt
    ensures AvgCompletionTime(completed) >= 0
  {
    TotalCompletionDaysNonNegative(completed);
  }

  /** The summary figures: the completed and pending counts split the
      total, overdue tasks are among the pending ones, the completion rate
      is the rounded percentage, and the tasks per day is the total over 30
      days in tenths. */
  function BasicStats(tasks: seq<Task>, now: int): (b: Basic)
    requires tasks != []
    ensures b.total == |tasks|
    ensures b.completed == Count(tasks, IsCompleted) && b.pending == Count(tasks, IsPending)
    ensures b.overdue == Count(Filter(tasks, IsPending), DueBeforeAt(now))
    ensures b.avgCompletionTime == AvgCompletionTime(Filter(tasks, IsCompleted))
    ensures b.completed + b.pending == b.total
    ensures b.overdue <= b.pending
    ensures b.completionRate <= 100
    ensures 200 * b.completed - b.total < 2 * b.total * b.completionRate <= 200 * b.completed + b.total
    ensures 20 * b.total - 30 < 60 * b.avgTasksPerDay <= 20 * b.total + 30
    ensures b.completed == 0 ==> b.avgCompletionTime == 0
  {
    var completed := Filter(tasks, IsCompleted);
    var pending := Filter(tasks, IsPending);
    var overdue := OverdueOf(pending, now);
    CompletionSplit(tasks);
    Basic(|tasks|, |completed|, |pending|, |overdue|,
      RoundedPercent(|completed|, |tasks|), RoundedTenths(|tasks|, 30), AvgCompletionTime(completed))
  }

  /** The `analytics` memo: nothing for an empty list; otherwise the summary,
      the two pies and the two series. */
  function Analytics(tasks: seq<Task>, now: int): (r: Option<Report>)
    ensures r.None? <==> tasks == []
    ensures r.Some? ==>
      var completed := Filter(tasks, IsCompleted);
      var b := r.value.basic;
      b == BasicStats(tasks, now)
      && r.value.priority == PriorityData(tasks)
      && r.value.status == StatusData(b.completed, b.pending, b.overdue)
      && r.value.weekly == WeeklySeries(completed, now)
      && r.value.monthly == MonthlySeries(tasks, completed, now)
    ensures r.Some? ==>
      var b := r.value.basic;
      b.total == |tasks| && b.completed + b.pending == b.total && b.overdue <= b.pending
      && b.completionRate <= 100
      && |r.value.priority| <= 4 && |r.value.status| <= 3
      && (forall s :: s in r.value.status ==> s.value > 0)
      && |r.value.weekly| == 7 && |r.value.monthly| == 30
      && r.value.monthly[29].day == DayOf(now)
  {
    if tasks == [] then None
    else
      var completed := Filter(tasks, IsCompleted);
      var b := BasicStats(tasks, now);
      Some(Report(
        b,
        PriorityData(tasks),
        StatusData(b.completed, b.pending, b.overdue),
        WeeklySeries(completed, now),
        MonthlySeries(tasks, completed, now)))
  }
}
