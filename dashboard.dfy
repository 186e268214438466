/** The dashboard's task list: a three-stage filter (search, then either the
    chosen calendar day or the status filter), a comparator sort done in
    place on the filtered array, and the summary figures. */
module Dashboard {
  import opened Common
  import opened Strings
  import opened Time
  import opened Tasks
  import TaskCard

  datatype StatusFilter = All | Pending | Completed | Overdue | Today | Week

  datatype SortKey = ByCreated | ByPriority | ByDueDate | ByTitle

  /** The list controls: search text, status filter, sort order and the
      optional day picked on the calendar. */
  datatype Query = Query(search: string, status: StatusFilter, sortBy: SortKey, selectedDay: Option<int>)

  /** Stage 1: an empty search keeps everything; otherwise the lower-cased
      query must occur in the lower-cased title or description. */
  predicate MatchesSearch(t: Task, search: string)
  {
    var q := ToLower(search);
    search == []
    || Includes(ToLower(t.title), q)
    || (t.description.Some? && Includes(ToLower(t.description.value), q))
  }

  /** Stage 2: the due date lies between the start and the end of day `d`. */
  predicate DueWithinDay(t: Task, d: int)
  {
    t.dueDate.Some? && StartOfDay(d) <= t.dueDate.value <= EndOfDay(d)
  }

  /** Stage 3: the status filter (`isToday`, `isThisWeek` compare with now). */
  predicate MatchesStatus(t: Task, f: StatusFilter, now: int)
  {
    match f
    case All => true
    case Pending => !t.isComplete
    case Completed => t.isComplete
    case Overdue => !t.isComplete && t.dueDate.Some? && t.dueDate.value < now
    case Today => t.dueDate.Some? && DayOf(t.dueDate.value) == DayOf(now)
    case Week => t.dueDate.Some? && StartOfWeek(DayOf(t.dueDate.value)) == StartOfWeek(DayOf(now))
  }

  /** Stages 2 and 3: a selected day short-circuits the status filter. */
  predicate MatchesDayOrStatus(q: Query, now: int, t: Task)
  {
    if q.selectedDay.Some? then DueWithinDay(t, q.selectedDay.value) else MatchesStatus(t, q.status, now)
  }

  /** The filter callback of the list. */
  predicate Keeps(q: Query, now: int, t: Task)
  {
    MatchesSearch(t, q.search) && MatchesDayOrStatus(q, now, t)
  }

  /** The filtered list, still in input order. */
  function Selected(tasks: seq<Task>, q: Query, now: int): seq<Task>
  {
    Filter(tasks, t => Keeps(q, now, t))
  }

  /** The search stage alone. */
  function SearchStage(tasks: seq<Task>, search: string): seq<Task>
  {
    Filter(tasks, t => MatchesSearch(t, search))
  }

  /** The filter is staged: search first, then day or status on what is left. */
  lemma SelectedIsStaged(tasks: seq<Task>, q: Query, now: int)
    ensures Selected(tasks, q, now) == Filter(SearchStage(tasks, q.search), t => MatchesDayOrStatus(q, now, t))
  {
    FilterFilter(tasks, t => MatchesSearch(t, q.search), t => MatchesDayOrStatus(q, now, t), t => Keeps(q, now, t));
  }

  /** An empty search removes nothing. */
  lemma EmptySearchRemovesNothing(tasks: seq<Task>)
    ensures SearchStage(tasks, "") == tasks
  {
    FilterAll(tasks, t => MatchesSearch(t, ""));
  }

  /** With a non-empty search, a task survives exactly when the lower-cased
      query occurs in its lower-cased title or description (and it passes
      the later stages). */
  lemma SearchKeepsOnlyMatches(tasks: seq<Task>, q: Query, now: int, t: Task)
    requires q.search != []
    ensures t in Selected(tasks, q, now) <==>
      t in tasks && MatchesDayOrStatus(q, now, t) &&
      (Includes(ToLower(t.title), ToLower(q.search))
       || (t.description.Some? && Includes(ToLower(t.description.value), ToLower(q.search))))
  {
  }

  /** A selected day overrides the status filter: whatever the status
      filter, the result is the same, and it holds exactly the searched
      tasks that have a due date falling on that day. */
  lemma SelectedDayOverridesStatus(tasks: seq<Task>, q: Query, now: int, other: StatusFilter)
    requires q.selectedDay.Some?
    ensures Selected(tasks, q, now) == Selected(tasks, q.(status := other), now)
    ensures forall t :: t in Selected(tasks, q, now) <==>
      t in tasks && MatchesSearch(t, q.search) && t.dueDate.Some? && DayOf(t.dueDate.value) == q.selectedDay.value
  {
    var q' := q.(status := other);
    FilterCongruent(tasks, t => Keeps(q, now, t), t => Keeps(q', now, t));
    forall t: Task | t.dueDate.Some? {
      DayOfBounds(t.dueDate.value, q.selectedDay.value);
    }
  }

  /** Without a selected day, the "pending" and "completed" results are
      disjoint and together are the "all" result. */
  lemma PendingCompletedPartition(tasks: seq<Task>, q: Query, now: int)
    requires q.selectedDay.None?
    ensures var all := Selected(tasks, q.(status := All), now);
      var pending := Selected(tasks, q.(status := Pending), now);
      var completed := Selected(tasks, q.(status := Completed), now);
      multiset(pending) + multiset(completed) == multiset(all)
      && multiset(pending) !! multiset(completed)
  {
    var qa, qp, qc := q.(status := All), q.(status := Pending), q.(status := Completed);
    var all := Selected(tasks, qa, now);
    FilterFilter(tasks, t => Keeps(qa, now, t), IsPending, t => Keeps(qp, now, t));
    FilterFilter(tasks, t => Keeps(qa, now, t), IsCompleted, t => Keeps(qc, now, t));
    CompletionSplit(all);
  }

  /** The "overdue" filter keeps exactly the searched tasks that the task
      card shows as overdue: incomplete, with a due date before now. */
  lemma OverdueFilterMatchesCard(tasks: seq<Task>, q: Query, now: int)
    requires q.selectedDay.None? && q.status == Overdue
    ensures forall t :: t in Selected(tasks, q, now) <==>
      t in tasks && MatchesSearch(t, q.search) && TaskCard.IsOverdue(t, now)
    ensures forall t :: t in Selected(tasks, q, now) ==>
      !t.isComplete && t.dueDate.Some? && t.dueDate.value < now
  {
  }

  /** The sort callback: negative puts `a` first, positive puts `b` first.
      Priority sorts high to low (absent as 0), due date ascending with
      undated tasks last, title by string order, created newest first. */
  function Compare(key: SortKey, a: Task, b: Task): int
  {
    match key
    case ByPriority => PriorityOrZero(b) - PriorityOrZero(a)
    case ByDueDate =>
      if a.dueDate.None? && b.dueDate.None? then 0
      else if a.dueDate.None? then 1
      else if b.dueDate.None? then -1
      else a.dueDate.value - b.dueDate.value
    case ByTitle => LexCompare(a.title, b.title)
    case ByCreated => b.createdAt - a.createdAt
  }

  /** `a` may come before `b`. */
  predicate InOrder(key: SortKey, a: Task, b: Task)
  {
    Compare(key, a, b) <= 0
  }

  /** Any two tasks can be ordered one way or the other. */
  lemma InOrderTotal(key: SortKey, a: Task, b: Task)
    ensures InOrder(key, a, b) || InOrder(key, b, a)
  {
    if key == ByTitle {
      LexCompareAntisymmetric(a.title, b.title);
    }
  }

  /** The order is transitive. */
  lemma InOrderTransitive(key: SortKey, a: Task, b: Task, c: Task)
    requires InOrder(key, a, b) && InOrder(key, b, c)
    ensures InOrder(key, a, c)
  {
    if key == ByTitle {
      LexCompareTransitive(a.title, b.title, c.title);
    }
  }

  /** The filter callback "tied with `x`": the comparator cannot tell it
      from `x`. */
  function TiedWith(key: SortKey, x: Task): Task -> bool
  {
    t => Compare(key, t, x) == 0
  }

  /** Ties are shared: two tasks tied with a third are tied with each
      other. */
  lemma TiesAreShared(key: SortKey, a: Task, b: Task, x: Task)
    ensures Compare(key, a, x) == 0 && Compare(key, b, x) == 0 ==> Compare(key, a, b) == 0
  {
  }

  /** `r` lists the tasks of every group of ties in the order `s` does: the
      sort is stable. */
  ghost predicate KeepsTies(key: SortKey, r: seq<Task>, s: seq<Task>)
  {
    forall x :: Filter(r, TiedWith(key, x)) == Filter(s, TiedWith(key, x))
  }

  lemma KeepsTiesTransitive(key: SortKey, r: seq<Task>, s: seq<Task>, t: seq<Task>)
    requires KeepsTies(key, r, s) && KeepsTies(key, s, t)
    ensures KeepsTies(key, r, t)
  {
  }

  /** One exchange of untied neighbours in a list that keeps the ties of
      `orig` still keeps them. */
  lemma SwapStep(key: SortKey, before: seq<Task>, after: seq<Task>, orig: seq<Task>, j: int)
    requires 0 < j < |before| && Compare(key, before[j - 1], before[j]) != 0
    requires after == before[j - 1 := before[j]][j := before[j - 1]]
    requires KeepsTies(key, before, orig)
    ensures KeepsTies(key, after, orig)
  {
    SwapKeepsTies(key, before, j);
    KeepsTiesTransitive(key, after, before, orig);
  }

  /** Exchanging two neighbours that are not tied keeps every group of ties
      in its order. */
  lemma SwapKeepsTies(key: SortKey, s: seq<Task>, j: int)
    requires 0 < j < |s| && Compare(key, s[j - 1], s[j]) != 0
    ensures KeepsTies(key, s[j - 1 := s[j]][j := s[j - 1]], s)
  {
    var t := s[j - 1 := s[j]][j := s[j - 1]];
    var u, v := s[j - 1], s[j];
    var pre, post := s[..j - 1], s[j + 1..];
    assert s == pre + [u, v] + post;
    assert t == pre + [v, u] + post;
    forall x
      ensures Filter(t, TiedWith(key, x)) == Filter(s, TiedWith(key, x))
    {
      var p := TiedWith(key, x);
      FilterAppend(pre + [u, v], post, p);
      FilterAppend(pre, [u, v], p);
      FilterAppend(pre + [v, u], post, p);
      FilterAppend(pre, [v, u], p);
      TiesAreShared(key, u, v, x);
      FilterPairSwap(u, v, p);
    }
  }

  predicate SortedBy(key: SortKey, s: seq<Task>)
  {
    forall i, j :: 0 <= i < j < |s| ==> InOrder(key, s[i], s[j])
  }

  /** What a sorted list looks like under each sort key. */
  lemma SortedByMeaning(key: SortKey, s: seq<Task>)
    requires SortedBy(key, s)
    ensures key == ByPriority ==>
      forall i, j :: 0 <= i < j < |s| ==> PriorityOrZero(s[i]) >= PriorityOrZero(s[j])
    ensures key == ByDueDate ==>
      forall i, j :: 0 <= i < j < |s| && s[j].dueDate.Some? ==>
        s[i].dueDate.Some? && s[i].dueDate.value <= s[j].dueDate.value
    ensures key == ByTitle ==>
      forall i, j :: 0 <= i < j < |s| ==> LexCompare(s[i].title, s[j].title) <= 0
    ensures key == ByCreated ==>
      forall i, j :: 0 <= i < j < |s| ==> s[i].createdAt >= s[j].createdAt
  {
  }

  /** Exchanges the neighbours at `j - 1` and `j`. */
  method SwapDown(a: array<Task>, j: int)
    requires 0 < j < a.Length
    modifies a
    ensures a[j - 1] == old(a[j]) && a[j] == old(a[j - 1])
    ensures forall k :: 0 <= k < a.Length && k != j - 1 && k != j ==> a[k] == old(a[k])
    ensures a[..] == old(a[..])[j - 1 := old(a[j])][j := old(a[j - 1])]
    ensures multiset(a[..]) == multiset(old(a[..]))
  {
    a[j - 1], a[j] := a[j], a[j - 1];
  }

  /** Exchanges untied neighbours at `j - 1` and `j`, which keeps the ties
      of `orig` in their order. */
  method SwapUntied(a: array<Task>, key: SortKey, j: int, ghost orig: seq<Task>)
    requires 0 < j < a.Length && Compare(key, a[j - 1], a[j]) != 0
    requires KeepsTies(key, a[..], orig)
    modifies a
    ensures a[j - 1] == old(a[j]) && a[j] == old(a[j - 1])
    ensures forall k :: 0 <= k < a.Length && k != j - 1 && k != j ==> a[k] == old(a[k])
    ensures multiset(a[..]) == multiset(old(a[..]))
    ensures KeepsTies(key, a[..], orig)
  {
    ghost var before := a[..];
    SwapDown(a, j);
    SwapStep(key, before, a[..], orig, j);
  }

  /** Moves `a[i]` left past every element that must follow it, and past
      none it is tied with, so that a sorted prefix of length `i` becomes
      one of length `i + 1`. */
  method InsertAt(a: array<Task>, key: SortKey, i: int)
    requires 0 <= i < a.Length
    requires forall p, q :: 0 <= p < q < i ==> InOrder(key, a[p], a[q])
    modifies a
    ensures forall p, q :: 0 <= p < q <= i ==> InOrder(key, a[p], a[q])
    ensures multiset(a[..]) == multiset(old(a[..]))
    ensures KeepsTies(key, a[..], old(a[..]))
  {
    var j := i;
    while j > 0 && Compare(key, a[j - 1], a[j]) > 0
      invariant 0 <= j <= i
      invariant forall p, q :: 0 <= p < q <= i && p != j && q != j ==> InOrder(key, a[p], a[q])
      invariant forall q :: j < q <= i ==> InOrder(key, a[j], a[q])
      invariant multiset(a[..]) == multiset(old(a[..]))
      invariant KeepsTies(key, a[..], old(a[..]))
    {
      InOrderTotal(key, a[j - 1], a[j]);
      SwapUntied(a, key, j, old(a[..]));
      j := j - 1;
    }
    if j > 0 {
      forall p | 0 <= p < j - 1
        ensures InOrder(key, a[p], a[j])
      {
        InOrderTransitive(key, a[p], a[j - 1], a[j]);
      }
    }
  }

  /** `filtered.sort(compare)`: a stable insertion sort on the array in
      place. */
  method SortTasks(a: array<Task>, key: SortKey)
    modifies a
    ensures SortedBy(key, a[..])
    ensures multiset(a[..]) == multiset(old(a[..]))
    ensures KeepsTies(key, a[..], old(a[..]))
  {
    var i := 0;
    while i < a.Length
      invariant 0 <= i <= a.Length
      invariant forall p, q :: 0 <= p < q < i ==> InOrder(key, a[p], a[q])
      invariant multiset(a[..]) == multiset(old(a[..]))
      invariant KeepsTies(key, a[..], old(a[..]))
    {
      ghost var before := a[..];
      InsertAt(a, key, i);
      KeepsTiesTransitive(key, a[..], before, old(a[..]));
      i := i + 1;
    }
  }

  /** `filteredAndSortedTasks`: the filtered tasks, sorted by the chosen
      key; a reordering of part of the input in which tied tasks keep their
      list order. */
  method FilteredAndSorted(tasks: seq<Task>, q: Query, now: int) returns (r: seq<Task>)
    ensures multiset(r) == multiset(Selected(tasks, q, now))
    ensures multiset(r) <= multiset(tasks)
    ensures SortedBy(q.sortBy, r)
    ensures KeepsTies(q.sortBy, r, Selected(tasks, q, now))
  {
    var filtered := Selected(tasks, q, now);
    FilterSubMultiset(tasks, t => Keeps(q, now, t));
    var a := new Task[|filtered|](i requires 0 <= i < |filtered| => filtered[i]);
    assert a[..] == filtered;
    SortTasks(a, q.sortBy);
    r := a[..];
  }

  datatype Stats = Stats(total: nat, completed: nat, pending: nat, overdue: nat, today: nat, completionRate: nat)

  /** The summary cards: how many tasks are completed, pending, pending
      with a passed due date, and due today, and the completion rate
      rounded to a whole percent (0 for an empty list). */
  function DashboardStats(tasks: seq<Task>, now: int): (s: Stats)
    ensures s.total == |tasks|
    ensures s.completed == Count(tasks, IsCompleted) && s.pending == Count(tasks, IsPending)
    ensures s.overdue == Count(Filter(tasks, IsPending), DueBeforeAt(now))
    ensures s.today == Count(tasks, DueOnDay(DayOf(now)))
    ensures s.completed + s.pending == s.total
    ensures s.overdue <= s.pending
    ensures s.today <= s.total
    ensures s.completionRate <= 100
    ensures s.total == 0 ==> s.completionRate == 0
    ensures s.total > 0 ==> 200 * s.completed - s.total < 2 * s.total * s.completionRate <= 200 * s.completed + s.total
  {
    var completed := Filter(tasks, IsCompleted);
    var pending := Filter(tasks, IsPending);
    var overdue := Filter(pending, DueBeforeAt(now));
    var today := Filter(tasks, DueOnDay(DayOf(now)));
    CompletionSplit(tasks);
    Stats(|tasks|, |completed|, |pending|, |overdue|, |today|, RoundedPercent(|completed|, |tasks|))
  }

  /** The overdue figure counts exactly the tasks the card marks overdue. */
  lemma StatsOverdueMatchesCard(tasks: seq<Task>, now: int)
    ensures DashboardStats(tasks, now).overdue == Count(tasks, t => TaskCard.IsOverdue(t, now))
  {
    FilterFilter(tasks, IsPending, DueBeforeAt(now), t => TaskCard.IsOverdue(t, now));
  }

  /** The "today" card counts exactly the list the "today" filter shows
      when there is no search and no selected day. */
  lemma StatsTodayMatchesFilter(tasks: seq<Task>, sortBy: SortKey, now: int)
    ensures DashboardStats(tasks, now).today == |Selected(tasks, Query("", Today, sortBy, None), now)|
  {
    var q := Query("", Today, sortBy, None);
    FilterCongruent(tasks, DueOnDay(DayOf(now)), t => Keeps(q, now, t));
  }
}
