/** The task row as the store returns it. Timestamps are milliseconds (see
    module Time); columns the store may leave null are optional. */
module Tasks {
  import opened Common
  import opened Time

  datatype Task = Task(
    id: int,
    userId: int,
    title: string,
    description: Option<string>,
    isComplete: bool,
    createdAt: int,
    updatedAt: int,
    dueDate: Option<int>,
    priority: Option<int>)

  predicate IsCompleted(t: Task)
  {
    t.isComplete
  }

  predicate IsPending(t: Task)
  {
    !t.isComplete
  }

  /** The task has a due date earlier than `now`. */
  predicate DueBefore(t: Task, now: int)
  {
    t.dueDate.Some? && t.dueDate.value < now
  }

  /** The task has a due date falling on day `d` (`isSameDay`). */
  predicate DueOn(t: Task, d: int)
  {
    t.dueDate.Some? && DayOf(t.dueDate.value) == d
  }

  /** The filter callback "due before `now`". */
  function DueBeforeAt(now: int): Task -> bool
  {
    t => DueBefore(t, now)
  }

  /** The filter callback "due on day `d`"; undated tasks never pass. */
  function DueOnDay(d: int): Task -> bool
  {
    t => DueOn(t, d)
  }

  /** `task.priority || 0`: an absent priority reads as 0. */
  function PriorityOrZero(t: Task): int
  {
    if t.priority.Some? then t.priority.value else 0
  }

  /** The day the task was last updated. */
  function UpdatedDay(t: Task): int
  {
    DayOf(t.updatedAt)
  }

  /** The day the task was created. */
  function CreatedDay(t: Task): int
  {
    DayOf(t.createdAt)
  }

  /** Completed and pending tasks split any list: the two filters are
      disjoint and together hold every task of the list. */
  lemma CompletionSplit(s: seq<Task>)
    ensures |Filter(s, IsCompleted)| + |Filter(s, IsPending)| == |s|
    ensures multiset(Filter(s, IsPending)) + multiset(Filter(s, IsCompleted)) == multiset(s)
    ensures multiset(Filter(s, IsPending)) !! multiset(Filter(s, IsCompleted))
  {
    FilterComplement(s, IsCompleted, IsPending);
    var p, c := Filter(s, IsPending), Filter(s, IsCompleted);
    forall t | t in multiset(p)
      ensures t !in multiset(c)
    {
      assert t in p;
    }
  }
}
