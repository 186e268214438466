/** The logic of the task card: the priority badge's label and colour, and
    whether a task is shown as overdue. */
module TaskCard {
  import opened Common
  import opened Tasks

  /** The colour scheme of the priority badge, by design token. */
  datatype BadgeStyle = SuccessStyle | WarningStyle | DestructiveStyle | MutedStyle

  /** `getPriorityColor`: 1, 2 and 3 have their own colour; every other
      value, absent included, gets the muted default. */
  function PriorityColor(priority: Option<int>): (r: BadgeStyle)
    ensures r == SuccessStyle <==> priority == Some(1)
    ensures r == WarningStyle <==> priority == Some(2)
    ensures r == DestructiveStyle <==> priority == Some(3)
    ensures r == MutedStyle <==> !(priority == Some(1) || priority == Some(2) || priority == Some(3))
  {
    match priority
    case Some(1) => SuccessStyle
    case Some(2) => WarningStyle
    case Some(3) => DestructiveStyle
    case _ => MutedStyle
  }

  /** `getPriorityText`. */
  function PriorityText(priority: Option<int>): (r: string)
    ensures r == "Low" <==> priority == Some(1)
    ensures r == "Medium" <==> priority == Some(2)
    ensures r == "High" <==> priority == Some(3)
    ensures r == "No Priority" <==> !(priority == Some(1) || priority == Some(2) || priority == Some(3))
  {
    match priority
    case Some(1) => "Low"
    case Some(2) => "Medium"
    case Some(3) => "High"
    case _ => "No Priority"
  }

  /** The badge is rendered only for a truthy priority: present and not 0. */
  predicate ShowsPriorityBadge(priority: Option<int>)
  {
    priority.Some? && priority.value != 0
  }

  /** A shown badge reads "No Priority" exactly for a non-zero value other
      than 1, 2 or 3; label and colour always agree on which case applies. */
  lemma BadgeLabelAndColour(priority: Option<int>)
    ensures ShowsPriorityBadge(priority) && PriorityText(priority) == "No Priority"
      <==> priority.Some? && priority.value !in {0, 1, 2, 3}
    ensures (PriorityText(priority) == "No Priority") == (PriorityColor(priority) == MutedStyle)
  {
  }

  /** `isOverdue`: a due date earlier than now on a task not yet complete. */
  predicate IsOverdue(t: Task, now: int)
  {
    t.dueDate.Some? && t.dueDate.value < now && !t.isComplete
  }

  /** Overdue tasks are pending and have a due date before now; a task that
      stays incomplete and is overdue now is still overdue later. */
  lemma OverdueIsPendingAndPast(t: Task, now: int, later: int)
    requires now <= later
    ensures IsOverdue(t, now) ==> IsPending(t) && t.dueDate.Some? && t.dueDate.value < now
    ensures IsOverdue(t, now) ==> IsOverdue(t, later)
    ensures IsCompleted(t) ==> !IsOverdue(t, now)
  {
  }
}
