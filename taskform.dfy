/** The task dialog (src/components/TaskFormNew.tsx): its state, the effect
    that fills it from the task being edited or clears it, and the payload
    `handleSubmit` builds and hands to the create or update mutation. */
module TaskForm {
  import opened Common
  import opened Strings
  import opened Time
  import opened Tasks
  import opened TaskService

  const DefaultTime: string := "09:00"

  /** `formData` (title, description, due_date, priority), `selectedDate`
      and `selectedTime`. A priority is `undefined` (Keep), `null`
      (Set(None)) or a number (Set(Some(n))). */
  datatype FormState = FormState(
    title: string,
    description: string,
    dueDate: Option<int>,
    priority: Change<Option<int>>,
    selectedDate: Option<int>,
    selectedTime: string)

  /** `resetForm`: empty fields, no priority, no date, nine o'clock. */
  const Blank := FormState("", "", None, Keep, None, DefaultTime)

  /** date-fns `format(date, "HH:mm")`. */
  function FormatTime(t: int): (s: string)
    ensures |s| == 5 && s[2] == ':'
  {
    TwoDigits(HourOf(t)) + ":" + TwoDigits(MinuteOf(t))
  }

  /** `const [hours, minutes] = selectedTime.split(":")` followed by
      `parseInt` of each; `None` when either is NaN (a missing piece
      included). */
  function ParseTime(s: string): Option<(int, int)>
  {
    var parts := Split(s, ':');
    var hours := ParseInt(parts[0]);
    var minutes := if |parts| >= 2 then ParseInt(parts[1]) else None;
    if hours.Some? && minutes.Some? then Some((hours.value, minutes.value)) else None
  }

  /** A time written by `FormatTime` parses back to its hour and minute. */
  lemma ParseFormattedTime(t: int)
    ensures ParseTime(FormatTime(t)) == Some((HourOf(t), MinuteOf(t)))
  {
    var hh, mm := TwoDigits(HourOf(t)), TwoDigits(MinuteOf(t));
    assert ':' !in hh && ':' !in mm;
    JoinSplit(hh, mm, ':');
    assert FormatTime(t) == hh + [':'] + mm;
    ParseTwoDigits(HourOf(t));
    ParseTwoDigits(MinuteOf(t));
  }

  /** The edit-prefill effect: a task's fields, its due date as the
      selected date and its time of day; without a task, `resetForm`. */
  function Prefill(task: Option<Task>): (f: FormState)
    ensures task.None? ==> f == Blank
    ensures task.Some? ==>
      f.title == task.value.title
      && f.description == (if task.value.description.Some? then task.value.description.value else "")
      && f.priority == Set(task.value.priority)
      && f.selectedDate == task.value.dueDate
    ensures task.Some? && task.value.dueDate.None? ==> f.selectedTime == DefaultTime
    ensures task.Some? && task.value.dueDate.Some? ==>
      ParseTime(f.selectedTime) == Some((HourOf(task.value.dueDate.value), MinuteOf(task.value.dueDate.value)))
  {
    match task
    case None => Blank
    case Some(t) =>
      var description := if t.description.Some? then t.description.value else "";
      if t.dueDate.Some? then
        ParseFormattedTime(t.dueDate.value);
        FormState(t.title, description, t.dueDate, Set(t.priority), t.dueDate, FormatTime(t.dueDate.value))
      else
        FormState(t.title, description, t.dueDate, Set(t.priority), t.dueDate, DefaultTime)
  }

  /** `dueDateTime`: no date, a date at the chosen time, or a time that
      does not parse (the date becomes invalid and `toISOString` throws). */
  datatype Due = NoDate | At(time: int) | InvalidTime

  function DueDateTime(selectedDate: Option<int>, selectedTime: string): (d: Due)
    ensures selectedDate.None? <==> d.NoDate?
    ensures selectedDate.Some? ==> (d.InvalidTime? <==> ParseTime(selectedTime).None?)
    ensures d.At? && ParseTime(selectedTime).Some? ==>
      var (h, m) := ParseTime(selectedTime).value;
      0 <= h < 24 && 0 <= m < 60 ==> DayOf(d.time) == DayOf(selectedDate.value) && HourOf(d.time) == h && MinuteOf(d.time) == m
  {
    match selectedDate
    case None => NoDate
    case Some(date) =>
      match ParseTime(selectedTime)
      case None => InvalidTime
      case Some((h, m)) =>
        assert 0 <= h < 24 && 0 <= m < 60 ==>
          (DayOf(AtTime(date, h, m)) == DayOf(date) && HourOf(AtTime(date, h, m)) == h && MinuteOf(AtTime(date, h, m)) == m) by {
          if 0 <= h < 24 && 0 <= m < 60 {
            AtTimeReadsBack(date, h, m);
          }
        }
        At(AtTime(date, h, m))
  }

  /** `taskData`: `None` stands for the throw of an invalid time. The
      description is `None` (`undefined`) when it trims to nothing. */
  datatype Payload = Payload(
    title: string,
    description: Option<string>,
    dueDate: Option<int>,
    priority: Change<Option<int>>)

  function TaskData(f: FormState): (p: Option<Payload>)
    ensures p.None? <==> DueDateTime(f.selectedDate, f.selectedTime).InvalidTime?
    ensures p.Some? ==> p.value.title == Trim(f.title)
    ensures p.Some? ==> (p.value.description.None? <==> Trim(f.description) == "")
    ensures p.Some? && p.value.description.Some? ==> p.value.description.value == Trim(f.description)
    ensures p.Some? ==> p.value.priority == f.priority
    ensures f.selectedDate.None? ==> p.Some? && p.value.dueDate.None?
    ensures p.Some? && f.selectedDate.Some? ==> p.value.dueDate == Some(DueDateTime(f.selectedDate, f.selectedTime).time)
  {
    var description := Trim(f.description);
    match DueDateTime(f.selectedDate, f.selectedTime)
    case InvalidTime => None
    case NoDate => Some(Payload(Trim(f.title), if description == "" then None else Some(description), None, f.priority))
    case At(t) => Some(Payload(Trim(f.title), if description == "" then None else Some(description), Some(t), f.priority))
  }

  /** What an update sends as written: the payload as JSON, in which an
      `undefined` description or due date is dropped and so leaves the
      stored value in place. */
  function PatchAsWritten(p: Payload): (r: TaskPatch)
    ensures r.title == Set(p.title) && r.priority == p.priority && r.isComplete.Keep?
    ensures p.description.None? ==> r.description.Keep?
    ensures p.description.Some? ==> r.description == Set(p.description)
    ensures p.dueDate.None? ==> r.dueDate.Keep?
    ensures p.dueDate.Some? ==> r.dueDate == Set(p.dueDate)
  {
    TaskPatch(
      Set(p.title),
      if p.description.Some? then Set(p.description) else Keep,
      if p.dueDate.Some? then Set(p.dueDate) else Keep,
      p.priority,
      Keep)
  }

  /** Clearing the description and the due date of a task being edited
      does not clear them: the stored values survive the update. */
  lemma AsWrittenKeepsClearedFields(row: Task, p: Payload)
    requires p.description.None? && p.dueDate.None?
    ensures Patched(row, PatchAsWritten(p)).description == row.description
    ensures Patched(row, PatchAsWritten(p)).dueDate == row.dueDate
  {
  }

  /** The form of a task with notes and a due date, saved after the notes
      were erased and the date unselected, leaves both in the row. */
  lemma AsWrittenCounterexample(row: Task)
    requires row.description.Some? && row.dueDate.Some?
    ensures var f := FormState(row.title, "", row.dueDate, Set(row.priority), None, DefaultTime);
      TaskData(f).Some?
      && Patched(row, PatchAsWritten(TaskData(f).value)).description == row.description != None
      && Patched(row, PatchAsWritten(TaskData(f).value)).dueDate == row.dueDate != None
  {
    var f := FormState(row.title, "", row.dueDate, Set(row.priority), None, DefaultTime);
    assert AllSpace(f.description);
    var p := TaskData(f).value;
    AsWrittenKeepsClearedFields(row, p);
  }

  /** The update the form means to send: every field of the form,
      with a cleared description or due date sent as `null`. */
  function EditPatch(p: Payload): (r: TaskPatch)
    ensures r.title == Set(p.title) && r.priority == p.priority && r.isComplete.Keep?
    ensures r.description == Set(p.description) && r.dueDate == Set(p.dueDate)
  {
    TaskPatch(Set(p.title), Set(p.description), Set(p.dueDate), p.priority, Keep)
  }

  /** After the corrected update the row shows what the form showed. */
  lemma EditPatchReflectsForm(row: Task, p: Payload)
    ensures Patched(row, EditPatch(p)).title == p.title
    ensures Patched(row, EditPatch(p)).description == p.description
    ensures Patched(row, EditPatch(p)).dueDate == p.dueDate
    ensures p.priority.Set? ==> Patched(row, EditPatch(p)).priority == p.priority.value
    ensures Patched(row, EditPatch(p)).isComplete == row.isComplete
    ensures p == Payload(row.title, row.description, row.dueDate, Set(row.priority)) ==> Patched(row, EditPatch(p)) == row
  {
  }

  /** The insert for a new task; an `undefined` priority is stored as no
      priority. */
  function CreateInput(p: Payload): (t: NewTask)
    ensures t.title == p.title && t.description == p.description && t.dueDate == p.dueDate
    ensures t.priority == (if p.priority.Set? then p.priority.value else None)
  {
    NewTask(p.title, p.description, p.dueDate, if p.priority.Set? then p.priority.value else None)
  }

  /** What pressing Save does. */
  datatype Action = Nothing | Throws | Create(input: NewTask) | Update(id: int, patch: TaskPatch)

  /** `handleSubmit`: nothing for a blank title; otherwise the payload goes
      to update (with the edited task's id) or to create. */
  function Submit(f: FormState, task: Option<Task>): (a: Action)
    ensures a.Nothing? <==> Trim(f.title) == ""
    ensures a.Throws? <==> Trim(f.title) != "" && TaskData(f).None?
    ensures a.Create? ==> task.None? && a.input.title == Trim(f.title) != ""
    ensures a.Update? ==> task.Some? && a.id == task.value.id && a.patch.title == Set(Trim(f.title))
    ensures Trim(f.title) != "" && f.selectedDate.None? ==>
      (a.Create? || a.Update?)
      && (a.Create? ==> a.input.dueDate.None?)
      && (a.Update? ==> a.patch.dueDate.Keep?)
    ensures task.None? && Trim(f.title) != "" && TaskData(f).Some? ==> a.Create?
    ensures task.Some? && Trim(f.title) != "" && TaskData(f).Some? ==> a.Update?
    ensures a.Create? ==> TaskData(f).Some? && a.input == CreateInput(TaskData(f).value)
    ensures a.Update? ==> TaskData(f).Some? && a.patch == PatchAsWritten(TaskData(f).value)
  {
    if Trim(f.title) == "" then Nothing
    else match TaskData(f)
      case None => Throws
      case Some(p) =>
        if task.Some? then Update(task.value.id, PatchAsWritten(p)) else Create(CreateInput(p))
  }

  /** The payload of a task's own form is the task's fields, provided its
      title and description carry no surrounding white space and its
      description is not empty. */
  lemma PrefillPayload(t: Task)
    requires Trim(t.title) == t.title
    requires t.description.Some? ==> Trim(t.description.value) == t.description.value != ""
    ensures TaskData(Prefill(Some(t))) == Some(Payload(t.title, t.description, t.dueDate, Set(t.priority)))
  {
    var f := Prefill(Some(t));
    if t.dueDate.Some? {
      var d := t.dueDate.value;
      ParseFormattedTime(d);
      AtOwnTime(d);
      assert DueDateTime(f.selectedDate, f.selectedTime) == At(d);
    } else {
      assert Trim("") == "";
    }
  }

  /** Saving the form of a task with a title sends, for that task, the
      update of its payload as written: the title and priority always,
      the description and due date only when present. */
  lemma SubmitEdit(f: FormState, t: Task, p: Payload)
    requires Trim(f.title) != "" && TaskData(f) == Some(p)
    ensures Submit(f, Some(t)) == Update(t.id, PatchAsWritten(p))
    ensures Patched(t, Submit(f, Some(t)).patch).title == Trim(f.title)
    ensures Trim(f.description) != "" ==> Patched(t, Submit(f, Some(t)).patch).description == Some(Trim(f.description))
    ensures Trim(f.description) == "" ==> Patched(t, Submit(f, Some(t)).patch).description == t.description
  {
  }

  /** Saving a new task's form with a title creates a task with the
      trimmed title, the trimmed description or none when it trims to
      nothing, the chosen priority or none, and the selected date at the
      chosen time or no due date. */
  lemma SubmitCreate(f: FormState)
    requires Trim(f.title) != "" && TaskData(f).Some?
    ensures Submit(f, None).Create?
    ensures Submit(f, None).input.title == Trim(f.title)
    ensures Trim(f.description) != "" ==> Submit(f, None).input.description == Some(Trim(f.description))
    ensures Trim(f.description) == "" ==> Submit(f, None).input.description.None?
    ensures Submit(f, None).input.priority == (if f.priority.Set? then f.priority.value else None)
    ensures f.selectedDate.None? ==> Submit(f, None).input.dueDate.None?
    ensures f.selectedDate.Some? ==>
      Submit(f, None).input.dueDate == Some(DueDateTime(f.selectedDate, f.selectedTime).time)
  {
  }

  /** Opening a task and saving it unchanged writes back the row's own
      values, provided its title and description carry no surrounding
      white space and its description is not empty. */
  lemma SaveUnchanged(t: Task)
    requires Trim(t.title) == t.title != ""
    requires t.description.Some? ==> Trim(t.description.value) == t.description.value != ""
    ensures Submit(Prefill(Some(t)), Some(t)).Update?
    ensures Patched(t, Submit(Prefill(Some(t)), Some(t)).patch) == t
  {
    var f := Prefill(Some(t));
    var p := Payload(t.title, t.description, t.dueDate, Set(t.priority));
    PrefillPayload(t);
    SubmitEdit(f, t, p);
    var a := Submit(f, Some(t));
    assert a.patch == PatchAsWritten(p);
  }

  /** Opening the caller's task and saving it unchanged, with the update
      reaching the store, leaves the table as it was except for the row's
      update time. */
  method SaveUnchangedInStore(store: Store, caller: Session, t: Task, now: int) returns (r: Response<Task>)
    requires store.Valid()
    requires Owner(store.profiles, caller).Ok? && OwnedBy(store.tasks, t.id, Owner(store.profiles, caller).data)
    requires store.tasks[t.id] == t
    requires Trim(t.title) == t.title != ""
    requires t.description.Some? ==> Trim(t.description.value) == t.description.value != ""
    modifies store
    ensures r == Ok(Touched(t, now))
    ensures store.tasks == old(store.tasks)[t.id := Touched(t, now)]
  {
    SaveUnchanged(t);
    var a := Submit(Prefill(Some(t)), Some(t));
    r := store.UpdateTask(caller, a.id, a.patch, Done, now);
  }
}
