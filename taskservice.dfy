/** The task repository (src/services/taskService.ts): a table of task rows
    and the profile table that maps a signed-in email to the owner id the
    rows carry. Every operation first resolves the caller's profile and then
    touches only that owner's rows. What the hosted store reports for a
    statement (success, an error message, an exception) is a parameter. */
module TaskService {
  import opened Common
  import opened Tasks

  const NotAuthenticated: string := "User not authenticated"
  const ProfileNotFound: string := "User profile not found"
  const TaskNotFound: string := "Task not found"
  const Unexpected: string := "An unexpected error occurred"
  /** The store's message when `.single()` finds no row to return. */
  const SingleRowError: string := "JSON object requested, multiple (or no) rows returned"

  /** Who `auth.getUser()` says is calling. */
  datatype Session = Anonymous | SignedIn(email: string)

  /** How one statement against the store ends. */
  datatype Outcome = Done | Failed(message: string) | Threw

  /** `{ data, error }` (and `{ success, error }` with `bool` data). */
  datatype Response<T> = Ok(data: T) | Err(error: string)

  datatype Profile = Profile(id: int, email: string, username: Option<string>)

  /** `CreateTaskData`: the fields a caller may supply for a new row. */
  datatype NewTask = NewTask(
    title: string,
    description: Option<string>,
    dueDate: Option<int>,
    priority: Option<int>)

  /** One column of an update: left alone (the key is absent from the
      update object) or set to a value (`null` included). */
  datatype Change<T> = Keep | Set(value: T)

  /** `UpdateTaskData`. */
  datatype TaskPatch = TaskPatch(
    title: Change<string>,
    description: Change<Option<string>>,
    dueDate: Change<Option<int>>,
    priority: Change<Option<int>>,
    isComplete: Change<bool>)

  const NoChange := TaskPatch(Keep, Keep, Keep, Keep, Keep)

  /** The object form of a response: exactly one of the two fields is set. */
  function Envelope<T>(r: Response<T>): (e: (Option<T>, Option<string>))
    ensures e.0.Some? != e.1.Some?
    ensures r.Ok? ==> e.0 == Some(r.data)
    ensures r.Err? ==> e.1 == Some(r.error)
  {
    match r
    case Ok(d) => (Some(d), None)
    case Err(m) => (None, Some(m))
  }

  /** The caller's profile id, or why there is none. */
  function Owner(profiles: map<string, Profile>, caller: Session): (r: Response<int>)
    ensures caller.Anonymous? ==> r == Err(NotAuthenticated)
    ensures caller.SignedIn? ==>
      (r.Ok? <==> caller.email in profiles)
      && (r.Ok? ==> r.data == profiles[caller.email].id)
      && (r.Err? ==> r.error == ProfileNotFound)
  {
    match caller
    case Anonymous => Err(NotAuthenticated)
    case SignedIn(email) => if email in profiles then Ok(profiles[email].id) else Err(ProfileNotFound)
  }

  /** Row `id` exists and belongs to `owner`: the `.eq("id", ...)
      .eq("user_id", ...)` match. */
  predicate OwnedBy(tasks: map<int, Task>, id: int, owner: int)
  {
    id in tasks && tasks[id].userId == owner
  }

  /** The row as an update leaves it. */
  function Apply<T>(c: Change<T>, current: T): T
  {
    if c.Set? then c.value else current
  }

  /** `.update(updates)`: the supplied columns take their new values; the
      key, the owner and the timestamps are not among them. */
  function Patched(row: Task, p: TaskPatch): (r: Task)
    ensures r.id == row.id && r.userId == row.userId
    ensures r.createdAt == row.createdAt && r.updatedAt == row.updatedAt
    ensures p.title.Keep? ==> r.title == row.title
    ensures p.description.Keep? ==> r.description == row.description
    ensures p.dueDate.Keep? ==> r.dueDate == row.dueDate
    ensures p.priority.Keep? ==> r.priority == row.priority
    ensures p.isComplete.Keep? ==> r.isComplete == row.isComplete
    ensures p.title.Set? ==> r.title == p.title.value
    ensures p.description.Set? ==> r.description == p.description.value
    ensures p.dueDate.Set? ==> r.dueDate == p.dueDate.value
    ensures p.priority.Set? ==> r.priority == p.priority.value
    ensures p.isComplete.Set? ==> r.isComplete == p.isComplete.value
  {
    row.(title := Apply(p.title, row.title),
         description := Apply(p.description, row.description),
         dueDate := Apply(p.dueDate, row.dueDate),
         priority := Apply(p.priority, row.priority),
         isComplete := Apply(p.isComplete, row.isComplete))
  }

  /** An update that supplies nothing leaves the row as it was, and applying
      the same update twice is the same as applying it once. */
  lemma PatchedLaws(row: Task, p: TaskPatch)
    ensures Patched(row, NoChange) == row
    ensures Patched(Patched(row, p), p) == Patched(row, p)
  {
  }

  /** The row as the store keeps it after a write at `now`: the database
      sets `updated_at` on every update and leaves the rest alone. */
  function Touched(row: Task, now: int): (r: Task)
    ensures r.updatedAt == now
    ensures r.(updatedAt := row.updatedAt) == row
  {
    row.(updatedAt := now)
  }

  /** The write of `toggleTaskComplete`: the completion flag negated. */
  function Toggled(row: Task): (r: Task)
    ensures r.isComplete != row.isComplete
    ensures r == Patched(row, NoChange.(isComplete := Set(!row.isComplete)))
  {
    row.(isComplete := !row.isComplete)
  }

  /** Two toggles restore the row. */
  lemma ToggleTwiceRestores(row: Task)
    ensures Toggled(Toggled(row)) == row
  {
  }

  /** Two stamped toggles restore the row except for its update time,
      which is the second write's. */
  lemma ToggleTwiceTouched(row: Task, first: int, second: int)
    ensures Touched(Toggled(Touched(Toggled(row), first)), second) == Touched(row, second)
  {
  }

  /** The row `createTask` inserts: the supplied fields, the caller as
      owner, and the store's defaults for the rest (a fresh id, not
      complete, both timestamps `now`). */
  function NewRow(id: int, owner: int, input: NewTask, now: int): (r: Task)
    ensures r.userId == owner && r.id == id && !r.isComplete
    ensures r.title == input.title && r.description == input.description
    ensures r.dueDate == input.dueDate && r.priority == input.priority
    ensures r.createdAt == now && r.updatedAt == now
  {
    Task(id, owner, input.title, input.description, false, now, now, input.dueDate, input.priority)
  }

  /** Newest first: `.order("created_at", { ascending: false })`. */
  predicate NewestFirst(rows: seq<Task>)
  {
    forall i, j :: 0 <= i < j < |rows| ==> rows[i].createdAt >= rows[j].createdAt
  }

  predicate DistinctIds(rows: seq<Task>)
  {
    forall i, j :: 0 <= i < j < |rows| ==> rows[i].id != rows[j].id
  }

  /** `row` put into its place in a newest-first list. */
  function InsertNewest(rows: seq<Task>, row: Task): (r: seq<Task>)
    ensures multiset(r) == multiset(rows) + multiset{row}
  {
    if rows == [] then [row]
    else if rows[0].createdAt <= row.createdAt then [row] + rows
    else
      assert rows == [rows[0]] + rows[1..];
      [rows[0]] + InsertNewest(rows[1..], row)
  }

  /** Insertion keeps the list newest first. */
  lemma {:induction false} InsertNewestSorted(rows: seq<Task>, row: Task)
    requires NewestFirst(rows)
    ensures NewestFirst(InsertNewest(rows, row))
  {
    if rows != [] && rows[0].createdAt > row.createdAt {
      InsertNewestSorted(rows[1..], row);
      var rest := InsertNewest(rows[1..], row);
      forall x | x in rest ensures x.createdAt <= rows[0].createdAt {
        assert x in multiset(rest);
        if x != row {
          assert x in multiset(rows[1..]);
        }
      }
      assert InsertNewest(rows, row) == [rows[0]] + rest;
    }
  }

  /** Inserting a row whose id is new keeps the ids distinct. */
  lemma {:induction false} InsertNewestDistinct(rows: seq<Task>, row: Task)
    requires DistinctIds(rows)
    requires forall t :: t in rows ==> t.id != row.id
    ensures DistinctIds(InsertNewest(rows, row))
  {
    if rows != [] && rows[0].createdAt > row.createdAt {
      InsertNewestDistinct(rows[1..], row);
      var rest := InsertNewest(rows[1..], row);
      forall x | x in rest ensures x.id != rows[0].id {
        assert x in multiset(rest);
        if x != row {
          assert x in rows[1..];
        }
      }
    }
  }

  /** What `getTasks` returns for `owner`: exactly the owner's rows, each
      once, newest first. */
  ghost predicate IsListing(tasks: map<int, Task>, rows: seq<Task>, owner: int)
  {
    (forall t :: t in rows ==> t.id in tasks && tasks[t.id] == t && t.userId == owner)
    && (forall id :: OwnedBy(tasks, id, owner) ==> tasks[id] in rows)
    && DistinctIds(rows)
    && NewestFirst(rows)
  }

  /** The listing of `owner` among the rows whose id is below `bound`. */
  ghost predicate ListingBelow(tasks: map<int, Task>, rows: seq<Task>, owner: int, bound: int)
  {
    (forall t :: t in rows ==> t.id in tasks && tasks[t.id] == t && t.userId == owner && t.id < bound)
    && (forall id :: OwnedBy(tasks, id, owner) && id < bound ==> tasks[id] in rows)
    && DistinctIds(rows)
    && NewestFirst(rows)
  }

  /** Visiting row `id` extends the listing by one id: an owned row is
      inserted in its place, any other id adds nothing. */
  lemma ListingStep(tasks: map<int, Task>, rows: seq<Task>, owner: int, id: int)
    requires ListingBelow(tasks, rows, owner, id)
    requires id in tasks ==> tasks[id].id == id
    ensures OwnedBy(tasks, id, owner) ==> ListingBelow(tasks, InsertNewest(rows, tasks[id]), owner, id + 1)
    ensures !OwnedBy(tasks, id, owner) ==> ListingBelow(tasks, rows, owner, id + 1)
  {
    if OwnedBy(tasks, id, owner) {
      var row := tasks[id];
      var next := InsertNewest(rows, row);
      InsertNewestSorted(rows, row);
      InsertNewestDistinct(rows, row);
      forall t | t in next
        ensures t.id in tasks && tasks[t.id] == t && t.userId == owner && t.id < id + 1
      {
        assert t in multiset(next);
        if t != row {
          assert t in multiset(rows);
        }
      }
      forall k | OwnedBy(tasks, k, owner) && k < id + 1
        ensures tasks[k] in next
      {
        if k < id {
          assert tasks[k] in multiset(rows);
        }
        assert tasks[k] in multiset(next);
      }
    }
  }

  /** Once every id below the counter is visited, the listing is complete. */
  lemma ListingComplete(tasks: map<int, Task>, rows: seq<Task>, owner: int, bound: int)
    requires ListingBelow(tasks, rows, owner, bound)
    requires forall id :: id in tasks ==> id < bound
    ensures IsListing(tasks, rows, owner)
  {
  }

  class Store {
    var tasks: map<int, Task>
    var profiles: map<string, Profile>
    /** The identity columns' next values. */
    var nextTaskId: int
    var nextProfileId: int

    /** Rows are keyed by their own id, ids come from counters ahead of
        every row, and profiles are keyed by their email. */
    ghost predicate Valid()
      reads this
    {
      1 <= nextTaskId
      && (forall id :: id in tasks ==> tasks[id].id == id && 1 <= id < nextTaskId)
      && (forall e :: e in profiles ==> profiles[e].email == e && profiles[e].id < nextProfileId)
    }

    constructor ()
      ensures Valid()
      ensures tasks == map[] && profiles == map[]
    {
      tasks := map[];
      profiles := map[];
      nextTaskId := 1;
      nextProfileId := 1;
    }

    /** The select behind `getTasks`, once the owner is known: the rows
        are visited by id and each owned one is put in its place. */
    method OwnedRows(owner: int) returns (rows: seq<Task>)
      requires Valid()
      ensures IsListing(tasks, rows, owner)
    {
      rows := [];
      var id := 1;
      while id < nextTaskId
        invariant 1 <= id <= nextTaskId
        invariant ListingBelow(tasks, rows, owner, id)
      {
        ListingStep(tasks, rows, owner, id);
        if OwnedBy(tasks, id, owner) {
          rows := InsertNewest(rows, tasks[id]);
        }
        id := id + 1;
      }
      ListingComplete(tasks, rows, owner, nextTaskId);
    }

    /** `getTasks`: the caller's rows, newest first; nothing changes. */
    method GetTasks(caller: Session, outcome: Outcome) returns (r: Response<seq<Task>>)
      requires Valid()
      ensures outcome.Threw? ==> r == Err(Unexpected)
      ensures !outcome.Threw? && Owner(profiles, caller).Err? ==> r == Err(Owner(profiles, caller).error)
      ensures !outcome.Threw? && Owner(profiles, caller).Ok? ==>
        (outcome.Failed? ==> r == Err(outcome.message))
        && (outcome.Done? ==> r.Ok? && IsListing(tasks, r.data, Owner(profiles, caller).data))
    {
      if outcome.Threw? {
        return Err(Unexpected);
      }
      var owner := Owner(profiles, caller);
      if owner.Err? {
        return Err(owner.error);
      }
      if outcome.Failed? {
        return Err(outcome.message);
      }
      var rows := OwnedRows(owner.data);
      r := Ok(rows);
    }

    /** `createTask`: one new row owned by the caller, whatever the input
        holds. */
    method CreateTask(caller: Session, input: NewTask, outcome: Outcome, now: int) returns (r: Response<Task>)
      requires Valid()
      modifies this
      ensures Valid()
      ensures profiles == old(profiles) && nextProfileId == old(nextProfileId)
      ensures outcome.Threw? ==> r == Err(Unexpected) && tasks == old(tasks)
      ensures !outcome.Threw? && Owner(profiles, caller).Err? ==>
        r == Err(Owner(profiles, caller).error) && tasks == old(tasks)
      ensures !outcome.Threw? && Owner(profiles, caller).Ok? && outcome.Failed? ==>
        r == Err(outcome.message) && tasks == old(tasks)
      ensures !outcome.Threw? && Owner(profiles, caller).Ok? && outcome.Done? ==>
        var row := NewRow(old(nextTaskId), Owner(profiles, caller).data, input, now);
        r == Ok(row) && row.id !in old(tasks) && tasks == old(tasks)[row.id := row]
    {
      if outcome.Threw? {
        return Err(Unexpected);
      }
      var owner := Owner(profiles, caller);
      if owner.Err? {
        return Err(owner.error);
      }
      if outcome.Failed? {
        return Err(outcome.message);
      }
      var row := NewRow(nextTaskId, owner.data, input, now);
      tasks := tasks[row.id := row];
      nextTaskId := nextTaskId + 1;
      r := Ok(row);
    }

    /** `updateTask`: only the caller's row `id` changes, and only in the
        supplied columns and its update time; without such a row
        `.single()` fails. */
    method UpdateTask(caller: Session, id: int, patch: TaskPatch, outcome: Outcome, now: int) returns (r: Response<Task>)
      requires Valid()
      modifies this
      ensures Valid()
      ensures profiles == old(profiles) && nextProfileId == old(nextProfileId) && nextTaskId == old(nextTaskId)
      ensures outcome.Threw? ==> r == Err(Unexpected) && tasks == old(tasks)
      ensures !outcome.Threw? && Owner(profiles, caller).Err? ==>
        r == Err(Owner(profiles, caller).error) && tasks == old(tasks)
      ensures !outcome.Threw? && Owner(profiles, caller).Ok? && outcome.Failed? ==>
        r == Err(outcome.message) && tasks == old(tasks)
      ensures !outcome.Threw? && Owner(profiles, caller).Ok? && outcome.Done? ==>
        if OwnedBy(old(tasks), id, Owner(profiles, caller).data) then
          var row := Touched(Patched(old(tasks)[id], patch), now);
          r == Ok(row) && tasks == old(tasks)[id := row]
        else
          r == Err(SingleRowError) && tasks == old(tasks)
    {
      if outcome.Threw? {
        return Err(Unexpected);
      }
      var owner := Owner(profiles, caller);
      if owner.Err? {
        return Err(owner.error);
      }
      if outcome.Failed? {
        return Err(outcome.message);
      }
      if !OwnedBy(tasks, id, owner.data) {
        return Err(SingleRowError);
      }
      var row := Touched(Patched(tasks[id], patch), now);
      tasks := tasks[id := row];
      r := Ok(row);
    }

    /** `deleteTask`: removes the caller's row `id` if there is one, and
        reports success either way. */
    method DeleteTask(caller: Session, id: int, outcome: Outcome) returns (r: Response<bool>)
      requires Valid()
      modifies this
      ensures Valid()
      ensures profiles == old(profiles) && nextProfileId == old(nextProfileId) && nextTaskId == old(nextTaskId)
      ensures outcome.Threw? ==> r == Err(Unexpected) && tasks == old(tasks)
      ensures !outcome.Threw? && Owner(profiles, caller).Err? ==>
        r == Err(Owner(profiles, caller).error) && tasks == old(tasks)
      ensures !outcome.Threw? && Owner(profiles, caller).Ok? && outcome.Failed? ==>
        r == Err(outcome.message) && tasks == old(tasks)
      ensures !outcome.Threw? && Owner(profiles, caller).Ok? && outcome.Done? ==>
        r == Ok(true)
        && tasks == if OwnedBy(old(tasks), id, Owner(profiles, caller).data) then old(tasks) - {id} else old(tasks)
    {
      if outcome.Threw? {
        return Err(Unexpected);
      }
      var owner := Owner(profiles, caller);
      if owner.Err? {
        return Err(owner.error);
      }
      if outcome.Failed? {
        return Err(outcome.message);
      }
      if OwnedBy(tasks, id, owner.data) {
        tasks := tasks - {id};
      }
      r := Ok(true);
    }

    /** `toggleTaskComplete`: read the caller's row `id`, then write the
        negation of the flag that was read. A failed read is reported as
        "Task not found"; the write is reached only after a successful
        read. */
    method ToggleTaskComplete(caller: Session, id: int, read: Outcome, write: Outcome, now: int) returns (r: Response<Task>)
      requires Valid()
      modifies this
      ensures Valid()
      ensures profiles == old(profiles) && nextProfileId == old(nextProfileId) && nextTaskId == old(nextTaskId)
      ensures r.Err? ==> tasks == old(tasks)
      ensures read.Threw? ==> r == Err(Unexpected)
      ensures !read.Threw? && Owner(profiles, caller).Err? ==> r == Err(Owner(profiles, caller).error)
      ensures !read.Threw? && Owner(profiles, caller).Ok? ==>
        var owner := Owner(profiles, caller).data;
        if read.Failed? || !OwnedBy(old(tasks), id, owner) then r == Err(TaskNotFound)
        else if write.Threw? then r == Err(Unexpected)
        else if write.Failed? then r == Err(write.message)
        else
          var row := Touched(Toggled(old(tasks)[id]), now);
          r == Ok(row) && tasks == old(tasks)[id := row]
    {
      if read.Threw? {
        return Err(Unexpected);
      }
      var owner := Owner(profiles, caller);
      if owner.Err? {
        return Err(owner.error);
      }
      if read.Failed? || !OwnedBy(tasks, id, owner.data) {
        return Err(TaskNotFound);
      }
      var current := tasks[id].isComplete;
      if write.Threw? {
        return Err(Unexpected);
      }
      if write.Failed? {
        return Err(write.message);
      }
      var row := Touched(Patched(tasks[id], NoChange.(isComplete := Set(!current))), now);
      tasks := tasks[id := row];
      r := Ok(row);
    }

    /** The profile step of sign-in and of the OAuth callback: insert a
        profile for `email` only when none exists. */
    method EnsureProfile(email: string, username: Option<string>, insertOk: bool) returns (ok: bool)
      requires Valid()
      modifies this
      ensures Valid()
      ensures tasks == old(tasks) && nextTaskId == old(nextTaskId)
      ensures email in old(profiles) ==> ok && profiles == old(profiles) && nextProfileId == old(nextProfileId)
      ensures email !in old(profiles) ==> ok == insertOk
      ensures email !in old(profiles) && insertOk ==>
        profiles == old(profiles)[email := Profile(old(nextProfileId), email, username)]
      ensures !ok ==> profiles == old(profiles)
      ensures ok ==> email in profiles
    {
      if email in profiles {
        return true;
      }
      if !insertOk {
        return false;
      }
      profiles := profiles[email := Profile(nextProfileId, email, username)];
      nextProfileId := nextProfileId + 1;
      ok := true;
    }
  }

  /** Two toggles in sequence, both reaching the store, leave the table as
      it was except for the update time of the toggled row: either both
      find the caller's row and restore its flag, or neither changes
      anything. */
  method ToggleTwice(store: Store, caller: Session, id: int, first: int, second: int)
    requires store.Valid()
    modifies store
    ensures store.Valid()
    ensures var owner := Owner(old(store.profiles), caller);
      if owner.Ok? && OwnedBy(old(store.tasks), id, owner.data) then
        store.tasks == old(store.tasks)[id := Touched(old(store.tasks)[id], second)]
      else
        store.tasks == old(store.tasks)
  {
    var r1 := store.ToggleTaskComplete(caller, id, Done, Done, first);
    var r2 := store.ToggleTaskComplete(caller, id, Done, Done, second);
    if r1.Ok? {
      ToggleTwiceTouched(old(store.tasks)[id], first, second);
    }
  }
}
