# Domore: a verified model of the task manager's core

Domore is a Next.js to-do application backed by Supabase. A signed-in user
keeps a list of tasks. Each task has:

- a title;
- an optional description, due date and priority (1 low, 2 medium, 3 high);
- a completion flag;
- creation and update timestamps.

The user reaches these tasks through several screens:

- a dashboard with search, a status filter, an optional calendar day and four sort orders;
- a month calendar;
- an analytics page (present twice in the code base, with the same logic);
- a dialog that creates or edits a task.

The data sits behind a small repository (`taskService.ts`), which scopes every read and write to the caller's profile. The auth server actions and the OAuth callback decide which messages and redirects the user sees.

This project states that behaviour in Dafny and proves properties of it.

## Modules

- `Common`: optional values and order-preserving `Filter` and `Count` over sequences. It also holds per-key histograms and `Math.round` of a percentage or of tenths, written as integer arithmetic.
- `Strings`: the JavaScript string operations the code relies on, written out over `seq<char>`: `toLowerCase`, `includes`, `trim`, `split(":")`, decimal `parseInt`, two-digit formatting and a three-way string comparison.
- `Time`: instants as integer milliseconds (UTC). Days, weeks from Sunday to Saturday, Gregorian months, and the hour and minute of a timestamp.
- `Tasks`: the task row.
- `TaskCard`: the card's priority label and colour, and its overdue flag.
- `Dashboard`: the three-stage filter and the sort callback. The sort is an insertion sort done in place on an array. It also holds the summary cards.
- `Analytics`: the summary figures, the priority and status pies, the weekly and 30-day series, and the completion-time figures.
- `Calendar`: the tasks of the selected day, the month grid of day squares, and the month summary.
- `TaskHooks`: the query functions of `useTasks` and `useTaskStats`. This includes the loop that builds the seven-day series.
- `TaskService`: the repository as a class `Store` whose fields are the `tasks` and `user_profiles` tables. Each method models one repository call, with the database's answers as parameters.
- `TaskForm`: the task dialog's state, its prefill, and the payload and mutation that Save produces.
- `AuthActions`: `signUp`, `signIn`, `forgotPassword` and `resetPassword`.
- `AuthCallback`: the OAuth callback route.

## Model

| member | source | states |
|---|---|---|
| Common.RoundedPercent | src/app/dashboard/page-new.tsx:147-150 | the completion rate is within 0..100, is 0 for an empty list, and is the nearest whole percent of completed over total |
| Common.RoundedTenths | src/app/analytics/page.tsx:155-156 | a figure shown to one decimal is within half a tenth of the exact mean |
| Common.FilterComplement | src/app/dashboard/page-new.tsx:132-133 | a filter and its negation split a list: the sizes add up and the two multisets make up the list |
| Common.PerKeySum | src/app/analytics/page.tsx:101-128 | a per-day histogram over consecutive days sums to the number of elements whose day lies in that range |
| Strings.ToLower | src/app/dashboard/page-new.tsx:63-71 | lower-casing keeps the length and leaves no upper-case ASCII letter |
| Strings.Includes | src/actions/auth.ts:43-63 | `includes` holds exactly when the fragment occurs at some position |
| Strings.Trim | src/components/TaskFormNew.tsx:91-93 | the trimmed text occurs in the input, neither starts nor ends with white space, and is empty exactly when the input is all white space |
| Strings.TrimOfTrimmed | src/components/TaskFormNew.tsx:107-108 | text that neither starts nor ends with white space is its own trim |
| Strings.TrimIdempotent | src/components/TaskFormNew.tsx:107-108 | trimming twice is trimming once |
| Strings.SplitJoin | src/components/TaskFormNew.tsx:98 | the pieces of a split join back into the string |
| Strings.ParseTwoDigits | src/components/TaskFormNew.tsx:100 | a zero-padded two-digit field parses back to its number |
| Strings.LexCompareTransitive | src/app/dashboard/page-new.tsx:118-119 | the title order is transitive: a title at or before a second, and the second at or before a third, puts the first at or before the third |
| Time.DayOfBounds | src/app/dashboard/page-new.tsx:74-81 | an instant lies between a day's `startOfDay` and `endOfDay` exactly when it falls on that day |
| Time.StartOfWeek | src/app/analytics/page.tsx:58 | the start of the week is the Sunday on or before the day |
| Time.EndOfWeek | src/app/analytics/page.tsx:59 | the end of the week is the Saturday on or after the day |
| Time.DaysInMonth | src/app/dashboard/calendar/page.tsx:51-53 | every month has 28 to 31 days, and February has 29 exactly in a leap year |
| Time.MarchYearLength | src/app/dashboard/calendar/page.tsx:51-53 | the year that runs from March to March has 366 days exactly when it ends in a leap year, else 365 |
| Time.MonthsFollowEachOther | src/app/dashboard/calendar/page.tsx:51-53 | each month starts the day after the previous one ends, December to January included, so `startOfMonth` and the month lengths agree |
| Time.AtTimeReadsBack | src/components/TaskFormNew.tsx:96-101 | `setHours(h, m)` with an in-range time keeps the day and reads back `h` and `m` |
| Time.AtOwnTime | src/components/TaskFormNew.tsx:99-100 | setting an instant to its own hour and minute gives the instant back |
| Tasks.CompletionSplit | src/hooks/useTasks.ts:125-126 | completed and pending tasks partition any list |
| TaskCard.PriorityColor | src/components/TaskCard.tsx:25-36 | colours for 1, 2 and 3, each exactly for that value, and the muted style for anything else |
| TaskCard.PriorityText | src/components/TaskCard.tsx:38-49 | "Low", "Medium", "High" exactly for 1, 2, 3, and "No Priority" exactly otherwise |
| TaskCard.BadgeLabelAndColour | src/components/TaskCard.tsx:137-145 | a shown badge says "No Priority" exactly for a non-zero value outside 1..3, and the label and colour agree on that case |
| TaskCard.OverdueIsPendingAndPast | src/components/TaskCard.tsx:76-77 | an overdue task is incomplete and due before now; it stays overdue as time passes; a complete task is never overdue |
| Dashboard.SelectedIsStaged | src/app/dashboard/page-new.tsx:61-102 | the filter is search first, then the day or the status on what is left |
| Dashboard.EmptySearchRemovesNothing | src/app/dashboard/page-new.tsx:63-64 | an empty search keeps every task |
| Dashboard.SearchKeepsOnlyMatches | src/app/dashboard/page-new.tsx:63-71 | with a search, a task is listed exactly when the lower-cased search text occurs in its lower-cased title or description and it passes the later stages |
| Dashboard.SelectedDayOverridesStatus | src/app/dashboard/page-new.tsx:74-81 | with a day selected the status filter has no effect, and the list is exactly the searched tasks due that day |
| Dashboard.PendingCompletedPartition | src/app/dashboard/page-new.tsx:84-101 | the "pending" and "completed" results split the "all" result |
| Dashboard.OverdueFilterMatchesCard | src/app/dashboard/page-new.tsx:90-94 | the "overdue" filter keeps exactly the searched tasks that the card marks overdue |
| Dashboard.InOrderTotal | src/app/dashboard/page-new.tsx:105-126 | any two tasks can be put in order under every sort key |
| Dashboard.InOrderTransitive | src/app/dashboard/page-new.tsx:105-126 | the order of each sort key is transitive, so the comparator is consistent |
| Dashboard.SortedByMeaning | src/app/dashboard/page-new.tsx:107-124 | a sorted list has priorities non-increasing, due dates non-decreasing with undated tasks last, titles ascending, or creation times non-increasing |
| Dashboard.SwapDown | src/app/dashboard/page-new.tsx:105 | exchanging two neighbours changes only those two slots, swapping them, and keeps the multiset |
| Dashboard.SwapKeepsTies | src/app/dashboard/page-new.tsx:105-126 | exchanging two neighbours the comparator does not tie keeps every group of tied tasks in its order |
| Dashboard.InsertAt | src/app/dashboard/page-new.tsx:105-126 | inserting the next element extends the sorted prefix by one, keeps the multiset, and never moves an element past one it is tied with |
| Dashboard.SortTasks | src/app/dashboard/page-new.tsx:105-126 | the array ends sorted by the chosen key, is a permutation of what it held, and tasks the comparator ties keep their relative order (the sort is stable) |
| Dashboard.FilteredAndSorted | src/app/dashboard/page-new.tsx:60-128 | the result is the filtered tasks, each as often as they were selected, sorted by the chosen key, with tied tasks in list order |
| Dashboard.DashboardStats | src/app/dashboard/page-new.tsx:131-152 | the cards count the completed tasks, the pending ones, the pending ones due before now and the ones due today; completed plus pending is the total; the rate is the rounded percent, 0 for no tasks |
| Dashboard.StatsOverdueMatchesCard | src/app/dashboard/page-new.tsx:134-136 | the overdue card counts exactly the tasks the task card marks overdue |
| Dashboard.StatsTodayMatchesFilter | src/app/dashboard/page-new.tsx:95-96 | the "today" card counts exactly the list the "today" filter shows with no search and no selected day |
| Analytics.OverdueWithinPending | src/app/analytics/page.tsx:62-66 | overdue tasks are exactly the incomplete tasks due before now, and form a sub-multiset of the pending ones |
| Analytics.PriorityData | src/app/dashboard/analytics/page.tsx:55-77 | each slice counts its bucket and is non-empty, and a bucket has a slice exactly when some task falls into it |
| Analytics.DroppingEmptySlices | src/app/analytics/page.tsx:91 | dropping empty slices leaves a pie's total unchanged |
| Analytics.PriorityTotal | src/app/analytics/page.tsx:69-91 | the pie adds up to at most the number of tasks, and to exactly that number when every priority is absent or 0..3 |
| Analytics.StatusData | src/app/dashboard/analytics/page.tsx:80-96 | the completed, pending and overdue slices in that order, each present exactly when its figure is positive, and no other slice |
| Analytics.WeeklySeries | src/app/analytics/page.tsx:101-113 | seven consecutive days from the Sunday to the Saturday of the current week, today among them |
| Analytics.WeeklyPointMeaning | src/app/analytics/page.tsx:104-111 | each weekly point counts the completed tasks last updated on its day |
| Analytics.WeeklySeriesSum | src/app/analytics/page.tsx:101-113 | the weekly points add up to the completed tasks updated this week, never more than the completed tasks |
| Analytics.MonthlySeries | src/app/dashboard/analytics/page.tsx:114-126 | thirty consecutive days ending today, oldest first |
| Analytics.MonthlySeriesSums | src/app/analytics/page.tsx:116-128 | the 30-day creations and completions add up to the tasks created, and the completed tasks updated, within those 30 days |
| Analytics.DiffDays | src/app/analytics/page.tsx:140-143 | `differenceInDays` is the number of whole days between two instants, truncated toward zero |
| Analytics.DiffDaysAntisymmetric | src/app/dashboard/analytics/page.tsx:138-141 | swapping the instants negates the difference |
| Analytics.AvgCompletionTime | src/app/analytics/page.tsx:135-146 | 0 with nothing completed, otherwise within half a tenth of the mean days from creation to last update |
| Analytics.AvgCompletionTimeNonNegative | src/app/dashboard/analytics/page.tsx:133-144 | no task updated before it was created gives a non-negative mean |
| Analytics.BasicStats | src/app/analytics/page.tsx:149-157 | the figures count the tasks, the completed ones, the pending ones and the pending ones due before now; completed plus pending is the total; the rate is the rounded percent; tasks per day is the total over 30, in tenths; the completion time is the mean over the completed tasks |
| Analytics.Analytics | src/app/dashboard/analytics/page.tsx:40-163 | nothing for an empty list; otherwise the summary figures, the priority pie, the status pie of the summary's figures, the week's series of the completed tasks and the 30-day series |
| Calendar.SelectedDateTasks | src/app/dashboard/calendar/page.tsx:42-47 | the tasks due on the selected day, in list order, each as often as it occurs in the list |
| Calendar.SelectedDateTasksUnique | src/app/dashboard/calendar/page.tsx:42-47 | those properties determine the list: any subsequence of the tasks that holds each task due that day as often as the list does, and nothing else, is that list |
| Calendar.CompletedAndOverdueFit | src/app/dashboard/calendar/page.tsx:64-68 | a square's completed and overdue figures together never exceed its tasks |
| Calendar.Cell | src/app/dashboard/calendar/page.tsx:55-68 | a square holds exactly the tasks due on its day; its figures count them, the completed ones and the ones overdue now; completed and overdue together never exceed the tasks |
| Calendar.CellListsSelectedDay | src/app/dashboard/calendar/page.tsx:42-59 | a square lists the same tasks, in the same order, as selecting its day does |
| Calendar.PastDayPendingAreOverdue | src/app/dashboard/calendar/page.tsx:66-68 | on a day that has ended, every incomplete task in the square counts as overdue |
| Calendar.FutureDayHasNoOverdue | src/app/dashboard/calendar/page.tsx:66-68 | a day that has not started shows nothing overdue |
| Calendar.MonthGrid | src/app/dashboard/calendar/page.tsx:50-70 | whole weeks of consecutive days, Sunday to Saturday, covering the whole month; square `i` is the square of the grid's `i`-th day |
| Calendar.EachTaskInOneCell | src/app/dashboard/calendar/page.tsx:55-59 | a task due within the grid's range sits in exactly one square, the square of its day |
| Calendar.RowCounts | src/app/dashboard/calendar/page.tsx:55-59 | the task figures of consecutive squares are the histogram of the dated tasks' due days over those days |
| Calendar.GridCounts | src/app/dashboard/calendar/page.tsx:50-70 | the grid's task figures are the histogram of the dated tasks' due days over the grid's days |
| Calendar.GridTaskTotal | src/app/dashboard/calendar/page.tsx:50-70 | the squares' task figures add up to the number of dated tasks due within the grid's days, so never to more than the tasks |
| Calendar.MonthSummary | src/app/dashboard/calendar/page.tsx:331-366 | the summary counts completed, pending and overdue over all loaded tasks; completed plus pending is the total |
| TaskHooks.LoadTasks | src/hooks/useTasks.ts:20-31 | a non-empty error is thrown; otherwise the data, or no tasks when the data is missing |
| TaskHooks.LoadServiceResult | src/hooks/useTasks.ts:24-29 | a repository success yields its rows, a failure with a message throws it, and a failure with an empty message reads as no tasks |
| TaskHooks.DailyStats | src/hooks/useTasks.ts:160-175 | seven entries for the six days before today and today; each counts the tasks created that day and the completed ones among them |
| TaskHooks.ComputeTaskStats | src/hooks/useTasks.ts:124-187 | each figure counts what its name says: completed, pending, pending due before now, each priority by value; the rates are the rounded percents over all tasks and over those created in the last seven days, 0 with no tasks; the daily series of created and completed tasks |
| TaskHooks.UseTaskStats | src/hooks/useTasks.ts:115-190 | the repository's error is thrown; otherwise the figures of `ComputeTaskStats` for its rows, which are none when the data is missing |
| TaskHooks.TaskStatsAgree | src/hooks/useTasks.ts:124-147 | the hook's completion figures and rate agree with the dashboard cards and with the analytics summary |
| TaskService.Envelope | src/services/taskService.ts:31-72 | a response object sets exactly one of `data` and `error` |
| TaskService.Owner | src/services/taskService.ts:42-55 | no session gives "User not authenticated", a session without a profile gives "User profile not found", otherwise the profile's id |
| TaskService.Patched | src/services/taskService.ts:147-153 | an update sets each column it supplies to the supplied value and keeps every other column; the id, the owner and the timestamps are kept |
| TaskService.Touched | src/services/taskService.ts:147-153 | the row an update writes has `updated_at` stamped with the write time (by the database trigger, outside this code base) and nothing else changed |
| TaskService.PatchedLaws | src/services/taskService.ts:147-153 | an empty update leaves the row as it was, and an update applied twice equals one application |
| TaskService.Toggled | src/services/taskService.ts:247-253 | the toggle is the update that sets `is_complete` to its negation |
| TaskService.ToggleTwiceRestores | src/services/taskService.ts:247-253 | two toggles restore the row |
| TaskService.ToggleTwiceTouched | src/services/taskService.ts:247-253 | two stamped toggles restore the row except for its update time, which is the second write's |
| TaskService.NewRow | src/services/taskService.ts:100-107 | a new row has the supplied fields and the caller as owner; it starts incomplete, and both timestamps are the insert time |
| TaskService.InsertNewestSorted | src/services/taskService.ts:57-61 | inserting a row into a newest-first list keeps it newest first |
| TaskService.Store.OwnedRows | src/services/taskService.ts:57-61 | the select returns exactly the owner's rows, each once, newest first |
| TaskService.Store.GetTasks | src/services/taskService.ts:31-72 | an exception gives "An unexpected error occurred", then the auth errors, then the database error; on success, the caller's listing |
| TaskService.Store.CreateTask | src/services/taskService.ts:75-118 | on success the table gains exactly the new row, owned by the caller, under a fresh id; on any error the table is unchanged |
| TaskService.Store.UpdateTask | src/services/taskService.ts:121-164 | an owned row is replaced by its patched version, stamped with the update time; an id that is missing or owned by someone else gives the single-row error, and the table is unchanged |
| TaskService.Store.DeleteTask | src/services/taskService.ts:167-207 | deletes the row only if the caller owns it, and reports success whether or not a row matched |
| TaskService.Store.ToggleTaskComplete | src/services/taskService.ts:210-264 | a failed or empty read gives "Task not found"; the write is attempted only after it; otherwise the row is toggled, stamped and returned |
| TaskService.Store.EnsureProfile | src/actions/auth.ts:132-151 | a profile is inserted only when none exists for the email; a failed insert changes nothing |
| TaskService.ToggleTwice | src/services/taskService.ts:210-264 | toggling the same task twice leaves the table as it was, except for the update time of that task's row |
| TaskForm.ParseFormattedTime | src/components/TaskFormNew.tsx:98-100 | an `HH:mm` time parses back to the hour and minute it came from |
| TaskForm.Prefill | src/components/TaskFormNew.tsx:55-86 | editing fills the form from the task, its due date and that date's time of day; otherwise the blank form |
| TaskForm.DueDateTime | src/components/TaskFormNew.tsx:96-102 | no date gives no due date, and an unparsable time is an invalid date; otherwise the selected day at the chosen time |
| TaskForm.TaskData | src/components/TaskFormNew.tsx:104-109 | a trimmed title; a description that is undefined exactly when it trims to nothing; the priority as chosen; the due date from the date and time |
| TaskForm.PatchAsWritten | src/components/TaskFormNew.tsx:104-115 | as sent, the title and priority are set; the description and due date are set when present and left out of the update when undefined |
| TaskForm.AsWrittenCounterexample | src/components/TaskFormNew.tsx:104-115 | erasing the notes and the date of a task that has both, then saving, leaves both in the row |
| TaskForm.EditPatchReflectsForm | src/components/TaskFormNew.tsx:104-115 | with the corrected update, the row shows the form's title, description, due date and chosen priority, and keeps its completion; the task's own fields leave it unchanged |
| TaskForm.CreateInput | src/components/TaskFormNew.tsx:117-119 | a new task receives the payload's fields, with an unset priority stored as none |
| TaskForm.Submit | src/components/TaskFormNew.tsx:88-125 | a blank title does nothing; an invalid time throws; otherwise the dialog creates `CreateInput` of the payload when no task is being edited, or sends `PatchAsWritten` of the payload for the edited task's id; with no date a create has no due date and an update leaves the due date out |
| TaskForm.SubmitCreate | src/components/TaskFormNew.tsx:96-119 | saving a new task's form with a title creates a task with the trimmed title, the trimmed description or none when it trims to nothing, the chosen priority or none, and the selected date at the chosen time or no due date |
| TaskForm.PrefillPayload | src/components/TaskFormNew.tsx:55-109 | the payload built from a task's own form is the task's title, description, due date and priority |
| TaskForm.SubmitEdit | src/components/TaskFormNew.tsx:104-115 | saving the form of an edited task with a title sends the as-written update of its payload: the row takes the trimmed title, and the trimmed description only when it is not empty |
| TaskForm.SaveUnchanged | src/components/TaskFormNew.tsx:55-119 | opening a task and saving it untouched writes back the row's own values |
| TaskForm.SaveUnchangedInStore | src/components/TaskFormNew.tsx:110-115 | saving an untouched task through the repository leaves the table as it was except for that row's update time |
| AuthActions.SignUpInputError | src/actions/auth.ts:17-31 | missing fields are reported first, then a password shorter than 6 characters |
| AuthActions.SignUpErrorMessage | src/actions/auth.ts:43-63 | service errors mentioning "Invalid email" or "Password" get fixed messages; any other message passes through |
| AuthActions.SignUp | src/actions/auth.ts:8-80 | success exactly when the input checks pass and the service returns a user whose identities list is not empty; an empty identities list means the account exists |
| AuthActions.SignUpChecksFirst | src/actions/auth.ts:17-31 | input that fails the checks gets the same failure whatever the service would answer |
| AuthActions.SignInErrorMessage | src/actions/auth.ts:97-129 | bad credentials, an unconfirmed email and a malformed email are recognised in that order; anything else passes through |
| AuthActions.SignIn | src/actions/auth.ts:81-159 | missing credentials, then the service's error; on success the user has a profile, created only if it was missing; a failed profile insert fails the sign-in |
| AuthActions.ForgotPassword | src/actions/auth.ts:203-236 | an email is required; success exactly when the service reports no error |
| AuthActions.ResetPassword | src/actions/auth.ts:238-282 | success exactly when the password is present and at least 6 characters, the code exchanges and the update succeeds; the checks run in that order; a failed update reports its own message |
| AuthActions.ResetChecksFirst | src/actions/auth.ts:242-256 | a password that fails the checks gets the same failure whatever the service would answer |
| AuthCallback.SanitizeNext | src/app/auth/callback/route.ts:9-13 | the redirect path always starts with "/": the given path if it does, "/dashboard" otherwise |
| AuthCallback.SanitizeNextIdempotent | src/app/auth/callback/route.ts:9-13 | sanitising a sanitised path changes nothing |
| AuthCallback.SuccessTarget | src/app/auth/callback/route.ts:47-55 | development uses the origin; behind a proxy with a non-empty forwarded host, https and that host; otherwise the origin. The target always ends with the path |
| AuthCallback.Callback | src/app/auth/callback/route.ts:5-75 | no code gives the code-error page; a failed exchange gives `auth_error`; a thrown exchange gives `session_expired`; a failed user lookup or profile insert gives `/error`; otherwise the sanitised path, with the profile created only if it was missing |

## Left out

- Time zones and daylight saving time. Every date function works on UTC days, and `now` is a parameter rather than the clock.
- Strings.ToLower: maps only the ASCII letters. Full Unicode case mapping is not modelled.
- Strings.LexCompare: replaces `localeCompare`. The title sort is by code points, not by the locale's collation.
- Strings.ParseInt: reads decimal digits only. Hexadecimal prefixes and the exact range of JavaScript numbers are not modelled.
- Floating point. Percentages and averages are integers: `Math.round` of an exact rational.
- The repository's foreign calls are not modelled: the Supabase client, cookies, `revalidatePath`, `signOut`, `getUserSession` and `signInWithGithub`.
- The database's answers are parameters of each repository method (`Outcome`): success, an error message, or an exception.
- A `Threw` outcome stands for an exception thrown anywhere in the call's `try`. In `toggleTaskComplete` the read's outcome covers everything up to the read, and the write's outcome only the write.
- AuthCallback.Callback: only the code exchange may throw. An exception from the user lookup or the profile insert, which the route also sends to `session_expired`, is not modelled.
- The trigger that sets `updated_at` lives in the database, outside this code base. The model stamps every update and toggle with the write time passed to the method (`TaskService.Touched`); the clock itself is not modelled.
- The column defaults are modelled only as far as a new row starts incomplete with both timestamps equal to the insert time.
- Concurrency is not modelled: two clients racing on the same row, and the read-then-write gap in `toggleTaskComplete`.
- React Query caching, invalidation and refetching are not modelled. `useCreateTask`, `useUpdateTask`, `useDeleteTask` and `useToggleTaskComplete` only forward to the repository and invalidate the cache.
- Nullable `is_complete` and `created_at` columns are taken as always present.
- A profile lookup that fails, as opposed to finding no row, is not modelled: it behaves as "no profile".
- AuthActions.SignIn: assumes that the profile email equals the email typed into the form.
- The user object returned next to a reply is not modelled.
- Password length is counted in characters, not in UTF-16 code units.
- Form fields that are absent read as the empty string, which is falsy like `null`.
- Rendering is not modelled: markup, colours beyond the badge style, icons, and date strings as displayed.

## Findings

| source | as written | input that shows it | evidently intended | confidence | as-written member | corrected member |
|---|---|---|---|---|---|---|
| src/components/TaskFormNew.tsx:104-115 | when editing, an empty description and an unselected date become `undefined`. `JSON` drops them from the update (src/services/taskService.ts:147-153), so the stored description and due date are kept | a task with description "notes" and a due date, opened, with the description erased and the date unselected, then saved | the row's description and due date are cleared | not executed | TaskForm.AsWrittenCounterexample | TaskForm.EditPatchReflectsForm |
