# Study-plan tracker: the decision logic of the web client

The web client of a study-plan tracker for exam-preparation cohorts. An
admin plans weekly tasks for a cohort, either as the cohort's base plan or
personalized for one student. Students check tasks in as done (with the
minutes studied) or not done (with a reason). Both sides see analytics.
The client is a thin layer over a hosted record store. This project lifts
its decision logic out of the view components into pure Dafny functions
over sequences of records, and proves what that logic promises.

Modules:

- `Domain`: the records (users, cohorts, tasks, check-ins), the calendar
  and the percentage rounding the dashboards share. Instants are integer
  minutes since 1970-01-01 UTC. A `YYYY-MM-DD` date denotes midnight UTC of
  that day. Week days are indexed as `Date.getDay()` does, and day 0 was a
  Thursday.
- `Seqs`: `Array.prototype.filter` as an order-preserving `Filter`, and
  `Array.prototype.find`.
- `Tally`: the `Record<string, …>` accumulators the admin dashboard fills
  with `stats[key] = (stats[key] || 0) + x`. A new key is appended, a known
  key is updated in place, and keys list in first-insertion order. This is
  the order `Object.entries` gives for keys that are not array indices;
  the difference is under "Left out".
- `Ranking`: a stable sort, largest first, cut to the top five.
- `AdminAnalytics`: `processAnalytics`. It covers the history filter, the
  KPIs (student count, efficiency, top failure reason), the weekday series,
  the subject ranking, the failure histogram and the per-cohort tally.
- `Roster`: approving and rejecting registrations, the active/blocked
  toggle, and the student picker.
- `Planner`: the planner's task list, the "Personalizado" badge, saving and
  deleting a task, and importing the base plan into a student's plan.
- `CheckInFlow`: the student's per-task status map and the check-in wizard
  (period, then done or not done), with submit and undo.
- `StudentAnalytics`: the tasks that apply to a student, the seven-day
  planned-versus-studied chart, efficiency, the 30-day streak scan, and the
  day screen's progress bar.
- `Session`: the shell's view state machine (`login`, `register`,
  `pending_approval`, `app`), driven by login, logout and the session kept
  in local storage.

Store writes are parameters of the operations: a boolean outcome, plus the
record id the store assigns. A failed write leaves the state as it was,
because the client only updates its lists after the write resolves. The
clock is a parameter too: `today` is a day number and `now` is an instant.
So are the user's answers to confirmation dialogs.

The end-date filter of the admin dashboard compares each check-in's
instant with midnight at the START of the chosen end day. Check-ins made
later that day are dropped. The model keeps this behaviour as the code
has it, and `AdminAnalytics.EndDayDropsRestOfDay` states it.

## Model

| member | source | states |
|---|---|---|
| Domain.RoundPercent | frontEnd/views/admin.tsx:118 | `Math.round(part/whole*100)` in exact arithmetic. The result r is the nearest integer to 100·part/whole, halves up: 2·whole·r − whole ≤ 200·part < 2·whole·r + whole. It lies in 0..100, is 0 for no part and 100 for the whole. |
| Domain.Efficiency | frontEnd/views/admin.tsx:116-118 | The completion percentage is in 0..100, is 0 when nothing was attempted, and otherwise satisfies the rounding bound on done/attempts. |
| Domain.EfficiencyExamples | frontEnd/views/student.tsx:303-305 | 7 of 10 gives 70, 1 of 8 rounds 12.5 up to 13, and 0 of 0 gives 0. |
| Domain.DayStart | frontEnd/views/admin.tsx:104-105 | The instant a `YYYY-MM-DD` filter date denotes is the first minute of that day: it falls on the day, and the minute before it falls on the previous day. |
| Domain.Weekday | frontEnd/views/student.tsx:289-291 | The name of a day's week day is one of the seven English names used by `dayOfWeek`. |
| Domain.WeekdayPeriodic | frontEnd/views/student.tsx:289-291 | Week-day names repeat every seven days. |
| Domain.EpochIsThursday | frontEnd/views/student.tsx:289-291 | Day 0 (1970-01-01) is a Thursday, and day 3 a Sunday, as `getDay` counts them. |
| Seqs.Filter | frontEnd/views/admin.tsx:96-107 | `Array.filter`: the kept elements satisfy the predicate and come from the input; every input element that satisfies it is kept; nothing is duplicated. |
| Seqs.FilterEmpty | frontEnd/views/admin.tsx:96-107 | Filtering the empty list gives the empty list. |
| Seqs.FilterSingleton | frontEnd/views/admin.tsx:96-107 | A one-element list keeps its element iff it satisfies the predicate. With `FilterAppend` this fixes the result to the satisfying elements, each once, in input order. |
| Seqs.FilterAppend | frontEnd/views/admin.tsx:824 | Filtering a concatenation filters each part. |
| Seqs.FilterKeepsAll | frontEnd/views/admin.tsx:96-107 | When every element satisfies the predicate the filter returns the list unchanged. |
| Seqs.FilterDropsAll | frontEnd/views/admin.tsx:96-107 | When no element satisfies the predicate the filter returns the empty list. |
| Seqs.FilterPartition | frontEnd/views/admin.tsx:116-121 | A predicate and its negation split a list's length between them. |
| Seqs.CountExtremes | frontEnd/views/admin.tsx:116-118 | A count by a predicate is 0 iff no element satisfies it, and the full length iff every element does. |
| Seqs.FindIndex | frontEnd/views/admin.tsx:983-984 | `find` by position: none iff no element satisfies the predicate, otherwise the index of the first element that does. |
| Seqs.CountIsPositions | frontEnd/views/student.tsx:303 | The number of kept elements equals the number of positions whose element satisfies the predicate. |
| Seqs.Find | frontEnd/views/admin.tsx:178-180 | `Array.find`: none iff no element satisfies the predicate, otherwise an element that does, with none before it satisfying it. |
| Tally.Add | frontEnd/views/admin.tsx:123-126 | `stats[k] = (stats[k] \|\| 0) + x`: a new key is appended at the end, a known key keeps its place; the totals grow by exactly the amounts added. |
| Tally.AddAt | frontEnd/views/admin.tsx:123-126 | Only the updated key's accumulators change, each by the amount added. |
| Tally.AddDistinct | frontEnd/views/admin.tsx:123-126 | Adding never creates a second row for a key. |
| Tally.AtRow | frontEnd/views/admin.tsx:149-152 | In a tally with distinct keys the value read at a row's key is that row's value, which is what `Object.entries` lists. |
| Tally.Build | frontEnd/views/admin.tsx:123-126 | Folding `Add` over the kept records of a forEach keeps the keys distinct. |
| Tally.BuildKeys | frontEnd/views/admin.tsx:123-126 | A key is present iff it was seeded or some kept record is filed under it. If every kept record lands on a seeded key, the key order is the seed's. |
| Tally.BuildAt | frontEnd/views/admin.tsx:136-145 | The value at every key is the seed's value plus the sum over the kept records filed under that key. |
| Tally.BuildRows | frontEnd/views/admin.tsx:132-144 | Built from a zeroed seed, every row holds exactly the sum over the kept records filed under its key. |
| Tally.BuildTotals | frontEnd/views/admin.tsx:172-186 | The tally's totals are the seed's totals plus the sum over all kept records: each record lands in exactly one row. |
| Ranking.Insert | frontEnd/views/admin.tsx:163 | Inserting keeps the list sorted, largest first, and the result is the old rows plus the new one. |
| Ranking.InsertPlaces | frontEnd/views/admin.tsx:163 | The new row goes after every row with at least as many minutes and before every row with fewer. |
| Ranking.InsertStable | frontEnd/views/admin.tsx:163 | Among rows with any given number of minutes, insertion keeps the old rows in order and puts the new row last, as appending would. |
| Ranking.Sort | frontEnd/views/admin.tsx:163 | The sort's result is sorted largest first and is a permutation of its input. |
| Ranking.SortIsStable | frontEnd/views/admin.tsx:163 | The sort is stable, as `Array.prototype.sort` is: the rows with any given number of minutes come out in the order they went in. |
| Ranking.Top | frontEnd/views/admin.tsx:161-164 | The ranking holds min(5, n) rows, sorted largest first, drawn from the tally without duplicating any row (a sub-multiset). No row left out has more minutes than a row shown. |
| Ranking.TopKeepsEarliestTies | frontEnd/views/admin.tsx:163-164 | Among rows with equal minutes, the ranking shows a prefix of them in tally order, so the cut at five drops only the later ties. |
| AdminAnalytics.FilterHistory | frontEnd/views/admin.tsx:96-107 | A check-in survives iff every set filter matches: the student's cohort, the student id, the task's subject, at or after the start date's midnight, and at or before the end date's midnight. |
| AdminAnalytics.FilterHistoryKeepsOrder | frontEnd/views/admin.tsx:96-107 | The filtered history keeps the original order: filtering a concatenation filters each part, and a single check-in is kept iff it passes. |
| AdminAnalytics.NoFiltersKeepAll | frontEnd/views/admin.tsx:96-107 | With no filter set every check-in survives, in order. |
| AdminAnalytics.EndDayDropsRestOfDay | frontEnd/views/admin.tsx:105 | With an end date set, a check-in made on that day after its first minute is dropped. |
| AdminAnalytics.StudentCount | frontEnd/views/admin.tsx:111-113 | The student KPI counts the students of the chosen cohort, or all students when no cohort is chosen. |
| AdminAnalytics.Divider | frontEnd/views/admin.tsx:148 | The per-student divisor is the student count, or 1 when that is 0. It is never 0. |
| AdminAnalytics.DashboardEfficiency | frontEnd/views/admin.tsx:116-118 | Efficiency over the filtered history is 0 when nothing survives. Otherwise it is the rounded percentage of completed check-ins: with n surviving and c completed, 2·n·r − n ≤ 200·c < 2·n·r + n. It lies in 0..100, is 0 when nothing is completed and 100 when everything is. |
| AdminAnalytics.FailureTally | frontEnd/views/admin.tsx:121-126 | There is one row per failure reason, counting only incomplete filtered check-ins with a non-empty reason. Each row's count is the number of such check-ins giving that reason, and the counts sum over all of them. No key is empty. |
| AdminAnalytics.KeptOneIsCount | frontEnd/views/admin.tsx:121-126 | Counting one per kept check-in gives the number of kept check-ins. |
| AdminAnalytics.TopIndex | frontEnd/views/admin.tsx:127 | This is the row a stable descending sort puts first. Its count is at least every other count, and every earlier row has a strictly smaller count. |
| AdminAnalytics.TopFailure | frontEnd/views/admin.tsx:127 | With no failure rows the top reason is "Nenhum". Otherwise it is the key of a row whose count is at least every other count, the first such row. |
| AdminAnalytics.DayLabel | frontEnd/views/admin.tsx:132 | A day name has a chart label iff it is one of the seven English names, and the label is the Portuguese abbreviation at the same position. |
| AdminAnalytics.DaySeedFacts | frontEnd/views/admin.tsx:133 | The seven zeroed slots are Seg..Dom in order, with distinct keys and no minutes. |
| AdminAnalytics.DayKeysAreSeeded | frontEnd/views/admin.tsx:136-145 | Every completed check-in counted on the chart lands on one of the seven seeded labels. |
| AdminAnalytics.DayTally | frontEnd/views/admin.tsx:133-145 | After filing, the slots are still exactly Seg..Dom in order. Each holds the minutes of the completed filtered check-ins whose task's day is that day; other check-ins add nothing. |
| AdminAnalytics.HoursTenths | frontEnd/views/admin.tsx:148-152 | The per-student average is the nearest tenth of an hour to minutes/(60·divider), in exact arithmetic. |
| AdminAnalytics.DailySeries | frontEnd/views/admin.tsx:132-152 | The weekday series has exactly 7 bars, Seg..Dom in order. Each carries the minutes filed under its day and their per-student average, divided by the student count or 1. |
| AdminAnalytics.SubjectTally | frontEnd/views/admin.tsx:156-160 | There is one row per subject of a completed filtered check-in ("Outros" when the task or its subject is missing), holding the sum of those check-ins' minutes. Keys are distinct. |
| AdminAnalytics.CohortLabel | frontEnd/views/admin.tsx:174-181 | A check-in's bucket is never empty, and it is "Sem Turma" when no user has its student id. |
| AdminAnalytics.CohortLabelIsStudentsCohort | frontEnd/views/admin.tsx:178-180 | With the first user that has the check-in's student id, and the first cohort that has that user's cohort id, the bucket is that cohort's name ("Sem Turma" when the name is empty). Any bucket other than "Sem Turma" comes from such a pair; with no such pair the bucket is "Sem Turma". |
| AdminAnalytics.CohortTally | frontEnd/views/admin.tsx:172-192 | The per-cohort tally uses the UNFILTERED history. Each check-in lands in exactly one bucket. Completed ones add their minutes and the others add one failure, so the failures sum to the number of incomplete check-ins overall. The minutes sum to the completed minutes. |
| AdminAnalytics.FailuresAreIncomplete | frontEnd/views/admin.tsx:184-185 | The failures added up over the history equal the number of incomplete check-ins. |
| AdminAnalytics.CompletedMinutes | frontEnd/views/admin.tsx:184 | The minutes added up over the history equal the minutes of the completed check-ins. |
| AdminAnalytics.ProcessAnalytics | frontEnd/views/admin.tsx:94-194 | The KPI count follows the cohort filter. Efficiency is the rounded percentage of completed check-ins in the filtered history (0 when none survive). The failure rows are the reason histogram of the filtered history and the top reason is taken from them. The weekday series divides by the student count, or 1. The subject ranking is the top five of the filtered subject tally. The cohort chart uses the whole history. With nothing surviving there are no failures and the top reason is "Nenhum". |
| Roster.Granted | frontEnd/views/admin.tsx:81 | Approve grants active and reject grants blocked. |
| Roster.SetStatus | frontEnd/views/admin.tsx:88 | `map(s => s.id === id ? {...s, status} : s)`: the rows with the id take the status; every other row and field stays. |
| Roster.StudentAction | frontEnd/views/admin.tsx:80-91 | After a successful update the student's rows show the granted status and nothing else changes. A failed update changes nothing. |
| Roster.StudentActionIdempotent | frontEnd/views/admin.tsx:80-91 | Making the same decision twice is making it once. |
| Roster.Toggled | frontEnd/views/admin.tsx:985 | The toggle blocks an active student and activates anyone else (blocked or pending). The new status always differs from the old and is never pending. |
| Roster.ToggleStatus | frontEnd/views/admin.tsx:982-990 | With no row for the id, or a failed update, nothing changes. Otherwise every row with the id takes the toggle of the first such row's status, and other rows stay. |
| Roster.ToggleTwice | frontEnd/views/admin.tsx:982-990 | With unique ids, toggling an active or blocked student twice restores the list. A pending student ends up blocked. |
| Roster.StudentOptions | frontEnd/views/admin.tsx:197-203 | The picker offers (id, name) exactly for the active students, restricted to the chosen cohort when one is chosen. |
| Roster.ChoicesAppend | frontEnd/views/admin.tsx:201-202 | The picker entries follow the students one for one: the entries of a concatenation are the entries of each part. |
| Roster.StudentOptionsKeepsOrder | frontEnd/views/admin.tsx:197-203 | The picker keeps the list order, with one entry per offered student. The options of a concatenation are the options of each part, and a single student yields their entry iff offered. |
| Planner.HasBaseTwin | frontEnd/views/admin.tsx:747-752 | `some`: true iff some task is a base task with the same subject, week day and cohort. |
| Planner.TrulyPersonalized | frontEnd/views/admin.tsx:745-754 | The badge is false for a task with no student. For a student-owned task it is true iff no base task of its cohort has its subject and week day. The day screen's badge (frontEnd/views/student.tsx:418-422) is the same rule. |
| Planner.VisibleTasks | frontEnd/views/admin.tsx:756-761 | The base view lists the cohort's base tasks of the chosen day. The student view lists the selected student's tasks of the day. |
| Planner.VisibleTasksKeepsOrder | frontEnd/views/admin.tsx:756-761 | The list keeps the tasks' order: listing a concatenation lists each part, and a single task is listed iff it is visible. |
| Planner.BaseAndStudentViewsDisjoint | frontEnd/views/admin.tsx:756-761 | No task appears in both the base view and a student view. |
| Planner.OwnsAny | frontEnd/views/admin.tsx:765 | `some`: true iff some task belongs to the student. |
| Planner.StudentHasTasks | frontEnd/views/admin.tsx:763-766 | True iff a student is selected and owns at least one task. |
| Planner.ImportButton | frontEnd/views/admin.tsx:892 | The import button asks for a strategy iff the student already has tasks; otherwise it merges immediately. |
| Planner.Duration | frontEnd/views/admin.tsx:781 | The saved duration is never 0: unparsable text and 0 both become 60, and any other number is kept. |
| Planner.Owner | frontEnd/views/admin.tsx:784 | A saved task belongs to the selected student in student mode with a student selected, and to nobody otherwise. |
| Planner.Saved | frontEnd/views/admin.tsx:782-797 | The saved record carries the planner's cohort and day, the form's subject, mode and description, the owner, and the parsed duration. |
| Planner.SaveTask | frontEnd/views/admin.tsx:780-802 | A failed write changes nothing. Editing rewrites only the tasks with the edited id and keeps the count. Creating appends one task under the store's id. |
| Planner.SavedTaskIsVisible | frontEnd/views/admin.tsx:780-802 | A task saved from a view appears in that view's list. |
| Planner.DeleteTask | frontEnd/views/admin.tsx:804-808 | After confirmation and a successful delete, exactly the tasks with that id disappear. Otherwise nothing changes. |
| Planner.DeleteTaskKeepsOrder | frontEnd/views/admin.tsx:806 | A confirmed delete keeps the order and every copy of the other tasks. Deleting from a concatenation deletes from each part, and a single task goes iff it has the id. |
| Planner.BaseTasks | frontEnd/views/admin.tsx:811 | The base tasks are exactly the cohort's tasks without a student. |
| Planner.BaseTasksKeepsOrder | frontEnd/views/admin.tsx:811 | The base tasks keep the list order: the base of a concatenation is the base of each part, and a single task is kept iff it is a base task. |
| Planner.Copy | frontEnd/views/admin.tsx:820-823 | A copy belongs to the student in the cohort and carries the base task's subject, mode, duration, day and description. |
| Planner.Copies | frontEnd/views/admin.tsx:819-823 | There is one copy per base task, in base order, each under the id the store gave it. |
| Planner.NotOwned | frontEnd/views/admin.tsx:817 | The tasks kept by a replace are exactly those the student does not own. |
| Planner.NotOwnedKeepsOrder | frontEnd/views/admin.tsx:817 | The tasks a replace keeps stay in list order, with their multiplicity. The survivors of a concatenation are those of each part, and a single task survives iff the student does not own it. |
| Planner.ExecuteImport | frontEnd/views/admin.tsx:810-827 | With no base task nothing happens. Merge appends the copies. Replace drops the student's tasks, then appends the copies. A failed delete leaves the list unchanged. A failed create after a successful delete keeps the list without the student's tasks. The import succeeds iff there is a base and the writes succeed. |
| Planner.MergeGrowsByBase | frontEnd/views/admin.tsx:810-827 | A successful merge keeps every task in place and grows the list by exactly the number of base tasks. |
| Planner.ReplaceLeavesOnlyCopies | frontEnd/views/admin.tsx:814-824 | After a successful replace the student owns exactly the fresh copies, in base order, and every task of anyone else is kept. |
| Planner.CopiesAreNotPersonalized | frontEnd/views/admin.tsx:745-754 | Imported copies never show the "Personalizado" badge, because their base task is still in the list. |
| CheckInFlow.BuildStatusMap | frontEnd/views/student.tsx:550-558 | The loaded map has an entry exactly for each task with a check-in, and each entry is filed under its own task id. |
| CheckInFlow.BuildStatusMapLastWins | frontEnd/views/student.tsx:550-557 | A task's entry is its last check-in in the list: no later check-in names the same task. |
| CheckInFlow.StateOf | frontEnd/views/student.tsx:466 | A card is pending iff the map has no entry for it. Otherwise it is completed or failed according to the entry's flag. |
| CheckInFlow.Close | frontEnd/views/student.tsx:586-590 | Closing resets the task, step and period and leaves the map untouched. |
| CheckInFlow.ClickTask | frontEnd/views/student.tsx:564-584 | On a checked-in task, a confirmed and successful undo removes that task's entry only; otherwise nothing changes. On any other task the wizard opens at period selection, with no period, 60 minutes and an empty note. |
| CheckInFlow.PickPeriod | frontEnd/views/student.tsx:661-669 | A period can be picked only in the open wizard's first step. |
| CheckInFlow.ChooseOutcome | frontEnd/views/student.tsx:670-675 | The done / not-done buttons act only in the first step once a period is chosen, and lead to the matching step. |
| CheckInFlow.Back | frontEnd/views/student.tsx:688 | "Voltar" returns from an outcome step to period selection and keeps the period. |
| CheckInFlow.EditSuccess | frontEnd/views/student.tsx:685-686 | Minutes and note can be typed only in the success step. |
| CheckInFlow.NewCheckIn | frontEnd/views/student.tsx:595-613 | The recorded check-in names the task and student and has completed = success. Its minutes are the typed minutes on success and 0 otherwise. Its reason is the one given, else empty. It carries the wizard's period and note. |
| CheckInFlow.Submit | frontEnd/views/student.tsx:592-621 | Without an open task, or on a failed write, nothing changes. Otherwise the task's entry becomes the new check-in and the wizard closes. |
| CheckInFlow.SubmitMarksTask | frontEnd/views/student.tsx:615 | After a successful submit the card shows the outcome just recorded, and every other card is unchanged. |
| CheckInFlow.SubmitThenUndo | frontEnd/views/student.tsx:564-616 | Submitting a task and then undoing it restores the map. |
| CheckInFlow.ApplyKeepsInv | frontEnd/views/student.tsx:564-713 | Every screen event keeps the invariant. An open wizard is for a task without a check-in. An outcome step has a task and a period. A closed wizard sits at period selection with no period. |
| CheckInFlow.RunKeepsInv | frontEnd/views/student.tsx:564-713 | Any sequence of screen events keeps that invariant. |
| CheckInFlow.Apply | frontEnd/views/student.tsx:660-703 | A task card acts only while the check-in modal is closed. The confirm button acts only in the success step, and the reason buttons only in the failure step. Elsewhere they are not on screen and change nothing. |
| CheckInFlow.ApplyRecordsWithPeriod | frontEnd/views/student.tsx:687-703 | One screen event records no check-in without a period. A confirm records a completed check-in and a reason button an incomplete one. |
| CheckInFlow.RunRecordsWithPeriod | frontEnd/views/student.tsx:564-713 | Over any sequence of screen events, every check-in the wizard records carries a period. |
| CheckInFlow.LoadedScreenInv | frontEnd/views/student.tsx:550-558 | The freshly loaded screen satisfies the invariant. |
| StudentAnalytics.MyTasks | frontEnd/views/student.tsx:539 | A task applies to a student iff it is a base task of the student's cohort or is assigned to the student. |
| StudentAnalytics.MyTasksKeepsOrder | frontEnd/views/student.tsx:539 | The student's tasks keep store order and multiplicity. Those of a concatenation are those of each part, and a single task is kept iff it applies. |
| StudentAnalytics.OthersTasksDoNotApply | frontEnd/views/student.tsx:277 | Another student's personal task never applies. |
| StudentAnalytics.Reverse | frontEnd/views/student.tsx:319 | `reverse` puts the element at i at position n−1−i. |
| StudentAnalytics.Chart | frontEnd/views/student.tsx:280-301 | The chart has exactly 7 points, oldest to newest, ending today. Each point's planned minutes are the durations of the tasks on that day's week day. Its studied minutes are those of the completed check-ins made that day. |
| StudentAnalytics.ChartCoversWeek | frontEnd/views/student.tsx:280-291 | The seven chart days fall on seven different week days, so every week day appears exactly once. |
| StudentAnalytics.CompletedCount | frontEnd/views/student.tsx:303 | `completedTotal` is the number of positions of the history that hold a completed check-in. It is 0 iff none is completed and equals the history's length iff all are. |
| StudentAnalytics.CountCompleted | frontEnd/views/student.tsx:303 | Counting by filter agrees with counting completed positions, including the none and all cases. |
| StudentAnalytics.StudentEfficiency | frontEnd/views/student.tsx:303-305 | Efficiency over all the student's check-ins is in 0..100, is 0 with none, and is the rounded percentage of completed ones. |
| StudentAnalytics.StudiedOn | frontEnd/views/student.tsx:313 | `some`: true iff a completed check-in was made that day. |
| StudentAnalytics.Streak | frontEnd/views/student.tsx:307-316 | The loop with its early exit computes the scan and returns at most 30. |
| StudentAnalytics.ScanIsRun | frontEnd/views/student.tsx:307-316 | From yesterday or earlier, the scan counts the run of consecutive studied days starting there. It stops at the first miss or at the scan's end. |
| StudentAnalytics.StreakIsRun | frontEnd/views/student.tsx:307-316 | The streak is 1 for studying today plus the run of studied days ending yesterday. A miss today does not stop the count. The run is capped at 29 days and ends at the first missed day. |
| StudentAnalytics.NoStudyNoStreak | frontEnd/views/student.tsx:307-316 | With no completed check-in the streak is 0. |
| StudentAnalytics.StreakScenarios | frontEnd/views/student.tsx:307-316 | Studying today and yesterday but not the day before gives 2. Missing today, studying yesterday but not the day before, gives 1. |
| StudentAnalytics.AnalyticsStats | frontEnd/views/student.tsx:303-318 | The three numbers shown are the efficiency, the streak (at most 30) and the completed count. |
| StudentAnalytics.DayTasks | frontEnd/views/student.tsx:403 | The day screen lists exactly the tasks of the selected week day. |
| StudentAnalytics.DayTasksKeepsOrder | frontEnd/views/student.tsx:403 | The day's tasks keep list order and multiplicity. Those of a concatenation are those of each part, and a single task is kept iff it falls on that day. |
| StudentAnalytics.DailyProgress | frontEnd/views/student.tsx:405-407 | Progress is the rounded percentage of the day's tasks with a completed check-in, over max(1, n). It is in 0..100, 0 for an empty day or with nothing completed, and 100 when all are completed. |
| Session.Initial | frontEnd/App.tsx:11-12 | The shell starts at the login view with no current user. |
| Session.Restore | frontEnd/App.tsx:56-77 | A stored user becomes the current user. It goes to the pending screen iff still pending, and to the application otherwise. Unparsable text is removed and the login view stays. |
| Session.LogIn | frontEnd/App.tsx:79-88 | A pending user only reaches the pending screen, with nothing stored and the current user unchanged. Anyone else, blocked included, is stored, becomes current and enters the application. |
| Session.LogOut | frontEnd/App.tsx:90-96 | Logout clears the stored session and the current user and returns to login, from any state. |
| Session.LeavePending | frontEnd/App.tsx:105-108 | Leaving the pending screen is a logout. |
| Session.Render | frontEnd/App.tsx:100-136 | Login and register render the login screen, and pending renders the pending screen. The application renders the admin surface for an admin and the student surface for any other role. The fallback is the login screen. |
| Session.ApplyKeepsInv | frontEnd/App.tsx:79-108 | Login, logout and leaving the pending screen keep the invariant: the application view has a current user, and it is the stored one. |
| Session.RunKeepsInv | frontEnd/App.tsx:79-108 | Any sequence of those events keeps the invariant. |
| Session.StartKeepsInv | frontEnd/App.tsx:56-77 | Restoring on start establishes the invariant. |
| Session.AppViewRendersUser | frontEnd/App.tsx:111-135 | In every reachable state the application view renders the current user's surface by role; the render's fallback is never reached there. |
| Session.LogInSurvivesReload | frontEnd/App.tsx:56-88 | After a non-pending login, restarting from what was stored restores the same user in the application. |
| Session.LogOutSurvivesReload | frontEnd/App.tsx:56-96 | After a logout, restarting finds no session and shows the login screen. |
| Session.PendingLoginStaysOut | frontEnd/App.tsx:79-83 | Logging in a pending user renders the pending screen and touches neither storage nor the current user. |

## Left out

- Store calls (fetching, creating, updating and deleting records; password and OAuth sign-in) are not modelled. Their inputs are sequences and their outcomes are parameters.
- Partial failure of a batch of store writes is not modelled. The import's delete batch and create batch each succeed or fail as a whole, as seen by the client.
- Hours as floating point are left out: minutes/60, `toFixed(1)`, `parseFloat` and `Math.round` on hours. Minutes stay integers. The weekday series gives each bar's exact minutes and the exactly rounded tenth of an hour per student. The subject ranking and the cohort tally keep minutes.
- Tally.Add: lists every key in first-insertion order. `Object.entries` lists array-index keys (canonical non-negative integers such as "2" or "2025") first, in ascending numeric order. A failure reason, subject or cohort name of that form can therefore change the tie-break of the top failure and the subject ranking, and the order of the cohort chart.
- Ranking.Top: ranks by exact minutes rather than by hours rounded to whole numbers, so two subjects whose hours round equal may come out in a different order than on screen.
- Domain.RoundPercent: rounds exactly (halves up) rather than with floating-point division, which can differ on values within rounding error of a half.
- AdminAnalytics.HoursTenths: stated for any minute count, but `toFixed` rounds negative halves away from zero. Negative minutes do not arise from the forms.
- Date parsing and time zones are left out. Instants are minutes since the epoch in UTC and dates are day numbers. The student chart and streak take the UTC date from `toISOString` and the week day from local `getDay`; both are modelled as the UTC day.
- Text parsing is left out. Typed minutes are given as the number they parse to, and `parseInt` returning NaN on the check-in form is not modelled. The planner's duration is given as an optional number, so the fallback to 60 is modelled.
- Confirmation and alert dialogs are left out; a confirmation is a boolean parameter.
- Task ordering by creation date is not modelled (records carry no creation time here). Lists keep the order they are given in.
- StudentAnalytics.MyTasks: keeps the store's order. The newest-first sort by creation date that follows the filter is not modelled, since records carry no creation time here.
- Rendering is left out: charts, drag-scrolling, colours, modals and the search box of the student list.
- A stored value that parses as JSON but is not a user object is not modelled. An unparsable value, or the literal `null`, is `Corrupt`.
- The login screen's navigation callback in the render's fallback is left out: the login view never calls it, so `register` is never entered.
- The admin dashboard's first aggregation on load, which receives raw store records with a `cohort` field instead of `cohortId`, is not modelled. The recomputation over mapped users is.
- The student-management list's row type (with efficiency, hours and trend fields that are always zero) is modelled as a user record, since only id, name, cohort and status are used.
- Seed scripts, migrations, build configuration and the store client are not part of this model.
- The history and the day screen's other tabs (history list, about page) and the admin's settings, subjects, modes and cohort editors are not part of this model.
