# A task manager's client core, modelled in Dafny

The client is a React/Next.js task manager. Its records are projects, their
tabs, and tasks with a status of 未着手 (not started), 進行中 (in progress)
or 完了 (done). This project models the client's core and proves properties
of the model:

- **The reminder** (`Reminder`, `ReminderProps`). A check runs every minute.
  It announces each not-started task whose scheduled start is at most five
  minutes away, and starts an escalation interval for it. The interval nags
  every minute until the task is in progress, and a thirty-minute timeout
  stops it. Timers are explicit transitions of a `State`, and the class
  `Reminder.Scheduler` is proved to follow those transitions step by step.
- **The token gate** (`Auth`). Local storage holds the keys "access" and
  "refresh". The gate decides whether the stored access token is used,
  refreshed, or the session ends with a redirect to the login page. It also
  covers logout, account deletion and `useAuthCheck`.
- **The client caches** (`Stores`). These are the task list shared by
  `TaskProvider` and `useTasks`, the project list and selection of
  `useProjects`, and the tab list of `useTabs`. Each cache is a class whose
  methods apply what the awaited request produced.
- **A tab's task list** (`TaskList`). It covers which tasks are listed, the
  button each status offers, and the records sent when a task is started or
  completed, with the work time and the overtime rounded like `Math.round`.
- **The calendar** (`Calendar`). It shows the tasks of the selected UTC day,
  and the days that have tasks in first-occurrence order, which mark the
  calendar's days.
- **The review** (`Review`). There are four sections of completed tasks,
  each sorted by one property in descending order with a stable sort.
  A falsy value shows "未入力".
- **The project tree** (`ProjectTree`). Each tab gets a golden-angle HSL
  colour by first occurrence. It also covers the node a task becomes, the
  lookup behind a double click, loading a stored tree, and the date a node
  shows.
- **The application shell** (`App`) checks the token and decides whether a
  page renders.
- **The tabs section** (`TabsSection`) decides which tasks and tabs each
  child component receives.

`Types`, `Seqs` and `Decimal` are shared: the records, the sequence
operations the code uses (`filter`, `find`, de-duplicating push, replace
and remove by id), and the decimal text of numbers with `Number()` on it.

JavaScript semantics that matter are written out:

- **Truthiness.** "" and null are falsy, and so is 0 for the review's
  values.
- **Invalid dates.** An Invalid Date compares false with everything.
- **`Math.round` of a millisecond difference over 60000** becomes
  `(d + 30000) / 60000` with floor division.
- **UTC days.** `toISOString().split('T')[0]` names the UTC day
  `ms / 86400000`.
- **Hues.** `(n * 137.5) % 360` is kept in half degrees as
  `(n * 275) % 720`.

The two copies of the calendar section, the two task caches and the two
copies of `formatDate` compute the same values, so each is modelled once
and both sources are named below.

## Model

| member | source | states |
|---|---|---|
| `Reminder.NewTasks` | hooks/useTaskReminder.tsx:19-29 | every task a check selects is scheduled, exactly not started, has a valid date inside the closed window [start - 5 min, start], and its id is not yet a key of the map |
| `Reminder.NewTasksMembers` | hooks/useTaskReminder.tsx:19-29 | the check selects from the latest list, and it selects every task of that list that qualifies and has no entry |
| `Reminder.NoCatchUp` | hooks/useTaskReminder.tsx:21-23 | a check after the scheduled start, or more than five minutes before it, never selects the task |
| `Reminder.OnlyNotStartedQualify` | hooks/useTaskReminder.tsx:20 | a task that is not exactly "未着手", or has no scheduled start, never qualifies |
| `Reminder.NeverSelected` | hooks/useTaskReminder.tsx:19-29 | such a task is never among the selected ones, whatever the map |
| `Reminder.AddEntriesKeys` | hooks/useTaskReminder.tsx:63-66 | after the check's functional updates, the keys are the old keys plus the selected tasks' ids |
| `Reminder.AddEntriesKeeps` | hooks/useTaskReminder.tsx:63-66 | an old key that no selected task carries keeps its handle |
| `Reminder.AddEntriesLast` | hooks/useTaskReminder.tsx:63-66 | a selected id maps to the handle of the last interval created for it |
| `Reminder.CheckedKeys` | hooks/useTaskReminder.tsx:29-66 | after a check, every task that qualifies has an entry |
| `Reminder.RescanSelectsNothing` | hooks/useTaskReminder.tsx:29 | scanning again with the written map selects nothing, so no task is announced twice while its id is a key |
| `Reminder.StartingNotices` | hooks/useTaskReminder.tsx:33-35 | one "始まります" notice per selected task, in selection order |
| `Reminder.Lookup` | hooks/useTaskReminder.tsx:39 | the record the escalation finds has the id and is in the latest list; None means no record has the id |
| `Reminder.Range` | hooks/useTaskReminder.tsx:38 | the handles the check's intervals receive are exactly base .. end - 1 |
| `Reminder.Mount` | hooks/useTaskReminder.tsx:5-15 | mounting starts with an empty map and a single live interval, the check, and the invariant holds |
| `Reminder.EntriesOkGrow` | hooks/useTaskReminder.tsx:38-66 | arming a fresh escalation keeps every map entry pointing at an escalation of its own task |
| `Reminder.EntriesOkExtend` | hooks/useTaskReminder.tsx:38-66 | map entries stay well formed when escalations are only added |
| `Reminder.EntriesOkRemove` | hooks/useTaskReminder.tsx:44-45 | deleting an id from a well-formed map leaves it well formed |
| `Reminder.ArmedKey` | hooks/useTaskReminder.tsx:31-61 | the escalations after a check are the old ones plus exactly the new handles |
| `Reminder.ArmedOld` | hooks/useTaskReminder.tsx:31-61 | a check leaves every earlier escalation as it was |
| `Reminder.ArmedNew` | hooks/useTaskReminder.tsx:38-53 | the k-th selected task's interval has handle base + k, with that task's id and title, the check's time and the map the check saw |
| `Reminder.ArmedSpec` | hooks/useTaskReminder.tsx:31-67 | the three facts above for all handles at once |
| `Reminder.ArmEscalations` | hooks/useTaskReminder.tsx:31-67 | the `forEach` loop gives the armed escalations, the starting notices and the batched map, and keeps the map and every snapshot well formed |
| `Reminder.ArmedEntriesOk` | hooks/useTaskReminder.tsx:38-66 | the map a check writes points only at escalations of the right task |
| `Reminder.ArmedSnapshotsOk` | hooks/useTaskReminder.tsx:38-66 | every map an escalation captured stays well formed |
| `Reminder.TimersOkArm` | hooks/useTaskReminder.tsx:38-61 | new intervals and their pending timeouts keep the timer bookkeeping |
| `Reminder.SetMapInv` | hooks/useTaskReminder.tsx:71-75 | writing a well-formed map, with the effect's cleanup and re-run, keeps the invariant |
| `Reminder.ArmInv` | hooks/useTaskReminder.tsx:31-67 | arming keeps the invariant, and the map the check then writes agrees with the armed escalations |
| `Reminder.CheckStepInv` | hooks/useTaskReminder.tsx:15-68 | a check keeps the invariant |
| `Reminder.FireStepInv` | hooks/useTaskReminder.tsx:38-53 | an escalation firing keeps the invariant |
| `Reminder.ExpireStepInv` | hooks/useTaskReminder.tsx:56-61 | the thirty-minute timeout keeps the invariant |
| `Reminder.TeardownStepInv` | hooks/useTaskReminder.tsx:71-74 | unmounting keeps the invariant and leaves no check interval |
| `Reminder.Scheduler.constructor` | hooks/useTaskReminder.tsx:5-15 | the object starts in the mounted state |
| `Reminder.Scheduler.UpdateTasks` | hooks/useTaskReminder.tsx:9-11 | only the latest-list reference changes |
| `Reminder.Scheduler.SetNotifications` | hooks/useTaskReminder.tsx:71-75 | the object's new state is the map write followed by the cleanup and the new check interval |
| `Reminder.Scheduler.ArmSelected` | hooks/useTaskReminder.tsx:31-67 | the object's new state is `Arm` of the old one, and the returned map is the batched update |
| `Reminder.Scheduler.Tick` | hooks/useTaskReminder.tsx:15-68 | the object's new state is `CheckStep` of the old one, and the invariant is kept |
| `Reminder.Scheduler.EscalationFire` | hooks/useTaskReminder.tsx:38-53 | the object's new state is `FireStep` of the old one |
| `Reminder.Scheduler.Expire` | hooks/useTaskReminder.tsx:56-61 | the object's new state is `ExpireStep` of the old one |
| `Reminder.Scheduler.Teardown` | hooks/useTaskReminder.tsx:71-74 | the object's new state is `TeardownStep` of the old one |
| `ReminderProps.CheckShape` | hooks/useTaskReminder.tsx:15-68 | a mounted check writes the batched map and appends the starting notices of the selected tasks |
| `ReminderProps.CheckKeysDue` | hooks/useTaskReminder.tsx:29-66 | after a check every due task has an entry, and no entry is lost |
| `ReminderProps.CheckAnnouncesDue` | hooks/useTaskReminder.tsx:29-35 | earlier notices are kept, and each new notice announces a due task of the latest list that had no entry |
| `ReminderProps.CheckAnnouncesEvery` | hooks/useTaskReminder.tsx:29-35 | every due task without an entry is announced by the next check |
| `ReminderProps.CheckIdempotent` | hooks/useTaskReminder.tsx:29 | a second check at the same instant over the same list changes nothing |
| `ReminderProps.SetMapClears` | hooks/useTaskReminder.tsx:71-75 | a map write clears the check interval and every handle of the previous map, starts a new check interval, and leaves every other interval alone |
| `ReminderProps.CheckStopsEarlierEscalations` | hooks/useTaskReminder.tsx:63-75 | a check that selects tasks also stops every escalation armed before it, because their handles are in the map it replaces; each new escalation has its timeout pending |
| `ReminderProps.FireOutcome` | hooks/useTaskReminder.tsx:39-52 | a firing nags exactly when the latest record is missing or not in progress; otherwise it stops, and while mounted it writes the creating check's snapshot without the id |
| `ReminderProps.ExpireOutcome` | hooks/useTaskReminder.tsx:56-61 | the timeout stops its escalation whatever the status, and while mounted writes the snapshot without the id |
| `ReminderProps.ExpireOnce` | hooks/useTaskReminder.tsx:56-61 | each timeout fires once, and an expired escalation never nags again |
| `ReminderProps.TeardownFinal` | hooks/useTaskReminder.tsx:71-74 | after unmounting no handle of the map is live, checks and map writes do nothing, and pending timeouts remain |
| `ReminderProps.StaleSnapshotReannounces` | hooks/useTaskReminder.tsx:44-46 | with two tasks due in the same check, stopping one escalation writes the stale snapshot and the next check announces the other task a second time |
| `ReminderProps.FirstCheck` | hooks/useTaskReminder.tsx:31-66 | the first check of that scenario announces both tasks and arms handle 1 with the empty snapshot |
| `ReminderProps.SecondCheck` | hooks/useTaskReminder.tsx:19-35 | with the map empty again, the next check announces task 2 |
| `Auth.GetItem` | hooks/authHooks.tsx:46-47 | `getItem` yields the stored string exactly when the key is present, and null otherwise |
| `Auth.ExpiredFromExpiryMillisecond` | hooks/authHooks.tsx:16-20 | a token is expired from the millisecond `exp * 1000` on, and not one millisecond before |
| `Auth.ExpiryIsFinal` | hooks/authHooks.tsx:16-20 | once expired, a token stays expired |
| `Auth.RefreshAccessToken` | hooks/authHooks.tsx:23-42 | the endpoint is asked exactly when a refresh token is present; the call rejects exactly when that request rejects (a network error, or a 2xx body that is not JSON); a non-2xx answer or no request yields null; a 2xx answer yields the body's `access` |
| `Auth.FetchOutcome` | hooks/authHooks.tsx:45-66 | a rejected call leaves the storage alone, makes no navigation and returns nothing; a returned token is present and stored under "access"; null without a rejection means both keys were removed and one navigation to /login was made; at most one navigation happens |
| `Auth.UsableTokenReturned` | hooks/authHooks.tsx:50 | a present, unexpired token is returned unchanged, with no refresh, no storage change and no navigation |
| `Auth.RefreshReplacesAccess` | hooks/authHooks.tsx:50-61 | a successful refresh overwrites "access" only, keeps "refresh", makes no navigation and returns the new token |
| `Auth.RefreshFailureLogsOut` | hooks/authHooks.tsx:51-58 | a refresh yielding null removes both keys and nothing else, navigates to /login and returns null |
| `Auth.RefreshRequestedIff` | hooks/authHooks.tsx:50-51 | the endpoint is asked exactly when a refresh is needed and a refresh token is stored |
| `Auth.FetchRejectsIff` | hooks/authHooks.tsx:27-51 | `fetchWithToken` rejects exactly when a refresh is needed, a refresh token is stored and the refresh request rejects; it then changes no storage and navigates nowhere |
| `Auth.Browser.constructor` | hooks/authHooks.tsx:46-47 | the browser starts with the given storage, no navigations, no refresh requests and no DELETE requests |
| `Auth.Browser.FetchWithToken` | hooks/authHooks.tsx:45-66 | the storage, the navigations, the refresh requests, whether the call rejects and the returned token are those of `FetchOutcome`; no DELETE is sent |
| `Auth.Browser.Logout` | hooks/authHooks.tsx:99-103 | both keys go, then a navigation to /login |
| `Auth.Browser.DeleteAccount` | hooks/authHooks.tsx:73-90 | the token fetch's effects come first; when it rejects no DELETE is sent and nothing more happens; otherwise exactly one DELETE is sent, and only a 2xx answer removes both keys and navigates to /register |
| `Auth.Browser.AuthCheck` | hooks/authHooks.tsx:6-13 | a navigation to /login is made exactly when no non-empty access token is stored; the expiry is not examined |
| `Stores.TaskStore.constructor` | hooks/TaskContext.tsx:25 | the list starts empty (also `useTasks`, hooks/useTasks.tsx:8) |
| `Stores.TaskStore.Load` | hooks/TaskContext.tsx:28-45 | a fetched array replaces the list, and a thrown request leaves it (also hooks/useTasks.tsx:14-28) |
| `Stores.TaskStore.AddTask` | hooks/TaskContext.tsx:48-64 | the server's record is appended (also hooks/useTasks.tsx:38-52) |
| `Stores.TaskStore.UpdateTask` | hooks/TaskContext.tsx:67-85 | every record with the id of the server's record is replaced by it (also hooks/useTasks.tsx:59-74) |
| `Stores.TaskStore.DeleteTask` | hooks/TaskContext.tsx:88-101 | once the DELETE settles, whatever its status, every record with the id goes; an undefined id removes nothing (also hooks/useTasks.tsx:81-91) |
| `Stores.ProjectStore.constructor` | hooks/useProjects.tsx:9-10 | no projects and no selection |
| `Stores.ProjectStore.Load` | hooks/useProjects.tsx:15-26 | the list is loaded only when a token was obtained and the request did not throw |
| `Stores.ProjectStore.AddProject` | hooks/useProjects.tsx:34-46 | the server's record is appended; the selection is unchanged |
| `Stores.ProjectStore.UpdateProject` | hooks/useProjects.tsx:50-68 | records with the server record's id are replaced; the selection is unchanged, even when it is the updated project |
| `Stores.ProjectStore.DeleteProject` | hooks/useProjects.tsx:72-85 | records with the id go; the selection is unchanged, even when it is the deleted project |
| `Stores.ProjectStore.SetSelectedProject` | hooks/useProjects.tsx:10 | the selection is stored as given |
| `Stores.TabStore.constructor` | hooks/useTabs.tsx:9 | the tab list starts empty |
| `Stores.TabStore.Load` | hooks/useTabs.tsx:14-25 | the tabs are loaded only with a token and a settled request |
| `Stores.TabStore.AddTab` | hooks/useTabs.tsx:34-46 | the server's tab is appended |
| `Stores.TabStore.UpdateTab` | hooks/useTabs.tsx:50-68 | tabs with the server tab's id are replaced |
| `Stores.TabStore.DeleteTab` | hooks/useTabs.tsx:72-83 | tabs with the id go |
| `Stores.DeleteUndoesAdd` | hooks/TaskContext.tsx:60-97 | deleting a record that was just added, under a new id, restores the list |
| `Stores.DeleteUndefinedKeepsAll` | hooks/TaskContext.tsx:97 | deleting with an undefined id keeps every record |
| `Stores.UpdateWithCachedRecord` | hooks/TaskContext.tsx:79-81 | updating with a record already cached under its own unique id changes nothing |
| `Seqs.Filter` | components/TaskList.tsx:107 | the kept elements satisfy the predicate, and there are no more of them than the input has |
| `Seqs.FilterMembers` | components/TaskList.tsx:107 | `filter` keeps exactly the elements that satisfy the predicate |
| `Seqs.FilterConcat` | components/TaskList.tsx:107 | filtering distributes over concatenation, so the input order is kept |
| `Seqs.Find` | hooks/useTaskReminder.tsx:39 | `find` yields None exactly when nothing matches, and otherwise the first match |
| `Seqs.Dedup` | components/CalendarSection.tsx:27-35 | the push-unless-included accumulator has no duplicates and only input elements |
| `Seqs.DedupMembers` | components/CalendarSection.tsx:27-35 | every input element is in the accumulator |
| `Seqs.DedupFirstOccurrenceOrder` | components/CalendarSection.tsx:27-35 | the accumulator lists elements in the order of their first occurrence |
| `Seqs.Append` | hooks/TaskContext.tsx:60 | `[...prev, x]` keeps the prefix and ends with x |
| `Seqs.ReplaceById` | hooks/TaskContext.tsx:79-81 | records with the new record's id become it, and the others are untouched, position by position |
| `Seqs.ReplaceKeepsIds` | hooks/TaskContext.tsx:79-81 | an update never changes the list's ids |
| `Seqs.ReplaceIdempotent` | hooks/TaskContext.tsx:79-81 | updating twice with the same record is updating once |
| `Seqs.RemoveById` | hooks/TaskContext.tsx:97 | no remaining record has the id |
| `Seqs.RemoveByIdMembers` | hooks/TaskContext.tsx:97 | exactly the records without the id remain |
| `Seqs.RemoveConcat` | hooks/TaskContext.tsx:97 | removal keeps the order of the remaining records |
| `Decimal.DecimalRoundTrip` | components/ProjectTree.tsx:186 | `Number` of a node id made by `toString` gives the task id back |
| `Decimal.DecimalInjective` | components/ProjectTree.tsx:153 | distinct ids give distinct node ids |
| `Decimal.ParseNumber` | components/ProjectTree.tsx:186 | a string of digits reads as its value; a string starting with anything but a digit or '-' is NaN |
| `TaskList.RoundMinutesNearest` | components/TaskList.tsx:64 | the rounded minute count is the nearest whole minute, halves going up |
| `TaskList.RoundMinutesMonotone` | components/TaskList.tsx:64 | rounding is monotone and exact on whole minutes |
| `TaskList.WorkMinutes` | components/TaskList.tsx:56-66 | 0 without a truthy, valid actual start; otherwise the nearest whole minute of the elapsed time, possibly negative |
| `TaskList.FutureStartIsNegative` | components/TaskList.tsx:64 | a start two minutes in the future gives a work time of -2 |
| `TaskList.OvertimeMinutes` | components/TaskList.tsx:68-78 | never negative; 0 without a truthy, valid due date or when the completion is not after it; otherwise the rounded minutes past it |
| `TaskList.StartRecord` | components/TaskList.tsx:40-52 | the sent record is in progress, starts now and carries the list's tab and project; every other property is the task's |
| `TaskList.CompleteRecord` | components/TaskList.tsx:80-88 | the sent record is done, completed now, has both computed durations and the list's tab and project; every other property is the task's |
| `TaskList.Listed` | components/TaskList.tsx:107 | every listed task belongs to the current tab |
| `TaskList.ListedIff` | components/TaskList.tsx:107 | a task is listed exactly when it is one of the tasks and in the current tab |
| `TaskList.ActionFor` | components/TaskList.tsx:116-124 | the start button exactly for "未着手", the complete button exactly for "進行中", the badge exactly for "完了" |
| `TaskList.Lifecycle` | components/TaskList.tsx:40-124 | starting leads to the complete button, and completing leads to the badge |
| `TaskList.TaskListView.constructor` | components/TaskList.tsx:22-25 | no dialog open and nothing sent |
| `TaskList.TaskListView.AddTaskClick` | components/TaskList.tsx:28-32 | an empty task dialog opens in creation mode |
| `TaskList.TaskListView.EditTaskClick` | components/TaskList.tsx:34-38 | the task dialog opens on the task in edit mode |
| `TaskList.TaskListView.StartTask` | components/TaskList.tsx:40-52 | exactly the start record is sent, and no dialog changes |
| `TaskList.TaskListView.CompleteTask` | components/TaskList.tsx:54-95 | what is sent and shown in the report dialog is exactly `CompleteRecord`; the task dialog is untouched |
| `Calendar.DayOfBounds` | components/CalendarSection.tsx:19-20 | an instant lies inside the UTC day it is assigned to |
| `Calendar.DayList` | components/CalendarSection.tsx:16-23 | the list exists exactly when no scheduled date is invalid, and holds only tasks on the selected day (also components/Calendar/CalendarSection.tsx:27-34) |
| `Calendar.DayListIff` | components/CalendarSection.tsx:16-23 | a task is listed exactly when it is one of the input tasks and is scheduled on the selected day |
| `Calendar.NoSelectionNoTasks` | components/CalendarSection.tsx:20-22 | with no selected date the list is empty |
| `Calendar.DayListOrder` | components/CalendarSection.tsx:16-23 | the list keeps the input order |
| `Calendar.DaysMembers` | components/CalendarSection.tsx:27-35 | a day appears exactly when some scheduled task falls on it |
| `Calendar.DatesStep` | components/CalendarSection.tsx:28-33 | one step of the `reduce`: a scheduled task's day is pushed unless already present |
| `Calendar.DatesWithTasks` | components/CalendarSection.tsx:27-35 | the `reduce` loop fails exactly when a scheduled date is invalid, and otherwise yields the distinct days in first-occurrence order (also components/Calendar/CalendarSection.tsx:38-46) |
| `Calendar.DatesWithTasksSpec` | components/CalendarSection.tsx:27-35 | `datesWithTasks` holds each day that has a scheduled task, no other, each once |
| `Calendar.DatesInFirstOccurrenceOrder` | components/CalendarSection.tsx:27-35 | the days appear in the order the list first reaches them |
| `Calendar.MarkedIff` | components/CalendarSection.tsx:47 | a calendar day is marked exactly when a scheduled task falls on it (also components/Calendar/CalendarSection.tsx:58) |
| `Calendar.CalendarView.constructor` | components/Calendar/CalendarSection.tsx:15-18 | today is selected, the dialog is closed, and the edited task is the first task |
| `Calendar.CalendarView.Select` | components/Calendar/CalendarSection.tsx:55 | only the selection changes |
| `Calendar.CalendarView.EditTaskClick` | components/Calendar/CalendarSection.tsx:20-24 | the dialog opens on the task in edit mode |
| `Review.Completed` | components/ReviewSection.tsx:19-23 | every completed task has status "完了" |
| `Review.CompletedIff` | components/ReviewSection.tsx:21 | a task is in the list exactly when it is one of the input tasks and its status is "完了" |
| `Review.InsertBy` | components/ReviewSection.tsx:31 | insertion adds exactly the one element |
| `Review.InsertSorted` | components/ReviewSection.tsx:31 | insertion keeps a list sorted in non-increasing order |
| `Review.InsertStable` | components/ReviewSection.tsx:31 | insertion keeps the elements of each value in order, with the new one last |
| `Review.SortBy` | components/ReviewSection.tsx:31 | the sort is a permutation |
| `Review.SortBySorted` | components/ReviewSection.tsx:31 | the sort's output is non-increasing by key |
| `Review.SortByStable` | components/ReviewSection.tsx:31 | the sort is stable: the elements of each value keep their input order |
| `Review.SortDesc` | components/ReviewSection.tsx:31 | the sorted copy is a permutation of the completed tasks |
| `Review.SortDescSpec` | components/ReviewSection.tsx:31 | the copy is non-increasing by `value ?? 0`, and ties stay in input order |
| `Review.Display` | components/ReviewSection.tsx:47 | "未入力" exactly when the value is null, undefined or 0 |
| `Review.Rows` | components/ReviewSection.tsx:38-49 | one row per sorted task, in order, with its shown value |
| `Review.Sections` | components/ReviewSection.tsx:58-61 | four sections in the fixed order difficulty, achievement, expected work time, overtime |
| `Review.SectionsCover` | components/ReviewSection.tsx:58-61 | each property has a section |
| `Review.SectionsSpec` | components/ReviewSection.tsx:19-61 | each section lists exactly the completed tasks, sorted by its value with ties in input order, each with its shown value |
| `ProjectTree.HueHalfDegrees` | components/ProjectTree.tsx:76-79 | the hue is below 360 degrees |
| `ProjectTree.ColourForTab` | components/ProjectTree.tsx:76-79 | a colour is never the empty string, so an assigned entry is truthy (also components/ProjectTree/ProjectTree.tsx:129) |
| `ProjectTree.ColourPeriod` | components/ProjectTree.tsx:76-79 | the golden-angle colours repeat after 144 tabs |
| `ProjectTree.PaletteKeys` | components/ProjectTree.tsx:201-208 | the coloured tabs are exactly the listed ones |
| `ProjectTree.PaletteSize` | components/ProjectTree.tsx:206 | there are as many colours as distinct tabs |
| `ProjectTree.PaletteAt` | components/ProjectTree.tsx:206 | the i-th distinct tab gets colour i |
| `ProjectTree.PaletteStep` | components/ProjectTree.tsx:204-207 | a new tab gets the colour numbered by how many tabs already have one, and a known tab keeps its colour |
| `ProjectTree.ColoursStep` | components/ProjectTree.tsx:204-207 | one step of the `forEach` over the tasks |
| `ProjectTree.AssignTabColours` | components/ProjectTree.tsx:201-208 | the `forEach` loop yields the palette of the distinct tabs in first-occurrence order (also components/ProjectTree/ProjectTree.tsx:126-131) |
| `ProjectTree.DedupPrefix` | components/ProjectTree.tsx:201-208 | the distinct tabs of a prefix are a prefix of the distinct tabs |
| `ProjectTree.FirstOccurrenceSlot` | components/ProjectTree.tsx:201-208 | a tab's position among the distinct tabs is the number of distinct tabs before its first task |
| `ProjectTree.TabColoursSpec` | components/ProjectTree.tsx:201-208 | every task's tab is coloured, with the colour numbered by the distinct tabs before its first task |
| `ProjectTree.TabColoursKeys` | components/ProjectTree.tsx:201-208 | a tab is coloured exactly when some task has it |
| `ProjectTree.TabColoursExtend` | components/ProjectTree.tsx:201-208 | later tasks never change a colour already assigned |
| `ProjectTree.NewNode` | components/ProjectTree.tsx:151-162 | the node's id is the task id's text, its label is the title, its dates are the raw strings or "未設定", and its background is the tab's colour or "#E0E0E0" (also components/ProjectTree/ProjectTree.tsx:81-92) |
| `ProjectTree.NodeTakesTabColour` | components/ProjectTree.tsx:160 | a task of the component's own list always gets its tab's colour, never the fallback |
| `ProjectTree.DoubleClickFindsTask` | components/ProjectTree.tsx:184-193 | double clicking a node made from a task finds the first task with that id |
| `ProjectTree.DoubleClickOnNaN` | components/ProjectTree.tsx:186-187 | a node id that is not a number finds nothing |
| `ProjectTree.TreeCanvas.constructor` | components/ProjectTree.tsx:86-88 | no nodes, no edges, nothing saved, nothing edited |
| `ProjectTree.TreeCanvas.WithFirstTask` | components/ProjectTree/ProjectTree.tsx:19-21 | the later version starts editing the first task |
| `ProjectTree.TreeCanvas.LoadTree` | components/ProjectTree.tsx:91-114 | a 2xx answer replaces nodes and edges, with a missing list becoming empty; otherwise nothing changes (also components/ProjectTree/ProjectTree.tsx:23-46) |
| `ProjectTree.TreeCanvas.AddTaskToTree` | components/ProjectTree.tsx:151-169 | exactly one node is appended, even for a task already on the tree, and the new tree is posted (also components/ProjectTree/ProjectTree.tsx:81-99) |
| `ProjectTree.TreeCanvas.NodeDoubleClick` | components/ProjectTree.tsx:184-193 | the dialog opens in edit mode on the found task, and nothing changes when no task has the id (also components/ProjectTree/ProjectTree.tsx:111-120) |
| `ProjectTree.BeforeFirst` | components/ProjectTree/utils.ts:9 | `split(c)[0]` is the longest prefix without c, the whole string exactly when c is absent, and is otherwise followed by c |
| `ProjectTree.BeforeFirstAt` | components/ProjectTree/utils.ts:9 | the text before a first c is cut exactly there |
| `ProjectTree.FormatDate` | components/ProjectTree/utils.ts:2-13 | "未設定" for a missing, empty or unparseable string, with a '+' offset cut first; otherwise the ISO text before 'T', which contains no 'T' (also components/ProjectTree.tsx:24-37) |
| `ProjectTree.FormatDateShowsDay` | components/ProjectTree/utils.ts:5-9 | a date that parses shows exactly the day part of its ISO text |
| `App.PublicAlwaysShown` | app/_app.tsx:25-27 | the login and registration pages always render |
| `App.ProtectedNeedsSession` | app/_app.tsx:25-27 | any other page renders exactly when a token was obtained |
| `App.AppShell.constructor` | app/_app.tsx:7 | before the check nobody is authenticated, so only public pages render |
| `App.AppShell.CheckToken` | app/_app.tsx:11-21 | the token fetch's effects; when it rejects, the authentication state, the storage and the navigations are left as they were; otherwise authentication exactly when a token came back, and a push to /login from a protected page when none did, so a page that does not render has just navigated to /login |
| `TabsSection.ProjectTasks` | components/TabsSection.tsx:41-49 | no tasks without a selection; otherwise only tasks of the selected project |
| `TabsSection.ProjectTasksIff` | components/TabsSection.tsx:44 | a task is in the project's list exactly when it is one of `allTask` and belongs to the project |
| `TabsSection.ProjectTasksOrder` | components/TabsSection.tsx:44 | the project's list keeps the order of all tasks |
| `TabsSection.ProjectTabs` | components/TabsSection.tsx:79-80 | only the selected project's tabs get a trigger and a panel |
| `TabsSection.ProjectTabsIff` | components/TabsSection.tsx:116-117 | a tab gets a panel exactly when it is one of the tabs and belongs to the project |
| `TabsSection.Panels` | components/TabsSection.tsx:116-127 | one panel per shown tab, in order, given the project's tasks and the tab's id |
| `TabsSection.Wire` | components/TabsSection.tsx:39-127 | the reminder and the calendar get every task; the review, the tree and each panel get the project's tasks, and only when a project is selected |
| `TabsSection.PanelShows` | components/TabsSection.tsx:116-127 | a tab's list shows exactly the tasks of the selected project with that tab |

## Left out

- Network requests are not modelled. Each awaited request chain is a parameter (`Stores.Awaited`, `Auth.Reply`, `ProjectTree.ProjectReply`) that gives either the parsed body or a rejection: `Auth.Reply` is `Rejected` when the refresh `fetch` rejects or a 2xx body is not JSON, and the `Threw` case of `Stores.Awaited` stands for any rejection of the chain, including that of `fetchWithToken`. Request bodies, URLs and headers are outside the model. That includes the account DELETE sent with "Bearer null" when the token fetch yields null: `Auth.Browser.DeleteAccount` counts that request but not what it carries. A DELETE that rejects is modelled like a non-2xx answer, because neither changes any state.
- Stores.TaskStore.Load, Stores.TaskStore.AddTask, Stores.TaskStore.UpdateTask, Stores.ProjectStore.Load, Stores.ProjectStore.AddProject, Stores.ProjectStore.UpdateProject, Stores.TabStore.Load, Stores.TabStore.AddTab, Stores.TabStore.UpdateTab: the source never checks `response.ok` for these. The parsed body is assumed to have the declared shape whatever the status. So a non-2xx error body (a 401 `{detail: …}` object, or a 400 validation object) taking the place of the list or of a record is not modelled, nor is the error it causes later in a consumer's `.filter` or `.map`.
- The numeric properties of a task (`difficulty`, `expected_work_time`, `actual_work_time`, `overtime`, `achievement`) are `Option<int>`. They are whole numbers, or null or absent, as the server returns them. Fractional values, and the NaN an emptied number field of a form produces, are not modelled.
- JWT decoding is left out. The payload's `exp` is a function of the token, so a malformed token that makes `atob` or `JSON.parse` throw is not modelled.
- Clocks are parameters: `now`, and `Instant` carries the time together with its ISO text. Date parsing is an oracle too. For records it is the `time` part of `DateField`, and for `formatDate` `parse` and `isoOf` are parameters, so ISO formatting itself is not modelled.
- `Decimal.ParseNumber` covers only an optional '-' followed by digits, and the empty string. Other forms `Number()` accepts (spaces, decimals, exponents, hexadecimal) are not modelled, because node ids are always integer text.
- Browser notifications are recorded as `Notice` values, not displayed.
- Timers are explicit method calls, so real timing and ordering between timers are not modelled. The order in which React flushes batched updates within one check is assumed to be one write per check.
- A second `fetchWithToken` that starts while a refresh is still pending is not modelled. Concurrent calls are treated one at a time.
- Rendering and reactflow are left out: layout, styles, random node positions, node type. Also left out are `onConnect`, `onNodesChange`, `onEdgesChange` and the handlers that post the tree after a drag (they post the nodes of the previous render). The answer to the save request is ignored, as in the source.
- ReviewSection's `handleCompleteTask` and its report dialog are not modelled, because they only open a dialog. The one render during which `completedTasks` and the tabs section's `tasks` still hold the previous list is not modelled either. Both are computed straight from their inputs.
- TabsSection's `handleNewTab` and `handleEditTab`, and the dialogs, are not modelled, because they only open dialogs.
- Console logging is not modelled. The two copies of `formatDate` differ only in logging.
- Task properties the core never reads or writes (description, priority and the like) are not part of the record.
- `ProjectTree.ColourForTab`: its contract states only that the colour is non-empty. The exact text is fixed by its definition, and `ColourPeriod` and the palette lemmas are stated over it.
