/** The task list of one tab (components/TaskList.tsx): which tasks it
    lists, the button each status offers, the records that starting and
    completing a task send, with the work time and the overtime in minutes,
    and the dialogs it opens. */
module TaskList {
  import opened Types
  import opened Seqs

  const MinuteMs: int := 60000

  /** `Math.round(d / 60000)` for an integer number of milliseconds:
      JavaScript rounds halves up, and Dafny's division floors for a positive
      divisor. */
  function RoundMinutes(d: int): int {
    (d + MinuteMs / 2) / MinuteMs
  }

  /** The rounded value is the nearest whole minute, halves going up. */
  lemma RoundMinutesNearest(d: int)
    ensures var r := RoundMinutes(d);
            r * MinuteMs - MinuteMs / 2 <= d < r * MinuteMs + MinuteMs / 2
  {
  }

  /** Rounding is monotone, and exact on whole minutes. */
  lemma RoundMinutesMonotone(d: int, e: int, k: int)
    requires d <= e
    ensures RoundMinutes(d) <= RoundMinutes(e)
    ensures RoundMinutes(k * MinuteMs) == k
  {
    RoundMinutesNearest(d);
    RoundMinutesNearest(e);
    RoundMinutesNearest(k * MinuteMs);
  }

  /** The `work_time` of `handleCompleteTask`: 0 unless the actual start is
      set and a valid date, then the rounded minutes from it to the
      completion, not clamped. */
  function WorkMinutes(actualStart: DateField, completion: int): (r: int)
    ensures !Truthy(actualStart) || actualStart.time.None? ==> r == 0
    ensures Truthy(actualStart) && actualStart.time.Some? ==>
              r * MinuteMs - MinuteMs / 2 <= completion - actualStart.time.value < r * MinuteMs + MinuteMs / 2
  {
    if Truthy(actualStart) && actualStart.time.Some? then
      RoundMinutesNearest(completion - actualStart.time.value);
      RoundMinutes(completion - actualStart.time.value)
    else 0
  }

  /** A start in the future gives a negative work time. */
  lemma FutureStartIsNegative(completion: int)
    ensures WorkMinutes(Text("later", Some(completion + 2 * MinuteMs)), completion) == -2
  {
  }

  /** The `overtime` of `handleCompleteTask`: 0 without a due date, with an
      invalid one (every comparison with an Invalid Date is false), or when
      the completion is not after it; otherwise the rounded minutes past it. */
  function OvertimeMinutes(due: DateField, completion: int): (r: int)
    ensures r >= 0
    ensures !Truthy(due) || due.time.None? || completion <= due.time.value ==> r == 0
    ensures Truthy(due) && due.time.Some? && completion > due.time.value ==>
              r * MinuteMs - MinuteMs / 2 <= completion - due.time.value < r * MinuteMs + MinuteMs / 2
  {
    if Truthy(due) && due.time.Some? && completion > due.time.value then
      RoundMinutesNearest(completion - due.time.value);
      RoundMinutes(completion - due.time.value)
    else 0
  }

  /** The record `handleStartTask` sends: the task with its status in
      progress, the actual start now, and the list's tab and project. */
  function StartRecord(t: Task, now: Instant, currentTab: int, projectId: int): (r: Task)
    ensures r.status == InProgress && r.actualStart == Text(now.iso, Some(now.ms))
    ensures r.tab == currentTab && r.projectIdSent == Some(projectId)
    ensures r.(status := t.status, actualStart := t.actualStart, tab := t.tab, projectIdSent := t.projectIdSent) == t
  {
    t.(status := InProgress, actualStart := Text(now.iso, Some(now.ms)), tab := currentTab,
       projectIdSent := Some(projectId))
  }

  /** The record `handleCompleteTask` sends: status done, the completion
      date now, the two computed durations, and the list's tab and project. */
  function CompleteRecord(t: Task, now: Instant, currentTab: int, projectId: int): (r: Task)
    ensures r.status == Done && r.completionDate == Text(now.iso, Some(now.ms))
    ensures r.actualWorkTime == Some(WorkMinutes(t.actualStart, now.ms))
    ensures r.overtime.Some? && r.overtime.value >= 0 && r.overtime == Some(OvertimeMinutes(t.dueDate, now.ms))
    ensures r.tab == currentTab && r.projectIdSent == Some(projectId)
    ensures r.(status := t.status, completionDate := t.completionDate, actualWorkTime := t.actualWorkTime,
               overtime := t.overtime, tab := t.tab, projectIdSent := t.projectIdSent) == t
  {
    t.(status := Done, completionDate := Text(now.iso, Some(now.ms)),
       actualWorkTime := Some(WorkMinutes(t.actualStart, now.ms)),
       overtime := Some(OvertimeMinutes(t.dueDate, now.ms)),
       tab := currentTab, projectIdSent := Some(projectId))
  }

  /** The tasks the list shows: those of the current tab, in order. */
  function Listed(tasks: seq<Task>, currentTab: int): (r: seq<Task>)
    ensures forall i :: 0 <= i < |r| ==> r[i].tab == currentTab
  {
    Filter(tasks, (t: Task) => t.tab == currentTab)
  }

  /** A task is listed exactly when it is one of the tasks and belongs to
      the current tab. */
  lemma ListedIff(tasks: seq<Task>, currentTab: int, t: Task)
    ensures t in Listed(tasks, currentTab) <==> t in tasks && t.tab == currentTab
  {
    FilterMembers(tasks, (t: Task) => t.tab == currentTab);
  }

  /** What a row offers for its status. */
  datatype Action = StartButton | CompleteButton | DoneBadge | Nothing

  function ActionFor(status: string): (a: Action)
    ensures a == StartButton <==> status == NotStarted
    ensures a == CompleteButton <==> status == InProgress
    ensures a == DoneBadge <==> status == Done
  {
    if status == NotStarted then StartButton
    else if status == InProgress then CompleteButton
    else if status == Done then DoneBadge
    else Nothing
  }

  /** The lifecycle: starting leads to the complete button, completing to
      the badge, which offers nothing further. */
  lemma Lifecycle(t: Task, now: Instant, currentTab: int, projectId: int)
    ensures ActionFor(StartRecord(t, now, currentTab, projectId).status) == CompleteButton
    ensures ActionFor(CompleteRecord(t, now, currentTab, projectId).status) == DoneBadge
  {
  }

  /** The list's dialog state and the records it hands to `updateTask`. */
  class TaskListView {
    var taskToEdit: Option<Task>
    var isTaskDialogOpen: bool
    var isReportDialogOpen: bool
    var isEditMode: bool
    var sent: seq<Task>

    constructor ()
      ensures taskToEdit.None? && !isTaskDialogOpen && !isReportDialogOpen && !isEditMode && sent == []
    {
      taskToEdit, isTaskDialogOpen, isReportDialogOpen, isEditMode, sent := None, false, false, false, [];
    }

    /** `handleAddTaskClick`: an empty dialog in creation mode. */
    method AddTaskClick()
      modifies this
      ensures taskToEdit.None? && !isEditMode && isTaskDialogOpen
      ensures isReportDialogOpen == old(isReportDialogOpen) && sent == old(sent)
    {
      taskToEdit := None;
      isEditMode := false;
      isTaskDialogOpen := true;
    }

    /** `handleEditTaskClick`: the dialog on the task, in edit mode. */
    method EditTaskClick(t: Task)
      modifies this
      ensures taskToEdit == Some(t) && isEditMode && isTaskDialogOpen
      ensures isReportDialogOpen == old(isReportDialogOpen) && sent == old(sent)
    {
      taskToEdit := Some(t);
      isEditMode := true;
      isTaskDialogOpen := true;
    }

    /** `handleStartTask`. */
    method StartTask(t: Task, now: Instant, currentTab: int, projectId: int)
      modifies this
      ensures sent == old(sent) + [StartRecord(t, now, currentTab, projectId)]
      ensures taskToEdit == old(taskToEdit) && isTaskDialogOpen == old(isTaskDialogOpen)
      ensures isReportDialogOpen == old(isReportDialogOpen) && isEditMode == old(isEditMode)
    {
      var record := t.(status := InProgress, actualStart := Text(now.iso, Some(now.ms)), tab := currentTab,
                       projectIdSent := Some(projectId));
      sent := sent + [record];
    }

    /** `handleCompleteTask`: the two durations start at 0 and are
        reassigned when their dates allow; the record is sent and shown in
        the report dialog. */
    method CompleteTask(t: Task, now: Instant, currentTab: int, projectId: int)
      modifies this
      ensures sent == old(sent) + [CompleteRecord(t, now, currentTab, projectId)]
      ensures taskToEdit == Some(CompleteRecord(t, now, currentTab, projectId)) && isReportDialogOpen
      ensures isTaskDialogOpen == old(isTaskDialogOpen) && isEditMode == old(isEditMode)
    {
      var workTime := 0;
      if Truthy(t.actualStart) {
        var start := t.actualStart.time;
        if start.Some? {
          workTime := (now.ms - start.value + MinuteMs / 2) / MinuteMs;
        }
      }
      var overtime := 0;
      if Truthy(t.dueDate) {
        var due := t.dueDate.time;
        if due.Some? && now.ms > due.value {
          overtime := (now.ms - due.value + MinuteMs / 2) / MinuteMs;
        }
      }
      var record := t.(status := Done, completionDate := Text(now.iso, Some(now.ms)),
                       actualWorkTime := Some(workTime), overtime := Some(overtime),
                       tab := currentTab, projectIdSent := Some(projectId));
      sent := sent + [record];
      taskToEdit := Some(record);
      isReportDialogOpen := true;
    }
  }
}
