/** The calendar section (components/CalendarSection.tsx and its later copy
    components/Calendar/CalendarSection.tsx, which compute the same lists):
    the tasks of the selected day, the days that have tasks, the marking of
    calendar days, and the edit dialog of the later copy.

    A date string `toISOString().split('T')[0]` names a UTC day; two
    instants give the same string exactly when they fall on the same UTC
    day, so days are day numbers here. */
module Calendar {
  import opened Types
  import opened Seqs

  const DayMs: int := 86400000

  /** The UTC day of an instant, counted from the epoch. */
  function DayOf(ms: int): int {
    ms / DayMs
  }

  /** An instant lies inside its day, before midnight of the next one. */
  lemma DayOfBounds(ms: int)
    ensures DayOf(ms) * DayMs <= ms < (DayOf(ms) + 1) * DayMs
  {
  }

  predicate Scheduled(t: Task) {
    Truthy(t.scheduledStart)
  }

  /** Every scheduled start is a valid date. For an Invalid Date
      `toISOString` throws, and then neither list is computed. */
  predicate Renderable(tasks: seq<Task>) {
    forall i :: 0 <= i < |tasks| && Scheduled(tasks[i]) ==> tasks[i].scheduledStart.time.Some?
  }

  function TaskDay(t: Task): int
    requires Scheduled(t) && t.scheduledStart.time.Some?
  {
    DayOf(t.scheduledStart.time.value)
  }

  /** The filter of `tasksForSelectedDate`: scheduled, and on the selected
      day; with no selection `undefined === date` is false. */
  predicate OnDay(t: Task, selected: Option<int>) {
    && Scheduled(t) && t.scheduledStart.time.Some?
    && selected.Some? && DayOf(selected.value) == TaskDay(t)
  }

  /** `tasksForSelectedDate`; None when the computation throws. */
  function DayList(tasks: seq<Task>, selected: Option<int>): (r: Option<seq<Task>>)
    ensures r.Some? <==> Renderable(tasks)
    ensures r.Some? ==> forall i :: 0 <= i < |r.value| ==> OnDay(r.value[i], selected)
  {
    if !Renderable(tasks) then None else Some(Filter(tasks, (t: Task) => OnDay(t, selected)))
  }

  /** A task is listed exactly when it is scheduled on the selected day, and
      the list keeps the input order. */
  lemma DayListIff(tasks: seq<Task>, selected: Option<int>, t: Task)
    requires Renderable(tasks)
    ensures t in DayList(tasks, selected).value <==> t in tasks && OnDay(t, selected)
  {
    FilterMembers(tasks, (t: Task) => OnDay(t, selected));
  }

  /** With no selected date the list is empty. */
  lemma NoSelectionNoTasks(tasks: seq<Task>)
    requires Renderable(tasks)
    ensures DayList(tasks, None).value == []
  {
    FilterNone(tasks, (t: Task) => OnDay(t, None));
  }

  lemma DayListOrder(a: seq<Task>, b: seq<Task>, selected: Option<int>)
    requires Renderable(a + b)
    ensures Renderable(a) && Renderable(b)
    ensures DayList(a + b, selected).value == DayList(a, selected).value + DayList(b, selected).value
  {
    assert forall i :: 0 <= i < |a| ==> a[i] == (a + b)[i];
    assert forall i :: 0 <= i < |b| ==> b[i] == (a + b)[|a| + i];
    FilterConcat(a, b, (t: Task) => OnDay(t, selected));
  }

  /** The days of the scheduled tasks, in list order, repeats included. */
  function Days(tasks: seq<Task>): seq<int>
    requires Renderable(tasks)
  {
    if tasks == [] then []
    else
      var pre := tasks[..|tasks| - 1];
      var t := tasks[|tasks| - 1];
      assert forall i :: 0 <= i < |pre| ==> pre[i] == tasks[i];
      Days(pre) + (if Scheduled(t) then [TaskDay(t)] else [])
  }

  /** A day occurs in `Days` exactly when a scheduled task falls on it. */
  lemma {:induction false} DaysMembers(tasks: seq<Task>, d: int)
    requires Renderable(tasks)
    ensures d in Days(tasks) <==> exists i :: 0 <= i < |tasks| && Scheduled(tasks[i]) && TaskDay(tasks[i]) == d
  {
    if tasks != [] {
      var n := |tasks| - 1;
      var pre := tasks[..n];
      var t := tasks[n];
      DaysLast(tasks);
      DaysMembers(pre, d);
      if d in Days(tasks) {
        if d in Days(pre) {
          var i :| 0 <= i < |pre| && Scheduled(pre[i]) && TaskDay(pre[i]) == d;
          assert tasks[i] == pre[i];
        } else {
          assert Scheduled(tasks[n]) && TaskDay(tasks[n]) == d;
        }
      }
      if exists i :: 0 <= i < |tasks| && Scheduled(tasks[i]) && TaskDay(tasks[i]) == d {
        var i :| 0 <= i < |tasks| && Scheduled(tasks[i]) && TaskDay(tasks[i]) == d;
        if i < n {
          assert pre[i] == tasks[i];
        }
      }
    }
  }

  /** `Days` of a non-empty list: the days of all but the last task, then
      the last task's day when it is scheduled. */
  lemma DaysLast(tasks: seq<Task>)
    requires Renderable(tasks) && tasks != []
    ensures Renderable(tasks[..|tasks| - 1])
    ensures var t := tasks[|tasks| - 1];
            Days(tasks) == Days(tasks[..|tasks| - 1]) + (if Scheduled(t) then [TaskDay(t)] else [])
  {
    var pre := tasks[..|tasks| - 1];
    assert forall i :: 0 <= i < |pre| ==> pre[i] == tasks[i];
  }

  /** One step of the `reduce`: the accumulator after one more task. */
  lemma DatesStep(tasks: seq<Task>, i: nat, acc: seq<int>)
    requires i < |tasks| && Renderable(tasks[..i]) && acc == Dedup(Days(tasks[..i]))
    requires Scheduled(tasks[i]) ==> tasks[i].scheduledStart.time.Some?
    ensures Renderable(tasks[..i + 1])
    ensures Dedup(Days(tasks[..i + 1])) ==
              if Scheduled(tasks[i]) && TaskDay(tasks[i]) !in acc then acc + [TaskDay(tasks[i])] else acc
  {
    var t := tasks[i];
    var pre := tasks[..i];
    assert tasks[..i + 1] == pre + [t];
    assert (pre + [t])[..i] == pre;
    if Scheduled(t) {
      DedupSnoc(Days(pre), TaskDay(t));
    } else {
      assert Days(pre + [t]) == Days(pre) + [] == Days(pre);
    }
  }

  /** The `reduce` of `datesWithTasks`: each scheduled task's day is pushed
      onto the accumulator unless it is already there. None when the
      computation throws. */
  method DatesWithTasks(tasks: seq<Task>) returns (r: Option<seq<int>>)
    ensures r.Some? <==> Renderable(tasks)
    ensures r.Some? ==> r.value == Dedup(Days(tasks))
  {
    var acc: seq<int> := [];
    var i := 0;
    while i < |tasks|
      invariant 0 <= i <= |tasks|
      invariant Renderable(tasks[..i])
      invariant acc == Dedup(Days(tasks[..i]))
    {
      var t := tasks[i];
      if Scheduled(t) && t.scheduledStart.time.None? {
        return None;
      }
      DatesStep(tasks, i, acc);
      if Scheduled(t) {
        var date := DayOf(t.scheduledStart.time.value);
        if date !in acc {
          acc := acc + [date];
        }
      }
      i := i + 1;
    }
    assert tasks[..|tasks|] == tasks;
    return Some(acc);
  }

  /** `datesWithTasks` holds each day that has a scheduled task, and no
      other day, once each. */
  lemma DatesWithTasksSpec(tasks: seq<Task>, d: int)
    requires Renderable(tasks)
    ensures NoDuplicates(Dedup(Days(tasks)))
    ensures d in Dedup(Days(tasks)) <==> exists i :: 0 <= i < |tasks| && Scheduled(tasks[i]) && TaskDay(tasks[i]) == d
  {
    DaysMembers(tasks, d);
    DedupMembers(Days(tasks));
  }

  /** The days appear in the order in which the list first reaches them. */
  lemma DatesInFirstOccurrenceOrder(tasks: seq<Task>, i: nat, j: nat)
    requires Renderable(tasks) && i < j < |Dedup(Days(tasks))|
    ensures FirstIndex(Days(tasks), Dedup(Days(tasks))[i]) < FirstIndex(Days(tasks), Dedup(Days(tasks))[j])
  {
    DedupFirstOccurrenceOrder(Days(tasks), i, j);
  }

  /** The `hasTask` modifier: a calendar day is marked when its date is in
      `datesWithTasks`. */
  predicate Marked(dates: seq<int>, dayMs: int) {
    DayOf(dayMs) in dates
  }

  /** A day is marked exactly when a scheduled task falls on it. */
  lemma MarkedIff(tasks: seq<Task>, dayMs: int)
    requires Renderable(tasks)
    ensures Marked(Dedup(Days(tasks)), dayMs) <==>
              exists i :: 0 <= i < |tasks| && Scheduled(tasks[i]) && TaskDay(tasks[i]) == DayOf(dayMs)
  {
    DatesWithTasksSpec(tasks, DayOf(dayMs));
  }

  /** The later copy's state: the selected date, the edit dialog and the
      task it edits, which starts as the first task (undefined for an empty
      list). */
  class CalendarView {
    var selectedDate: Option<int>
    var isTaskDialogOpen: bool
    var isEditMode: bool
    var taskToEdit: Option<Task>

    constructor (allTask: seq<Task>, today: int)
      ensures selectedDate == Some(today) && !isTaskDialogOpen && !isEditMode
      ensures taskToEdit == (if |allTask| > 0 then Some(allTask[0]) else None)
    {
      selectedDate := Some(today);
      isTaskDialogOpen := false;
      isEditMode := false;
      taskToEdit := if |allTask| > 0 then Some(allTask[0]) else None;
    }

    /** `onSelect`: a day, or none when the selected day is clicked again. */
    method Select(day: Option<int>)
      modifies this
      ensures selectedDate == day
      ensures isTaskDialogOpen == old(isTaskDialogOpen) && isEditMode == old(isEditMode) && taskToEdit == old(taskToEdit)
    {
      selectedDate := day;
    }

    /** `handleEditTaskClick`: the task is set for editing, edit mode is on
        and the dialog opens. */
    method EditTaskClick(t: Task)
      modifies this
      ensures taskToEdit == Some(t) && isEditMode && isTaskDialogOpen && selectedDate == old(selectedDate)
    {
      taskToEdit := Some(t);
      isEditMode := true;
      isTaskDialogOpen := true;
    }
  }
}
