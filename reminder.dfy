/** The task reminder (hooks/useTaskReminder.tsx): a check that runs every
    minute, picks the not-started tasks whose scheduled start is at most five
    minutes away, notifies once per task and starts a per-task escalation
    interval that nags every minute until the task is in progress, stopped
    after thirty minutes by a timeout.

    Timer firings are explicit method calls. The React state cell
    `notifications` is a field; every state update stores a new object, so
    the effect that depends on it is torn down (clearing the check interval
    and every handle of the previous map) and started again (a new check
    interval) each time it is written. */
module Reminder {
  import opened Types
  import opened Seqs

  /** The period of the check interval. */
  const CheckPeriodMs: int := 60000
  /** The period of each escalation interval. */
  const EscalationPeriodMs: int := 60000
  /** How long before the scheduled start the window opens. */
  const WindowMs: int := 300000
  /** The delay of the timeout that stops an escalation. */
  const ExpiryMs: int := 1800000

  /** A timer id, as `setInterval` returns it. */
  type Handle = int

  /** A browser notification titled "Task Reminder". */
  datatype Notice = Starting(taskId: int, title: string) | Nag(taskId: int, title: string)

  const NoticeTitle: string := "Task Reminder"

  function Body(n: Notice): string {
    match n
    case Starting(_, title) => "タスク「" + title + "」が始まります！"
    case Nag(_, title) => "タスク「" + title + "」が開始されていません。進行中にしてください！"
  }

  /** The filter of the check: scheduled, exactly not started, and the check
      runs inside the closed window [start - 5 min, start]. An Invalid Date
      compares false with everything, so it never qualifies. */
  predicate Qualifies(t: Task, now: int) {
    && Truthy(t.scheduledStart)
    && t.status == NotStarted
    && t.scheduledStart.time.Some?
    && t.scheduledStart.time.value - WindowMs <= now <= t.scheduledStart.time.value
  }

  function Upcoming(tasks: seq<Task>, now: int): seq<Task> {
    Filter(tasks, (t: Task) => Qualifies(t, now))
  }

  /** The filter `!(task.id in notifications)`. */
  function Unkeyed(m: map<int, Handle>): Task -> bool {
    (t: Task) => t.id !in m
  }

  /** The upcoming tasks whose id is not yet a key of the map. */
  function NewTasks(tasks: seq<Task>, now: int, m: map<int, Handle>): (r: seq<Task>)
    ensures forall i :: 0 <= i < |r| ==> Qualifies(r[i], now) && r[i].id !in m
  {
    var up := Upcoming(tasks, now);
    FilterMembers(up, Unkeyed(m));
    Filter(up, Unkeyed(m))
  }

  /** A check selects exactly the tasks of the list that qualify and whose
      id is not yet a key. */
  lemma NewTasksMembers(tasks: seq<Task>, now: int, m: map<int, Handle>)
    ensures forall i :: 0 <= i < |NewTasks(tasks, now, m)| ==> NewTasks(tasks, now, m)[i] in tasks
    ensures forall i :: 0 <= i < |tasks| && Qualifies(tasks[i], now) && tasks[i].id !in m ==>
              tasks[i] in NewTasks(tasks, now, m)
  {
    var up := Upcoming(tasks, now);
    FilterMembers(tasks, (t: Task) => Qualifies(t, now));
    FilterMembers(up, Unkeyed(m));
    forall i | 0 <= i < |NewTasks(tasks, now, m)|
      ensures NewTasks(tasks, now, m)[i] in tasks
    {
      assert NewTasks(tasks, now, m)[i] in up;
    }
    forall i | 0 <= i < |tasks| && Qualifies(tasks[i], now) && tasks[i].id !in m
      ensures tasks[i] in NewTasks(tasks, now, m)
    {
      assert tasks[i] in up;
      var j :| 0 <= j < |up| && up[j] == tasks[i];
    }
  }

  /** The map after the check's functional updates `prev => ({...prev, [id]: h})`
      for the first n new tasks, the k-th receiving handle base + k. */
  function AddEntries(m: map<int, Handle>, added: seq<Task>, n: nat, base: Handle): map<int, Handle>
    requires n <= |added|
  {
    if n == 0 then m
    else AddEntries(m, added, n - 1, base)[added[n - 1].id := base + n - 1]
  }

  /** The keys after the check are the old keys and the new tasks' ids. */
  lemma {:induction false} AddEntriesKeys(m: map<int, Handle>, added: seq<Task>, n: nat, base: Handle, id: int)
    requires n <= |added|
    ensures id in AddEntries(m, added, n, base) <==> id in m || exists k :: 0 <= k < n && added[k].id == id
  {
    if n > 0 {
      AddEntriesKeys(m, added, n - 1, base, id);
    }
  }

  /** An old key that no new task carries keeps its handle. */
  lemma {:induction false} AddEntriesKeeps(m: map<int, Handle>, added: seq<Task>, n: nat, base: Handle, id: int)
    requires n <= |added| && id in m
    requires forall k :: 0 <= k < n ==> added[k].id != id
    ensures id in AddEntries(m, added, n, base) && AddEntries(m, added, n, base)[id] == m[id]
  {
    if n > 0 {
      AddEntriesKeeps(m, added, n - 1, base, id);
    }
  }

  /** A new id maps to the handle of the last new task carrying it. */
  lemma {:induction false} AddEntriesLast(m: map<int, Handle>, added: seq<Task>, n: nat, base: Handle, k: nat)
    requires k < n <= |added|
    requires forall j :: k < j < n ==> added[j].id != added[k].id
    ensures added[k].id in AddEntries(m, added, n, base) && AddEntries(m, added, n, base)[added[k].id] == base + k
  {
    if k < n - 1 {
      AddEntriesLast(m, added, n - 1, base, k);
    }
  }

  /** After the check's updates every task that qualifies has an entry. */
  lemma CheckedKeys(tasks: seq<Task>, now: int, m: map<int, Handle>, base: Handle)
    ensures var added := NewTasks(tasks, now, m);
            forall i :: 0 <= i < |tasks| && Qualifies(tasks[i], now) ==> tasks[i].id in AddEntries(m, added, |added|, base)
  {
    var added := NewTasks(tasks, now, m);
    NewTasksMembers(tasks, now, m);
    forall i | 0 <= i < |tasks| && Qualifies(tasks[i], now)
      ensures tasks[i].id in AddEntries(m, added, |added|, base)
    {
      AddEntriesKeys(m, added, |added|, base, tasks[i].id);
      if tasks[i].id !in m {
        var k :| 0 <= k < |added| && added[k] == tasks[i];
        assert added[k].id == tasks[i].id;
      }
    }
  }

  /** Scanning again with the map the check produced selects nothing: no task
      is notified twice while its id is a key. */
  lemma RescanSelectsNothing(tasks: seq<Task>, now: int, m: map<int, Handle>, base: Handle)
    ensures var added := NewTasks(tasks, now, m);
            NewTasks(tasks, now, AddEntries(m, added, |added|, base)) == []
  {
    var added := NewTasks(tasks, now, m);
    var m' := AddEntries(m, added, |added|, base);
    CheckedKeys(tasks, now, m, base);
    var up := Upcoming(tasks, now);
    FilterMembers(tasks, (t: Task) => Qualifies(t, now));
    forall j | 0 <= j < |up|
      ensures !Unkeyed(m')(up[j])
    {
      assert up[j] in tasks;
      var i :| 0 <= i < |tasks| && tasks[i] == up[j];
    }
    FilterNone(up, Unkeyed(m'));
  }

  /** A task qualifies only inside its window: a check after the start never
      selects it, and neither does one more than five minutes before. */
  lemma NoCatchUp(t: Task, now: int)
    requires t.scheduledStart.Text? && t.scheduledStart.time.Some?
    requires now > t.scheduledStart.time.value || now < t.scheduledStart.time.value - WindowMs
    ensures !Qualifies(t, now)
  {
  }

  /** Only tasks that are scheduled and exactly not started can qualify. */
  lemma OnlyNotStartedQualify(t: Task, now: int)
    requires t.status != NotStarted || !Truthy(t.scheduledStart)
    ensures !Qualifies(t, now)
  {
  }

  /** A task whose status is "in progress" or "done", or that has no
      scheduled start, is never selected by a check, whatever the map. */
  lemma NeverSelected(tasks: seq<Task>, now: int, m: map<int, Handle>, i: nat)
    requires i < |tasks|
    requires tasks[i].status != NotStarted || !Truthy(tasks[i].scheduledStart)
    ensures forall j :: 0 <= j < |NewTasks(tasks, now, m)| ==> NewTasks(tasks, now, m)[j] != tasks[i]
  {
  }

  /** The starting notices of the first n tasks a check selects, in order. */
  function StartingNotices(added: seq<Task>, n: nat): (r: seq<Notice>)
    requires n <= |added|
    ensures |r| == n
    ensures forall k :: 0 <= k < n ==> r[k] == Starting(added[k].id, added[k].title)
  {
    if n == 0 then [] else StartingNotices(added, n - 1) + [Starting(added[n - 1].id, added[n - 1].title)]
  }

  /** An escalation interval: the task it nags about (id and the title
      captured when it was created), when it was created, and the map as the
      check that created it saw it. */
  datatype Escalation = Escalation(taskId: int, title: string, scheduledAt: int, snapshot: map<int, Handle>)

  /** When the thirty-minute timeout of an escalation fires. */
  function ExpiryDue(e: Escalation): int {
    e.scheduledAt + ExpiryMs
  }

  /** The latest list's record with the given id, as `find` returns it. */
  function Lookup(tasks: seq<Task>, id: int): (r: Option<Task>)
    ensures r.Some? ==> r.value in tasks && r.value.id == id
    ensures r.None? ==> forall i :: 0 <= i < |tasks| ==> tasks[i].id != id
  {
    Find(tasks, (t: Task) => t.id == id)
  }

  /** Every key of the map points at an escalation of the task with that id. */
  predicate EntriesOk(m: map<int, Handle>, esc: map<Handle, Escalation>) {
    forall id :: id in m ==> m[id] in esc && esc[m[id]].taskId == id
  }

  lemma EntriesOkGrow(m: map<int, Handle>, esc: map<Handle, Escalation>, h: Handle, e: Escalation)
    requires EntriesOk(m, esc) && h !in esc
    ensures EntriesOk(m, esc[h := e])
  {
  }

  /** Entries stay well formed when escalations are only added. */
  lemma EntriesOkExtend(m: map<int, Handle>, esc0: map<Handle, Escalation>, esc: map<Handle, Escalation>)
    requires EntriesOk(m, esc0)
    requires forall h :: h in esc0 ==> h in esc && esc[h] == esc0[h]
    ensures EntriesOk(m, esc)
  {
    forall id | id in m
      ensures m[id] in esc && esc[m[id]].taskId == id
    {
      var h := m[id];
      assert h in esc0 && esc0[h].taskId == id;
      assert h in esc && esc[h] == esc0[h];
    }
  }

  lemma EntriesOkRemove(m: map<int, Handle>, esc: map<Handle, Escalation>, id: int)
    requires EntriesOk(m, esc)
    ensures EntriesOk(m - {id}, esc)
  {
  }

  /** The intervals still live after the map is written: the effect's
      cleanup clears the check interval and every handle of the previous map,
      and the effect's next run starts a new check interval. */
  function AfterCleanup(live: set<Handle>, check: Handle, previous: map<int, Handle>, newCheck: Handle): set<Handle> {
    live - {check} - previous.Values + {newCheck}
  }

  /** The handles base .. end - 1. */
  function Range(base: int, end: int): (r: set<Handle>)
    ensures forall h :: h in r <==> base <= h < end
    decreases end - base
  {
    if end <= base then {} else Range(base, end - 1) + {end - 1}
  }

  /** The escalations after a check: `esc0` plus, for each of the first n
      added tasks (the k-th), an escalation with handle base + k carrying the
      task's id and title, the time and the map the check saw. */
  function Armed(esc0: map<Handle, Escalation>, added: seq<Task>, n: nat, base: Handle, now: int,
                 snapshot: map<int, Handle>): map<Handle, Escalation>
    requires n <= |added|
  {
    if n == 0 then esc0
    else
      Armed(esc0, added, n - 1, base, now, snapshot)[base + n - 1 :=
        Escalation(added[n - 1].id, added[n - 1].title, now, snapshot)]
  }

  /** A handle the check arms is an old handle or one of the new ones. */
  lemma {:induction false} ArmedKey(esc0: map<Handle, Escalation>, added: seq<Task>, n: nat, base: Handle,
                                    now: int, snapshot: map<int, Handle>, h: Handle)
    requires n <= |added|
    ensures h in Armed(esc0, added, n, base, now, snapshot) <==> h in esc0 || base <= h < base + n
  {
    if n > 0 {
      ArmedKey(esc0, added, n - 1, base, now, snapshot, h);
    }
  }

  /** An old escalation is left as it was. */
  lemma {:induction false} ArmedOld(esc0: map<Handle, Escalation>, added: seq<Task>, n: nat, base: Handle,
                                    now: int, snapshot: map<int, Handle>, h: Handle)
    requires n <= |added|
    requires h in esc0 && h < base
    ensures h in Armed(esc0, added, n, base, now, snapshot) && Armed(esc0, added, n, base, now, snapshot)[h] == esc0[h]
  {
    if n > 0 {
      ArmedOld(esc0, added, n - 1, base, now, snapshot, h);
    }
  }

  /** The k-th added task gets handle base + k. */
  lemma {:induction false} ArmedNew(esc0: map<Handle, Escalation>, added: seq<Task>, n: nat, base: Handle,
                                    now: int, snapshot: map<int, Handle>, k: nat)
    requires k < n <= |added|
    ensures base + k in Armed(esc0, added, n, base, now, snapshot)
    ensures Armed(esc0, added, n, base, now, snapshot)[base + k] == Escalation(added[k].id, added[k].title, now, snapshot)
  {
    if k < n - 1 {
      ArmedNew(esc0, added, n - 1, base, now, snapshot, k);
    }
  }

  /** The check only adds escalations, under fresh handles, one per task. */
  lemma ArmedSpec(esc0: map<Handle, Escalation>, added: seq<Task>, n: nat, base: Handle,
                  now: int, snapshot: map<int, Handle>)
    requires n <= |added|
    requires forall h :: h in esc0 ==> h < base
    ensures forall h :: h in Armed(esc0, added, n, base, now, snapshot) <==> h in esc0 || base <= h < base + n
    ensures forall h :: h in esc0 ==>
              h in Armed(esc0, added, n, base, now, snapshot) && Armed(esc0, added, n, base, now, snapshot)[h] == esc0[h]
    ensures forall k :: 0 <= k < n ==>
              && base + k in Armed(esc0, added, n, base, now, snapshot)
              && Armed(esc0, added, n, base, now, snapshot)[base + k] == Escalation(added[k].id, added[k].title, now, snapshot)
  {
    forall h {
      ArmedKey(esc0, added, n, base, now, snapshot, h);
    }
    forall h | h in esc0 {
      ArmedOld(esc0, added, n, base, now, snapshot, h);
    }
    forall k | 0 <= k < n {
      ArmedNew(esc0, added, n, base, now, snapshot, k);
    }
  }

  /** The timer bookkeeping: handles are below the next id; the check
      interval is live and no escalation; every other live handle is an
      escalation; and every live escalation interval still has its
      thirty-minute stop ahead of it. */
  predicate TimersOk(check: Option<Handle>, live: set<Handle>, esc: map<Handle, Escalation>,
                     pending: set<Handle>, next: Handle)
  {
    && (forall h :: h in live ==> h < next)
    && (forall h :: h in esc ==> h < next)
    && (check.Some? ==> check.value in live && check.value !in esc)
    && (forall h :: h in live && h !in esc ==> check == Some(h))
    && (forall h :: h in pending ==> h in esc)
    && (forall h :: h in live && h in esc ==> h in pending)
  }

  /** Every escalation's snapshot is a well-formed map. */
  predicate SnapshotsOk(esc: map<Handle, Escalation>) {
    forall h :: h in esc ==> EntriesOk(esc[h].snapshot, esc)
  }

  /** The check's loop over the selected tasks, on values: one escalation
      per task from handle base on, its starting notice, and the map updates
      batched into one new map. */
  method ArmEscalations(esc0: map<Handle, Escalation>, snapshot: map<int, Handle>, added: seq<Task>,
                        base: Handle, now: int)
    returns (esc: map<Handle, Escalation>, shown: seq<Notice>, m: map<int, Handle>)
    requires forall h :: h in esc0 ==> h < base
    requires EntriesOk(snapshot, esc0) && SnapshotsOk(esc0)
    ensures esc == Armed(esc0, added, |added|, base, now, snapshot)
    ensures shown == StartingNotices(added, |added|)
    ensures m == AddEntries(snapshot, added, |added|, base)
    ensures EntriesOk(m, esc) && EntriesOk(snapshot, esc) && SnapshotsOk(esc)
  {
    esc, shown, m := esc0, [], snapshot;
    var i := 0;
    while i < |added|
      invariant 0 <= i <= |added|
      invariant m == AddEntries(snapshot, added, i, base)
      invariant shown == StartingNotices(added, i)
      invariant esc == Armed(esc0, added, i, base, now, snapshot)
    {
      var t := added[i];
      assert Armed(esc0, added, i + 1, base, now, snapshot) ==
               Armed(esc0, added, i, base, now, snapshot)[base + i := Escalation(t.id, t.title, now, snapshot)];
      assert AddEntries(snapshot, added, i + 1, base) == AddEntries(snapshot, added, i, base)[t.id := base + i];
      // the first notification, then the escalation interval and its timeout
      shown := shown + [Starting(t.id, t.title)];
      esc := esc[base + i := Escalation(t.id, t.title, now, snapshot)];
      m := m[t.id := base + i];
      i := i + 1;
    }
    ArmedEntriesOk(snapshot, esc0, added, |added|, base, now);
    ArmedSnapshotsOk(esc0, added, |added|, base, now, snapshot);
  }

  /** The map a check writes is well formed over the escalations it arms. */
  lemma {:induction false} ArmedEntriesOk(snapshot: map<int, Handle>, esc0: map<Handle, Escalation>,
                                          added: seq<Task>, n: nat, base: Handle, now: int)
    requires n <= |added|
    requires forall h :: h in esc0 ==> h < base
    requires EntriesOk(snapshot, esc0)
    ensures EntriesOk(AddEntries(snapshot, added, n, base), Armed(esc0, added, n, base, now, snapshot))
  {
    if n > 0 {
      ArmedEntriesOk(snapshot, esc0, added, n - 1, base, now);
      ArmedSpec(esc0, added, n - 1, base, now, snapshot);
      EntriesOkGrow(AddEntries(snapshot, added, n - 1, base), Armed(esc0, added, n - 1, base, now, snapshot),
                    base + n - 1, Escalation(added[n - 1].id, added[n - 1].title, now, snapshot));
    }
  }

  /** Every snapshot stays well formed when a check arms escalations. */
  lemma ArmedSnapshotsOk(esc0: map<Handle, Escalation>, added: seq<Task>, n: nat, base: Handle, now: int,
                         snapshot: map<int, Handle>)
    requires n <= |added|
    requires forall h :: h in esc0 ==> h < base
    requires EntriesOk(snapshot, esc0) && SnapshotsOk(esc0)
    ensures EntriesOk(snapshot, Armed(esc0, added, n, base, now, snapshot))
    ensures SnapshotsOk(Armed(esc0, added, n, base, now, snapshot))
  {
    var esc := Armed(esc0, added, n, base, now, snapshot);
    ArmedSpec(esc0, added, n, base, now, snapshot);
    EntriesOkExtend(snapshot, esc0, esc);
    forall h | h in esc
      ensures EntriesOk(esc[h].snapshot, esc)
    {
      ArmedKey(esc0, added, n, base, now, snapshot, h);
      if h in esc0 {
        EntriesOkExtend(esc[h].snapshot, esc0, esc);
      } else {
        ArmedNew(esc0, added, n, base, now, snapshot, h - base);
      }
    }
  }

  /** Adding the armed escalations keeps the timer bookkeeping. */
  lemma TimersOkArm(check: Option<Handle>, live: set<Handle>, esc0: map<Handle, Escalation>,
                    pending: set<Handle>, added: seq<Task>, base: Handle, now: int, snapshot: map<int, Handle>)
    requires TimersOk(check, live, esc0, pending, base)
    ensures TimersOk(check, live + Range(base, base + |added|), Armed(esc0, added, |added|, base, now, snapshot),
                     pending + Range(base, base + |added|), base + |added|)
  {
    ArmedSpec(esc0, added, |added|, base, now, snapshot);
  }

  /** Everything the reminder holds: the latest task list, the map, the
      check interval of the current effect run (None once unmounted), the
      intervals not yet cleared, every escalation created, the escalations
      whose thirty-minute timeout has not fired, the notices shown and the
      next timer id. */
  datatype State = State(latest: seq<Task>, notifications: map<int, Handle>, checkInterval: Option<Handle>,
                         live: set<Handle>, escalations: map<Handle, Escalation>, pendingExpiry: set<Handle>,
                         notices: seq<Notice>, nextHandle: Handle)

  predicate Inv(s: State) {
    && TimersOk(s.checkInterval, s.live, s.escalations, s.pendingExpiry, s.nextHandle)
    && EntriesOk(s.notifications, s.escalations)
    && SnapshotsOk(s.escalations)
  }

  /** Mounting: an empty map and a first check interval. */
  function Mount(tasks: seq<Task>): (s: State)
    ensures Inv(s) && s.checkInterval.Some? && s.live == {s.checkInterval.value}
  {
    State(tasks, map[], Some(0), {0}, map[], {}, [], 1)
  }

  /** `setNotifications(m)`, then the effect's cleanup (clear the check
      interval and every handle of the previous map) and its next run (a new
      check interval). After unmounting React ignores the update. */
  function SetMap(s: State, m: map<int, Handle>): State {
    if s.checkInterval.None? then s
    else s.(notifications := m,
            live := AfterCleanup(s.live, s.checkInterval.value, s.notifications, s.nextHandle),
            checkInterval := Some(s.nextHandle),
            nextHandle := s.nextHandle + 1)
  }

  lemma SetMapInv(s: State, m: map<int, Handle>)
    requires Inv(s) && EntriesOk(m, s.escalations)
    ensures Inv(SetMap(s, m))
  {
  }

  /** The check's loop for the selected tasks: notices, escalations and
      their timeouts; the map is not yet written. */
  function Arm(s: State, added: seq<Task>, now: int): State {
    var base := s.nextHandle;
    s.(notices := s.notices + StartingNotices(added, |added|),
       escalations := Armed(s.escalations, added, |added|, base, now, s.notifications),
       live := s.live + Range(base, base + |added|),
       pendingExpiry := s.pendingExpiry + Range(base, base + |added|),
       nextHandle := base + |added|)
  }

  /** One firing of the check interval at time `now`. A cleared check
      interval does not fire. */
  function CheckStep(s: State, now: int): State {
    if s.checkInterval.None? then s
    else
      var added := NewTasks(s.latest, now, s.notifications);
      if added == [] then s
      else SetMap(Arm(s, added, now), AddEntries(s.notifications, added, |added|, s.nextHandle))
  }

  /** One firing of escalation interval h: when the latest list's record
      for the task is in progress the interval stops and the map becomes the
      creating check's snapshot without the id; otherwise it nags with the
      title it captured. A cleared interval does not fire. */
  function FireStep(s: State, h: Handle): State {
    if h !in s.live || h !in s.escalations then s
    else
      var e := s.escalations[h];
      var current := Lookup(s.latest, e.taskId);
      if current.Some? && current.value.status == InProgress then
        SetMap(s.(live := s.live - {h}), e.snapshot - {e.taskId})
      else
        s.(notices := s.notices + [Nag(e.taskId, e.title)])
  }

  /** The thirty-minute timeout of escalation h: it clears the interval
      whatever the task's status and writes the creating check's snapshot
      without the id. Timeouts are never cancelled, so this also runs after
      unmounting; each fires once. */
  function ExpireStep(s: State, h: Handle): State {
    if h !in s.pendingExpiry || h !in s.escalations then s
    else
      var e := s.escalations[h];
      SetMap(s.(pendingExpiry := s.pendingExpiry - {h}, live := s.live - {h}), e.snapshot - {e.taskId})
  }

  /** Unmounting: the last effect's cleanup clears the check interval and
      every handle of the map. */
  function TeardownStep(s: State): State {
    if s.checkInterval.None? then s
    else s.(live := s.live - {s.checkInterval.value} - s.notifications.Values, checkInterval := None)
  }

  /** The effect `allTaskRef.current = allTask`. */
  function UpdateStep(s: State, tasks: seq<Task>): State {
    s.(latest := tasks)
  }

  /** Arming keeps the invariant, and the map the check then writes agrees
      with the armed escalations. */
  lemma ArmInv(s: State, added: seq<Task>, now: int)
    requires Inv(s)
    ensures Inv(Arm(s, added, now))
    ensures EntriesOk(AddEntries(s.notifications, added, |added|, s.nextHandle), Arm(s, added, now).escalations)
  {
    var base := s.nextHandle;
    TimersOkArm(s.checkInterval, s.live, s.escalations, s.pendingExpiry, added, base, now, s.notifications);
    ArmedEntriesOk(s.notifications, s.escalations, added, |added|, base, now);
    ArmedSnapshotsOk(s.escalations, added, |added|, base, now, s.notifications);
  }

  lemma CheckStepInv(s: State, now: int)
    requires Inv(s)
    ensures Inv(CheckStep(s, now))
  {
    if s.checkInterval.Some? {
      var added := NewTasks(s.latest, now, s.notifications);
      if added != [] {
        ArmInv(s, added, now);
        SetMapInv(Arm(s, added, now), AddEntries(s.notifications, added, |added|, s.nextHandle));
      }
    }
  }

  lemma FireStepInv(s: State, h: Handle)
    requires Inv(s)
    ensures Inv(FireStep(s, h))
  {
    if h in s.live && h in s.escalations {
      var e := s.escalations[h];
      EntriesOkRemove(e.snapshot, s.escalations, e.taskId);
      var current := Lookup(s.latest, e.taskId);
      if current.Some? && current.value.status == InProgress {
        SetMapInv(s.(live := s.live - {h}), e.snapshot - {e.taskId});
      }
    }
  }

  lemma ExpireStepInv(s: State, h: Handle)
    requires Inv(s)
    ensures Inv(ExpireStep(s, h))
  {
    if h in s.pendingExpiry && h in s.escalations {
      var e := s.escalations[h];
      EntriesOkRemove(e.snapshot, s.escalations, e.taskId);
      SetMapInv(s.(pendingExpiry := s.pendingExpiry - {h}, live := s.live - {h}), e.snapshot - {e.taskId});
    }
  }

  lemma TeardownStepInv(s: State)
    requires Inv(s)
    ensures Inv(TeardownStep(s)) && TeardownStep(s).checkInterval.None?
  {
  }

  class Scheduler {
    /** `allTaskRef.current`: the latest task list. */
    var latest: seq<Task>
    /** The state cell `notifications`: task id to escalation interval. */
    var notifications: map<int, Handle>
    var checkInterval: Option<Handle>
    var live: set<Handle>
    var escalations: map<Handle, Escalation>
    var pendingExpiry: set<Handle>
    var notices: seq<Notice>
    var nextHandle: Handle

    function Snapshot(): State
      reads this
    {
      State(latest, notifications, checkInterval, live, escalations, pendingExpiry, notices, nextHandle)
    }

    ghost predicate Valid()
      reads this
    {
      Inv(Snapshot())
    }

    constructor (tasks: seq<Task>)
      ensures Valid() && Snapshot() == Mount(tasks)
    {
      latest := tasks;
      notifications := map[];
      checkInterval := Some(0);
      live := {0};
      escalations := map[];
      pendingExpiry := {};
      notices := [];
      nextHandle := 1;
    }

    method UpdateTasks(tasks: seq<Task>)
      requires Valid()
      modifies this
      ensures Valid() && Snapshot() == UpdateStep(old(Snapshot()), tasks)
    {
      latest := tasks;
    }

    method SetNotifications(m: map<int, Handle>)
      requires Valid() && EntriesOk(m, escalations)
      modifies this
      ensures Valid() && Snapshot() == SetMap(old(Snapshot()), m)
    {
      SetMapInv(Snapshot(), m);
      if checkInterval.Some? {
        live := AfterCleanup(live, checkInterval.value, notifications, nextHandle);
        notifications := m;
        checkInterval := Some(nextHandle);
        nextHandle := nextHandle + 1;
      }
    }

    /** The `forEach` over the selected tasks: a starting notice, an
        escalation interval and its timeout per task. Returns the map the
        check then writes. */
    method ArmSelected(added: seq<Task>, now: int) returns (m: map<int, Handle>)
      requires Valid()
      modifies this
      ensures Valid() && Snapshot() == Arm(old(Snapshot()), added, now)
      ensures m == AddEntries(old(notifications), added, |added|, old(nextHandle))
      ensures EntriesOk(m, escalations)
    {
      var s := Snapshot();
      var next := Arm(s, added, now);
      ArmInv(s, added, now);
      var esc, shown, m' := ArmEscalations(escalations, notifications, added, nextHandle, now);
      var armed := Range(nextHandle, nextHandle + |added|);
      assert next == s.(notices := s.notices + shown, escalations := esc, live := s.live + armed,
                        pendingExpiry := s.pendingExpiry + armed, nextHandle := s.nextHandle + |added|);
      notices, escalations, live, pendingExpiry, nextHandle :=
        notices + shown, esc, live + armed, pendingExpiry + armed, nextHandle + |added|;
      m := m';
      assert Snapshot() == next;
    }

    /** One firing of the check interval: select the due tasks not yet in
        the map, arm them, then the batched `setNotifications`. */
    method Tick(now: int)
      requires Valid()
      modifies this
      ensures Valid() && Snapshot() == CheckStep(old(Snapshot()), now)
    {
      if checkInterval.None? {
        return;
      }
      var added := NewTasks(latest, now, notifications);
      if added == [] {
        return;
      }
      var m := ArmSelected(added, now);
      SetNotifications(m);
    }

    method EscalationFire(h: Handle)
      requires Valid()
      modifies this
      ensures Valid() && Snapshot() == FireStep(old(Snapshot()), h)
    {
      FireStepInv(Snapshot(), h);
      if h in live && h in escalations {
        var e := escalations[h];
        var current := Lookup(latest, e.taskId);
        if current.Some? && current.value.status == InProgress {
          EntriesOkRemove(e.snapshot, escalations, e.taskId);
          live := live - {h};
          SetNotifications(e.snapshot - {e.taskId});
        } else {
          notices := notices + [Nag(e.taskId, e.title)];
        }
      }
    }

    method Expire(h: Handle)
      requires Valid()
      modifies this
      ensures Valid() && Snapshot() == ExpireStep(old(Snapshot()), h)
    {
      ExpireStepInv(Snapshot(), h);
      if h in pendingExpiry && h in escalations {
        var e := escalations[h];
        EntriesOkRemove(e.snapshot, escalations, e.taskId);
        pendingExpiry := pendingExpiry - {h};
        live := live - {h};
        SetNotifications(e.snapshot - {e.taskId});
      }
    }

    method Teardown()
      requires Valid()
      modifies this
      ensures Valid() && Snapshot() == TeardownStep(old(Snapshot()))
    {
      TeardownStepInv(Snapshot());
      if checkInterval.Some? {
        live := live - {checkInterval.value} - notifications.Values;
        checkInterval := None;
      }
    }
  }
}
