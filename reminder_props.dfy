/** What the reminder promises over whole transitions (hooks/useTaskReminder.tsx):
    one announcement and one entry per due task, no re-announcement while the
    id is a key, nagging until the task is in progress, the stale snapshot the
    removal paths write, and the cleanup every new map triggers. */
module ReminderProps {
  import opened Types
  import opened Seqs
  import opened Reminder

  /** A mounted check writes the map its functional updates build and
      appends the starting notices of the tasks it selects. */
  lemma CheckShape(s: State, now: int)
    requires s.checkInterval.Some?
    ensures var added := NewTasks(s.latest, now, s.notifications);
            var s' := CheckStep(s, now);
            && s'.latest == s.latest && s'.checkInterval.Some?
            && s'.notifications == AddEntries(s.notifications, added, |added|, s.nextHandle)
            && s'.notices == s.notices + StartingNotices(added, |added|)
  {
    var added := NewTasks(s.latest, now, s.notifications);
    if added == [] {
      assert s.notices + StartingNotices(added, |added|) == s.notices;
    }
  }

  /** After a mounted check every task of the latest list that is due has an
      entry, and no entry is lost. */
  lemma CheckKeysDue(s: State, now: int)
    requires s.checkInterval.Some?
    ensures forall i :: 0 <= i < |s.latest| && Qualifies(s.latest[i], now) ==>
              s.latest[i].id in CheckStep(s, now).notifications
    ensures forall id :: id in s.notifications ==> id in CheckStep(s, now).notifications
  {
    var added := NewTasks(s.latest, now, s.notifications);
    CheckShape(s, now);
    CheckedKeys(s.latest, now, s.notifications, s.nextHandle);
    forall id | id in s.notifications
      ensures id in CheckStep(s, now).notifications
    {
      AddEntriesKeys(s.notifications, added, |added|, s.nextHandle, id);
    }
  }

  /** A check keeps the notices shown so far, and each notice it adds
      announces a due task of the latest list whose id was not a key. */
  lemma CheckAnnouncesDue(s: State, now: int)
    requires s.checkInterval.Some?
    ensures var s' := CheckStep(s, now);
            && |s.notices| <= |s'.notices| && s'.notices[..|s.notices|] == s.notices
            && forall k :: |s.notices| <= k < |s'.notices| ==>
                 && s'.notices[k].Starting?
                 && s'.notices[k].taskId !in s.notifications
                 && exists i :: 0 <= i < |s.latest| && Qualifies(s.latest[i], now)
                                && s'.notices[k] == Starting(s.latest[i].id, s.latest[i].title)
  {
    var added := NewTasks(s.latest, now, s.notifications);
    var s' := CheckStep(s, now);
    var shown := StartingNotices(added, |added|);
    CheckShape(s, now);
    NewTasksMembers(s.latest, now, s.notifications);
    forall k | |s.notices| <= k < |s'.notices|
      ensures && s'.notices[k].Starting?
              && s'.notices[k].taskId !in s.notifications
              && exists i :: 0 <= i < |s.latest| && Qualifies(s.latest[i], now)
                             && s'.notices[k] == Starting(s.latest[i].id, s.latest[i].title)
    {
      var t := added[k - |s.notices|];
      assert s'.notices[k] == shown[k - |s.notices|] == Starting(t.id, t.title);
      assert t in s.latest;
      var i :| 0 <= i < |s.latest| && s.latest[i] == t;
    }
  }

  /** Every due task of the latest list whose id is not a key is announced
      by the next check. */
  lemma CheckAnnouncesEvery(s: State, now: int)
    requires s.checkInterval.Some?
    ensures var s' := CheckStep(s, now);
            |s.notices| <= |s'.notices| &&
            forall i :: 0 <= i < |s.latest| && Qualifies(s.latest[i], now) && s.latest[i].id !in s.notifications ==>
              Starting(s.latest[i].id, s.latest[i].title) in s'.notices[|s.notices|..]
  {
    var added := NewTasks(s.latest, now, s.notifications);
    var s' := CheckStep(s, now);
    var shown := StartingNotices(added, |added|);
    CheckShape(s, now);
    NewTasksMembers(s.latest, now, s.notifications);
    assert s'.notices[|s.notices|..] == shown;
    forall i | 0 <= i < |s.latest| && Qualifies(s.latest[i], now) && s.latest[i].id !in s.notifications
      ensures Starting(s.latest[i].id, s.latest[i].title) in shown
    {
      var k :| 0 <= k < |added| && added[k] == s.latest[i];
      assert shown[k] == Starting(s.latest[i].id, s.latest[i].title);
    }
  }

  /** A second check at the same instant over the same list changes
      nothing: a task is announced once while its id is a key. */
  lemma CheckIdempotent(s: State, now: int)
    ensures CheckStep(CheckStep(s, now), now) == CheckStep(s, now)
  {
    if s.checkInterval.Some? {
      CheckShape(s, now);
      RescanSelectsNothing(s.latest, now, s.notifications, s.nextHandle);
    }
  }

  /** Writing the map while mounted clears the check interval and every
      handle of the previous map, starts a new check interval, and leaves
      every other interval as it was. */
  lemma SetMapClears(s: State, m: map<int, Handle>)
    requires Inv(s) && s.checkInterval.Some?
    ensures var s' := SetMap(s, m);
            && s'.notifications == m
            && s.checkInterval.value !in s'.live
            && (forall id :: id in s.notifications ==> s.notifications[id] !in s'.live)
            && s'.checkInterval == Some(s.nextHandle) && s.nextHandle in s'.live && s.nextHandle !in s.live
            && (forall h :: h in s.live && h != s.checkInterval.value && h !in s.notifications.Values ==> h in s'.live)
            && (forall h :: h in s'.live ==> h in s.live || h == s.nextHandle)
  {
    var s' := SetMap(s, m);
    forall id | id in s.notifications
      ensures s.notifications[id] !in s'.live
    {
      assert s.notifications[id] in s.notifications.Values;
      assert s.notifications[id] in s.escalations;
    }
  }

  /** A check that selects tasks stops every escalation armed before it,
      since their handles are in the map it replaces; each one it arms has
      its timeout ahead of it. */
  lemma CheckStopsEarlierEscalations(s: State, now: int)
    requires Inv(s) && s.checkInterval.Some?
    requires NewTasks(s.latest, now, s.notifications) != []
    ensures forall id :: id in s.notifications ==> s.notifications[id] !in CheckStep(s, now).live
    ensures var added := NewTasks(s.latest, now, s.notifications);
            forall h :: s.nextHandle <= h < s.nextHandle + |added| ==> h in CheckStep(s, now).pendingExpiry
  {
    var added := NewTasks(s.latest, now, s.notifications);
    var armed := Arm(s, added, now);
    ArmInv(s, added, now);
    SetMapClears(armed, AddEntries(s.notifications, added, |added|, s.nextHandle));
    forall id | id in s.notifications
      ensures s.notifications[id] !in CheckStep(s, now).live
    {
      assert s.notifications[id] in s.escalations;
      assert s.notifications[id] < s.nextHandle;
      assert s.notifications[id] in armed.notifications.Values;
    }
  }

  /** An escalation fire nags exactly when the latest list has no record
      with the id or the record is not in progress, so deleted and finished
      tasks keep being nagged; otherwise the interval stops and (while
      mounted) the map becomes the creating check's snapshot without the id. */
  lemma FireOutcome(s: State, h: Handle)
    requires Inv(s)
    requires h in s.live && h in s.escalations
    ensures var e := s.escalations[h];
            var current := Lookup(s.latest, e.taskId);
            var s' := FireStep(s, h);
            && (s'.notices == s.notices + [Nag(e.taskId, e.title)] <==>
                  current.None? || current.value.status != InProgress)
            && (current.None? || current.value.status != InProgress ==>
                  h in s'.live && s'.notifications == s.notifications)
            && (current.Some? && current.value.status == InProgress ==>
                  && h !in s'.live && s'.notices == s.notices
                  && (s.checkInterval.Some? ==> s'.notifications == e.snapshot - {e.taskId}))
  {
    var e := s.escalations[h];
    var current := Lookup(s.latest, e.taskId);
    if current.Some? && current.value.status == InProgress {
      assert |FireStep(s, h).notices| == |s.notices|;
    }
  }

  /** The thirty-minute timeout stops its escalation whatever the status and
      (while mounted) writes the creating check's snapshot without the id. */
  lemma ExpireOutcome(s: State, h: Handle)
    requires Inv(s)
    requires h in s.pendingExpiry && h in s.escalations
    ensures var e := s.escalations[h];
            var s' := ExpireStep(s, h);
            && h !in s'.live && h !in s'.pendingExpiry && s'.notices == s.notices
            && (s.checkInterval.Some? ==> s'.notifications == e.snapshot - {e.taskId})
            && (s.checkInterval.None? ==> s'.notifications == s.notifications)
  {
  }

  /** Each timeout fires once, and an expired escalation never nags again. */
  lemma ExpireOnce(s: State, h: Handle)
    requires Inv(s)
    requires h in s.pendingExpiry && h in s.escalations
    ensures ExpireStep(ExpireStep(s, h), h) == ExpireStep(s, h)
    ensures FireStep(ExpireStep(s, h), h) == ExpireStep(s, h)
  {
  }

  /** After unmounting no handle of the map is live, checks never run, and
      map writes are ignored; leftover timeouts still run. */
  lemma TeardownFinal(s: State, now: int, m: map<int, Handle>)
    requires s.checkInterval.Some?
    ensures var t := TeardownStep(s);
            && s.checkInterval.value !in t.live
            && (forall id :: id in s.notifications ==> s.notifications[id] !in t.live)
            && CheckStep(t, now) == t && SetMap(t, m) == t
            && t.pendingExpiry == s.pendingExpiry
  {
    var t := TeardownStep(s);
    forall id | id in s.notifications
      ensures s.notifications[id] !in t.live
    {
      assert s.notifications[id] in s.notifications.Values;
    }
  }

  /** Two not-started tasks due at the same minute, as the model sees them. */
  function DueTask(id: int, title: string): Task {
    Task(id, title, NotStarted, Text("start", Some(600000)), Absent, Absent, Absent,
         None, None, None, None, None, 0, 0, None)
  }

  /** Both removal paths write the creating check's snapshot, so stopping
      one escalation drops the entries of the tasks armed in the same check,
      and the next check announces such a task a second time: tasks 1 and 2
      are announced at 300000; task 1 goes in progress and its escalation
      fires, writing the empty snapshot; the check at 360000 announces task 2
      again. */
  lemma StaleSnapshotReannounces()
    ensures var a := DueTask(1, "a");
            var b := DueTask(2, "b");
            var s1 := CheckStep(Mount([a, b]), 300000);
            var s2 := FireStep(UpdateStep(s1, [a.(status := InProgress), b]), 1);
            CheckStep(s2, 360000).notices == [Starting(1, "a"), Starting(2, "b"), Starting(2, "b")]
  {
    var a := DueTask(1, "a");
    var b := DueTask(2, "b");
    var s1 := CheckStep(Mount([a, b]), 300000);
    FirstCheck(a, b);
    var a' := a.(status := InProgress);
    var s2 := FireStep(UpdateStep(s1, [a', b]), 1);
    StopFirst(a', b, s1);
    SecondCheck(a', b, s2);
  }

  /** Task 1's escalation fires once task 1 is in progress: it stops and
      writes its empty snapshot. */
  lemma StopFirst(a': Task, b: Task, s1: State)
    requires a' == DueTask(1, "a").(status := InProgress) && b == DueTask(2, "b")
    requires s1.checkInterval.Some? && 1 in s1.live && 1 in s1.escalations
    requires s1.escalations[1] == Escalation(1, "a", 300000, map[])
    ensures var s2 := FireStep(UpdateStep(s1, [a', b]), 1);
            && s2.latest == [a', b] && s2.notifications == map[] && s2.checkInterval.Some?
            && s2.notices == s1.notices
  {
    assert Lookup([a', b], 1) == Some(a');
    assert s1.escalations[1].snapshot - {1} == map[];
  }

  /** The check at 300000 announces both tasks and arms handle 1 for task 1
      with the empty map as its snapshot. */
  lemma FirstCheck(a: Task, b: Task)
    requires a == DueTask(1, "a") && b == DueTask(2, "b")
    ensures var s1 := CheckStep(Mount([a, b]), 300000);
            && s1.checkInterval.Some? && 1 in s1.live && 1 in s1.escalations
            && s1.escalations[1] == Escalation(1, "a", 300000, map[])
            && s1.notices == [Starting(1, "a"), Starting(2, "b")]
  {
    var s0 := Mount([a, b]);
    var added := [a, b];
    assert Qualifies(a, 300000) && Qualifies(b, 300000);
    FilterKeepsAll(added, (t: Task) => Qualifies(t, 300000));
    FilterKeepsAll(added, Unkeyed(map[]));
    assert NewTasks(added, 300000, map[]) == added;
    var arm := Arm(s0, added, 300000);
    assert Armed(map[], added, 1, 1, 300000, map[]) == map[1 := Escalation(1, "a", 300000, map[])];
    assert 1 in arm.escalations && arm.escalations[1] == Escalation(1, "a", 300000, map[]);
    assert 1 in arm.live;
    assert StartingNotices(added, 2) == [Starting(1, "a"), Starting(2, "b")];
  }

  /** With the map empty again, the check at 360000 selects task 2. */
  lemma SecondCheck(a': Task, b: Task, s2: State)
    requires a' == DueTask(1, "a").(status := InProgress) && b == DueTask(2, "b")
    requires s2.latest == [a', b] && s2.notifications == map[] && s2.checkInterval.Some?
    ensures CheckStep(s2, 360000).notices == s2.notices + [Starting(2, "b")]
  {
    assert [a', b] == [a'] + [b];
    FilterConcat([a'], [b], (t: Task) => Qualifies(t, 360000));
    FilterSingleton(a', (t: Task) => Qualifies(t, 360000));
    FilterSingleton(b, (t: Task) => Qualifies(t, 360000));
    assert Upcoming([a', b], 360000) == [b];
    FilterSingleton(b, Unkeyed(map[]));
    assert NewTasks([a', b], 360000, map[]) == [b];
    CheckShape(s2, 360000);
    assert StartingNotices([b], 1) == [Starting(2, "b")];
  }
}
