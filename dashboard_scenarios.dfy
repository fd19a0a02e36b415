/**
  Whole runs of the dashboard model: a sequence of work and break intervals
  under the default configuration, and what a restart does to a task that
  was in progress when the application was closed.
 */
module DashboardScenarios {
  import opened JsText
  import opened Types
  import opened Dashboard

  /** How many times the break window was asked for. */
  function OpenedWindows(events: seq<HostEvent>): nat
  {
    if events == [] then 0
    else OpenedWindows(events[..|events| - 1]) + (if events[|events| - 1].OpenBreakWindow? then 1 else 0)
  }

  lemma {:induction false} OpenedWindowsAppend(a: seq<HostEvent>, b: seq<HostEvent>)
    ensures OpenedWindows(a + b) == OpenedWindows(a) + OpenedWindows(b)
    decreases |b|
  {
    if b == [] {
      assert a + b == a;
    } else {
      var ab := a + b;
      assert ab[..|ab| - 1] == a + b[..|b| - 1];
      assert ab[|ab| - 1] == b[|b| - 1];
      OpenedWindowsAppend(a, b[..|b| - 1]);
    }
  }

  /** A countdown only ever sets the tray title. */
  lemma {:induction false} CountdownOpensNothing(from: int, to: int)
    ensures OpenedWindows(TrayCountdown(from, to)) == 0
    decreases from - to
  {
    if from > to {
      var c := TrayCountdown(from, to);
      CountdownOpensNothing(from - 1, to);
      OpenedWindowsAppend([TrayClock(from - 1)], TrayCountdown(from - 1, to));
      assert OpenedWindows([TrayClock(from - 1)]) == 0 by {
        assert [TrayClock(from - 1)][..0] == [];
      }
    }
  }

  /** The state these runs stay in between intervals: the default
      configuration, no tasks, stopped. */
  predicate Idle(d: Pomodoro)
    reads d
  {
    d.config == DefaultConfig && d.tasks == [] && d.activeTaskId == None && !d.isActive
  }

  /** Start the timer and let it run to the end of the current interval. */
  method RunInterval(d: Pomodoro, today: string)
    requires Idle(d) && d.timeLeft >= 0
    modifies d
    ensures Idle(d)
    ensures old(d.mode) == Work ==> d.rounds == old(d.rounds) + 1 && d.sessions == old(d.sessions) + [Session(today, 1500)]
    ensures old(d.mode) == ShortBreak ==> d.rounds == old(d.rounds) && d.sessions == old(d.sessions)
    ensures old(d.mode) == Work && LongBreakDue(d.rounds, 4) ==>
      d.mode == Work && d.timeLeft == 1500 && OpenedWindows(d.events) == OpenedWindows(old(d.events)) + 1
    ensures old(d.mode) == Work && !LongBreakDue(d.rounds, 4) ==>
      d.mode == ShortBreak && d.timeLeft == 300 && OpenedWindows(d.events) == OpenedWindows(old(d.events))
    ensures old(d.mode) == ShortBreak ==>
      d.mode == Work && d.timeLeft == 1500 && OpenedWindows(d.events) == OpenedWindows(old(d.events))
  {
    ghost var e0 := d.events;
    ghost var t0 := d.timeLeft;
    d.ToggleTimer();
    d.RunUntilZero();
    CountdownOpensNothing(t0, 0);
    OpenedWindowsAppend(e0, TrayCountdown(t0, 0));
    ghost var e1 := d.events;
    ghost var m := d.mode;
    d.TimerComplete(today);
    if m == Work {
      var notices := [Notify(BreakNotice), TrayTitle("Break Time")];
      OpenedWindowsAppend(e1, notices);
      assert OpenedWindows(notices) == 0 by {
        assert notices[..1] == [Notify(BreakNotice)];
        assert OpenedWindows([Notify(BreakNotice)]) == 0 by {
          assert [Notify(BreakNotice)][..0] == [];
        }
      }
      if LongBreakDue(d.rounds, 4) {
        OpenedWindowsAppend(e1 + notices, [OpenBreakWindow(900)]);
        assert [OpenBreakWindow(900)][..0] == [];
      }
    } else {
      var notices := [Notify(BackToWorkNotice), TrayTitle("Focus Time")];
      OpenedWindowsAppend(e1, notices);
      assert OpenedWindows(notices) == 0 by {
        assert notices[..1] == [Notify(BackToWorkNotice)];
        assert OpenedWindows([Notify(BackToWorkNotice)]) == 0 by {
          assert [Notify(BackToWorkNotice)][..0] == [];
        }
      }
    }
  }

  /** Four work intervals under the default configuration (25-minute work,
      5-minute short break, a long break every 4 rounds), each run to its end
      and each short break run to its end as well: 4 rounds, four 1500-second
      sessions on today's date, and the break window asked for only after the
      fourth interval. `windows[j]` is the number of break-window requests
      after the (j+1)-th work interval. */
  method FourWorkIntervals(today: string) returns (rounds: nat, sessions: seq<Session>, windows: seq<nat>)
    ensures rounds == 4
    ensures sessions == [Session(today, 1500), Session(today, 1500), Session(today, 1500), Session(today, 1500)]
    ensures windows == [0, 0, 0, 1]
  {
    var d := new Pomodoro.Reload(None, [], [], 0);
    windows := [];
    var k := 0;
    while k < 4
      invariant 0 <= k <= 4
      invariant Idle(d) && d.mode == Work && d.timeLeft == 1500 && d.rounds == k
      invariant d.sessions == seq(k, _ => Session(today, 1500))
      invariant |windows| == k && forall j :: 0 <= j < k ==> windows[j] == (j + 1) / 4
      invariant OpenedWindows(d.events) == k / 4
    {
      RunInterval(d, today);
      if k == 3 {
        assert LongBreakDue(4, 4);
      } else {
        assert !LongBreakDue(k + 1, 4);
        RunInterval(d, today);
      }
      windows := windows + [OpenedWindows(d.events)];
      k := k + 1;
    }
    rounds := d.rounds;
    sessions := d.sessions;
  }

  /** Number of tasks whose status is `in_progress`. */
  function CountInProgress(tasks: seq<Task>): nat
  {
    if tasks == [] then 0
    else CountInProgress(tasks[..|tasks| - 1]) + (if tasks[|tasks| - 1].status == Some(InProgress) then 1 else 0)
  }

  lemma {:induction false} NoneInProgress(tasks: seq<Task>)
    requires forall i :: 0 <= i < |tasks| ==> tasks[i].status != Some(InProgress)
    ensures CountInProgress(tasks) == 0
  {
    if tasks != [] {
      NoneInProgress(tasks[..|tasks| - 1]);
    }
  }

  /** With distinct ids, the active-task invariant allows at most one task in progress. */
  lemma {:induction false} InvariantAllowsOneInProgress(tasks: seq<Task>, active: Option<string>)
    requires ActiveTaskInvariant(tasks, active)
    requires forall a, b :: 0 <= a < b < |tasks| ==> tasks[a].id != tasks[b].id
    ensures CountInProgress(tasks) <= 1
  {
    if tasks != [] {
      var front := tasks[..|tasks| - 1];
      var last := tasks[|tasks| - 1];
      if last.status == Some(InProgress) {
        forall i | 0 <= i < |front| ensures front[i].status != Some(InProgress) {
          assert front[i].id != last.id;
        }
        NoneInProgress(front);
      } else {
        InvariantAllowsOneInProgress(front, active);
      }
    }
  }

  /** A task stored while in progress, from a session that was closed mid-interval. */
  function StoredInProgressTask(): Task
  {
    Task("1", "Write report", 600, false, Some(InProgress), Some(1), None, None, None)
  }

  lemma CountPair(a: Task, b: Task)
    ensures CountInProgress([a, b]) == (if a.status == Some(InProgress) then 1 else 0) + (if b.status == Some(InProgress) then 1 else 0)
  {
    assert [a, b][..1] == [a];
    assert CountInProgress([a]) == (if a.status == Some(InProgress) then 1 else 0) by {
      assert [a][..0] == [];
    }
  }

  /** The tasks after starting "Review notes" at time 2 with no active task,
      from a single stored task `t` whose id is "1". */
  lemma StartNextToStored(t: Task)
    requires t.id == "1" && t.title != "Review notes"
    ensures StartedTasks([t], None, "Review notes", None, NatToString(2))
      == [t, Task("2", "Review notes", 0, false, Some(InProgress), Some(0), None, None, None)]
  {
    assert NatToString(2) == "2";
    StartAppendsNewTask([t], None, "Review notes", None, "2");
    StartTouchesOnlyTargetAndActive([t], None, "Review notes", None, "2", 0);
    var r := StartedTasks([t], None, "Review notes", None, "2");
    assert r == [r[0], r[1]];
  }

  /** As written: after a restart the active id is null while the stored task
      is still `in_progress`, so starting another task leaves two tasks in progress. */
  method StartAfterRestartAsWritten() returns (inProgress: nat)
    ensures inProgress == 2
  {
    var d := new Pomodoro(None, [StoredInProgressTask()], [], 0);
    d.StartTask("Review notes", None, 2);
    StartNextToStored(StoredInProgressTask());
    CountPair(d.tasks[0], d.tasks[1]);
    inProgress := CountInProgress(d.tasks);
  }

  /** With the stored in-progress task settled to `paused` at start-up, the
      same steps leave exactly one task in progress: the one just started. */
  method StartAfterRestartSettled() returns (inProgress: nat, first: Option<Status>)
    ensures inProgress == 1
    ensures first == Some(Paused)
  {
    var d := new Pomodoro.Reload(None, [StoredInProgressTask()], [], 0);
    ghost var settled := SettleStoredTasks([StoredInProgressTask()]);
    assert settled == [StoredInProgressTask().(status := Some(Paused))];
    d.StartTask("Review notes", None, 2);
    StartNextToStored(settled[0]);
    CountPair(d.tasks[0], d.tasks[1]);
    inProgress := CountInProgress(d.tasks);
    first := d.tasks[0].status;
  }
}
