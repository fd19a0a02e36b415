/**
  The Pomodoro timer and task-session state machine of the dashboard
  (src/components/Dashboard.tsx). The component's React state becomes the
  fields of class `Pomodoro`; each handler becomes a method that performs the
  handler's `setX` calls in written order. Per-id `tasks.map` rewrites are the
  pure function `MapById`; the task lists that the task handlers build are
  specified by pure functions (`StartedTasks`, `ToggledTasks`) about which the
  lemmas below are proved.

  Inputs that the source takes from the environment are parameters: the
  current time `now` (Date.now(), from which new task ids are made), today's
  date string, the completion timestamp, and the answer to the delete
  confirmation. Calls into the host (`notify`, `safeInvoke`, and the
  `breakDuration` hand-off to the break window) are appended to `events`.
 */
module Dashboard {
  import opened JsText
  import opened Types
  import TimeText

  datatype Mode = Work | ShortBreak

  /** What the dashboard asks of the host. `TrayClock(s)` sets the tray title
      to the countdown `TimeText.ClockText(s)`; `TrayTitle` sets a fixed title.
      `OpenBreakWindow(s)` stores `s.toString()` under `breakDuration` and
      then opens the break window. */
  datatype HostEvent =
    | Notify(body: string)
    | TrayTitle(text: string)
    | TrayClock(secondsLeft: int)
    | OpenBreakWindow(breakSeconds: int)

  const BreakNotice := "Time to take a break."
  const BackToWorkNotice := "Back to work."

  /** Length in seconds of an interval of the given mode. */
  function DurationFor(mode: Mode, config: AppConfig): int
  {
    if mode == Work then config.workDuration * 60 else config.breakDuration * 60
  }

  /** `rounds % longBreakInterval === 0`. An interval of 0 makes the remainder
      NaN, which is never equal to 0, so no long break is ever due. */
  predicate LongBreakDue(rounds: int, interval: int)
  {
    interval != 0 && JsRem(rounds, interval) == 0
  }

  /** For a non-negative round count, a long break is due exactly when the
      interval is non-zero and divides the count. */
  lemma LongBreakDueIff(rounds: nat, interval: int)
    ensures LongBreakDue(rounds, interval) <==> interval != 0 && rounds % Abs(interval) == 0
  {
  }

  // ----- per-task rewrites -----

  /** The single-task updates the handlers apply inside `tasks.map`. */
  datatype Edit =
    | AddSecond
    | AddPomodoro
    | Pause
    | Resume
    | Complete(at: string)
    | Reopen

  function Apply(e: Edit, t: Task): (r: Task)
    ensures r.id == t.id && r.title == t.title && r.plan == t.plan
    ensures r.status == Some(InProgress) ==> e == Resume || e == Reopen || t.status == Some(InProgress)
  {
    match e
    case AddSecond => t.(timeSpent := t.timeSpent + 1)
    case AddPomodoro => t.(pomodoros := Some(CountOrZero(t.pomodoros) + 1))
    case Pause => t.(status := Some(Paused))
    case Resume => t.(status := Some(InProgress))
    case Complete(at) => t.(completed := true, status := Some(Completed), completedAt := Some(at))
    case Reopen => t.(status := Some(InProgress), completed := false, completedAt := None)
  }

  /** `tasks.map(t => t.id === id ? edit(t) : t)`. */
  function MapById(tasks: seq<Task>, id: string, e: Edit): (r: seq<Task>)
    ensures |r| == |tasks|
    ensures forall i {:trigger r[i]} :: 0 <= i < |tasks| ==> r[i] == if tasks[i].id == id then Apply(e, tasks[i]) else tasks[i]
  {
    seq(|tasks|, i requires 0 <= i < |tasks| => if tasks[i].id == id then Apply(e, tasks[i]) else tasks[i])
  }

  /** `tasks.filter(t => t.id !== id)`. */
  function RemoveById(tasks: seq<Task>, id: string): (r: seq<Task>)
    ensures |r| <= |tasks|
    ensures forall t :: t in r <==> t in tasks && t.id != id
    ensures (forall i :: 0 <= i < |tasks| ==> tasks[i].id != id) ==> r == tasks
  {
    if tasks == [] then []
    else
      var last := tasks[|tasks| - 1];
      assert tasks == tasks[..|tasks| - 1] + [last];
      RemoveById(tasks[..|tasks| - 1], id) + (if last.id == id then [] else [last])
  }

  /** The stored positions the filter of `RemoveById` keeps, in ascending
      order: every position whose id differs, and no other. */
  function KeptPositions(tasks: seq<Task>, id: string): (ps: seq<nat>)
    ensures forall i :: 0 <= i < |ps| ==> ps[i] < |tasks| && tasks[ps[i]].id != id
    ensures forall i, j :: 0 <= i < j < |ps| ==> ps[i] < ps[j]
    ensures forall k :: 0 <= k < |tasks| && tasks[k].id != id ==> k in ps
  {
    if tasks == [] then []
    else
      var n := |tasks| - 1;
      KeptPositions(tasks[..n], id) + (if tasks[n].id != id then [n] else [])
  }

  /** Deleting keeps the other tasks in their stored order, each occurrence
      once: the result is the tasks at the kept positions. */
  lemma {:induction false} RemoveByIdKeepsOrder(tasks: seq<Task>, id: string)
    ensures var r := RemoveById(tasks, id);
      var ps := KeptPositions(tasks, id);
      |r| == |ps| && forall i :: 0 <= i < |r| ==> r[i] == tasks[ps[i]]
  {
    if tasks != [] {
      var n := |tasks| - 1;
      var init := tasks[..n];
      RemoveByIdKeepsOrder(init, id);
      var r0, ps0 := RemoveById(init, id), KeptPositions(init, id);
      var tail := if tasks[n].id == id then [] else [tasks[n]];
      assert RemoveById(tasks, id) == r0 + tail;
      assert KeptPositions(tasks, id) == ps0 + (if tasks[n].id != id then [n] else []);
      forall i | 0 <= i < |ps0| ensures init[ps0[i]] == tasks[ps0[i]] {
      }
    }
  }

  /** `tasks.map(t => t.id === updated.id ? updated : t)`. */
  function ReplaceById(tasks: seq<Task>, updated: Task): (r: seq<Task>)
    ensures |r| == |tasks|
    ensures forall i :: 0 <= i < |tasks| ==> r[i] == if tasks[i].id == updated.id then updated else tasks[i]
  {
    if tasks == [] then []
    else
      var last := tasks[|tasks| - 1];
      ReplaceById(tasks[..|tasks| - 1], updated) + [if last.id == updated.id then updated else last]
  }

  // ----- the task handlers' task lists -----

  /** `prev.map(t => t.id === activeTaskId ? {...t, status: 'paused'} : t)`;
      a null active id matches no task. */
  function PauseActive(tasks: seq<Task>, active: Option<string>): seq<Task>
  {
    if active.Some? then MapById(tasks, active.value, Pause) else tasks
  }

  /** The task `handleStartTask` creates when no task has the title. */
  function NewTask(id: string, title: string, plan: Option<string>): Task
  {
    Task(id, title, 0, false, Some(Pending), Some(0), plan, None, None)
  }

  /** The id `handleStartTask` makes active: the first task with exactly that
      title, or a new task whose id is `Date.now().toString()`. */
  function StartTarget(tasks: seq<Task>, title: string, newId: string): string
  {
    match FindTitle(tasks, title)
    case Some(k) => tasks[k].id
    case None => newId
  }

  /** The task list after `handleStartTask(title, plan)`: append the new task if
      needed, pause the previously active one, then set the target in progress. */
  function StartedTasks(tasks: seq<Task>, active: Option<string>, title: string, plan: Option<string>, newId: string): seq<Task>
  {
    var withNew := if FindTitle(tasks, title).Some? then tasks else tasks + [NewTask(newId, title, plan)];
    MapById(PauseActive(withNew, active), StartTarget(tasks, title, newId), Resume)
  }

  /** The task list after `toggleTaskActive(id)`. */
  function ToggledTasks(tasks: seq<Task>, active: Option<string>, id: string): seq<Task>
  {
    if active == Some(id) then MapById(tasks, id, Pause)
    else
      var paused := if Truthy(active) then MapById(tasks, active.value, Pause) else tasks;
      MapById(paused, id, Reopen)
  }

  /** The active id after `toggleTaskActive(id)`. */
  function ToggledActive(active: Option<string>, id: string): Option<string>
  {
    if active == Some(id) then None else Some(id)
  }

  // ----- the active-task invariant -----

  /** Every task id is non-empty, and every task whose status is `in_progress`
      is the active task. */
  predicate ActiveTaskInvariant(tasks: seq<Task>, active: Option<string>)
  {
    (forall i :: 0 <= i < |tasks| ==> tasks[i].id != "")
    && (forall i :: 0 <= i < |tasks| && tasks[i].status == Some(InProgress) ==> active == Some(tasks[i].id))
  }

  /** With distinct ids, the invariant means at most one task is in progress. */
  lemma AtMostOneInProgress(tasks: seq<Task>, active: Option<string>, i: int, j: int)
    requires ActiveTaskInvariant(tasks, active)
    requires forall a, b :: 0 <= a < b < |tasks| ==> tasks[a].id != tasks[b].id
    requires 0 <= i < |tasks| && 0 <= j < |tasks|
    requires tasks[i].status == Some(InProgress) && tasks[j].status == Some(InProgress)
    ensures i == j
  {
    assert tasks[i].id == active.value == tasks[j].id;
  }

  /** An edit that never sets `in_progress` keeps the invariant, whatever task it touches. */
  lemma EditKeepsInvariant(tasks: seq<Task>, active: Option<string>, id: string, e: Edit)
    requires ActiveTaskInvariant(tasks, active)
    requires e != Resume && e != Reopen
    ensures ActiveTaskInvariant(MapById(tasks, id, e), active)
  {
    var r := MapById(tasks, id, e);
    forall i | 0 <= i < |r| && r[i].status == Some(InProgress) ensures active == Some(r[i].id) {
      assert tasks[i].status == Some(InProgress);
    }
  }

  /** Pausing or completing the active task, then clearing the active id, keeps the invariant. */
  lemma StopActiveKeepsInvariant(tasks: seq<Task>, active: string, e: Edit)
    requires ActiveTaskInvariant(tasks, Some(active))
    requires e == Pause || e.Complete?
    ensures ActiveTaskInvariant(MapById(tasks, active, e), None)
  {
    var r := MapById(tasks, active, e);
    forall i | 0 <= i < |r| ensures r[i].status != Some(InProgress) {
      if tasks[i].id != active {
        assert tasks[i].status != Some(InProgress);
      }
    }
  }

  /** Deleting a task keeps the invariant; when it was the active one the
      active id is cleared. */
  lemma DeleteKeepsInvariant(tasks: seq<Task>, active: Option<string>, id: string)
    requires ActiveTaskInvariant(tasks, active)
    ensures ActiveTaskInvariant(RemoveById(tasks, id), if active == Some(id) then None else active)
  {
    var r := RemoveById(tasks, id);
    var active' := if active == Some(id) then None else active;
    forall i | 0 <= i < |r| ensures r[i].id != "" && (r[i].status == Some(InProgress) ==> active' == Some(r[i].id)) {
      assert r[i] in tasks;
      var k :| 0 <= k < |tasks| && tasks[k] == r[i];
    }
  }

  /** Once no task is in progress, setting one target in progress makes it
      the only possible in-progress task. */
  lemma SetInProgressKeepsInvariant(tasks: seq<Task>, target: string, e: Edit)
    requires ActiveTaskInvariant(tasks, None)
    requires e == Resume || e == Reopen
    ensures ActiveTaskInvariant(MapById(tasks, target, e), Some(target))
  {
    var r := MapById(tasks, target, e);
    forall i | 0 <= i < |r| && r[i].id != target ensures r[i].status != Some(InProgress) {
      assert r[i] == tasks[i];
    }
  }

  // ----- what the task handlers guarantee -----

  /** Starting by an existing title reuses the first task with that title: no
      task is added, the target becomes in progress and keeps every other
      property, including `completed`. */
  lemma {:induction false} StartReusesFirstMatch(tasks: seq<Task>, active: Option<string>, title: string, plan: Option<string>, newId: string, k: nat)
    requires k < |tasks| && tasks[k].title == title
    requires forall j :: 0 <= j < k ==> tasks[j].title != title
    ensures var r := StartedTasks(tasks, active, title, plan, newId);
      |r| == |tasks| && StartTarget(tasks, title, newId) == tasks[k].id
      && r[k] == tasks[k].(status := Some(InProgress))
  {
    assert FindTitle(tasks, title) == Some(k);
  }

  /** Starting by a new title appends exactly one task: no time, no pomodoros,
      not completed, the given plan, in progress, with the given id. */
  lemma StartAppendsNewTask(tasks: seq<Task>, active: Option<string>, title: string, plan: Option<string>, newId: string)
    requires forall j :: 0 <= j < |tasks| ==> tasks[j].title != title
    ensures var r := StartedTasks(tasks, active, title, plan, newId);
      |r| == |tasks| + 1
      && r[|tasks|] == Task(newId, title, 0, false, Some(InProgress), Some(0), plan, None, None)
  {
    var withNew := tasks + [NewTask(newId, title, plan)];
    assert withNew[|tasks|].id == newId;
  }

  /** Starting changes no task other than the target and the previously active
      one, and that one only becomes paused. */
  lemma StartTouchesOnlyTargetAndActive(tasks: seq<Task>, active: Option<string>, title: string, plan: Option<string>, newId: string, i: nat)
    requires i < |tasks|
    requires tasks[i].id != StartTarget(tasks, title, newId)
    ensures var r := StartedTasks(tasks, active, title, plan, newId);
      r[i] == if active == Some(tasks[i].id) then tasks[i].(status := Some(Paused)) else tasks[i]
  {
    var withNew := if FindTitle(tasks, title).Some? then tasks else tasks + [NewTask(newId, title, plan)];
    assert withNew[i] == tasks[i];
  }

  /** Starting keeps the active-task invariant and makes the target active. */
  lemma StartKeepsInvariant(tasks: seq<Task>, active: Option<string>, title: string, plan: Option<string>, newId: string)
    requires ActiveTaskInvariant(tasks, active)
    requires newId != ""
    ensures ActiveTaskInvariant(StartedTasks(tasks, active, title, plan, newId), Some(StartTarget(tasks, title, newId)))
  {
    var withNew := if FindTitle(tasks, title).Some? then tasks else tasks + [NewTask(newId, title, plan)];
    assert ActiveTaskInvariant(withNew, active);
    if active.Some? {
      StopActiveKeepsInvariant(withNew, active.value, Pause);
    }
    SetInProgressKeepsInvariant(PauseActive(withNew, active), StartTarget(tasks, title, newId), Resume);
  }

  /** Toggling keeps the active-task invariant. */
  lemma ToggleKeepsInvariant(tasks: seq<Task>, active: Option<string>, id: string)
    requires ActiveTaskInvariant(tasks, active)
    ensures ActiveTaskInvariant(ToggledTasks(tasks, active, id), ToggledActive(active, id))
  {
    if active == Some(id) {
      StopActiveKeepsInvariant(tasks, id, Pause);
    } else if Truthy(active) {
      StopActiveKeepsInvariant(tasks, active.value, Pause);
      SetInProgressKeepsInvariant(MapById(tasks, active.value, Pause), id, Reopen);
    } else {
      assert ActiveTaskInvariant(tasks, None);
      SetInProgressKeepsInvariant(tasks, id, Reopen);
    }
  }

  /** Toggling a task that is not active twice in a row leaves it paused,
      reopened (not completed, no completion time), and no task active. */
  lemma ToggleTwiceParks(tasks: seq<Task>, active: Option<string>, id: string, i: nat)
    requires active != Some(id)
    requires i < |tasks| && tasks[i].id == id
    ensures ToggledActive(ToggledActive(active, id), id) == None
    ensures var r := ToggledTasks(ToggledTasks(tasks, active, id), ToggledActive(active, id), id);
      |r| == |tasks| && r[i].status == Some(Paused) && !r[i].completed && r[i].completedAt == None
  {
    var once := ToggledTasks(tasks, active, id);
    assert once[i].id == id && once[i].status == Some(InProgress);
  }

  /** The task list the task-details dialog writes back keeps the invariant
      when the saved record is not an in-progress task other than the active one. */
  lemma ReplaceKeepsInvariant(tasks: seq<Task>, active: Option<string>, updated: Task)
    requires ActiveTaskInvariant(tasks, active)
    requires updated.status == Some(InProgress) ==> active == Some(updated.id)
    ensures ActiveTaskInvariant(ReplaceById(tasks, updated), active)
  {
  }

  // ----- the dashboard -----

  class Pomodoro {
    var mode: Mode
    var timeLeft: int
    var isActive: bool
    var rounds: nat
    var trees: int
    var sessions: seq<Session>
    var tasks: seq<Task>
    var activeTaskId: Option<string>
    var config: AppConfig
    var events: seq<HostEvent>

    predicate SingleActive()
      reads this
    {
      ActiveTaskInvariant(tasks, activeTaskId)
    }

    /** Start-up: the stored configuration (the defaults when none), tasks,
        sessions and tree count are taken as stored; the config effect's first
        run seeds `timeLeft` from the work duration. */
    constructor (storedConfig: Option<AppConfig>, storedTasks: seq<Task>, storedSessions: seq<Session>, storedTrees: int)
      ensures config == (if storedConfig.Some? then storedConfig.value else DefaultConfig)
      ensures mode == Work && timeLeft == config.workDuration * 60 && !isActive && rounds == 0
      ensures trees == storedTrees && sessions == storedSessions && tasks == storedTasks
      ensures activeTaskId == None && events == []
    {
      var c := if storedConfig.Some? then storedConfig.value else DefaultConfig;
      config := c;
      mode := Work;
      isActive := false;
      rounds := 0;
      trees := storedTrees;
      sessions := storedSessions;
      tasks := storedTasks;
      activeTaskId := None;
      events := [];
      timeLeft := c.workDuration * 60;
    }

    /** Start-up that demotes stored in-progress tasks to paused, since the
        active id is not stored and starts out null. */
    constructor Reload(storedConfig: Option<AppConfig>, storedTasks: seq<Task>, storedSessions: seq<Session>, storedTrees: int)
      requires forall i :: 0 <= i < |storedTasks| ==> storedTasks[i].id != ""
      ensures config == (if storedConfig.Some? then storedConfig.value else DefaultConfig)
      ensures mode == Work && timeLeft == config.workDuration * 60 && !isActive && rounds == 0
      ensures trees == storedTrees && sessions == storedSessions && tasks == SettleStoredTasks(storedTasks)
      ensures activeTaskId == None && events == []
      ensures SingleActive()
    {
      var c := if storedConfig.Some? then storedConfig.value else DefaultConfig;
      config := c;
      mode := Work;
      isActive := false;
      rounds := 0;
      trees := storedTrees;
      sessions := storedSessions;
      tasks := SettleStoredTasks(storedTasks);
      activeTaskId := None;
      events := [];
      timeLeft := c.workDuration * 60;
    }

    /** One second of a running countdown (the interval callback). */
    method Tick()
      requires isActive && timeLeft > 0
      modifies this
      ensures timeLeft == old(timeLeft) - 1
      ensures tasks == if mode == Work && Truthy(activeTaskId) then MapById(old(tasks), activeTaskId.value, AddSecond) else old(tasks)
      ensures events == old(events) + [TrayClock(timeLeft)]
      ensures mode == old(mode) && isActive && rounds == old(rounds) && trees == old(trees)
      ensures sessions == old(sessions) && activeTaskId == old(activeTaskId) && config == old(config)
      ensures old(SingleActive()) ==> SingleActive()
    {
      timeLeft := timeLeft - 1;
      events := events + [TrayClock(timeLeft)];
      if mode == Work && Truthy(activeTaskId) {
        if SingleActive() {
          EditKeepsInvariant(tasks, activeTaskId, activeTaskId.value, AddSecond);
        }
        tasks := MapById(tasks, activeTaskId.value, AddSecond);
      }
    }

    /** `handleTimerComplete`, run when the countdown is running and at 0. */
    method TimerComplete(today: string)
      requires isActive && timeLeft == 0
      modifies this
      ensures !isActive && activeTaskId == old(activeTaskId) && config == old(config)
      ensures old(mode) == Work ==> rounds == old(rounds) + 1 && trees == old(trees) + 1
      ensures old(mode) == Work ==>
        tasks == if Truthy(activeTaskId) then MapById(old(tasks), activeTaskId.value, AddPomodoro) else old(tasks)
      ensures old(mode) == Work ==> sessions == old(sessions) + [Session(today, config.workDuration * 60)]
      ensures old(mode) == Work && LongBreakDue(rounds, config.longBreakInterval) ==>
        && mode == Work && timeLeft == config.workDuration * 60
        && events == old(events) + [Notify(BreakNotice), TrayTitle("Break Time")] + [OpenBreakWindow(config.longBreakDuration * 60)]
      ensures old(mode) == Work && !LongBreakDue(rounds, config.longBreakInterval) ==>
        && mode == ShortBreak && timeLeft == config.breakDuration * 60
        && events == old(events) + [Notify(BreakNotice), TrayTitle("Break Time")]
      ensures old(mode) == ShortBreak ==>
        && mode == Work && timeLeft == config.workDuration * 60
        && rounds == old(rounds) && trees == old(trees) && sessions == old(sessions) && tasks == old(tasks)
        && events == old(events) + [Notify(BackToWorkNotice), TrayTitle("Focus Time")]
      ensures old(SingleActive()) ==> SingleActive()
    {
      isActive := false;
      if mode == Work {
        var newRounds := rounds + 1;
        rounds := newRounds;
        trees := trees + 1;
        if Truthy(activeTaskId) {
          if SingleActive() {
            EditKeepsInvariant(tasks, activeTaskId, activeTaskId.value, AddPomodoro);
          }
          tasks := MapById(tasks, activeTaskId.value, AddPomodoro);
        }
        sessions := sessions + [Session(today, config.workDuration * 60)];
        events := events + [Notify(BreakNotice), TrayTitle("Break Time")];
        if LongBreakDue(newRounds, config.longBreakInterval) {
          events := events + [OpenBreakWindow(config.longBreakDuration * 60)];
          timeLeft := config.workDuration * 60;
        } else {
          mode := ShortBreak;
          timeLeft := config.breakDuration * 60;
        }
      } else {
        mode := Work;
        timeLeft := config.workDuration * 60;
        events := events + [Notify(BackToWorkNotice), TrayTitle("Focus Time")];
      }
    }

    /** `toggleTimer`. */
    method ToggleTimer()
      modifies this`isActive
      ensures isActive == !old(isActive)
    {
      isActive := !isActive;
    }

    /** `resetTimer`: stop, and restore the current mode's full duration. */
    method Reset()
      modifies this`isActive, this`timeLeft
      ensures !isActive && timeLeft == DurationFor(mode, config)
    {
      isActive := false;
      timeLeft := DurationFor(mode, config);
    }

    /** A new configuration from the settings dialog, followed by the config
        effect: `timeLeft` is re-seeded only while the timer is stopped. */
    method ApplyConfig(c: AppConfig)
      modifies this`config, this`timeLeft
      ensures config == c
      ensures timeLeft == if isActive then old(timeLeft) else DurationFor(mode, c)
    {
      config := c;
      if !isActive {
        timeLeft := DurationFor(mode, config);
      }
    }

    /** `finishTaskEarly`: stop in a short break; complete the active task, if any. */
    method FinishEarly(completedAt: string)
      modifies this
      ensures !isActive && mode == ShortBreak && timeLeft == config.breakDuration * 60
      ensures Truthy(old(activeTaskId)) ==>
        tasks == MapById(old(tasks), old(activeTaskId).value, Complete(completedAt)) && activeTaskId == None
      ensures !Truthy(old(activeTaskId)) ==> tasks == old(tasks) && activeTaskId == old(activeTaskId)
      ensures rounds == old(rounds) && trees == old(trees) && sessions == old(sessions)
      ensures config == old(config) && events == old(events)
      ensures old(SingleActive()) ==> SingleActive()
    {
      isActive := false;
      mode := ShortBreak;
      timeLeft := config.breakDuration * 60;
      if Truthy(activeTaskId) {
        if SingleActive() {
          StopActiveKeepsInvariant(tasks, activeTaskId.value, Complete(completedAt));
        }
        tasks := MapById(tasks, activeTaskId.value, Complete(completedAt));
        activeTaskId := None;
      }
    }

    /** `manualCompleteTask(id)`: complete the task; stop the timer and clear
        the active id only when it was the active task. */
    method ManualComplete(id: string, completedAt: string)
      modifies this`tasks, this`activeTaskId, this`isActive
      ensures tasks == MapById(old(tasks), id, Complete(completedAt))
      ensures old(activeTaskId) == Some(id) ==> activeTaskId == None && !isActive
      ensures old(activeTaskId) != Some(id) ==> activeTaskId == old(activeTaskId) && isActive == old(isActive)
      ensures old(SingleActive()) ==> SingleActive()
    {
      if SingleActive() {
        if activeTaskId == Some(id) {
          StopActiveKeepsInvariant(tasks, id, Complete(completedAt));
        } else {
          EditKeepsInvariant(tasks, activeTaskId, id, Complete(completedAt));
        }
      }
      tasks := MapById(tasks, id, Complete(completedAt));
      if activeTaskId == Some(id) {
        activeTaskId := None;
        isActive := false;
      }
    }

    /** `handleStartTask(title, plan)`: find or create the task, pause the
        previously active one, make the target active and run a fresh work interval. */
    method StartTask(title: string, plan: Option<string>, now: nat)
      modifies this
      ensures tasks == StartedTasks(old(tasks), old(activeTaskId), title, plan, NatToString(now))
      ensures activeTaskId == Some(StartTarget(old(tasks), title, NatToString(now)))
      ensures mode == Work && timeLeft == config.workDuration * 60 && isActive
      ensures rounds == old(rounds) && trees == old(trees) && sessions == old(sessions)
      ensures config == old(config) && events == old(events)
      ensures old(SingleActive()) ==> SingleActive()
    {
      ghost var before := tasks;
      ghost var wasValid := SingleActive();
      var found := FindTitle(tasks, title);
      var targetId: string;
      if found.None? {
        var task := NewTask(NatToString(now), title, plan);
        targetId := task.id;
        tasks := tasks + [task];
      } else {
        targetId := tasks[found.value].id;
      }
      if activeTaskId.Some? {
        tasks := MapById(tasks, activeTaskId.value, Pause);
      }
      activeTaskId := Some(targetId);
      mode := Work;
      timeLeft := config.workDuration * 60;
      isActive := true;
      tasks := MapById(tasks, targetId, Resume);
      if wasValid {
        StartKeepsInvariant(before, old(activeTaskId), title, plan, NatToString(now));
      }
    }

    /** `toggleTaskActive(id)`: pause the active task, or switch to another one
        and run a fresh work interval. */
    method ToggleTaskActive(id: string)
      modifies this
      ensures tasks == ToggledTasks(old(tasks), old(activeTaskId), id)
      ensures activeTaskId == ToggledActive(old(activeTaskId), id)
      ensures old(activeTaskId) == Some(id) ==> !isActive && mode == old(mode) && timeLeft == old(timeLeft)
      ensures old(activeTaskId) != Some(id) ==> isActive && mode == Work && timeLeft == config.workDuration * 60
      ensures rounds == old(rounds) && trees == old(trees) && sessions == old(sessions)
      ensures config == old(config) && events == old(events)
      ensures old(SingleActive()) ==> SingleActive()
    {
      if SingleActive() {
        ToggleKeepsInvariant(tasks, activeTaskId, id);
      }
      if activeTaskId == Some(id) {
        activeTaskId := None;
        isActive := false;
        tasks := MapById(tasks, id, Pause);
      } else {
        if Truthy(activeTaskId) {
          tasks := MapById(tasks, activeTaskId.value, Pause);
        }
        activeTaskId := Some(id);
        mode := Work;
        timeLeft := config.workDuration * 60;
        isActive := true;
        tasks := MapById(tasks, id, Reopen);
      }
    }

    /** `deleteTask(id)` after the confirmation prompt answered `confirmed`. */
    method Delete(id: string, confirmed: bool)
      modifies this`tasks, this`activeTaskId, this`isActive
      ensures !confirmed ==> tasks == old(tasks) && activeTaskId == old(activeTaskId) && isActive == old(isActive)
      ensures confirmed ==> tasks == RemoveById(old(tasks), id)
      ensures confirmed && old(activeTaskId) == Some(id) ==> activeTaskId == None && !isActive
      ensures confirmed && old(activeTaskId) != Some(id) ==> activeTaskId == old(activeTaskId) && isActive == old(isActive)
      ensures old(SingleActive()) ==> SingleActive()
    {
      if confirmed {
        if SingleActive() {
          DeleteKeepsInvariant(tasks, activeTaskId, id);
        }
        tasks := RemoveById(tasks, id);
        if activeTaskId == Some(id) {
          activeTaskId := None;
          isActive := false;
        }
      }
    }

    /** The task-details dialog's `onUpdate`: every task with the saved
        record's id is replaced by that record. */
    method UpdateTask(updated: Task)
      modifies this`tasks
      ensures tasks == ReplaceById(old(tasks), updated)
      ensures old(SingleActive()) && (updated.status == Some(InProgress) ==> activeTaskId == Some(updated.id))
        ==> SingleActive()
    {
      if SingleActive() && (updated.status == Some(InProgress) ==> activeTaskId == Some(updated.id)) {
        ReplaceKeepsInvariant(tasks, activeTaskId, updated);
      }
      tasks := ReplaceById(tasks, updated);
    }

    /** The running interval firing until the countdown reaches 0: every
        second goes to the active task in work mode and to the tray title. */
    method RunUntilZero()
      requires isActive && timeLeft >= 0
      modifies this
      ensures timeLeft == 0 && isActive
      ensures |tasks| == |old(tasks)|
      ensures forall i :: 0 <= i < |tasks| ==>
        tasks[i] == if mode == Work && Truthy(activeTaskId) && old(tasks)[i].id == activeTaskId.value
                    then old(tasks)[i].(timeSpent := old(tasks)[i].timeSpent + old(timeLeft))
                    else old(tasks)[i]
      ensures events == old(events) + TrayCountdown(old(timeLeft), 0)
      ensures mode == old(mode) && rounds == old(rounds) && trees == old(trees)
      ensures sessions == old(sessions) && activeTaskId == old(activeTaskId) && config == old(config)
      ensures old(SingleActive()) ==> SingleActive()
    {
      ghost var start := timeLeft;
      while timeLeft > 0
        invariant isActive && 0 <= timeLeft <= start
        invariant |tasks| == |old(tasks)|
        invariant forall i :: 0 <= i < |tasks| ==>
          tasks[i] == if mode == Work && Truthy(activeTaskId) && old(tasks)[i].id == activeTaskId.value
                      then old(tasks)[i].(timeSpent := old(tasks)[i].timeSpent + (start - timeLeft))
                      else old(tasks)[i]
        invariant events == old(events) + TrayCountdown(start, timeLeft)
        invariant mode == old(mode) && rounds == old(rounds) && trees == old(trees)
        invariant sessions == old(sessions) && activeTaskId == old(activeTaskId) && config == old(config)
        invariant old(SingleActive()) ==> SingleActive()
      {
        TrayCountdownStep(start, timeLeft);
        Tick();
      }
    }
  }

  /** The tray titles of a countdown from `from` down to `to`: one per tick,
      each showing the value after that tick. */
  function TrayCountdown(from: int, to: int): (r: seq<HostEvent>)
    ensures from >= to ==> |r| == from - to
    decreases from - to
  {
    if from <= to then [] else [TrayClock(from - 1)] + TrayCountdown(from - 1, to)
  }

  lemma {:induction false} TrayCountdownStep(from: int, to: int)
    requires from >= to
    ensures TrayCountdown(from, to - 1) == TrayCountdown(from, to) + [TrayClock(to - 1)]
    decreases from - to
  {
    if from > to {
      TrayCountdownStep(from - 1, to);
    }
  }

  /** Stored tasks with every `in_progress` status demoted to `paused`. */
  function SettleStoredTasks(stored: seq<Task>): (r: seq<Task>)
    ensures |r| == |stored|
    ensures forall i :: 0 <= i < |stored| ==>
      r[i] == if stored[i].status == Some(InProgress) then stored[i].(status := Some(Paused)) else stored[i]
  {
    if stored == [] then []
    else
      var last := stored[|stored| - 1];
      SettleStoredTasks(stored[..|stored| - 1]) + [if last.status == Some(InProgress) then last.(status := Some(Paused)) else last]
  }

  /** Settled tasks satisfy the invariant with no active task. */
  lemma SettledHasNoInProgress(stored: seq<Task>)
    requires forall i :: 0 <= i < |stored| ==> stored[i].id != ""
    ensures ActiveTaskInvariant(SettleStoredTasks(stored), None)
  {
  }
}
