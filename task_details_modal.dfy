/**
  The task details dialog (src/components/TaskDetailsModal.tsx): the plan
  editor's starting text, what a save hands back to the dashboard, the
  hours-and-minutes focus text and the status shown.

  The dialog receives the task as it was when its row was clicked. The
  dashboard writes the saved record over the stored one, so a save after
  the timer has ticked for that task restores the old counters; see
  `StaleSaveLosesTime` and the corrected `SavePlan`.
 */
module TaskDetailsModal {
  import opened JsText
  import opened Types
  import TimeText
  import Dashboard

  /** `useState(task.plan || '')`. */
  function InitialPlan(task: Task): string
  {
    OrElse(task.plan, "")
  }

  /** `handleSave`: `{ ...task, plan }`, handed to `onUpdate`. */
  function SaveDetails(task: Task, plan: string): Task
  {
    task.(plan := Some(plan))
  }

  /** A save replaces only the plan, and the editor reopened on the saved
      record starts from the saved text. Saving untouched text changes
      nothing, except that an absent plan becomes the empty string. */
  lemma SaveDetailsSpec(task: Task, plan: string)
    ensures SaveDetails(task, plan).(plan := task.plan) == task
    ensures InitialPlan(SaveDetails(task, plan)) == plan
    ensures task.plan.Some? ==> SaveDetails(task, InitialPlan(task)) == task
    ensures task.plan.None? ==> SaveDetails(task, InitialPlan(task)) == task.(plan := Some(""))
  {
  }

  /** `formatTime`: `"<h>h <m>m"`. */
  function DetailsTime(seconds: int): string
  {
    var hm := TimeText.HoursMinutes(seconds);
    IntToString(hm.0) + "h " + IntToString(hm.1) + "m"
  }

  /** For a non-negative count the text is `<digits>h <digits>m`, whose
      minutes are below 60 and which account for the count to within a
      minute. */
  lemma DetailsTimeReadsBack(seconds: nat)
    ensures var h := NatToString(seconds / 3600);
      var m := NatToString((seconds % 3600) / 60);
      DetailsTime(seconds) == h + "h " + m + "m"
      && DigitsValue(m) < 60
      && DigitsValue(h) * 3600 + DigitsValue(m) * 60 <= seconds < DigitsValue(h) * 3600 + DigitsValue(m) * 60 + 60
  {
    var hm := TimeText.HoursMinutes(seconds);
    assert hm == (seconds / 3600, (seconds % 3600) / 60);
    NatToStringValue(seconds / 3600);
    NatToStringValue((seconds % 3600) / 60);
  }

  /** `task.status || (task.completed ? completed : pending)`: a stored
      status is shown as stored; without one, the completed flag decides. */
  function StatusLabel(task: Task, completedLabel: string, pendingLabel: string): (shown: string)
    ensures task.status.Some? ==> shown == StatusText(task.status.value)
    ensures task.status.None? && task.completed ==> shown == completedLabel
    ensures task.status.None? && !task.completed ==> shown == pendingLabel
  {
    match task.status
    case Some(s) => StatusText(s)
    case None => if task.completed then completedLabel else pendingLabel
  }

  /** Every task in the list carries a status. */
  predicate AllHaveStatus(tasks: seq<Task>)
  {
    forall i :: 0 <= i < |tasks| ==> tasks[i].status.Some?
  }

  /** A per-task edit keeps every task's status present. */
  lemma MapByIdKeepsStatuses(tasks: seq<Task>, id: string, e: Dashboard.Edit)
    requires AllHaveStatus(tasks)
    ensures AllHaveStatus(Dashboard.MapById(tasks, id, e))
  {
    var r := Dashboard.MapById(tasks, id, e);
    forall i | 0 <= i < |r| ensures r[i].status.Some? {
      if tasks[i].id == id {
        assert r[i] == Dashboard.Apply(e, tasks[i]);
      }
    }
  }

  /** The dashboard never produces a task without a status: a new task starts
      as pending, and every edit sets or keeps the status. */
  lemma DashboardKeepsStatuses(tasks: seq<Task>, active: Option<string>, title: string, plan: Option<string>, newId: string, id: string, e: Dashboard.Edit)
    requires AllHaveStatus(tasks)
    ensures AllHaveStatus(Dashboard.MapById(tasks, id, e))
    ensures AllHaveStatus(Dashboard.StartedTasks(tasks, active, title, plan, newId))
    ensures AllHaveStatus(Dashboard.ToggledTasks(tasks, active, id))
    ensures AllHaveStatus(Dashboard.RemoveById(tasks, id))
  {
    MapByIdKeepsStatuses(tasks, id, e);
    var withNew := if FindTitle(tasks, title).Some? then tasks else tasks + [Dashboard.NewTask(newId, title, plan)];
    assert AllHaveStatus(withNew);
    if active.Some? {
      MapByIdKeepsStatuses(withNew, active.value, Dashboard.Pause);
      MapByIdKeepsStatuses(tasks, active.value, Dashboard.Pause);
      MapByIdKeepsStatuses(Dashboard.MapById(tasks, active.value, Dashboard.Pause), id, Dashboard.Reopen);
    }
    var paused := Dashboard.PauseActive(withNew, active);
    MapByIdKeepsStatuses(paused, Dashboard.StartTarget(tasks, title, newId), Dashboard.Resume);
    MapByIdKeepsStatuses(tasks, id, Dashboard.Pause);
    MapByIdKeepsStatuses(tasks, id, Dashboard.Reopen);
    var r := Dashboard.RemoveById(tasks, id);
    forall i | 0 <= i < |r| ensures r[i].status.Some? {
      assert r[i] in tasks;
    }
  }

  /** For a task that carries a status the label is that status, whatever
      the fallback labels are; the completed/pending fallback shows only for
      stored records without one. */
  lemma StatusLabelShowsStoredStatus(tasks: seq<Task>, i: nat, completedLabel: string, pendingLabel: string)
    requires AllHaveStatus(tasks) && i < |tasks|
    ensures StatusLabel(tasks[i], completedLabel, pendingLabel) == StatusText(tasks[i].status.value)
  {
  }

  /** The task a session was just started on shows as in progress. */
  lemma StartedTargetShowsInProgress(tasks: seq<Task>, active: Option<string>, title: string, plan: Option<string>, newId: string, k: nat, completedLabel: string, pendingLabel: string)
    requires k < |Dashboard.StartedTasks(tasks, active, title, plan, newId)|
    requires Dashboard.StartedTasks(tasks, active, title, plan, newId)[k].id == Dashboard.StartTarget(tasks, title, newId)
    ensures StatusLabel(Dashboard.StartedTasks(tasks, active, title, plan, newId)[k], completedLabel, pendingLabel) == StatusText(InProgress)
  {
    var withNew := if FindTitle(tasks, title).Some? then tasks else tasks + [Dashboard.NewTask(newId, title, plan)];
    var paused := Dashboard.PauseActive(withNew, active);
    var target := Dashboard.StartTarget(tasks, title, newId);
    var r := Dashboard.MapById(paused, target, Dashboard.Resume);
    assert r[k].id == paused[k].id;
    assert r[k] == Dashboard.Apply(Dashboard.Resume, paused[k]);
  }

  // ----- saving from a stale snapshot -----

  /** The save as the dashboard applies it: the snapshot with the new plan
      replaces the stored task with the same id. */
  function SaveAsWritten(tasks: seq<Task>, snapshot: Task, plan: string): seq<Task>
  {
    Dashboard.ReplaceById(tasks, SaveDetails(snapshot, plan))
  }

  /** The dialog opened on a task that then accrues a second of focus: the
      save restores the count from before that second. */
  lemma StaleSaveLosesTime(t: Task, plan: string)
    ensures var ticked := Dashboard.MapById([t], t.id, Dashboard.AddSecond);
      ticked[0].timeSpent == t.timeSpent + 1
      && SaveAsWritten(ticked, t, plan)[0].timeSpent == t.timeSpent
  {
  }

  /** The save that changes only the plan of the stored task with that id. */
  function SavePlan(tasks: seq<Task>, id: string, plan: string): (r: seq<Task>)
    ensures |r| == |tasks|
    ensures forall i {:trigger r[i]} :: 0 <= i < |tasks| ==> r[i] == if tasks[i].id == id then tasks[i].(plan := Some(plan)) else tasks[i]
  {
    if tasks == [] then []
    else
      var last := tasks[|tasks| - 1];
      SavePlan(tasks[..|tasks| - 1], id, plan) + [if last.id == id then last.(plan := Some(plan)) else last]
  }

  /** Saving a plan and any task edit other than the plan commute, so no
      counter or status change is lost whichever comes first. */
  lemma SavePlanCommutes(tasks: seq<Task>, id: string, plan: string, other: string, e: Dashboard.Edit)
    ensures SavePlan(Dashboard.MapById(tasks, other, e), id, plan) == Dashboard.MapById(SavePlan(tasks, id, plan), other, e)
  {
    var a := SavePlan(Dashboard.MapById(tasks, other, e), id, plan);
    var b := Dashboard.MapById(SavePlan(tasks, id, plan), other, e);
    assert |a| == |b|;
    forall i | 0 <= i < |a| ensures a[i] == b[i] {
      var t := tasks[i];
      assert Dashboard.MapById(tasks, other, e)[i] == if t.id == other then Dashboard.Apply(e, t) else t;
      assert SavePlan(tasks, id, plan)[i] == if t.id == id then t.(plan := Some(plan)) else t;
    }
  }

  /** With distinct ids and a snapshot that is still current, the corrected
      save and the written one agree. */
  lemma SavePlanAgreesWhenCurrent(tasks: seq<Task>, plan: string, k: nat)
    requires forall a, b :: 0 <= a < b < |tasks| ==> tasks[a].id != tasks[b].id
    requires k < |tasks|
    ensures SavePlan(tasks, tasks[k].id, plan) == SaveAsWritten(tasks, tasks[k], plan)
  {
    var r := SaveAsWritten(tasks, tasks[k], plan);
    var c := SavePlan(tasks, tasks[k].id, plan);
    forall j | 0 <= j < |tasks| ensures r[j] == c[j] {
      if j < k {
        assert tasks[j].id != tasks[k].id;
      } else if k < j {
        assert tasks[k].id != tasks[j].id;
      }
    }
  }
}
