/**
  The task list (src/components/TaskList.tsx): the archive/active filter,
  the newest-first display order, and what each row shows and offers.
 */
module TaskList {
  import opened JsText
  import opened Types
  import TimeText

  /** `tasks.filter(t => showArchive ? t.completed : !t.completed)`. */
  function Visible(tasks: seq<Task>, showArchive: bool): (r: seq<Task>)
    ensures |r| <= |tasks|
    ensures forall i :: 0 <= i < |r| ==> r[i].completed == showArchive
  {
    if tasks == [] then []
    else
      var last := tasks[|tasks| - 1];
      Visible(tasks[..|tasks| - 1], showArchive) + (if last.completed == showArchive then [last] else [])
  }

  /** The stored positions of the tasks the filter keeps, in ascending order:
      every position whose task matches, and no other. */
  function Positions(tasks: seq<Task>, showArchive: bool): (ps: seq<nat>)
    ensures forall i :: 0 <= i < |ps| ==> ps[i] < |tasks| && tasks[ps[i]].completed == showArchive
    ensures forall i, j :: 0 <= i < j < |ps| ==> ps[i] < ps[j]
    ensures forall k :: 0 <= k < |tasks| && tasks[k].completed == showArchive ==> k in ps
  {
    if tasks == [] then []
    else
      var n := |tasks| - 1;
      Positions(tasks[..n], showArchive) + (if tasks[n].completed == showArchive then [n] else [])
  }

  /** The filter keeps exactly the matching tasks, in their stored order. */
  lemma {:induction false} VisibleIsPositions(tasks: seq<Task>, showArchive: bool)
    ensures var r := Visible(tasks, showArchive);
      var ps := Positions(tasks, showArchive);
      |r| == |ps| && forall i :: 0 <= i < |r| ==> r[i] == tasks[ps[i]]
  {
    if tasks != [] {
      var n := |tasks| - 1;
      VisibleIsPositions(tasks[..n], showArchive);
    }
  }

  /** The archive and the active view together show every task exactly once. */
  lemma {:induction false} PartitionCoversAll(tasks: seq<Task>)
    ensures multiset(Visible(tasks, true)) + multiset(Visible(tasks, false)) == multiset(tasks)
  {
    if tasks != [] {
      var n := |tasks| - 1;
      PartitionCoversAll(tasks[..n]);
      assert tasks == tasks[..n] + [tasks[n]];
    }
  }

  function Reverse<T>(s: seq<T>): (r: seq<T>)
    ensures |r| == |s|
    ensures forall i :: 0 <= i < |s| ==> r[i] == s[|s| - 1 - i]
  {
    if s == [] then [] else [s[|s| - 1]] + Reverse(s[..|s| - 1])
  }

  /** `filteredTasks.slice().reverse()`: the list as shown, newest first. */
  function Displayed(tasks: seq<Task>, showArchive: bool): seq<Task>
  {
    Reverse(Visible(tasks, showArchive))
  }

  /** The i-th row shown is the task at the (i+1)-th highest matching stored position. */
  lemma DisplayedOrder(tasks: seq<Task>, showArchive: bool, i: nat)
    requires i < |Displayed(tasks, showArchive)|
    ensures var ps := Positions(tasks, showArchive);
      |ps| == |Displayed(tasks, showArchive)| && Displayed(tasks, showArchive)[i] == tasks[ps[|ps| - 1 - i]]
  {
    VisibleIsPositions(tasks, showArchive);
  }

  // ----- rows -----

  datatype Glyph = PauseGlyph | PlayGlyph

  /** What one row shows and which controls it offers. */
  datatype Row = Row(
    id: string,
    title: string,
    highlighted: bool,
    toggle: Option<Glyph>,
    time: string,
    pomodoros: int,
    pausedLabel: bool,
    completeButton: bool,
    deleteButton: bool)

  /** The row for a task; `activeTaskId === task.id` is strict equality, so a
      null active id matches no task. */
  function RowFor(task: Task, activeTaskId: Option<string>): Row
  {
    var active := activeTaskId == Some(task.id);
    Row(
      task.id,
      task.title,
      active,
      if !task.completed then Some(if active then PauseGlyph else PlayGlyph) else None,
      TimeText.ClockText(task.timeSpent),
      CountOrZero(task.pomodoros),
      task.status == Some(Paused),
      !task.completed,
      true)
  }

  /** The rows of the list, top to bottom. */
  function Rows(tasks: seq<Task>, activeTaskId: Option<string>, showArchive: bool): (rows: seq<Row>)
    ensures |rows| == |Displayed(tasks, showArchive)|
    ensures forall i :: 0 <= i < |rows| ==> rows[i] == RowFor(Displayed(tasks, showArchive)[i], activeTaskId)
  {
    var shown := Displayed(tasks, showArchive);
    seq(|shown|, i requires 0 <= i < |shown| => RowFor(shown[i], activeTaskId))
  }

  /** The archive offers only deletion; in the active view every row has the
      play/pause and complete controls. Delete is on every row. */
  lemma ControlsByView(tasks: seq<Task>, activeTaskId: Option<string>, showArchive: bool)
    ensures var rows := Rows(tasks, activeTaskId, showArchive);
      forall i :: 0 <= i < |rows| ==>
        rows[i].deleteButton
        && (rows[i].toggle.Some? <==> !showArchive)
        && (rows[i].completeButton <==> !showArchive)
  {
    var shown := Displayed(tasks, showArchive);
    forall i | 0 <= i < |shown| ensures shown[i].completed == showArchive {
      assert shown[i] == Visible(tasks, showArchive)[|shown| - 1 - i];
    }
  }

  /** With distinct task ids, distinct rows belong to distinct tasks. */
  lemma RowIdsDistinct(tasks: seq<Task>, activeTaskId: Option<string>, showArchive: bool, i: nat, j: nat)
    requires forall a, b :: 0 <= a < b < |tasks| ==> tasks[a].id != tasks[b].id
    requires i < j < |Rows(tasks, activeTaskId, showArchive)|
    ensures Rows(tasks, activeTaskId, showArchive)[i].id != Rows(tasks, activeTaskId, showArchive)[j].id
  {
    var ps := Positions(tasks, showArchive);
    DisplayedOrder(tasks, showArchive, i);
    DisplayedOrder(tasks, showArchive, j);
    var pi, pj := ps[|ps| - 1 - i], ps[|ps| - 1 - j];
    assert pj < pi;
    assert tasks[pj].id != tasks[pi].id;
  }

  /** A row shows the pause glyph exactly when it is the active task's row and
      the list is the active view; with distinct ids, at most one row does. */
  lemma PauseGlyphOnlyOnActive(tasks: seq<Task>, activeTaskId: Option<string>, showArchive: bool, i: nat, j: nat)
    requires forall a, b :: 0 <= a < b < |tasks| ==> tasks[a].id != tasks[b].id
    ensures var rows := Rows(tasks, activeTaskId, showArchive);
      (i < |rows| ==> (rows[i].toggle == Some(PauseGlyph) <==> !showArchive && activeTaskId == Some(rows[i].id)))
      && (i < |rows| && j < |rows| && rows[i].toggle == Some(PauseGlyph) && rows[j].toggle == Some(PauseGlyph) ==> i == j)
  {
    ControlsByView(tasks, activeTaskId, showArchive);
    if i < j < |Rows(tasks, activeTaskId, showArchive)| {
      RowIdsDistinct(tasks, activeTaskId, showArchive, i, j);
    } else if j < i < |Rows(tasks, activeTaskId, showArchive)| {
      RowIdsDistinct(tasks, activeTaskId, showArchive, j, i);
    }
  }

  /** A row's counter is the pomodoro count, absent counted as 0, and the
      paused label appears exactly for paused tasks, in either view. */
  lemma RowCountersAndLabel(tasks: seq<Task>, activeTaskId: Option<string>, showArchive: bool, i: nat)
    requires i < |Displayed(tasks, showArchive)|
    ensures var task := Displayed(tasks, showArchive)[i];
      var row := Rows(tasks, activeTaskId, showArchive)[i];
      row.id == task.id && row.title == task.title
      && row.pomodoros == (if task.pomodoros.Some? then task.pomodoros.value else 0)
      && (row.pausedLabel <==> task.status == Some(Paused))
  {
  }
}
