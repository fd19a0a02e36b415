/**
  The application's records (src/types.ts) and the two queries over them that
  several components share: the first task carrying a title (`tasks.find`)
  and the seconds logged on one date.
 */
module Types {
  import opened JsText

  datatype Status = Pending | InProgress | Paused | Completed

  /** The string a status is stored and shown as. */
  function StatusText(s: Status): string
  {
    match s
    case Pending => "pending"
    case InProgress => "in_progress"
    case Paused => "paused"
    case Completed => "completed"
  }

  datatype Subtask = Subtask(id: string, title: string, completed: bool)

  /** A task; optional properties of the TypeScript interface are `Option`s.
      `timeSpent` is in seconds. */
  datatype Task = Task(
    id: string,
    title: string,
    timeSpent: int,
    completed: bool,
    status: Option<Status>,
    pomodoros: Option<int>,
    plan: Option<string>,
    subtasks: Option<seq<Subtask>>,
    completedAt: Option<string>)

  /** One completed work interval. The interface comments `duration` as minutes,
      but every writer and reader treats it as seconds. */
  datatype Session = Session(date: string, duration: int)

  datatype AIConfig = AIConfig(apiKey: string, baseUrl: Option<string>, model: Option<string>)

  /** Durations are minutes; values reach here through `parseInt`, so they are integers. */
  datatype AppConfig = AppConfig(
    workDuration: int,
    breakDuration: int,
    longBreakDuration: int,
    longBreakInterval: int,
    language: string,
    aiConfig: Option<AIConfig>)

  /** The configuration used when nothing is stored. */
  const DefaultConfig := AppConfig(25, 5, 15, 4, "en", None)

  /** `x || 0` for an optional count. */
  function CountOrZero(x: Option<int>): int
  {
    if x.Some? then x.value else 0
  }

  /** Index of the first task whose title is exactly `title`, searching from `from`. */
  function FindTitleFrom(tasks: seq<Task>, title: string, from: nat): (r: Option<nat>)
    requires from <= |tasks|
    ensures r.Some? ==> from <= r.value < |tasks| && tasks[r.value].title == title
    ensures r.Some? ==> forall j :: from <= j < r.value ==> tasks[j].title != title
    ensures r.None? ==> forall j :: from <= j < |tasks| ==> tasks[j].title != title
    decreases |tasks| - from
  {
    if from == |tasks| then None
    else if tasks[from].title == title then Some(from)
    else FindTitleFrom(tasks, title, from + 1)
  }

  /** `tasks.find(t => t.title === title)`, as an index. */
  function FindTitle(tasks: seq<Task>, title: string): (r: Option<nat>)
    ensures r.Some? ==> r.value < |tasks| && tasks[r.value].title == title
    ensures r.Some? ==> forall j :: 0 <= j < r.value ==> tasks[j].title != title
    ensures r.None? <==> forall j :: 0 <= j < |tasks| ==> tasks[j].title != title
  {
    FindTitleFrom(tasks, title, 0)
  }

  /** Sum of the raw durations (seconds) of the sessions logged on `date`. */
  function SecondsOn(sessions: seq<Session>, date: string): int
  {
    if sessions == [] then 0
    else
      var last := sessions[|sessions| - 1];
      SecondsOn(sessions[..|sessions| - 1], date) + (if last.date == date then last.duration else 0)
  }

  /** Sessions logged on other dates add nothing to a date's total. */
  lemma {:induction false} SecondsOnIgnoresOtherDates(sessions: seq<Session>, more: seq<Session>, date: string)
    requires forall i :: 0 <= i < |more| ==> more[i].date != date
    ensures SecondsOn(sessions + more, date) == SecondsOn(sessions, date)
  {
    if more != [] {
      var all := sessions + more;
      assert all[..|all| - 1] == sessions + more[..|more| - 1];
      assert all[|all| - 1] == more[|more| - 1];
      SecondsOnIgnoresOtherDates(sessions, more[..|more| - 1], date);
    } else {
      assert sessions + more == sessions;
    }
  }

  /** Logging one more session on `date` raises that date's total by its duration. */
  lemma SecondsOnAppend(sessions: seq<Session>, s: Session)
    ensures SecondsOn(sessions + [s], s.date) == SecondsOn(sessions, s.date) + s.duration
  {
    var all := sessions + [s];
    assert all[..|all| - 1] == sessions;
    assert all[|all| - 1] == s;
  }
}
