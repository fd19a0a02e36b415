# AuraFlow Pomodoro core in Dafny

This project models the core of AuraFlow, a desktop Pomodoro timer with a task list, statistics and an optional AI helper, and proves properties of that model. The modelled parts are:

- The dashboard state machine (`Dashboard.Pomodoro`). It holds the work/short-break countdown, rounds and trees, the session log, the task list with its single active task, and what the dashboard asks of the host: notifications, tray titles, and opening the break window.
- The task list rows (`TaskList`).
- The new-session dialog's suggestions and start paths (`TaskEntryModal`).
- The statistics view (`StatsView`). It covers the per-date minute totals, the heat levels and the 365-day calendar.
- The break window countdown (`BreakView.BreakTimer`).
- The settings dialog (`SettingsModal`).
- The task details dialog (`TaskDetailsModal`).
- The deterministic part of the AI helper (`Ai`).

`JsText` spells out the JavaScript string and number behaviour the code relies on: `||` on strings, the truncating `%`, `toString`, `parseInt`, `trim`, `toLowerCase`, `includes`, `padStart` and `join`. `TimeText` holds the three time renderings.

Each dashboard handler is a method that performs the handler's `setX` calls in the order written. Inputs that the source takes from its environment are parameters:

- the current time, from which new task ids are made;
- today's date string;
- the completion timestamp;
- the answer to the delete confirmation;
- the outcome of the task analysis;
- the build environment of the AI helper.

The central invariant is `Dashboard.ActiveTaskInvariant`: every task whose status is `in_progress` is the active task. The timer, start, toggle, finish, complete and delete handlers preserve it. `UpdateTask` (the details save) preserves it when the saved record is not `in_progress` for a task other than the active one (`Dashboard.ReplaceKeepsInvariant`). At start-up, only the settled `Reload` establishes it; the constructor as written does not (see Findings).

Where the design text and the code differ, the model follows the code:

- Session durations are seconds, not minutes.
- Starting an existing task by title does not clear its `completed` flag. Only the play button reopens a task.
- Finishing early has no guard, and stops in a short break even with no active task.
- The task-details save writes back the whole record it was opened with.
- The AI assist passes `result.plan`, a property the analysis result does not have, so no plan is passed.

## Model

| member | source | states |
|---|---|---|
| JsText.JsRem | src/components/Dashboard.tsx:95 | JavaScript `%` takes the sign of the dividend, and its magnitude is the Euclidean remainder of the magnitudes |
| JsText.ParseIntOfIntToString | src/components/Dashboard.tsx:96 | `parseInt` reads back every integer that `toString` writes |
| JsText.TrimEmptyIffBlank | src/components/TaskEntryModal.tsx:19 | `trim()` is empty exactly when every character is white space |
| JsText.ToLower | src/components/TaskEntryModal.tsx:22 | lower-casing keeps the length and maps each character on its own |
| JsText.Includes | src/components/TaskEntryModal.tsx:22 | `includes` is true exactly when the needle occurs at some index |
| JsText.PadStart2 | src/components/Dashboard.tsx:248-252 | `padStart(2,'0')` is at least two characters, ends with the input and is padded with zeros |
| JsText.JoinCommaEmpty | src/utils/ai.ts:189-190 | `join(', ')` is empty exactly for no titles or a single empty title |
| JsText.JoinCommaSnoc | src/utils/ai.ts:189-190 | one more title adds `", "` and that title at the end |
| JsText.Prefix | src/utils/ai.ts:17 | `substring(0, n)` is the first min(n, length) characters |
| Types.FindTitle | src/components/Dashboard.tsx:177 | `find` by title gives the first index with that title, and none exactly when no task has it |
| Types.SecondsOnIgnoresOtherDates | src/components/StatsView.tsx:25-26 | sessions on other dates do not change a date's focus total |
| Types.SecondsOnAppend | src/components/Dashboard.tsx:86-90 | logging a session raises its date's total by its duration |
| TimeText.MinutesSeconds | src/components/Dashboard.tsx:248-252 | for a non-negative count, the minutes and seconds recombine to the count, with seconds below 60 |
| TimeText.ClockTextReadsBack | src/components/BreakView.tsx:25-29 | `M:SS` has decimal minutes, a colon and two digits below 60, and M*60+SS is the count |
| TimeText.HoursMinutes | src/components/TaskDetailsModal.tsx:36-40 | hours and minutes (below 60) account for the count to within a minute |
| Dashboard.LongBreakDueIff | src/components/Dashboard.tsx:95 | a long break is due exactly when the interval is non-zero and divides the round count; an interval of 0 never gives one |
| Dashboard.Apply | src/components/Dashboard.tsx:192-228 | every per-task edit keeps id, title and plan; only resume or reopen can set `in_progress` |
| Dashboard.KeptPositions | src/components/Dashboard.tsx:235 | the positions the delete filter keeps are ascending and are exactly those whose id differs |
| Dashboard.RemoveByIdKeepsOrder | src/components/Dashboard.tsx:235 | deleting leaves the tasks with other ids in their stored order, each occurrence once, and nothing else |
| Dashboard.ReplaceById | src/components/Dashboard.tsx:361-363 | each task with the saved record's id becomes that record, and the others are unchanged |
| Dashboard.AtMostOneInProgress | src/components/Dashboard.tsx:192-206 | under the invariant with distinct ids, two in-progress tasks are the same task |
| Dashboard.EditKeepsInvariant | src/components/Dashboard.tsx:125-131 | a tick, pomodoro, pause or completion edit keeps the invariant |
| Dashboard.StopActiveKeepsInvariant | src/components/Dashboard.tsx:150-158 | pausing or completing the active task and clearing the active id keeps the invariant |
| Dashboard.DeleteKeepsInvariant | src/components/Dashboard.tsx:232-241 | deleting keeps the invariant, with the active id cleared when it was deleted |
| Dashboard.SetInProgressKeepsInvariant | src/components/Dashboard.tsx:205-206 | from no task in progress, setting the target in progress makes it the active one |
| Dashboard.StartReusesFirstMatch | src/components/Dashboard.tsx:177 | starting an existing title adds no task and activates the first task with that title |
| Dashboard.StartAppendsNewTask | src/components/Dashboard.tsx:178-189 | starting a new title appends one task with the new id, no time, no pomodoros and the given plan, in progress |
| Dashboard.StartTouchesOnlyTargetAndActive | src/components/Dashboard.tsx:191-206 | a start changes no task except the target and the previously active one, which is paused |
| Dashboard.StartKeepsInvariant | src/components/Dashboard.tsx:176-207 | a start keeps the invariant and makes the target active |
| Dashboard.ToggleKeepsInvariant | src/components/Dashboard.tsx:209-230 | play/pause keeps the invariant |
| Dashboard.ToggleTwiceParks | src/components/Dashboard.tsx:209-230 | toggling an inactive task twice leaves no active task and that task paused and not completed |
| Dashboard.ReplaceKeepsInvariant | src/components/Dashboard.tsx:361-363 | writing back a record keeps the invariant unless the record claims `in_progress` for a task that is not active |
| Dashboard.Pomodoro.constructor | src/components/Dashboard.tsx:18-66 | start-up takes the stored or default configuration, stored tasks, sessions and trees; it is stopped in work mode with the work duration and no active task |
| Dashboard.Pomodoro.Reload | src/components/Dashboard.tsx:50-54 | start-up that settles stored in-progress tasks to paused, which establishes the invariant |
| Dashboard.Pomodoro.Tick | src/components/Dashboard.tsx:113-131 | one second less; in work mode only the active task gains a second; the tray shows the new count; everything else is unchanged |
| Dashboard.Pomodoro.TimerComplete | src/components/Dashboard.tsx:69-109 | stop; after work, rounds and trees +1, the active task's pomodoros +1, one session of the work length, then a break notice and either the break window with the long-break seconds or the short break; after a break, back to work |
| Dashboard.Pomodoro.ToggleTimer | src/components/Dashboard.tsx:139 | the running flag flips |
| Dashboard.Pomodoro.Reset | src/components/Dashboard.tsx:140-143 | stopped, with the current mode's full duration |
| Dashboard.Pomodoro.ApplyConfig | src/components/Dashboard.tsx:61-66 | the new configuration re-seeds the countdown only while stopped |
| Dashboard.Pomodoro.FinishEarly | src/components/Dashboard.tsx:145-159 | stopped in a short break; the active task is completed and the active id cleared; with no active task the tasks are unchanged |
| Dashboard.Pomodoro.ManualComplete | src/components/Dashboard.tsx:161-174 | the task is completed; the timer stops and the active id is cleared only when it was the active one |
| Dashboard.Pomodoro.StartTask | src/components/Dashboard.tsx:176-207 | the new task list is `StartedTasks`, the target is active, and a fresh work interval runs; the invariant is kept |
| Dashboard.Pomodoro.ToggleTaskActive | src/components/Dashboard.tsx:209-230 | pausing the active task stops the timer; switching to another task pauses the old one and runs a fresh work interval; the invariant is kept |
| Dashboard.Pomodoro.Delete | src/components/Dashboard.tsx:232-241 | nothing changes unless confirmed; deleting the active task stops and clears it |
| Dashboard.Pomodoro.UpdateTask | src/components/Dashboard.tsx:361-363 | the saved record replaces the task with its id |
| Dashboard.Pomodoro.RunUntilZero | src/components/Dashboard.tsx:111-137 | running to 0 from n gives the active task n more seconds in work mode and shows n tray titles counting down |
| Dashboard.TrayCountdown | src/components/Dashboard.tsx:115-121 | one tray title per tick |
| Dashboard.TrayCountdownStep | src/components/Dashboard.tsx:115-121 | one more tick appends the title of the new count |
| Dashboard.SettleStoredTasks | src/components/Dashboard.tsx:50-54 | each stored in-progress task becomes paused, and the others are unchanged |
| Dashboard.SettledHasNoInProgress | src/components/Dashboard.tsx:50-54 | settled tasks satisfy the invariant with no active task |
| DashboardScenarios.OpenedWindowsAppend | src/components/Dashboard.tsx:95-97 | break-window requests add up over concatenated event logs |
| DashboardScenarios.CountdownOpensNothing | src/components/Dashboard.tsx:111-137 | a countdown never opens the break window |
| DashboardScenarios.RunInterval | src/components/Dashboard.tsx:69-137 | one full interval from the defaults: a work interval adds a round and a 1500-second session and opens the window exactly when a long break is due; a break returns to work |
| DashboardScenarios.FourWorkIntervals | src/components/Dashboard.tsx:69-109 | under the defaults, four work intervals give 4 rounds, four 1500-second sessions, and a break window only after the fourth |
| DashboardScenarios.InvariantAllowsOneInProgress | src/components/Dashboard.tsx:192-206 | with distinct ids, the invariant allows at most one task in progress |
| DashboardScenarios.StartNextToStored | src/components/Dashboard.tsx:176-207 | starting a new title beside one stored task keeps that task and appends the new one in progress |
| DashboardScenarios.StartAfterRestartAsWritten | src/components/Dashboard.tsx:50-54 | as written, a restart then a start leaves two tasks in progress |
| DashboardScenarios.StartAfterRestartSettled | src/components/Dashboard.tsx:50-54 | with settled start-up, the same steps leave one task in progress and the stored one paused |
| StatsView.FocusTextHoursOmittedIff | src/components/StatsView.tsx:28-32 | the hours part is omitted exactly when the total is under an hour, and the minutes are below 60 |
| StatsView.RoundMinutes | src/components/StatsView.tsx:38 | `Math.round(d/60)` is the nearest whole minute |
| StatsView.MinutesOnAbsent | src/components/StatsView.tsx:62 | a date with no sessions totals 0 |
| StatsView.SessionsByDate | src/components/StatsView.tsx:36-41 | there is a key exactly for each date that has sessions, holding that date's per-session-rounded minute total |
| StatsView.MinutesOnWholeMinutes | src/components/StatsView.tsx:36-41 | with whole-minute durations, the total in minutes is the seconds total divided by 60 |
| StatsView.RoundingIsPerSession | src/components/StatsView.tsx:38-39 | rounding is per session: two 30-second sessions count 2 minutes, not 1 |
| StatsView.HeatLevel | src/components/StatsView.tsx:64-69 | the level is between 0 and 4 |
| StatsView.HeatLevelBands | src/components/StatsView.tsx:64-69 | each level corresponds exactly to its band of minutes |
| StatsView.HeatLevelMonotone | src/components/StatsView.tsx:64-69 | more minutes never give a lower level |
| StatsView.HeatLevelExamples | src/components/StatsView.tsx:64-69 | 90 minutes give level 2 and 250 give level 4 |
| StatsView.CalendarAsWritten | src/components/StatsView.tsx:45-75 | as written, 365 entries when both clock reads fall in the same millisecond, else 364 ending yesterday |
| StatsView.Calendar | src/components/StatsView.tsx:43-75 | 365 entries, one per day from 364 days ago through today, in order |
| StatsView.CalendarDayCounts | src/components/StatsView.tsx:62 | each day shows its date's total; a day without sessions shows 0 at level 0 |
| TaskList.Visible | src/components/TaskList.tsx:32 | the archive shows only completed tasks and the active view only open ones |
| TaskList.Positions | src/components/TaskList.tsx:32 | the kept positions are ascending and are exactly the matching ones |
| TaskList.VisibleIsPositions | src/components/TaskList.tsx:32 | the filter keeps exactly the matching tasks in stored order |
| TaskList.PartitionCoversAll | src/components/TaskList.tsx:32 | the two views together show every task exactly once |
| TaskList.Reverse | src/components/TaskList.tsx:66 | `reverse` puts element i at position length-1-i |
| TaskList.DisplayedOrder | src/components/TaskList.tsx:66 | the list is shown newest first |
| TaskList.ControlsByView | src/components/TaskList.tsx:85-135 | delete is on every row; play/pause and complete appear exactly in the active view |
| TaskList.RowIdsDistinct | src/components/TaskList.tsx:66-68 | with distinct task ids, rows have distinct ids |
| TaskList.PauseGlyphOnlyOnActive | src/components/TaskList.tsx:101 | the pause glyph appears exactly on the active task's row in the active view, on at most one row |
| TaskList.RowCountersAndLabel | src/components/TaskList.tsx:115-116 | a row shows the pomodoro count, absent as 0, and the paused label exactly for paused tasks |
| TaskEntryModal.UniqueTitlesUpTo | src/components/TaskEntryModal.tsx:20 | each title once, ordered by first appearance, and every title present |
| TaskEntryModal.UniqueTitles | src/components/TaskEntryModal.tsx:20 | `new Set` of titles: each title once, in first-appearance order |
| TaskEntryModal.FirstWithTitle | src/components/TaskEntryModal.tsx:21 | `find` returns the first task carrying the title |
| TaskEntryModal.Representatives | src/components/TaskEntryModal.tsx:20-21 | one first-occurring task per title, in order, covering every task's title |
| TaskEntryModal.Matching | src/components/TaskEntryModal.tsx:22 | the filter keeps exactly the candidates whose lower-cased title includes the lower-cased input |
| TaskEntryModal.MatchingKeepsOrder | src/components/TaskEntryModal.tsx:22 | filtering keeps first-appearance order |
| TaskEntryModal.TakeFive | src/components/TaskEntryModal.tsx:23 | `slice(0,5)` is the first min(5, n) elements |
| TaskEntryModal.Suggestions | src/components/TaskEntryModal.tsx:19-24 | no suggestions for blank input, and at most 5 |
| TaskEntryModal.SuggestionsAreFirstMatches | src/components/TaskEntryModal.tsx:20-22 | each suggestion is the first task with its title and contains the input ignoring case |
| TaskEntryModal.SuggestionsInFirstAppearanceOrder | src/components/TaskEntryModal.tsx:20-23 | suggestions follow first appearance, so titles are distinct |
| TaskEntryModal.SuggestionsCompleteBelowFive | src/components/TaskEntryModal.tsx:22-23 | below five suggestions, every matching title is suggested |
| TaskEntryModal.SubmitIffNotBlank | src/components/TaskEntryModal.tsx:26-30 | submission happens exactly when the input has a non-space character, with the input untrimmed |
| TaskEntryModal.PickedSuggestionReusesTask | src/components/TaskEntryModal.tsx:79 | starting a clicked suggestion adds no task and sets the very task the suggestion shows in progress |
| TaskEntryModal.AIAssistSpec | src/components/TaskEntryModal.tsx:32-45 | assist acts exactly for non-blank input and a non-empty key; it never passes a plan; on failure it starts the raw input; it always takes the request path of the analysis |
| BreakView.HandOffReadsBack | src/components/BreakView.tsx:5-8 | the window starts at exactly the long-break seconds the dashboard stored |
| BreakView.TickSpec | src/components/BreakView.tsx:12-19 | a tick never goes negative, closes exactly when it reaches 0, and otherwise counts down by one |
| BreakView.CountdownTakesN | src/components/BreakView.tsx:12-19 | from n ≥ 1, close happens on the n-th tick and not before |
| BreakView.NaNNeverCloses | src/components/BreakView.tsx:12-19 | an unparsable stored duration never closes the window |
| BreakView.BreakTimer.constructor | src/components/BreakView.tsx:5-8 | the countdown starts at the parsed stored duration, or 300 when absent, with the interval running |
| BreakView.BreakTimer.Tick | src/components/BreakView.tsx:12-19 | applies the updater; the interval stops and close is requested exactly on the closing tick |
| BreakView.BreakTimer.Skip | src/components/BreakView.tsx:31-32 | requests close at once, changing nothing else |
| BreakView.BreakTimer.RunToClose | src/components/BreakView.tsx:10-23 | from n, max(n,1) ticks, one close request, ending at 0 |
| SettingsModal.LocalCopySpec | src/components/SettingsModal.tsx:13-16 | the local copy is the configuration, with empty AI settings when it has none |
| SettingsModal.HandleChangeSpec | src/components/SettingsModal.tsx:19-21 | a numeric edit stores the parsed value (0 on failure) in that field only |
| SettingsModal.HandleAIChangeSpec | src/components/SettingsModal.tsx:23-28 | an AI edit changes only that sub-field |
| SettingsModal.HandleLangChangeSpec | src/components/SettingsModal.tsx:30-32 | a language change sets only the language |
| SettingsModal.StepKeepsAiConfig | src/components/SettingsModal.tsx:19-32 | every edit keeps AI settings present, which the `!` relies on |
| SettingsModal.Steps | src/components/SettingsModal.tsx:19-32 | any run of edits keeps AI settings present and the open flag |
| SettingsModal.HandleSaveSpec | src/components/SettingsModal.tsx:34-37 | save hands the local copy over unchanged and closes, and reopening shows what was saved |
| SettingsModal.CancelKeepsEditsAsWritten | src/components/SettingsModal.tsx:39 | as written, a cancelled edit is still shown on reopening and is committed by the next save |
| SettingsModal.CancelDiscardsEdits | src/components/SettingsModal.tsx:139 | cancel that rebuilds the copy shows the current configuration on reopening, whatever was typed |
| TaskDetailsModal.SaveDetailsSpec | src/components/TaskDetailsModal.tsx:16-22 | save replaces only the plan; the editor reopens on the saved text; an unedited save changes nothing except absent becoming "" |
| TaskDetailsModal.DetailsTimeReadsBack | src/components/TaskDetailsModal.tsx:36-40 | `Hh Mm` with M below 60, accounting for the time to within a minute |
| TaskDetailsModal.MapByIdKeepsStatuses | src/components/Dashboard.tsx:192-228 | a per-task edit never removes a task's status |
| TaskDetailsModal.DashboardKeepsStatuses | src/components/Dashboard.tsx:176-241 | starting, toggling, any per-task edit and deleting all keep every task's status present |
| TaskDetailsModal.StatusLabelShowsStoredStatus | src/components/TaskDetailsModal.tsx:53 | a task with a status shows that status whatever the fallback labels are, so the completed/pending fallback shows only for stored records without one |
| TaskDetailsModal.StartedTargetShowsInProgress | src/components/TaskDetailsModal.tsx:53 | the task a session was just started on shows as in progress |
| TaskDetailsModal.StaleSaveLosesTime | src/components/TaskDetailsModal.tsx:19-22 | as written, a save after a tick restores the old focus time |
| TaskDetailsModal.SavePlan | src/components/TaskDetailsModal.tsx:19-22 | the corrected save, proved by induction over the list: the task with the id gets the new plan and every other task and every other field is unchanged |
| TaskDetailsModal.SavePlanCommutes | src/components/TaskDetailsModal.tsx:19-22 | the corrected save commutes with every other task edit, so no update is lost |
| TaskDetailsModal.SavePlanAgreesWhenCurrent | src/components/TaskDetailsModal.tsx:19-22 | with a current snapshot and distinct ids, the corrected and written saves agree |
| Ai.KeyPresentIff | src/utils/ai.ts:5 | a key is found exactly when config or env has a non-empty one, with config first |
| Ai.MockIffNoKey | src/utils/ai.ts:13-19 | each call returns its offline result exactly when there is no key, else it sends to `<base>/chat/completions` with a bearer key |
| Ai.BaseUrlOrder | src/utils/ai.ts:58-64 | the base URL order is config, env, default; the dev rewrite applies exactly to URLs containing the host |
| Ai.ModelChoice | src/utils/ai.ts:85 | the plan ignores the configured model; the reply and analysis use it when non-empty |
| Ai.MockTitleSpec | src/utils/ai.ts:130 | the offline title is the input up to 20 characters, else the first 20 plus "..." |
| Ai.MockStepsQuoteTheirInput | src/utils/ai.ts:126-138 | the offline plan and analysis have 3 steps, and the first quotes the title or input |
| Ai.TitlesWhereIsVisible | src/utils/ai.ts:189-190 | the collected titles are those of the tasks the same filter keeps, one for one |
| Ai.TitlesWhereInStoredOrder | src/utils/ai.ts:189-190 | the listed titles are exactly those of the tasks with the flag, in stored order |
| Ai.TitlesWhereAppend | src/utils/ai.ts:189-190 | titles are collected in stored order |
| Ai.ListTextSpec | src/utils/ai.ts:195-196 | "None" appears exactly for no titles or a single empty or "None" title; otherwise the joined titles |
| Ai.SummaryIgnoresOtherDates | src/utils/ai.ts:186-187 | sessions from other dates do not change the summary |
| Ai.SummaryWithoutTasks | src/utils/ai.ts:192-199 | with no tasks, both lists read "None" |

## Left out

- Storage, persistence effects, JSON parsing of stored values, and the Tauri commands. Host requests are recorded as `HostEvent`s: a notification, a tray title, or opening the break window. Storage writes are not modelled.
- Timers and React scheduling. An interval firing is a method call, and `RunUntilZero` and `RunToClose` stand for letting the interval run. The React bail-out on an unchanged state reference, and the closures' capture of stale state, are not modelled. The handlers' `setX` calls are applied in order.
- Dashboard.Pomodoro.ToggleTimer: toggles with no guard, as in the source. A stopped timer at 0 then completes on the next effect run. That effect run is `TimerComplete`, whose precondition is the effect's condition.
- Dashboard.Pomodoro.constructor: a stored `trees` value that does not parse is NaN in the source; the model takes an integer.
- Clock and calendar:
  - The ISO (UTC) date of today and of logged sessions is a parameter.
  - The calendar's local `YYYY-MM-DD` labels are a function `dateOf` from day numbers. Local calendar arithmetic, time zones, daylight-saving days, and the UTC-versus-local mismatch between session dates and calendar labels are not modelled.
- StatsView.CalendarAsWritten: assumes both clock reads fall on the same local day.
- Floating point:
  - the progress ring (`getProgress`, the circular progress component);
  - `toFixed(1)`, which is a parameter `minutesText` of `Ai.FormatDataForAI`;
  - fractional durations, since configuration values are integers after `parseInt`.
- The `Math.random` debug fill of the statistics view, the AI summary request of that view, and the plan generation button of the details dialog. The button would put an array where the plan text goes; it is not modelled because it needs the network.
- Network calls of the AI helper:
  - the `fetch`, HTTP errors and the parsing of the model's reply;
  - the `setTimeout` delay before an offline result.
  - A call is modelled as its offline result, or as the request it would send. The analysis outcome in the new-session dialog is a parameter.
- Presentation: translations and labels (passed in as parameters where shown), styles, and the browser `history.back()` fallback of the skip button.
- `parseInt` is modelled for decimal digits only (no `0x` prefix). `toLowerCase` is modelled for ASCII letters only, and `trim` for the common white space. Lengths count Unicode scalar values, not UTF-16 units, which matters for `substring(0, 20)` on non-BMP text.
- Subtasks are declared on the task type but are not used by the modelled code.

## Findings

| source | as written | input that shows it | evidently intended | confidence | as-written member | corrected member |
|---|---|---|---|---|---|---|
| src/components/StatsView.tsx:45-47 | `endDate` is read from the clock before `startDate`, and the loop stops at the first day whose time of day is after `endDate` | the second clock read lands 1 ms or more after the first: the day-365 instant is later than `endDate`, so today is dropped and 364 entries end yesterday | the 365 days ending today | medium, not executed | StatsView.CalendarAsWritten | StatsView.Calendar |
| src/components/Dashboard.tsx:50-54 | stored tasks keep `in_progress` while `activeTaskId` starts null, so the stored task is never paused by the next start | a task stored `in_progress`, then a restart, then starting "Review notes": two tasks are `in_progress` | at most one task in progress, the active one | high, not executed | DashboardScenarios.StartAfterRestartAsWritten | Dashboard.Pomodoro.Reload |
| src/components/SettingsModal.tsx:39 | the dialog stays mounted and only hides itself, so Cancel keeps the local edits | type 50 for work minutes, Cancel, reopen: 50 is shown while the configuration says 25, and Save commits it | Cancel discards unsaved edits | medium, not executed | SettingsModal.CancelKeepsEditsAsWritten | SettingsModal.CancelDiscardsEdits |
| src/components/TaskDetailsModal.tsx:19-22 | save writes back the task record captured when the dialog opened | open details of the running task, let one second tick, save: the tick's second is lost | only the plan changes | high, not executed | TaskDetailsModal.StaleSaveLosesTime | TaskDetailsModal.SavePlanCommutes |
