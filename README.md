# Pomodoro timer, task list and progress statistics — a Dafny model

The application is a browser Pomodoro timer. A countdown alternates focus sessions with short
breaks and, after every `longBreakInterval` focus sessions, a long break. Each finished focus
session adds to the statistics: total minutes, total pomodoros, a day streak and one entry per
day. It also gives the active task one more pomodoro. A task list supports add, edit, delete,
toggle, clear-finished, clear-all and select. A weekly tracker keeps the ids of the tasks
completed since this week's Monday. Around these sit the dialogs: the statistics view, the task
form and the settings form.

The model follows the program's structure, one module per source file:

- `types.dfy` (`Types`) — the records and defaults of `app/types/index.ts`.
- `timer.dfy` (`Timer`) — the `useTimer` hook. `getDurationForMode`, `getNextMode` and the
  tick are functions. The hook's state is the class `Timer.Timer`, whose methods are `start`,
  `pause`, `reset`, `switchMode`, `skip`, the once-per-second tick and the settings effect.
- `weekly.dfy` (`Weekly`) — the `useWeeklyProgress` hook. The week arithmetic and the
  list updates are functions, and the hook is the class `Weekly.WeeklyTracker`.
- `progress.dfy` (`Progress`) and `tasks.dfy` (`Tasks`) — the pure parts of the page
  handlers: the streak rule, the dailyStats upsert and the totals, and the `map`/`filter`
  updates of the task list.
- `page.dfy` (`Page`) — the page. The class `Page.App` holds the tasks, settings, progress and
  active id, and owns a timer and a weekly tracker. Each handler is a method, and the two
  `forEach` loops that release weekly ids are `while` loops. A ghost predicate
  `Page.App.Consistent` holds the page's invariant. Every handler preserves it, three of them
  under a condition that their callers meet: `SelectTask` needs an id that names a task
  or none (what a click passes, `TaskList.SelectShowsClickedTask`), `SaveSettings` needs valid
  settings (what the form holds, `SettingsModal.InputKeepsSettingsValid`), and `EditTask` needs
  the completion flag kept (what the form does, `TaskModal.Saved`). The invariant says:
  - statistics agree with their totals and have one entry per date;
  - task ids are unique;
  - the active id names a task;
  - the weekly list has no repetitions and each of its ids is a completed task;
  - the timer runs on the page's settings.
- `timer_card.dfy`, `progress_modal.dfy`, `task_modal.dfy`, `settings_modal.dfy` and
  `task_list.dfy` — the derivations of the components. The two forms are classes
  (`TaskModal.TaskForm`, `SettingsModal.SettingsForm`) because their fields are set step by
  step.
- `js.dfy` (`Js`) and `seqs.dfy` (`Seqs`) — the JavaScript operations the code relies on,
  with their JavaScript meaning:
  - truncated `%`;
  - `parseInt(...) || d`;
  - `toString`, `padStart(2, '0')` and `trim`;
  - `filter`, `map`, `findIndex` and `reduce`.

Representation choices:

- Dates are whole day numbers. Day 0 is 1970-01-01, a Thursday, so `getDay()` is `(d + 4) % 7`.
- "Today" and "now" are parameters.
- A JavaScript `null` is `None`. `parseInt` results are `Option<int>`, with `None` for NaN.
- A fresh task id and the creation time are parameters. The id is required to be non-empty
  and unused; this stands in for `crypto.randomUUID`.

Two behaviours of the code worth knowing, both modelled as written:

- The settings effect at `app/hooks/useTimer.ts:69-76` resets a paused timer to the *focus*
  duration whatever the mode. A paused break can then show more time than a break lasts
  (`Timer.SettingsChangeIgnoresMode`).
- The weekly list is checked against the current week only when it is loaded and in
  `completeTask`. `uncompleteTask`, the count and the membership test use the list as it is
  (`Weekly.Uncompleted`, `Weekly.WeeklyTracker.WeeklyCompletedCount`).

## Model

| member | source | states |
|---|---|---|
| Types.DefaultsAreSound | app/types/index.ts:51-56 | the default settings are ones the timer can run with: every duration and the interval at least 1 |
| Types.PersistenceFallbacksAgree | app/src/hooks/useLocalStorage.ts:55-67 | the fallbacks of the persistence layer are exactly the two defaults |
| Seqs.Filter | app/page.tsx:166 | the result holds exactly the elements satisfying the predicate, is no longer than the input, and is the input when all satisfy it |
| Seqs.FilterPartition | app/components/TaskList.tsx:39-40 | two complementary filters have lengths adding up to the input's |
| Seqs.FilterAppend | app/page.tsx:166 | filtering keeps order: a filtered concatenation is the concatenation of the filtered parts |
| Seqs.Map | app/page.tsx:158-160 | same length, each position the function applied to the input's element |
| Seqs.FindIndex | app/page.tsx:72 | -1 exactly when no element matches; otherwise a matching position with no match before it |
| Seqs.SumOfUpdate | app/page.tsx:76-80 | replacing one element changes the sum by the difference of the two values |
| Seqs.Remove | app/hooks/useWeeklyProgress.ts:113 | the result holds every element except the removed one, is the input when that was absent, and keeps a list free of repetitions free of them |
| Seqs.RemoveIsFilter | app/hooks/useWeeklyProgress.ts:113 | removing is `filter(y => y !== x)`: the other elements, in their original order |
| Seqs.RemoveAppend | app/hooks/useWeeklyProgress.ts:113 | removing from a concatenation removes from each part and keeps the parts in order |
| Seqs.RemoveAll | app/page.tsx:169 | removing the ids one after the other leaves exactly the elements not among them, and keeps a list free of repetitions free of them |
| Seqs.RemoveAllEmpty | app/page.tsx:164-186 | removing leaves nothing exactly when every element is among the removed ids |
| Seqs.NoDupCardinality | app/hooks/useWeeklyProgress.ts:120-122 | a list without repetitions has as many distinct elements as positions |
| Js.Rem | app/hooks/useTimer.ts:162 | JavaScript's `%`: Euclidean for a non-negative dividend, otherwise non-positive with magnitude below the divisor; in both cases the dividend minus the result is a multiple of the divisor, which fixes the value |
| Js.OrDefault | app/components/TaskModal.tsx:141 | `x \|\| d` on a parsed number: NaN and 0 give the default, any other number itself |
| Js.Digits | app/hooks/useTimer.ts:163 | `toString` of a natural number: one or more decimal digits, at most two below 100 |
| Js.PadStart2 | app/hooks/useTimer.ts:163 | `padStart(2, '0')`: at least two characters, the input as suffix, zeros in front |
| Js.DigitsValue | app/hooks/useTimer.ts:163 | reading the digits back gives the number |
| Js.PaddedValue | app/hooks/useTimer.ts:163 | padding to two places keeps the value and yields only digits |
| Js.FormatColonRoundTrip | app/hooks/useTimer.ts:160-164 | for a non-negative count, the text is the quotient by 60 in its digits padded to two, a colon and the remainder, below 60, in two digits; it reads back as the count |
| Js.FormatColonParts | app/hooks/useTimer.ts:161-162 | the floored quotient times 60 plus the remainder is the count, and the remainder is below 60 |
| Js.TrimStart | app/components/TaskModal.tsx:36 | a suffix whose dropped part is all white space and whose first character is not |
| Js.TrimEnd | app/components/TaskModal.tsx:36 | a prefix whose dropped part is all white space and whose last character is not |
| Js.Trim | app/components/TaskModal.tsx:36 | exactly the input with its leading and trailing white space dropped: the dropped parts at both ends are white space, the kept slice has none at either end, and it is empty exactly when the input is all white space |
| Js.TrimIdempotent | app/components/TaskModal.tsx:36-49 | trimming twice is trimming once |
| Timer.DurationFor | app/hooks/useTimer.ts:190-201 | focus lasts `focusDuration`, a break `breakDuration`, a long break `longBreakDuration` minutes; under valid settings each at least one |
| Timer.NextMode | app/hooks/useTimer.ts:207-223 | after a break always focus; after focus never focus, and a long break exactly when the session count plus one is a multiple of a non-zero interval |
| Timer.AfterCompletion | app/hooks/useTimer.ts:84-101 | the next mode, paused, one more session exactly when focus ended, at least a minute on the clock |
| Timer.TickCountsDown | app/hooks/useTimer.ts:103-106 | with more than one second left a tick only decrements the time and reports nothing |
| Timer.ExpiringTickIsSkipWithEvent | app/hooks/useTimer.ts:84-101 | the last second's tick reports the ending mode with its minutes and reaches the state a skip reaches |
| Timer.CountdownLength | app/hooks/useTimer.ts:82-108 | a running countdown of n seconds ticks n-1 times silently, and the n-th tick reports the completion and moves on |
| Timer.EvenCompletions | app/hooks/useTimer.ts:91-100 | after 2j completions from the start the timer is a fresh paused focus countdown with j sessions counted |
| Timer.Cadence | app/hooks/useTimer.ts:207-223 | the countdown after the m-th focus completion is a long break exactly when m is a multiple of the interval, otherwise a short break |
| Timer.SkipFourthFocus | app/hooks/useTimer.ts:143-157 | worked example: with the defaults, skipping the fourth focus session gives a paused 15-minute long break with 4 sessions counted |
| Timer.SettingsChangeIgnoresMode | app/hooks/useTimer.ts:69-76 | a paused break whose durations change restarts from the focus duration, which can exceed the break's length |
| Timer.Timer.constructor | app/hooks/useTimer.ts:25-30 | focus, the full focus duration, paused, no sessions; within the mode's duration under valid settings |
| Timer.Timer.Start | app/hooks/useTimer.ts:114-116 | only the running flag changes, and starting a running timer changes nothing |
| Timer.Timer.Pause | app/hooks/useTimer.ts:119-121 | only the running flag changes, and pausing a paused timer changes nothing |
| Timer.Timer.Reset | app/hooks/useTimer.ts:124-130 | the current mode's full duration, paused, mode and count unchanged |
| Timer.Timer.SwitchMode | app/hooks/useTimer.ts:133-140 | the chosen mode with its full duration, paused, count unchanged |
| Timer.Timer.Skip | app/hooks/useTimer.ts:143-157 | the same new state as an expiring tick, keeping the timer valid and within its mode's duration |
| Timer.Timer.Tick | app/hooks/useTimer.ts:83-107 | on the last second the completion event and the skip transition; otherwise one second less and nothing else changed; validity and the duration bound kept |
| Timer.Timer.ApplySettings | app/hooks/useTimer.ts:69-76 | the new settings; a paused timer whose durations changed shows the new focus duration; mode, flag and count unchanged |
| Timer.Timer.FormattedTime | app/hooks/useTimer.ts:160-164 | for a non-negative time, the minutes padded to two digits, a colon, then the seconds (below 60) in two digits; it reads back as the seconds left |
| TimerCard.SessionsUntilLongBreak | app/components/TimerCard.tsx:29 | NaN exactly for interval 0; otherwise between 1 and the interval, and the full interval exactly when the count is a multiple of it |
| TimerCard.OneLeftIffLongBreakNext | app/components/TimerCard.tsx:29 | the counter shows 1 exactly when the running focus session ends in a long break |
| TimerCard.CounterStepsDown | app/components/TimerCard.tsx:29 | a focus completion followed by a short break lowers the counter by one |
| TimerCard.CounterRestarts | app/components/TimerCard.tsx:29 | a focus completion followed by a long break restarts the counter at the interval |
| TimerCard.RemainderOfSuccessor | app/components/TimerCard.tsx:29 | one more session moves the remainder up by one, wrapping to 0 |
| TimerCard.MainButton | app/components/TimerCard.tsx:149 | the button pauses exactly when the timer runs |
| TimerCard.PressMainButton | app/components/TimerCard.tsx:149 | pressing flips the running flag and changes nothing else |
| Weekly.DayOfWeek | app/hooks/useWeeklyProgress.ts:23 | a weekday number from 0 to 6 |
| Weekly.WeekStart | app/hooks/useWeeklyProgress.ts:21-28 | a Monday at most six days back; six days back from a Sunday, weekday-1 days back otherwise |
| Weekly.WeekStartUnique | app/hooks/useWeeklyProgress.ts:21-28 | the Monday at most six days before a date is unique |
| Weekly.WeekStartIdempotent | app/hooks/useWeeklyProgress.ts:19-28 | the week start of a week start is itself |
| Weekly.WeekStartByWeekNumber | app/hooks/useWeeklyProgress.ts:21-28 | agrees with an independent week-numbering formula |
| Weekly.IsInCurrentWeek | app/hooks/useWeeklyProgress.ts:33-37 | true exactly when the date lies in the seven days from the current Monday |
| Weekly.Loaded | app/hooks/useWeeklyProgress.ts:41-68 | the current week always; the stored state when it is of this week, an empty list otherwise |
| Weekly.Completed | app/hooks/useWeeklyProgress.ts:84-105 | current week; the ids are this one plus, in the same week, the old ones; stale week gives exactly `[id]`; a present id changes nothing; an absent one is appended; no repetitions introduced |
| Weekly.Uncompleted | app/hooks/useWeeklyProgress.ts:110-115 | the week unchanged, the id gone, every other id kept (in order, by `Weekly.UncompletedKeepsOrder`), a no-op for an absent id, no repetitions introduced |
| Weekly.UncompletedKeepsOrder | app/hooks/useWeeklyProgress.ts:110-115 | the new list is the old one filtered on `x !== id`, so the other ids keep their order, and an id appended later is removed independently of the rest |
| Weekly.CompleteIdempotent | app/hooks/useWeeklyProgress.ts:95-98 | completing twice is completing once |
| Weekly.CompleteThenUncomplete | app/hooks/useWeeklyProgress.ts:100-115 | completing a new id in the current week and uncompleting it restores the state |
| Weekly.StaleLoadIsReset | app/hooks/useWeeklyProgress.ts:51-59 | a stored state of another week loads as the reset state |
| Weekly.CountIsDistinctTasks | app/hooks/useWeeklyProgress.ts:120-122 | without repetitions the length is the number of distinct ids |
| Weekly.WeeklyScenario | app/hooks/useWeeklyProgress.ts:84-122 | worked example: complete t1 twice, uncomplete it: counts 1, 1, 0; a week later the list loads empty and a completion starts it afresh |
| Weekly.WeeklyTracker.FromStorage | app/hooks/useWeeklyProgress.ts:41-68 | the loaded state; valid when reset or when the stored list had no repetitions |
| Weekly.WeeklyTracker.CompleteTask | app/hooks/useWeeklyProgress.ts:84-105 | the state becomes `Completed` of the old one, and validity is kept |
| Weekly.WeeklyTracker.UncompleteTask | app/hooks/useWeeklyProgress.ts:110-115 | the state becomes `Uncompleted` of the old one, and validity is kept |
| Weekly.WeeklyTracker.ResetWeeklyProgress | app/hooks/useWeeklyProgress.ts:134-140 | the reset state of the current week, valid |
| Weekly.WeeklyTracker.WeeklyCompletedCount | app/hooks/useWeeklyProgress.ts:120-122 | the list length, which is the number of distinct completed tasks |
| Weekly.WeeklyTracker.IsTaskCompletedThisWeek | app/hooks/useWeeklyProgress.ts:127-129 | membership in the list, which implies a count of at least one |
| Progress.NewStreak | app/page.tsx:56-69 | 1 without a last date or after a gap; one more the next day; unchanged on the same day or earlier; at least 1 when the old streak was |
| Progress.StatIndex | app/page.tsx:72 | -1 exactly when no entry has the date; otherwise the first entry with it |
| Progress.StatOn | app/components/ProgressModal.tsx:20 | none exactly when no entry has the date; otherwise an entry of that date, the only one when dates are unique |
| Progress.UpsertStatToday | app/page.tsx:72-87 | today's entry becomes the old one bumped (or a new one); the length grows exactly when there was none |
| Progress.UpsertStatOthers | app/page.tsx:72-87 | every entry of another date stays in place and looks up the same |
| Progress.UpsertStatSums | app/page.tsx:72-87 | the summed minutes grow by the duration and the summed pomodoros by one |
| Progress.UpsertStatUniqueDates | app/page.tsx:72-87 | no second entry for a date is ever created |
| Progress.UpsertStatPositive | app/page.tsx:72-87 | every entry keeps at least one pomodoro |
| Progress.DefaultProgressConsistent | app/types/index.ts:58-64 | the default progress satisfies the statistics invariant |
| Progress.RecordFocusConsistent | app/page.tsx:51-108 | a focus completion preserves the statistics invariant (totals equal sums, unique dates, last date present with a streak of at least one) |
| Progress.StreakOverConsecutiveDays | app/page.tsx:56-69 | work on n consecutive days after the last active one lengthens the streak by n |
| Progress.FourSessionsOnFirstDay | app/page.tsx:48-109 | worked example: four 25-minute sessions on the first day: 4 pomodoros, 100 minutes, streak 1, one entry |
| Tasks.FindById | app/page.tsx:147 | a task exactly when one has the id; it has the id; it is the one when ids are unique |
| Tasks.IncrementActualSpec | app/page.tsx:90-98 | exactly the tasks with the id gain one pomodoro, the total grows by one, an unknown id changes nothing |
| Tasks.IncrementKeepsIds | app/page.tsx:90-98 | the increment keeps ids unique, and keeps which ids exist and which are completed |
| Tasks.ToggleTwice | app/page.tsx:158-160 | toggling twice restores the list |
| Tasks.ToggleSpec | app/page.tsx:158-160 | ids stay in place; only the target's completion flips; an unknown id changes nothing |
| Tasks.SameIdsSameTasks | app/page.tsx:158-160 | lists with the same ids position by position agree on uniqueness and on which ids exist |
| Tasks.SameIdsAndFlags | app/page.tsx:158-160 | lists with the same ids and flags position by position agree on which ids are completed |
| Tasks.ReplaceSpec | app/page.tsx:128-129 | ids stay in place, the payload sits where its id was and is found by it, an unknown id changes nothing |
| Tasks.ReplaceKeepsCompleted | app/page.tsx:128-129 | an edit that keeps the flag keeps which ids are completed |
| Tasks.FilterUniqueIds | app/page.tsx:166 | a filter keeps ids unique |
| Tasks.RemoveByIdSpec | app/page.tsx:135 | deleting drops exactly the tasks with the id and keeps every other task and its state |
| Tasks.CompletedIdsSpec | app/page.tsx:167 | the removed ids are exactly the ids of completed tasks |
| Tasks.CompletedIdsSnoc | app/page.tsx:179-183 | the completed ids of a list grown by one task grow by that task's id exactly when it is completed |
| Page.ProgressAfterFocus | app/page.tsx:51-108 | the in-place upsert and the streak computation give `Progress.RecordFocus` of the old progress |
| Page.App.constructor | app/page.tsx:19-38 | the given state, a fresh timer in its initial state and a tracker loaded from storage; an empty start is consistent |
| Page.App.HandleTimerComplete | app/page.tsx:48-110 | only focus counts: the progress becomes `RecordFocus`, the active task gains a pomodoro when the id is truthy, and consistency is kept |
| Page.App.TimerTick | app/hooks/useTimer.ts:83-101 | the timer takes one tick step; on a focus completion the progress is `RecordFocus` of the old one and the active task (when the id is truthy) gains a pomodoro; otherwise progress and tasks are unchanged; consistency is kept |
| Page.App.AddTask | app/page.tsx:116-126 | a new unfinished task with no pomodoros is appended; consistency is kept |
| Page.App.EditTask | app/page.tsx:128-132 | the payload replaces the task with its id; consistency is kept when the flag is unchanged |
| Page.App.DeleteTask | app/page.tsx:134-143 | the task and its weekly membership go; the active id is cleared exactly when it named the task; consistency is kept |
| Page.App.ToggleTaskComplete | app/page.tsx:145-162 | the flag flips; completing enters the weekly list, reopening leaves it; an unknown id changes nothing; afterwards weekly membership matches completion |
| Page.App.ClearFinishedTasks | app/page.tsx:164-175 | exactly the unfinished tasks remain in order; every removed id is released; the active id is cleared when removed; on a consistent page the weekly list ends empty |
| Page.App.ClearAllTasks | app/page.tsx:177-186 | finished tasks released, the list and the active id cleared; on a consistent page the weekly list ends empty |
| Page.App.ReleaseIds | app/page.tsx:169 | the loop leaves the weekly list with every given id removed, in order |
| Page.App.ReleaseFinished | app/page.tsx:179-183 | the loop leaves the weekly list with every finished task's id removed |
| Page.App.SelectTask | app/page.tsx:188-190 | the active id becomes the given one, nothing else changes |
| Page.App.SaveSettings | app/page.tsx:193-196 | the page and the timer take the new settings and the timer reacts as its effect does |
| Page.ReleasedRemovesCompleted | app/page.tsx:179-183 | releasing task by task equals removing all completed ids at once |
| Page.ClearedWeekIsEmpty | app/page.tsx:164-186 | when every weekly id is a completed task, releasing all completed ids empties the list |
| ProgressModal.HoursAndMinutes | app/components/ProgressModal.tsx:15-16 | hours times 60 plus minutes is the total, minutes below 60 |
| ProgressModal.TodayFocusTime | app/components/ProgressModal.tsx:20-21 | today's entry's minutes, 0 without one |
| ProgressModal.TodayPomodoros | app/components/ProgressModal.tsx:20-22 | today's entry's pomodoros, 0 without one |
| ProgressModal.TodayAfterFocus | app/components/ProgressModal.tsx:20-22 | a focus completion today adds one pomodoro and its minutes to today's figures |
| ProgressModal.RowsSpec | app/components/ProgressModal.tsx:26-32 | exactly the worked tasks give rows, each with 25 minutes per pomodoro |
| ProgressModal.Insert | app/components/ProgressModal.tsx:33 | inserting adds exactly one row to the multiset |
| ProgressModal.SortedHead | app/components/ProgressModal.tsx:33 | in a sorted list no row has more time than the first |
| ProgressModal.ConsSorted | app/components/ProgressModal.tsx:33 | a head at least as large as the sorted rest keeps the list sorted |
| ProgressModal.InsertSorted | app/components/ProgressModal.tsx:33 | inserting into a sorted list keeps it sorted |
| ProgressModal.SortByTime | app/components/ProgressModal.tsx:33 | the sort is a permutation of its input |
| ProgressModal.SortByTimeSpec | app/components/ProgressModal.tsx:33 | the sort is a permutation of its input, of the same length, in non-increasing time |
| ProgressModal.TopFiveSpec | app/components/ProgressModal.tsx:34 | the first five of a sorted list: min(5, length) rows, sorted, a sub-multiset of it, and no row left behind (equal rows counted separately) has more time than one taken |
| ProgressModal.TaskBreakdownSpec | app/components/ProgressModal.tsx:25-35 | at most five rows, as many as worked tasks up to five, sorted, a sub-multiset of the rows, and no row left out (equal rows of same-named tasks counted separately) has more time than a row shown |
| ProgressModal.TaskBreakdownRows | app/components/ProgressModal.tsx:27-31 | every row shown comes from a worked task, with 25 minutes per pomodoro |
| ProgressModal.BreakdownTotalIsPomodoros | app/components/ProgressModal.tsx:184 | the total row is 25 minutes times the pomodoros of the rows |
| ProgressModal.RowsAtLeastOne | app/components/ProgressModal.tsx:184 | rows of at least one pomodoro sum to at least their number |
| ProgressModal.BreakdownTotalSpec | app/components/ProgressModal.tsx:184 | the breakdown's total is 25 per pomodoro shown and at least 25 per row |
| ProgressModal.FormatTime | app/components/ProgressModal.tsx:38-42 | for a non-negative count, the hours padded to two digits, a colon, then the minutes (below 60) in two digits; it reads back as the count |
| TaskModal.EstimatedInput | app/components/TaskModal.tsx:141 | between 1 and 50; NaN or 0 gives 1; in-range values kept; above 50 gives 50; negatives give 1 |
| TaskModal.ActualInput | app/components/TaskModal.tsx:126 | at least 0; non-negative values kept; NaN, 0 and negatives give 0 |
| TaskModal.InputsKeepValuesInRange | app/components/TaskModal.tsx:126-141 | values already in range pass unchanged, so the clamp is idempotent |
| TaskModal.OpenedWith | app/components/TaskModal.tsx:21-33 | an edit loads the task's three values; a new task gives `('', 1, 0)` |
| TaskModal.Saved | app/components/TaskModal.tsx:35-53 | nothing exactly for a blank title; an edit keeps id, creation time and flag and takes the trimmed title and both counts; a creation hands over the trimmed title and estimate; a handed-over title is never empty |
| TaskModal.OpenThenSaveIsIdentity | app/components/TaskModal.tsx:21-53 | opening a task with a trimmed title and saving hands it back unchanged |
| TaskModal.SaveTrimsTitle | app/components/TaskModal.tsx:36-51 | saving sees the title only through its trimmed form |
| TaskModal.TaskForm.constructor | app/components/TaskModal.tsx:16-18 | the form starts as `('', 1, 0)` |
| TaskModal.TaskForm.Open | app/components/TaskModal.tsx:21-33 | the form becomes `OpenedWith` the task |
| TaskModal.TaskForm.SetTitle | app/components/TaskModal.tsx:104 | only the title changes |
| TaskModal.TaskForm.InputEstimated | app/components/TaskModal.tsx:141 | only the estimate changes, to the clamped value in 1..50 |
| TaskModal.TaskForm.InputActual | app/components/TaskModal.tsx:126 | only the actual count changes, to the clamped value of at least 0 |
| TaskModal.TaskForm.Save | app/components/TaskModal.tsx:35-53 | the payload is `Saved` of the form, none exactly for a blank title |
| SettingsModal.Clamped | app/src/components/SettingsModal.tsx:87 | in 1..hi; NaN or 0 gives the default; in-range kept; above gives hi; negatives give 1 |
| SettingsModal.DefaultFor | app/src/components/SettingsModal.tsx:87-138 | every default lies within its input's range |
| SettingsModal.InputValue | app/src/components/SettingsModal.tsx:87-138 | each input's value lies in its range, NaN or 0 gives its default, in-range values kept |
| SettingsModal.InputRules | app/src/components/SettingsModal.tsx:87-138 | focus 1..60 (25), break 1..30 (5), interval 1..10 (4), long break 1..60 (15) |
| SettingsModal.WithSetting | app/src/components/SettingsModal.tsx:34-39 | the named field takes the value and every other field is kept |
| SettingsModal.SettingsExtensional | app/src/components/SettingsModal.tsx:34-39 | settings with the same four fields are equal |
| SettingsModal.WithSettingLaws | app/src/components/SettingsModal.tsx:34-39 | writing a field's own value changes nothing; a second write to a field overrides the first |
| SettingsModal.InputKeepsSettingsValid | app/src/components/SettingsModal.tsx:82-138 | whatever is typed, the form's settings stay valid for the timer |
| SettingsModal.SettingsForm.constructor | app/src/components/SettingsModal.tsx:16 | the local copy starts as the passed-in settings |
| SettingsModal.SettingsForm.Open | app/src/components/SettingsModal.tsx:19-23 | opening restores the passed-in settings |
| SettingsModal.SettingsForm.Close | app/src/components/SettingsModal.tsx:29-32 | cancelling discards edits and restores the passed-in settings |
| SettingsModal.SettingsForm.UpdateSetting | app/src/components/SettingsModal.tsx:34-39 | only the named field changes |
| SettingsModal.SettingsForm.Input | app/src/components/SettingsModal.tsx:87-138 | the clamped value goes into its field, keeping the settings valid |
| SettingsModal.SettingsForm.Save | app/src/components/SettingsModal.tsx:25-27 | the local settings are handed over as they stand |
| TaskList.Partition | app/components/TaskList.tsx:39-40 | every task is in exactly one half and the lengths add up |
| TaskList.AllTasksCompleted | app/components/TaskList.tsx:43 | true exactly when there is a task and every task is done |
| TaskList.AllCompletedIffNothingPending | app/components/TaskList.tsx:39-43 | all done exactly when the list is not empty and nothing is pending |
| TaskList.ActiveTask | app/components/TaskList.tsx:38 | a task of the list carrying the active id; none exactly when there is no active id or no task has it |
| TaskList.ActiveTaskUnique | app/components/TaskList.tsx:38 | with unique ids it is the one task with the active id |
| TaskList.SelectValue | app/components/TaskList.tsx:148 | null exactly when the clicked task is active, its id otherwise |
| TaskList.SelectTwice | app/components/TaskList.tsx:148 | two clicks on a task restore the selection when it was this task or none |
| TaskList.SelectShowsClickedTask | app/components/TaskList.tsx:38-148 | after a click the active task is the clicked one, or none when it was active |
| TaskList.MiniIndicatorDots | app/components/TaskList.tsx:207-214 | at most five dots; some exactly for a pending task with pomodoros; one per pomodoro up to five |
| TaskList.ClearFinishedEnabled | app/components/TaskList.tsx:77 | enabled exactly when some task is done |
| TaskList.ClearAllEnabled | app/components/TaskList.tsx:85 | enabled exactly when there is a task |
| TaskList.ClearButtons | app/components/TaskList.tsx:77-85 | "clear finished" enabled implies "clear all" enabled; when all are done both clear the same tasks |

## Left out

- Rendering, animation, CSS classes, `document.title`, the music player and the motivational
  quotes: these are presentation or randomness, not logic.
- Scheduling: `setInterval`/`clearInterval` are not modelled. The tick is a method called once
  per logical second, and only while the timer runs, as the interval exists only then.
- The completion sound (Web Audio): a best-effort side effect with no state.
- Persistence and JSON: `localStorage` reads and writes are not modelled. Stored values are
  constructor parameters (`None` when missing or unparsable), and writes are not modelled.
- The clock and time zones: `new Date()`, `toISOString` and time-zone effects are replaced by
  day numbers passed in. The day-number difference stands in for `Math.floor` of the
  millisecond difference.
- `crypto.randomUUID` and `Date.now`: the fresh id and the creation time are parameters, and
  the id is required to be non-empty and unused.
- Floating-point percentages: the timer's progress percentage, the task-completion percentage
  and the weekly bar are not modelled.
- React timing: setter batching, stale closures and side effects inside updaters are not
  modelled. Each handler is one sequential atomic step.
- The older `app/src/components/TaskList.tsx`: its select-toggle and clear-button rules are
  those of `app/components/TaskList.tsx`, which are modelled.
- The `default` branch of `getDurationForMode`: it is unreachable, because the mode type has
  three values.
- ProgressModal.SortByTime: stability is not proved. Rows with the same time keep their list
  order by construction, but no lemma states it.
- ProgressModal.HoursAndMinutes: stated only for a non-negative total. The totals are sums of
  positive durations, and for a negative total floor and truncated remainder do not recompose.
- Page.App.TimerTick: requires the timer to be running, because the interval callback exists
  only while it runs.
- Page.App.EditTask: consistency is promised only when the edit keeps the task's completion
  flag. The form always keeps it.
- Weekly.Uncompleted: the week is not checked, as in the code, so a stale list can still be
  shortened.
