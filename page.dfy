/** The page: the task list, the settings, the statistics and the active task id, together with
    the timer and the weekly tracker it owns. Each handler is one atomic step. */
module Page {
  import opened Types
  import Seqs
  import Progress
  import Tasks
  import Timer
  import Weekly

  /** `if (activeTaskId)`: an id is there and is not the empty string. */
  predicate Truthy(id: Option<string>)
  {
    id.Some? && id.value != ""
  }

  /** The `setProgress` updater of `handleTimerComplete`: the streak by the day difference,
      today's entry bumped in place or appended, and the totals. */
  method ProgressAfterFocus(prev: UserProgress, today: Day, duration: int) returns (next: UserProgress)
    ensures next == Progress.RecordFocus(prev, today, duration)
  {
    var lastActive := prev.lastActiveDate;
    var newStreak := prev.currentStreak;
    if lastActive.Some? {
      var diffDays := today - lastActive.value;
      if diffDays == 1 {
        newStreak := prev.currentStreak + 1;
      } else if diffDays > 1 {
        newStreak := 1;
      }
    } else {
      newStreak := 1;
    }
    var existingStatIndex := Progress.StatIndex(prev.dailyStats, today);
    var newDailyStats := prev.dailyStats;
    if existingStatIndex >= 0 {
      var existing := newDailyStats[existingStatIndex];
      newDailyStats := newDailyStats[existingStatIndex :=
        existing.(focusTime := existing.focusTime + duration,
                  pomodorosCompleted := existing.pomodorosCompleted + 1)];
    } else {
      newDailyStats := newDailyStats + [DailyStat(today, duration, 1)];
    }
    next := UserProgress(prev.totalFocusTime + duration, prev.totalPomodorosCompleted + 1,
                         newStreak, Some(today), newDailyStats);
  }

  class App {
    var tasks: seq<Task>
    var settings: TimerSettings
    var progress: UserProgress
    var activeTaskId: Option<string>
    const timer: Timer.Timer
    const weekly: Weekly.WeeklyTracker

    /** What the handlers keep: consistent statistics; unique, non-empty task ids; an active id
        that names a task; a weekly list without repetitions whose every id is a completed
        task; and a timer running on the page's settings. */
    ghost predicate Consistent()
      reads this, timer, weekly
    {
      Progress.ProgressConsistent(progress) &&
      Tasks.UniqueIds(tasks) && !Tasks.HasTask(tasks, "") &&
      (activeTaskId.Some? ==> Tasks.HasTask(tasks, activeTaskId.value)) &&
      weekly.Valid() &&
      (forall x :: x in weekly.completedTasks ==> Tasks.HasCompletedTask(tasks, x)) &&
      timer.settings == settings && timer.Valid()
    }

    /** The page as it mounts, given what storage returned for each piece of state. */
    constructor (tasks: seq<Task>, settings: TimerSettings, progress: UserProgress,
                 activeTaskId: Option<string>, storedWeekly: Option<Weekly.WeeklyProgress>, today: Day)
      ensures this.tasks == tasks && this.settings == settings
      ensures this.progress == progress && this.activeTaskId == activeTaskId
      ensures timer.settings == settings && timer.State() == Timer.InitialState(settings)
      ensures weekly.Value() == Weekly.Loaded(storedWeekly, today)
      ensures fresh(timer) && fresh(weekly)
      ensures (tasks == [] && progress == DefaultProgress && activeTaskId == None &&
               storedWeekly == None && ValidSettings(settings)) ==> Consistent()
    {
      this.tasks := tasks;
      this.settings := settings;
      this.progress := progress;
      this.activeTaskId := activeTaskId;
      timer := new Timer.Timer(settings);
      weekly := new Weekly.WeeklyTracker.FromStorage(storedWeekly, today);
      new;
      Progress.DefaultProgressConsistent();
    }

    /** `handleTimerComplete`: only a focus completion counts. It updates the streak, today's
        entry and the totals, and gives the active task one more pomodoro. */
    method HandleTimerComplete(mode: TimerMode, duration: int, today: Day)
      modifies this
      ensures mode != Focus ==> progress == old(progress) && tasks == old(tasks)
      ensures mode == Focus ==> progress == Progress.RecordFocus(old(progress), today, duration)
      ensures mode == Focus && Truthy(activeTaskId) ==> tasks == Tasks.IncrementActual(old(tasks), activeTaskId.value)
      ensures mode == Focus && !Truthy(activeTaskId) ==> tasks == old(tasks)
      ensures activeTaskId == old(activeTaskId) && settings == old(settings)
      ensures old(Consistent()) ==> Consistent()
    {
      ghost var wasConsistent := Consistent();
      if mode == Focus {
        ghost var prev := progress;
        progress := ProgressAfterFocus(progress, today, duration);
        if Truthy(activeTaskId) {
          ghost var before := tasks;
          tasks := Tasks.IncrementActual(tasks, activeTaskId.value);
          if wasConsistent {
            Tasks.IncrementKeepsIds(before, activeTaskId.value);
          }
        }
        if wasConsistent {
          Progress.RecordFocusConsistent(prev, today, duration);
        }
      }
    }

    /** One second of the timer, with the completion (if any) handed to `HandleTimerComplete`. */
    method TimerTick(today: Day) returns (completion: Option<Timer.Completion>)
      requires timer.isRunning
      modifies this, timer
      ensures timer.State() == Timer.TickStep(old(timer.State()), old(timer.settings))
      ensures completion == Timer.TickEvent(old(timer.State()), old(timer.settings))
      ensures completion.None? || completion.value.mode != Focus ==> progress == old(progress) && tasks == old(tasks)
      ensures completion.Some? && completion.value.mode == Focus ==>
        progress == Progress.RecordFocus(old(progress), today, completion.value.duration)
      ensures completion.Some? && completion.value.mode == Focus ==>
        tasks == (if Truthy(old(activeTaskId)) then Tasks.IncrementActual(old(tasks), old(activeTaskId).value)
                  else old(tasks))
      ensures activeTaskId == old(activeTaskId) && settings == old(settings) && timer.settings == old(timer.settings)
      ensures old(Consistent()) ==> Consistent()
    {
      ghost var wasConsistent := Consistent();
      completion := timer.Tick();
      assert wasConsistent ==> timer.Valid() && timer.settings == settings;
      if completion.Some? {
        HandleTimerComplete(completion.value.mode, completion.value.duration, today);
      }
    }

    /** `handleAddTask`: a new, unfinished task with no pomodoros at the end of the list. */
    method AddTask(task: NewTask, freshId: string, createdAt: int)
      requires freshId != "" && !Tasks.HasTask(tasks, freshId)
      modifies this
      ensures tasks == old(tasks) + [Tasks.Created(task, freshId, createdAt)]
      ensures tasks[|tasks| - 1].actualPomodoros == 0 && !tasks[|tasks| - 1].completed
      ensures progress == old(progress) && activeTaskId == old(activeTaskId) && settings == old(settings)
      ensures old(Consistent()) ==> Consistent()
    {
      ghost var before := tasks;
      var newTask := Task(freshId, task.title, task.estimatedPomodoros, 0, false, createdAt);
      tasks := tasks + [newTask];
      assert forall t :: t in before ==> t in tasks;
      assert forall t :: t in tasks ==> t in before || t == newTask;
      assert forall k :: 0 <= k < |before| ==> before[k] in before;
    }

    /** `handleEditTask`: the task with the payload's id replaced by the payload. The form keeps
        the completion flag, and then the page stays consistent. */
    method EditTask(task: Task)
      modifies this
      ensures tasks == Tasks.ReplaceById(old(tasks), task)
      ensures progress == old(progress) && activeTaskId == old(activeTaskId) && settings == old(settings)
      ensures old(Consistent()) &&
        (Tasks.FindById(old(tasks), task.id).None? || Tasks.FindById(old(tasks), task.id).value.completed == task.completed)
        ==> Consistent()
    {
      ghost var wasConsistent := Consistent();
      var before := tasks;
      tasks := Tasks.ReplaceById(tasks, task);
      if wasConsistent {
        Tasks.ReplaceSpec(before, task);
        var found := Tasks.FindById(before, task.id);
        if found.Some? && found.value.completed == task.completed {
          Tasks.ReplaceKeepsCompleted(before, task);
        }
      }
    }

    /** `handleDeleteTask`: the task goes, its weekly membership goes, and the active id is
        cleared when it named that task. */
    method DeleteTask(taskId: string)
      modifies this, weekly
      ensures tasks == Tasks.RemoveById(old(tasks), taskId)
      ensures weekly.Value() == Weekly.Uncompleted(old(weekly.Value()), taskId)
      ensures activeTaskId == if old(activeTaskId) == Some(taskId) then None else old(activeTaskId)
      ensures progress == old(progress) && settings == old(settings)
      ensures old(Consistent()) ==> Consistent()
    {
      ghost var wasConsistent := Consistent();
      var before := tasks;
      tasks := Tasks.RemoveById(tasks, taskId);
      if taskId in weekly.completedTasks {
        weekly.UncompleteTask(taskId);
      }
      if activeTaskId == Some(taskId) {
        activeTaskId := None;
      }
      if wasConsistent {
        Tasks.RemoveByIdSpec(before, taskId);
      }
    }

    /** `handleToggleTaskComplete`: a task being finished enters this week's list, a task being
        reopened leaves it, and its flag flips; an unknown id changes nothing. */
    method ToggleTaskComplete(taskId: string, today: Day)
      modifies this, weekly
      ensures tasks == Tasks.ToggleById(old(tasks), taskId)
      ensures weekly.Value() == match Tasks.FindById(old(tasks), taskId)
        case None => old(weekly.Value())
        case Some(t) =>
          if !t.completed then Weekly.Completed(old(weekly.Value()), taskId, today)
          else Weekly.Uncompleted(old(weekly.Value()), taskId)
      ensures progress == old(progress) && activeTaskId == old(activeTaskId) && settings == old(settings)
      ensures old(Consistent()) ==> Consistent()
      ensures old(Consistent()) && Tasks.HasTask(old(tasks), taskId) ==>
        (taskId in weekly.completedTasks <==> Tasks.HasCompletedTask(tasks, taskId))
    {
      ghost var wasConsistent := Consistent();
      var before := tasks;
      var task := Tasks.FindById(tasks, taskId);
      if task.Some? {
        if !task.value.completed {
          weekly.CompleteTask(taskId, today);
        } else {
          weekly.UncompleteTask(taskId);
        }
      }
      tasks := Tasks.ToggleById(tasks, taskId);
      if wasConsistent {
        Tasks.ToggleSpec(before, taskId);
        if task.Some? {
          assert Tasks.HasCompletedTask(before, taskId) <==> task.value.completed by {
            if Tasks.HasCompletedTask(before, taskId) {
              var t :| t in before && t.id == taskId && t.completed;
              var k :| 0 <= k < |before| && before[k] == t;
            }
          }
        }
      }
    }

    /** `handleClearFinishedTasks`: only the unfinished tasks remain, in order; every removed id
        is released from the weekly list, one after the other; the active id is cleared when it
        named a removed task. On a consistent page this leaves the weekly list empty. */
    method ClearFinishedTasks()
      modifies this, weekly
      ensures tasks == Seqs.Filter(old(tasks), IsPending)
      ensures weekly.weekStartDate == old(weekly.weekStartDate)
      ensures weekly.completedTasks == Seqs.RemoveAll(old(weekly.completedTasks), Tasks.CompletedIds(old(tasks)))
      ensures activeTaskId ==
        if Truthy(old(activeTaskId)) && old(activeTaskId).value in Tasks.CompletedIds(old(tasks)) then None
        else old(activeTaskId)
      ensures progress == old(progress) && settings == old(settings)
      ensures old(Consistent()) ==> Consistent() && weekly.completedTasks == []
    {
      ghost var wasConsistent := Consistent();
      var before := tasks;
      var remaining := Seqs.Filter(tasks, IsPending);
      var removedIds := Tasks.CompletedIds(tasks);
      ReleaseIds(removedIds);
      if Truthy(activeTaskId) && activeTaskId.value in removedIds {
        activeTaskId := None;
      }
      tasks := remaining;
      if wasConsistent {
        Tasks.CompletedIdsSpec(before);
        Tasks.FilterUniqueIds(before, IsPending);
        ClearedWeekIsEmpty(old(weekly.completedTasks), before, weekly.completedTasks);
        if activeTaskId.Some? {
          var t :| t in before && t.id == activeTaskId.value;
          assert t in tasks;
        }
      }
    }

    /** `handleClearAllTasks`: every finished task is released from the weekly list, then the
        list and the active id are cleared. On a consistent page this leaves the weekly list
        empty. */
    method ClearAllTasks()
      modifies this, weekly
      ensures tasks == [] && activeTaskId == None
      ensures weekly.weekStartDate == old(weekly.weekStartDate)
      ensures weekly.completedTasks == Seqs.RemoveAll(old(weekly.completedTasks), Tasks.CompletedIds(old(tasks)))
      ensures progress == old(progress) && settings == old(settings)
      ensures old(Consistent()) ==> Consistent() && weekly.completedTasks == []
    {
      ghost var wasConsistent := Consistent();
      ghost var week := weekly.completedTasks;
      var all := tasks;
      ReleaseFinished(all);
      if wasConsistent {
        Tasks.CompletedIdsSpec(all);
        ClearedWeekIsEmpty(week, all, weekly.completedTasks);
      }
      tasks := [];
      activeTaskId := None;
    }

    /** The loop of `handleClearFinishedTasks`: each id of `ids`, in order, released from the
        weekly list. */
    method ReleaseIds(ids: seq<string>)
      modifies weekly
      ensures weekly.weekStartDate == old(weekly.weekStartDate)
      ensures weekly.completedTasks == Seqs.RemoveAll(old(weekly.completedTasks), ids)
      ensures old(weekly.Valid()) ==> weekly.Valid()
    {
      ghost var week := weekly.completedTasks;
      var i := 0;
      while i < |ids|
        invariant 0 <= i <= |ids|
        invariant weekly.weekStartDate == old(weekly.weekStartDate)
        invariant weekly.completedTasks == Seqs.RemoveAll(week, ids[..i])
      {
        ghost var next := Seqs.Remove(weekly.completedTasks, ids[i]);
        assert ids[..i + 1][..i] == ids[..i];
        assert next == Seqs.RemoveAll(week, ids[..i + 1]);
        weekly.UncompleteTask(ids[i]);
        assert weekly.completedTasks == next;
        i := i + 1;
      }
      assert ids[..i] == ids;
    }

    /** The loop of `handleClearAllTasks`: each finished task of `all`, in order, released from
        the weekly list. */
    method ReleaseFinished(all: seq<Task>)
      modifies weekly
      ensures weekly.weekStartDate == old(weekly.weekStartDate)
      ensures weekly.completedTasks == Seqs.RemoveAll(old(weekly.completedTasks), Tasks.CompletedIds(all))
      ensures old(weekly.Valid()) ==> weekly.Valid()
    {
      ghost var week := weekly.completedTasks;
      var i := 0;
      while i < |all|
        invariant 0 <= i <= |all|
        invariant weekly.weekStartDate == old(weekly.weekStartDate)
        invariant weekly.completedTasks == Released(week, all[..i])
      {
        assert all[..i + 1][..i] == all[..i];
        if all[i].completed {
          weekly.UncompleteTask(all[i].id);
        }
        i := i + 1;
      }
      assert all[..i] == all;
      ReleasedRemovesCompleted(week, all);
    }

    /** `handleSelectTask`: any id, or none. */
    method SelectTask(taskId: Option<string>)
      modifies this
      ensures activeTaskId == taskId
      ensures tasks == old(tasks) && progress == old(progress) && settings == old(settings)
      ensures old(Consistent()) && (taskId.None? || Tasks.HasTask(tasks, taskId.value)) ==> Consistent()
    {
      activeTaskId := taskId;
    }

    /** `handleSaveSettings`: the new settings, and the timer's reaction to them. */
    method SaveSettings(newSettings: TimerSettings)
      modifies this, timer
      ensures settings == newSettings && timer.settings == newSettings
      ensures timer.State() == Timer.AfterSettingsChange(old(timer.State()), old(timer.settings), newSettings)
      ensures tasks == old(tasks) && progress == old(progress) && activeTaskId == old(activeTaskId)
      ensures old(Consistent()) && ValidSettings(newSettings) ==> Consistent()
    {
      settings := newSettings;
      timer.ApplySettings(newSettings);
    }
  }

  /** The weekly list after the finished tasks of `tasks`, in order, have been released. */
  function Released(week: seq<string>, tasks: seq<Task>): seq<string>
    decreases |tasks|
  {
    if tasks == [] then week
    else
      var earlier := Released(week, tasks[..|tasks| - 1]);
      var last := tasks[|tasks| - 1];
      if last.completed then Seqs.Remove(earlier, last.id) else earlier
  }

  /** Releasing task by task is removing the released ids in one go. */
  lemma {:induction false} ReleasedRemovesCompleted(week: seq<string>, tasks: seq<Task>)
    ensures Released(week, tasks) == Seqs.RemoveAll(week, Tasks.CompletedIds(tasks))
    decreases |tasks|
  {
    if tasks != [] {
      var init, last := tasks[..|tasks| - 1], tasks[|tasks| - 1];
      ReleasedRemovesCompleted(week, init);
      assert tasks == init + [last];
      Tasks.CompletedIdsSnoc(init, last);
      var earlier := Tasks.CompletedIds(init);
      var released := Tasks.CompletedIds(tasks);
      if last.completed {
        assert released == earlier + [last.id];
        assert released[..|released| - 1] == earlier;
      } else {
        assert released == earlier;
      }
    }
  }

  /** When every weekly id names a completed task and all completed ids are released, nothing
      is left. */
  lemma ClearedWeekIsEmpty(week: seq<string>, tasks: seq<Task>, cleared: seq<string>)
    requires forall x :: x in week ==> Tasks.HasCompletedTask(tasks, x)
    requires forall x :: x in Tasks.CompletedIds(tasks) <==> Tasks.HasCompletedTask(tasks, x)
    requires cleared == Seqs.RemoveAll(week, Tasks.CompletedIds(tasks))
    ensures cleared == []
  {
    Seqs.RemoveAllEmpty(week, Tasks.CompletedIds(tasks));
  }
}
