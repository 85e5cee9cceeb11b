/** What the task list derives from the tasks and the active id: the completed and pending
    halves, the "all done" flag, the active task, the value a click selects, the pomodoro dots
    and which clear buttons are enabled. */
module TaskList {
  import opened Types
  import Seqs
  import Tasks

  /** `tasks.filter(t => t.completed)`. */
  function CompletedTasks(tasks: seq<Task>): seq<Task>
  {
    Seqs.Filter(tasks, IsDone)
  }

  /** `tasks.filter(t => !t.completed)`. */
  function IncompleteTasks(tasks: seq<Task>): seq<Task>
  {
    Seqs.Filter(tasks, IsPending)
  }

  /** The two halves split the list: every task is in exactly one of them and their lengths add
      up to the number of tasks. */
  lemma Partition(tasks: seq<Task>)
    ensures |CompletedTasks(tasks)| + |IncompleteTasks(tasks)| == |tasks|
    ensures forall t :: t in tasks <==> t in CompletedTasks(tasks) || t in IncompleteTasks(tasks)
    ensures forall t :: !(t in CompletedTasks(tasks) && t in IncompleteTasks(tasks))
  {
    Seqs.FilterPartition(tasks, IsDone, IsPending);
  }

  /** `tasks.length > 0 && tasks.every(t => t.completed)`. */
  function AllTasksCompleted(tasks: seq<Task>): (r: bool)
    ensures r <==> tasks != [] && forall t :: t in tasks ==> t.completed
  {
    |tasks| > 0 && forall i :: 0 <= i < |tasks| ==> tasks[i].completed
  }

  /** Everything is done exactly when the list is not empty and nothing is pending, that is
      when the completed half is the whole list. */
  lemma AllCompletedIffNothingPending(tasks: seq<Task>)
    ensures AllTasksCompleted(tasks) <==> tasks != [] && IncompleteTasks(tasks) == []
    ensures AllTasksCompleted(tasks) <==> tasks != [] && |CompletedTasks(tasks)| == |tasks|
  {
    Partition(tasks);
    if tasks != [] && IncompleteTasks(tasks) == [] {
      forall t | t in tasks
        ensures t.completed
      {
        assert t !in IncompleteTasks(tasks);
      }
    }
  }

  /** `tasks.find(t => t.id === activeTaskId)`: `null` equals no id. */
  function ActiveTask(tasks: seq<Task>, activeTaskId: Option<string>): (r: Option<Task>)
    ensures r.Some? ==> r.value in tasks && activeTaskId == Some(r.value.id)
    ensures r.None? <==> activeTaskId.None? || !Tasks.HasTask(tasks, activeTaskId.value)
  {
    match activeTaskId
    case None => None
    case Some(id) => Tasks.FindById(tasks, id)
  }

  /** With unique ids the active task is the one task carrying the active id. */
  lemma ActiveTaskUnique(tasks: seq<Task>, activeTaskId: Option<string>, k: nat)
    requires Tasks.UniqueIds(tasks) && k < |tasks| && activeTaskId == Some(tasks[k].id)
    ensures ActiveTask(tasks, activeTaskId) == Some(tasks[k])
  {
  }

  /** What clicking a task passes to `onSelectTask`: `null` for the active task, the task's id
      for any other. */
  function SelectValue(taskId: string, activeTaskId: Option<string>): (r: Option<string>)
    ensures r.None? <==> activeTaskId == Some(taskId)
    ensures r.Some? ==> r.value == taskId
  {
    if activeTaskId == Some(taskId) then None else Some(taskId)
  }

  /** Clicking the same task twice gives back the selection it started from, when that was
      either this task or none. */
  lemma SelectTwice(taskId: string, activeTaskId: Option<string>)
    requires activeTaskId.None? || activeTaskId == Some(taskId)
    ensures SelectValue(taskId, SelectValue(taskId, activeTaskId)) == activeTaskId
  {
  }

  /** After a click the active task is the clicked one, or none when it was active already. */
  lemma SelectShowsClickedTask(tasks: seq<Task>, k: nat, activeTaskId: Option<string>)
    requires Tasks.UniqueIds(tasks) && k < |tasks|
    ensures var next := SelectValue(tasks[k].id, activeTaskId);
      (activeTaskId == Some(tasks[k].id) ==> ActiveTask(tasks, next).None?) &&
      (activeTaskId != Some(tasks[k].id) ==> ActiveTask(tasks, next) == Some(tasks[k]))
  {
  }

  /** The number of small dots under a task: one per pomodoro up to five, shown only while the
      task is pending and has at least one. */
  function MiniIndicatorDots(t: Task): (n: nat)
    ensures n <= 5
    ensures n > 0 <==> !t.completed && t.actualPomodoros > 0
    ensures !t.completed && 0 < t.actualPomodoros <= 5 ==> n == t.actualPomodoros
    ensures !t.completed && t.actualPomodoros > 5 ==> n == 5
  {
    if !t.completed && t.actualPomodoros > 0 then
      (if t.actualPomodoros <= 5 then t.actualPomodoros else 5)
    else 0
  }

  /** "Clear finished" is enabled when some task is done, "clear all" when there is a task. */
  function ClearFinishedEnabled(tasks: seq<Task>): (r: bool)
    ensures r <==> exists t :: t in tasks && t.completed
  {
    var c := CompletedTasks(tasks);
    assert c != [] ==> c[0] in c;
    |c| != 0
  }

  function ClearAllEnabled(tasks: seq<Task>): (r: bool)
    ensures r <==> tasks != []
  {
    |tasks| != 0
  }

  /** Whenever "clear finished" can be pressed, so can "clear all"; when every task is done the
      two clear the same tasks. */
  lemma ClearButtons(tasks: seq<Task>)
    ensures ClearFinishedEnabled(tasks) ==> ClearAllEnabled(tasks)
    ensures AllTasksCompleted(tasks) ==> ClearFinishedEnabled(tasks) && CompletedTasks(tasks) == tasks
  {
    if AllTasksCompleted(tasks) {
      assert tasks[0] in tasks;
      assert forall i :: 0 <= i < |tasks| ==> IsDone(tasks[i]);
    }
  }
}
