/** The pure updates the page applies to the task list: each is a `map` or a `filter` keyed by
    task id. */
module Tasks {
  import opened Types
  import Seqs

  function IdOf(t: Task): string { t.id }

  function ActualOf(t: Task): int { t.actualPomodoros }

  /** No two tasks share an id (ids come from `crypto.randomUUID`). */
  predicate UniqueIds(tasks: seq<Task>)
  {
    forall i, j :: 0 <= i < j < |tasks| ==> tasks[i].id != tasks[j].id
  }

  predicate HasTask(tasks: seq<Task>, id: string)
  {
    exists t :: t in tasks && t.id == id
  }

  predicate HasCompletedTask(tasks: seq<Task>, id: string)
  {
    exists t :: t in tasks && t.id == id && t.completed
  }

  /** `find(t => t.id === id)`. */
  function FindById(tasks: seq<Task>, id: string): (r: Option<Task>)
    ensures r.Some? <==> HasTask(tasks, id)
    ensures r.Some? ==> r.value in tasks && r.value.id == id
    ensures UniqueIds(tasks) ==> forall k :: 0 <= k < |tasks| && tasks[k].id == id ==> r == Some(tasks[k])
  {
    var i := Seqs.FindIndex(tasks, (t: Task) => t.id == id);
    assert HasTask(tasks, id) ==> i >= 0 by {
      if HasTask(tasks, id) {
        var t :| t in tasks && t.id == id;
        var k :| 0 <= k < |tasks| && tasks[k] == t;
      }
    }
    if i < 0 then None else Some(tasks[i])
  }

  /** The task `handleAddTask` builds from the form's payload. */
  function Created(nt: NewTask, id: string, createdAt: int): Task
  {
    Task(id, nt.title, nt.estimatedPomodoros, 0, false, createdAt)
  }

  /** The active task's pomodoro count, one higher. */
  function IncrementActual(tasks: seq<Task>, id: string): seq<Task>
  {
    Seqs.Map(tasks, (t: Task) => if t.id == id then t.(actualPomodoros := t.actualPomodoros + 1) else t)
  }

  /** `handleEditTask`: the task with the payload's id replaced by the payload. */
  function ReplaceById(tasks: seq<Task>, task: Task): seq<Task>
  {
    Seqs.Map(tasks, (t: Task) => if t.id == task.id then task else t)
  }

  /** `handleToggleTaskComplete`: the completion flag of the task with that id flipped. */
  function ToggleById(tasks: seq<Task>, id: string): seq<Task>
  {
    Seqs.Map(tasks, (t: Task) => if t.id == id then t.(completed := !t.completed) else t)
  }

  /** `handleDeleteTask`: the tasks with that id dropped. */
  function RemoveById(tasks: seq<Task>, id: string): seq<Task>
  {
    Seqs.Filter(tasks, (t: Task) => t.id != id)
  }

  /** `filter(t => t.completed).map(t => t.id)`: the ids the clear operations release. */
  function CompletedIds(tasks: seq<Task>): seq<string>
  {
    Seqs.Map(Seqs.Filter(tasks, IsDone), IdOf)
  }

  /** Exactly the task with the active id gains one pomodoro; with unique ids the total grows by
      one, and an id no task has changes nothing. */
  lemma IncrementActualSpec(tasks: seq<Task>, id: string)
    requires UniqueIds(tasks)
    ensures var r := IncrementActual(tasks, id);
      |r| == |tasks| &&
      (forall k :: 0 <= k < |tasks| ==>
        r[k] == if tasks[k].id == id then tasks[k].(actualPomodoros := tasks[k].actualPomodoros + 1) else tasks[k]) &&
      (HasTask(tasks, id) ==> Seqs.SumOf(r, ActualOf) == Seqs.SumOf(tasks, ActualOf) + 1) &&
      (!HasTask(tasks, id) ==> r == tasks)
  {
    var r := IncrementActual(tasks, id);
    var found := FindById(tasks, id);
    if found.Some? {
      var k :| 0 <= k < |tasks| && tasks[k] == found.value;
      var x := tasks[k].(actualPomodoros := tasks[k].actualPomodoros + 1);
      assert r == tasks[k := x];
      Seqs.SumOfUpdate(tasks, k, x, ActualOf);
    } else {
      assert forall k :: 0 <= k < |tasks| ==> tasks[k].id != id;
      assert r == tasks;
    }
  }

  /** The increment keeps every id and every completion flag where it was. */
  lemma IncrementKeepsIds(tasks: seq<Task>, id: string)
    ensures var r := IncrementActual(tasks, id);
      (UniqueIds(r) <==> UniqueIds(tasks)) &&
      (forall x :: HasTask(r, x) <==> HasTask(tasks, x)) &&
      (forall x :: HasCompletedTask(r, x) <==> HasCompletedTask(tasks, x))
  {
    var r := IncrementActual(tasks, id);
    assert forall k :: 0 <= k < |tasks| ==> r[k].id == tasks[k].id && r[k].completed == tasks[k].completed;
    SameIdsSameTasks(tasks, r);
    SameIdsAndFlags(tasks, r);
  }

  /** Toggling twice restores the list. */
  lemma ToggleTwice(tasks: seq<Task>, id: string)
    ensures ToggleById(ToggleById(tasks, id), id) == tasks
  {
    var r := ToggleById(ToggleById(tasks, id), id);
    assert forall k :: 0 <= k < |tasks| ==> r[k] == tasks[k];
  }

  /** Toggling changes nothing but the flag of the tasks with that id: the ids stay where they
      were, the other tasks keep their state, the target's state flips, and an unknown id
      leaves the list as it was. */
  lemma ToggleSpec(tasks: seq<Task>, id: string)
    requires UniqueIds(tasks)
    ensures var r := ToggleById(tasks, id);
      |r| == |tasks| && UniqueIds(r) &&
      (forall k :: 0 <= k < |tasks| ==> r[k].id == tasks[k].id) &&
      (forall x :: HasTask(r, x) <==> HasTask(tasks, x)) &&
      (forall x :: x != id ==> (HasCompletedTask(r, x) <==> HasCompletedTask(tasks, x))) &&
      (HasTask(tasks, id) ==> (HasCompletedTask(r, id) <==> !HasCompletedTask(tasks, id))) &&
      (!HasTask(tasks, id) ==> r == tasks)
  {
    var r := ToggleById(tasks, id);
    SameIdsSameTasks(tasks, r);
    forall x | x != id
      ensures HasCompletedTask(r, x) <==> HasCompletedTask(tasks, x)
    {
      if HasCompletedTask(r, x) {
        var t :| t in r && t.id == x && t.completed;
        var k :| 0 <= k < |r| && r[k] == t;
        assert tasks[k] in tasks;
      }
      if HasCompletedTask(tasks, x) {
        var t :| t in tasks && t.id == x && t.completed;
        var k :| 0 <= k < |tasks| && tasks[k] == t;
        assert r[k] in r;
      }
    }
    var found := FindById(tasks, id);
    if found.Some? {
      var k :| 0 <= k < |tasks| && tasks[k] == found.value;
      assert r[k] in r;
      assert HasCompletedTask(tasks, id) <==> tasks[k].completed by {
        if HasCompletedTask(tasks, id) {
          var t :| t in tasks && t.id == id && t.completed;
          var m :| 0 <= m < |tasks| && tasks[m] == t;
        }
      }
      assert HasCompletedTask(r, id) <==> r[k].completed by {
        if HasCompletedTask(r, id) {
          var t :| t in r && t.id == id && t.completed;
          var m :| 0 <= m < |r| && r[m] == t;
        }
      }
    } else {
      assert forall k :: 0 <= k < |tasks| ==> tasks[k].id != id;
      assert r == tasks;
    }
  }

  /** Two lists with the same ids, position by position, have the same tasks by id. */
  lemma SameIdsSameTasks(a: seq<Task>, b: seq<Task>)
    requires |a| == |b| && forall k :: 0 <= k < |a| ==> a[k].id == b[k].id
    ensures UniqueIds(a) <==> UniqueIds(b)
    ensures forall x :: HasTask(a, x) <==> HasTask(b, x)
  {
    forall x
      ensures HasTask(a, x) <==> HasTask(b, x)
    {
      if HasTask(a, x) {
        var t :| t in a && t.id == x;
        var k :| 0 <= k < |a| && a[k] == t;
        assert b[k] in b;
      }
      if HasTask(b, x) {
        var t :| t in b && t.id == x;
        var k :| 0 <= k < |b| && b[k] == t;
        assert a[k] in a;
      }
    }
  }

  /** Two lists with the same ids and flags, position by position, have the same completed
      tasks by id. */
  lemma SameIdsAndFlags(a: seq<Task>, b: seq<Task>)
    requires |a| == |b|
    requires forall k :: 0 <= k < |a| ==> a[k].id == b[k].id && a[k].completed == b[k].completed
    ensures forall x :: HasCompletedTask(a, x) <==> HasCompletedTask(b, x)
  {
    forall x
      ensures HasCompletedTask(a, x) <==> HasCompletedTask(b, x)
    {
      if HasCompletedTask(a, x) {
        var t :| t in a && t.id == x && t.completed;
        var k :| 0 <= k < |a| && a[k] == t;
        assert b[k] in b;
      }
      if HasCompletedTask(b, x) {
        var t :| t in b && t.id == x && t.completed;
        var k :| 0 <= k < |b| && b[k] == t;
        assert a[k] in a;
      }
    }
  }

  /** Editing keeps every id in place and puts the payload where its id was; an id no task
      has changes nothing. */
  lemma ReplaceSpec(tasks: seq<Task>, task: Task)
    requires UniqueIds(tasks)
    ensures var r := ReplaceById(tasks, task);
      |r| == |tasks| && UniqueIds(r) &&
      (forall k :: 0 <= k < |tasks| ==> r[k] == if tasks[k].id == task.id then task else tasks[k]) &&
      (forall x :: HasTask(r, x) <==> HasTask(tasks, x)) &&
      (!HasTask(tasks, task.id) ==> r == tasks) &&
      (HasTask(tasks, task.id) ==> FindById(r, task.id) == Some(task))
  {
    var r := ReplaceById(tasks, task);
    SameIdsSameTasks(tasks, r);
    var found := FindById(tasks, task.id);
    if found.Some? {
      var k :| 0 <= k < |tasks| && tasks[k] == found.value;
      assert r[k] == task;
    } else {
      assert forall k :: 0 <= k < |tasks| ==> tasks[k].id != task.id;
      assert r == tasks;
    }
  }

  /** When the payload keeps the edited task's completion flag, as the task form does, the
      completed tasks are the same ones by id. */
  lemma ReplaceKeepsCompleted(tasks: seq<Task>, task: Task)
    requires UniqueIds(tasks)
    requires FindById(tasks, task.id).Some? && FindById(tasks, task.id).value.completed == task.completed
    ensures forall x :: HasCompletedTask(ReplaceById(tasks, task), x) <==> HasCompletedTask(tasks, x)
  {
    var r := ReplaceById(tasks, task);
    assert forall k :: 0 <= k < |tasks| ==> r[k].id == tasks[k].id && r[k].completed == tasks[k].completed;
    SameIdsAndFlags(tasks, r);
  }

  /** A filter keeps ids unique. */
  lemma {:induction false} FilterUniqueIds(tasks: seq<Task>, p: Task -> bool)
    requires UniqueIds(tasks)
    ensures UniqueIds(Seqs.Filter(tasks, p))
    decreases |tasks|
  {
    if tasks != [] {
      var head, tail := tasks[0], tasks[1..];
      assert UniqueIds(tail);
      FilterUniqueIds(tail, p);
      if p(head) {
        var rest := Seqs.Filter(tail, p);
        var r := [head] + rest;
        assert forall k :: 0 <= k < |tail| ==> tail[k].id != head.id;
        forall i, j | 0 <= i < j < |r|
          ensures r[i].id != r[j].id
        {
          if i == 0 {
            assert r[j] == rest[j - 1] && rest[j - 1] in tail;
          } else {
            assert r[i] == rest[i - 1] && r[j] == rest[j - 1];
          }
        }
      }
    }
  }

  /** Deleting drops exactly the tasks with that id and keeps the others, by id and state. */
  lemma RemoveByIdSpec(tasks: seq<Task>, id: string)
    requires UniqueIds(tasks)
    ensures var r := RemoveById(tasks, id);
      UniqueIds(r) && !HasTask(r, id) &&
      (forall t :: t in r <==> t in tasks && t.id != id) &&
      (forall x :: x != id ==> (HasTask(r, x) <==> HasTask(tasks, x))) &&
      (forall x :: x != id ==> (HasCompletedTask(r, x) <==> HasCompletedTask(tasks, x)))
  {
    FilterUniqueIds(tasks, (t: Task) => t.id != id);
  }

  /** The released ids are exactly the ids of the completed tasks. */
  lemma CompletedIdsSpec(tasks: seq<Task>)
    ensures forall x :: x in CompletedIds(tasks) <==> HasCompletedTask(tasks, x)
  {
    var done := Seqs.Filter(tasks, IsDone);
    var ids := CompletedIds(tasks);
    forall x
      ensures x in ids <==> HasCompletedTask(tasks, x)
    {
      if x in ids {
        var k :| 0 <= k < |ids| && ids[k] == x;
        assert done[k] in done;
      }
      if HasCompletedTask(tasks, x) {
        var t :| t in tasks && t.id == x && t.completed;
        assert t in done;
        var k :| 0 <= k < |done| && done[k] == t;
        assert ids[k] == x;
      }
    }
  }

  /** The released ids of a list grown by one task. */
  lemma CompletedIdsSnoc(tasks: seq<Task>, t: Task)
    ensures CompletedIds(tasks + [t]) == CompletedIds(tasks) + (if t.completed then [t.id] else [])
  {
    Seqs.FilterAppend(tasks, [t], IsDone);
    assert Seqs.Filter([t], IsDone) == if t.completed then [t] else [];
    var a, b := Seqs.Filter(tasks, IsDone), Seqs.Filter([t], IsDone);
    assert Seqs.Map(a + b, IdOf) == Seqs.Map(a, IdOf) + Seqs.Map(b, IdOf);
  }
}
