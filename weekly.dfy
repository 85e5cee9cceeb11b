/** The weekly tracker: ids of the tasks completed since this week's Monday, kept as a list
    without repetitions, emptied when a stored list belongs to an earlier week. */
module Weekly {
  import opened Types
  import Seqs

  /** `getDay()`: 0 for Sunday, 1 for Monday, ..., 6 for Saturday (day 0 was a Thursday). */
  function DayOfWeek(d: Day): (w: int)
    ensures 0 <= w < 7
  {
    (d + 4) % 7
  }

  /** `getWeekStart`: the Monday of the week of `d`; a Sunday belongs to the week that began
      six days before it. */
  function WeekStart(d: Day): (monday: Day)
    ensures DayOfWeek(monday) == 1
    ensures d - 6 <= monday <= d
    ensures DayOfWeek(d) == 0 ==> monday == d - 6
    ensures DayOfWeek(d) != 0 ==> monday == d - (DayOfWeek(d) - 1)
  {
    var day := DayOfWeek(d);
    d - day + (if day == 0 then -6 else 1)
  }

  /** The Monday at most six days before a date is unique. */
  lemma WeekStartUnique(d: Day, m: Day)
    requires DayOfWeek(m) == 1 && d - 6 <= m <= d
    ensures m == WeekStart(d)
  {
    var w := WeekStart(d);
    assert (m + 4) % 7 == 1 && (w + 4) % 7 == 1;
    assert (m + 4) - (w + 4) == 7 * ((m + 4) / 7) - 7 * ((w + 4) / 7);
  }

  /** The Monday of a Monday's week is that Monday: `WeekStart` is idempotent. */
  lemma WeekStartIdempotent(d: Day)
    ensures WeekStart(WeekStart(d)) == WeekStart(d)
  {
  }

  /** An independent formula: weeks are numbered from the Monday three days before day 0. */
  lemma WeekStartByWeekNumber(d: Day)
    ensures WeekStart(d) == 7 * ((d + 3) / 7) - 3
  {
    var m := 7 * ((d + 3) / 7) - 3;
    assert d - 6 <= m <= d;
    assert (m + 4) % 7 == 1;
    WeekStartUnique(d, m);
  }

  /** `isInCurrentWeek`: the two dates have the same Monday. */
  function IsInCurrentWeek(date: Day, now: Day): (r: bool)
    ensures r <==> WeekStart(now) <= date <= WeekStart(now) + 6
  {
    var r := WeekStart(now) == WeekStart(date);
    assert WeekStart(now) <= date <= WeekStart(now) + 6 ==> r by {
      if WeekStart(now) <= date <= WeekStart(now) + 6 {
        WeekStartUnique(date, WeekStart(now));
      }
    }
    r
  }

  datatype WeeklyProgress = WeeklyProgress(weekStartDate: Day, completedTasks: seq<string>)

  /** An empty list for the week of `now`: `resetWeeklyProgress` and the fallback on load. */
  function Fresh(now: Day): WeeklyProgress
  {
    WeeklyProgress(WeekStart(now), [])
  }

  /** The state the hook starts from: the stored one, unless it is missing or belongs to
      another week, in which case an empty list for the current week. */
  function Loaded(stored: Option<WeeklyProgress>, now: Day): (w: WeeklyProgress)
    ensures w.weekStartDate == WeekStart(now)
    ensures stored.Some? && stored.value.weekStartDate == WeekStart(now) ==> w == stored.value
    ensures stored.None? || stored.value.weekStartDate != WeekStart(now) ==> w.completedTasks == []
  {
    match stored
    case None => Fresh(now)
    case Some(p) => if p.weekStartDate != WeekStart(now) then Fresh(now) else p
  }

  /** `completeTask`: on a stale week the list restarts with the id alone; otherwise the id is
      appended unless it is already there. */
  function Completed(w: WeeklyProgress, id: string, now: Day): (r: WeeklyProgress)
    ensures r.weekStartDate == WeekStart(now)
    ensures id in r.completedTasks
    ensures forall x :: x in r.completedTasks <==>
      x == id || (w.weekStartDate == WeekStart(now) && x in w.completedTasks)
    ensures w.weekStartDate != WeekStart(now) ==> r.completedTasks == [id]
    ensures w.weekStartDate == WeekStart(now) && id in w.completedTasks ==> r == w
    ensures w.weekStartDate == WeekStart(now) && id !in w.completedTasks ==>
      r.completedTasks == w.completedTasks + [id]
    ensures Seqs.NoDup(w.completedTasks) ==> Seqs.NoDup(r.completedTasks)
  {
    if w.weekStartDate != WeekStart(now) then WeeklyProgress(WeekStart(now), [id])
    else if id in w.completedTasks then w
    else w.(completedTasks := w.completedTasks + [id])
  }

  /** `uncompleteTask`: every occurrence of the id removed, the others kept in order; the week
      is not looked at. */
  function Uncompleted(w: WeeklyProgress, id: string): (r: WeeklyProgress)
    ensures r.weekStartDate == w.weekStartDate
    ensures id !in r.completedTasks
    ensures forall x :: x != id ==> (x in r.completedTasks <==> x in w.completedTasks)
    ensures id !in w.completedTasks ==> r == w
    ensures Seqs.NoDup(w.completedTasks) ==> Seqs.NoDup(r.completedTasks)
  {
    w.(completedTasks := Seqs.Remove(w.completedTasks, id))
  }

  /** Uncompleting keeps the other ids in their order: the list is `filter(x => x !== id)` of the
      old one, and removing from a concatenation removes from each part. */
  lemma UncompletedKeepsOrder(w: WeeklyProgress, id: string, more: seq<string>)
    ensures Uncompleted(w, id).completedTasks == Seqs.Filter(w.completedTasks, Seqs.Other(id))
    ensures Uncompleted(w.(completedTasks := w.completedTasks + more), id).completedTasks ==
      Uncompleted(w, id).completedTasks + Seqs.Remove(more, id)
  {
    Seqs.RemoveIsFilter(w.completedTasks, id);
    Seqs.RemoveAppend(w.completedTasks, more, id);
  }

  /** Completing the same task twice counts it once. */
  lemma CompleteIdempotent(w: WeeklyProgress, id: string, now: Day)
    ensures Completed(Completed(w, id, now), id, now) == Completed(w, id, now)
  {
  }

  /** Completing a task that was not in this week's list and then uncompleting it restores the
      list exactly. */
  lemma CompleteThenUncomplete(w: WeeklyProgress, id: string, now: Day)
    requires w.weekStartDate == WeekStart(now) && id !in w.completedTasks
    ensures Uncompleted(Completed(w, id, now), id) == w
  {
    Seqs.RemoveAppend(w.completedTasks, [id], id);
    assert Seqs.Remove([id], id) == [];
  }

  /** A stored state from another week loads as the reset state. */
  lemma StaleLoadIsReset(p: WeeklyProgress, now: Day)
    requires p.weekStartDate != WeekStart(now)
    ensures Loaded(Some(p), now) == Fresh(now)
  {
  }

  /** With no repetitions, the count is the number of distinct completed tasks. */
  lemma CountIsDistinctTasks(w: WeeklyProgress)
    requires Seqs.NoDup(w.completedTasks)
    ensures |w.completedTasks| == |set x | x in w.completedTasks|
  {
    Seqs.NoDupCardinality(w.completedTasks);
  }

  /** Complete "t1" twice, uncomplete it, then let a week pass: the count goes 1, 1, 0, and a
      later week starts again from an empty list. */
  lemma WeeklyScenario(now: Day)
    ensures var w0 := Fresh(now);
      var w1 := Completed(w0, "t1", now);
      var w2 := Completed(w1, "t1", now);
      var w3 := Uncompleted(w2, "t1");
      |w1.completedTasks| == 1 && |w2.completedTasks| == 1 && |w3.completedTasks| == 0 &&
      Loaded(Some(w2), now + 7).completedTasks == [] &&
      Completed(w2, "t2", now + 7).completedTasks == ["t2"]
  {
    var w2 := Completed(Completed(Fresh(now), "t1", now), "t1", now);
    assert w2.completedTasks == ["t1"];
    WeekStartByWeekNumber(now);
    WeekStartByWeekNumber(now + 7);
  }

  /** The state of the `useWeeklyProgress` hook. */
  class WeeklyTracker {
    var weekStartDate: Day
    var completedTasks: seq<string>

    function Value(): WeeklyProgress
      reads this
    {
      WeeklyProgress(weekStartDate, completedTasks)
    }

    /** The list holds each task id at most once. */
    ghost predicate Valid()
      reads this
    {
      Seqs.NoDup(completedTasks)
    }

    /** The initialiser of the hook, given what storage returned (`None` when nothing was
        stored, it could not be parsed, or there is no browser). */
    constructor FromStorage(stored: Option<WeeklyProgress>, now: Day)
      ensures Value() == Loaded(stored, now)
      ensures weekStartDate == WeekStart(now)
      ensures stored.None? || stored.value.weekStartDate != WeekStart(now) ==> completedTasks == [] && Valid()
      ensures stored.Some? && Seqs.NoDup(stored.value.completedTasks) ==> Valid()
    {
      var w := Loaded(stored, now);
      weekStartDate := w.weekStartDate;
      completedTasks := w.completedTasks;
    }

    method CompleteTask(taskId: string, now: Day)
      modifies this
      ensures Value() == Completed(old(Value()), taskId, now)
      ensures old(Valid()) ==> Valid()
    {
      var currentWeekStart := WeekStart(now);
      if weekStartDate != currentWeekStart {
        weekStartDate := currentWeekStart;
        completedTasks := [taskId];
      } else if taskId !in completedTasks {
        completedTasks := completedTasks + [taskId];
      }
    }

    method UncompleteTask(taskId: string)
      modifies this
      ensures Value() == Uncompleted(old(Value()), taskId)
      ensures old(Valid()) ==> Valid()
    {
      completedTasks := Seqs.Remove(completedTasks, taskId);
    }

    method ResetWeeklyProgress(now: Day)
      modifies this
      ensures Value() == Fresh(now)
      ensures Valid()
    {
      weekStartDate := WeekStart(now);
      completedTasks := [];
    }

    /** `getWeeklyCompletedCount`: the length of the list, which is the number of distinct
        tasks completed this week. */
    function WeeklyCompletedCount(): (n: nat)
      reads this
      ensures n == |completedTasks|
      ensures Valid() ==> n == |set x | x in completedTasks|
    {
      assert Valid() ==> |completedTasks| == |set x | x in completedTasks| by {
        if Valid() {
          Seqs.NoDupCardinality(completedTasks);
        }
      }
      |completedTasks|
    }

    /** `isTaskCompletedThisWeek`: membership in the list. */
    function IsTaskCompletedThisWeek(taskId: string): (r: bool)
      reads this
      ensures r <==> taskId in completedTasks
      ensures r ==> WeeklyCompletedCount() >= 1
    {
      taskId in completedTasks
    }
  }
}
