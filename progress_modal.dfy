/** What the statistics dialog derives from the progress and the tasks: the total time split
    into hours and minutes, today's figures, the five tasks with the most pomodoros and the
    `HH:MM` display. */
module ProgressModal {
  import opened Types
  import Js
  import Seqs
  import Progress

  /** `Math.floor(totalFocusTime / 60)`: with a positive divisor Dafny's `/` is the floor. */
  function TotalHours(p: UserProgress): int
  {
    p.totalFocusTime / 60
  }

  /** `totalFocusTime % 60`, with JavaScript's truncated remainder. */
  function TotalMinutes(p: UserProgress): int
  {
    Js.Rem(p.totalFocusTime, 60)
  }

  /** Hours and minutes recompose the total, and the minutes are below an hour. */
  lemma HoursAndMinutes(p: UserProgress)
    requires p.totalFocusTime >= 0
    ensures TotalHours(p) * 60 + TotalMinutes(p) == p.totalFocusTime
    ensures 0 <= TotalMinutes(p) < 60
  {
    Js.FormatColonParts(p.totalFocusTime);
  }

  /** `todayStat?.focusTime || 0`: the minutes of the entry dated today, 0 without one. */
  function TodayFocusTime(p: UserProgress, today: Day): (r: int)
    ensures (forall j :: 0 <= j < |p.dailyStats| ==> p.dailyStats[j].date != today) ==> r == 0
    ensures Progress.UniqueDates(p.dailyStats) ==>
      forall j :: 0 <= j < |p.dailyStats| && p.dailyStats[j].date == today ==> r == p.dailyStats[j].focusTime
  {
    match Progress.StatOn(p.dailyStats, today)
    case None => 0
    case Some(s) => s.focusTime
  }

  /** `todayStat?.pomodorosCompleted || 0`. */
  function TodayPomodoros(p: UserProgress, today: Day): (r: int)
    ensures (forall j :: 0 <= j < |p.dailyStats| ==> p.dailyStats[j].date != today) ==> r == 0
    ensures Progress.UniqueDates(p.dailyStats) ==>
      forall j :: 0 <= j < |p.dailyStats| && p.dailyStats[j].date == today ==> r == p.dailyStats[j].pomodorosCompleted
  {
    match Progress.StatOn(p.dailyStats, today)
    case None => 0
    case Some(s) => s.pomodorosCompleted
  }

  /** A focus completion today adds one pomodoro and its minutes to today's figures. */
  lemma TodayAfterFocus(p: UserProgress, today: Day, duration: int)
    ensures TodayPomodoros(Progress.RecordFocus(p, today, duration), today) == TodayPomodoros(p, today) + 1
    ensures TodayFocusTime(Progress.RecordFocus(p, today, duration), today) == TodayFocusTime(p, today) + duration
  {
    Progress.UpsertStatToday(p.dailyStats, today, duration);
  }

  /** One row of the breakdown table. */
  datatype BreakdownRow = BreakdownRow(name: string, time: int, pomodoros: int)

  predicate Worked(t: Task) { t.actualPomodoros > 0 }

  /** A task's row: 25 minutes per pomodoro, whatever the focus duration setting. */
  function RowOf(t: Task): BreakdownRow
  {
    BreakdownRow(t.title, t.actualPomodoros * 25, t.actualPomodoros)
  }

  /** The rows before sorting: one per task with at least one pomodoro, in list order. */
  function Rows(tasks: seq<Task>): seq<BreakdownRow>
  {
    Seqs.Map(Seqs.Filter(tasks, Worked), RowOf)
  }

  /** Every row comes from a worked task, and every worked task gives a row. */
  lemma RowsSpec(tasks: seq<Task>)
    ensures forall row :: row in Rows(tasks) <==> exists t :: t in tasks && Worked(t) && row == RowOf(t)
    ensures forall row :: row in Rows(tasks) ==> row.pomodoros > 0 && row.time == 25 * row.pomodoros
  {
    var w := Seqs.Filter(tasks, Worked);
    forall row | row in Rows(tasks)
      ensures exists t :: t in tasks && Worked(t) && row == RowOf(t)
    {
      var i :| 0 <= i < |w| && Rows(tasks)[i] == row;
      assert w[i] in w;
    }
    forall t | t in tasks && Worked(t)
      ensures RowOf(t) in Rows(tasks)
    {
      var i :| 0 <= i < |w| && w[i] == t;
      assert Rows(tasks)[i] == RowOf(t);
    }
  }

  /** Non-increasing time. */
  predicate SortedByTime(s: seq<BreakdownRow>)
  {
    forall i, j :: 0 <= i < j < |s| ==> s[i].time >= s[j].time
  }

  /** Puts `x` in front of the first row with no more time than it has. */
  function Insert(x: BreakdownRow, s: seq<BreakdownRow>): (r: seq<BreakdownRow>)
    ensures multiset(r) == multiset(s) + multiset{x}
    decreases |s|
  {
    if s == [] || s[0].time <= x.time then [x] + s
    else
      assert s == [s[0]] + s[1..];
      [s[0]] + Insert(x, s[1..])
  }

  /** In a sorted sequence no row has more time than the first. */
  lemma SortedHead(s: seq<BreakdownRow>)
    requires SortedByTime(s) && s != []
    ensures forall y :: y in s ==> y.time <= s[0].time
  {
    forall y | y in s
      ensures y.time <= s[0].time
    {
      var k :| 0 <= k < |s| && s[k] == y;
      if k > 0 {
        assert s[0].time >= s[k].time;
      }
    }
  }

  /** A sorted sequence with a first element no smaller than the rest of it is sorted. */
  lemma ConsSorted(y: BreakdownRow, s: seq<BreakdownRow>)
    requires SortedByTime(s)
    requires forall z :: z in s ==> z.time <= y.time
    ensures SortedByTime([y] + s)
  {
    var r := [y] + s;
    forall i, j | 0 <= i < j < |r|
      ensures r[i].time >= r[j].time
    {
      assert r[j] == s[j - 1];
      if i > 0 {
        assert r[i] == s[i - 1];
      } else {
        assert s[j - 1] in s;
      }
    }
  }

  /** Inserting into a sorted sequence keeps it sorted. */
  lemma {:induction false} InsertSorted(x: BreakdownRow, s: seq<BreakdownRow>)
    requires SortedByTime(s)
    ensures SortedByTime(Insert(x, s))
    decreases |s|
  {
    if s == [] || s[0].time <= x.time {
      if s != [] {
        SortedHead(s);
      }
      ConsSorted(x, s);
    } else {
      var rest := Insert(x, s[1..]);
      assert SortedByTime(s[1..]);
      InsertSorted(x, s[1..]);
      SortedHead(s);
      assert s == [s[0]] + s[1..];
      forall z | z in rest
        ensures z.time <= s[0].time
      {
        assert z in multiset(rest);
      }
      ConsSorted(s[0], rest);
    }
  }

  /** `sort((a, b) => b.time - a.time)`: the rows by non-increasing time, an earlier row kept
      in front of a later one with the same time. */
  function SortByTime(s: seq<BreakdownRow>): (r: seq<BreakdownRow>)
    ensures multiset(r) == multiset(s)
    decreases |s|
  {
    if s == [] then []
    else
      assert s == [s[0]] + s[1..];
      Insert(s[0], SortByTime(s[1..]))
  }

  /** The sort gives a sorted permutation of its input. */
  lemma {:induction false} SortByTimeSpec(s: seq<BreakdownRow>)
    ensures multiset(SortByTime(s)) == multiset(s)
    ensures |SortByTime(s)| == |s|
    ensures SortedByTime(SortByTime(s))
    decreases |s|
  {
    assert |SortByTime(s)| == |multiset(SortByTime(s))|;
    if s != [] {
      SortByTimeSpec(s[1..]);
      InsertSorted(s[0], SortByTime(s[1..]));
    }
  }

  /** `slice(0, 5)`. */
  function TopFive(s: seq<BreakdownRow>): seq<BreakdownRow>
  {
    s[..Js.Min(5, |s|)]
  }

  /** `taskBreakdown`. */
  function TaskBreakdown(tasks: seq<Task>): seq<BreakdownRow>
  {
    TopFive(SortByTime(Rows(tasks)))
  }

  /** Cutting a sorted sequence in two leaves no row of the back with more time than a row of
      the front. */
  lemma SortedSplit(front: seq<BreakdownRow>, back: seq<BreakdownRow>)
    requires SortedByTime(front + back)
    ensures forall u, x :: u in back && x in front ==> u.time <= x.time
  {
    var s := front + back;
    forall u, x | u in back && x in front
      ensures u.time <= x.time
    {
      var j :| 0 <= j < |back| && back[j] == u;
      var i :| 0 <= i < |front| && front[i] == x;
      assert s[|front| + j] == u && s[i] == x;
    }
  }

  /** The first five of a sorted sequence: sorted, drawn from it, and no row left behind has
      more time than a row taken, counting equal rows separately. */
  lemma TopFiveSpec(s: seq<BreakdownRow>)
    requires SortedByTime(s)
    ensures var r := TopFive(s);
      |r| == Js.Min(5, |s|) && SortedByTime(r) && multiset(r) <= multiset(s) &&
      (forall u, x :: u in multiset(s) - multiset(r) && x in r ==> u.time <= x.time)
  {
    var k := Js.Min(5, |s|);
    var r := s[..k];
    var rest := s[k..];
    assert s == r + rest;
    assert multiset(s) - multiset(r) == multiset(rest);
    SortedSplit(r, rest);
  }

  /** The breakdown: as many rows as there are worked tasks, up to five, in non-increasing
      time, drawn from the rows of the task list, and no row left out (counting equal rows
      separately) has more time than a row shown. */
  lemma TaskBreakdownSpec(tasks: seq<Task>)
    ensures var r := TaskBreakdown(tasks);
      |r| <= 5 && |r| == Js.Min(5, |Seqs.Filter(tasks, Worked)|) &&
      SortedByTime(r) &&
      multiset(r) <= multiset(Rows(tasks)) &&
      (forall u, x :: u in multiset(Rows(tasks)) - multiset(r) && x in r ==> u.time <= x.time)
  {
    var s := SortByTime(Rows(tasks));
    SortByTimeSpec(Rows(tasks));
    TopFiveSpec(s);
    RowsSpec(tasks);
  }

  /** Every row shown is the row of a task with at least one pomodoro: 25 minutes for each. */
  lemma TaskBreakdownRows(tasks: seq<Task>)
    ensures forall row :: row in TaskBreakdown(tasks) ==>
      row.pomodoros > 0 && row.time == 25 * row.pomodoros &&
      exists t :: t in tasks && Worked(t) && row == RowOf(t)
  {
    TaskBreakdownSpec(tasks);
    RowsSpec(tasks);
    forall row | row in TaskBreakdown(tasks)
      ensures row in Rows(tasks)
    {
      assert row in multiset(TaskBreakdown(tasks));
    }
  }

  function TimeOf(row: BreakdownRow): int { row.time }

  function PomodorosOf(row: BreakdownRow): int { row.pomodoros }

  /** The total row: `reduce((acc, t) => acc + t.time, 0)`. */
  function BreakdownTotal(rows: seq<BreakdownRow>): int
  {
    Seqs.SumOf(rows, TimeOf)
  }

  /** The total is 25 minutes per pomodoro of the rows shown. */
  lemma {:induction false} BreakdownTotalIsPomodoros(rows: seq<BreakdownRow>)
    requires forall row :: row in rows ==> row.time == 25 * row.pomodoros
    ensures BreakdownTotal(rows) == 25 * Seqs.SumOf(rows, PomodorosOf)
    decreases |rows|
  {
    if rows != [] {
      assert rows[0] in rows;
      BreakdownTotalIsPomodoros(rows[1..]);
    }
  }

  /** The breakdown's total: 25 minutes for each pomodoro shown, and at least 25 per row. */
  lemma BreakdownTotalSpec(tasks: seq<Task>)
    ensures var r := TaskBreakdown(tasks);
      BreakdownTotal(r) == 25 * Seqs.SumOf(r, PomodorosOf) && BreakdownTotal(r) >= 25 * |r|
  {
    var r := TaskBreakdown(tasks);
    TaskBreakdownRows(tasks);
    BreakdownTotalIsPomodoros(r);
    RowsAtLeastOne(r);
  }

  lemma {:induction false} RowsAtLeastOne(rows: seq<BreakdownRow>)
    requires forall row :: row in rows ==> row.pomodoros >= 1
    ensures Seqs.SumOf(rows, PomodorosOf) >= |rows|
    decreases |rows|
  {
    if rows != [] {
      assert rows[0] in rows;
      RowsAtLeastOne(rows[1..]);
    }
  }

  /** `formatTime`: minutes shown as `HH:MM`, the hours before the colon and the minutes (below
      60) in two digits after it; for a non-negative count the display reads back as that count. */
  function FormatTime(minutes: int): (r: string)
    ensures minutes >= 0 ==> Js.IsColonDisplay(r, minutes)
  {
    var r := Js.FormatColon(minutes);
    assert minutes >= 0 ==> Js.IsColonDisplay(r, minutes) by {
      if minutes >= 0 {
        Js.FormatColonRoundTrip(minutes);
      }
    }
    r
  }
}
