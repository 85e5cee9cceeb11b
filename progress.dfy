/** The statistics a focus completion updates: the streak over whole-day differences, the
    per-day entries (found and bumped, or appended) and the running totals. */
module Progress {
  import opened Types
  import Seqs

  /** The streak rule: no earlier activity or a gap of more than a day starts a new streak, the
      next day extends it, the same day (or a clock that went back) leaves it alone. */
  function NewStreak(streak: int, lastActive: Option<Day>, today: Day): (r: int)
    ensures lastActive.None? ==> r == 1
    ensures lastActive.Some? && today - lastActive.value == 1 ==> r == streak + 1
    ensures lastActive.Some? && today - lastActive.value > 1 ==> r == 1
    ensures lastActive.Some? && today - lastActive.value <= 0 ==> r == streak
    ensures lastActive.None? || streak >= 1 ==> r >= 1
  {
    match lastActive
    case None => 1
    case Some(last) =>
      var diffDays := today - last;
      if diffDays == 1 then streak + 1 else if diffDays > 1 then 1 else streak
  }

  function FocusTimeOf(s: DailyStat): int { s.focusTime }

  function PomodorosOf(s: DailyStat): int { s.pomodorosCompleted }

  /** At most one entry per date. */
  predicate UniqueDates(stats: seq<DailyStat>)
  {
    forall i, j :: 0 <= i < j < |stats| ==> stats[i].date != stats[j].date
  }

  /** `findIndex(s => s.date === date)`. */
  function StatIndex(stats: seq<DailyStat>, date: Day): (i: int)
    ensures -1 <= i < |stats|
    ensures i == -1 <==> forall j :: 0 <= j < |stats| ==> stats[j].date != date
    ensures 0 <= i ==> stats[i].date == date && forall j :: 0 <= j < i ==> stats[j].date != date
  {
    Seqs.FindIndex(stats, (s: DailyStat) => s.date == date)
  }

  /** `find(s => s.date === date)`: the first entry of that date, if any. */
  function StatOn(stats: seq<DailyStat>, date: Day): (r: Option<DailyStat>)
    ensures r.None? <==> forall j :: 0 <= j < |stats| ==> stats[j].date != date
    ensures r.Some? ==> r.value in stats && r.value.date == date
    ensures UniqueDates(stats) ==> forall j :: 0 <= j < |stats| && stats[j].date == date ==> r == Some(stats[j])
  {
    var i := StatIndex(stats, date);
    if i < 0 then None else Some(stats[i])
  }

  /** What today's entry becomes: one more pomodoro and `duration` more minutes, starting from
      nothing when there was no entry. */
  function Bumped(existing: Option<DailyStat>, today: Day, duration: int): DailyStat
  {
    match existing
    case None => DailyStat(today, duration, 1)
    case Some(s) => s.(focusTime := s.focusTime + duration, pomodorosCompleted := s.pomodorosCompleted + 1)
  }

  /** The upsert of `handleTimerComplete`: today's entry updated where it stands, or a new entry
      appended at the end. */
  function UpsertStat(stats: seq<DailyStat>, today: Day, duration: int): seq<DailyStat>
  {
    var i := StatIndex(stats, today);
    if i >= 0 then stats[i := Bumped(Some(stats[i]), today, duration)]
    else stats + [Bumped(None, today, duration)]
  }

  /** The progress after a focus completion of `duration` minutes on `today`. */
  function RecordFocus(p: UserProgress, today: Day, duration: int): UserProgress
  {
    UserProgress(
      totalFocusTime := p.totalFocusTime + duration,
      totalPomodorosCompleted := p.totalPomodorosCompleted + 1,
      currentStreak := NewStreak(p.currentStreak, p.lastActiveDate, today),
      lastActiveDate := Some(today),
      dailyStats := UpsertStat(p.dailyStats, today, duration))
  }

  /** After the upsert, today's entry is the old one bumped, or a fresh one appended at the
      end when there was none. */
  lemma UpsertStatToday(stats: seq<DailyStat>, today: Day, duration: int)
    ensures StatOn(UpsertStat(stats, today, duration), today) == Some(Bumped(StatOn(stats, today), today, duration))
    ensures |UpsertStat(stats, today, duration)| == if StatOn(stats, today).Some? then |stats| else |stats| + 1
  {
    var r := UpsertStat(stats, today, duration);
    var i := StatIndex(stats, today);
    if i >= 0 {
      assert r[i].date == today;
      assert StatIndex(r, today) == i;
    } else {
      assert r[|stats|].date == today;
      assert forall j :: 0 <= j < |stats| ==> r[j] == stats[j];
      assert StatIndex(r, today) == |stats|;
    }
  }

  /** The upsert leaves every other entry at its position, so every other date looks up the
      same entry as before. */
  lemma UpsertStatOthers(stats: seq<DailyStat>, today: Day, duration: int, d: Day)
    requires d != today
    ensures forall j :: 0 <= j < |stats| && stats[j].date != today ==> UpsertStat(stats, today, duration)[j] == stats[j]
    ensures StatOn(UpsertStat(stats, today, duration), d) == StatOn(stats, d)
  {
    var r := UpsertStat(stats, today, duration);
    var i := StatIndex(stats, today);
    var k := StatIndex(stats, d);
    if i < 0 {
      assert forall j :: 0 <= j < |stats| ==> r[j] == stats[j];
      assert r[|stats|].date == today;
    }
    if k >= 0 {
      assert r[k] == stats[k];
      assert StatIndex(r, d) == k;
    } else {
      assert StatIndex(r, d) == -1;
    }
  }

  /** The upsert adds `duration` to the sum of the minutes and one to the sum of the pomodoros. */
  lemma UpsertStatSums(stats: seq<DailyStat>, today: Day, duration: int)
    ensures Seqs.SumOf(UpsertStat(stats, today, duration), FocusTimeOf) == Seqs.SumOf(stats, FocusTimeOf) + duration
    ensures Seqs.SumOf(UpsertStat(stats, today, duration), PomodorosOf) == Seqs.SumOf(stats, PomodorosOf) + 1
  {
    var i := StatIndex(stats, today);
    var x := Bumped(if i >= 0 then Some(stats[i]) else None, today, duration);
    if i >= 0 {
      Seqs.SumOfUpdate(stats, i, x, FocusTimeOf);
      Seqs.SumOfUpdate(stats, i, x, PomodorosOf);
    } else {
      Seqs.SumOfAppend(stats, [x], FocusTimeOf);
      Seqs.SumOfAppend(stats, [x], PomodorosOf);
    }
  }

  /** The upsert never creates a second entry for a date. */
  lemma UpsertStatUniqueDates(stats: seq<DailyStat>, today: Day, duration: int)
    requires UniqueDates(stats)
    ensures UniqueDates(UpsertStat(stats, today, duration))
  {
    var r := UpsertStat(stats, today, duration);
    var i := StatIndex(stats, today);
    if i >= 0 {
      assert forall j :: 0 <= j < |r| ==> r[j].date == stats[j].date;
    } else {
      assert forall j :: 0 <= j < |stats| ==> r[j] == stats[j];
    }
  }

  /** What the statistics promise together: one entry per date, each with at least one
      pomodoro; the totals are the sums over the entries; the last active date has an entry and
      a streak of at least one, and there is no last active date only when there are no
      entries. */
  predicate ProgressConsistent(p: UserProgress)
  {
    UniqueDates(p.dailyStats) &&
    (forall j :: 0 <= j < |p.dailyStats| ==> p.dailyStats[j].pomodorosCompleted >= 1) &&
    Seqs.SumOf(p.dailyStats, FocusTimeOf) == p.totalFocusTime &&
    Seqs.SumOf(p.dailyStats, PomodorosOf) == p.totalPomodorosCompleted &&
    (p.lastActiveDate.None? <==> p.dailyStats == []) &&
    (p.lastActiveDate.Some? ==> p.currentStreak >= 1 && StatOn(p.dailyStats, p.lastActiveDate.value).Some?)
  }

  lemma DefaultProgressConsistent()
    ensures ProgressConsistent(DefaultProgress)
  {
  }

  /** The upsert keeps every entry's pomodoro count at least one. */
  lemma UpsertStatPositive(stats: seq<DailyStat>, today: Day, duration: int)
    requires forall j :: 0 <= j < |stats| ==> stats[j].pomodorosCompleted >= 1
    ensures var r := UpsertStat(stats, today, duration);
      forall j :: 0 <= j < |r| ==> r[j].pomodorosCompleted >= 1
  {
    var r := UpsertStat(stats, today, duration);
    var i := StatIndex(stats, today);
    if i >= 0 {
      forall j | 0 <= j < |r|
        ensures r[j].pomodorosCompleted >= 1
      {
        if j != i {
          assert r[j] == stats[j];
        }
      }
    } else {
      assert forall j :: 0 <= j < |stats| ==> r[j] == stats[j];
    }
  }

  /** Every focus completion keeps the statistics consistent. */
  lemma RecordFocusConsistent(p: UserProgress, today: Day, duration: int)
    requires ProgressConsistent(p)
    ensures ProgressConsistent(RecordFocus(p, today, duration))
  {
    UpsertStatToday(p.dailyStats, today, duration);
    UpsertStatSums(p.dailyStats, today, duration);
    UpsertStatUniqueDates(p.dailyStats, today, duration);
    UpsertStatPositive(p.dailyStats, today, duration);
  }

  /** Focus completions on `n` days in a row, starting at `start`. */
  function RecordOnDays(p: UserProgress, start: Day, n: nat, duration: int): UserProgress
    decreases n
  {
    if n == 0 then p else RecordFocus(RecordOnDays(p, start, n - 1, duration), start + n - 1, duration)
  }

  /** Working on each of `n` consecutive days, starting the day after the last active one,
      lengthens the streak by `n`. */
  lemma {:induction false} StreakOverConsecutiveDays(p: UserProgress, start: Day, n: nat, duration: int)
    requires n >= 1 && p.lastActiveDate == Some(start - 1)
    ensures RecordOnDays(p, start, n, duration).currentStreak == p.currentStreak + n
    ensures RecordOnDays(p, start, n, duration).lastActiveDate == Some(start + n - 1)
    decreases n
  {
    if n > 1 {
      StreakOverConsecutiveDays(p, start, n - 1, duration);
    }
  }

  /** Four 25-minute focus sessions on the first day of use: four pomodoros, 100 minutes, a
      streak of one, and a single entry for that day. */
  lemma FourSessionsOnFirstDay(today: Day)
    ensures var p := RecordOnDays(DefaultProgress, today, 1, 25);
      var q := RecordFocus(RecordFocus(RecordFocus(p, today, 25), today, 25), today, 25);
      q.totalPomodorosCompleted == 4 && q.totalFocusTime == 100 && q.currentStreak == 1 &&
      q.lastActiveDate == Some(today) && q.dailyStats == [DailyStat(today, 100, 4)]
  {
    var p1 := RecordFocus(DefaultProgress, today, 25);
    assert p1.dailyStats == [DailyStat(today, 25, 1)];
    assert StatIndex(p1.dailyStats, today) == 0;
    var p2 := RecordFocus(p1, today, 25);
    assert p2.dailyStats == [DailyStat(today, 50, 2)];
    assert StatIndex(p2.dailyStats, today) == 0;
    var p3 := RecordFocus(p2, today, 25);
    assert p3.dailyStats == [DailyStat(today, 75, 3)];
    assert StatIndex(p3.dailyStats, today) == 0;
  }
}
