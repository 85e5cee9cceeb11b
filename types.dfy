/** The records shared by the timer, the task list and the statistics, with their default values. */
module Types {

  /** A value that may be missing (`null` / `undefined` in the application). */
  datatype Option<T> = None | Some(value: T)

  /** The three kinds of countdown. */
  datatype TimerMode = Focus | Break | LongBreak

  /** A calendar date, as a whole day number: day 0 is 1970-01-01, a Thursday. */
  type Day = int

  datatype Task = Task(
    id: string,
    title: string,
    estimatedPomodoros: int,
    actualPomodoros: int,
    completed: bool,
    createdAt: int)

  /** What the task form hands over when a task is created: a task without id, timestamp,
      pomodoro count and completion flag. */
  datatype NewTask = NewTask(title: string, estimatedPomodoros: int)

  /** Durations are in minutes; the interval counts focus sessions between long breaks. */
  datatype TimerSettings = TimerSettings(
    focusDuration: int,
    breakDuration: int,
    longBreakDuration: int,
    longBreakInterval: int)

  /** Focus minutes and finished pomodoros of one day. */
  datatype DailyStat = DailyStat(date: Day, focusTime: int, pomodorosCompleted: int)

  datatype UserProgress = UserProgress(
    totalFocusTime: int,
    totalPomodorosCompleted: int,
    currentStreak: int,
    lastActiveDate: Option<Day>,
    dailyStats: seq<DailyStat>)

  predicate IsDone(t: Task) { t.completed }

  predicate IsPending(t: Task) { !t.completed }

  /** Settings the settings form can produce: every duration and the interval at least 1. */
  predicate ValidSettings(s: TimerSettings)
  {
    s.focusDuration >= 1 && s.breakDuration >= 1 && s.longBreakDuration >= 1 && s.longBreakInterval >= 1
  }

  const DefaultSettings := TimerSettings(25, 5, 15, 4)

  const DefaultProgress := UserProgress(0, 0, 0, None, [])

  /** The fallback the persistence layer uses when no settings are stored. */
  function StoredSettingsFallback(): TimerSettings
  {
    TimerSettings(focusDuration := 25, breakDuration := 5, longBreakDuration := 15, longBreakInterval := 4)
  }

  /** The fallback the persistence layer uses when no progress is stored. */
  function StoredProgressFallback(): UserProgress
  {
    UserProgress(totalFocusTime := 0, totalPomodorosCompleted := 0, currentStreak := 0,
                 lastActiveDate := None, dailyStats := [])
  }

  /** The default settings are ones the timer can run with. */
  lemma DefaultsAreSound()
    ensures ValidSettings(DefaultSettings)
  {
  }

  lemma PersistenceFallbacksAgree()
    ensures StoredSettingsFallback() == DefaultSettings
    ensures StoredProgressFallback() == DefaultProgress
  {
  }
}
