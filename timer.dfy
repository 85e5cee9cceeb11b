/** The countdown engine. Its state is four fields (mode, seconds left, running flag, number of
    finished focus sessions), replaced step by step by start, pause, reset, mode switch, skip,
    the once-per-second tick and the effect that reacts to new settings. */
module Timer {
  import opened Types
  import Js

  /** `getDurationForMode`: the configured minutes of a mode. */
  function DurationFor(mode: TimerMode, settings: TimerSettings): (minutes: int)
    ensures mode == Focus ==> minutes == settings.focusDuration
    ensures mode == Break ==> minutes == settings.breakDuration
    ensures mode == LongBreak ==> minutes == settings.longBreakDuration
    ensures ValidSettings(settings) ==> minutes >= 1
  {
    match mode
    case Focus => settings.focusDuration
    case Break => settings.breakDuration
    case LongBreak => settings.longBreakDuration
  }

  /** `getNextMode`: after focus, a long break when the focus session just finished brings the
      count to a multiple of the interval, otherwise a short break; after any break, focus. */
  function NextMode(mode: TimerMode, completedSessions: nat, settings: TimerSettings): (next: TimerMode)
    ensures mode != Focus ==> next == Focus
    ensures mode == Focus ==> next != Focus
    ensures mode == Focus ==>
      (next == LongBreak <==>
        settings.longBreakInterval != 0 && (completedSessions + 1) % settings.longBreakInterval == 0)
  {
    if mode == Focus then
      var nextSessionCount := completedSessions + 1;
      // An interval of 0 makes `%` NaN, and NaN is never `=== 0`.
      if settings.longBreakInterval != 0 && Js.Rem(nextSessionCount, settings.longBreakInterval) == 0
      then LongBreak
      else Break
    else
      Focus
  }

  datatype TimerState = TimerState(mode: TimerMode, timeRemaining: int, isRunning: bool, completedSessions: nat)

  /** The completion event handed to the progress aggregator: the mode that ended and its minutes. */
  datatype Completion = Completion(mode: TimerMode, duration: int)

  /** The state the hook starts in. */
  function InitialState(settings: TimerSettings): TimerState
  {
    TimerState(Focus, settings.focusDuration * 60, false, 0)
  }

  /** The state after a countdown ends, by expiring or by being skipped: the next mode, its full
      duration, paused, and one more finished session if the one that ended was a focus session. */
  function AfterCompletion(s: TimerState, settings: TimerSettings): (r: TimerState)
    ensures r.mode == NextMode(s.mode, s.completedSessions, settings)
    ensures (s.mode == Focus) <==> (r.mode != Focus)
    ensures !r.isRunning
    ensures r.completedSessions == if s.mode == Focus then s.completedSessions + 1 else s.completedSessions
    ensures ValidSettings(settings) ==> r.timeRemaining >= 60
  {
    var next := NextMode(s.mode, s.completedSessions, settings);
    TimerState(next, DurationFor(next, settings) * 60, false,
               if s.mode == Focus then s.completedSessions + 1 else s.completedSessions)
  }

  /** The state after one tick of the interval callback. */
  function TickStep(s: TimerState, settings: TimerSettings): TimerState
  {
    if s.timeRemaining <= 1 then AfterCompletion(s, settings)
    else s.(timeRemaining := s.timeRemaining - 1)
  }

  /** The `onComplete` call one tick makes, if any. */
  function TickEvent(s: TimerState, settings: TimerSettings): Option<Completion>
  {
    if s.timeRemaining <= 1 then Some(Completion(s.mode, DurationFor(s.mode, settings))) else None
  }

  /** `n` ticks in a row. */
  function RunTicks(s: TimerState, settings: TimerSettings, n: nat): TimerState
    decreases n
  {
    if n == 0 then s else TickStep(RunTicks(s, settings, n - 1), settings)
  }

  /** `n` countdowns ended one after the other (each by expiring or by a skip). */
  function Completions(s: TimerState, settings: TimerSettings, n: nat): TimerState
    decreases n
  {
    if n == 0 then s else AfterCompletion(Completions(s, settings, n - 1), settings)
  }

  /** The state after the settings-change effect: a paused timer whose durations changed
      restarts from the new focus duration, whatever its mode. */
  function AfterSettingsChange(s: TimerState, before: TimerSettings, after: TimerSettings): TimerState
  {
    if !s.isRunning && DurationsChanged(before, after)
    then s.(timeRemaining := after.focusDuration * 60)
    else s
  }

  /** The effect's dependency list: the three durations, not the interval. */
  predicate DurationsChanged(before: TimerSettings, after: TimerSettings)
  {
    before.focusDuration != after.focusDuration || before.breakDuration != after.breakDuration ||
    before.longBreakDuration != after.longBreakDuration
  }

  /** A tick with more than one second left only counts down, and reports nothing. */
  lemma TickCountsDown(s: TimerState, settings: TimerSettings)
    requires s.timeRemaining > 1
    ensures TickStep(s, settings) == s.(timeRemaining := s.timeRemaining - 1)
    ensures TickStep(s, settings).mode == s.mode && TickStep(s, settings).isRunning == s.isRunning
    ensures TickStep(s, settings).completedSessions == s.completedSessions
    ensures TickEvent(s, settings) == None
  {
  }

  /** The tick on the last second reports the ending mode with its duration and moves to the
      same state a skip moves to. */
  lemma ExpiringTickIsSkipWithEvent(s: TimerState, settings: TimerSettings)
    requires s.timeRemaining <= 1
    ensures TickStep(s, settings) == AfterCompletion(s, settings)
    ensures TickEvent(s, settings) == Some(Completion(s.mode, DurationFor(s.mode, settings)))
  {
  }

  /** A running countdown with `n` seconds left ticks `n - 1` times silently, still running, and
      the `n`-th tick reports the completion and leaves the timer paused in the next mode. */
  lemma {:induction false} CountdownLength(s: TimerState, settings: TimerSettings, n: nat, k: nat)
    requires s.isRunning && s.timeRemaining == n && 1 <= n && k < n
    ensures RunTicks(s, settings, k) == s.(timeRemaining := n - k)
    ensures TickEvent(RunTicks(s, settings, k), settings) == (if k == n - 1 then Some(Completion(s.mode, DurationFor(s.mode, settings))) else None)
    ensures k == n - 1 ==> RunTicks(s, settings, n) == AfterCompletion(s, settings)
    decreases k
  {
    if k > 0 {
      CountdownLength(s, settings, n, k - 1);
    }
    if k == n - 1 {
      assert RunTicks(s, settings, n) == TickStep(RunTicks(s, settings, k), settings);
      assert AfterCompletion(s.(timeRemaining := 1), settings) == AfterCompletion(s, settings);
    }
  }

  /** After an even number of completions from the start, the timer is back in a fresh, paused
      focus countdown with that many halves counted as focus sessions. */
  lemma {:induction false} EvenCompletions(settings: TimerSettings, j: nat)
    ensures Completions(InitialState(settings), settings, 2 * j) == InitialState(settings).(completedSessions := j)
    decreases j
  {
    if j > 0 {
      EvenCompletions(settings, j - 1);
      var s := Completions(InitialState(settings), settings, 2 * j - 2);
      assert Completions(InitialState(settings), settings, 2 * j)
          == AfterCompletion(AfterCompletion(s, settings), settings);
    }
  }

  /** The long-break cadence: the countdown following the m-th focus completion is a long break
      exactly when m is a multiple of the interval, and a short break otherwise. */
  lemma Cadence(settings: TimerSettings, m: nat)
    requires m >= 1 && settings.longBreakInterval >= 1
    ensures var s := Completions(InitialState(settings), settings, 2 * m - 1);
      s.completedSessions == m && !s.isRunning &&
      (s.mode == LongBreak <==> m % settings.longBreakInterval == 0) &&
      (s.mode == Break <==> m % settings.longBreakInterval != 0)
  {
    EvenCompletions(settings, m - 1);
  }

  /** Skipping during the fourth focus session with an interval of 4 leads to a long break. */
  lemma SkipFourthFocus()
    ensures var s := AfterCompletion(TimerState(Focus, 600, true, 3), DefaultSettings);
      s.mode == LongBreak && s.completedSessions == 4 && !s.isRunning && s.timeRemaining == 15 * 60
  {
  }

  /** The settings-change effect restarts a paused break from the focus duration, so the time
      left can exceed the break's own full duration. */
  lemma SettingsChangeIgnoresMode(s: TimerState, before: TimerSettings, after: TimerSettings)
    requires s.mode == Break && !s.isRunning && DurationsChanged(before, after)
    requires after.focusDuration > after.breakDuration
    ensures AfterSettingsChange(s, before, after).timeRemaining == after.focusDuration * 60
    ensures AfterSettingsChange(s, before, after).timeRemaining > DurationFor(Break, after) * 60
  {
  }

  /** The state of the `useTimer` hook, with the settings it was last given. */
  class Timer {
    var settings: TimerSettings
    var mode: TimerMode
    var timeRemaining: int
    var isRunning: bool
    var completedSessions: nat

    function State(): TimerState
      reads this
    {
      TimerState(mode, timeRemaining, isRunning, completedSessions)
    }

    /** Settings from the settings form, and a countdown that never shows less than one second. */
    ghost predicate Valid()
      reads this
    {
      ValidSettings(settings) && timeRemaining >= 1
    }

    /** The time left does not exceed the full duration of the current mode. */
    ghost predicate WithinModeDuration()
      reads this
    {
      timeRemaining <= DurationFor(mode, settings) * 60
    }

    constructor (settings: TimerSettings)
      ensures this.settings == settings
      ensures mode == Focus && timeRemaining == settings.focusDuration * 60
      ensures !isRunning && completedSessions == 0
      ensures State() == InitialState(settings)
      ensures ValidSettings(settings) ==> Valid() && WithinModeDuration()
    {
      this.settings := settings;
      mode := Focus;
      timeRemaining := settings.focusDuration * 60;
      isRunning := false;
      completedSessions := 0;
    }

    /** `start`: only the running flag changes; starting a running timer changes nothing. */
    method Start()
      modifies this
      ensures isRunning
      ensures mode == old(mode) && timeRemaining == old(timeRemaining)
      ensures completedSessions == old(completedSessions) && settings == old(settings)
      ensures old(isRunning) ==> State() == old(State())
    {
      isRunning := true;
    }

    /** `pause`: only the running flag changes; pausing a paused timer changes nothing. */
    method Pause()
      modifies this
      ensures !isRunning
      ensures mode == old(mode) && timeRemaining == old(timeRemaining)
      ensures completedSessions == old(completedSessions) && settings == old(settings)
      ensures !old(isRunning) ==> State() == old(State())
    {
      isRunning := false;
    }

    /** `reset`: the full duration of the current mode, paused; mode and count unchanged. */
    method Reset()
      modifies this
      ensures timeRemaining == DurationFor(mode, settings) * 60 && !isRunning
      ensures mode == old(mode) && completedSessions == old(completedSessions) && settings == old(settings)
      ensures old(Valid()) ==> Valid()
      ensures WithinModeDuration()
    {
      timeRemaining := DurationFor(mode, settings) * 60;
      isRunning := false;
    }

    /** `switchMode`: the chosen mode with its full duration, paused; the count unchanged. */
    method SwitchMode(target: TimerMode)
      modifies this
      ensures mode == target && timeRemaining == DurationFor(target, settings) * 60 && !isRunning
      ensures completedSessions == old(completedSessions) && settings == old(settings)
      ensures old(Valid()) ==> Valid()
      ensures WithinModeDuration()
    {
      mode := target;
      timeRemaining := DurationFor(target, settings) * 60;
      isRunning := false;
    }

    /** `skip`: the transition of an expiring countdown, without reporting a completion. */
    method Skip()
      modifies this
      ensures State() == AfterCompletion(old(State()), settings)
      ensures settings == old(settings)
      ensures old(Valid()) ==> Valid()
      ensures WithinModeDuration()
    {
      var next := NextMode(mode, completedSessions, settings);
      var nextCompletedSessions := if mode == Focus then completedSessions + 1 else completedSessions;
      mode := next;
      timeRemaining := DurationFor(next, settings) * 60;
      isRunning := false;
      completedSessions := nextCompletedSessions;
    }

    /** One second of a running countdown: the body of the interval callback, which exists only
        while the timer runs. On the last second it reports the ending mode and its minutes (the
        `onComplete` call) and moves on as a skip does; otherwise it counts down by one. */
    method Tick() returns (completion: Option<Completion>)
      requires isRunning
      modifies this
      ensures State() == TickStep(old(State()), settings) && completion == TickEvent(old(State()), settings)
      ensures settings == old(settings)
      ensures old(timeRemaining) <= 1 ==>
        completion == Some(Completion(old(mode), DurationFor(old(mode), settings))) &&
        State() == AfterCompletion(old(State()), settings)
      ensures old(timeRemaining) > 1 ==>
        completion == None && timeRemaining == old(timeRemaining) - 1 &&
        mode == old(mode) && isRunning && completedSessions == old(completedSessions)
      ensures old(Valid()) ==> Valid()
      ensures old(WithinModeDuration()) ==> WithinModeDuration()
    {
      if timeRemaining <= 1 {
        var duration := DurationFor(mode, settings);
        completion := Some(Completion(mode, duration));
        var next := NextMode(mode, completedSessions, settings);
        var nextCompletedSessions := if mode == Focus then completedSessions + 1 else completedSessions;
        mode := next;
        timeRemaining := DurationFor(next, settings) * 60;
        isRunning := false;
        completedSessions := nextCompletedSessions;
      } else {
        completion := None;
        timeRemaining := timeRemaining - 1;
      }
    }

    /** New settings reach the hook. When one of the three durations changed and the timer is
        paused, the countdown restarts from the focus duration, in whatever mode it is. */
    method ApplySettings(newSettings: TimerSettings)
      modifies this
      ensures settings == newSettings
      ensures State() == AfterSettingsChange(old(State()), old(settings), newSettings)
      ensures mode == old(mode) && isRunning == old(isRunning) && completedSessions == old(completedSessions)
      ensures timeRemaining ==
        if !old(isRunning) && DurationsChanged(old(settings), newSettings) then newSettings.focusDuration * 60
        else old(timeRemaining)
      ensures old(Valid()) && ValidSettings(newSettings) ==> Valid()
    {
      if !isRunning && DurationsChanged(settings, newSettings) {
        timeRemaining := newSettings.focusDuration * 60;
      }
      settings := newSettings;
    }

    /** `formattedTime`: the minutes, a colon and the seconds (below 60) in two digits; it reads
        back as the seconds left. */
    function FormattedTime(): (text: string)
      reads this
      ensures timeRemaining >= 0 ==> Js.IsColonDisplay(text, timeRemaining)
    {
      var text := Js.FormatColon(timeRemaining);
      assert timeRemaining >= 0 ==> Js.IsColonDisplay(text, timeRemaining) by {
        if timeRemaining >= 0 {
          Js.FormatColonRoundTrip(timeRemaining);
        }
      }
      text
    }
  }
}
