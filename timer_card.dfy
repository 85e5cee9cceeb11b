/** The logic of the timer card: the "sessions until long break" counter and the main button,
    which pauses a running timer and starts a paused one. */
module TimerCard {
  import opened Types
  import Js
  import opened Timer

  /** `interval - completedSessions % interval`; an interval of 0 gives NaN, here `None`. */
  function SessionsUntilLongBreak(interval: int, completedSessions: nat): (r: Option<int>)
    ensures r.None? <==> interval == 0
    ensures interval >= 1 ==> r.Some? && 1 <= r.value <= interval
    ensures interval >= 1 ==> (r == Some(interval) <==> completedSessions % interval == 0)
  {
    if interval == 0 then None else Some(interval - Js.Rem(completedSessions, interval))
  }

  lemma {:induction false} ProductAtLeast(d: int, k: int)
    requires d >= 1 && k >= 1
    ensures d * k >= k
    decreases d
  {
    if d > 1 {
      ProductAtLeast(d - 1, k);
      assert d * k == (d - 1) * k + k;
    }
  }

  /** Euclidean division has one quotient and one remainder. */
  lemma RemainderUnique(a: int, k: int, q: int, r: int)
    requires k >= 1 && a == q * k + r && 0 <= r < k
    ensures a % k == r
  {
    var q', r' := a / k, a % k;
    assert (q - q') * k == r' - r;
    if q - q' >= 1 {
      ProductAtLeast(q - q', k);
    } else if q' - q >= 1 {
      ProductAtLeast(q' - q, k);
    }
  }

  /** Adding one to a count moves its remainder up by one, wrapping to 0. */
  lemma RemainderOfSuccessor(c: nat, k: int)
    requires k >= 1
    ensures c % k == k - 1 ==> (c + 1) % k == 0
    ensures c % k != k - 1 ==> (c + 1) % k == c % k + 1
  {
    var q, r := c / k, c % k;
    if r == k - 1 {
      RemainderUnique(c + 1, k, q + 1, 0);
    } else {
      RemainderUnique(c + 1, k, q, r + 1);
    }
  }

  /** The counter shows 1 exactly when the focus session under way ends in a long break. */
  lemma OneLeftIffLongBreakNext(settings: TimerSettings, c: nat)
    requires settings.longBreakInterval >= 1
    ensures SessionsUntilLongBreak(settings.longBreakInterval, c) == Some(1) <==>
            NextMode(Focus, c, settings) == LongBreak
  {
    RemainderOfSuccessor(c, settings.longBreakInterval);
  }

  /** A focus session that ends in a short break lowers the counter by exactly one. */
  lemma CounterStepsDown(settings: TimerSettings, c: nat)
    requires settings.longBreakInterval >= 1
    requires NextMode(Focus, c, settings) == Break
    ensures SessionsUntilLongBreak(settings.longBreakInterval, c + 1).value ==
            SessionsUntilLongBreak(settings.longBreakInterval, c).value - 1
  {
    RemainderOfSuccessor(c, settings.longBreakInterval);
  }

  /** A focus session that ends in a long break restarts the counter at the full interval. */
  lemma CounterRestarts(settings: TimerSettings, c: nat)
    requires settings.longBreakInterval >= 1
    requires NextMode(Focus, c, settings) == LongBreak
    ensures SessionsUntilLongBreak(settings.longBreakInterval, c + 1) == Some(settings.longBreakInterval)
  {
  }

  datatype Control = StartTimer | PauseTimer

  /** The handler wired to the main button. */
  function MainButton(isRunning: bool): (action: Control)
    ensures action == PauseTimer <==> isRunning
  {
    if isRunning then PauseTimer else StartTimer
  }

  /** Pressing the main button flips the running flag and nothing else. */
  method PressMainButton(timer: Timer)
    modifies timer
    ensures timer.isRunning == !old(timer.isRunning)
    ensures timer.mode == old(timer.mode) && timer.timeRemaining == old(timer.timeRemaining)
    ensures timer.completedSessions == old(timer.completedSessions) && timer.settings == old(timer.settings)
  {
    if MainButton(timer.isRunning) == PauseTimer {
      timer.Pause();
    } else {
      timer.Start();
    }
  }
}
