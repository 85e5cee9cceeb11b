/** The settings form: a local copy of the settings, four number inputs each clamped to its
    range with its own default, and a reset to the saved settings on opening and on cancel. */
module SettingsModal {
  import opened Types
  import Js

  /** `Math.max(1, Math.min(hi, parseInt(value) || d))`, given what `parseInt` returned. */
  function Clamped(parsed: Option<int>, hi: int, d: int): (r: int)
    requires 1 <= d <= hi
    ensures 1 <= r <= hi
    ensures parsed.None? || parsed == Some(0) ==> r == d
    ensures parsed.Some? && 1 <= parsed.value <= hi ==> r == parsed.value
    ensures parsed.Some? && parsed.value > hi ==> r == hi
    ensures parsed.Some? && parsed.value < 0 ==> r == 1
  {
    Js.Max(1, Js.Min(hi, Js.OrDefault(parsed, d)))
  }

  /** The four fields of the settings. */
  datatype SettingKey = FocusDuration | BreakDuration | LongBreakDuration | LongBreakInterval

  /** The range and default of each input: focus 1 to 60 (25), break 1 to 30 (5), long break
      1 to 60 (15), interval 1 to 10 (4). */
  function UpperBound(key: SettingKey): int
  {
    match key
    case FocusDuration => 60
    case BreakDuration => 30
    case LongBreakDuration => 60
    case LongBreakInterval => 10
  }

  function DefaultFor(key: SettingKey): (d: int)
    ensures 1 <= d <= UpperBound(key)
  {
    match key
    case FocusDuration => 25
    case BreakDuration => 5
    case LongBreakDuration => 15
    case LongBreakInterval => 4
  }

  /** What an input's `onChange` passes to `updateSetting`. */
  function InputValue(key: SettingKey, parsed: Option<int>): (r: int)
    ensures 1 <= r <= UpperBound(key)
    ensures parsed.None? || parsed == Some(0) ==> r == DefaultFor(key)
    ensures parsed.Some? && 1 <= parsed.value <= UpperBound(key) ==> r == parsed.value
  {
    Clamped(parsed, UpperBound(key), DefaultFor(key))
  }

  /** The four input rules, with their constants written out. */
  lemma InputRules(parsed: Option<int>)
    ensures 1 <= InputValue(FocusDuration, parsed) <= 60
    ensures 1 <= InputValue(BreakDuration, parsed) <= 30
    ensures 1 <= InputValue(LongBreakInterval, parsed) <= 10
    ensures 1 <= InputValue(LongBreakDuration, parsed) <= 60
    ensures parsed.None? || parsed == Some(0) ==>
      (InputValue(FocusDuration, parsed) == 25 && InputValue(BreakDuration, parsed) == 5 &&
       InputValue(LongBreakInterval, parsed) == 4 && InputValue(LongBreakDuration, parsed) == 15)
  {
  }

  function Get(s: TimerSettings, key: SettingKey): int
  {
    match key
    case FocusDuration => s.focusDuration
    case BreakDuration => s.breakDuration
    case LongBreakDuration => s.longBreakDuration
    case LongBreakInterval => s.longBreakInterval
  }

  /** `{ ...prev, [key]: value }`: the field named by `key` set, every other field kept. */
  function WithSetting(s: TimerSettings, key: SettingKey, value: int): (r: TimerSettings)
    ensures Get(r, key) == value
    ensures forall k :: k != key ==> Get(r, k) == Get(s, k)
  {
    match key
    case FocusDuration => s.(focusDuration := value)
    case BreakDuration => s.(breakDuration := value)
    case LongBreakDuration => s.(longBreakDuration := value)
    case LongBreakInterval => s.(longBreakInterval := value)
  }

  /** Settings are determined by their four fields. */
  lemma SettingsExtensional(a: TimerSettings, b: TimerSettings)
    requires forall k :: Get(a, k) == Get(b, k)
    ensures a == b
  {
    assert Get(a, FocusDuration) == Get(b, FocusDuration);
    assert Get(a, BreakDuration) == Get(b, BreakDuration);
    assert Get(a, LongBreakDuration) == Get(b, LongBreakDuration);
    assert Get(a, LongBreakInterval) == Get(b, LongBreakInterval);
  }

  /** Setting a field to the value it already has changes nothing, and a second update of the
      same field overrides the first. */
  lemma WithSettingLaws(s: TimerSettings, key: SettingKey, v: int, w: int)
    ensures WithSetting(s, key, Get(s, key)) == s
    ensures WithSetting(WithSetting(s, key, v), key, w) == WithSetting(s, key, w)
  {
    SettingsExtensional(WithSetting(s, key, Get(s, key)), s);
    SettingsExtensional(WithSetting(WithSetting(s, key, v), key, w), WithSetting(s, key, w));
  }

  /** Whatever is typed, the form only ever holds settings the timer can run with. */
  lemma InputKeepsSettingsValid(s: TimerSettings, key: SettingKey, parsed: Option<int>)
    requires ValidSettings(s)
    ensures ValidSettings(WithSetting(s, key, InputValue(key, parsed)))
  {
    var r := WithSetting(s, key, InputValue(key, parsed));
    assert Get(r, FocusDuration) >= 1 && Get(r, BreakDuration) >= 1;
    assert Get(r, LongBreakDuration) >= 1 && Get(r, LongBreakInterval) >= 1;
  }

  /** The `localSettings` state of the dialog. */
  class SettingsForm {
    var localSettings: TimerSettings

    /** `useState(settings)`. */
    constructor(settings: TimerSettings)
      ensures localSettings == settings
    {
      localSettings := settings;
    }

    /** The effect that runs when the dialog opens: the saved settings are copied in. */
    method Open(settings: TimerSettings)
      modifies this
      ensures localSettings == settings
    {
      localSettings := settings;
    }

    /** `handleClose`: unsaved edits are thrown away. */
    method Close(settings: TimerSettings)
      modifies this
      ensures localSettings == settings
    {
      localSettings := settings;
    }

    method UpdateSetting(key: SettingKey, value: int)
      modifies this
      ensures localSettings == WithSetting(old(localSettings), key, value)
      ensures Get(localSettings, key) == value
      ensures forall k :: k != key ==> Get(localSettings, k) == Get(old(localSettings), k)
    {
      match key
      case FocusDuration => localSettings := localSettings.(focusDuration := value);
      case BreakDuration => localSettings := localSettings.(breakDuration := value);
      case LongBreakDuration => localSettings := localSettings.(longBreakDuration := value);
      case LongBreakInterval => localSettings := localSettings.(longBreakInterval := value);
    }

    /** An input's `onChange`: the clamped value stored in its field. */
    method Input(key: SettingKey, parsed: Option<int>)
      modifies this
      ensures localSettings == WithSetting(old(localSettings), key, InputValue(key, parsed))
      ensures ValidSettings(old(localSettings)) ==> ValidSettings(localSettings)
    {
      if ValidSettings(localSettings) {
        InputKeepsSettingsValid(localSettings, key, parsed);
      }
      UpdateSetting(key, Clamped(parsed, UpperBound(key), DefaultFor(key)));
    }

    /** `handleSave`: the settings `onSave` is called with. */
    method Save() returns (saved: TimerSettings)
      ensures saved == localSettings
    {
      saved := localSettings;
    }
  }
}
