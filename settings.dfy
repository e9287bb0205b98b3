/** The five persisted settings, the settings document written by
    `save_settings` and read back by `load_settings`, and the field update
    done by the settings dialog. The document is modelled as the map that
    the JSON object holds. */
module SettingsStore {
  import opened Common

  const PomodoroTimeKey: string := "pomodoro_time"
  const ShortBreakTimeKey: string := "short_break_time"
  const LongBreakTimeKey: string := "long_break_time"
  const LongBreakIntervalKey: string := "long_break_interval"
  const PomodoroCountKey: string := "pomodoro_count"

  const Keys: set<string> :=
    {PomodoroTimeKey, ShortBreakTimeKey, LongBreakTimeKey, LongBreakIntervalKey, PomodoroCountKey}

  /** Durations are in seconds. Nothing constrains the values: neither the
      loader nor the dialog validates them. */
  datatype Settings = Settings(
    pomodoroTime: int,
    shortBreakTime: int,
    longBreakTime: int,
    longBreakInterval: int,
    pomodoroCount: int)

  /** The compiled-in values: 25, 5 and 15 minutes, a long break every 4
      pomodoros, no pomodoro completed yet. */
  const Defaults: Settings := Settings(25 * 60, 5 * 60, 15 * 60, 4, 0)

  /** `save_settings`: the document holds exactly the five keys. */
  function Encode(s: Settings): (doc: map<string, int>)
    ensures doc.Keys == Keys
  {
    map[PomodoroTimeKey := s.pomodoroTime,
        ShortBreakTimeKey := s.shortBreakTime,
        LongBreakTimeKey := s.longBreakTime,
        LongBreakIntervalKey := s.longBreakInterval,
        PomodoroCountKey := s.pomodoroCount]
  }

  /** `dict.get(key, default)`. */
  function Get(doc: map<string, int>, key: string, default: int): int
  {
    if key in doc then doc[key] else default
  }

  /** `load_settings` on a document that was read: each field takes the
      document's value when its key is present and keeps its prior value
      otherwise. Other keys are ignored. */
  function Decode(doc: map<string, int>, prior: Settings): (s: Settings)
  {
    Settings(
      Get(doc, PomodoroTimeKey, prior.pomodoroTime),
      Get(doc, ShortBreakTimeKey, prior.shortBreakTime),
      Get(doc, LongBreakTimeKey, prior.longBreakTime),
      Get(doc, LongBreakIntervalKey, prior.longBreakInterval),
      Get(doc, PomodoroCountKey, prior.pomodoroCount))
  }

  /** `load_settings` as a whole: no file leaves every field as it was. */
  function Load(file: Option<map<string, int>>, prior: Settings): (s: Settings)
    ensures file.None? ==> s == prior
    ensures file.Some? && Keys <= file.value.Keys ==> Encode(s) == file.value - (file.value.Keys - Keys)
  {
    if file.Some? then Decode(file.value, prior) else prior
  }

  /** Saving and loading again restores all five fields, whatever was held
      before the load. */
  lemma DecodeEncode(s: Settings, prior: Settings)
    ensures Decode(Encode(s), prior) == s
  {
  }

  /** Loading overlays the document's values for the five keys on the saved
      form of the prior settings: a key absent from the document keeps the
      field's prior value, a present key overrides it, other keys play no part. */
  lemma DecodeOverlay(doc: map<string, int>, prior: Settings)
    ensures Encode(Decode(doc, prior)) == Encode(prior) + (map k | k in doc.Keys * Keys :: doc[k])
  {
  }

  /** Loading is idempotent, and a document with none of the keys changes
      nothing. */
  lemma DecodeIdempotent(doc: map<string, int>, prior: Settings)
    ensures Decode(doc, Decode(doc, prior)) == Decode(doc, prior)
    ensures doc.Keys !! Keys ==> Decode(doc, prior) == prior
  {
  }

  /** Outcome of pressing Save in the settings dialog. */
  datatype FormResult = FormResult(settings: Settings, ok: bool)

  /** The dialog's `save_settings`: the four entries are parsed in order
      (`None` is an entry that `int()` rejects); the durations are stored as
      minutes times 60 and the interval as entered. The first entry that does
      not parse stops the update with an error, after the entries before it
      were already stored. */
  function ApplyForm(s: Settings, pomodoro: Option<int>, shortBreak: Option<int>,
                     longBreak: Option<int>, interval: Option<int>): (r: FormResult)
    ensures r.ok <==> pomodoro.Some? && shortBreak.Some? && longBreak.Some? && interval.Some?
    ensures r.ok ==> r.settings == Settings(pomodoro.value * 60, shortBreak.value * 60,
                                            longBreak.value * 60, interval.value, s.pomodoroCount)
    ensures r.settings.pomodoroCount == s.pomodoroCount
    ensures !r.ok ==> r.settings.longBreakInterval == s.longBreakInterval
    ensures pomodoro.None? ==> r.settings == s
  {
    if pomodoro.None? then FormResult(s, false)
    else
      var s1 := s.(pomodoroTime := pomodoro.value * 60);
      if shortBreak.None? then FormResult(s1, false)
      else
        var s2 := s1.(shortBreakTime := shortBreak.value * 60);
        if longBreak.None? then FormResult(s2, false)
        else
          var s3 := s2.(longBreakTime := longBreak.value * 60);
          if interval.None? then FormResult(s3, false)
          else FormResult(s3.(longBreakInterval := interval.value), true)
  }

  /** No rollback: when an entry is rejected, the entries before it stay
      stored and the entries after it keep their old values, whatever they
      hold. */
  lemma ApplyFormPartial(s: Settings, p: Option<int>, sb: Option<int>, lb: Option<int>, iv: Option<int>)
    ensures p.Some? && sb.None? ==>
              ApplyForm(s, p, sb, lb, iv).settings == s.(pomodoroTime := p.value * 60)
    ensures p.Some? && sb.Some? && lb.None? ==>
              ApplyForm(s, p, sb, lb, iv).settings
              == s.(pomodoroTime := p.value * 60, shortBreakTime := sb.value * 60)
    ensures p.Some? && sb.Some? && lb.Some? && iv.None? ==>
              ApplyForm(s, p, sb, lb, iv).settings
              == s.(pomodoroTime := p.value * 60, shortBreakTime := sb.value * 60,
                    longBreakTime := lb.value * 60)
  {
  }
}
