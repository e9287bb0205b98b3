/** The timer state machine as values: the mode, the running flag, the
    remaining seconds and the settings they are measured against, with one
    function per operation. The class in module App performs the same
    operations in place and is proved against these functions. */
module Timer {
  import opened SettingsStore

  datatype Mode = Pomodoro | ShortBreak | LongBreak

  /** Title and message of the desktop notification shown on completion. */
  datatype Notice = Notice(title: string, message: string)

  datatype TimerState = TimerState(settings: Settings, mode: Mode, running: bool, currentTime: int)

  /** The configured duration of a mode, as `reset_timer` chooses it. */
  function Duration(s: Settings, m: Mode): int
  {
    match m
    case Pomodoro => s.pomodoroTime
    case ShortBreak => s.shortBreakTime
    case LongBreak => s.longBreakTime
  }

  /** The state after start-up: settings as loaded, pomodoro mode, stopped.
      The remaining time is taken from the compiled-in pomodoro duration,
      because it is set before the settings are loaded. */
  function Initial(s: Settings): (t: TimerState)
    ensures t.mode == Pomodoro && !t.running && t.settings == s
    ensures t.currentTime == Duration(Defaults, Pomodoro)
  {
    TimerState(s, Pomodoro, false, Defaults.pomodoroTime)
  }

  /** `start_timer`: sets the running flag and changes nothing else; a no-op
      when the timer already runs. */
  function StartTimer(t: TimerState): (r: TimerState)
    ensures r.running
    ensures r.(running := t.running) == t
    ensures t.running ==> r == t
  {
    if !t.running then t.(running := true) else t
  }

  /** `pause_timer`: clears the running flag and changes nothing else. */
  function PauseTimer(t: TimerState): (r: TimerState)
    ensures !r.running
    ensures r.(running := t.running) == t
  {
    t.(running := false)
  }

  /** `reset_timer`: stops the timer and restores the current mode's full
      duration; mode and settings are kept. */
  function ResetTimer(t: TimerState): (r: TimerState)
    ensures !r.running && r.currentTime == Duration(t.settings, t.mode)
    ensures r.mode == t.mode && r.settings == t.settings
  {
    t.(running := false, currentTime := Duration(t.settings, t.mode))
  }

  /** `set_pomodoro_mode`, `set_short_break_mode`, `set_long_break_mode`:
      switch the mode, then reset. */
  function SetMode(t: TimerState, m: Mode): (r: TimerState)
    ensures r.mode == m && !r.running && r.currentTime == Duration(t.settings, m)
    ensures r.settings == t.settings
  {
    ResetTimer(t.(mode := m))
  }

  /** Which break follows a completed pomodoro: a long break when the
      (already incremented) count is a multiple of the interval. Python's
      `%` and Dafny's agree on whether the remainder is zero for every
      non-zero interval; an interval of zero raises in the source. */
  function NextBreak(count: int, interval: int): (m: Mode)
    requires interval != 0
    ensures m != Pomodoro
  {
    if count % interval == 0 then LongBreak else ShortBreak
  }

  /** Completion is defined unless it would compute a remainder modulo zero. */
  predicate CanComplete(t: TimerState)
  {
    t.mode == Pomodoro ==> t.settings.longBreakInterval != 0
  }

  /** `timer_completed` without the sound, the notification and the save:
      a finished pomodoro is counted and followed by a break, a finished
      break by a pomodoro; either way the new mode starts stopped and full. */
  function Completed(t: TimerState): (r: TimerState)
    requires CanComplete(t)
    ensures !r.running && r.currentTime == Duration(r.settings, r.mode)
    ensures t.mode == Pomodoro ==>
              && r.settings == t.settings.(pomodoroCount := t.settings.pomodoroCount + 1)
              && r.mode != Pomodoro
              && (r.mode == LongBreak <==> r.settings.pomodoroCount % t.settings.longBreakInterval == 0)
    ensures t.mode != Pomodoro ==> r.settings == t.settings && r.mode == Pomodoro
  {
    var stopped := t.(running := false);
    if t.mode == Pomodoro then
      var count := t.settings.pomodoroCount + 1;
      var counted := stopped.(settings := stopped.settings.(pomodoroCount := count));
      SetMode(counted, NextBreak(count, t.settings.longBreakInterval))
    else
      SetMode(stopped, Pomodoro)
  }

  /** The notification `timer_completed` requests for the mode that ended. */
  function CompletionNotice(m: Mode): Notice
  {
    if m == Pomodoro then Notice("Pomodoro Completed", "Time to take a break!")
    else Notice("Break Completed", "Time to focus!")
  }

  /** The remaining time and the running flag at the moment of completion
      play no part in its outcome. */
  lemma CompletedIgnoresClock(t: TimerState, running: bool, time: int)
    requires CanComplete(t)
    ensures Completed(t.(running := running, currentTime := time)) == Completed(t)
  {
  }

  /** The check after `run_timer`'s loop: completion fires only if the timer
      is still running and no time is left. */
  function LoopExit(t: TimerState): (r: TimerState)
    requires t.running && t.currentTime <= 0 ==> CanComplete(t)
  {
    if t.running && t.currentTime <= 0 then Completed(t) else t
  }

  /** The countdown can run to its end: a running pomodoro has an interval
      it can take a remainder by. Every step keeps this. */
  predicate Safe(t: TimerState)
  {
    t.running ==> CanComplete(t)
  }

  /** One pass of `run_timer`'s loop as a tick: while time is left and the
      timer runs, one second is taken off and nothing else changes; once
      the loop condition fails, the exit check runs. */
  function Step(t: TimerState): (r: TimerState)
    requires t.running && t.currentTime <= 0 ==> CanComplete(t)
    ensures t.currentTime > 0 && t.running ==> r == t.(currentTime := t.currentTime - 1)
    ensures !t.running ==> r == t
  {
    if t.currentTime > 0 && t.running then t.(currentTime := t.currentTime - 1) else LoopExit(t)
  }

  /** `n` ticks in a row. */
  function Steps(t: TimerState, n: nat): (r: TimerState)
    requires Safe(t)
    ensures Safe(r)
    decreases n
  {
    if n == 0 then t else Steps(Step(t), n - 1)
  }

  /** A stopped timer stays as it is under any number of ticks. */
  lemma {:induction false} StepsWhenStopped(t: TimerState, n: nat)
    requires !t.running
    ensures Steps(t, n) == t
  {
    if n > 0 {
      StepsWhenStopped(Step(t), n - 1);
    }
  }

  /** The countdown: from a running timer with `c >= 0` seconds left, the
      first `c` ticks each take one second off and change nothing else, and
      every later tick count gives the completed state. So completion fires
      exactly once, at tick `c + 1`. */
  lemma {:induction false} Countdown(t: TimerState, n: nat)
    requires Safe(t) && t.running && t.currentTime >= 0
    ensures Steps(t, n) == if n <= t.currentTime then t.(currentTime := t.currentTime - n) else Completed(t)
    decreases n
  {
    if n > 0 {
      if t.currentTime > 0 {
        var u := t.(currentTime := t.currentTime - 1);
        Countdown(u, n - 1);
        CompletedIgnoresClock(t, true, t.currentTime - 1);
      } else {
        StepsWhenStopped(Completed(t), n - 1);
      }
    }
  }

  /** While it runs, the remaining time never increases from one tick to the
      next and never goes below zero. */
  lemma CountdownMonotone(t: TimerState, m: nat, n: nat)
    requires Safe(t) && t.running && t.currentTime >= 0
    requires m <= n <= t.currentTime
    ensures Steps(t, n).running
    ensures 0 <= Steps(t, n).currentTime <= Steps(t, m).currentTime
  {
    Countdown(t, m);
    Countdown(t, n);
  }

  /** `run_timer` left alone: the loop, then the exit check. */
  function RunTimer(t: TimerState): (r: TimerState)
    requires Safe(t)
    decreases if t.currentTime > 0 then t.currentTime else 0
  {
    if t.currentTime > 0 && t.running then RunTimer(t.(currentTime := t.currentTime - 1))
    else LoopExit(t)
  }

  /** An uninterrupted countdown of a running timer ends in its completion;
      on a stopped timer it does nothing. */
  lemma {:induction false} RunTimerOutcome(t: TimerState)
    requires Safe(t)
    ensures RunTimer(t) == if t.running then Completed(t) else t
    decreases if t.currentTime > 0 then t.currentTime else 0
  {
    if t.currentTime > 0 && t.running {
      var u := t.(currentTime := t.currentTime - 1);
      RunTimerOutcome(u);
      CompletedIgnoresClock(t, true, t.currentTime - 1);
    }
  }

  /** Running the loop uninterrupted is the same as one tick per remaining
      second plus the final one. */
  lemma RunTimerIsSteps(t: TimerState)
    requires Safe(t) && t.running && t.currentTime >= 0
    ensures RunTimer(t) == Steps(t, t.currentTime + 1)
  {
    RunTimerOutcome(t);
    Countdown(t, t.currentTime + 1);
  }

  /** The two completion examples: interval 4, count 3 gives a long break
      and count 4; count 2 gives a short break and count 3. */
  lemma CompletionExamples(s: Settings)
    requires s.longBreakInterval == 4
    ensures Completed(TimerState(s.(pomodoroCount := 3), Pomodoro, true, 0))
            == TimerState(s.(pomodoroCount := 4), LongBreak, false, s.longBreakTime)
    ensures Completed(TimerState(s.(pomodoroCount := 2), Pomodoro, true, 0))
            == TimerState(s.(pomodoroCount := 3), ShortBreak, false, s.shortBreakTime)
  {
  }

  /** From start-up with the compiled-in settings: after Start and 1500
      ticks the clock reads zero and nothing is counted yet; the next tick
      completes the pomodoro once, counting it and starting a short break. */
  lemma FirstPomodoro(n: nat)
    requires n > 1500
    ensures Steps(StartTimer(Initial(Defaults)), 1500)
            == TimerState(Defaults, Pomodoro, true, 0)
    ensures Steps(StartTimer(Initial(Defaults)), n)
            == TimerState(Defaults.(pomodoroCount := 1), ShortBreak, false, 5 * 60)
  {
    var t := StartTimer(Initial(Defaults));
    Countdown(t, 1500);
    Countdown(t, n);
  }

  /** Events that change the timer: menu commands and the countdown's tick. */
  datatype Command = StartPressed | PausePressed | ResetPressed | ModeChosen(mode: Mode) | TickElapsed

  function Apply(t: TimerState, c: Command): (r: TimerState)
    requires t.settings.longBreakInterval != 0
    ensures r.settings.(pomodoroCount := t.settings.pomodoroCount) == t.settings
  {
    match c
    case StartPressed => StartTimer(t)
    case PausePressed => PauseTimer(t)
    case ResetPressed => ResetTimer(t)
    case ModeChosen(m) => SetMode(t, m)
    case TickElapsed => Step(t)
  }

  function ApplyAll(t: TimerState, cs: seq<Command>): TimerState
    requires t.settings.longBreakInterval != 0
    decreases |cs|
  {
    if cs == [] then t else ApplyAll(Apply(t, cs[0]), cs[1..])
  }

  /** Durations that are not negative and a clock that is not negative. */
  predicate NonNegative(t: TimerState)
  {
    t.currentTime >= 0 && t.settings.pomodoroTime >= 0
    && t.settings.shortBreakTime >= 0 && t.settings.longBreakTime >= 0
  }

  /** Over any sequence of commands, the pomodoro count never decreases and
      the other settings never change; when no duration and not the clock is
      negative at the start, the clock never goes negative. */
  lemma {:induction false} ApplyAllInvariant(t: TimerState, cs: seq<Command>)
    requires t.settings.longBreakInterval != 0
    ensures NonNegative(t) ==> NonNegative(ApplyAll(t, cs))
    ensures ApplyAll(t, cs).settings.pomodoroCount >= t.settings.pomodoroCount
    ensures ApplyAll(t, cs).settings.(pomodoroCount := t.settings.pomodoroCount) == t.settings
    decreases |cs|
  {
    if cs != [] {
      ApplyAllInvariant(Apply(t, cs[0]), cs[1..]);
    }
  }
}
