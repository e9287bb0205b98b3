/** The application object: the timer fields, the task list and the two
    documents in the data directory, updated in place by the operations the
    menu and the countdown invoke. Each method is proved against the value
    functions of modules Timer, TaskList and SettingsStore. */
module App {
  import opened Common
  import opened SettingsStore
  import opened Timer
  import opened TaskList
  import Clock

  class PomodoroApp {
    var pomodoroTime: int
    var shortBreakTime: int
    var longBreakTime: int
    var longBreakInterval: int
    var timerRunning: bool
    var currentTime: int
    var timerMode: Mode
    var pomodoroCount: int
    var tasks: seq<Task>
    /** The settings document and the task document; `None` while the file
        does not exist. */
    var settingsFile: Option<map<string, int>>
    var tasksFile: Option<seq<Task>>

    function CurrentSettings(): Settings
      reads this
    {
      Settings(pomodoroTime, shortBreakTime, longBreakTime, longBreakInterval, pomodoroCount)
    }

    function State(): TimerState
      reads this
    {
      TimerState(CurrentSettings(), timerMode, timerRunning, currentTime)
    }

    /** Start-up: the defaults, then the settings and the tasks as found on
        disk. The remaining time is set before the settings are loaded. */
    constructor (settingsFile: Option<map<string, int>>, tasksFile: Option<seq<Task>>)
      ensures CurrentSettings() == Load(settingsFile, Defaults)
      ensures State() == Initial(CurrentSettings())
      ensures tasks == (if tasksFile.Some? then tasksFile.value else [])
      ensures this.settingsFile == settingsFile && this.tasksFile == tasksFile
    {
      pomodoroTime := 25 * 60;
      shortBreakTime := 5 * 60;
      longBreakTime := 15 * 60;
      longBreakInterval := 4;
      timerRunning := false;
      currentTime := 25 * 60;
      timerMode := Pomodoro;
      pomodoroCount := 0;
      tasks := [];
      this.settingsFile := settingsFile;
      this.tasksFile := tasksFile;
      new;
      LoadSettings();
      LoadTasks();
    }

    /** `load_settings`: each key present in the document replaces its field;
        no value is checked. */
    method LoadSettings()
      modifies this`pomodoroTime, this`shortBreakTime, this`longBreakTime,
               this`longBreakInterval, this`pomodoroCount
      ensures CurrentSettings() == Load(settingsFile, old(CurrentSettings()))
    {
      if settingsFile.Some? {
        var doc := settingsFile.value;
        pomodoroTime := Get(doc, PomodoroTimeKey, pomodoroTime);
        shortBreakTime := Get(doc, ShortBreakTimeKey, shortBreakTime);
        longBreakTime := Get(doc, LongBreakTimeKey, longBreakTime);
        longBreakInterval := Get(doc, LongBreakIntervalKey, longBreakInterval);
        pomodoroCount := Get(doc, PomodoroCountKey, pomodoroCount);
      }
    }

    /** `save_settings`: overwrites the settings document with the five fields. */
    method SaveSettings()
      modifies this`settingsFile
      ensures settingsFile == Some(Encode(CurrentSettings()))
    {
      settingsFile := Some(Encode(CurrentSettings()));
    }

    /** `load_tasks`: the stored list replaces the current one when the file
        exists. */
    method LoadTasks()
      modifies this`tasks
      ensures tasks == if tasksFile.Some? then tasksFile.value else old(tasks)
    {
      if tasksFile.Some? {
        tasks := tasksFile.value;
      }
    }

    /** `save_tasks`: overwrites the task document with the whole list. */
    method SaveTasks()
      modifies this`tasksFile
      ensures tasksFile == Some(tasks)
    {
      tasksFile := Some(tasks);
    }

    /** `start_timer`; the countdown it spawns is `RunTimer` (or `Tick`
        repeatedly). */
    method StartTimer()
      modifies this`timerRunning
      ensures State() == Timer.StartTimer(old(State()))
    {
      if !timerRunning {
        timerRunning := true;
      }
    }

    method PauseTimer()
      modifies this`timerRunning
      ensures State() == Timer.PauseTimer(old(State()))
    {
      timerRunning := false;
    }

    method ResetTimer()
      modifies this`timerRunning, this`currentTime
      ensures State() == Timer.ResetTimer(old(State()))
    {
      timerRunning := false;
      if timerMode == Pomodoro {
        currentTime := pomodoroTime;
      } else if timerMode == ShortBreak {
        currentTime := shortBreakTime;
      } else if timerMode == LongBreak {
        currentTime := longBreakTime;
      }
    }

    method SetPomodoroMode()
      modifies this`timerMode, this`timerRunning, this`currentTime
      ensures State() == SetMode(old(State()), Pomodoro)
    {
      timerMode := Pomodoro;
      ResetTimer();
    }

    method SetShortBreakMode()
      modifies this`timerMode, this`timerRunning, this`currentTime
      ensures State() == SetMode(old(State()), ShortBreak)
    {
      timerMode := ShortBreak;
      ResetTimer();
    }

    method SetLongBreakMode()
      modifies this`timerMode, this`timerRunning, this`currentTime
      ensures State() == SetMode(old(State()), LongBreak)
    {
      timerMode := LongBreak;
      ResetTimer();
    }

    /** `timer_completed`: switches mode as `Completed` says, returns the
        notification it requests and saves the settings (with the new count). */
    method TimerCompleted() returns (notice: Notice)
      requires CanComplete(State())
      modifies this`timerRunning, this`currentTime, this`timerMode, this`pomodoroCount, this`settingsFile
      ensures State() == Completed(old(State()))
      ensures notice == CompletionNotice(old(timerMode))
      ensures settingsFile == Some(Encode(CurrentSettings()))
    {
      timerRunning := false;
      if timerMode == Pomodoro {
        notice := Notice("Pomodoro Completed", "Time to take a break!");
        pomodoroCount := pomodoroCount + 1;
        if pomodoroCount % longBreakInterval == 0 {
          SetLongBreakMode();
        } else {
          SetShortBreakMode();
        }
      } else {
        notice := Notice("Break Completed", "Time to focus!");
        SetPomodoroMode();
      }
      SaveSettings();
    }

    /** One pass of the countdown: while time is left and the timer runs, the
        one-second wait and a second taken off; otherwise the loop has ended
        and completion fires if the timer still runs. In the source that exit
        check follows the last decrement with no further wait, so the
        completing tick takes no time: 1500 seconds take 1501 ticks. */
    method Tick() returns (notice: Option<Notice>)
      requires timerRunning && currentTime <= 0 ==> CanComplete(State())
      modifies this`timerRunning, this`currentTime, this`timerMode, this`pomodoroCount, this`settingsFile
      ensures State() == Step(old(State()))
      ensures notice.Some? <==> old(timerRunning && currentTime <= 0)
      ensures notice.Some? ==> notice.value == CompletionNotice(old(timerMode))
                               && settingsFile == Some(Encode(CurrentSettings()))
      ensures notice.None? ==> settingsFile == old(settingsFile)
    {
      if currentTime > 0 && timerRunning {
        currentTime := currentTime - 1;
        notice := None;
      } else if timerRunning && currentTime <= 0 {
        var n := TimerCompleted();
        notice := Some(n);
      } else {
        notice := None;
      }
    }

    /** `run_timer` without interruption: counts down to zero one second at a
        time, then completes if the timer is still running. */
    method RunTimer() returns (notice: Option<Notice>)
      requires Safe(State())
      modifies this`timerRunning, this`currentTime, this`timerMode, this`pomodoroCount, this`settingsFile
      ensures State() == Timer.RunTimer(old(State()))
      ensures notice.Some? <==> old(timerRunning)
      ensures notice.Some? ==> notice.value == CompletionNotice(old(timerMode))
                               && settingsFile == Some(Encode(CurrentSettings()))
      ensures notice.None? ==> settingsFile == old(settingsFile)
    {
      while currentTime > 0 && timerRunning
        invariant Safe(State())
        invariant Timer.RunTimer(State()) == Timer.RunTimer(old(State()))
        invariant timerRunning == old(timerRunning) && timerMode == old(timerMode)
        invariant pomodoroCount == old(pomodoroCount) && settingsFile == old(settingsFile)
        decreases currentTime
      {
        currentTime := currentTime - 1;
      }
      if timerRunning && currentTime <= 0 {
        var n := TimerCompleted();
        notice := Some(n);
      } else {
        notice := None;
      }
    }

    /** `format_time` of the current remaining time. */
    method FormatTime() returns (s: string)
      ensures s == Clock.FormatTime(currentTime)
      ensures currentTime >= 0 ==> Clock.ParseClock(s) == Some(currentTime)
    {
      s := Clock.FormatTime(currentTime);
      if currentTime >= 0 {
        Clock.ParseFormatTime(currentTime);
      }
    }

    /** `add_task` (tray version): appends the stripped name when it is
        non-empty and then saves the list; otherwise nothing changes. */
    method AddTask(input: Option<string>, createdAt: string)
      modifies this`tasks, this`tasksFile
      ensures tasks == TaskList.AddTask(old(tasks), input, createdAt)
      ensures tasksFile == if |tasks| == |old(tasks)| + 1 then Some(tasks) else old(tasksFile)
    {
      if input.Some? && input.value != [] && Strip(input.value) != [] {
        tasks := tasks + [Task(Strip(input.value), false, createdAt)];
        SaveTasks();
      }
    }

    method ToggleTaskCompleted(index: int)
      modifies this`tasks, this`tasksFile
      ensures tasks == Toggle(old(tasks), index)
      ensures tasksFile == if 0 <= index < |tasks| then Some(tasks) else old(tasksFile)
    {
      if 0 <= index < |tasks| {
        tasks := tasks[index := tasks[index].(completed := !tasks[index].completed)];
        SaveTasks();
      }
    }

    method DeleteTask(index: int)
      modifies this`tasks, this`tasksFile
      ensures tasks == Delete(old(tasks), index)
      ensures tasksFile == if 0 <= index < |old(tasks)| then Some(tasks) else old(tasksFile)
    {
      if 0 <= index < |tasks| {
        tasks := tasks[..index] + tasks[index + 1..];
        SaveTasks();
      }
    }

    /** Save in the settings dialog: stores the parsed entries as
        `ApplyForm` says; when all four parse, saves the settings and resets
        the timer, otherwise (the error dialog) keeps what was already stored
        and neither saves nor resets. */
    method ApplySettingsForm(pomodoro: Option<int>, shortBreak: Option<int>,
                             longBreak: Option<int>, interval: Option<int>) returns (ok: bool)
      modifies this`pomodoroTime, this`shortBreakTime, this`longBreakTime, this`longBreakInterval,
               this`timerRunning, this`currentTime, this`settingsFile
      ensures FormResult(CurrentSettings(), ok) == ApplyForm(old(CurrentSettings()), pomodoro, shortBreak, longBreak, interval)
      ensures ok ==> settingsFile == Some(Encode(CurrentSettings()))
                     && State() == Timer.ResetTimer(old(State()).(settings := CurrentSettings()))
      ensures !ok ==> settingsFile == old(settingsFile)
                      && State() == old(State()).(settings := CurrentSettings())
    {
      ok := false;
      if pomodoro.None? { return; }
      pomodoroTime := pomodoro.value * 60;
      if shortBreak.None? { return; }
      shortBreakTime := shortBreak.value * 60;
      if longBreak.None? { return; }
      longBreakTime := longBreak.value * 60;
      if interval.None? { return; }
      longBreakInterval := interval.value;
      ok := true;
      SaveSettings();
      ResetTimer();
    }
  }
}
