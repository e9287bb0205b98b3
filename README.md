# Pomodoro timer: a verified model of its core

This project models the core of a menu-bar Pomodoro timer (`app.py`, class
`PomodoroTrayApp`). It has three parts:

- **The timer state machine.** It has three modes (pomodoro, short break, long break), a running flag, the remaining seconds and the settings: three durations, the long-break interval and the pomodoro count.
- **The task list.** Its records are `{name, completed, created_at}`, addressed by position.
- **The two documents** the application keeps in its data directory.

Modules:

- `Common`: an `Option` datatype (absent file, cancelled dialog, entry that does not parse).
- `Clock`: `format_time` (`MM:SS`), with a parser that reads the rendering back as its partner.
- `SettingsStore`: the five settings, the settings document as a `map<string, int>` (`save_settings` / `load_settings`), and the field update made by the settings dialog.
- `TaskList`: Python's `str.strip`, `add_task`, `toggle_task_completed`, `delete_task`, and the macOS `add_task` variant.
- `Timer`: the timer state as a value, with one function per operation. The countdown loop is modelled as a tick `Step`, and `Completed` is the completion transition. The lemmas about them include the countdown theorem, the completion rule and an invariant over any sequence of timer commands (the settings dialog is not one of them).
- `App`: class `PomodoroApp`, holding the source's fields. Its methods update the fields in place. Each method is proved against the functions above. `RunTimer` is the `while` loop of `run_timer`, and `Tick` is one pass of it.

The model follows the code in these points:

- Loaded settings and dialog entries are never validated. Durations may be zero or negative, and a negative duration renders as, for example, `-1:55`.
- A long-break interval of 0 is not coerced. It fails when a pomodoro completes.
- At start-up the remaining time is set from the compiled-in 25 minutes before the settings file is read. So it is 1500 seconds whatever pomodoro duration the file holds.
- The tray `add_task` rejects names that are empty after stripping. The macOS variant does not (see Findings).

## Model

| member | source | states |
|---|---|---|
| Clock.Pad2 | app.py:356 | `{n:02d}`: at least two characters, all digits for `n >= 0`, exactly two for `0 <= n < 100`, no leading zero from 10 on (so no extra zeros above 99), and for negative `n` a minus sign followed by digits with no leading zero |
| Clock.FormatTime | app.py:353-356 | minutes, a colon, then exactly two digits of seconds; five characters with no leading minus exactly when `0 <= t < 6000` (no hour rollover); from ten minutes on the minutes carry no leading zero; all digits for `t >= 0` |
| Clock.ParseDigitsOfNegativePad2 | app.py:356 | `{n:02d}` of a negative `n` is a minus sign followed by digits that read back as `-n` |
| Clock.FormatTimeNegative | app.py:353-356 | a negative time renders as a minus sign, digits reading back as the magnitude of the floored minutes, a colon, and two digits reading back as the non-negative remainder |
| Clock.ParseFormatTime | app.py:353-356 | round trip: reading back the rendering of any `t >= 0` as `minutes * 60 + seconds` gives `t` |
| Clock.FormatTimeInjective | app.py:353-356 | two different non-negative times never render alike |
| Clock.FormatTimeExamples | app.py:353-356 | 0 renders as `00:00`, 65 as `01:05`, 3661 as `61:01`, and -5 as `-1:55` (floor division) |
| SettingsStore.Encode | app.py:458-466 | the saved document holds exactly the five keys |
| SettingsStore.Load | app.py:475-489 | no file leaves every setting as it was; a document with all five keys determines all five fields, and other keys are ignored |
| SettingsStore.DecodeEncode | app.py:458-486 | loading what was saved restores all five fields, whatever was held before |
| SettingsStore.DecodeOverlay | app.py:482-486 | for every document, the loaded settings in saved form are the prior settings' saved form overlaid with the document's values for the five keys: an absent key keeps its prior value, a present key overrides it, other keys are ignored |
| SettingsStore.DecodeIdempotent | app.py:482-486 | loading twice equals loading once; a document without any of the keys changes nothing |
| SettingsStore.ApplyForm | app.py:436-448 | succeeds exactly when all four entries parse; then the durations are minutes times 60 and the interval is as entered; the count never changes; a failed form keeps the interval; a bad first entry changes nothing |
| SettingsStore.ApplyFormPartial | app.py:438-448 | for each entry that can be rejected (short break, long break, interval), with all other entries arbitrary: the entries before it stay stored and the later fields keep their old values (no rollback) |
| TaskList.TrimStart | app.py:383 | the result is a suffix, what it drops is whitespace, and it does not start with whitespace |
| TaskList.TrimEnd | app.py:383 | the result is a prefix, what it drops is whitespace, and it does not end with whitespace |
| TaskList.StripSlice | app.py:383-385 | `strip` keeps a contiguous slice of its input and drops only whitespace around it |
| TaskList.StripEnds | app.py:383-385 | the stripped text neither starts nor ends with whitespace |
| TaskList.StripEmpty | app.py:383 | the stripped text is empty exactly when the input is all whitespace |
| TaskList.StripIdempotent | app.py:385 | stripping twice equals stripping once |
| TaskList.AddTask | app.py:379-390 | appends one uncompleted task named by the stripped text exactly when that text is non-empty (and the dialog was not cancelled); otherwise the list is unchanged |
| TaskList.AddTaskKeepsNamesWellFormed | app.py:383-388 | the tray `add_task` keeps every stored name non-empty and stripped |
| TaskList.MacAddTask | app.py:734-739 | the macOS variant appends exactly when the dialog was confirmed with non-empty raw text, and keeps the earlier tasks |
| TaskList.MacAddTaskStoresEmptyName | app.py:734-736 | a single space makes the macOS variant store a task with an empty name |
| TaskList.Toggle | app.py:392-397 | the length and every other entry are unchanged; in range, only `completed` flips and the name and time are kept; out of range, nothing changes |
| TaskList.ToggleTwice | app.py:392-395 | toggling the same index twice restores the list |
| TaskList.Delete | app.py:399-404 | in range, exactly element `i` is removed and the rest keep their order (same multiset minus that task); out of range, nothing changes |
| TaskList.DeleteUndoesAdd | app.py:379-404 | deleting at the old length after an add restores the list |
| TaskList.ToggleDeleteKeepNamesWellFormed | app.py:392-404 | toggle and delete keep the names well formed |
| Timer.Initial | app.py:21-31 | at start-up: pomodoro mode, stopped, remaining time is the compiled-in pomodoro duration, settings as loaded |
| Timer.StartTimer | app.py:251-259 | sets the running flag and nothing else; a no-op when already running |
| Timer.PauseTimer | app.py:261-263 | clears the running flag and nothing else, so it is idempotent |
| Timer.ResetTimer | app.py:265-278 | stopped, remaining time is the current mode's duration, mode and settings kept |
| Timer.SetMode | app.py:358-377 | the new mode, stopped, remaining time is the new mode's duration, settings kept |
| Timer.NextBreak | app.py:327-331 | the mode after a pomodoro is always a break |
| Timer.Completed | app.py:320-339 | from a pomodoro: count plus exactly one, then a long break if and only if the new count is a multiple of the interval, otherwise a short break; from a break: pomodoro with the count unchanged; always stopped with the new mode's full duration |
| Timer.CompletedIgnoresClock | app.py:303-339 | the outcome of completion does not depend on the remaining time or the running flag |
| Timer.Step | app.py:280-294 | one tick takes exactly one second off and nothing else while time is left and the timer runs; a stopped timer is unchanged |
| Timer.Steps | app.py:280-294 | any number of ticks keeps the countdown able to complete |
| Timer.StepsWhenStopped | app.py:282 | ticks on a stopped timer change nothing, so completion cannot fire twice |
| Timer.Countdown | app.py:280-294 | from a running timer with `c >= 0` seconds left, tick `n <= c` leaves `c - n` seconds with nothing else changed, and every `n > c` gives exactly the completed state |
| Timer.CountdownMonotone | app.py:282-284 | while running, the remaining time is non-increasing from tick to tick and never negative |
| Timer.RunTimerOutcome | app.py:280-294 | the uninterrupted loop plus its exit check completes a running timer and leaves a stopped one unchanged |
| Timer.RunTimerIsSteps | app.py:280-294 | the uninterrupted loop equals `c + 1` ticks |
| Timer.CompletionExamples | app.py:320-331 | interval 4: count 3 becomes 4 and a long break; count 2 becomes 3 and a short break |
| Timer.FirstPomodoro | app.py:22-31 | with the defaults, after start and 1500 ticks the clock reads zero with nothing counted; every later tick count gives count 1, a short break and 300 seconds, stopped |
| Timer.Apply | app.py:152-168 | a start, pause, reset or mode command, or a tick, changes no setting other than the pomodoro count |
| Timer.ApplyAllInvariant | app.py:251-377 | over any sequence of start, pause, reset, mode and tick commands: the count never decreases and the other settings never change; the clock stays non-negative when it and the durations start non-negative |
| App.PomodoroApp.constructor | app.py:17-42 | defaults, then settings loaded from the file if present, remaining time 1500 seconds, tasks from the file or empty |
| App.PomodoroApp.LoadSettings | app.py:475-489 | the fields become `Load` of the document and the prior fields |
| App.PomodoroApp.SaveSettings | app.py:458-473 | the settings document becomes the encoding of the five fields |
| App.PomodoroApp.LoadTasks | app.py:500-508 | the list becomes the stored list when the file exists, and is kept otherwise |
| App.PomodoroApp.SaveTasks | app.py:491-498 | the task document becomes the whole list, so a later load restores it |
| App.PomodoroApp.StartTimer | app.py:251-259 | the new state is `Timer.StartTimer` of the old one; only the running flag may change |
| App.PomodoroApp.PauseTimer | app.py:261-263 | the new state is `Timer.PauseTimer` of the old one |
| App.PomodoroApp.ResetTimer | app.py:265-278 | the new state is `Timer.ResetTimer` of the old one |
| App.PomodoroApp.SetPomodoroMode | app.py:358-363 | the new state is `SetMode(old, Pomodoro)` |
| App.PomodoroApp.SetShortBreakMode | app.py:365-370 | the new state is `SetMode(old, ShortBreak)` |
| App.PomodoroApp.SetLongBreakMode | app.py:372-377 | the new state is `SetMode(old, LongBreak)` |
| App.PomodoroApp.TimerCompleted | app.py:296-342 | the new state is `Completed(old)`; it returns the notification for the mode that ended and saves the settings with the new count |
| App.PomodoroApp.Tick | app.py:280-294 | the new state is `Step(old)`; a notification and a save happen exactly when the timer was running with no time left |
| App.PomodoroApp.RunTimer | app.py:280-294 | the `while` loop leaves the state `Timer.RunTimer(old)`, so by `RunTimerOutcome` a running timer completes exactly once |
| App.PomodoroApp.FormatTime | app.py:353-356 | returns the `MM:SS` rendering of the current time, which reads back as that time when it is non-negative |
| App.PomodoroApp.AddTask | app.py:379-390 | the list becomes `TaskList.AddTask` of the old list; it is saved only when a task was added |
| App.PomodoroApp.ToggleTaskCompleted | app.py:392-397 | the list becomes `Toggle(old, i)`; it is saved only when `i` is in range |
| App.PomodoroApp.DeleteTask | app.py:399-404 | the list becomes `Delete(old, i)`; it is saved only when `i` was in range |
| App.PomodoroApp.ApplySettingsForm | app.py:436-448 | the settings become `ApplyForm` of the old ones; on success they are saved and the timer is reset; on failure nothing is saved or reset |

## Left out

- Icon loading and drawing, the menu and its refresh, the dialogs' layout, and the notification display are user interface. The model returns the notification that `timer_completed` requests as a value.
- Sound playback and the fallback beep have no effect on state, and their failure is swallowed.
- Threads, `time.sleep` and marshalling onto the UI thread are not modelled. Each `Tick` is atomic. The tick that completes a countdown stands for the exit check that follows the last decrement with no wait, so a countdown of `c` seconds takes `c + 1` ticks. So the race in which a pause or reset during the wait is followed by one more decrement, or a second countdown started by a quick pause and restart, is not modelled.
- The macOS class's `run_timer` calls `timer_completed` on the countdown thread itself. That differs only in threading.
- JSON text, file I/O, directory creation and the swallowed exceptions are not modelled. A document is the map or list it holds, and a failed write is not modelled. A settings value of a non-integer JSON type is not modelled.
- `int()` parsing of the dialog entries: an entry is given as an integer, or `None` when it does not parse.
- `datetime.now().isoformat()`: the creation time is a parameter.
- `quit_app` and the packaging script are not part of this model.
- Timer.Completed: requires a non-zero interval when a pomodoro completes. The source raises a division-by-zero error there, with the count already incremented, and that error path is not modelled.
- App.PomodoroApp.TimerCompleted: the same precondition, when the mode that ends is a pomodoro.
- App.PomodoroApp.Tick: the same precondition, when the tick completes a pomodoro.
- App.PomodoroApp.RunTimer: the same precondition, for a running pomodoro.
- Timer.Apply: requires a non-zero interval for every command, including those that cannot reach a completion.
- Timer.ApplyAllInvariant: the same precondition as `Timer.Apply`.

## Findings

| source | as written | input that shows it | evidently intended | confidence | as-written member | corrected member |
|---|---|---|---|---|---|---|
| app.py:734-736 | the macOS `add_task` checks the raw text for emptiness and strips it only afterwards | the text `" "` confirmed in the dialog stores a task whose name is empty | only a non-empty stripped name is stored, as in the tray version (app.py:383) | medium, not executed | TaskList.MacAddTaskStoresEmptyName | TaskList.AddTaskKeepsNamesWellFormed |
