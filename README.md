# Pomodoro session state machine

A Dafny model of the pomodoro timer in `script.js`. The single shared record
`pomodoroState` holds whether the timer is running or paused, the seconds left in the
current session, the work and break lengths, the number of rounds, the current round,
whether a work session is in progress, and the handle of the one-second interval. The
model covers the operations that change that record: start, pause, reset, the interval
callback (the tick), session completion and saving settings. It also covers the pure
`formatTime` helper that renders seconds as `MM:SS`.

Files:

- `wrappers.dfy`: the `Option` type.
- `time_format.dfy`: module `TimeFormat`. `formatTime` with JavaScript's semantics:
  `Math.floor`, the truncating `%`, `toString` and `padStart(2, '0')`. Also a reader for
  the rendered string and the round-trip lemmas.
- `session.dfy`: module `Session`. The record is a datatype `State`, and each operation
  is a function on it. This file defines the invariant `Valid` and proves every property:
  each operation preserves the invariant, start/pause/reset behave as listed below, the
  countdown works, a whole program of rounds runs out correctly, and every reachable
  state is valid.
- `pomodoro_timer.dfy`: module `PomodoroTimer`. Class `Timer` has the record's fields and
  methods that update them in place, in the same order as the source. Each method's
  postcondition ties the new state to the matching `Session` function.

How the browser parts are modelled:

- The interval handle `timerInterval` becomes the boolean `ticking`: the handle holds an
  interval that has not been cleared.
- A counter `orphanedIntervals` counts intervals that would be started while another was
  still live and so would lose their handle. The invariant proves it stays 0, so the
  guard in `startPomodoro` really prevents a second interval.
- The `setInterval` callback is the method `Tick`, which requires `ticking`.
- The host clock is `Session.Ticks`: n one-second pulses. A pulse that arrives when no
  interval is live does nothing.
- The `alert`s become returned values. `completeSession` returns an `Event`
  (`ProgramComplete`, `EnterBreak` or `EnterWork`). `saveSettings` returns whether the
  input was accepted.
- `saveSettings` takes the three `parseInt` results as `Option<int>`. `None` is NaN, and
  NaN fails every comparison of the validity test, so it is refused.

Behaviours of the code a reader might not expect:

- **Pause cannot be resumed.** `pausePomodoro` leaves `isRunning` set, so a later
  `startPomodoro` does nothing. From then on the timer only leaves the paused state by a
  reset or a settings save (`Session.PauseCannotBeResumed`).
- **Saving settings always resets.** This happens even in the middle of a session
  (script.js:116).
- **Invalid settings get one generic refusal.** This is a single `false`, not an error
  naming the offending fields.
- **No final break.** After the last round's work session, completion skips the break
  and fully resets. Before the reset, the code briefly sets the break fields
  (script.js:86-87); the model does this too, and the reset overwrites them.

## Model

| member | source | states |
|---|---|---|
| TimeFormat.NatToString | script.js:32-33 | `toString` of a non-negative integer: at least one character, all decimal digits, no leading zero |
| TimeFormat.IntToString | script.js:32-33 | `toString` of an integer: the digits of the value, preceded by `-` when negative |
| TimeFormat.PadStart2 | script.js:32-33 | `padStart(2, '0')`: the result ends with the input, is at least two characters long, and is zeros before the input |
| TimeFormat.JsRem60 | script.js:33 | JavaScript `% 60`: for non-negative input the ordinary remainder in [0, 60); for negative input a value in (-60, 0] that differs from the input by a multiple of 60 |
| TimeFormat.NatToStringRoundTrip | script.js:32-33 | reading the decimal digits of `toString(n)` gives back n |
| TimeFormat.NatToStringLength | script.js:32-33 | `toString(n)` has one digit exactly when n < 10, two exactly when 10 <= n < 100, and three or more exactly when n >= 100 |
| TimeFormat.PaddedNat | script.js:32-33 | a padded non-negative number is all digits and reads back as the number; it is two characters below 100 and unpadded above |
| TimeFormat.FormatTimeFields | script.js:31-35 | for non-negative seconds both fields are padded non-negative numbers: minutes = s / 60, seconds = s % 60 |
| TimeFormat.FormatTimeShape | script.js:31-35 | for s >= 0: the output is a digit minutes field holding s / 60, then `:`, then two digits holding s % 60; it is exactly 5 characters iff s < 6000 |
| TimeFormat.FormatTimeRoundTrip | script.js:31-35 | for every s >= 0, reading the rendering back (`ParseTime`) gives s |
| TimeFormat.FormatTimeClock | script.js:31-35 | for 0 <= s < 6000 the output is 5 characters with `:` at index 2 and digits elsewhere, and minutes * 60 + seconds = s with seconds < 60 |
| TimeFormat.ShortClock | script.js:31-35 | any time from 0 to 3600 seconds renders as five characters with `:` at index 2 |
| TimeFormat.FormatTimeNegative | script.js:31-35 | negative input follows JavaScript: `formatTime(-1)` is `-1:-1` and `formatTime(-61)` is `-2:-1` |
| Session.Initial | script.js:9-19 | the initial record (25 min work, 5 min break, 4 rounds, round 1, stopped) is a valid fresh first work session |
| Session.Start | script.js:43-57 | `startPomodoro` preserves the invariant and leaves the settings unchanged |
| Session.Pause | script.js:60-65 | `pausePomodoro` preserves the invariant and leaves the settings unchanged |
| Session.Reset | script.js:68-76 | `resetPomodoro` always ends not running, not paused, with no live interval, in round 1 of a work session with `currentTime = workTime`; it leaves the settings unchanged and from valid settings it yields a valid state |
| Session.Complete | script.js:79-104 | `completeSession` always ends stopped with the interval cleared and the settings unchanged; from a countdown that just reached zero it yields a valid state |
| Session.Tick | script.js:48-54 | a tick preserves the invariant; completion runs exactly when the decremented time is <= 0, and then the timer is stopped with the interval cleared, so the next session waits for an explicit start; otherwise the only change is `currentTime` minus 1 |
| Session.SaveSettings | script.js:107-121 | accepted iff all three inputs parsed and rounds in [1,10], work minutes in [1,60], break minutes in [1,30]; when accepted it stores rounds, work * 60 and break * 60 and resets to a fresh session; when refused nothing changes |
| Session.Ticks | script.js:48-55 | any number of clock pulses preserves the invariant and the settings, and announces at most one event per pulse |
| Session.StartActsOnlyWhenStopped | script.js:43-57 | start does nothing while running; otherwise it sets running, clears paused and starts the interval, and the session (time, round, kind) is unchanged |
| Session.StartIdempotent | script.js:43-57 | starting twice equals starting once; from a valid state no interval is orphaned |
| Session.PauseActsOnlyWhenTicking | script.js:60-65 | pause does nothing unless running and unpaused; then it only sets `isPaused` and clears the interval |
| Session.PauseCannotBeResumed | script.js:43-65 | after a pause `isRunning` stays set, so start does nothing and no pulse has any effect; pausing again does nothing |
| Session.PauseWhileStopped | script.js:43-65 | pause on a stopped timer does nothing, and a later start behaves as a fresh start |
| Session.ResetForgetsSession | script.js:68-76 | the reset state depends only on the settings, and a second reset changes nothing |
| Session.CompletionBranches | script.js:84-100 | work before the last round goes to a break of `breakTime` in the same round; work in the last round does a full reset (`ProgramComplete`); a break goes to work of `workTime` in round + 1 |
| Session.Countdown | script.js:48-54 | while more than k seconds remain, k pulses only decrease `currentTime` by k and announce nothing |
| Session.SessionRunsOut | script.js:48-81 | after `currentTime` pulses the session completes exactly once; any further pulses change nothing until an explicit start |
| Session.WorkSessionEnds | script.js:84-94 | start plus a full work session that is not the last one ends in a stopped full-length break of the same round, announcing `EnterBreak` |
| Session.BreakEnds | script.js:95-100 | start plus a full break ends in a stopped full-length work session of the next round, announcing `EnterWork` |
| Session.LastWorkSessionEnds | script.js:89-94 | start plus the last round's work session ends in the reset state, announcing only `ProgramComplete` |
| Session.TwoSessions | script.js:84-100 | a work session before the last round, then its break, lead to a stopped full-length work session of the next round, announcing `EnterBreak` then `EnterWork` |
| Session.LastSession | script.js:89-94 | from the last round's work session, one session is the whole rest of the program and ends in the reset state |
| Session.ProgramFrom | script.js:79-104 | from work session c, the remaining 2(rounds - c) + 1 sessions announce break/work pairs and then `ProgramComplete`, and end in the reset state |
| Session.FullProgram | script.js:79-104 | a fresh program of R rounds takes R work sessions and R - 1 breaks and returns exactly to its starting state |
| Session.DisplayIsClock | script.js:38-54 | in every valid state, both the time shown now and the time a tick shows next are in [0, 3600], so `formatTime` renders them as five characters with `:` in the middle |
| Session.ScenarioBreakThenWork | script.js:84-100 | with 25/5/2 settings: 1500 pulses after start give a 300-second break in round 1; another start and 300 pulses give 1500 seconds of work in round 2 |
| Session.ScenarioProgramComplete | script.js:84-94 | with 25/5/2 settings the three sessions announce break, work, complete and return to the saved fresh state |
| Session.ScenarioRejectedSettings | script.js:112-120 | work minutes 0, NaN rounds, 11 rounds or 31 break minutes are refused and leave the state unchanged |
| Session.RunPreservesValid | script.js:9-19 | under any sequence of button presses, saves and pulses from a valid state: the round stays in [1, rounds], the time stays in [1, session length], and the interval is live exactly when running unpaused |
| Session.ReachableValid | script.js:9-19 | every state reachable from the initial record is valid |
| PomodoroTimer.Timer.constructor | script.js:9-19 | the object starts as the initial record |
| PomodoroTimer.Timer.Start | script.js:43-57 | updates the fields in place to `Session.Start` of the old state; preserves the invariant |
| PomodoroTimer.Timer.Pause | script.js:60-65 | updates the fields in place to `Session.Pause` of the old state; preserves the invariant |
| PomodoroTimer.Timer.Reset | script.js:68-76 | updates the fields in place to `Session.Reset` of the old state; preserves the invariant |
| PomodoroTimer.Timer.CompleteSession | script.js:79-104 | updates the fields in place (calling `Reset` after the last round) to `Session.Complete` of the old state, and returns its event |
| PomodoroTimer.Timer.Tick | script.js:48-54 | decrements in place and calls `CompleteSession` at zero, matching `Session.Tick`; preserves the invariant |
| PomodoroTimer.Timer.SaveSettings | script.js:107-121 | validates, stores and calls `Reset` in place, matching `Session.SaveSettings`; preserves the invariant |
| PomodoroTimer.StartTwiceThenPause | script.js:43-65 | a second start creates no second interval, and a start after pause does not resume |

## Left out

- DOM lookups, button wiring and `init` (script.js:1-6, 124-139): user-interface glue.
- `updateCurrentTime` (script.js:22-28): it reads the wall clock, which is environment input.
- `updatePomodoroDisplay` (script.js:38-40): it only writes `formatTime` of `currentTime` to the page.
- Real-time scheduling of `setInterval`/`clearInterval`, and drift: the host clock is modelled as discrete pulses.
- `alert` (script.js:91, 103, 117, 119): replaced by the returned event or acceptance flag.
- Fullscreen requests and the load/click listeners (script.js:142-175): browser calls with no logic.
- Parsing inside `parseInt`: the inputs are taken as already-parsed optional integers.
- Settings persistence and colour themes are not in this source file.
- Floating-point arithmetic: `formatTime` divides JavaScript numbers, which are floating point. The model uses exact integers, which gives the same result for every value the timer can hold.
- A pulse from an orphaned interval is not modelled. The invariant proves that no interval is ever orphaned, so this case never arises.
