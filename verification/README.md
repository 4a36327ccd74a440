# Pomodoro clock — a verified model

A Dafny model of the `App` component of the Pomodoro clock
(`pomodoro-clock/src/App.jsx`): a session length and a break length in whole
minutes (1 to 60), a countdown in seconds that runs while the timer is
started, and an alert at zero that plays a beep, stops it a second later and
flips between the Session and Break phases a second after that.

The project has three modules:

- `Format` (`format.dfy`): `formatTime`, the `mm:ss` face of the countdown,
  with `String(n)` as `Decimal`, `padStart` as `PadStart`, and a reader
  `ParseClock` that serves as its inverse.
- `Pomodoro` (`pomodoro.dfy`): the component's state as a value
  (`ClockState`), the events (the six length controls, start/stop, reset,
  one firing of the one-second interval, one firing of the pending alert
  timeout) and the transition function `Next`, with the invariant `Inv` and
  the lemmas about runs of events.
- `App` (`app.dfy`): the component as a class `PomodoroClock` whose fields
  are the state cells. There is one method per handler and per timer
  callback. Each method's contract ties the new state to `Next` of the old
  one, so the lemmas of `Pomodoro` hold of the object.

How React's semantics are modelled:

- Setting a state cell to the value it already holds does not re-render.
  The effects therefore do not run. Direct entry of the current length does
  not restart the countdown, and a tick at 0 does not re-arm the alert.
- When either length or the phase changes, the effect at lines 14-16 sets the
  countdown to the current phase's full length. This also happens when the
  length edited is the other phase's.
- The alert effect (lines 24-49) depends on `timeLeft`, `isSession` and both
  lengths. When it re-runs, its cleanup cancels the pending alert timeout.
  Only one alert timeout is pending at any time, because each step schedules
  the next one only when it fires. So the model keeps one `AlertStage`:
  `Idle`, `PlayDue`, `StopDue` or `FlipDue`. Invariant: an alert step is
  pending exactly when the countdown is 0.
- `isRunning` is not a dependency of the alert effect. So start/stop leaves a
  pending alert step in place, and the flip happens even when the timer is
  stopped.
- Reset always drops the pending step. Its `clearTimeout()` at line 92 has no
  argument and does nothing. But reset moves `timeLeft` from 0 to 1500
  whenever an alert is in flight, and that change makes the effect cleanup
  cancel the pending step.

Two behaviours of the code a reader might not expect:

- The recompute effect at lines 14-16 depends on both lengths. So editing the
  break length during a session (or the session length during a break)
  restarts the visible countdown of the current phase.
- `isRunning` is not a dependency of the alert effect at lines 24-49. So
  stopping the timer does not cancel an alert sequence in flight.

## Model

| member | source | states |
|---|---|---|
| `Format.Decimal` | pomodoro-clock/src/App.jsx:132 | `String(n)`: at least one digit, all digits, no leading zero unless n is 0; one character iff n < 10, at most two iff n < 100 |
| `Format.DecimalRoundTrip` | pomodoro-clock/src/App.jsx:132 | reading the numeral back with `Value` gives n |
| `Format.PadStart` | pomodoro-clock/src/App.jsx:132 | `padStart`: length is max(width, \|s\|), `s` is the suffix, every added character is the fill |
| `Format.PadZeroKeepsValue` | pomodoro-clock/src/App.jsx:132 | padding a numeral with '0' keeps the number it denotes |
| `Format.Field` | pomodoro-clock/src/App.jsx:132 | `String(n).padStart(2, '0')` is two digits for n < 100 |
| `Format.FieldValue` | pomodoro-clock/src/App.jsx:132 | for n < 100 the padded field reads back as n |
| `Format.FormatTime` | pomodoro-clock/src/App.jsx:129-133 | `formatTime`: below 6000 seconds the face has 5 characters with ':' at index 2; its field values are stated by `FormatTimeFields`, its inverse by `FormatTimeRoundTrip` |
| `Format.FormatTimeFields` | pomodoro-clock/src/App.jsx:129-133 | for t < 6000 the face is two digits worth t / 60, ':', two digits worth t % 60 < 60, and mm*60 + ss == t |
| `Format.FormatTimeRoundTrip` | pomodoro-clock/src/App.jsx:129-133 | `ParseClock(FormatTime(t)) == Some(t)` for t < 6000 |
| `Format.FormatTimeInjective` | pomodoro-clock/src/App.jsx:129-133 | different times below 6000 seconds show different faces |
| `Pomodoro.Initial` | pomodoro-clock/src/App.jsx:5-9 | the mounted state satisfies the invariant, is stopped, in session, with the session's full countdown |
| `Pomodoro.WithLengths` | pomodoro-clock/src/App.jsx:14-16 | setting the lengths: both take the new values; an unchanged pair leaves the whole state as it was (no re-render, no effect); a changed pair loads the current phase's full countdown and drops the pending alert step (the cleanup at lines 44-48); running, phase and beep untouched |
| `Pomodoro.TickDown` | pomodoro-clock/src/App.jsx:70-74 | the interval callback: a positive countdown drops by 1, 0 stays 0 with the state unchanged, never negative; reaching 0 arms the alert (lines 24-41); nothing but the countdown and alert stage changes |
| `Pomodoro.Flip` | pomodoro-clock/src/App.jsx:30-38 | the phase is negated, the countdown is the new phase's length × 60, no alert step pending; lengths, running and beep untouched |
| `Pomodoro.AdvanceAlert` | pomodoro-clock/src/App.jsx:26-40 | an alert step keeps running and both lengths; the phase changes exactly at the flip step; with no pending step nothing changes (order of steps: `AlertSequenceFlipsPhase`) |
| `Pomodoro.Next` | pomodoro-clock/src/App.jsx:66-127 | the state after each handler or timer event: only start/stop and reset change `isRunning`, only an alert step and reset change the beep, only the length controls and reset change a length (per-event properties in the lemmas below, invariant in `NextPreservesInv`) |
| `Pomodoro.NextPreservesInv` | pomodoro-clock/src/App.jsx:5-16 | every event keeps both lengths in [1,60], 0 <= timeLeft <= the current phase's length × 60, and an alert step pending exactly at 0 |
| `Pomodoro.LengthControlsSaturate` | pomodoro-clock/src/App.jsx:95-121 | increment gives min(n+1, 60), decrement max(n-1, 1), each touching only its own length |
| `Pomodoro.DirectEntry` | pomodoro-clock/src/App.jsx:105-127 | entry v is taken exactly when 1 <= v <= 60; any other entry, NaN included, leaves the state unchanged |
| `Pomodoro.TickFloorsAtZero` | pomodoro-clock/src/App.jsx:70-74 | a tick lowers a positive countdown by exactly 1, leaves 0 at 0, never goes negative, and changes only the countdown and alert stage |
| `Pomodoro.RunTicks` | pomodoro-clock/src/App.jsx:66-77 | n ticks of a running timer give max(timeLeft - n, 0), arm the alert iff they reach 0, and change nothing else |
| `Pomodoro.DefaultSessionRunsOut` | pomodoro-clock/src/App.jsx:66-77 | start from defaults and 1500 ticks: countdown 0, still in session, still running, alert armed |
| `Pomodoro.RecomputeOnChange` | pomodoro-clock/src/App.jsx:14-16 | after any event that changes a length or the phase, timeLeft == (isSession ? sessionTime : breakTime) × 60; conversely a length control that leaves both lengths equal (press at 60 or 1, re-entry of the current value) leaves the whole state, countdown and pending alert step included, unchanged |
| `Pomodoro.DisplayShowsTimeLeft` | pomodoro-clock/src/App.jsx:171-173 | under the invariant timeLeft <= 3600, and its face has 5 characters and reads back as timeLeft |
| `Pomodoro.AlertStartsOnlyAtZero` | pomodoro-clock/src/App.jsx:24-41 | an alert is armed only by the tick from 1 to 0; the phase changes only by the flip step or by reset |
| `Pomodoro.AlertSequenceFlipsPhase` | pomodoro-clock/src/App.jsx:25-40 | play, then stop, then flip: Session to Break with breakTime × 60, Break to Session with sessionTime × 60; isRunning and the lengths untouched |
| `Pomodoro.ResetRestoresDefaults` | pomodoro-clock/src/App.jsx:80-93 | from any state: stopped, in session, 25 and 5 minutes, 1500 seconds, no alert pending, beep stopped; equal to the mounted state |
| `Pomodoro.StartStopOnlyToggles` | pomodoro-clock/src/App.jsx:66-78 | negates isRunning and nothing else (a pending alert step stays); two presses restore the state |
| `Pomodoro.FullCycle` | pomodoro-clock/src/App.jsx:24-49 | a fresh running session counts down, alerts, becomes a fresh break, counts down, alerts and returns to exactly the starting state |
| `App.PomodoroClock.constructor` | pomodoro-clock/src/App.jsx:5-12 | the `useState` defaults, no interval, no alert pending |
| `App.PomodoroClock.SetLengths` | pomodoro-clock/src/App.jsx:14-16 | new lengths; if either changed, the current phase's full countdown and the pending alert step dropped; otherwise nothing else changes |
| `App.PomodoroClock.HandleSessionIncrement` | pomodoro-clock/src/App.jsx:95-99 | sessionTime becomes min(sessionTime+1, 60), breakTime unchanged, state follows `Next` |
| `App.PomodoroClock.HandleSessionDecrement` | pomodoro-clock/src/App.jsx:100-104 | sessionTime becomes max(sessionTime-1, 1), breakTime unchanged, state follows `Next` |
| `App.PomodoroClock.HandleSessionChange` | pomodoro-clock/src/App.jsx:105-110 | sessionTime becomes v when 1 <= v <= 60; otherwise the state is unchanged |
| `App.PomodoroClock.HandleBreakIncrement` | pomodoro-clock/src/App.jsx:112-116 | breakTime becomes min(breakTime+1, 60), sessionTime unchanged |
| `App.PomodoroClock.HandleBreakDecrement` | pomodoro-clock/src/App.jsx:117-121 | breakTime becomes max(breakTime-1, 1), sessionTime unchanged |
| `App.PomodoroClock.HandleBreakChange` | pomodoro-clock/src/App.jsx:122-127 | breakTime becomes v when 1 <= v <= 60; otherwise the state is unchanged |
| `App.PomodoroClock.HandleStartStop` | pomodoro-clock/src/App.jsx:66-78 | isRunning negated, the interval exists iff running; lengths, phase, countdown and pending alert step unchanged |
| `App.PomodoroClock.HandleReset` | pomodoro-clock/src/App.jsx:80-93 | the mounted state: stopped, no interval, in session, 25/5 minutes, 1500 seconds, no alert, beep stopped |
| `App.PomodoroClock.Tick` | pomodoro-clock/src/App.jsx:70-74 | the countdown drops by 1 when positive and stays at 0 otherwise; an alert step is pending exactly at 0 |
| `App.PomodoroClock.AlertStep` | pomodoro-clock/src/App.jsx:25-40 | PlayDue starts the beep, StopDue stops it, FlipDue switches phase and loads the other phase's length × 60; running and lengths untouched |
| `App.PomodoroClock.TimeLeftText` | pomodoro-clock/src/App.jsx:171-173 | the displayed text is `FormatTime(timeLeft)`, 5 characters, reading back as timeLeft |

## Left out

- Rendering, JSX and the event objects (lines 135-186). Direct entry takes
  `ParsedInt`, which stands for the result of `parseInt(..., 10)`: a number or
  NaN. The parsing of the field's text is not modelled.
- The `<audio>` element (lines 18-22, 51-64, 179-184): `load`, `play`,
  `pause`, the `currentTime` writes and the remote source. The beep is the
  ghost flag `beeping`, set by the play step and cleared by the stop step and
  by reset.
- Playback failures and the `console.log` of them (lines 54-56). They change no
  state of the component, and the sequence goes on either way.
- Real time: `setInterval`, `setTimeout`, `clearInterval` and `clearTimeout`.
  They are replaced by the discrete events `Tick` (one firing of the interval)
  and `AlertStep` (the pending alert timeout fires). Delays and fractions of
  a second are not modelled.
- The no-argument `clearTimeout()` at line 92 is not reproduced. It does
  nothing in the source. The model gets the same effect from the cleanup of
  the alert effect, so reset still drops the pending step.
- One timer-handle effect is not reproduced. When a length changes while the
  countdown is 0, the render that sees the new length still sees
  `timeLeft === 0`, so the source re-arms a fresh alert timeout for a moment.
  Whether that timeout survives depends on React scheduling. The model drops
  the pending step whenever a length changes.
- `App.PomodoroClock.SetLengths`: when a length changes during the beep, the
  pending stop step is dropped as in the source, and `beeping` stays set. How
  long the audio clip then keeps sounding is not modelled.
- JavaScript numbers: every state cell holds an integer, so the model uses
  unbounded integers. Times are never negative, so `Math.floor(time / 60)` and
  `time % 60` agree with Dafny's `/` and `%`.
