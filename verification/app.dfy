/**
 * The `App` component of App.jsx as an object: its state cells are fields,
 * each handler and each timer callback is a method that updates them.
 *
 * `hasInterval` stands for `intervalRef` holding a live interval, `alert` for
 * the alert timeout pending in `timeoutRef`, and the ghost field `beeping` for
 * the audio element having been asked to play and not yet to pause. Every
 * method is tied to the state machine of module Pomodoro by
 * `State() == Next(old(State()), e)`, so the lemmas proved there hold of the
 * component.
 */
module App {
  import opened Format
  import opened Pomodoro

  class PomodoroClock {
    var breakTime: int
    var sessionTime: int
    var isRunning: bool
    var isSession: bool
    var timeLeft: int
    var hasInterval: bool
    var alert: AlertStage
    ghost var beeping: bool

    ghost function State(): ClockState
      reads this
    {
      ClockState(breakTime, sessionTime, isRunning, isSession, timeLeft, alert, beeping)
    }

    /** The interval exists exactly while the timer is running. */
    ghost predicate Valid()
      reads this
    {
      Inv(State()) && hasInterval == isRunning
    }

    /** Mounting: the `useState` initial values. */
    constructor ()
      ensures Valid() && State() == Initial()
      ensures breakTime == DefaultBreak && sessionTime == DefaultSession
      ensures !isRunning && isSession && timeLeft == DefaultSession * SecondsPerMinute
    {
      breakTime := DefaultBreak;
      sessionTime := DefaultSession;
      isRunning := false;
      isSession := true;
      timeLeft := DefaultSession * SecondsPerMinute;
      hasInterval := false;
      alert := Idle;
      beeping := false;
    }

    /** Commits new lengths. A change re-runs the recompute effect (the
        countdown becomes the current phase's full length) and the alert
        effect's cleanup (the pending alert step is dropped); an unchanged
        value re-runs neither. */
    method SetLengths(session: int, brk: int)
      requires Valid() && InRange(session) && InRange(brk)
      modifies this
      ensures Valid() && State() == WithLengths(old(State()), session, brk)
      ensures sessionTime == session && breakTime == brk
      ensures isRunning == old(isRunning) && isSession == old(isSession) && beeping == old(beeping)
      ensures session != old(sessionTime) || brk != old(breakTime) ==>
        timeLeft == PhaseSeconds(isSession, session, brk) && alert == Idle
      ensures session == old(sessionTime) && brk == old(breakTime) ==>
        timeLeft == old(timeLeft) && alert == old(alert)
    {
      if session != sessionTime || brk != breakTime {
        sessionTime, breakTime := session, brk;
        timeLeft := PhaseSeconds(isSession, sessionTime, breakTime);
        alert := Idle;
      }
    }

    method HandleSessionIncrement()
      requires Valid()
      modifies this
      ensures Valid() && State() == Next(old(State()), SessionIncrement)
      ensures sessionTime == Min(old(sessionTime) + 1, MaxLength) && breakTime == old(breakTime)
    {
      if sessionTime < MaxLength {
        SetLengths(sessionTime + 1, breakTime);
      }
    }

    method HandleSessionDecrement()
      requires Valid()
      modifies this
      ensures Valid() && State() == Next(old(State()), SessionDecrement)
      ensures sessionTime == Max(old(sessionTime) - 1, MinLength) && breakTime == old(breakTime)
    {
      if sessionTime > MinLength {
        SetLengths(sessionTime - 1, breakTime);
      }
    }

    /** `entry` is what `parseInt` made of the field's text. */
    method HandleSessionChange(entry: ParsedInt)
      requires Valid()
      modifies this
      ensures Valid() && State() == Next(old(State()), SessionChange(entry))
      ensures entry.Num? && InRange(entry.value) ==> sessionTime == entry.value
      ensures !(entry.Num? && InRange(entry.value)) ==> State() == old(State())
    {
      if entry.Num? && entry.value >= MinLength && entry.value <= MaxLength {
        SetLengths(entry.value, breakTime);
      }
    }

    method HandleBreakIncrement()
      requires Valid()
      modifies this
      ensures Valid() && State() == Next(old(State()), BreakIncrement)
      ensures breakTime == Min(old(breakTime) + 1, MaxLength) && sessionTime == old(sessionTime)
    {
      if breakTime < MaxLength {
        SetLengths(sessionTime, breakTime + 1);
      }
    }

    method HandleBreakDecrement()
      requires Valid()
      modifies this
      ensures Valid() && State() == Next(old(State()), BreakDecrement)
      ensures breakTime == Max(old(breakTime) - 1, MinLength) && sessionTime == old(sessionTime)
    {
      if breakTime > MinLength {
        SetLengths(sessionTime, breakTime - 1);
      }
    }

    method HandleBreakChange(entry: ParsedInt)
      requires Valid()
      modifies this
      ensures Valid() && State() == Next(old(State()), BreakChange(entry))
      ensures entry.Num? && InRange(entry.value) ==> breakTime == entry.value
      ensures !(entry.Num? && InRange(entry.value)) ==> State() == old(State())
    {
      if entry.Num? && entry.value >= MinLength && entry.value <= MaxLength {
        SetLengths(sessionTime, entry.value);
      }
    }

    /** Clears or starts the interval and negates `isRunning`; a pending
        alert step is not touched. */
    method HandleStartStop()
      requires Valid()
      modifies this
      ensures Valid() && State() == Next(old(State()), StartStop)
      ensures isRunning == !old(isRunning) && hasInterval == isRunning
      ensures sessionTime == old(sessionTime) && breakTime == old(breakTime)
      ensures isSession == old(isSession) && timeLeft == old(timeLeft) && alert == old(alert)
    {
      if isRunning {
        hasInterval := false;
      } else {
        hasInterval := true;
      }
      isRunning := !isRunning;
    }

    /** Clears the interval, stops the beep, restores the defaults; the
        change of `timeLeft` away from 0 makes the alert effect's cleanup
        drop any pending alert step. */
    method HandleReset()
      requires Valid()
      modifies this
      ensures Valid() && State() == Next(old(State()), Reset) && State() == Initial()
      ensures !isRunning && !hasInterval && isSession && !beeping && alert == Idle
      ensures breakTime == DefaultBreak && sessionTime == DefaultSession
      ensures timeLeft == DefaultSession * SecondsPerMinute
    {
      hasInterval := false;
      beeping := false;
      isRunning := false;
      isSession := true;
      breakTime := DefaultBreak;
      sessionTime := DefaultSession;
      timeLeft := 25 * 60;
      alert := Idle;
    }

    /** The interval callback. */
    method Tick()
      requires Valid() && hasInterval
      modifies this
      ensures Valid() && State() == Next(old(State()), Pomodoro.Tick)
      ensures timeLeft == (if old(timeLeft) > 0 then old(timeLeft) - 1 else 0)
      ensures timeLeft == 0 <==> alert != Idle
      ensures isRunning && isSession == old(isSession)
      ensures sessionTime == old(sessionTime) && breakTime == old(breakTime)
    {
      var newTimeLeft := timeLeft - 1;
      var left := if newTimeLeft >= 0 then newTimeLeft else 0;
      if left != timeLeft {
        timeLeft := left;
        alert := if timeLeft == 0 then PlayDue else Idle;
      }
    }

    /** The pending alert timeout fires: play the beep, stop it, or flip the
        phase, and schedule the next step. */
    method AlertStep()
      requires Valid() && alert != Idle
      modifies this
      ensures Valid() && State() == Next(old(State()), Pomodoro.AlertStep)
      ensures old(alert) == PlayDue ==> beeping && alert == StopDue && timeLeft == 0
      ensures old(alert) == StopDue ==> !beeping && alert == FlipDue && timeLeft == 0
      ensures old(alert) == FlipDue ==>
        alert == Idle && isSession == !old(isSession) &&
        timeLeft == (if old(isSession) then breakTime else sessionTime) * SecondsPerMinute
      ensures isRunning == old(isRunning)
      ensures sessionTime == old(sessionTime) && breakTime == old(breakTime)
    {
      match alert {
        case PlayDue =>
          beeping := true;
          alert := StopDue;
        case StopDue =>
          beeping := false;
          alert := FlipDue;
        case FlipDue =>
          if isSession {
            isSession := false;
            timeLeft := breakTime * SecondsPerMinute;
          } else {
            isSession := true;
            timeLeft := sessionTime * SecondsPerMinute;
          }
          alert := Idle;
      }
    }

    /** The text of the `time-left` element. */
    method TimeLeftText() returns (text: string)
      requires Valid()
      ensures text == FormatTime(timeLeft)
      ensures |text| == 5 && ParseClock(text) == Some(timeLeft)
    {
      text := FormatTime(timeLeft);
      DisplayShowsTimeLeft(State());
    }
  }
}
