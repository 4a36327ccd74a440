/**
 * The Pomodoro timer of App.jsx as a discrete state machine.
 *
 * The component keeps five state cells (`breakTime`, `sessionTime`,
 * `isRunning`, `isSession`, `timeLeft`). Two effects react to changes of
 * them: one recomputes `timeLeft` from the current phase's length whenever a
 * length or the phase changes, and one starts the alert sequence (play the
 * beep, stop it one second later, flip the phase one second after that) when
 * `timeLeft` reaches 0, cancelling its pending step whenever one of its
 * dependencies changes. Real time is replaced by two events: `Tick`, one
 * firing of the one-second interval, and `AlertStep`, the firing of the
 * pending alert timeout. `Next` gives the state after each event.
 *
 * React's `setState` with a value equal to the current one does not re-render,
 * so effects then do not run: `WithLengths` and `TickDown` leave the state
 * untouched when nothing changes.
 */
module Pomodoro {
  import opened Format

  const MinLength: int := 1
  const MaxLength: int := 60
  const DefaultBreak: int := 5
  const DefaultSession: int := 25
  const SecondsPerMinute: int := 60

  /** What `parseInt(event.target.value, 10)` yields: a number or NaN. */
  datatype ParsedInt = Num(value: int) | NaN

  /** The step the pending alert timeout will run, if one is pending. */
  datatype AlertStage =
    | Idle     // no alert timeout pending
    | PlayDue  // the zero-delay timeout that plays the beep
    | StopDue  // the one-second timeout that stops the beep
    | FlipDue  // the one-second timeout that flips the phase

  datatype Event =
    | SessionIncrement
    | SessionDecrement
    | SessionChange(entry: ParsedInt)
    | BreakIncrement
    | BreakDecrement
    | BreakChange(entry: ParsedInt)
    | StartStop
    | Reset
    | Tick       // one firing of the one-second interval
    | AlertStep  // the pending alert timeout fires

  /** The component's state cells, the pending alert step, and whether the
      beep has been asked to sound. */
  datatype ClockState = ClockState(
    breakTime: int,
    sessionTime: int,
    isRunning: bool,
    isSession: bool,
    timeLeft: int,
    alert: AlertStage,
    beeping: bool)

  predicate InRange(n: int) {
    MinLength <= n <= MaxLength
  }

  function Min(a: int, b: int): int {
    if a <= b then a else b
  }

  function Max(a: int, b: int): int {
    if a <= b then b else a
  }

  /** The countdown the recompute effect sets for a phase. */
  function PhaseSeconds(isSession: bool, sessionTime: int, breakTime: int): int {
    (if isSession then sessionTime else breakTime) * SecondsPerMinute
  }

  /** The state cells hold their lengths within bounds, the countdown within
      the current phase, and an alert step is pending exactly at zero. */
  ghost predicate Inv(s: ClockState) {
    InRange(s.sessionTime) && InRange(s.breakTime) &&
    0 <= s.timeLeft <= PhaseSeconds(s.isSession, s.sessionTime, s.breakTime) &&
    (s.timeLeft == 0 <==> s.alert != Idle) &&
    (s.alert == StopDue ==> s.beeping) &&
    (s.alert == FlipDue ==> !s.beeping)
  }

  /** The state the component mounts with. */
  function Initial(): (s: ClockState)
    ensures Inv(s) && !s.isRunning && s.isSession
    ensures s.timeLeft == PhaseSeconds(s.isSession, s.sessionTime, s.breakTime)
  {
    ClockState(DefaultBreak, DefaultSession, false, true, DefaultSession * SecondsPerMinute, Idle, false)
  }

  /** Guarded increment: only below the maximum. */
  function Incremented(n: int): int {
    if n < MaxLength then n + 1 else n
  }

  /** Guarded decrement: only above the minimum. */
  function Decremented(n: int): int {
    if n > MinLength then n - 1 else n
  }

  /** Direct entry: `value >= 1 && value <= 60`, false for NaN. */
  function Entered(n: int, entry: ParsedInt): int {
    if entry.Num? && entry.value >= MinLength && entry.value <= MaxLength then entry.value else n
  }

  /** Setting the two lengths. When either differs, the recompute effect
      resets `timeLeft` for the current phase and the alert effect's cleanup
      drops the pending alert step; the beep is left as it is. */
  function WithLengths(s: ClockState, session: int, brk: int): (r: ClockState)
    ensures r.sessionTime == session && r.breakTime == brk
    ensures r.isRunning == s.isRunning && r.isSession == s.isSession && r.beeping == s.beeping
    ensures session == s.sessionTime && brk == s.breakTime ==> r == s
    ensures session != s.sessionTime || brk != s.breakTime ==>
      r.timeLeft == PhaseSeconds(r.isSession, session, brk) && r.alert == Idle
  {
    if session == s.sessionTime && brk == s.breakTime then s
    else s.(sessionTime := session, breakTime := brk,
            timeLeft := PhaseSeconds(s.isSession, session, brk), alert := Idle)
  }

  /** The interval callback: one second off, floored at 0. When the value
      changes the alert effect re-runs, dropping any pending step and arming
      the sequence if the countdown is now 0. */
  function TickDown(s: ClockState): (r: ClockState)
    ensures s.timeLeft > 0 ==> r.timeLeft == s.timeLeft - 1
    ensures s.timeLeft == 0 ==> r == s
    ensures r.timeLeft >= 0
    ensures r.timeLeft == 0 && s.timeLeft != 0 ==> r.alert == PlayDue
    ensures r.(timeLeft := s.timeLeft, alert := s.alert) == s
  {
    var newTimeLeft := s.timeLeft - 1;
    var left := if newTimeLeft >= 0 then newTimeLeft else 0;
    if left == s.timeLeft then s
    else s.(timeLeft := left, alert := if left == 0 then PlayDue else Idle)
  }

  /** The last alert step: Session -> Break or Break -> Session, with the new
      phase's full countdown. */
  function Flip(s: ClockState): (r: ClockState)
    ensures r.isSession == !s.isSession && r.alert == Idle
    ensures r.timeLeft == PhaseSeconds(r.isSession, r.sessionTime, r.breakTime)
    ensures r.(isSession := s.isSession, timeLeft := s.timeLeft, alert := s.alert) == s
  {
    if s.isSession then s.(isSession := false, timeLeft := s.breakTime * SecondsPerMinute, alert := Idle)
    else s.(isSession := true, timeLeft := s.sessionTime * SecondsPerMinute, alert := Idle)
  }

  /** The pending alert timeout fires: play, then stop, then flip. */
  function AdvanceAlert(s: ClockState): (r: ClockState)
    ensures r.isRunning == s.isRunning && r.sessionTime == s.sessionTime && r.breakTime == s.breakTime
    ensures r.isSession != s.isSession <==> s.alert == FlipDue
    ensures s.alert == Idle <==> r == s
  {
    match s.alert
    case Idle => s
    case PlayDue => s.(beeping := true, alert := StopDue)
    case StopDue => s.(beeping := false, alert := FlipDue)
    case FlipDue => Flip(s)
  }

  /** The six length controls. */
  predicate IsLengthEvent(e: Event) {
    e.SessionIncrement? || e.SessionDecrement? || e.SessionChange? ||
    e.BreakIncrement? || e.BreakDecrement? || e.BreakChange?
  }

  /** The state after an event. A `Tick` without a running interval and an
      `AlertStep` with no pending timeout do not happen, and leave the state
      as it is. */
  function Next(s: ClockState, e: Event): (r: ClockState)
    ensures r.isRunning != s.isRunning ==> e == StartStop || e == Reset
    ensures r.beeping != s.beeping ==> e == AlertStep || e == Reset
    ensures r.sessionTime != s.sessionTime || r.breakTime != s.breakTime ==> IsLengthEvent(e) || e == Reset
  {
    match e
    case SessionIncrement => WithLengths(s, Incremented(s.sessionTime), s.breakTime)
    case SessionDecrement => WithLengths(s, Decremented(s.sessionTime), s.breakTime)
    case SessionChange(entry) => WithLengths(s, Entered(s.sessionTime, entry), s.breakTime)
    case BreakIncrement => WithLengths(s, s.sessionTime, Incremented(s.breakTime))
    case BreakDecrement => WithLengths(s, s.sessionTime, Decremented(s.breakTime))
    case BreakChange(entry) => WithLengths(s, s.sessionTime, Entered(s.breakTime, entry))
    case StartStop => s.(isRunning := !s.isRunning)
    case Reset => Initial()
    case Tick => if s.isRunning then TickDown(s) else s
    case AlertStep => AdvanceAlert(s)
  }

  /** `n` firings of the interval. */
  function Ticks(s: ClockState, n: nat): ClockState
    decreases n
  {
    if n == 0 then s else Ticks(Next(s, Tick), n - 1)
  }

  /** The three alert steps one after another. */
  function AfterAlert(s: ClockState): ClockState {
    Next(Next(Next(s, AlertStep), AlertStep), AlertStep)
  }

  // ---------------------------------------------------------------------------
  // Properties

  /** Every event keeps the invariant. */
  lemma NextPreservesInv(s: ClockState, e: Event)
    requires Inv(s)
    ensures Inv(Next(s, e))
  {
  }

  /** The length controls saturate at 1 and 60 and touch only their own length. */
  lemma LengthControlsSaturate(s: ClockState)
    requires Inv(s)
    ensures Next(s, SessionIncrement).sessionTime == Min(s.sessionTime + 1, MaxLength)
    ensures Next(s, SessionDecrement).sessionTime == Max(s.sessionTime - 1, MinLength)
    ensures Next(s, BreakIncrement).breakTime == Min(s.breakTime + 1, MaxLength)
    ensures Next(s, BreakDecrement).breakTime == Max(s.breakTime - 1, MinLength)
    ensures Next(s, SessionIncrement).breakTime == s.breakTime
    ensures Next(s, SessionDecrement).breakTime == s.breakTime
    ensures Next(s, BreakIncrement).sessionTime == s.sessionTime
    ensures Next(s, BreakDecrement).sessionTime == s.sessionTime
  {
  }

  /** Direct entry takes `v` exactly when `1 <= v <= 60`; any other entry,
      NaN included, leaves the whole state unchanged. */
  lemma DirectEntry(s: ClockState, entry: ParsedInt)
    ensures entry.Num? && InRange(entry.value) ==>
      Next(s, SessionChange(entry)).sessionTime == entry.value &&
      Next(s, BreakChange(entry)).breakTime == entry.value
    ensures !(entry.Num? && InRange(entry.value)) ==>
      Next(s, SessionChange(entry)) == s && Next(s, BreakChange(entry)) == s
    ensures Next(s, SessionChange(entry)).breakTime == s.breakTime
    ensures Next(s, BreakChange(entry)).sessionTime == s.sessionTime
  {
  }

  /** A tick takes exactly one second off a positive countdown and leaves 0
      at 0; only the countdown and the alert stage can change. */
  lemma TickFloorsAtZero(s: ClockState)
    requires Inv(s) && s.isRunning
    ensures s.timeLeft > 0 ==> Next(s, Tick).timeLeft == s.timeLeft - 1
    ensures s.timeLeft == 0 ==> Next(s, Tick) == s
    ensures Next(s, Tick).timeLeft >= 0
    ensures Next(s, Tick).(timeLeft := s.timeLeft, alert := s.alert) == s
  {
  }

  /** `n` ticks of a running timer take `n` seconds off, floored at 0, arm the
      alert when they reach 0, and change nothing else. */
  lemma {:induction false} RunTicks(s: ClockState, n: nat)
    requires Inv(s) && s.isRunning
    ensures var u := Ticks(s, n);
      Inv(u) && u.timeLeft == Max(s.timeLeft - n, 0) &&
      u.alert == (if 0 < s.timeLeft <= n then PlayDue else s.alert) &&
      u.(timeLeft := s.timeLeft, alert := s.alert) == s
    decreases n
  {
    if n > 0 {
      var s1 := Next(s, Tick);
      NextPreservesInv(s, Tick);
      RunTicks(s1, n - 1);
    }
  }

  /** Starting the default timer and letting 1500 seconds pass ends the
      session countdown at 0, still running, still in session, alert armed. */
  lemma DefaultSessionRunsOut()
    ensures var s := Ticks(Next(Initial(), StartStop), 1500);
      s.timeLeft == 0 && s.isSession && s.isRunning && s.alert == PlayDue
  {
    NextPreservesInv(Initial(), StartStop);
    RunTicks(Next(Initial(), StartStop), 1500);
  }

  /** Whenever an event changes a length or the phase, the countdown is the
      new phase's full length, even when the length edited belongs to the
      other phase. Conversely, a length control that leaves both lengths as
      they were (a press at 60 or at 1, re-entry of the current value) changes
      nothing at all: neither the countdown nor the pending alert step. */
  lemma RecomputeOnChange(s: ClockState, e: Event)
    ensures var u := Next(s, e);
      (u.sessionTime != s.sessionTime || u.breakTime != s.breakTime || u.isSession != s.isSession) ==>
      u.timeLeft == PhaseSeconds(u.isSession, u.sessionTime, u.breakTime)
    ensures var u := Next(s, e);
      IsLengthEvent(e) && u.sessionTime == s.sessionTime && u.breakTime == s.breakTime ==> u == s
  {
  }

  /** The countdown never exceeds an hour, and the display is always a
      five-character `mm:ss` face that reads back as the countdown. */
  lemma DisplayShowsTimeLeft(s: ClockState)
    requires Inv(s)
    ensures 0 <= s.timeLeft <= MaxLength * SecondsPerMinute
    ensures |FormatTime(s.timeLeft)| == 5
    ensures ParseClock(FormatTime(s.timeLeft)) == Some(s.timeLeft)
  {
    FormatTimeRoundTrip(s.timeLeft);
  }

  /** An alert sequence is armed only by the tick that reaches 0, and the
      phase changes only by the last alert step or by reset. */
  lemma AlertStartsOnlyAtZero(s: ClockState, e: Event)
    requires Inv(s)
    ensures s.alert == Idle && Next(s, e).alert != Idle ==>
      e == Tick && s.timeLeft == 1 && Next(s, e).timeLeft == 0 && Next(s, e).alert == PlayDue
    ensures Next(s, e).isSession != s.isSession ==>
      (e == AlertStep && s.alert == FlipDue) || e == Reset
  {
  }

  /** From an armed alert: the first step plays the beep, the second stops
      it, the third flips the phase and loads the new phase's countdown;
      running, the lengths and the order are untouched. */
  lemma AlertSequenceFlipsPhase(s: ClockState)
    requires Inv(s) && s.alert == PlayDue
    ensures var a := Next(s, AlertStep);
      a.beeping && a.alert == StopDue && a.timeLeft == 0 && a.isSession == s.isSession
    ensures var b := Next(Next(s, AlertStep), AlertStep);
      !b.beeping && b.alert == FlipDue && b.timeLeft == 0 && b.isSession == s.isSession
    ensures var c := AfterAlert(s);
      c.alert == Idle && !c.beeping && c.isSession == !s.isSession &&
      c.timeLeft == (if s.isSession then s.breakTime else s.sessionTime) * SecondsPerMinute &&
      c.isRunning == s.isRunning && c.sessionTime == s.sessionTime && c.breakTime == s.breakTime
  {
  }

  /** Reset from any state at all gives back the mounted state: stopped,
      in session, lengths 25 and 5, 1500 seconds, no alert, no beep. */
  lemma ResetRestoresDefaults(s: ClockState)
    ensures Next(s, Reset) == Initial()
    ensures var u := Next(s, Reset);
      !u.isRunning && u.isSession && u.sessionTime == 25 && u.breakTime == 5 &&
      u.timeLeft == 1500 && u.alert == Idle && !u.beeping
  {
  }

  /** Start/stop flips only `isRunning`; in particular stopping leaves a
      pending alert step in place. Two presses restore the state. */
  lemma StartStopOnlyToggles(s: ClockState)
    ensures Next(s, StartStop).isRunning == !s.isRunning
    ensures Next(s, StartStop).(isRunning := s.isRunning) == s
    ensures Next(Next(s, StartStop), StartStop) == s
  {
  }

  /** A whole cycle: a fresh running session counts down, alerts and flips to
      a fresh break, which counts down, alerts and flips back to exactly the
      state it started from, so cycles repeat indefinitely. */
  lemma FullCycle(s: ClockState)
    requires Inv(s) && s.isRunning && s.isSession && !s.beeping
    requires s.timeLeft == s.sessionTime * SecondsPerMinute
    ensures var b := AfterAlert(Ticks(s, s.sessionTime * SecondsPerMinute));
      !b.isSession && b.isRunning && b.timeLeft == s.breakTime * SecondsPerMinute &&
      b.alert == Idle && !b.beeping
    ensures var b := AfterAlert(Ticks(s, s.sessionTime * SecondsPerMinute));
      AfterAlert(Ticks(b, s.breakTime * SecondsPerMinute)) == s
  {
    var a := Ticks(s, s.sessionTime * SecondsPerMinute);
    RunTicks(s, s.sessionTime * SecondsPerMinute);
    AlertSequenceFlipsPhase(a);
    var b := AfterAlert(a);
    NextPreservesInv(a, AlertStep);
    NextPreservesInv(Next(a, AlertStep), AlertStep);
    NextPreservesInv(Next(Next(a, AlertStep), AlertStep), AlertStep);
    var c := Ticks(b, s.breakTime * SecondsPerMinute);
    RunTicks(b, s.breakTime * SecondsPerMinute);
    AlertSequenceFlipsPhase(c);
  }
}
