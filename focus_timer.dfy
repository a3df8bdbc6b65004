/**
  The Pomodoro timer of a study session (components/FocusTimer.tsx): a
  25-minute focus or 5-minute break countdown that logs 25 minutes each time
  a focus countdown runs out while running. The component's state hooks are
  the fields of `FocusTimer`; the effect that follows every change of
  `isActive`, `timeLeft` or `mode` is `Settle`. `TimerState` and the `Step`
  functions state each method's new state, and the lemmas are about them.
 */
module Timer {
  import opened Base
  import opened Text

  datatype Mode = Focus | Break

  const FocusSeconds: nat := 25 * 60
  const BreakSeconds: nat := 5 * 60
  const MinutesPerFocus: nat := 25

  function ModeSeconds(m: Mode): nat
  {
    if m == Focus then FocusSeconds else BreakSeconds
  }

  datatype TimerState = TimerState(mode: Mode, timeLeft: int, isActive: bool, logged: nat)

  /** The state on mount. */
  const Initial := TimerState(Focus, FocusSeconds, false, 0)

  /**
    The countdown never leaves the range of its mode, a running countdown has
    time left once the effect has run, and only whole focus runs are logged.
   */
  predicate StateValid(s: TimerState)
  {
    0 <= s.timeLeft <= ModeSeconds(s.mode) && (s.isActive ==> s.timeLeft > 0) && s.logged % MinutesPerFocus == 0
  }

  /**
    The effect (FocusTimer.tsx:29-47) after a change: a running countdown
    that has reached zero stops, and logs 25 minutes in focus mode. Anything
    else is left as it is (a running countdown with time left only starts
    the interval).
   */
  function StepSettle(s: TimerState): TimerState
  {
    if s.timeLeft == 0 && s.isActive then
      s.(isActive := false, logged := if s.mode == Focus then s.logged + MinutesPerFocus else s.logged)
    else s
  }

  /** One firing of the one-second interval, which exists only while running with time left. */
  function StepTick(s: TimerState): TimerState
  {
    if s.isActive && s.timeLeft > 0 then StepSettle(s.(timeLeft := s.timeLeft - 1)) else s
  }

  /** `toggleTimer` followed by the effect. */
  function StepToggle(s: TimerState): TimerState
  {
    StepSettle(s.(isActive := !s.isActive))
  }

  /** `resetTimer`: paused, the full time of the current mode. */
  function StepReset(s: TimerState): TimerState
  {
    s.(isActive := false, timeLeft := ModeSeconds(s.mode))
  }

  /** `switchMode`: the new mode, paused, its full time. */
  function StepSwitch(s: TimerState, m: Mode): TimerState
  {
    s.(mode := m, isActive := false, timeLeft := ModeSeconds(m))
  }

  /** `n` firings of the interval. */
  function Ticks(s: TimerState, n: nat): TimerState
    decreases n
  {
    if n == 0 then s else Ticks(StepTick(s), n - 1)
  }

  /** Every step keeps the state valid. */
  lemma StepsKeepValid(s: TimerState, m: Mode)
    requires StateValid(s)
    ensures StateValid(StepTick(s)) && StateValid(StepToggle(s))
    ensures StateValid(StepReset(s)) && StateValid(StepSwitch(s, m))
  {
  }

  /** The log only grows, by 25 at a time, and only when a focus countdown hits zero. */
  lemma TickLogs(s: TimerState)
    requires StateValid(s)
    ensures var r := StepTick(s);
      r.mode == s.mode
      && (r.logged == s.logged || (r.logged == s.logged + MinutesPerFocus && s.mode == Focus && s.timeLeft == 1 && s.isActive))
      && (s.isActive && s.timeLeft > 0 ==> r.timeLeft == s.timeLeft - 1)
      && (r.isActive <==> s.isActive && s.timeLeft > 1)
  {
  }

  /**
    A running countdown with `t` seconds left, ticked `t` times, stops at zero
    having logged 25 minutes in focus mode and nothing in break mode.
   */
  lemma {:induction false} RunToZero(s: TimerState)
    requires StateValid(s) && s.isActive && s.timeLeft > 0
    ensures Ticks(s, s.timeLeft)
      == s.(timeLeft := 0, isActive := false, logged := if s.mode == Focus then s.logged + MinutesPerFocus else s.logged)
    decreases s.timeLeft
  {
    var next := StepTick(s);
    if s.timeLeft > 1 {
      assert next == s.(timeLeft := s.timeLeft - 1);
      RunToZero(next);
    }
  }

  /** A paused timer does not move however often the interval would fire. */
  lemma {:induction false} PausedStays(s: TimerState, n: nat)
    requires !s.isActive
    ensures Ticks(s, n) == s
    decreases n
  {
    if n > 0 {
      PausedStays(s, n - 1);
    }
  }

  /** A full focus run from mount (start, then 25 minutes of ticks) logs exactly 25 minutes. */
  lemma FullFocusRun()
    ensures Ticks(StepToggle(Initial), FocusSeconds) == TimerState(Focus, 0, false, MinutesPerFocus)
  {
    RunToZero(StepToggle(Initial));
  }

  /**
    Pressing play on a finished countdown starts it at zero, so the effect
    stops it again and a focus countdown logs another 25 minutes, with no
    time elapsed.
   */
  lemma ToggleAtZeroLogsAgain(s: TimerState)
    requires s.timeLeft == 0 && !s.isActive && s.mode == Focus
    ensures StepToggle(s) == s.(logged := s.logged + MinutesPerFocus)
  {
  }

  /** `formatTime`: minutes and seconds, each padded to two digits. */
  function FormatTime(seconds: nat): (r: string)
    ensures seconds < 6000 ==> |r| == 5 && r[2] == ':'
    ensures seconds < 6000 ==> ParseDecimal(r[..2]) == Some(seconds / 60) && ParseDecimal(r[3..]) == Some(seconds % 60)
  {
    Pad2Reads(seconds / 60);
    Pad2Reads(seconds % 60);
    var r := Pad2(seconds / 60) + ":" + Pad2(seconds % 60);
    assert seconds < 6000 ==> r[..2] == Pad2(seconds / 60) && r[3..] == Pad2(seconds % 60);
    r
  }

  class FocusTimer {
    var mode: Mode
    var timeLeft: int
    var isActive: bool
    var minutesLogged: nat

    function State(): TimerState
      reads this
    {
      TimerState(mode, timeLeft, isActive, minutesLogged)
    }

    ghost predicate Valid()
      reads this
    {
      StateValid(State())
    }

    constructor()
      ensures State() == Initial && Valid()
    {
      mode := Focus;
      timeLeft := FocusSeconds;
      isActive := false;
      minutesLogged := 0;
    }

    /** The effect after a change of state. */
    method Settle()
      modifies this
      ensures State() == StepSettle(old(State()))
    {
      if timeLeft == 0 && isActive {
        isActive := false;
        if mode == Focus {
          minutesLogged := minutesLogged + MinutesPerFocus;
        }
      }
    }

    /** `setTimeLeft(prev => prev - 1)` from the interval, then the effect. */
    method Tick()
      requires Valid()
      modifies this
      ensures State() == StepTick(old(State())) && Valid()
    {
      if isActive && timeLeft > 0 {
        timeLeft := timeLeft - 1;
        Settle();
      }
    }

    method Toggle()
      requires Valid()
      modifies this
      ensures State() == StepToggle(old(State())) && Valid()
    {
      isActive := !isActive;
      Settle();
    }

    method Reset()
      requires Valid()
      modifies this
      ensures State() == StepReset(old(State())) && Valid()
    {
      isActive := false;
      timeLeft := ModeSeconds(mode);
    }

    method SwitchMode(m: Mode)
      requires Valid()
      modifies this
      ensures State() == StepSwitch(old(State()), m) && Valid()
    {
      mode := m;
      isActive := false;
      timeLeft := ModeSeconds(m);
    }

    /** `handleFinish`: the minutes logged in this session are handed to the caller. */
    method Finish() returns (logged: nat)
      requires Valid()
      ensures logged == minutesLogged && logged % MinutesPerFocus == 0
    {
      logged := minutesLogged;
    }

    /** `formatTime(timeLeft)`, the clock face. */
    method Display() returns (text: string)
      requires Valid()
      ensures |text| == 5 && text == FormatTime(timeLeft)
    {
      text := FormatTime(timeLeft);
    }
  }
}
