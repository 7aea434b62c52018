/**
 * The round countdown. The state is the seconds left and the running flag;
 * the effect that reacts to every change stops a running timer at zero and
 * calls the expiry callback, and otherwise lets one interval tick take a
 * second off. Ticks are explicit steps; the callback is counted.
 */
module UseTimer {

  datatype TimerState = TimerState(secondsLeft: int, isRunning: bool)

  /** The effect's check after a change: a running timer at or below zero
      stops and fires the expiry callback. */
  function Settle(s: TimerState): (r: (TimerState, bool))
    ensures r.1 <==> s.isRunning && s.secondsLeft <= 0
    ensures r.1 ==> r.0 == TimerState(s.secondsLeft, false)
    ensures !r.1 ==> r.0 == s
  {
    if s.isRunning && s.secondsLeft <= 0 then (s.(isRunning := false), true) else (s, false)
  }

  /** One interval tick: it only exists while running with time left. */
  function Tick(s: TimerState): (r: TimerState)
    ensures s.isRunning && s.secondsLeft > 0 ==> r == TimerState(s.secondsLeft - 1, true)
    ensures !(s.isRunning && s.secondsLeft > 0) ==> r == s
  {
    if s.isRunning && s.secondsLeft > 0 then s.(secondsLeft := s.secondsLeft - 1) else s
  }

  /** A tick followed by the effect's check; the flag says whether the callback fired. */
  function Second(s: TimerState): (r: (TimerState, bool))
    ensures !s.isRunning ==> r == (s, false)
    ensures s.isRunning && s.secondsLeft > 1 ==> r == (TimerState(s.secondsLeft - 1, true), false)
    ensures s.isRunning && s.secondsLeft == 1 ==> r == (TimerState(0, false), true)
    ensures s.isRunning && s.secondsLeft <= 0 ==> r == (TimerState(s.secondsLeft, false), true)
  {
    Settle(Tick(s))
  }

  /** `start` followed by the effect's check. */
  function Started(durationSeconds: int): (r: (TimerState, bool))
    ensures r.1 <==> durationSeconds <= 0
    ensures r.0 == TimerState(durationSeconds, durationSeconds > 0)
  {
    Settle(TimerState(durationSeconds, true))
  }

  /** `stop`. */
  function Stopped(s: TimerState): (r: TimerState)
    ensures !r.isRunning && r.secondsLeft == s.secondsLeft
  {
    s.(isRunning := false)
  }

  /** k seconds from s: the final state and how often the callback fired. */
  function Run(s: TimerState, k: nat): (TimerState, nat)
    decreases k
  {
    if k == 0 then (s, 0)
    else
      var next := Second(s);
      var rest := Run(next.0, k - 1);
      (rest.0, rest.1 + (if next.1 then 1 else 0))
  }

  /** A stopped timer stays as it is and never fires. */
  lemma {:induction false} StoppedStaysStopped(s: TimerState, k: nat)
    requires !s.isRunning
    ensures Run(s, k) == (s, 0)
  {
    if k > 0 {
      StoppedStaysStopped(s, k - 1);
    }
  }

  /** Running with d seconds left, the next k < d seconds count down without firing. */
  lemma {:induction false} CountsDown(d: int, k: nat)
    requires 0 <= k < d
    ensures Run(TimerState(d, true), k) == (TimerState(d - k, true), 0)
  {
    if k > 0 {
      CountsDown(d - 1, k - 1);
    }
  }

  /** Started with d > 0 seconds, the timer stops at zero after exactly d
      seconds, having fired the callback exactly once, and stays stopped. */
  lemma ExpiresAfterDuration(d: int, extra: nat)
    requires d > 0
    ensures Started(d) == (TimerState(d, true), false)
    ensures Run(TimerState(d, true), d - 1) == (TimerState(1, true), 0)
    ensures Run(TimerState(d, true), d) == (TimerState(0, false), 1)
    ensures Run(TimerState(d, true), d + extra) == (TimerState(0, false), 1)
  {
    CountsDown(d, d - 1);
    RunSplit(TimerState(d, true), d - 1, 1);
    RunSplit(TimerState(d, true), d, extra);
    StoppedStaysStopped(TimerState(0, false), extra);
  }

  /** Running a + b seconds is running a, then b. */
  lemma {:induction false} RunSplit(s: TimerState, a: nat, b: nat)
    ensures Run(s, a + b) == (Run(Run(s, a).0, b).0, Run(s, a).1 + Run(Run(s, a).0, b).1)
    decreases a
  {
    if a > 0 {
      RunSplit(Second(s).0, a - 1, b);
    }
  }

  /** A start with no time left fires at once and stops. */
  lemma StartAtZeroFires(d: int)
    requires d <= 0
    ensures Started(d) == (TimerState(d, false), true)
  {
  }

  class Countdown {
    const durationSeconds: int
    var secondsLeft: int
    var isRunning: bool
    /** How often the expiry callback has been called. */
    var expiries: nat

    function State(): TimerState
      reads this
    {
      TimerState(secondsLeft, isRunning)
    }

    constructor (durationSeconds: int)
      ensures this.durationSeconds == durationSeconds
      ensures secondsLeft == durationSeconds && !isRunning && expiries == 0
    {
      this.durationSeconds := durationSeconds;
      secondsLeft := durationSeconds;
      isRunning := false;
      expiries := 0;
    }

    /** `start`: back to the full duration, running; the effect then runs. */
    method Start()
      modifies this
      ensures State() == Started(durationSeconds).0
      ensures expiries == old(expiries) + (if Started(durationSeconds).1 then 1 else 0)
    {
      secondsLeft := durationSeconds;
      isRunning := true;
      Check();
    }

    /** `stop`: not running, seconds kept. */
    method Stop()
      modifies this
      ensures State() == Stopped(old(State()))
      ensures expiries == old(expiries)
    {
      isRunning := false;
    }

    /** The effect's check. */
    method Check()
      modifies this
      ensures State() == Settle(old(State())).0
      ensures expiries == old(expiries) + (if Settle(old(State())).1 then 1 else 0)
    {
      if isRunning && secondsLeft <= 0 {
        isRunning := false;
        expiries := expiries + 1;
      }
    }

    /** One second: the interval's decrement, if the interval exists, then the effect's check. */
    method OnSecond()
      modifies this
      ensures State() == Second(old(State())).0
      ensures expiries == old(expiries) + (if Second(old(State())).1 then 1 else 0)
    {
      if isRunning && secondsLeft > 0 {
        secondsLeft := secondsLeft - 1;
      }
      Check();
    }
  }
}
