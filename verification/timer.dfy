/** The Pomodoro timer state and its transitions. Every transition is a pure
    function from one state to the next; the host's one-second interval and the
    framework's re-render effect only serve to call them one at a time. */
module Timer {
  import opened Sessions

  /** Remaining seconds, running flag, current session and the number of study
      sessions completed so far. */
  datatype TimerState = TimerState(time: int, running: bool, session: SessionKind, completed: nat)

  /** Remaining time lies within the current session's duration. */
  predicate Valid(s: TimerState) {
    0 <= s.time <= Duration(s.session)
  }

  /** Settled states: valid, and not at zero, since in the atomic model reaching
      zero triggers the completion in the same step. */
  predicate Settled(s: TimerState) {
    Valid(s) && s.time > 0
  }

  /** The state at start-up: a fresh study session, paused, nothing completed. */
  function Init(): (s: TimerState)
    ensures Settled(s)
    ensures s.session == Study && s.time == 1500 && !s.running && s.completed == 0
  {
    TimerState(25 * 60, false, Study, 0)
  }

  /** Start button: only the running flag changes; the component does not check
      the remaining time. */
  function Start(s: TimerState): (r: TimerState)
    ensures r.running
    ensures r.time == s.time && r.session == s.session && r.completed == s.completed
  {
    s.(running := true)
  }

  /** Pause button: only the running flag changes. */
  function Pause(s: TimerState): (r: TimerState)
    ensures !r.running
    ensures r.time == s.time && r.session == s.session && r.completed == s.completed
  {
    s.(running := false)
  }

  /** Reset button: back to the full duration of the current session, paused. */
  function Reset(s: TimerState): (r: TimerState)
    ensures Settled(r) && !r.running
    ensures r.time == Duration(s.session)
    ensures r.session == s.session && r.completed == s.completed
  {
    s.(running := false, time := Duration(s.session))
  }

  /** Selecting a session kind: that kind at its full duration, paused, with the
      completed counter untouched. */
  function SwitchSession(s: TimerState, k: SessionKind): (r: TimerState)
    ensures Settled(r) && !r.running
    ensures r.session == k && r.time == Duration(k)
    ensures r.completed == s.completed
  {
    s.(session := k, time := Duration(k), running := false)
  }

  /** The session that follows a completed one, given the counter value after
      the completion has been counted. */
  function NextSession(finished: SessionKind, count: nat): (k: SessionKind)
    ensures finished == Study ==> (k == LongBreak <==> count % 4 == 0)
    ensures finished == Study ==> k != Study
    ensures finished != Study ==> k == Study
  {
    if finished == Study then
      if count % 4 == 0 then LongBreak else ShortBreak
    else
      Study
  }

  /** Completion: the clock stops, a finished study session is counted, and the
      next session is selected paused at its full duration. Every fourth study
      completion earns a long break; a break always leads back to study. */
  function Complete(s: TimerState): (r: TimerState)
    ensures Settled(r) && !r.running
    ensures r.time == Duration(r.session)
    ensures s.session == Study ==> r.completed == s.completed + 1
    ensures s.session == Study ==> (r.session == LongBreak <==> r.completed % 4 == 0)
    ensures s.session == Study ==> r.session != Study
    ensures s.session != Study ==> r.session == Study && r.time == 1500 && r.completed == s.completed
  {
    var count := if s.session == Study then s.completed + 1 else s.completed;
    SwitchSession(s.(running := false, completed := count), NextSession(s.session, count))
  }

  /** The interval is armed exactly while the timer runs with time left. */
  predicate Armed(s: TimerState) {
    s.running && s.time > 0
  }

  /** One firing of the one-second interval: one second less, nothing else
      changes. When the interval is not armed, a second passes without effect. */
  function Countdown(s: TimerState): (r: TimerState)
    ensures Armed(s) ==> r.time == s.time - 1
    ensures !Armed(s) ==> r.time == s.time
    ensures r.running == s.running && r.session == s.session && r.completed == s.completed
  {
    if Armed(s) then s.(time := s.time - 1) else s
  }

  /** The effect that runs after every change: at zero remaining time it stops
      the clock and completes the session, otherwise it changes nothing. */
  function Settle(s: TimerState): (r: TimerState)
    ensures Valid(s) ==> Settled(r)
    ensures Settled(s) ==> r == s
    ensures s.time == 0 ==> !r.running && r.session != s.session
    ensures r.completed >= s.completed
  {
    if s.time == 0 then Complete(s) else s
  }

  /** The completion fires once: settling a settled result changes nothing more. */
  lemma SettleOnce(s: TimerState)
    requires Valid(s)
    ensures Settle(Settle(s)) == Settle(s)
  {
  }

  /** One host second with the completion folded in. */
  function Tick(s: TimerState): (r: TimerState)
    ensures Armed(s) && s.time > 1 ==>
      r.time == s.time - 1 && r.running && r.session == s.session && r.completed == s.completed
    ensures Armed(s) && s.time == 1 ==> r == Complete(s.(time := 0))
    ensures Settled(s) && !s.running ==> r == s
    ensures Valid(s) ==> Settled(r)
    ensures r.completed >= s.completed
  {
    Settle(Countdown(s))
  }

  /** What an observer can trigger, plus the passing of one second. */
  datatype Op = StartOp | PauseOp | ResetOp | SwitchOp(kind: SessionKind) | TickOp

  /** One atomic transition: the operation followed by the re-render effect. */
  function Step(s: TimerState, op: Op): (r: TimerState)
    ensures Valid(s) ==> Settled(r)
    ensures r.completed >= s.completed
    ensures r.completed <= s.completed + 1
  {
    match op
    case StartOp => Settle(Start(s))
    case PauseOp => Settle(Pause(s))
    case ResetOp => Settle(Reset(s))
    case SwitchOp(k) => Settle(SwitchSession(s, k))
    case TickOp => Tick(s)
  }

  /** On an observable state the re-render effect is idle after every user
      operation, so each of them means exactly what its own contract says. */
  lemma UserOpsNeedNoSettling(s: TimerState, k: SessionKind)
    requires Settled(s)
    ensures Step(s, StartOp) == Start(s)
    ensures Step(s, PauseOp) == Pause(s)
    ensures Step(s, ResetOp) == Reset(s)
    ensures Step(s, SwitchOp(k)) == SwitchSession(s, k)
  {
  }

  /** The state after a sequence of operations. */
  function Run(s: TimerState, ops: seq<Op>): TimerState
    decreases |ops|
  {
    if ops == [] then s else Run(Step(s, ops[0]), ops[1..])
  }

  /** Every state reached from start-up is observable, in particular
      0 <= time <= duration of its session. */
  lemma {:induction false} RunKeepsSettled(s: TimerState, ops: seq<Op>)
    requires Valid(s)
    ensures Settled(Run(s, ops)) || ops == []
    ensures Valid(Run(s, ops))
    decreases |ops|
  {
    if ops != [] {
      RunKeepsSettled(Step(s, ops[0]), ops[1..]);
    }
  }

  /** The completed counter never decreases, and each operation adds at most one. */
  lemma {:induction false} RunCounterMonotone(s: TimerState, ops: seq<Op>)
    ensures s.completed <= Run(s, ops).completed <= s.completed + |ops|
    decreases |ops|
  {
    if ops != [] {
      RunCounterMonotone(Step(s, ops[0]), ops[1..]);
    }
  }

  /** Every state reachable from start-up is observable. */
  lemma ReachableSettled(ops: seq<Op>)
    ensures Settled(Run(Init(), ops))
  {
    RunKeepsSettled(Init(), ops);
  }

  /** Pausing and starting again resumes from the exact remaining time. */
  lemma PauseThenStartKeepsTime(s: TimerState)
    requires Settled(s)
    ensures Run(s, [PauseOp, StartOp]) == Start(s)
    ensures Run(s, [PauseOp, StartOp]).time == s.time
  {
    assert Run(s, [PauseOp, StartOp]) == Run(Pause(s), [StartOp]);
    assert Run(Pause(s), [StartOp]) == Run(Start(s), []);
  }

  /** Reset is idempotent and does not depend on how far the countdown went. */
  lemma ResetIdempotent(s: TimerState)
    ensures Reset(Reset(s)) == Reset(s)
    ensures Reset(s) == Reset(s.(time := 1, running := true))
  {
  }

  /** `n` consecutive host seconds. */
  function Ticks(s: TimerState, n: nat): TimerState
    decreases n
  {
    if n == 0 then s else Ticks(Tick(s), n - 1)
  }

  /** A running session counts down one second per tick and completes exactly on
      the tick that brings it to zero: before that it is still running the same
      session with the counter untouched. */
  lemma {:induction false} TicksCountDown(s: TimerState, n: nat)
    requires Settled(s) && s.running
    ensures n < s.time ==> Ticks(s, n) == s.(time := s.time - n)
    ensures n == s.time ==> Ticks(s, n) == Complete(s.(time := 0))
    decreases n
  {
    if n > 0 {
      if s.time == 1 {
        assert Ticks(s, n) == Ticks(Complete(s.(time := 0)), n - 1);
        if n == 1 {
          assert Ticks(Complete(s.(time := 0)), 0) == Complete(s.(time := 0));
        }
      } else {
        assert Tick(s) == s.(time := s.time - 1);
        TicksCountDown(s.(time := s.time - 1), n - 1);
      }
    }
  }

  /** A full study session started from start-up ends in the first short break. */
  lemma FirstStudySession()
    ensures Ticks(Start(Init()), 1500) == TimerState(300, false, ShortBreak, 1)
  {
    TicksCountDown(Start(Init()), 1500);
  }

  /** Host loop: ticks a running session until it stops by itself and reports how
      many ticks that took. */
  method RunToCompletion(s: TimerState) returns (r: TimerState, ticks: nat)
    requires Settled(s) && s.running
    ensures ticks == s.time
    ensures r == Complete(s.(time := 0))
    ensures r.completed <= s.completed + 1
  {
    r := s;
    ticks := 0;
    while r.running
      invariant ticks <= s.time
      invariant r.running ==> ticks < s.time && r == s.(time := s.time - ticks)
      invariant !r.running ==> ticks == s.time && r == Complete(s.(time := 0))
      decreases s.time - ticks
    {
      r := Tick(r);
      ticks := ticks + 1;
    }
  }

  /** Elapsed seconds of the current session: the numerator of the progress ring. */
  function Elapsed(s: TimerState): (e: int)
    ensures Valid(s) ==> 0 <= e <= Duration(s.session)
    ensures e == 0 <==> s.time == Duration(s.session)
    ensures e == Duration(s.session) <==> s.time == 0
  {
    Duration(s.session) - s.time
  }

  /** Each second of countdown adds exactly one second of progress. */
  lemma ElapsedGrowsPerTick(s: TimerState)
    requires Armed(s) && s.time > 1
    ensures Elapsed(Tick(s)) == Elapsed(s) + 1
  {
  }
}
