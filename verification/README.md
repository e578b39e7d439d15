# Study Timer: a Pomodoro session state machine

This project models the core of the `StudyTimer` React component in Dafny. The
component is a Pomodoro countdown with three session kinds: study (25 minutes),
short break (5 minutes) and long break (15 minutes). Its state is the remaining
seconds, a running flag, the current session and the number of completed study
sessions. The model keeps that state as an immutable `TimerState` value. Each
operation is a pure function to the next state:

- start, pause and reset (the three buttons);
- switching session;
- one second of the interval clock, with the completion of a session folded
  into the same atomic step.

The model also covers the derived values: the `MM:SS` display, the elapsed
seconds behind the progress ring, and the "Total Study Time" hours/minutes split.

Modules:

- `Wrappers` (wrappers.dfy): the `Option` type.
- `Sessions` (sessions.dfy): `SessionKind`, the fixed profile table, and lookup by key.
- `Timer` (timer.dfy): `TimerState`, the transitions, the invariant, and runs of operations.
- `Clock` (clock.dfy): `MM:SS` formatting. `ParseTime` reads the display back; it is a proved left inverse of the formatting.
- `Stats` (stats.dfy): the total-study-time split and the one-long-break-in-four rhythm.

How the component's effect is modelled. After every change of `time` or
`isRunning`, the component re-runs an effect (src/studyTimer.jsx:39-50). When the
timer runs with time left, the effect arms a one-second interval. Otherwise, if
time is 0, it stops the clock and completes the session. In the model:

- `Countdown` is one firing of the interval.
- `Settle` is the effect's completion branch.
- `Tick = Settle ∘ Countdown` is one host second.
- `Step` applies any user operation and then `Settle`.

So in the model time 0 never survives a step. `Settled` (valid, and
time > 0) holds of every state reachable from `Init`. The one render the
component shows at `00:00` before its effect runs is not a model state (see
"## Left out").

Two details of the component that the model keeps:

- `startTimer` does not check that time is left. A start at time 0 is settled
  at once into a completion, which is what the effect at
  src/studyTimer.jsx:44-46 does.
- The effect's completion branch fires when time is 0 whether or not the
  timer is running. `Settle` does the same.

## Model

| member | source | states |
|---|---|---|
| `Sessions.ProfileOf` | src/studyTimer.jsx:10-14 | The durations are 1500, 300 and 900 seconds. Every duration is positive and a whole number of minutes. |
| `Sessions.KindOfKey` | src/studyTimer.jsx:10-14 | Looking up a session by its table key succeeds exactly for `study`, `shortBreak` and `longBreak`, and the kind found has that key. |
| `Sessions.KeyRoundTrip` | src/studyTimer.jsx:10-14 | Looking up a kind's own key gives back that kind. |
| `Timer.Init` | src/studyTimer.jsx:4-7 | The initial state is a paused study session at 1500 seconds with nothing completed, and it satisfies the invariant. |
| `Timer.Start` | src/studyTimer.jsx:58 | Start sets running and leaves time, session and counter as they were. |
| `Timer.Pause` | src/studyTimer.jsx:59 | Pause clears running and leaves time, session and counter as they were. |
| `Timer.Reset` | src/studyTimer.jsx:60-63 | Reset stops the clock and restores the current session's full duration. Session and counter are unchanged. |
| `Timer.SwitchSession` | src/studyTimer.jsx:16-20 | Switching to kind k gives session k at k's full duration, paused, with the counter unchanged. |
| `Timer.NextSession` | src/studyTimer.jsx:23-30 | After study, the next session is a long break iff the new count is a multiple of 4, and a short break otherwise. After any break it is study. |
| `Timer.Complete` | src/studyTimer.jsx:22-31 | Completion leaves the timer paused at the next session's full duration. After study: the counter goes up by exactly one, and a long break iff the new count mod 4 is 0. After a break: study at 1500 seconds, counter unchanged. |
| `Timer.Countdown` | src/studyTimer.jsx:40-43 | An armed interval firing lowers time by exactly 1 and changes nothing else. When not armed it changes nothing. |
| `Timer.Settle` | src/studyTimer.jsx:44-46 | The effect turns every valid state into a settled one and leaves settled states alone. At time 0 it stops the clock and moves to a different session. It never lowers the counter. |
| `Timer.SettleOnce` | src/studyTimer.jsx:44-46 | The completion fires once: settling again after the effect changes nothing. |
| `Timer.Tick` | src/studyTimer.jsx:39-50 | A running tick above 1 second decreases time by 1 and keeps the rest. The tick from 1 is the completion. A paused observable state is unchanged. A valid state goes to an observable one. The counter never decreases. |
| `Timer.Step` | src/studyTimer.jsx:16-63 | Every operation maps a valid state to an observable one. It raises the counter by at most one and never lowers it. |
| `Timer.UserOpsNeedNoSettling` | src/studyTimer.jsx:44-46 | On an observable state the effect is idle after start, pause, reset and switch. |
| `Timer.RunKeepsSettled` | src/studyTimer.jsx:16-63 | Any sequence of operations from a valid state keeps 0 <= time <= duration(session). After at least one operation, time is also positive. |
| `Timer.RunCounterMonotone` | src/studyTimer.jsx:22-31 | Over any sequence of operations the counter never decreases, and it grows by at most one per operation. |
| `Timer.ReachableSettled` | src/studyTimer.jsx:4-63 | Every state reachable from start-up satisfies the invariant with time > 0. |
| `Timer.PauseThenStartKeepsTime` | src/studyTimer.jsx:58-59 | Pause followed by start resumes with exactly the remaining time it had. |
| `Timer.ResetIdempotent` | src/studyTimer.jsx:60-63 | Reset is idempotent, and its result depends on neither the remaining time nor the running flag. |
| `Timer.TicksCountDown` | src/studyTimer.jsx:39-50 | From a running observable state, n < time ticks leave the same session running at time - n. Exactly `time` ticks yield the completion. |
| `Timer.FirstStudySession` | src/studyTimer.jsx:4-46 | Starting at start-up and ticking 1500 times ends paused in a short break at 300 seconds with one session completed. |
| `Timer.RunToCompletion` | src/studyTimer.jsx:39-50 | Ticking a running session until the clock stops takes exactly `time` ticks, ends in the completion, and adds at most one to the counter. |
| `Timer.Elapsed` | src/studyTimer.jsx:65 | For a valid state, elapsed time lies in [0, duration]. It is 0 iff time is the full duration, and equals the duration iff time is 0. |
| `Timer.ElapsedGrowsPerTick` | src/studyTimer.jsx:65 | Each running second that does not complete the session adds exactly one to elapsed time. |
| `Clock.DecimalString` | src/studyTimer.jsx:55 | `toString` of a natural below 10^21 gives nonempty digit text without leading zeros. It is one digit iff the number is below 10, and at most two digits below 100. |
| `Clock.DecimalRoundTrip` | src/studyTimer.jsx:55 | Reading the decimal text back gives the number. |
| `Clock.PadStart` | src/studyTimer.jsx:55 | `padStart(2, '0')` leaves text of at least the width alone, and makes shorter text exactly the width. |
| `Clock.PadStartShape` | src/studyTimer.jsx:55 | Padding keeps the original text as a suffix and puts only zeros before it. |
| `Clock.PadStartValue` | src/studyTimer.jsx:55 | Zero-padding keeps digit text digit text with the same value. |
| `Clock.ClockParts` | src/studyTimer.jsx:53-54 | The displayed seconds are below 60, and minutes * 60 + seconds is the input. |
| `Clock.Field` | src/studyTimer.jsx:55 | A display field is digit text of at least two characters, exactly two below 100. |
| `Clock.FieldValue` | src/studyTimer.jsx:55 | A display field reads back as the number it shows. |
| `Clock.FormatTimeShape` | src/studyTimer.jsx:52-55 | The display is digits, a colon, then two digits. It is exactly five characters for inputs below 6000 seconds. |
| `Clock.FormatTimeRoundTrip` | src/studyTimer.jsx:52-55 | Reading the `MM:SS` display back gives the exact number of seconds. |
| `Clock.FormatTimeInjective` | src/studyTimer.jsx:52-55 | Different remaining times always render differently. |
| `Clock.FormatTimeExample65` | src/studyTimer.jsx:52-55 | 65 seconds render as `01:05`. |
| `Clock.FormatTimeExampleZero` | src/studyTimer.jsx:52-55 | 0 seconds render as `00:00`. |
| `Clock.FormatTimeExampleStudy` | src/studyTimer.jsx:52-55 | A full study session (1500 seconds) renders as `25:00`. |
| `Stats.MinutesPerSessionIsStudyLength` | src/studyTimer.jsx:171 | The 25 minutes credited per session equal the study duration of 1500 seconds. |
| `Stats.TotalStudyTime` | src/studyTimer.jsx:171 | Hours * 60 + minutes is 25 times the completed count, and minutes are below 60. |
| `Stats.TotalStudyTimeUnique` | src/studyTimer.jsx:171 | That split is the only one with minutes below 60. |
| `Stats.TotalStudyTimeStep` | src/studyTimer.jsx:171 | One more completed session adds 25 minutes, carrying into the hours past 60. |
| `Stats.LongBreakEveryFourth` | src/studyTimer.jsx:26 | After n study completions, exactly n / 4 were followed by a long break. |
| `Stats.StudyCompletionAddsMinutes` | src/studyTimer.jsx:171 | Completing a study session raises the displayed total by exactly 25 minutes. |

## Left out

- Rendering: the JSX markup, CSS classes, button wiring and session selector (src/studyTimer.jsx:67-184) are presentational. Only the operations they invoke are modelled.
- The progress ring's percentage and SVG dash geometry (src/studyTimer.jsx:65, 99-100) are floating point. Progress is modelled as the integer elapsed numerator over the session duration.
- The browser notification on completion (src/studyTimer.jsx:34-36) is a best-effort foreign call with no effect on state.
- Host timer plumbing is not modelled: `setInterval`/`clearInterval`, the interval ref, effect scheduling, and React's batching of updates and stale closures (src/studyTimer.jsx:8, 39-50). Each tick and each completion is one atomic transition. So the render the component commits at `00:00`, before its effect completes the session, is not a state of the model.
- The colour tag of each profile is kept as data. Nothing is proved about it.
- `Clock.FormatTime` takes a natural number, and `Clock.DecimalString` gives plain decimal digits for every size. The component only passes remaining times, which are never negative and at most 1500. JavaScript's rendering of negative numbers is not modelled, and neither is the exponent form `Number#toString` switches to from 10^21 on (`"1e+21"`).
- `Clock.ParseTime` is only a left inverse of `FormatTime`. It also accepts text the display never shows, such as `1:05` for 65 seconds.
- Unknown session keys. The model's `SwitchSession` takes a `SessionKind`. `KindOfKey` gives `None` for a name that is neither a table key nor an `Object.prototype` member. In the component, such a name passed to `switchSession` makes the lookup at src/studyTimer.jsx:18 throw after the session-type update has been queued; that half-applied update is not modelled.
- Inherited names such as `constructor`, `toString` or `__proto__` are not modelled. For these the table lookup finds an inherited member whose `.duration` is `undefined`, so nothing throws and the time becomes `undefined`.
