# FarmingCal drop-time calculator — a Dafny model

FarmingCal is a browser calculator for game farming: given an item's drop rate
(in percent) and what a player hunts in five minutes (a kill count, or the
experience gained and the experience one monster gives), it estimates how many
kills the drop takes on average, the kill throughput, and how long the hunt
will run. It shows that time as `H시간 MM분 SS초` and offers a floating
countdown timer seeded with it.

This project models the logic of `src/App.jsx`:

- `wrappers.dfy` — `Option`, for JavaScript's missing values and the
  estimator's `null`.
- `js_math.dfy` (module `JsMath`) — `Math.max` on integers, and `Math.round` and
  `Math.pow` on exact reals: `Math.round(x)` is `floor(x + 1/2)` (halves go up), which is
  proved to be the unique nearest integer and, for a quotient of integers, an
  integer division.
- `time_format.dfy` (module `TimeFormat`) — `formatTime`: the normalisation
  `Math.max(0, Math.round(t || 0))`, the split into hours, minutes and seconds,
  `String(n)`, `padStart(2, "0")` and the label. The partner of the label is a
  reader, `ParseLabel`, and the round trip proves that the label always carries
  two-digit minutes and seconds and determines the second count.
- `estimator.dfy` (module `Estimator`) — the `metrics` memo and
  `successProbability`: the `null` guards, `Math.round(1 / p)`,
  `Math.floor(xp5 / mxp)`, the ×12 scaling, the `|| 1` fallback and the
  rounding of the time, each characterised independently of its formula
  (nearest integer, whole kills, monotonicity) and checked against a worked
  example (0.006 %, 250 kills per five minutes: 16667 kills, 3000 an hour,
  20000 seconds).
- `floating_timer.dfy` (module `Timer`) — `FloatingTimer` as a class with the
  `seconds` and `running` state hooks and the current `initSeconds` prop, whose
  methods (Start, Pause, Reset, one interval Tick, a new prop) are each proved
  equal to one step of a pure event machine (`Step`), and `n` seconds passing
  to `n` ticks of it (`Run`). Lemmas about that machine state what the
  component promises: a countdown by one per second that stops at 0, Start and Pause
  touching only `running`, Reset touching only `seconds`, a paused timer
  frozen, and the count never negative.
- `app.dfy` (module `App`) — how `App` wires the estimate into the result card
  and the timer's prop.

Two behaviours of the code are worth knowing. Reset reloads the seconds from
the prop as it is *now*, and does not stop a running timer. And because the
count is a state hook seeded once, at mount, a later estimate does not reach
it: `App` mounts the timer on its first render, while every field is still
empty, so the timer opens at 0 until Reset is pressed (`App.TimerKeepsMountEstimate`,
`App.FirstRenderSeedsZero`). Closing the timer only hides it; it stays mounted,
so a running countdown keeps running while hidden.

## Model

| member | source | states |
|---|---|---|
| `JsMath.Round` | src/App.jsx:7 | `Math.round(x)` is an integer within half a unit of `x`, a tie going up |
| `JsMath.Max` | src/App.jsx:7 | `Math.max(a, b)` is at least both arguments and is one of them |
| `JsMath.RoundUnique` | src/App.jsx:7 | any integer within half a unit of `x` (tie up) is `Math.round(x)`: rounding is determined by its contract |
| `JsMath.RoundQuotient` | src/App.jsx:161 | rounding `a / b` for integers, `b > 0`, equals `(2a + b) div 2b` |
| `JsMath.PowInUnit` | src/App.jsx:17 | for a base in [0, 1) the powers stay in [0, 1], are below 1 from exponent 1 on, and never grow with the exponent |
| `TimeFormat.Normalize` | src/App.jsx:7 | the normalised count is 0 exactly when the input is missing or below 1/2 (so every zero or negative input), and otherwise the nearest whole number to it |
| `TimeFormat.FormatTime` | src/App.jsx:6-13 | `h*3600 + m*60 + s` is the normalised count, with `m < 60` and `s < 60`, and the label is the one rendered from `h`, `m`, `s` |
| `TimeFormat.SplitSeconds` | src/App.jsx:8-10 | `t/3600`, `(t%3600)/60` and `t%60` recombine to `t`, the minutes below 60 |
| `TimeFormat.FormatTimeInverts` | src/App.jsx:8-10 | formatting the total of any `h`, `m < 60`, `s < 60` gives back exactly `h`, `m`, `s` |
| `TimeFormat.DecompositionUnique` | src/App.jsx:8-10 | two hours/minutes/seconds triples with the same total and minutes, seconds below 60 are equal |
| `TimeFormat.DecimalString` | src/App.jsx:12 | `String(h)` is a non-empty string of decimal digits, without a leading zero unless it is "0", denoting `h` |
| `TimeFormat.PadStart` | src/App.jsx:11 | `padStart(width, fill)` ends with the original string, is filled on the left only with `fill`, and is `max(len, width)` long |
| `TimeFormat.Pad2Digits` | src/App.jsx:11 | for a value below 100, `pad(x)` is exactly two digits that denote `x` |
| `TimeFormat.LabelRoundTrip` | src/App.jsx:12 | reading a label back yields the hours, minutes and seconds it was rendered from: hours unpadded, minutes and seconds as exactly two digits |
| `TimeFormat.TailRoundTrip` | src/App.jsx:11-12 | the part of the label after the hours reads back as its minutes and seconds and does not start with a digit |
| `TimeFormat.LabelDeterminesSeconds` | src/App.jsx:6-13 | two inputs with the same label have the same normalised second count |
| `Estimator.SuccessProbability` | src/App.jsx:15-18 | the probability is 0 when `p` or `n` is 0, and 1 when `p` is 1 and `n > 0` |
| `Estimator.SuccessProbabilityInUnit` | src/App.jsx:17 | for `0 < p <= 1` and `n > 0` the probability lies in (0, 1] |
| `Estimator.SuccessProbabilityGrows` | src/App.jsx:17 | for `0 < p <= 1` one more kill never lowers the probability |
| `Estimator.ExpectedKills` | src/App.jsx:149 | the expected kills are within half a kill of `1/p` (tie up), and at least 1 when `p <= 1` |
| `Estimator.KillsPer5m` | src/App.jsx:152-158 | no value exactly when the chosen mode's field is zero; in experience mode the whole kills the experience pays for (`k*mxp <= xp5 < (k+1)*mxp`); in kill mode the count itself |
| `Estimator.SecondsNeeded` | src/App.jsx:161 | with a zero hourly rate the time is `3600 * expectedKills` (the fallback to a rate of 1); otherwise the nearest whole second to `3600 * expectedKills / killsPerHr`, a tie going up |
| `Estimator.SecondsNeededZero` | src/App.jsx:161 | the time rounds to 0 exactly when no kill is expected or `7200 * expectedKills < killsPerHr` (less than half a second) |
| `Estimator.SecondsNeededExact` | src/App.jsx:161 | the rounded time equals `(7200 e + k) div 2k`, a non-negative whole number |
| `Estimator.DropProbability` | src/App.jsx:142 | the probability times 100 is the percentage entered, so a percentage in [0, 100] gives a probability in [0, 1] |
| `Estimator.Estimate` | src/App.jsx:141-165 | `null` exactly when the drop rate is 0 or the chosen mode's observation is 0 (monster or five-minute experience in experience mode, the kill count in kill mode); otherwise the hourly rate is 12 times the five-minute rate, the five-minute rate in kill mode is the kill count entered, the expected kills are within half a kill of `100 / dropRatePct`, and the probability shown is `successProbability` of the drop probability at the expected kills |
| `Estimator.NoDropRateNoEstimate` | src/App.jsx:147 | a zero drop rate yields no estimate whatever the observation |
| `Estimator.XpModeCountsWholeKills` | src/App.jsx:154 | an estimate in experience mode counts only whole kills: `killsPer5m * mxp <= xp5 < (killsPer5m + 1) * mxp` |
| `Estimator.EstimateSeconds` | src/App.jsx:160-161 | an estimate's time is `3600 * expectedKills` when its hourly rate is 0, and otherwise the nearest second to expected kills over the hourly rate |
| `Estimator.ZeroRateOnlyBelowOneMonster` | src/App.jsx:152-161 | an estimate's hourly rate is 0 exactly in experience mode when the five-minute experience is below one monster's |
| `Estimator.SecondsNeededFallsWithRate` | src/App.jsx:161 | a higher (positive) hourly rate never gives a longer time |
| `Estimator.SecondsNeededGrowsWithKills` | src/App.jsx:161 | more expected kills never give a shorter time |
| `Estimator.CertainDropEstimate` | src/App.jsx:149-162 | a 100 % drop rate gives 1 expected kill and a probability of 1 |
| `Estimator.WorkedExample` | src/App.jsx:141-165 | 0.006 % with 250 kills per five minutes gives 16667 expected kills, 3000 kills an hour and 20000 seconds |
| `Timer.Mount` | src/App.jsx:66-67 | a freshly mounted timer is paused, holds its prop, its count is the prop's seed so that Reset changes nothing, and it is non-negative exactly when that seed is |
| `Timer.Step` | src/App.jsx:65-116 | each event touches only its own part of the state: only Start and Pause change `running`, only a re-render changes the prop, Reset loads the prop's seed, every other event never raises the count above `max(0, count)` nor makes a non-negative count negative, and moves it only when the interval fires on a running timer |
| `Timer.Run` | src/App.jsx:65-116 | after a sequence of events the prop is the last one passed in, whatever events follow it, or the starting one when none is |
| `Timer.TicksCountDown` | src/App.jsx:69-73 | `n` interval firings turn a running count `s` into `max(0, s - n)` (for `n > 0`), leave a paused timer unchanged, and change nothing but `seconds` |
| `Timer.StartedCountdown` | src/App.jsx:66-73 | a timer mounted with `T` and started shows `max(0, T - n)` after `n` seconds and is still running |
| `Timer.StaysNonNegative` | src/App.jsx:66-116 | with a non-negative count and seed, and non-negative new props, no sequence of events makes the count negative |
| `Timer.OnlyResetRaises` | src/App.jsx:69-116 | without Reset the count never exceeds `max(0, start)`, and a count of 0 or more stays 0 or more |
| `Timer.ZeroStaysZero` | src/App.jsx:71 | a count at 0 stays at 0 until Reset |
| `Timer.RunningOnlyByButtons` | src/App.jsx:104-110 | without Start or Pause, `running` keeps its value through any events |
| `Timer.PausedIsFrozen` | src/App.jsx:69-73 | a paused timer keeps its count and stays paused until Start or Reset |
| `Timer.ResetUsesLatestProp` | src/App.jsx:65-116 | a new prop does not change the count, and a Reset after it loads the new prop's value |
| `Timer.FloatingTimer.constructor` | src/App.jsx:66-67 | a mounted timer holds the prop (0 when missing) and is not running |
| `Timer.FloatingTimer.Time` | src/App.jsx:75 | the displayed duration recombines to `max(0, seconds)` with minutes and seconds below 60, and its text is the label rendered from those hours, minutes and seconds |
| `Timer.FloatingTimer.Start` | src/App.jsx:104 | Start sets `running` and changes nothing else |
| `Timer.FloatingTimer.Pause` | src/App.jsx:110 | Pause clears `running` and changes nothing else |
| `Timer.FloatingTimer.Reset` | src/App.jsx:116 | Reset sets `seconds` to the current prop (0 when missing) and leaves `running` as it was |
| `Timer.FloatingTimer.Tick` | src/App.jsx:69-73 | a firing decrements a running count with a floor at 0 and does nothing to a paused timer |
| `Timer.FloatingTimer.ReceiveInitSeconds` | src/App.jsx:65-66 | a new prop is recorded without touching `seconds` or `running` |
| `Timer.FloatingTimer.Elapse` | src/App.jsx:69-73 | `n` seconds leave a running count at `max(0, s - n)` (for `n > 0`) and a paused one unchanged, as `n` steps of the event machine |
| `App.ResultTime` | src/App.jsx:167 | the result card's duration recombines to the estimate's seconds (0 without an estimate), and its text is the label rendered from those hours, minutes and seconds |
| `App.TimerProp` | src/App.jsx:272 | the timer's prop is never missing or negative, and is 0 exactly when there is no estimate or its time rounds to no second |
| `App.TimerFromEstimateNeverNegative` | src/App.jsx:269-274 | a timer mounted from an estimate, and re-propped only from estimates, never shows a negative count |
| `App.TimerKeepsMountEstimate` | src/App.jsx:65-116 | after a newer estimate reaches the prop the count is still the first estimate's; a Reset loads the newer one |
| `App.FirstRenderSeedsZero` | src/App.jsx:132-137 | with every field empty, the timer App mounts holds 0 seconds |

## Left out

- Floating point: the model computes on exact reals and unbounded integers. `1 / p`, the division by the hourly rate and `Math.pow` can differ from IEEE-754 doubles in the last bit, which can move a result that lies exactly on a rounding boundary; infinities and `-0` are not modelled.
- `Estimator.SuccessProbability`: `Math.pow(1 - p, n)` is modelled as an exact power for a natural exponent; the source's floating-point result and its display with `toFixed(1)` are not modelled.
- Parsing of the form fields (`Number(...)`, empty strings, NaN): the inputs arrive parsed, the drop rate as a real of 0 or more and the other fields as whole numbers of 0 or more; a NaN drop rate, which the source also treats as missing, and fractional kill counts are not represented.
- `formatTime`'s argument is a real or missing; a non-finite argument is not represented.
- The real-time behaviour of `setInterval`/`clearInterval`: each firing is an explicit `Tick`, and the part of a second lost when the timer is paused and started again is not modelled.
- Presentation: the `Card`, `CardHeader`, `CardContent`, `Label`, `Input`, `Button` components, the JSX, animation, dragging, the portal, `toLocaleString`, the `submitted` flag and the item name only affect what is displayed.
- `api/sheets-local.js`, `api/sheets.js`, `test-sheets.js`: spreadsheet fetching over the network, not part of this model.
- `vite.config.js`: build and proxy configuration, not part of this model.
