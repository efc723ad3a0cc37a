# Countdown timer: a Dafny model

This project models the core of an Android countdown timer screen
(`MainActivity.kt`). The user builds a duration from +10 / +5 / +1 buttons
for hours, minutes and seconds, starts a platform countdown, watches the
remaining time, and can stop, or reset the duration.

The model has these modules:

- `TimerModel` (timer_model.dfy). The state the `SetTime()` composable
  remembers: `setTime` in seconds, `status` (STOPPED / STARTED),
  `remaining` in milliseconds, and the `timer` handle. It gives each lambda
  and each countdown callback as one `Step` of a pure state machine, with
  `Run` over a sequence of events, and proves lemmas about traces.
- `Controller` (controller.dfy). Class `TimerController` holds the same four
  fields. Its methods `AddTime`, `Reset`, `Start`, `Stop`, `OnTick` and
  `OnFinish` update them in place. Each method states its whole new state
  and is proved to take exactly the matching `TimerModel.Step`.
- `Display` (display.dfy). The `when (status)` text. STOPPED shows
  `HH:MM:SS` of `setTime`. STARTED shows `HH:MM:SS.d` of `remaining`. A
  parser reads the text back, and the round-trip lemmas show what the text
  keeps.
- `Controls` (controls.dfy). Which intents the screen offers in each status.
  The increment columns `[10, 5, 1]` for hours, minutes and seconds. The
  button labels `+<n><suffix>`.
- `Decimal` (decimal.dfy). Kotlin's `"%d"` and `"%02d"` for non-negative
  numbers, with a digit reader.
- `TimeUnits` (time_units.dfy). `java.util.concurrent.TimeUnit` and
  `toSeconds`.
- `Options` (options.dfy). An option type.

The platform `CountDownTimer` is the environment. It may call `OnTick(v)`
and `OnFinish()` at any time. The model keeps only the arguments it was
created with and whether `cancel()` was called on it.

Where the specification of the system and the code differ, the model follows the code:

- The `onAddTime` and RESET lambdas have no status guard. They change
  `setTime` in either status. Only the screen keeps them from being used
  while STARTED: `Controls.DurationFrozenWhileStarted` proves that through
  the offered controls the duration cannot change while the countdown runs.
- RESET does not clear `remaining`.
- STOP cancels the countdown but keeps the handle. A natural finish leaves
  the handle as it is too.
- START has no special case for a zero duration. It starts a countdown of
  0 ms like any other.

## Model

| member | source | states |
|---|---|---|
| `Decimal.Digits` | app/src/main/java/com/example/androiddevchallenge/MainActivity.kt:136 | `"%d"` of n is at least one decimal digit; it is one digit exactly when n < 10, at least three from 100 on, and never has a leading zero unless n is 0 |
| `Decimal.ParseDigitsOfDigits` | app/src/main/java/com/example/androiddevchallenge/MainActivity.kt:136 | the decimal digits of n read back as n |
| `Decimal.Pad2` | app/src/main/java/com/example/androiddevchallenge/MainActivity.kt:123-125 | `"%02d"` of n is all digits, exactly two characters below 100, never truncated above, and reads back as n |
| `TimerModel.AddTimeEffect` | app/src/main/java/com/example/androiddevchallenge/MainActivity.kt:78-80 | adding time grows setTime by amount×3600 for hours, ×60 for minutes, ×1 for seconds; status, remaining and timer are unchanged |
| `TimerModel.ResetEffect` | app/src/main/java/com/example/androiddevchallenge/MainActivity.kt:102 | reset sets setTime to 0 and leaves status, remaining and timer as they were |
| `TimerModel.StartEffect` | app/src/main/java/com/example/androiddevchallenge/MainActivity.kt:84-97 | start, from any state and with no guard on setTime > 0, gives remaining = setTime×1000, status STARTED, a fresh countdown of setTime×1000 ms ticking every 10 ms, and keeps setTime |
| `TimerModel.TickEffect` | app/src/main/java/com/example/androiddevchallenge/MainActivity.kt:86-88 | a tick sets remaining to the delivered value and changes nothing else |
| `TimerModel.FinishEffect` | app/src/main/java/com/example/androiddevchallenge/MainActivity.kt:90-92 | finish sets status to STOPPED and keeps setTime, remaining and timer |
| `TimerModel.StopEffect` | app/src/main/java/com/example/androiddevchallenge/MainActivity.kt:98-101 | stop ends in STOPPED from either status, keeps setTime and remaining, cancels the handle if there is one, and a second stop changes nothing |
| `TimerModel.AddsAccumulate` | app/src/main/java/com/example/androiddevchallenge/MainActivity.kt:77-80 | after any sequence of additions setTime has grown by exactly the sum of the converted amounts, and nothing else has changed |
| `TimerModel.ResetThenAdds` | app/src/main/java/com/example/androiddevchallenge/MainActivity.kt:78-102 | after a reset followed by additions, setTime is exactly the sum of the added amounts |
| `TimerModel.Frames` | app/src/main/java/com/example/androiddevchallenge/MainActivity.kt:76-103 | over any trace, setTime changes only through add/reset, remaining only through start/tick, status only through start/stop/finish |
| `TimerModel.StatusFollowsLastControl` | app/src/main/java/com/example/androiddevchallenge/MainActivity.kt:81-101 | after any trace the status is STARTED if and only if the last start is followed by no stop or finish, or no status event occurred and it was STARTED already |
| `Display.ClockFields` | app/src/main/java/com/example/androiddevchallenge/MainActivity.kt:123-125 | the hours, minutes and seconds fields satisfy h×3600 + m×60 + s = t with minutes and seconds in 0..59 |
| `Display.ClockRoundTrip` | app/src/main/java/com/example/androiddevchallenge/MainActivity.kt:122-127 | the STOPPED text is an hours field of at least two digits followed by `:MM:SS`, and reads back as exactly setTime (hours not wrapped at 24) |
| `Display.ClockInjective` | app/src/main/java/com/example/androiddevchallenge/MainActivity.kt:122-127 | two durations give the same STOPPED text only if they are equal |
| `Display.ClockWidth` | app/src/main/java/com/example/androiddevchallenge/MainActivity.kt:123 | the STOPPED text is eight characters long if and only if the duration is under 100 hours |
| `Display.RunningRoundTrip` | app/src/main/java/com/example/androiddevchallenge/MainActivity.kt:131-138 | the STARTED text is the clock text of remaining/1000, a dot and one digit 0..9 equal to remaining%1000/100; it reads back as remaining in whole deciseconds |
| `Display.RenderReadsBack` | app/src/main/java/com/example/androiddevchallenge/MainActivity.kt:121-141 | what the screen shows reads back as setTime seconds when STOPPED and as remaining/100 deciseconds when STARTED |
| `Display.StoppedExample` | app/src/main/java/com/example/androiddevchallenge/MainActivity.kt:122-127 | 3661 s shows as "01:01:01" |
| `Display.RunningExample` | app/src/main/java/com/example/androiddevchallenge/MainActivity.kt:131-138 | 3725000 ms shows as "01:02:05.0" |
| `Display.StartShowsConfigured` | app/src/main/java/com/example/androiddevchallenge/MainActivity.kt:94-96 | right after start the screen shows the configured duration followed by ".0" |
| `Display.HaltShowsConfigured` | app/src/main/java/com/example/androiddevchallenge/MainActivity.kt:121-127 | after a stop or a finish the screen shows the configured duration again |
| `Controls.GridOrder` | app/src/main/java/com/example/androiddevchallenge/MainActivity.kt:227-231 | the grid is nine buttons: the hours, minutes and seconds columns left to right, each offering +10, +5, +1 top to bottom |
| `Controls.Intents` | app/src/main/java/com/example/androiddevchallenge/MainActivity.kt:144-222 | START and RESET are offered if and only if STOPPED, STOP if and only if STARTED; add-time intents only when STOPPED, all nine increments then, each in a clock unit with an amount from {10, 5, 1} |
| `Controls.StartOrStop` | app/src/main/java/com/example/androiddevchallenge/MainActivity.kt:198-222 | exactly one of START and STOP is offered in every status |
| `Controls.DurationFrozenWhileStarted` | app/src/main/java/com/example/androiddevchallenge/MainActivity.kt:144-159 | through the offered controls, from STARTED and until a stop or a finish, the status stays STARTED and setTime does not change |
| `Controls.LabelRoundTrip` | app/src/main/java/com/example/androiddevchallenge/MainActivity.kt:239-270 | the label of an hours, minutes or seconds button `+<n>h`, `+<n>m`, `+<n>s` reads back as that amount and unit |
| `Controls.OtherUnitLabel` | app/src/main/java/com/example/androiddevchallenge/MainActivity.kt:252-256 | any other unit gets the suffix "" and a label `+<n>` that names no unit |
| `Controls.GridLabelsDistinct` | app/src/main/java/com/example/androiddevchallenge/MainActivity.kt:229-270 | the nine increment buttons carry nine different labels |
| `Controls.GridLabelsExample` | app/src/main/java/com/example/androiddevchallenge/MainActivity.kt:270 | sample labels "+10h", "+5m", "+1s" |
| `Controls.GridPressesAdmissible` | app/src/main/java/com/example/androiddevchallenge/MainActivity.kt:144-159 | from STOPPED, any sequence of increment presses is offered at each step and the status stays STOPPED |
| `Controls.ComposeAddsUp` | app/src/main/java/com/example/androiddevchallenge/MainActivity.kt:153-155 | every duration t is the sum of a sequence of presses of the screen's own increment buttons |
| `Controls.AnyDurationComposable` | app/src/main/java/com/example/androiddevchallenge/MainActivity.kt:144-159 | from STOPPED, RESET followed by increment presses is offered at every step and sets setTime to any chosen t |
| `Controller.TimerController.constructor` | app/src/main/java/com/example/androiddevchallenge/MainActivity.kt:77-83 | the state starts at setTime 0, STOPPED, remaining 0, no timer, and shows "00:00:00" |
| `Controller.TimerController.AddTime` | app/src/main/java/com/example/androiddevchallenge/MainActivity.kt:78-80 | setTime grows by unit.toSeconds(time), nothing else changes; the step is TimerModel.Step's AddTime |
| `Controller.TimerController.Reset` | app/src/main/java/com/example/androiddevchallenge/MainActivity.kt:102 | setTime becomes 0, nothing else changes; the step is Step's Reset |
| `Controller.TimerController.Start` | app/src/main/java/com/example/androiddevchallenge/MainActivity.kt:84-97 | a new countdown handle of setTime×1000 ms every 10 ms, remaining = setTime×1000, STARTED, setTime kept; the screen shows the configured time followed by ".0" |
| `Controller.TimerController.Stop` | app/src/main/java/com/example/androiddevchallenge/MainActivity.kt:98-101 | the handle is cancelled if present, status STOPPED, setTime and remaining kept |
| `Controller.TimerController.OnTick` | app/src/main/java/com/example/androiddevchallenge/MainActivity.kt:86-88 | remaining becomes the delivered value, nothing else changes |
| `Controller.TimerController.OnFinish` | app/src/main/java/com/example/androiddevchallenge/MainActivity.kt:90-92 | status becomes STOPPED, nothing else changes |

## Left out

- Compose layout, theming, colours, sizes, the `RESET` slot's spacer while STARTED, and the `@Preview` functions: they are presentation only.
- The `MainActivity` lifecycle and `setContent`: platform plumbing.
- `rememberSaveable` / `remember` persistence across recomposition and process restore: framework behaviour.
- The scheduling and timing of `android.os.CountDownTimer`: it is a foreign library. Its callbacks are events the environment may deliver at any time, in any order. Nothing is claimed about monotonic ticks or about callbacks after `cancel()`, because the code does not enforce either.
- Kotlin `Long` width: `setTime`, `remaining` and the product `setTime * 1000` are unbounded naturals here, so overflow past 2^63 − 1 is not modelled. `TimeUnit.toSeconds` saturation at `Long.MAX_VALUE` is not modelled either.
- Negative amounts and negative tick values: amounts and ticks are naturals. The screen only passes 10, 5 and 1, and the platform countdown reports time left, which is not negative. So negative inputs, and Kotlin's truncating `/` and `%` on them, are outside the model.
- `String.format` uses the default locale. The model renders ASCII digits only.
