# Shake detector of accel-demo, in Dafny

This project models the motion-processing core of the accel-demo page
(`script.js`). The page watches the device's vertical acceleration. It
estimates gravity with a single-pole low-pass filter and subtracts it. When
the compensated value rises above a user-set threshold, it records a "shake
detected" entry, then ignores further crossings for a one-second cool-down.

The model has four modules:

- `LowPass` (lowpass.dfy): the filter update `g <- 0.8 g + 0.2 raw` over exact
  reals, its closed form under a constant input, its monotone approach to
  that input, and its convergence (within any `eps > 0` after an explicit
  number of updates).
- `TimeText` (timetext.dfy): the `HH:MM:SS` stamp built with
  `toString().padStart(2, '0')`, with the proof that each field reads back.
- `Detector` (detector.dfy): one step of the handler as a pure function on a
  `State` value (gravity estimate, latched mode, cool-down flag, log newest
  first), the timer callback, and runs of events. Lemmas state the sample
  classification, the mode latch, the filter branch, the strict threshold,
  the debounce and the front-only growth of the log.
- `MotionSession` (session.dfy): a `Session` class whose fields are the
  module-level variables `gravityZ`, `sensorMode` and `isDetecting` of
  script.js (lines 14-21) plus the on-page log list `logList` (lines 10, 125)
  as a sequence. `THRESHOLD` (line 13) is not a field: it is passed with each
  sample. `HandleMotion` and `ExpireCooldown` update the fields in place, and
  their postconditions tie the new state to `Detector.Process` and
  `Detector.Expire`. A few client methods are example runs of the class
  (fixed sample sequences and the values they produce); they have no
  counterpart in script.js.

The sample shape is chosen per sample, not by the latched mode. When
`acceleration.z` is a number, that branch is taken. Otherwise
`accelerationIncludingGravity.z` is used. Otherwise the sample is skipped
(script.js:72-97). The branch comments (script.js:71 for iPhone, 79 for
Android) suggest one kind of input per device, but the code only latches the
label: a session latched to `A` still runs the filter on a sample that
carries only the gravity-included field, and the log entry then records mode
`A`. The model follows the code
(see `ScenarioCooldown` in session.dfy).

## Model

| member | source | states |
|---|---|---|
| `LowPass.Filter` | script.js:88 | the distance from the new estimate to the raw input is 0.8 times the old distance |
| `LowPass.PowAlphaBounds` | script.js:19 | powers of the smoothing factor 0.8 lie in (0, 1] and strictly decrease |
| `LowPass.IterateClosedForm` | script.js:88 | n updates with a constant input r from estimate g give r + (g - r)·0.8^n |
| `LowPass.FromRest` | script.js:17-19 | from the initial estimate 0, n updates with constant input r give r·(1 - 0.8^n) |
| `LowPass.IterateApproaches` | script.js:88 | with a constant input the estimate moves monotonically toward it from either side and never overshoots |
| `LowPass.PowAlphaUpper` | script.js:19 | 0.8^n·(1 + n/4) <= 1, a bound that makes the powers of 0.8 tend to 0 |
| `LowPass.Converges` | script.js:88 | with a constant input, after `Settle(g, raw, eps)` updates or more, the estimate is strictly within `eps` of the input, for every `eps > 0` |
| `TimeText.Decimal` | script.js:118 | `toString()` of a natural number yields only digits, one digit below 10 and two below 100 |
| `TimeText.PadStart` | script.js:118 | `padStart` reaches the width (never truncates), keeps the string as a suffix and fills the front with the pad character |
| `TimeText.ValueOfDecimal` | script.js:118 | reading back the decimal notation of n gives n |
| `TimeText.ZeroPadKeepsValue` | script.js:118 | padding a digit string with '0' keeps its value |
| `TimeText.Pad2` | script.js:118 | a clock field prints as at least two digits that read back as the field, exactly two below 100 |
| `TimeText.TimeString` | script.js:118 | for a wall-clock time the stamp has 8 characters, ':' at positions 2 and 5, and three two-digit fields that read back as hours, minutes and seconds |
| `Detector.Classify` | script.js:72-97 | the gravity-excluded field wins whenever it is numeric; the gravity-included field is used only without it; neither means unavailable |
| `Detector.Latch` | script.js:74-82 | a known mode stays; an unknown mode takes the observed one |
| `Detector.Detect` | script.js:110-125 | the outcome shows z and fires iff z > threshold and no cool-down runs; firing sets the flag and prepends one entry (time, z, raw, mode); otherwise the state is unchanged; estimate and mode never change here |
| `Detector.Process` | script.js:64-137 | the model of `handleMotionEvent`: unavailable is reported iff no field is usable and then nothing changes; the mode is the latch of the sample's mode; the log stays or gains exactly one entry in front. The single-sample lemmas below and the run lemmas complete its specification |
| `Detector.UnavailableSkips` | script.js:93-97 | a sample with neither field returns early with every part of the state unchanged |
| `Detector.ExcludedPassesThrough` | script.js:72-77 | with the gravity-excluded field present (whatever the other field holds) the value equals the raw reading, the estimate is unchanged and an unknown mode latches to A |
| `Detector.IncludedFilters` | script.js:80-91 | on the gravity-included branch the estimate becomes 0.8·g + 0.2·x and the value is x minus the new estimate, i.e. 0.8·(x - g), whatever mode is latched |
| `Detector.DetectionRule` | script.js:110-125 | a usable sample fires iff its value is strictly above the threshold and no cool-down runs; firing sets the flag and puts exactly one entry (clock reading, value, raw, latched mode) before the unchanged older log; otherwise flag and log are unchanged |
| `Detector.ThresholdIsStrict` | script.js:110 | a value equal to the threshold does not fire and leaves the log unchanged |
| `Detector.CooldownSuppresses` | script.js:110-112 | while the cool-down flag is set no sample adds a log entry and the flag stays set |
| `Detector.Expire` | script.js:131-135 | the timer callback clears the flag and leaves the estimate, mode and log untouched; `RunDebounce` states its role in the debounce |
| `Detector.RunMode` | script.js:72-82 | over any run, a known mode never changes and an unknown mode becomes the mode of the first usable sample (or stays unknown) |
| `Detector.RunKeepsOlderEntries` | script.js:125 | over any run the log only grows at the front: the earlier entries remain, in order, as its tail |
| `Detector.RunDebouncePotential` | script.js:110-135 | log length plus one-if-idle grows by at most one per cool-down expiry |
| `Detector.RunDebounce` | script.js:110-135 | a run adds at most one entry per expiry, plus one if it starts idle; so without an expiry at most one detection fires |
| `Detector.RunUnavailable` | script.js:93-97 | a run of samples without usable fields leaves the state exactly as it was |
| `Detector.RunExcludedKeepsGravity` | script.js:72-77 | a run of gravity-excluded samples never moves the gravity estimate |
| `Detector.RunIncludedFilters` | script.js:84-91 | a run of n gravity-included samples with raw value r filters the estimate n times toward r, whatever the thresholds and mode |
| `Detector.RunIncludedClosedForm` | script.js:17-91 | from estimate 0, n gravity-included samples of r leave the estimate at r·(1 - 0.8^n) |
| `MotionSession.Session.constructor` | script.js:13-21 | a session starts with estimate 0, mode Unknown, no cool-down and an empty log |
| `MotionSession.Session.HandleMotion` | script.js:64-137 | the new fields and the displayed outcome are those of `Detector.Process`; an unavailable sample changes nothing; a detection sets the flag and prepends one entry; otherwise flag and log are unchanged |
| `MotionSession.Session.ExpireCooldown` | script.js:131-135 | the flag is cleared and the estimate, mode and log are unchanged |

## Left out

- DOM lookups and all text, CSS and status updates, including the one-time
  mode announcement that checks the status text with `startsWith`: display
  only. `Detector.Outcome` carries the value the page would display.
- The permission button, `requestPermission` and the event-listener wiring:
  browser plumbing that decides whether samples arrive, not what they do.
- The slider handler with `parseFloat` and `toFixed(1)`: the threshold is a
  plain `real` argument read on every sample.
- `toFixed(2)` formatting of the log text and `console.log`: a log entry keeps
  the clock reading, numeric value, raw value and mode instead of the
  formatted line; the time part of that line is `Detector.Stamp` of the
  reading (`TimeText.TimeString`). The mode names `'A (重力除く)'` and
  `'G (重力込み)'` are display text; the entry keeps the `Mode` value.
- IEEE floating point: values are exact reals and the factor is exactly 4/5,
  so there are no rounding claims. A field that is `NaN` or infinite (still
  of type `number` in JavaScript) has no counterpart.
- `new Date()` and the 1000 ms `setTimeout`: the clock is a `Clock` argument
  and the cool-down end is an explicit `ExpireCooldown` call (or
  `CooldownElapsed` event). No claim is made about elapsed milliseconds, only
  about how many expiries occur between detections.
