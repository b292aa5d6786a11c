# Colour-matching game: the session engine

This project models the game-session engine of a single-screen colour-matching game.
The player drags a swatch to change its hue and brightness, presses Submit before a
ten-second countdown runs out, collects or loses `timeLeft * 10` points per attempt,
and sees the final score after ten attempts. The engine lives in one React Native
component (`App.tsx`). Its state is eight values: `hue`, `brightness`, `tolerance`,
`isCorrect`, `timeLeft`, `isTimerRunning`, `score` and `attempts`.

The model has three files:

- `session.dfy` (module `ColorMatch`) holds the state as a value, the `Session`
  datatype. Every event handler is a function from the session one render sees to the
  session it writes: `AfterGesture`, `AfterAutoStart`, `AfterTick`, `AfterExpiryCheck`,
  `AfterSubmit`, `AfterNext` and `AfterNewGame`. The two timer paths share one expiry
  step, `Forfeited`. The file also has the match distance, the view selection `Phase`,
  and an `Event` datatype with `Run`, which replays a sequence of events.
- `properties.dfy` (module `SessionProperties`) holds the lemmas about those functions.
- `game.dfy` (module `GameEngine`) holds the class `Game`. Its fields are the eight
  state values, and it has one method per handler that overwrites them. Each method's
  postcondition equates the new state with the matching `ColorMatch` function applied
  to the old state. Each method also keeps `Valid()`, the bounds every reachable
  session satisfies.

Hue, brightness, tolerance and distance are Dafny `real`s. This is exact arithmetic
where JavaScript uses doubles, and the abstraction is intended. Times, scores and
attempt counts are unbounded integers.

Some behaviour of the code is modelled literally:

- The match target hue is the current hue, so the hue term of the distance is always
  zero and only brightness decides the verdict.
- The interval body does not test `isTimerRunning`, so ticks go on after a correct
  answer until zero is reached.
- Gestures are not gated on the phase.
- After an incorrect submit, the start effect restarts the countdown for the same
  attempt. When that countdown expires, the attempt is counted a second time, and
  this can take `attempts` past the limit (`IncorrectSubmitThenTimeoutCountsTwice`).
- A timeout does not leave the attempt forfeited. When the zero check stops the timer
  of an unresolved attempt, the start effect restarts a full countdown with the same
  colours and no button pressed (`TimeoutRestarts`). An idle game therefore counts one
  attempt per countdown without end, past the limit, while the final score is shown
  (`IdleGameNeverEnds`).

## Model

| member | source | states |
|---|---|---|
| `ColorMatch.Initial` | App.tsx:20-27 | no contract of its own; specified by `NewGameResets` and `ReachableBounds` |
| `ColorMatch.AfterGesture` | App.tsx:38-43 | no contract of its own; specified by `GestureClamps` |
| `ColorMatch.AfterAutoStart` | App.tsx:45-50 | no contract of its own; specified by `AutoStartFiresExactly` and `TimeoutRestarts` |
| `ColorMatch.Forfeited` | App.tsx:56-70 | no contract of its own; specified by `ExpiryOutcome` |
| `ColorMatch.AfterTick` | App.tsx:53-63 | no contract of its own; specified by `TickCountsDown`, `TicksToZero` and `ExpiryOutcome` |
| `ColorMatch.AfterExpiryCheck` | App.tsx:65-71 | no contract of its own; specified by `ExpiryOutcome` and `ExpiryCheckWaits` |
| `ColorMatch.Matches` | App.tsx:80-84 | no contract of its own; specified by `PassRegionAtDefaultTolerance`, `DistanceIgnoresHue` and `ResetBrightnessFails` |
| `ColorMatch.AfterSubmit` | App.tsx:76-95 | no contract of its own; specified by `SubmitOutcome` and `PassRegionAtDefaultTolerance` |
| `ColorMatch.AfterNext` | App.tsx:97-109 | no contract of its own; specified by `NextOutcome` |
| `ColorMatch.AfterNewGame` | App.tsx:111-120 | no contract of its own; specified by `NewGameResets` |
| `ColorMatch.Clamp` | App.tsx:40-41 | the `min(max(x, lo), hi)` result lies in `[lo, hi]`; it equals `x` inside the interval and the nearer bound outside it |
| `ColorMatch.TargetBrightness` | App.tsx:77 | the target brightness `abs(b - 0.5) * 2` stays in `[0, 1]` whenever `b` does |
| `ColorMatch.Distance` | App.tsx:78-82 | the distance is never negative, and it equals the brightness term alone because the hue term compares the hue with itself |
| `ColorMatch.Phase` | App.tsx:149-176 | final score exactly when `attempts >= 10`; "Correct" exactly when below the limit and `isCorrect`; otherwise the countdown, showing `timeLeft`, with Submit enabled exactly while the timer runs; every view carries the current score |
| `ColorMatch.Ticks` | App.tsx:53-63 | a run of `n` one-second interval firings is `n` events, each of them a tick |
| `SessionProperties.GestureClamps` | App.tsx:38-43 | after any drag, hue is in `[0, 360]` and brightness in `[0, 1]`; inside those ranges hue moves by `translationX` and brightness by `-translationY / 150`; beyond them each sticks at the bound; no other state changes |
| `SessionProperties.TickCountsDown` | App.tsx:53-55 | a tick with time left lowers `timeLeft` by exactly one and changes nothing else, running flag or not |
| `SessionProperties.ExpiryOutcome` | App.tsx:56-70 | at zero the interval body and the zero check make the same step; the timer stops, the score is unchanged (penalty `0 * 10`), and `attempts` rises by one exactly when the attempt was not answered correctly |
| `SessionProperties.ExpiryCheckWaits` | App.tsx:65 | the zero check changes nothing while `timeLeft` is not zero |
| `SessionProperties.AutoStartFiresExactly` | App.tsx:45-50 | the start effect changes the session exactly when `!isCorrect && !isTimerRunning`, and then it sets the timer running with `timeLeft = 10` |
| `SessionProperties.TicksToZero` | App.tsx:53-55 | `n` ticks from `n` seconds leave `timeLeft = 0` and every other value untouched |
| `SessionProperties.DistanceIgnoresHue` | App.tsx:78-82 | two sessions that differ only in hue get the same distance, so hue never affects the verdict |
| `SessionProperties.DistanceClosedForm` | App.tsx:77-82 | on `[0, 1]` the distance is `100(1 - b)` for `b >= 0.5` and `100 * abs(1 - 3b)` below |
| `SessionProperties.PassRegionAtDefaultTolerance` | App.tsx:80-84 | at tolerance 20 a submit is correct if and only if brightness lies in `[4/15, 2/5]` or `[4/5, 1]` |
| `SessionProperties.ResetBrightnessFails` | App.tsx:77-84 | the start brightness 0.5 has distance 50, which exceeds the default tolerance |
| `SessionProperties.SubmitOutcome` | App.tsx:76-95 | every submit sets `isCorrect` to `distance <= tolerance`, stops the timer and raises `attempts` by one; the score changes by `+timeLeft*10` when correct and `-timeLeft*10` otherwise; colours, tolerance and `timeLeft` are kept |
| `SessionProperties.ImmediateSubmitFails` | App.tsx:76-104 | a submit right after Next and the start effect is always incorrect and costs 100 points |
| `SessionProperties.IncorrectSubmitRestarts` | App.tsx:45-50 | after an incorrect submit, the start effect leaves the attempt in progress: the timer runs from 10, colours are unchanged, and the countdown view has Submit enabled unless the attempt limit is reached |
| `SessionProperties.CorrectSubmitShowsFeedback` | App.tsx:156-161 | a correct submit below the limit switches to the "Correct" view, where Submit is not offered |
| `SessionProperties.NextOutcome` | App.tsx:97-108 | below the limit, Next resets brightness to 0.5, tolerance to 20, `isCorrect`, the timer and `timeLeft = 10`, and keeps the score and `attempts`; at the limit it yields the fresh-game session |
| `SessionProperties.NewGameResets` | App.tsx:111-120 | New Game from any session yields score 0, attempts 0, brightness 0.5, tolerance 20, not correct, timer stopped, `timeLeft = 10`: the session the component mounts with |
| `SessionProperties.StepKeepsInv` | App.tsx:16-27 | every event keeps hue, brightness, `timeLeft` and tolerance within their bounds |
| `SessionProperties.RunKeepsInv` | App.tsx:16-27 | any sequence of events keeps those bounds |
| `SessionProperties.ReachableBounds` | App.tsx:20-27 | every session reachable from mount has hue in `[0, 360]`, brightness in `[0, 1]`, tolerance 20 and `timeLeft` in `[0, 10]` |
| `SessionProperties.UntouchedAttemptForfeits` | App.tsx:45-70 | an attempt left alone runs down from 10 and is then counted once, with the score unchanged and the timer stopped |
| `SessionProperties.IncorrectSubmitThenTimeoutCountsTwice` | App.tsx:45-94 | an incorrect submit followed by the restarted countdown's expiry counts one attempt twice; from the last attempt this reaches 11 attempts while the final score is shown |
| `SessionProperties.TimeoutRestarts` | App.tsx:45-70 | after the zero check stops the timer of an unresolved attempt, the start effect restarts a full countdown with the same colours, one attempt further on |
| `SessionProperties.IdleRoundCounts` | App.tsx:45-70 | one idle countdown (start, ten ticks, zero check) counts one attempt, keeps the score and ends with the timer stopped at zero |
| `SessionProperties.IdleGameNeverEnds` | App.tsx:45-70 | from mount, `k` idle countdowns give exactly `k` attempts for every `k`; the final-score view shows from the tenth on while the countdowns continue |
| `GameEngine.Game.constructor` | App.tsx:20-27 | the mounted component holds the initial session with the given random hue, and the bounds hold |
| `GameEngine.Game.Gesture` | App.tsx:38-43 | the fields become the clamped drag result, and the bounds are kept |
| `GameEngine.Game.AutoStart` | App.tsx:45-50 | the fields become those of the start effect |
| `GameEngine.Game.Forfeit` | App.tsx:56-70 | the fields become the shared expiry step |
| `GameEngine.Game.Tick` | App.tsx:53-63 | the fields become the interval body's result |
| `GameEngine.Game.Expire` | App.tsx:65-71 | the fields become the zero check's result |
| `GameEngine.Game.Submit` | App.tsx:76-95 | the fields become the submit handler's result |
| `GameEngine.Game.Next` | App.tsx:97-109 | the fields become the Next handler's result |
| `GameEngine.Game.NewGame` | App.tsx:111-120 | the fields become the New Game handler's result |

## Left out

- Rendering, styles and layout (`App.tsx:122-237`) are not modelled. The only logic in them is the choice of view, which is `Phase`.
- The `hsl(...)` colour strings and the `Math.round` displays are not modelled. They are presentation.
- The `withTiming` easing of the gesture is not modelled. A drag assigns the clamped value immediately.
- `Math.random()` hue draws are not modelled as randomness. Each draw is a parameter that must lie in `[0, 360)`.
- `setInterval`/`clearInterval` scheduling, the order of React effect runs and cleanups, and wall-clock time are not modelled. Tick, the zero check and the start effect are steps that the caller invokes. This means the model does not decide which interleavings the runtime would actually produce.
- The `alert` with the final score in `handleResetGame` is not modelled. It is platform output.
- JavaScript double rounding is not modelled. Every value is an exact real or integer.
- The zero check and the interval body both live in the effect that depends only on `timeLeft` (`App.tsx:52-74`), so both write values taken from the render in which `timeLeft` became 0, and the second write repeats the first. The code thus counts once per expiry; the model states this as `ExpiryOutcome` (`AfterTick(s) == AfterExpiryCheck(s)` at zero, one shared step `Forfeited`). The double count the code does have is per attempt: an incorrect submit followed by the restarted countdown's expiry (`IncorrectSubmitThenTimeoutCountsTwice`).
- `IntervalTick` and `ZeroCheck` read the current session, not the values captured when `timeLeft` last changed. A `Run` that applies both at zero therefore counts the attempt twice where the code's repeated write counts it once; replays should apply one of them per expiry, as `IdleRound` does.
