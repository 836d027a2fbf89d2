# Rect-tri stage: animation arithmetic and state machines

A Dafny model of the animation core of the rect-tri stage, a canvas animation
in which a column of nodes each draws four triangle outlines that grow and
shrink as the node's scale advances. The model covers:

- `ScaleUtil` (module `ScaleUtil`): the piecewise-linear arithmetic that turns
  one scale into segment progress (`maxScale`, `divideScale`), the half-cycle
  indicator (`scaleFactor`), the speed blend (`mirrorValue`), the per-tick step
  (`updateValue`) and linear interpolation (`updateToD`). Numbers are exact
  Dafny `real`s.
- `State` (module `StateMachine`): the per-node state machine with fields
  `scale`, `dir` and `prevScale` (the last settled checkpoint). It is a class
  whose methods update the fields in place; each method is proved equal to a
  step function on the value `StateValue`. The lemmas about those step
  functions give the invariant (`prevScale` is 0 or 1, `dir` is -1, 0 or 1,
  an Idle state rests on its checkpoint), termination of every moving episode
  within 241 ticks, and that the settle callback fires exactly once per
  episode.
- `Animator` (module `Animation`): the guarded start/stop ticker, a class with
  the `animated` flag and an opaque timer handle.
- The constants `lines = 4`, `parts = 3`, `scGap = 0.05`, `scDiv = 0.51`
  and the timer period 50 (module `Config`); `Animator.Start` records the
  period it would hand to the host timer.

Callbacks become a returned boolean `fired` (or `scheduled` / `cleared`) that
says whether the source would have invoked its callback or the host timer.

Facts about the code that shape the model:

- `State.update` passes `lines * parts` and `1` as the speed-blend divisors
  (RectTriStage.ts:111), so a moving scale steps by 0.05/12 below 0.51 and by
  0.05 from 0.51 up to 1.
- The animator's timer period is 50 ms (RectTriStage.ts:136).
- `drawTriangle` strokes its path for every scale (RectTriStage.ts:47-52).
  Drawing is outside this model.

## Model

| member | source | states |
|---|---|---|
| `ScaleUtil.MaxScale` | RectTriStage.ts:15-17 | the result is never negative, is at least `scale - i/n`, and is one of those two values |
| `ScaleUtil.DivideScale` | RectTriStage.ts:19-21 | for every `n > 0`, the segment progress lies in [0, 1] |
| `ScaleUtil.DivideScaleIsClamp` | RectTriStage.ts:19-21 | `divideScale(scale, i, n)` equals `n*scale - i` clamped to [0, 1] |
| `ScaleUtil.DivideScaleIsRamp` | RectTriStage.ts:19-21 | `divideScale` is piecewise: 0 for `scale <= i/n`, 1 for `scale >= (i+1)/n`, `n*scale - i` in between |
| `ScaleUtil.DivideScaleMonotone` | RectTriStage.ts:19-21 | `divideScale` is non-decreasing in `scale` |
| `ScaleUtil.DivideScaleSequential` | RectTriStage.ts:19-21 | segment `i+1` never runs ahead of segment `i`, and it has started only once segment `i` is full |
| `ScaleUtil.SegmentSumSpread` | RectTriStage.ts:19-21 | for `scale >= 0` the first `m` segment progresses add up to `min(n*scale, m)` |
| `ScaleUtil.SegmentSumWhole` | RectTriStage.ts:19-21 | for `scale` in [0, 1] the `n` segment progresses add up to `n*scale`, so the scale is spread over the segments exactly |
| `ScaleUtil.ScaleFactor` | RectTriStage.ts:23-25 | the result `k` is the floor of `scale / 0.51`: `k*0.51 <= scale < (k+1)*0.51` |
| `ScaleUtil.MirrorValue` | RectTriStage.ts:27-30 | the blend is `1/a` in half-cycle 0 and `1/b` in half-cycle 1 |
| `ScaleUtil.UpdateValue` | RectTriStage.ts:32-34 | the step is 0 when `dir == 0`; it is `dir*scGap/a` for scale in [0, 0.51) and `dir*scGap/b` for scale in [0.51, 1.02) |
| `ScaleUtil.UpdateToD` | RectTriStage.ts:36-38 | interpolation gives `s` at fraction 0 and `d` at fraction 1 |
| `ScaleUtil.UpdateToDBetween` | RectTriStage.ts:36-38 | for a fraction in [0, 1] the interpolated point lies between `s` and `d` |
| `ScaleUtil.UpdateToDInverse` | RectTriStage.ts:36-38 | when `s != d`, the fraction is recovered from the interpolated point |
| `StateMachine.UpdateCases` | RectTriStage.ts:110-118 | `update` settles exactly when the stepped scale is more than 1 from `prevScale`. Settling sets `scale` and `prevScale` to old `prevScale + dir`, sets `dir` to 0 and fires the callback. Otherwise only `scale` changes and nothing fires. With `dir == 0` and the scale within 1 of the checkpoint, nothing changes |
| `StateMachine.StartCases` | RectTriStage.ts:120-125 | from Idle, `startUpdating` sets `dir = 1 - 2*prevScale`, keeps `scale` and `prevScale` and fires; from a reachable Idle state that is `dir = 1` at checkpoint 0 and `dir = -1` at checkpoint 1. While moving it changes nothing and does not fire |
| `StateMachine.TickMagnitude` | RectTriStage.ts:111 | in a reachable moving state a tick moves the scale in direction `dir` by between 1/240 and 1/20 |
| `StateMachine.TickAdvances` | RectTriStage.ts:110-118 | a tick that does not settle keeps the invariant and the direction, and strictly lowers the ticks left |
| `StateMachine.UpdatePreservesInv` | RectTriStage.ts:110-118 | `update` preserves the invariant and leaves an Idle reachable state unchanged |
| `StateMachine.StartPreservesInv` | RectTriStage.ts:120-125 | `startUpdating` preserves the invariant |
| `StateMachine.TicksToSettle` | RectTriStage.ts:110-118 | a moving reachable state becomes Idle after between 1 and 241 `update` calls, at checkpoint old `prevScale + dir`, still satisfying the invariant |
| `StateMachine.SettleFiresOnce` | RectTriStage.ts:112-117 | within one moving episode the settle callback fires on the last tick and on no earlier one |
| `StateMachine.RunPreservesInv` | RectTriStage.ts:104-126 | any sequence of `startUpdating` and `update` calls preserves the invariant |
| `StateMachine.ReachableFromInitial` | RectTriStage.ts:106-125 | from `scale = dir = prevScale = 0`, after any calls: `prevScale` is 0 or 1, `dir` is -1, 0 or 1, Idle implies `scale == prevScale`, and at most 241 further `update` calls reach Idle |
| `StateMachine.State.constructor` | RectTriStage.ts:106-108 | a new State has all three fields 0 |
| `StateMachine.State.Update` | RectTriStage.ts:110-118 | the in-place update leaves the fields equal to `UpdateStep` of the old fields and reports whether the callback fired |
| `StateMachine.State.StartUpdating` | RectTriStage.ts:120-125 | the in-place start leaves the fields equal to `StartStep` of the old fields and reports whether the callback fired |
| `Animation.Animator.constructor` | RectTriStage.ts:130-131 | a new animator is not animated and runs no timer |
| `Animation.Animator.Start` | RectTriStage.ts:133-138 | when stopped, sets `animated`, stores the new timer handle and starts one timer with period 50. When already running it changes nothing. Afterwards exactly one timer runs |
| `Animation.Animator.Stop` | RectTriStage.ts:140-145 | when running, clears `animated` and cancels the timer. When stopped it changes nothing. Afterwards no timer runs |
| `Animation.StartThenStop` | RectTriStage.ts:133-145 | `start` then `stop` leaves `animated` false and no timer running, from any valid state |

## Left out

- `DrawingUtil.drawTriangle` and `DrawingUtil.drawRTNode` (RectTriStage.ts:43-70) are not modelled. They are sequences of canvas calls (paths, strokes, save/restore, translate, rotate by multiples of pi).
- The `RectTriStage` class (RectTriStage.ts:73-102), the window size (lines 1-2), the node count (line 3, used only for drawing), the stroke and size factors and the colours (lines 8-11) are not modelled. They are DOM and canvas set-up, and the tap handler there is empty.
- The host timer (`setInterval`, `clearInterval`) is not modelled. `Animator.Start` takes the handle the host would return as a parameter. A ghost count of live timers stands for the host's timers.
- Callbacks are not modelled as functions. Each operation returns whether it would have invoked its callback.
- IEEE-754 arithmetic is not modelled. All numbers are exact reals, so nothing is claimed about rounding drift near the `> 1` threshold or the 0.51 divisor.
- ScaleUtil.MaxScale: requires `n > 0`; `i` and `n` are integers. Every caller passes the positive integer constants 2, 3 or 4. With `n = 0`, JavaScript returns 0 for `i > 0`, NaN for `i = 0` and Infinity for `i < 0`; the model does not cover that case.
- ScaleUtil.DivideScale: requires `n > 0`, because every caller passes 2, 3 or 4. With `n = 0`, JavaScript returns 0 for `i > 0` and NaN for `i <= 0`; the model does not cover that case.
- ScaleUtil.MirrorValue: requires `a` and `b` non-zero. The only caller passes 12 and 1, and a zero divisor would give Infinity or NaN in JavaScript.
- ScaleUtil.UpdateValue: requires `a` and `b` non-zero, for the same reason as `MirrorValue`.
