# Thermostat controls: gesture-to-value arithmetic in Dafny

This project models the arithmetic core of an Expo thermostat screen. It covers three parts:

- **The temperature dial** (`ThermostatGradientCircle`, module `Dial`). A pan gesture around the dial's pivot drives a `rotation`. A reference angle `lastAngle` accompanies it. Each update applies the wrapped angular delta. The step is accepted only strictly between the thresholds −0.85 and 1.85. Otherwise the rotation is clamped and the reference angle stays put. The rotation maps to a temperature by a decreasing affine map onto [62, 86]. `Math.round` then gives the reported value. At release, a fling with squared radius above 1 hands `-ω/2` to a decay animation clamped to the same thresholds. Here ω = (r × v)/|r|².
- **The fan slider** (`FanSlider`, module `Fan`). Begin snapshots the thumb position. Each update sets the position to `clamp(snapshot + translation, 0, width)` and sets a left/right/idle direction from the translation's sign. End maps the position back to the value range. An external value change moves the thumb to the mapped position. The value↔position maps are inverse to each other.
- **The ambient bubble** (`MaskBubble`, module `Bubble`). Enabling arms a run of 15 steps. Each completed step adds π/15 to the angle and draws a jitter in [−1.1, 1.1). Disabling resets the angle and the expansion and cancels the run.

Module `Numeric` holds the shared `Clamp`, JavaScript's `Math.round` (nearest integer, halves up), an `Option` type, and `Wrap`. `Wrap` is the shortest signed angle that `atan2(sin x, cos x)` denotes, computed exactly over reals as x shifted by whole turns into (−π, π].

Everything is over Dafny `real`, so floating-point rounding is not modelled. The dial's pointer angle (`atan2` of the touch point about the pivot) is an input. The dial has two forms of update:
- `Dial.Drag` derives the delta from the stored reference angle through `Wrap`, as the handler does.
- `Dial.Update` takes the delta as a free input, for properties that hold for every delta.

The fan's track width (from layout) and the enabled flag are inputs of each handler. The bubble's random draw (`Math.random()`, in [0, 1)) is an input. Its rest angle `_initTheta` is a parameter, because it depends on a `pxToRad` helper that is not part of this model.

Behaviour of the code worth knowing:

- Overshoot at a bound is remembered. A clamped step keeps the old reference angle, so later samples are measured from it. Bringing the pointer part of the way back changes nothing. The rotation leaves the bound only once the pointer is back past the old reference (`Dial.ReversalWaitsForReference`).
- Gesture begin re-references the drag to the finger-down angle, except when the stored reference is exactly 0. In that case a gesture that never moves still turns the dial (`Dial.ZeroReferenceStillGestureMoves`).
- The fan direction comes from the sign of the gesture's cumulative `translationX` since begin, not from the instantaneous change.
- On a value change, the direction comes from the sign of the new value, not from the change (`Fan.SyncDirectionFollowsSign`).
- The bubble's enable effect does not reset the angle. Only disabling does (`Bubble.RerunWithoutResetOvershoots`).
- The dial's gesture has no enabled guard. The `isEnabled` prop is read but unused, so the dial model has no enabled flag.
- The zero-length track is not fully guarded in the fan slider. Its end handler divides by the width (see Findings).
- The screen keeps `selectedRoom` as a plain string and only passes it to the top controls for display. No per-room temperature or fan value exists. The room palette table in the colour constants is never read.

## Model

| member | source | states |
|---|---|---|
| Numeric.Clamp | components/bottom-controls/FanSlider.tsx:75-81 | the result lies in [lo, hi]; it is the input when the input is inside, the crossed bound otherwise |
| Numeric.Round | components/thermostat-slider/ThermostatSlider.tsx:101 | `Math.round` yields the unique integer n with n − ½ ≤ x < n + ½ |
| Numeric.RoundMonotone | components/thermostat-slider/ThermostatSlider.tsx:158 | rounding preserves order, so the rounded report inherits the map's monotonicity |
| Numeric.Wrap | components/thermostat-slider/ThermostatSlider.tsx:87-88 | the wrapped delta always lies in (−π, π] and equals the raw difference when that is already in (−π, π] |
| Numeric.WrapPeriodic | components/thermostat-slider/ThermostatSlider.tsx:87-88 | raw differences a whole turn apart wrap to the same delta, so there is no 2π jump |
| Numeric.WrapHalfTurn | components/thermostat-slider/ThermostatSlider.tsx:87-88 | angles exactly π apart give +π whichever way round they are |
| Dial.Begin | components/thermostat-slider/ThermostatSlider.tsx:79-82 | begin never moves the rotation; it resets the reference to the pointer angle unless the stored reference is exactly 0, in which case the state is unchanged |
| Dial.Update | components/thermostat-slider/ThermostatSlider.tsx:85-98 | strictly inside the thresholds the rotation moves by exactly −δ and the reference follows the pointer; past a bound the rotation sits on that bound and the reference is unchanged; a candidate exactly on a threshold leaves the whole state unchanged; the reference changes only on an accepted step; an in-range rotation stays in range |
| Dial.Drag | components/thermostat-slider/ThermostatSlider.tsx:85-98 | with the delta taken from the stored reference: the rotation stays in range; a pointer resting on the reference moves nothing; within half a turn of the reference an accepted step moves the rotation by exactly the pointer's angular change and re-references, and an overshoot clamps to −0.85 and keeps the reference |
| Dial.DragIgnoresWholeTurns | components/thermostat-slider/ThermostatSlider.tsx:86-89 | a pointer angle a whole turn further gives the same rotation |
| Dial.ReversalWaitsForReference | components/thermostat-slider/ThermostatSlider.tsx:89-98 | after an overshoot past −0.85, pointer angles still at or past the kept reference change nothing and the report stays 86; an angle back before the reference moves the rotation off the bound by exactly the distance past it |
| Dial.BeginRereferences | components/thermostat-slider/ThermostatSlider.tsx:79-98 | with a non-zero stored reference, the first drag of a gesture is measured from the finger-down angle |
| Dial.ZeroReferenceStillGestureMoves | components/thermostat-slider/ThermostatSlider.tsx:80-82 | with a stored reference of exactly 0, a gesture that stays at 0.5 rad still turns the dial from 0.3 to −0.2 |
| Dial.StillGestureKeepsValue | components/thermostat-slider/ThermostatSlider.tsx:78-98 | with a non-zero stored reference, a gesture whose finger never moves leaves the rotation unchanged, however many samples arrive |
| Dial.TemperatureDecreasing | components/thermostat-slider/ThermostatSlider.tsx:100 | the temperature map is strictly decreasing in the rotation |
| Dial.TemperatureValues | components/thermostat-slider/ThermostatSlider.tsx:22-27 | the map sends −0.85 to 86, 1.85 to 62 and 0.5 to 74, and every in-range rotation into [62, 86] |
| Dial.ReportedTemperature | components/thermostat-slider/ThermostatSlider.tsx:156-159 | the rounded report is an integer in [62, 86] for in-range rotations, exactly 86 at −0.85, 62 at 1.85 and 74 at 0.5 |
| Dial.ReportedNonIncreasing | components/thermostat-slider/ThermostatSlider.tsx:100-101 | a larger rotation never reports a higher temperature |
| Dial.OnUpdate | components/thermostat-slider/ThermostatSlider.tsx:85-101 | the live report is the same rounded formula applied to the rotation the update left, so it agrees with the derived-value report and lies in [62, 86] |
| Dial.ZeroDeltaKeepsRotation | components/thermostat-slider/ThermostatSlider.tsx:87-98 | a zero delta leaves the rotation and the report unchanged; at a bound it leaves the whole state unchanged |
| Dial.SaturatedAtMinimum | components/thermostat-slider/ThermostatSlider.tsx:91-98 | at the hot bound a non-negative delta changes nothing and the report stays 86; a negative delta is accepted at once as −0.85 − δ and does not raise the report |
| Dial.Release | components/thermostat-slider/ThermostatSlider.tsx:106-125 | a decay starts exactly when the squared radius exceeds 1; it is clamped to the same thresholds with deceleration 0.995, and its velocity times r² is −½ of the y-up cross product r × v |
| Dial.RadialReleaseHasNoSpin | components/thermostat-slider/ThermostatSlider.tsx:115-118 | a release velocity parallel to the pivot-to-pointer vector gives ω = 0, so the decay starts with velocity 0 |
| Dial.DecayTurnsLikeDrag | components/thermostat-slider/ThermostatSlider.tsx:118-121 | a counter-clockwise fling gives a negative decay velocity and a clockwise one a positive velocity, matching the sign of the drag update |
| Dial.DecayFrame | components/thermostat-slider/ThermostatSlider.tsx:120-124 | any value the decay proposes is clamped into the thresholds; it is kept when in range, and the reference angle is untouched |
| Dial.RunStaysInRange | components/thermostat-slider/ThermostatSlider.tsx:85-124 | from any in-range rotation, every sequence of begins, updates, reference-derived drags and decay frames keeps the rotation in [−0.85, 1.85] and the report in [62, 86] |
| Dial.InitialRunStaysInRange | components/thermostat-slider/ThermostatSlider.tsx:67-68 | the mounted rotation 0.3 reports 76, and from the mounted state every event sequence stays in range with a report in [62, 86] |
| Dial.ZeroGestureKeepsValue | components/thermostat-slider/ThermostatSlider.tsx:78-98 | a gesture that begins and then moves only with zero deltas leaves the rotation unchanged |
| Fan.DirectionOf | components/bottom-controls/FanSlider.tsx:83 | the direction is left iff the translation is negative, right iff positive, idle iff zero |
| Fan.Begin | components/bottom-controls/FanSlider.tsx:65-70 | with a negative width or disabled, nothing changes; otherwise, a zero width included, the snapshot takes the current position |
| Fan.Update | components/bottom-controls/FanSlider.tsx:71-84 | with width ≤ 0 or disabled, nothing changes; otherwise the position is the snapshot plus the translation clamped to [0, width], the snapshot is kept and the direction follows the translation's sign |
| Fan.UpdatesDoNotAccumulate | components/bottom-controls/FanSlider.tsx:75-81 | updates are measured from the begin snapshot, so a later update fully overrides an earlier one |
| Fan.ValueAt | components/bottom-controls/FanSlider.tsx:55-57 | a position on a laid-out track reads back as a value in [min, max] |
| Fan.PositionOf | components/bottom-controls/FanSlider.tsx:39-41 | a value in [min, max] maps onto the track [0, width] |
| Fan.ValueAtPositionOf | components/bottom-controls/FanSlider.tsx:40-56 | value → position → value is the identity when width > 0 and max > min |
| Fan.PositionOfValueAt | components/bottom-controls/FanSlider.tsx:40-56 | position → value → position is the identity when width > 0 and max > min |
| Fan.EndAsWritten | components/bottom-controls/FanSlider.tsx:85-88 | end sets the direction to idle and reports the mapped position; it yields no number exactly when the width is 0 |
| Fan.ZeroWidthGestureReportsNoNumber | components/bottom-controls/FanSlider.tsx:64-88 | on a width-0 track, begin still snapshots and update does nothing, and the end handler as written produces no number |
| Fan.End | components/bottom-controls/FanSlider.tsx:85-88 | with the width guard, end reports exactly when width > 0, agreeing with the unguarded handler there, and the report lies in [min, max] for an on-track thumb |
| Fan.SyncStart | components/bottom-controls/FanSlider.tsx:39-52 | the thumb heads for the position that reads back as the new value, on the track when the value is in range; the direction is right iff the value is positive, left otherwise |
| Fan.SyncFinished | components/bottom-controls/FanSlider.tsx:41-45 | when the timed move finishes the direction becomes idle and the positions are kept |
| Fan.SyncDirectionFollowsSign | components/bottom-controls/FanSlider.tsx:47-51 | lowering the value from 80 to 50 moves the thumb left yet sets the direction to right |
| Fan.RunKeepsThumbOnTrack | components/bottom-controls/FanSlider.tsx:64-88 | on a track of fixed non-negative width with in-range external values, every event sequence keeps the thumb and its snapshot in [0, width], and any end report lies in [min, max] |
| Bubble.Jitter | components/thermostat-slider/MaskBubble.tsx:54 | the jitter drawn from a random number in [0, 1) lies in [−1.1, 1.1) |
| Bubble.JitterRecoversDraw | components/thermostat-slider/MaskBubble.tsx:54 | the jitter map is invertible: the draw is recovered from the jitter |
| Bubble.Effect | components/thermostat-slider/MaskBubble.tsx:47-60 | enabling arms a run of 15 steps without touching the angle; disabling sets the angle back to rest and the expansion to 0.15 and cancels the run |
| Bubble.SetEnabled | components/thermostat-slider/MaskBubble.tsx:61 | the effect runs only when the enabled flag changes; otherwise the state is unchanged |
| Bubble.Mount | components/thermostat-slider/MaskBubble.tsx:43-61 | after mount the angle is at rest, and a full run is armed iff the bubble is enabled |
| Bubble.CompleteStep | components/thermostat-slider/MaskBubble.tsx:49-56 | a completed step of an armed run adds exactly π/15 to the angle, uses up one step and draws a new jitter; with no run armed nothing happens |
| Bubble.Radius | components/thermostat-slider/MaskBubble.tsx:68 | the drawn radius is 0.15·maxRadius at rest and between that and maxRadius while the expansion is in [0.15, 1] |
| Bubble.StepCompletionTime | components/thermostat-slider/MaskBubble.tsx:11-14 | step k of a run completes at delay + 100·k ms, within [delay + 100, delay + 1500], and the 15th at delay + 1500 ms |
| Bubble.StepSpacing | components/thermostat-slider/MaskBubble.tsx:13-14 | the per-step duration is 1500/15 = 100 ms, and consecutive steps complete exactly 100 ms apart |
| Bubble.InvariantBoundsTheta | components/thermostat-slider/MaskBubble.tsx:10-12 | under the run invariant the angle stays in [initTheta, initTheta + π] |
| Bubble.StepKeepsInvariant | components/thermostat-slider/MaskBubble.tsx:47-60 | every toggle and every completed step preserves the run invariant |
| Bubble.MountEstablishesInvariant | components/thermostat-slider/MaskBubble.tsx:43-61 | mounting, enabled or not, establishes the run invariant |
| Bubble.RunStaysBounded | components/thermostat-slider/MaskBubble.tsx:43-68 | from any invariant state, every sequence of toggles and completed steps keeps the angle in [initTheta, initTheta + π] and the radius in [0.15·maxRadius, maxRadius] |
| Bubble.StepsAdvanceTheta | components/thermostat-slider/MaskBubble.tsx:49-56 | n completed steps advance the angle by exactly min(n, remaining) steps of π/15, so a run never does more than it armed |
| Bubble.DisableMidRunRestarts | components/thermostat-slider/MaskBubble.tsx:57-60 | disabling mid-run (step 7 of 15) returns the bubble to rest, and re-enabling arms a full 15-step run from the rest angle |
| Bubble.RerunWithoutResetOvershoots | components/thermostat-slider/MaskBubble.tsx:47-61 | re-running the enable effect while enabled after a full run does not reset the angle, and a second run leaves it at initTheta + 2π |

## Findings

| source | as written | input that shows it | evidently intended | confidence | as-written member | corrected member |
|---|---|---|---|---|---|---|
| components/bottom-controls/FanSlider.tsx:85-88 | the end handler reports `translateX / width * (max − min) + min` with no width guard, although begin accepts a width-0 track | a pan on a track whose layout width is still 0: begin snapshots, update is skipped, end computes 0/0 and reports NaN | report only from a laid-out track (width > 0), as the update handler's guard does | not executed | Fan.EndAsWritten | Fan.End |

`Fan.ZeroWidthGestureReportsNoNumber` shows that a begin/update/end sequence reaches the unguarded division. The rest of the model uses `Fan.End`.

## Left out

- Trigonometry is not computed. The pointer angle `atan2` of the touch point is an input, and so are the release position and velocity. The wrapped delta is computed exactly by `Numeric.Wrap`. `Dial.Update` also accepts the delta as a free input.
- Floating point is not modelled. All arithmetic is exact over reals, and `Pi` is `Math.PI` written to 16 digits.
- The internals of the animation library are not modelled: `withDecay`, `withTiming`, `withSequence`, `withRepeat`, `withDelay` and easing curves. For the decay, only its clamp is modelled (`Dial.DecayFrame`), not the deceleration law or its termination.
- Intermediate frames of timed moves are not modelled. The fan thumb's 300 ms move is modelled by its end point. The bubble's 1 ms angle move is modelled by its target. Its expansion is modelled at step completions only.
- A drag cancelling an in-flight decay or timed move is not modelled. The library's cancel-on-assign behaviour is not shown.
- The bell-pulse animations on the dial (`bellAnim`, `bellStartAnim`) are not modelled. They are visual only and never feed the value.
- Haptic feedback calls, rendering (Skia, animated styles), the tick and bell path generators, layout measurement, theme and palette tables, and fonts are not modelled.
- The screen wiring in the app entry point is not modelled. This includes fan speed 33/0 on enable and the haptics per temperature change.
- The room modal, power switch, mode buttons, header and display are not modelled.
- No per-room value or blend between rooms exists in the program. The screen holds `selectedRoom` only as a display string, and the room palette table is unused. So there is nothing to model.
- The hop between the UI thread and the JS thread (`runOnJS`) is not modelled. Reports are modelled as values returned by the handler.
- The bubble's `delay` prop change is not modelled as an event. Its effect re-run is modelled directly by `Bubble.RerunWithoutResetOvershoots`. The θ ≤ initTheta + π bound is proved for the toggles of the enabled flag (`Bubble.RunStaysBounded`).
- Fan.RunKeepsThumbOnTrack: the track width is fixed for the whole run. A layout change that shrinks the track can leave the thumb beyond the new width, and this is not covered.
- The fan's value-change effect divides by `max − min`. The model requires `min < max`, which the only caller meets by passing 0 and 100.
