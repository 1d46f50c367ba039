# Hand-gesture camera: framing rectangle, pinch trigger and crop

This project is a Dafny model of the gesture core of a browser camera. The
camera follows two hands with a hand-landmark detector:

- the framing hand (hand 0) spans a rectangle between its thumb tip and its index tip;
- the gesture hand (hand 1) takes a photo when it pinches.

A pinch counts when the distance from index tip to thumb tip, divided by a
reference distance calibrated when the hand first appears, drops below one
half. A latch (`photoTaken`) blocks further photos until a 5000 ms cooldown
timer clears it. A photo (`crop()`) fixes the pixel rectangle at once. It
reads the pixels 1000 ms later, so the user can pull the hand away first.

Modules:

- `Geometry` (geometry.dfy): landmarks, the frame rectangle as a pure function
  of two points, and scaling to canvas pixels.
- `Gesture` (gesture.dfy): one frame through the pinch logic as a pure `Step`
  over the gesture state. It also defines traces of frames and cooldown
  expiries, and proves the debounce bound over them.
- `CameraModel` (camera.dfy): the `Camera` class. Most of its fields are the
  ones the source updates in place. Two stand for timer state:
  `cooldownPending` for the cooldown handle `t`, and `settling` for the
  pending settle-timer closures of `crop()`, oldest first. `Tick` is one
  processed video frame. `Crop` is the synchronous part of `crop()`.
  `SettleElapsed` and `CooldownExpired` stand in for the two timer callbacks.
  Each method's contract ties the new fields to the pure functions.
- `Wrappers` (wrappers.dfy): `Option` and `Result`.

Modelling choices:

- Coordinates are exact `real`s.
- The reference distance is kept squared. `sqrt(d²)/sqrt(m²) < 0.5` becomes
  `m² > 0 && d² < m²/4`, and `BelowThresholdIsRatioTest` proves the two tests
  agree for all non-negative distances.
- A zero reference is falsy, so it is replaced by the current distance before
  the division. The only division by zero is therefore 0/0 = NaN, on a
  calibrating frame whose pinch distance is 0, and NaN never compares below
  0.5: that frame does not fire and the next one recalibrates.
  `SquaredReferenceTruthiness` proves that squaring keeps this truthiness.
- The `clicClac` listener calls `crop()` synchronously from inside `emit`, so
  `Tick` performs the crop at that point: after the gesture decision, before
  the rectangle is recomputed. The crop therefore scales the previous tick's
  rectangle by the canvas size set at the start of the current tick.

Behaviour of the code worth knowing:

- The reference distance is cleared only by a frame with no hands at all
  (js/Camera.js:114, 178-181). A frame with only the framing hand keeps it.
- The crop rectangle is fixed when `crop()` is called (js/Camera.js:59-65),
  not when the settle delay ends. The resolved result echoes that rectangle.
- `crop()` (js/Camera.js:55-83) has no guard against a crop already
  settling. With real timers a second one cannot start, because the 5000 ms
  latch outlasts the 1000 ms settle. Since the model's timer events are not
  ordered against ticks, it keeps a queue of pending reads (`settling`),
  resolved oldest first.
- The pixel read (js/Camera.js:69-74) truncates its arguments to integers and
  throws on a zero width or height. It throws inside the settle timer, so
  `resolve` is never reached and that crop never resolves. A framing hand
  whose thumb tip and index tip coincide, or any region under one pixel wide
  or high, ends this way.

## Model

| member | source | states |
|---|---|---|
| Geometry.FrameRect | js/Camera.js:152-166 | width and height are non-negative; the left edge is `1 - max(x)` and the right edge `1 - min(x)` (mirrored); the top is `min(y)` and the bottom `max(y)` |
| Geometry.FrameRectSymmetric | js/Camera.js:152-166 | swapping thumb tip and index tip gives the same rectangle, ties in x or y included |
| Geometry.FrameRectDegenerate | js/Camera.js:158-166 | coinciding landmarks give width = height = 0, located at the mirrored point |
| Geometry.FrameRectExample | js/Camera.js:152-166 | (0.3,0.4),(0.6,0.7) gives top-left (0.4,0.4) and size 0.3 x 0.3 |
| Geometry.FrameRectIsMirroredBoundingBox | js/Camera.js:156-166 | the rectangle contains both mirrored landmarks, and every rectangle containing both encloses it (smallest bounding box) |
| Geometry.FrameRectWithinUnit | js/Camera.js:156-166 | landmarks inside the video frame give a rectangle inside the unit square, so no clamping is needed there |
| Geometry.ToPixels | js/Camera.js:60-65 | scaling keeps sizes non-negative; on a non-empty canvas, dividing the pixel rectangle back by the canvas size restores the normalized rectangle |
| Geometry.ToPixelsWithinCanvas | js/Camera.js:60-74 | a rectangle inside the unit square scales to a pixel rectangle inside the canvas (the region later read) |
| Gesture.SquaredDistance | js/Camera.js:124-134 | the squared pinch distance is never negative |
| Gesture.PinchDistance | js/Camera.js:118-121 | the pinch distance is taken between hand 1's index tip [8] and thumb tip [4], and is non-negative |
| Gesture.SquaredReferenceTruthiness | js/Camera.js:123-128 | storing the square of a non-negative reference distance keeps the truthiness `!max_distance` tests: the squared reference counts as set exactly when the distance is non-zero |
| Gesture.Calibrate | js/Camera.js:123-138 | when no truthy reference was set, the distance that becomes the reference has ratio one to it and never passes the threshold |
| Gesture.BelowThreshold | js/Camera.js:130-138 | a zero reference (division by zero) never passes; a passing distance is below the reference |
| Gesture.BelowThresholdIsRatioTest | js/Camera.js:130-138 | for non-negative distances d and m, `d²<m²/4` with `m²>0` holds exactly when `m>0` and `d/m < 0.5` |
| Gesture.Step | js/Camera.js:114-149 | a frame fires iff it has a second hand, the latch is off, a truthy reference was set before this frame, and the squared ratio is below 1/4; afterwards the latch is on iff it was on or the frame fired |
| Gesture.StepCalibration | js/Camera.js:114-181 | a no-hand frame clears the reference and keeps the latch; a framing-hand-only frame changes nothing; a set reference survives any frame with a hand; an unset one is set to the current pinch distance, without firing |
| Gesture.ReferenceDistanceNeverFires | js/Camera.js:123-138 | a frame at exactly the reference distance (ratio 1) does not fire |
| Gesture.Apply | js/Camera.js:138-148 | from a latched state, only the cooldown callback (lines 143-145) releases the latch, and no event fires while latched |
| Gesture.Debounce | js/Camera.js:138-145 | over any trace of frames and cooldown expiries, fires ≤ expiries + 1, and fires ≤ expiries when the latch starts on |
| Gesture.AtMostOneFirePerCooldown | js/Camera.js:138-148 | with no cooldown expiry, at most one fire happens; when latched, none happens and the latch is still on at the end |
| Gesture.LatchHolds | js/Camera.js:138-148 | without a cooldown expiry, no frame clears the latch, whether the hand disappears or opens |
| Gesture.RecalibratesAfterNoHands | js/Camera.js:114-181 | after a no-hand frame, the next frame with a gesture hand becomes the new reference and does not fire |
| CameraModel.NextRect | js/Camera.js:152-181 | a frame with a hand gives the smallest rectangle containing both mirrored framing landmarks (it contains both, has non-negative sizes, and every rectangle containing both encloses it); a frame with no hands keeps the previous rectangle |
| CameraModel.TruncateToInt | js/Camera.js:69-74 | the canvas's integer conversion truncates toward zero: it gives 0 exactly for values strictly between -1 and 1 |
| CameraModel.Resolve | js/Camera.js:67-82 | the read fails exactly when the width or height is strictly between -1 and 1 pixels; otherwise the result carries the pixels and exactly the x, y, width and height given |
| CameraModel.DegenerateFrameNeverResolves | js/Camera.js:69-81 | a framing hand with coinciding thumb tip and index tip gives a crop whose read throws, so it never resolves |
| CameraModel.CropRect | js/Camera.js:55-65 | the crop fails exactly when no rectangle was ever computed; otherwise dividing by the canvas size gives back the stored rectangle, and a unit-square rectangle stays inside the canvas |
| CameraModel.StepKeepsRectReady | js/Camera.js:114-166 | every frame keeps "reference set ⇒ rectangle computed", so a crop started by a fire always finds a rectangle |
| CameraModel.Camera.constructor | js/Camera.js:6-21 | a new camera has no detection (time -1), no reference, no latch, no rectangle and no pending crop |
| CameraModel.Camera.Crop | js/Camera.js:55-66 | returns the stored rectangle scaled to the current canvas and queues its deferred read; with no rectangle it fails and queues nothing |
| CameraModel.Camera.SettleElapsed | js/Camera.js:67-82 | the oldest pending crop is dequeued and `Resolve`d: it resolves with the pixels read and exactly the x, y, width and height fixed when `crop()` was called, or fails (never resolves) when that region is under one pixel wide or high |
| CameraModel.Camera.CooldownExpired | js/Camera.js:142-145 | clears the latch and the pending timer; keeps the reference |
| CameraModel.Camera.Tick | js/Camera.js:87-188 | the canvas takes the video size; a new detection is used only when the video time changed; the gesture fields become `Step` of the old ones; the tick fires iff `Step` fires, and then crops the previous tick's rectangle at this tick's canvas size; the rectangle becomes the one from hand 0 when there is a hand; the latch always matches a pending cooldown |

## Left out

- Detector loading and `detectForVideo`, `getUserMedia`, the `loadeddata` listener and the `requestAnimationFrame` loop (js/Camera.js:23-53, 93-100, 185-187) are foreign calls and I/O. The detector's answer is the `detected` parameter of `Tick`.
- Canvas drawing, mirroring the video image, stroking the rectangle and the shutter sound (js/Camera.js:58, 88-89, 102-111, 168-177) are rendering side effects.
- Timers are events, not wall-clock time. `CooldownExpired` and `SettleElapsed` are their callbacks, and nothing orders them against ticks. So the model does not derive that the 1000 ms settle ends before the 5000 ms cooldown, and it does not derive that at most one crop is settling.
- Floating point and `Math.sqrt` are not modelled: coordinates are exact reals and distances are squared. NaN from landmark coordinates is not modelled. Division by zero is modelled through a zero reference never firing.
- CameraModel.Camera.SettleElapsed: the pixel data is a parameter standing for `getImageData`, and its contents are outside the model. Coordinates outside the 32-bit range, which make the read throw a range error, are not modelled.
- CameraModel.Camera.Tick: requires a non-negative video time, as video time always is. This makes the first tick always run the detector.
- js/App.js is not part of this model. It covers DOM setup, the keyboard handler, the overlay frame, the loader position and the upload through `Sender`, which is UI and network glue. Only its synchronous `crop()` call from the `clicClac` listener (js/App.js:52-54) is reflected, inside `Tick`.
