/**
 * The pinch trigger of the camera, as a pure step over one landmark frame.
 *
 * Hand 1's index tip and thumb tip give a pinch distance.  The first such
 * distance seen while uncalibrated becomes the reference (`max_distance`);
 * a frame whose distance, divided by the reference, is below one half fires
 * the capture unless a capture is already latched (`photoTaken`).  Only the
 * 5000 ms cooldown timer clears the latch, and only a frame without any hand
 * clears the calibration.
 *
 * Distances are kept squared so that no square root is needed: the reference
 * `maxDistance` holds the square of the source's `max_distance`.
 */
module Gesture {
  import opened Wrappers
  import opened Geometry

  /** The normalized pinch distance below which the camera fires. */
  const Threshold: real := 0.5

  /** Delay of the cooldown timer that clears the latch, in milliseconds. */
  const CooldownMs: nat := 5000

  function SquaredDistance(a: Point, b: Point): (d2: real)
    ensures d2 >= 0.0
  {
    var dx, dy := a.x - b.x, a.y - b.y;
    dx * dx + dy * dy
  }

  /** The squared pinch distance of the gesture hand (hand 1, index tip to thumb tip). */
  function PinchDistance(frame: Frame): (d2: real)
    requires |frame| >= 2
    ensures d2 >= 0.0
  {
    SquaredDistance(frame[1][IndexTip], frame[1][ThumbTip])
  }

  /** JavaScript's truthiness of `max_distance`: neither unset, null nor zero. */
  predicate IsCalibrated(maxDistance: Option<real>)
  {
    maxDistance.Some? && maxDistance.value != 0.0
  }

  /**
   * `distance / max_distance < 0.5` on squared distances.  For any
   * non-positive reference the predicate is false, as a division by zero
   * (NaN or Infinity) never compares below the threshold; in the camera the
   * only such division is 0/0, on a calibrating frame with zero distance.
   */
  predicate BelowThreshold(d2: real, m2: real)
    ensures m2 <= 0.0 ==> !BelowThreshold(d2, m2)
    ensures BelowThreshold(d2, m2) ==> d2 < m2
  {
    m2 > 0.0 && d2 < Threshold * Threshold * m2
  }

  /** Comparing squares decides the source's ratio test for every pair of non-negative distances. */
  lemma BelowThresholdIsRatioTest(d: real, m: real)
    requires d >= 0.0 && m >= 0.0
    ensures BelowThreshold(d * d, m * m) <==> m > 0.0 && d / m < Threshold
  {
    if m > 0.0 {
      var h := Threshold * m;
      assert d / m < Threshold <==> d < h by {
        assert (d / m) * m == d;
        MultiplyMonotone(d / m, Threshold, m);
      }
      assert Threshold * Threshold * (m * m) == h * h;
      SquareMonotone(d, h);
    } else {
      assert m * m == 0.0;
    }
  }

  lemma MultiplyMonotone(a: real, b: real, m: real)
    requires m > 0.0
    ensures a < b <==> a * m < b * m
  {
    assert b * m - a * m == (b - a) * m;
    if a < b {
      assert (b - a) * m > 0.0;
    } else {
      assert (a - b) * m >= 0.0;
    }
  }

  lemma SquareMonotone(a: real, b: real)
    requires a >= 0.0 && b >= 0.0
    ensures a < b <==> a * a < b * b
  {
    assert b * b - a * a == (b - a) * (b + a);
    if a < b {
      MultiplyMonotone(0.0, b - a, b + a);
    } else if a > b {
      MultiplyMonotone(0.0, a - b, b + a);
      assert (a - b) * (b + a) == -((b - a) * (b + a));
    }
  }

  /**
   * Keeping the square of the reference keeps its truthiness: the squared
   * reference is calibrated exactly when the unsquared distance is non-zero.
   */
  lemma SquaredReferenceTruthiness(m: real)
    requires m >= 0.0
    ensures IsCalibrated(Some(m * m)) <==> m != 0.0
  {
    SquareMonotone(0.0, m);
    if m == 0.0 {
      assert m * m == 0.0;
    }
  }

  /** The gesture fields of the camera: the (squared) reference distance and the latch. */
  datatype GestureState = GestureState(maxDistance: Option<real>, photoTaken: bool)

  /** A gesture state after one step, and whether the step emitted `clicClac`. */
  datatype Outcome = Outcome(next: GestureState, fired: bool)

  /**
   * Calibration as the source does it: keep a truthy reference, otherwise take
   * the current distance.  The distance that calibrates has ratio one to the
   * new reference, so it never passes the threshold.
   */
  function Calibrate(maxDistance: Option<real>, d2: real): (r: Option<real>)
    ensures r.Some?
    ensures !IsCalibrated(maxDistance) ==> !BelowThreshold(d2, r.value)
  {
    if IsCalibrated(maxDistance) then maxDistance else Some(d2)
  }

  /**
   * One frame through the gesture logic.  A fire needs a reference that was
   * already set before this frame: on the calibrating frame the ratio is one
   * (or undefined for a zero distance), so it never fires.
   */
  function Step(g: GestureState, frame: Frame): (o: Outcome)
    ensures o.fired <==>
      |frame| >= 2 && !g.photoTaken && IsCalibrated(g.maxDistance) &&
      BelowThreshold(PinchDistance(frame), g.maxDistance.value)
    ensures o.next.photoTaken <==> g.photoTaken || o.fired
  {
    if |frame| == 0 then
      Outcome(GestureState(None, g.photoTaken), false)
    else if |frame| == 1 then
      Outcome(g, false)
    else
      var d2 := PinchDistance(frame);
      var m := Calibrate(g.maxDistance, d2);
      var fire := BelowThreshold(d2, m.value) && !g.photoTaken;
      Outcome(GestureState(m, g.photoTaken || fire), fire)
  }

  /** Calibration is cleared by a frame without hands, and by nothing else. */
  lemma StepCalibration(g: GestureState, frame: Frame)
    ensures |frame| == 0 ==> Step(g, frame) == Outcome(GestureState(None, g.photoTaken), false)
    ensures |frame| == 1 ==> Step(g, frame) == Outcome(g, false)
    ensures |frame| >= 1 && IsCalibrated(g.maxDistance) ==> Step(g, frame).next.maxDistance == g.maxDistance
    ensures |frame| >= 2 && !IsCalibrated(g.maxDistance) ==>
      Step(g, frame).next.maxDistance == Some(PinchDistance(frame)) && !Step(g, frame).fired
  {
  }

  /** A frame at exactly the reference distance has ratio one and does not fire. */
  lemma ReferenceDistanceNeverFires(g: GestureState, frame: Frame)
    requires |frame| >= 2 && g.maxDistance == Some(PinchDistance(frame))
    ensures !Step(g, frame).fired
  {
  }

  /**
   * The inputs of the gesture logic: a detector frame, or the callback of the
   * cooldown timer, which runs CooldownMs after the fire that scheduled it.
   */
  datatype Event = Detected(frame: Frame) | CooldownExpiry

  /**
   * A frame goes through Step; the cooldown callback only clears the latch.
   * Only that callback releases a latched state, and nothing fires while latched.
   */
  function Apply(g: GestureState, e: Event): (o: Outcome)
    ensures g.photoTaken && !o.next.photoTaken ==> e == CooldownExpiry
    ensures g.photoTaken ==> !o.fired
  {
    match e
    case Detected(frame) => Step(g, frame)
    case CooldownExpiry => Outcome(GestureState(g.maxDistance, false), false)
  }

  /** The gesture state after a trace of events. */
  function Final(g: GestureState, trace: seq<Event>): GestureState
    decreases |trace|
  {
    if trace == [] then g else Final(Apply(g, trace[0]).next, trace[1..])
  }

  /** How many times a trace of events fires. */
  function Fires(g: GestureState, trace: seq<Event>): nat
    decreases |trace|
  {
    if trace == [] then 0
    else
      var o := Apply(g, trace[0]);
      (if o.fired then 1 else 0) + Fires(o.next, trace[1..])
  }

  function Expiries(trace: seq<Event>): nat
    decreases |trace|
  {
    if trace == [] then 0
    else (if trace[0] == CooldownExpiry then 1 else 0) + Expiries(trace[1..])
  }

  /**
   * Debounce: whatever the frames, every fire but the first needs a cooldown
   * expiry before it, and a latched state needs one before any fire.
   */
  lemma {:induction false} Debounce(g: GestureState, trace: seq<Event>)
    ensures Fires(g, trace) <= Expiries(trace) + (if g.photoTaken then 0 else 1)
    decreases |trace|
  {
    if trace != [] {
      Debounce(Apply(g, trace[0]).next, trace[1..]);
    }
  }

  /** Within one cooldown window (no expiry) at most one fire happens, and none while latched. */
  lemma AtMostOneFirePerCooldown(g: GestureState, trace: seq<Event>)
    requires Expiries(trace) == 0
    ensures Fires(g, trace) <= 1
    ensures g.photoTaken ==> Fires(g, trace) == 0 && Final(g, trace).photoTaken
  {
    Debounce(g, trace);
    if g.photoTaken {
      LatchHolds(g, trace);
    }
  }

  /** Without an expiry, a latched state stays latched through any frames. */
  lemma {:induction false} LatchHolds(g: GestureState, trace: seq<Event>)
    requires Expiries(trace) == 0 && g.photoTaken
    ensures Final(g, trace).photoTaken
    decreases |trace|
  {
    if trace != [] {
      LatchHolds(Apply(g, trace[0]).next, trace[1..]);
    }
  }

  /**
   * Recalibration: after a frame without hands, the next frame with a gesture
   * hand takes its own pinch distance as the new reference.
   */
  lemma RecalibratesAfterNoHands(g: GestureState, empty: Frame, frame: Frame)
    requires |empty| == 0 && |frame| >= 2
    ensures Final(g, [Detected(empty), Detected(frame)]).maxDistance == Some(PinchDistance(frame))
    ensures Fires(g, [Detected(empty), Detected(frame)]) == 0
  {
    var trace := [Detected(empty), Detected(frame)];
    var g1 := Step(g, empty).next;
    assert Apply(g, Detected(empty)) == Step(g, empty);
    assert Apply(g1, Detected(frame)) == Step(g1, frame);
    assert trace[1..] == [Detected(frame)];
    assert [Detected(frame)][1..] == [];
    assert Final(g, trace) == Final(g1, [Detected(frame)]) == Step(g1, frame).next;
    assert !Step(g1, frame).fired;
    assert Fires(g1, [Detected(frame)]) == Fires(Step(g1, frame).next, []) == 0;
    assert Fires(g, trace) == Fires(g1, [Detected(frame)]);
  }
}
